/**
 * The free-text rules file (`parseRulesText`): blank-line separated blocks, each split
 * into a game name and its rule text, the rule text cut into sentences, and each
 * sentence applied to a rule that starts from the defaults.
 */
module RuleText {
  import opened Text
  import opened Rules
  import opened RuleGrammar

  // ---------------------------------------------------------------------------
  // Blocks: `text.split(/\r?\n\s*\r?\n/).map(trim).filter(Boolean)`.

  /** The length of a `\r?\n` at `p`, or 0. */
  function NewlineAt(s: string, p: nat): (n: nat)
    requires p <= |s|
    ensures p + n <= |s| && n <= 2
  {
    if p + 1 < |s| && s[p] == '\r' && s[p + 1] == '\n' then 2
    else if p < |s| && s[p] == '\n' then 1
    else 0
  }

  /** The last `\n` in `s[q..e]`, if any. */
  function LastNewline(s: string, q: nat, e: nat): (j: Option<nat>)
    requires q <= e <= |s|
    ensures j.Some? ==> q <= j.value < e && s[j.value] == '\n'
    ensures j.Some? ==> forall i :: j.value < i < e ==> s[i] != '\n'
    ensures j.None? ==> forall i :: q <= i < e ==> s[i] != '\n'
    decreases e - q
  {
    if e == q then None
    else if s[e - 1] == '\n' then Some(e - 1)
    else LastNewline(s, q, e - 1)
  }

  /**
   * The end of the blank-line separator `\r?\n\s*\r?\n` starting at `p`, if one does:
   * a line break, then the longest whitespace run that still ends in a line break.
   */
  function SeparatorEnd(s: string, p: nat): (e: Option<nat>)
    requires p <= |s|
    ensures e.Some? ==> p < e.value <= |s|
  {
    var n := NewlineAt(s, p);
    if n == 0 then None
    else
      var q := p + n;
      match LastNewline(s, q, SpaceEnd(s, q))
      case None => None
      case Some(j) => Some(j + 1)
  }

  /**
   * The leftmost separator at or after `p`: where it starts and where it ends.
   */
  function NextCut(s: string, p: nat): (r: Option<(nat, nat)>)
    requires p <= |s|
    ensures r.Some? ==> p <= r.value.0 < |s| && SeparatorEnd(s, r.value.0) == Some(r.value.1)
    ensures r.Some? ==> forall q :: p <= q < r.value.0 ==> SeparatorEnd(s, q).None?
    ensures r.None? ==> forall q :: p <= q < |s| ==> SeparatorEnd(s, q).None?
    decreases |s| - p
  {
    if p == |s| then None
    else
      match SeparatorEnd(s, p)
      case Some(e) => Some((p, e))
      case None => NextCut(s, p + 1)
  }

  /** The pieces of `s[start..]` between separators. */
  function Pieces(s: string, start: nat): (ps: seq<string>)
    requires start <= |s|
    ensures |ps| >= 1
    decreases |s| - start
  {
    match NextCut(s, start)
    case None => [s[start..]]
    case Some((q, e)) => [s[start..q]] + Pieces(s, e)
  }

  /** Trims every piece and drops the empty ones. */
  function Tidy(ps: seq<string>): (r: seq<string>)
    ensures forall i :: 0 <= i < |r| ==> r[i] != "" && Trimmed(r[i])
    ensures |r| <= |ps|
  {
    if ps == [] then []
    else
      var t := Trim(ps[0]);
      TrimIsTrimmed(ps[0]);
      (if t == "" then [] else [t]) + Tidy(ps[1..])
  }

  /** Tidying a concatenation tidies each part: the kept pieces stay in order. */
  lemma {:induction false} TidyAppend(a: seq<string>, b: seq<string>)
    ensures Tidy(a + b) == Tidy(a) + Tidy(b)
  {
    if a == [] {
      assert a + b == b;
    } else {
      assert (a + b)[0] == a[0] && (a + b)[1..] == a[1..] + b;
      TidyAppend(a[1..], b);
    }
  }

  /** The tidied pieces are exactly the trimmed pieces that are not blank. */
  lemma {:induction false} TidyMembers(ps: seq<string>)
    ensures forall x :: x in Tidy(ps) <==> x != "" && exists i :: 0 <= i < |ps| && Trim(ps[i]) == x
  {
    if ps != [] {
      TidyMembers(ps[1..]);
      forall x ensures x in Tidy(ps) <==> x != "" && exists i :: 0 <= i < |ps| && Trim(ps[i]) == x {
        if x != "" && (exists i :: 0 <= i < |ps| && Trim(ps[i]) == x) {
          var i :| 0 <= i < |ps| && Trim(ps[i]) == x;
          if i > 0 {
            assert Trim(ps[1..][i - 1]) == x;
          }
        }
        if x in Tidy(ps[1..]) {
          var i :| 0 <= i < |ps[1..]| && Trim(ps[1..][i]) == x;
          assert Trim(ps[i + 1]) == x;
        }
      }
    }
  }

  function Blocks(text: string): (bs: seq<string>)
    ensures forall i :: 0 <= i < |bs| ==> bs[i] != "" && Trimmed(bs[i])
  {
    Tidy(Pieces(text, 0))
  }

  /** `ps[0] + seps[0] + ps[1] + ... + ps[n]`: the text pieces and their cuts came from. */
  function Interleave(ps: seq<string>, seps: seq<string>): string
    requires |ps| == |seps| + 1
  {
    if seps == [] then ps[0] else ps[0] + seps[0] + Interleave(ps[1..], seps[1..])
  }

  lemma InterleaveCons(a: string, sep: string, ps: seq<string>, seps: seq<string>)
    requires |ps| == |seps| + 1
    ensures Interleave([a] + ps, [sep] + seps) == a + sep + Interleave(ps, seps)
  {
    assert ([a] + ps)[1..] == ps && ([sep] + seps)[1..] == seps;
  }

  /** `t` is one whole match of `\r?\n\s*\r?\n`. */
  predicate IsSeparator(t: string)
  {
    var n := if |t| >= 2 && t[0] == '\r' && t[1] == '\n' then 2 else 1;
    |t| > n && (n == 2 || t[0] == '\n') && t[|t| - 1] == '\n' && AllSpace(t)
  }

  /** What `SeparatorEnd` finds is a whole separator. */
  lemma SeparatorShape(s: string, p: nat)
    requires p <= |s| && SeparatorEnd(s, p).Some?
    ensures IsSeparator(s[p..SeparatorEnd(s, p).value])
  {
    var n := NewlineAt(s, p);
    var q := p + n;
    var j := LastNewline(s, q, SpaceEnd(s, q)).value;
    var t := s[p..j + 1];
    assert t[|t| - 1] == s[j];
    forall i | 0 <= i < |t| ensures IsSpace(t[i]) {
      assert t[i] == s[p + i];
    }
    if n == 2 {
      assert t[0] == '\r' && t[1] == '\n';
    } else {
      assert t[0] == '\n';
    }
  }

  /** The separators `Pieces` cuts at, in order. */
  function Separators(s: string, start: nat): (seps: seq<string>)
    requires start <= |s|
    ensures |seps| + 1 == |Pieces(s, start)|
    decreases |s| - start
  {
    match NextCut(s, start)
    case None => []
    case Some((q, e)) => [s[q..e]] + Separators(s, e)
  }

  /** Every cut is a whole separator. */
  lemma {:induction false} SeparatorsShape(s: string, start: nat)
    requires start <= |s|
    ensures forall i :: 0 <= i < |Separators(s, start)| ==> IsSeparator(Separators(s, start)[i])
    decreases |s| - start
  {
    match NextCut(s, start)
    case None =>
    case Some((q, e)) =>
      SeparatorShape(s, q);
      SeparatorsShape(s, e);
  }

  /** The pieces, with the separators put back between them, rebuild the text. */
  lemma {:induction false} PiecesRebuild(s: string, start: nat)
    requires start <= |s|
    ensures Interleave(Pieces(s, start), Separators(s, start)) == s[start..]
    decreases |s| - start
  {
    match NextCut(s, start)
    case None =>
    case Some((q, e)) =>
      PiecesRebuild(s, e);
      PiecesRebuildStep(s, start, q, e);
  }

  /** The step of `PiecesRebuild`: the piece before the first cut, the cut, then the rest. */
  lemma PiecesRebuildStep(s: string, start: nat, q: nat, e: nat)
    requires start <= |s| && NextCut(s, start) == Some((q, e))
    requires Interleave(Pieces(s, e), Separators(s, e)) == s[e..]
    ensures Interleave(Pieces(s, start), Separators(s, start)) == s[start..]
  {
    var ps, seps := Pieces(s, e), Separators(s, e);
    assert e <= |s| by {
      assert SeparatorEnd(s, q) == Some(e);
    }
    assert Pieces(s, start) == [s[start..q]] + ps;
    assert Separators(s, start) == [s[q..e]] + seps;
    InterleaveCons(s[start..q], s[q..e], ps, seps);
    SliceThree(s, start, q, e);
  }

  lemma SliceThree(s: string, i: nat, j: nat, k: nat)
    requires i <= j <= k <= |s|
    ensures s[i..] == s[i..j] + s[j..k] + s[k..]
  {
  }

  /**
   * The blocks are the non-blank pieces of the text, trimmed, in order, where the
   * pieces are what lies between whole separators and rebuild the text with them.
   */
  lemma BlocksSpec(text: string)
    ensures Blocks(text) == Tidy(Pieces(text, 0))
    ensures Interleave(Pieces(text, 0), Separators(text, 0)) == text
  {
    PiecesRebuild(text, 0);
    assert text[0..] == text;
  }

  /** Without a line break nothing is a separator. */
  lemma PiecesSingleLine(s: string, start: nat)
    requires start <= |s| && forall i :: 0 <= i < |s| ==> s[i] != '\n'
    ensures Pieces(s, start) == [s[start..]]
  {
    forall q | start <= q < |s| ensures SeparatorEnd(s, q).None? {
    }
  }

  /** A text without line breaks is one block, the text trimmed, unless it is blank. */
  lemma SingleLineBlock(text: string)
    requires forall i :: 0 <= i < |text| ==> text[i] != '\n'
    ensures Trim(text) != "" ==> Blocks(text) == [Trim(text)]
    ensures Trim(text) == "" ==> Blocks(text) == []
  {
    PiecesSingleLine(text, 0);
    assert text[0..] == text;
  }

  // ---------------------------------------------------------------------------
  // `guessGameName`: `/^(.*?)\s+(can|cannot|is)\b/i`, else the text before the first ".".

  /** A case-insensitive `w` at `j` that ends at a word boundary. */
  predicate KeywordAt(s: string, j: nat, w: string)
  {
    j + |w| <= |s| && Lower(s[j..j + |w|]) == w && (j + |w| == |s| || !IsWordChar(s[j + |w|]))
  }

  /** `\s+(can|cannot|is)\b` matches at `k`. */
  predicate VerbAfter(s: string, k: nat)
    requires k <= |s|
  {
    k < |s| && IsSpace(s[k]) &&
    var j := SpaceEnd(s, k);
    KeywordAt(s, j, "can") || KeywordAt(s, j, "cannot") || KeywordAt(s, j, "is")
  }

  /**
   * The end of the lazily matched name `(.*?)`: the first `k` where the verb part
   * matches, provided no line terminator comes before it.
   */
  function NameEnd(s: string, k: nat): (r: Option<nat>)
    requires k <= |s|
    ensures r.Some? ==> k <= r.value < |s| && VerbAfter(s, r.value)
    ensures r.Some? ==> forall i :: k <= i < r.value ==> !VerbAfter(s, i) && !IsLineTerminator(s[i])
    ensures r.None? ==> forall i :: k <= i <= |s| && (forall i' :: k <= i' < i ==> !IsLineTerminator(s[i'])) ==> !VerbAfter(s, i)
    decreases |s| - k
  {
    if k == |s| then None
    else if VerbAfter(s, k) then Some(k)
    else if IsLineTerminator(s[k]) then None
    else NameEnd(s, k + 1)
  }

  /** `text.split(".")[0]`. */
  function BeforeFirstDot(s: string): (r: string)
    ensures |r| <= |s| && r == s[..|r|]
    ensures forall i :: 0 <= i < |r| ==> r[i] != '.'
    ensures |r| < |s| ==> s[|r|] == '.'
  {
    if s == [] || s[0] == '.' then [] else [s[0]] + BeforeFirstDot(s[1..])
  }

  function GuessGameName(text: string): (name: string)
    ensures Trimmed(name)
  {
    match NameEnd(text, 0)
    case Some(k) => TrimIsTrimmed(text[..k]); Trim(text[..k])
    case None => TrimIsTrimmed(BeforeFirstDot(text)); Trim(BeforeFirstDot(text))
  }

  /**
   * The guessed name is the text before the earliest "can", "cannot" or "is" that
   * follows whitespace on the first line, trimmed.
   */
  lemma GuessGameNameVerb(text: string, k: nat)
    requires k < |text| && VerbAfter(text, k)
    requires forall i :: 0 <= i < k ==> !VerbAfter(text, i) && !IsLineTerminator(text[i])
    ensures GuessGameName(text) == Trim(text[..k])
  {
    var r := NameEnd(text, 0);
    if r.None? {
      assert false;
    }
    assert VerbAfter(text, r.value);
    assert !(r.value < k);
    assert !(k < r.value);
  }

  /** Without such a verb the guessed name is the text before the first ".", trimmed. */
  lemma GuessGameNameDot(text: string) returns (d: nat)
    requires forall k :: 0 <= k <= |text| && (forall i :: 0 <= i < k ==> !IsLineTerminator(text[i])) ==> !VerbAfter(text, k)
    ensures d <= |text| && (d == |text| || text[d] == '.') && forall i :: 0 <= i < d ==> text[i] != '.'
    ensures GuessGameName(text) == Trim(text[..d])
  {
    match NameEnd(text, 0)
    case Some(k) =>
      assert false;
    case None =>
      d := |BeforeFirstDot(text)|;
      assert BeforeFirstDot(text) == text[..d];
  }

  // ---------------------------------------------------------------------------
  // `splitRuleBlock`.

  datatype NamedBlock = NamedBlock(name: string, content: string)

  const Dash := " - "

  /** `parts.slice(0, i + 1).join(" - ").trim()`. */
  function Candidate(parts: seq<string>, i: nat): string
    requires i < |parts|
  {
    Trim(Join(parts[..i + 1], Dash))
  }

  /** `parts.slice(i + 1).join(" - ").trim()`. */
  function Remainder(parts: seq<string>, i: nat): string
    requires i < |parts|
  {
    Trim(Join(parts[i + 1..], Dash))
  }

  /** The backward search accepts the cut after part `i`. */
  predicate Accepts(parts: seq<string>, i: nat)
    requires i < |parts|
  {
    var c := Candidate(parts, i);
    var r := Remainder(parts, i);
    c != "" && r != "" && StartsWith(NormalizeLoose(r), NormalizeLoose(c))
  }

  /** The largest cut at or below `i` the search accepts. */
  function BackSearch(parts: seq<string>, i: int): (r: Option<nat>)
    requires i < |parts|
    ensures r.Some? ==> r.value <= i
    decreases i + 1
  {
    if i < 0 then None
    else if Accepts(parts, i) then Some(i)
    else BackSearch(parts, i - 1)
  }

  /** The search finds the largest accepted cut at or below `i`, and only when there is one. */
  ghost predicate FindsLastCut(parts: seq<string>, i: int)
    requires i < |parts|
  {
    var r := BackSearch(parts, i);
    && (r.Some? ==> Accepts(parts, r.value) && forall j: nat :: r.value < j <= i ==> !Accepts(parts, j))
    && (r.None? ==> forall j: nat :: j <= i ==> !Accepts(parts, j))
  }

  lemma {:induction false} BackSearchSpec(parts: seq<string>, i: int)
    requires i < |parts|
    ensures FindsLastCut(parts, i)
    decreases i + 1
  {
    if i >= 0 && !Accepts(parts, i) {
      BackSearchSpec(parts, i - 1);
      BackSearchSkips(parts, i);
    }
  }

  lemma BackSearchSkips(parts: seq<string>, i: nat)
    requires i < |parts| && !Accepts(parts, i) && FindsLastCut(parts, i - 1)
    ensures FindsLastCut(parts, i)
  {
    var r := BackSearch(parts, i - 1);
    assert BackSearch(parts, i) == r;
    if r.Some? {
      forall j: nat | r.value < j <= i ensures !Accepts(parts, j) {
        if j < i {
          assert r.value < j <= i - 1;
        }
      }
    } else {
      forall j: nat | j <= i ensures !Accepts(parts, j) {
        if j < i {
          assert j <= i - 1;
        }
      }
    }
  }

  /** `block.replace(/\s+/g, " ").trim()`. */
  function NormalizeBlock(block: string): string
  {
    Trim(Collapse(block))
  }

  /** What `splitRuleBlock` returns. */
  function SplitBlock(block: string): NamedBlock
  {
    var normalized := NormalizeBlock(block);
    var parts := Split(normalized, Dash);
    if |parts| == 1 then NamedBlock(GuessGameName(normalized), normalized)
    else
      match BackSearch(parts, |parts| - 2)
      case Some(i) => NamedBlock(Candidate(parts, i), Remainder(parts, i))
      case None => NamedBlock(Trim(parts[0]), Trim(Join(parts[1..], Dash)))
  }

  /**
   * When the backward search finds a cut, both halves are non-empty and the loose
   * form of the rule text starts with the loose form of the name; the cut taken is
   * the last one with that property.
   */
  lemma SplitBlockSearched(block: string)
    requires var parts := Split(NormalizeBlock(block), Dash);
      |parts| > 1 && BackSearch(parts, |parts| - 2).Some?
    ensures var r := SplitBlock(block);
      && r.name != "" && r.content != ""
      && StartsWith(NormalizeLoose(r.content), NormalizeLoose(r.name))
    ensures var parts := Split(NormalizeBlock(block), Dash);
      exists i: nat :: i < |parts| - 1 && SplitBlock(block) == NamedBlock(Candidate(parts, i), Remainder(parts, i)) &&
        Accepts(parts, i) && forall j: nat :: i < j < |parts| - 1 ==> !Accepts(parts, j)
  {
    var parts := Split(NormalizeBlock(block), Dash);
    BackSearchSpec(parts, |parts| - 2);
  }

  /**
   * A block with no " - " keeps all its normalised text as rule text and takes its
   * name from the text itself.
   */
  lemma SplitBlockUndashed(block: string)
    requires !Contains(NormalizeBlock(block), Dash)
    ensures SplitBlock(block) == NamedBlock(GuessGameName(NormalizeBlock(block)), NormalizeBlock(block))
  {
    SplitSpec(NormalizeBlock(block), Dash);
  }

  /**
   * When no cut is accepted, the name is the text before the first " - " and the rule
   * text everything after it, both trimmed.
   */
  lemma SplitBlockFallback(block: string, k: nat)
    requires OccursAt(NormalizeBlock(block), Dash, k)
    requires forall q: nat :: q < k ==> !OccursAt(NormalizeBlock(block), Dash, q)
    requires var parts := Split(NormalizeBlock(block), Dash);
      |parts| > 1 && BackSearch(parts, |parts| - 2).None?
    ensures SplitBlock(block) ==
      NamedBlock(Trim(NormalizeBlock(block)[..k]), Trim(NormalizeBlock(block)[k + |Dash|..]))
  {
    var normalized := NormalizeBlock(block);
    var parts := Split(normalized, Dash);
    var i := IndexOf(normalized, Dash, 0);
    assert i == Some(k) by {
      if i.None? {
        assert false;
      } else {
        assert !(i.value < k) && !(k < i.value);
      }
    }
    assert parts == [normalized[..k]] + Split(normalized[k + |Dash|..], Dash);
    assert parts[1..] == Split(normalized[k + |Dash|..], Dash);
    JoinSplit(normalized[k + |Dash|..], Dash);
  }

  lemma SplitBlockDashed(block: string, parts: seq<string>)
    requires parts == Split(NormalizeBlock(block), Dash) && |parts| > 1
    ensures SplitBlock(block) ==
      match BackSearch(parts, |parts| - 2)
      case Some(i) => NamedBlock(Candidate(parts, i), Remainder(parts, i))
      case None => NamedBlock(Trim(parts[0]), Trim(Join(parts[1..], Dash)))
  {
  }

  /** `splitRuleBlock`, with its backward loop. */
  method SplitRuleBlock(block: string) returns (r: NamedBlock)
    ensures r == SplitBlock(block)
  {
    var normalized := NormalizeBlock(block);
    var parts := Split(normalized, Dash);
    if |parts| == 1 {
      return NamedBlock(GuessGameName(normalized), normalized);
    }
    SplitBlockDashed(block, parts);
    var i := |parts| - 2;
    while i >= 0
      invariant -1 <= i <= |parts| - 2
      invariant BackSearch(parts, |parts| - 2) == BackSearch(parts, i)
    {
      var candidate := Trim(Join(parts[..i + 1], Dash));
      var remainder := Trim(Join(parts[i + 1..], Dash));
      assert candidate == Candidate(parts, i) && remainder == Remainder(parts, i);
      if candidate == "" || remainder == "" {
        assert !Accepts(parts, i);
        i := i - 1;
        continue;
      }
      var candidateNorm := NormalizeLoose(candidate);
      var remainderNorm := NormalizeLoose(remainder);
      if |candidateNorm| <= |remainderNorm| && remainderNorm[..|candidateNorm|] == candidateNorm {
        assert Accepts(parts, i);
        return NamedBlock(candidate, remainder);
      }
      assert !Accepts(parts, i);
      i := i - 1;
    }
    return NamedBlock(Trim(parts[0]), Trim(Join(parts[1..], Dash)));
  }

  // ---------------------------------------------------------------------------
  // Sentences: `content.replace(/\r?\n/g, " ").split(/[.!?]/).map(trim).filter(Boolean)`.

  /** `replace(/\r?\n/g, " ")`. */
  function JoinLines(s: string): (r: string)
    ensures forall i :: 0 <= i < |r| ==> r[i] != '\n'
    decreases |s|
  {
    if s == [] then []
    else if |s| >= 2 && s[0] == '\r' && s[1] == '\n' then " " + JoinLines(s[2..])
    else if s[0] == '\n' then " " + JoinLines(s[1..])
    else [s[0]] + JoinLines(s[1..])
  }

  predicate IsStop(c: char) { c == '.' || c == '!' || c == '?' }

  /** `split(/[.!?]/)`. */
  function SplitAtStops(s: string): (ps: seq<string>)
    ensures |ps| >= 1
    ensures forall i, j :: 0 <= i < |ps| && 0 <= j < |ps[i]| ==> !IsStop(ps[i][j])
  {
    if s == [] then [[]]
    else
      var rest := SplitAtStops(s[1..]);
      if IsStop(s[0]) then [[]] + rest
      else [[s[0]] + rest[0]] + rest[1..]
  }

  function Sentences(content: string): (ss: seq<string>)
    ensures forall i :: 0 <= i < |ss| ==> ss[i] != "" && Trimmed(ss[i])
  {
    Tidy(SplitAtStops(JoinLines(content)))
  }

  /** Without a carriage return, every line feed becomes a space and nothing else changes. */
  lemma {:induction false} JoinLinesNoReturn(s: string)
    requires forall i :: 0 <= i < |s| ==> s[i] != '\r'
    ensures |JoinLines(s)| == |s|
    ensures forall i :: 0 <= i < |s| ==> JoinLines(s)[i] == if s[i] == '\n' then ' ' else s[i]
    decreases |s|
  {
    if s != [] {
      JoinLinesNoReturn(s[1..]);
    }
  }

  /** Line breaks are replaced piecewise, unless a `\r` at the end of `a` pairs with `b`. */
  lemma {:induction false} JoinLinesAppend(a: string, b: string)
    requires a == [] || a[|a| - 1] != '\r'
    ensures JoinLines(a + b) == JoinLines(a) + JoinLines(b)
    decreases |a|
  {
    if a == [] {
      assert a + b == b;
    } else if |a| >= 2 && a[0] == '\r' && a[1] == '\n' {
      JoinLinesAppend(a[2..], b);
      JoinLinesAppendPair(a, b);
    } else {
      JoinLinesAppend(a[1..], b);
      JoinLinesAppendSingle(a, b);
    }
  }

  /** The step of `JoinLinesAppend` when `a` starts with `\r\n`. */
  lemma JoinLinesAppendPair(a: string, b: string)
    requires |a| >= 2 && a[0] == '\r' && a[1] == '\n'
    requires JoinLines(a[2..] + b) == JoinLines(a[2..]) + JoinLines(b)
    ensures JoinLines(a + b) == JoinLines(a) + JoinLines(b)
  {
    var ab := a + b;
    assert ab[0] == '\r' && ab[1] == '\n' && ab[2..] == a[2..] + b;
    JoinLinesPair(a);
    JoinLinesPair(ab);
    ConsAppend(" ", JoinLines(a[2..]), JoinLines(b));
  }

  /** The step of `JoinLinesAppend` when `a` starts with any other character. */
  lemma JoinLinesAppendSingle(a: string, b: string)
    requires a != [] && a[|a| - 1] != '\r' && !(|a| >= 2 && a[0] == '\r' && a[1] == '\n')
    requires JoinLines(a[1..] + b) == JoinLines(a[1..]) + JoinLines(b)
    ensures JoinLines(a + b) == JoinLines(a) + JoinLines(b)
  {
    var c, t := a[0], a[1..];
    assert a == [c] + t && a + b == [c] + (t + b);
    assert t != [] ==> (t + b)[0] == t[0];
    JoinLinesCons(c, t);
    JoinLinesCons(c, t + b);
    ConsAppend(if c == '\n' then " " else [c], JoinLines(t), JoinLines(b));
  }

  lemma ConsAppend(h: string, x: string, y: string)
    ensures h + (x + y) == (h + x) + y
  {
  }

  lemma JoinLinesPair(s: string)
    requires |s| >= 2 && s[0] == '\r' && s[1] == '\n'
    ensures JoinLines(s) == " " + JoinLines(s[2..])
  {
  }

  lemma JoinLinesCons(c: char, t: string)
    requires !(c == '\r' && t != [] && t[0] == '\n')
    ensures JoinLines([c] + t) == (if c == '\n' then " " else [c]) + JoinLines(t)
  {
    assert ([c] + t)[1..] == t;
  }

  /** A `\r\n` pair becomes one space. */
  lemma JoinLinesReturn(a: string, b: string)
    requires a == [] || a[|a| - 1] != '\r'
    ensures JoinLines(a + "\r\n" + b) == JoinLines(a) + " " + JoinLines(b)
  {
    assert a + "\r\n" + b == a + ("\r\n" + b);
    JoinLinesAppend(a, "\r\n" + b);
    assert ("\r\n" + b)[2..] == b;
  }

  /** Every character `SplitAtStops` cuts at, in order, as one-character strings. */
  function Stops(s: string): (st: seq<string>)
    ensures forall i :: 0 <= i < |st| ==> |st[i]| == 1 && IsStop(st[i][0])
  {
    if s == [] then []
    else if IsStop(s[0]) then [[s[0]]] + Stops(s[1..])
    else Stops(s[1..])
  }

  /** The pieces, with the stops put back between them, rebuild the text. */
  lemma {:induction false} SplitAtStopsRebuild(s: string)
    ensures |SplitAtStops(s)| == |Stops(s)| + 1
    ensures Interleave(SplitAtStops(s), Stops(s)) == s
  {
    if s != [] {
      SplitAtStopsRebuild(s[1..]);
      if IsStop(s[0]) {
        SplitAtStopsRebuildStop(s);
      } else {
        SplitAtStopsRebuildOther(s);
      }
    }
  }

  /** The step of `SplitAtStopsRebuild` when the text starts with a stop. */
  lemma SplitAtStopsRebuildStop(s: string)
    requires s != [] && IsStop(s[0])
    requires |SplitAtStops(s[1..])| == |Stops(s[1..])| + 1
    requires Interleave(SplitAtStops(s[1..]), Stops(s[1..])) == s[1..]
    ensures |SplitAtStops(s)| == |Stops(s)| + 1
    ensures Interleave(SplitAtStops(s), Stops(s)) == s
  {
    var rest, seps := SplitAtStops(s[1..]), Stops(s[1..]);
    assert SplitAtStops(s) == [[]] + rest;
    assert Stops(s) == [[s[0]]] + seps;
    InterleaveCons([], [s[0]], rest, seps);
    assert s == [s[0]] + s[1..];
  }

  /** The step of `SplitAtStopsRebuild` when the text starts with another character. */
  lemma SplitAtStopsRebuildOther(s: string)
    requires s != [] && !IsStop(s[0])
    requires |SplitAtStops(s[1..])| == |Stops(s[1..])| + 1
    requires Interleave(SplitAtStops(s[1..]), Stops(s[1..])) == s[1..]
    ensures |SplitAtStops(s)| == |Stops(s)| + 1
    ensures Interleave(SplitAtStops(s), Stops(s)) == s
  {
    var rest, seps := SplitAtStops(s[1..]), Stops(s[1..]);
    assert SplitAtStops(s) == [[s[0]] + rest[0]] + rest[1..];
    assert Stops(s) == seps;
    InterleaveFirst(s[0], rest, seps);
    assert s == [s[0]] + s[1..];
  }

  lemma InterleaveFirst(c: char, ps: seq<string>, seps: seq<string>)
    requires |ps| == |seps| + 1
    ensures Interleave([[c] + ps[0]] + ps[1..], seps) == [c] + Interleave(ps, seps)
  {
    if seps != [] {
      assert ([[c] + ps[0]] + ps[1..])[1..] == ps[1..];
    }
  }

  /** A stop cuts the text in two: the pieces of each side, one after the other. */
  lemma {:induction false} SplitAtStopsAppend(a: string, c: char, b: string)
    requires IsStop(c)
    ensures SplitAtStops(a + [c] + b) == SplitAtStops(a) + SplitAtStops(b)
    decreases |a|
  {
    if a == [] {
      assert a + [c] + b == [c] + b;
      assert ([c] + b)[1..] == b;
    } else {
      assert (a + [c] + b)[0] == a[0] && (a + [c] + b)[1..] == a[1..] + [c] + b;
      SplitAtStopsAppend(a[1..], c, b);
    }
  }

  /** Text without a stop is a single piece. */
  lemma {:induction false} SplitAtStopsNone(a: string)
    requires forall i :: 0 <= i < |a| ==> !IsStop(a[i])
    ensures SplitAtStops(a) == [a]
  {
    if a != [] {
      SplitAtStopsNone(a[1..]);
      assert a == [a[0]] + a[1..];
    }
  }

  /** `JoinLines` only ever writes a space where it changes something. */
  lemma {:induction false} JoinLinesNoStop(s: string)
    requires forall i :: 0 <= i < |s| ==> !IsStop(s[i])
    ensures forall i :: 0 <= i < |JoinLines(s)| ==> !IsStop(JoinLines(s)[i])
    decreases |s|
  {
    if |s| >= 2 && s[0] == '\r' && s[1] == '\n' {
      JoinLinesNoStop(s[2..]);
    } else if s != [] {
      JoinLinesNoStop(s[1..]);
    }
  }

  /**
   * The sentences of `a`, a stop, then `b` are those of `a` followed by those of `b`:
   * the sentences come out in the order they are written.
   */
  lemma SentencesAppend(a: string, c: char, b: string)
    requires IsStop(c) && (a == [] || a[|a| - 1] != '\r')
    ensures Sentences(a + [c] + b) == Sentences(a) + Sentences(b)
  {
    JoinLinesAppend(a, [c] + b);
    assert a + [c] + b == a + ([c] + b);
    assert ([c] + b)[1..] == b;
    assert JoinLines([c] + b) == [c] + JoinLines(b);
    assert JoinLines(a) + ([c] + JoinLines(b)) == JoinLines(a) + [c] + JoinLines(b);
    SplitAtStopsAppend(JoinLines(a), c, JoinLines(b));
    TidyAppend(SplitAtStops(JoinLines(a)), SplitAtStops(JoinLines(b)));
  }

  /** Text without a stop is one sentence, its line breaks made spaces, trimmed, unless blank. */
  lemma SentencesNoStop(a: string)
    requires forall i :: 0 <= i < |a| ==> !IsStop(a[i])
    ensures Trim(JoinLines(a)) != "" ==> Sentences(a) == [Trim(JoinLines(a))]
    ensures Trim(JoinLines(a)) == "" ==> Sentences(a) == []
  {
    JoinLinesNoStop(a);
    SplitAtStopsNone(JoinLines(a));
  }

  // ---------------------------------------------------------------------------
  // Applying sentences.

  /** The rule a named block starts from. */
  function DefaultRule(name: string, content: string): Rule
  {
    Rule(name, 1, Unbounded, None, None, None, content, {}, {}, false)
  }

  /** The rule after the sentences `ss`, applied in order. */
  function ApplyAll(r: Rule, ss: seq<string>): Rule
  {
    if ss == [] then r else ApplyForm(ApplyAll(r, ss[..|ss| - 1]), Classify(ss[|ss| - 1]))
  }

  /** The warnings the sentences `ss` give, in order. */
  function AllWarnings(ss: seq<string>): seq<string>
  {
    if ss == [] then [] else AllWarnings(ss[..|ss| - 1]) + SentenceWarnings(ss[|ss| - 1])
  }

  /**
   * Across any number of sentences the minimum never decreases and the maximum never
   * increases; the name, notes and online cap stay as they were.
   */
  lemma {:induction false} ApplyAllTightens(r: Rule, ss: seq<string>)
    ensures var r' := ApplyAll(r, ss);
      && r'.minPlayers >= r.minPlayers
      && BoundLe(r'.maxPlayers, r.maxPlayers)
      && r.allowedCounts <= r'.allowedCounts && r.disallowedCounts <= r'.disallowedCounts
      && r'.name == r.name && r'.notes == r.notes && r'.onlineCap == r.onlineCap
  {
    if ss != [] {
      var mid := ApplyAll(r, ss[..|ss| - 1]);
      ApplyAllTightens(r, ss[..|ss| - 1]);
      ApplyFormTightens(mid, Classify(ss[|ss| - 1]));
    }
  }

  /** The ideal range is a single count that is also explicitly allowed. */
  predicate IdealConsistent(r: Rule)
  {
    r.idealMin == r.idealMax && (r.idealMin.Some? ==> r.idealMin.value in r.allowedCounts)
  }

  lemma {:induction false} ApplyAllKeepsIdeal(r: Rule, ss: seq<string>)
    requires IdealConsistent(r)
    ensures IdealConsistent(ApplyAll(r, ss))
  {
    if ss != [] {
      ApplyAllKeepsIdeal(r, ss[..|ss| - 1]);
      ApplyFormKeepsIdeal(ApplyAll(r, ss[..|ss| - 1]), Classify(ss[|ss| - 1]));
    }
  }

  lemma ApplyFormKeepsIdeal(r: Rule, f: SentenceForm)
    requires IdealConsistent(r)
    ensures IdealConsistent(ApplyForm(r, f))
  {
  }

  /**
   * A rule being built from a block: `parseRulesText` creates the record and
   * `applyRuleSentence` updates its fields in place.
   */
  class RuleDraft {
    var name: string
    var minPlayers: int
    var maxPlayers: Bound
    var idealMin: Option<int>
    var idealMax: Option<int>
    var onlineCap: Option<int>
    var notes: string
    var allowedCounts: set<int>
    var disallowedCounts: set<int>
    var rangeAllowed: bool

    function Snapshot(): Rule
      reads this
    {
      Rule(name, minPlayers, maxPlayers, idealMin, idealMax, onlineCap, notes, allowedCounts, disallowedCounts, rangeAllowed)
    }

    constructor (name: string, content: string)
      ensures Snapshot() == DefaultRule(name, content)
    {
      this.name := name;
      minPlayers := 1;
      maxPlayers := Unbounded;
      idealMin := None;
      idealMax := None;
      onlineCap := None;
      notes := content;
      allowedCounts := {};
      disallowedCounts := {};
      rangeAllowed := false;
    }

    /** `applyRuleSentence(rule, sentence, warnings)`: at most one grammar case applies. */
    method ApplySentence(sentence: string, warnings: seq<string>) returns (warnings': seq<string>)
      modifies this
      ensures Snapshot() == ApplyForm(old(Snapshot()), Classify(sentence))
      ensures warnings' == warnings + SentenceWarnings(sentence)
    {
      var form := Classify(sentence);
      Apply(form);
      warnings' := if form.Unparsed? then warnings + [UnparsedWarning(sentence)] else warnings;
    }

    /** The field updates of one grammar case. */
    method Apply(form: SentenceForm)
      modifies this
      ensures Snapshot() == ApplyForm(old(Snapshot()), form)
    {
      match form
      case BestWith(best) =>
        idealMin := Some(best);
        idealMax := Some(best);
        allowedCounts := allowedCounts + {best};
      case CannotFromOn(value) =>
        maxPlayers := MinBound(maxPlayers, value - 1);
      case CannotAbove(value) =>
        maxPlayers := MinBound(maxPlayers, value);
      case CannotCounts(numbers) =>
        disallowedCounts := disallowedCounts + AsSet(numbers);
      case CanAbove(value) =>
        minPlayers := Max(minPlayers, value + 1);
        rangeAllowed := true;
      case CanFromOn(value) =>
        minPlayers := Max(minPlayers, value);
        rangeAllowed := true;
      case CanUpTo(value) =>
        maxPlayers := MinBound(maxPlayers, value);
        rangeAllowed := true;
      case CanBetween(minValue, maxValue) =>
        minPlayers := Max(minPlayers, minValue);
        maxPlayers := MinBound(maxPlayers, maxValue);
        rangeAllowed := true;
      case CanRange(minValue, maxValue) =>
        minPlayers := Max(minPlayers, minValue);
        maxPlayers := MinBound(maxPlayers, maxValue);
        rangeAllowed := true;
      case CanCounts(numbers) =>
        allowedCounts := allowedCounts + AsSet(numbers);
      case Unparsed =>
      case Ignored =>
    }
  }

  // ---------------------------------------------------------------------------
  // The whole file.

  const NoNameWarning := "Could not determine a game name in gameRules.txt."

  /** What one block contributes: a rule, or nothing, and its warnings. */
  datatype BlockOutcome = BlockOutcome(rule: Option<Rule>, warnings: seq<string>)

  function ReadBlock(block: string): BlockOutcome
  {
    var nb := SplitBlock(block);
    if nb.name == "" then BlockOutcome(None, [NoNameWarning])
    else
      var ss := Sentences(nb.content);
      BlockOutcome(Some(ApplyAll(DefaultRule(nb.name, nb.content), ss)), AllWarnings(ss))
  }

  function AddBlock(acc: RulesParsed, o: BlockOutcome): RulesParsed
  {
    RulesParsed(
      if o.rule.Some? then acc.rules[RuleKey(o.rule.value) := o.rule.value] else acc.rules,
      acc.warnings + o.warnings)
  }

  function FoldBlocks(bs: seq<string>): RulesParsed
  {
    if bs == [] then RulesParsed(map[], [])
    else AddBlock(FoldBlocks(bs[..|bs| - 1]), ReadBlock(bs[|bs| - 1]))
  }

  /** `parseRulesText` as a function of the text. */
  function TextRules(text: string): RulesParsed
  {
    FoldBlocks(Blocks(text))
  }

  /** What every rule from the text satisfies. */
  predicate TextRule(k: string, r: Rule)
  {
    && r.name != "" && Trimmed(r.name) && k == NormalizeName(r.name) && k != ""
    && r.minPlayers >= 1 && r.onlineCap.None? && IdealConsistent(r)
  }

  /** Every name a block yields is trimmed. */
  lemma SplitBlockTrimmed(block: string)
    ensures Trimmed(SplitBlock(block).name)
  {
    var normalized := NormalizeBlock(block);
    var parts := Split(normalized, Dash);
    if |parts| > 1 {
      match BackSearch(parts, |parts| - 2)
      case Some(i) => TrimIsTrimmed(Join(parts[..i + 1], Dash));
      case None => TrimIsTrimmed(parts[0]);
    }
  }

  lemma ReadBlockRule(block: string)
    ensures var o := ReadBlock(block);
      o.rule.Some? ==> TextRule(RuleKey(o.rule.value), o.rule.value) && o.rule.value.notes == SplitBlock(block).content
  {
    var nb := SplitBlock(block);
    if nb.name != "" {
      SplitBlockTrimmed(block);
      var ss := Sentences(nb.content);
      var d := DefaultRule(nb.name, nb.content);
      ApplyAllTightens(d, ss);
      ApplyAllKeepsIdeal(d, ss);
      NormalizeNameEmpty(nb.name);
      TrimOfTrimmed(nb.name);
    }
  }

  /**
   * Every rule the text gives is keyed by its normalised, non-empty, trimmed name, has
   * a minimum of at least 1 (the default, never lowered), no online cap, and an ideal
   * range that is one explicitly allowed count.
   */
  lemma {:induction false} FoldBlocksFacts(bs: seq<string>)
    ensures forall k :: k in FoldBlocks(bs).rules ==> TextRule(k, FoldBlocks(bs).rules[k])
  {
    if bs != [] {
      FoldBlocksFacts(bs[..|bs| - 1]);
      ReadBlockRule(bs[|bs| - 1]);
    }
  }

  lemma TextRulesFacts(text: string)
    ensures forall k :: k in TextRules(text).rules ==> TextRule(k, TextRules(text).rules[k])
  {
    FoldBlocksFacts(Blocks(text));
  }

  /** One block: split it, then feed its sentences to a fresh rule. */
  method ParseBlock(block: string) returns (o: BlockOutcome)
    ensures o == ReadBlock(block)
  {
    var nb := SplitRuleBlock(block);
    if nb.name == "" {
      return BlockOutcome(None, [NoNameWarning]);
    }
    var rule := new RuleDraft(nb.name, nb.content);
    var sentences := Sentences(nb.content);
    var warnings: seq<string> := [];
    var j := 0;
    while j < |sentences|
      invariant j <= |sentences|
      invariant rule.Snapshot() == ApplyAll(DefaultRule(nb.name, nb.content), sentences[..j])
      invariant warnings == AllWarnings(sentences[..j])
    {
      ApplyNext(DefaultRule(nb.name, nb.content), sentences, j);
      warnings := rule.ApplySentence(sentences[j], warnings);
      j := j + 1;
    }
    TakeAll(sentences, j);
    ReadNamedBlock(block, nb);
    return BlockOutcome(Some(rule.Snapshot()), warnings);
  }

  /** One more sentence: its form applied to the rule so far, its warnings appended. */
  lemma ApplyNext(r: Rule, ss: seq<string>, j: nat)
    requires j < |ss|
    ensures ApplyAll(r, ss[..j + 1]) == ApplyForm(ApplyAll(r, ss[..j]), Classify(ss[j]))
    ensures AllWarnings(ss[..j + 1]) == AllWarnings(ss[..j]) + SentenceWarnings(ss[j])
  {
    assert ss[..j + 1][..j] == ss[..j];
  }

  lemma ReadNamedBlock(block: string, nb: NamedBlock)
    requires nb == SplitBlock(block) && nb.name != ""
    ensures ReadBlock(block) == BlockOutcome(Some(ApplyAll(DefaultRule(nb.name, nb.content), Sentences(nb.content))), AllWarnings(Sentences(nb.content)))
  {
  }

  /** One more block: its outcome added to the rules read so far. */
  lemma FoldBlocksNext(bs: seq<string>, i: nat)
    requires i < |bs|
    ensures FoldBlocks(bs[..i + 1]) == AddBlock(FoldBlocks(bs[..i]), ReadBlock(bs[i]))
  {
    assert bs[..i + 1][..i] == bs[..i];
  }

  /** `parseRulesText`. */
  method ParseRulesText(text: string) returns (p: RulesParsed)
    ensures p == TextRules(text)
  {
    var rules: RuleMap := map[];
    var warnings: seq<string> := [];
    var blocks := Blocks(text);
    var i := 0;
    while i < |blocks|
      invariant i <= |blocks|
      invariant RulesParsed(rules, warnings) == FoldBlocks(blocks[..i])
    {
      FoldBlocksNext(blocks, i);
      var o := ParseBlock(blocks[i]);
      if o.rule.Some? {
        rules := rules[NormalizeName(o.rule.value.name) := o.rule.value];
      }
      warnings := warnings + o.warnings;
      i := i + 1;
    }
    TakeAll(blocks, i);
    return RulesParsed(rules, warnings);
  }
}
