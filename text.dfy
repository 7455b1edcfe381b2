/**
 * Value normalisation: trimming, whitespace collapsing, lower-casing, and the three
 * name normalisations used to key games, match headers and match rule-block names.
 * Also the small string toolkit (prefix, substring search, split/join, lexicographic
 * order) the parsers are built from.
 */
module Text {

  /** JavaScript's `\s` class, which is also the set `String.prototype.trim` removes. */
  predicate IsSpace(c: char)
  {
    || c == ' ' || c == '\t' || c == '\n' || c == '\U{000B}' || c == '\U{000C}' || c == '\r'
    || c == '\U{00A0}' || c == '\U{1680}' || ('\U{2000}' <= c <= '\U{200A}')
    || c == '\U{2028}' || c == '\U{2029}' || c == '\U{202F}' || c == '\U{205F}'
    || c == '\U{3000}' || c == '\U{FEFF}'
  }

  /** Characters `.` does not match in a JavaScript regular expression. */
  predicate IsLineTerminator(c: char)
  {
    c == '\n' || c == '\r' || c == '\U{2028}' || c == '\U{2029}'
  }

  predicate IsDigit(c: char) { '0' <= c <= '9' }

  predicate IsLowerAlnum(c: char) { ('a' <= c <= 'z') || IsDigit(c) }

  /** JavaScript's `\w`. */
  predicate IsWordChar(c: char)
  {
    ('a' <= c <= 'z') || ('A' <= c <= 'Z') || IsDigit(c) || c == '_'
  }

  predicate AllSpace(s: string) { forall i :: 0 <= i < |s| ==> IsSpace(s[i]) }

  predicate NoSpace(s: string) { forall i :: 0 <= i < |s| ==> !IsSpace(s[i]) }

  /** ASCII lower-casing of one character. */
  function LowerChar(c: char): char
  {
    if 'A' <= c <= 'Z' then (c as int + 32) as char else c
  }

  /** ASCII `toLowerCase`, character by character. */
  function Lower(s: string): (r: string)
    ensures |r| == |s|
    ensures forall i :: 0 <= i < |s| ==> r[i] == LowerChar(s[i])
  {
    seq(|s|, i requires 0 <= i < |s| => LowerChar(s[i]))
  }

  /**
   * What lower-casing does: no upper-case ASCII letter is left, every other character
   * stays in place, and each upper-case letter becomes its lower-case partner.
   */
  lemma LowerSpec(s: string)
    ensures forall i :: 0 <= i < |s| ==> !('A' <= Lower(s)[i] <= 'Z')
    ensures forall i :: 0 <= i < |s| && !('A' <= s[i] <= 'Z') ==> Lower(s)[i] == s[i]
    ensures forall i :: 0 <= i < |s| && 'A' <= s[i] <= 'Z' ==> 'a' <= Lower(s)[i] <= 'z' && Lower(s)[i] as int == s[i] as int + 32
  {
  }

  function TrimStart(s: string): (r: string)
    ensures |r| <= |s|
  {
    if s != [] && IsSpace(s[0]) then TrimStart(s[1..]) else s
  }

  /** `TrimStart` drops a run of leading whitespace, and exactly that run. */
  lemma {:induction false} TrimStartSpec(s: string)
    ensures var r := TrimStart(s);
      && r == s[|s| - |r|..]
      && AllSpace(s[..|s| - |r|])
      && (r == [] || !IsSpace(r[0]))
  {
    if s != [] && IsSpace(s[0]) {
      TrimStartSpec(s[1..]);
      var r := TrimStart(s[1..]);
      assert s[1..][..|s| - 1 - |r|] == s[1..|s| - |r|];
    }
  }

  function TrimEnd(s: string): (r: string)
    ensures |r| <= |s|
  {
    if s != [] && IsSpace(s[|s| - 1]) then TrimEnd(s[..|s| - 1]) else s
  }

  /** `TrimEnd` drops a run of trailing whitespace, and exactly that run. */
  lemma {:induction false} TrimEndSpec(s: string)
    ensures var r := TrimEnd(s);
      && r == s[..|r|]
      && AllSpace(s[|r|..])
      && (r == [] || !IsSpace(r[|r| - 1]))
  {
    if s != [] && IsSpace(s[|s| - 1]) {
      TrimEndSpec(s[..|s| - 1]);
      var r := TrimEnd(s[..|s| - 1]);
      assert s[..|s| - 1][|r|..] == s[|r|..|s| - 1];
    }
  }

  /** `String.prototype.trim`. */
  function Trim(s: string): string
  {
    TrimEnd(TrimStart(s))
  }

  /** Neither end is whitespace. */
  predicate Trimmed(s: string)
  {
    s == [] || (!IsSpace(s[0]) && !IsSpace(s[|s| - 1]))
  }

  lemma TrimIsTrimmed(s: string)
    ensures Trimmed(Trim(s))
  {
    var u := TrimStart(s);
    var v := TrimEnd(u);
    TrimStartSpec(s);
    TrimEndSpec(u);
    if v != [] {
      assert v[0] == u[0];
    }
  }

  /** Trimming text that is already trimmed changes nothing. */
  lemma TrimOfTrimmed(t: string)
    requires Trimmed(t)
    ensures Trim(t) == t
  {
    if t != [] {
      assert TrimStart(t) == t;
    }
  }

  lemma TrimIdempotent(s: string)
    ensures Trim(Trim(s)) == Trim(s)
  {
    TrimIsTrimmed(s);
    TrimOfTrimmed(Trim(s));
  }

  /** `s.replace(/\s+/g, " ")`: every maximal whitespace run becomes one space. */
  function Collapse(s: string): string
    decreases |s|
  {
    if s == [] then []
    else if IsSpace(s[0]) then " " + Collapse(TrimStart(s[1..]))
    else [s[0]] + Collapse(s[1..])
  }

  /** The game key: `String(v).trim().replace(/\s+/g, " ").toLowerCase()`. */
  function NormalizeName(s: string): string
  {
    Lower(Collapse(Trim(s)))
  }

  /** Header matching form: trimmed and lower-cased, inner whitespace kept. */
  function NormalizeHeader(s: string): (r: string)
    ensures |r| <= |s|
  {
    Lower(Trim(s))
  }

  /** `replace(/[^a-z0-9]/g, "")`: only [a-z0-9] is left. */
  function KeepLowerAlnum(s: string): (r: string)
    ensures |r| <= |s|
    ensures forall i :: 0 <= i < |r| ==> IsLowerAlnum(r[i])
  {
    if s == [] then [] else (if IsLowerAlnum(s[0]) then [s[0]] else []) + KeepLowerAlnum(s[1..])
  }

  /** Text made of [a-z0-9] alone is kept whole, and text without any of them vanishes. */
  lemma {:induction false} KeepLowerAlnumKeeps(s: string)
    ensures (forall i :: 0 <= i < |s| ==> IsLowerAlnum(s[i])) ==> KeepLowerAlnum(s) == s
    ensures (forall i :: 0 <= i < |s| ==> !IsLowerAlnum(s[i])) ==> KeepLowerAlnum(s) == []
  {
    if s != [] {
      KeepLowerAlnumKeeps(s[1..]);
      assert forall i :: 1 <= i < |s| ==> s[1..][i - 1] == s[i];
      assert s == [s[0]] + s[1..];
    }
  }

  /** The filter works piece by piece, so the kept characters stay in their order. */
  lemma {:induction false} KeepLowerAlnumAppend(a: string, b: string)
    ensures KeepLowerAlnum(a + b) == KeepLowerAlnum(a) + KeepLowerAlnum(b)
  {
    if a == [] {
      assert a + b == b;
    } else {
      assert (a + b)[0] == a[0] && (a + b)[1..] == a[1..] + b;
      KeepLowerAlnumAppend(a[1..], b);
    }
  }

  /** Block-name matching form: lower-cased, every character outside [a-z0-9] removed. */
  function NormalizeLoose(s: string): string
  {
    KeepLowerAlnum(Lower(s))
  }

  // ---------------------------------------------------------------------------
  // A reference definition of NormalizeName through words.

  /** The maximal whitespace-free prefix. */
  function WordPrefix(s: string): (w: string)
    ensures |w| <= |s| && w == s[..|w|] && NoSpace(w)
    ensures |w| < |s| ==> IsSpace(s[|w|])
    ensures s != [] && !IsSpace(s[0]) ==> |w| >= 1
  {
    if s == [] || IsSpace(s[0]) then [] else [s[0]] + WordPrefix(s[1..])
  }

  /** The whitespace-separated words of `s`, left to right. */
  function Words(s: string): seq<string>
    decreases |s|
  {
    if s == [] then []
    else if IsSpace(s[0]) then Words(s[1..])
    else
      var w := WordPrefix(s);
      [w] + Words(s[|w|..])
  }

  /** Words separated by single spaces. */
  function JoinWords(ws: seq<string>): string
  {
    if |ws| == 0 then ""
    else if |ws| == 1 then ws[0]
    else ws[0] + " " + JoinWords(ws[1..])
  }

  function LowerAll(ws: seq<string>): (r: seq<string>)
    ensures |r| == |ws| && forall i :: 0 <= i < |ws| ==> r[i] == Lower(ws[i])
  {
    seq(|ws|, i requires 0 <= i < |ws| => Lower(ws[i]))
  }

  predicate ProperWords(ws: seq<string>)
  {
    forall i :: 0 <= i < |ws| ==> ws[i] != [] && NoSpace(ws[i])
  }

  lemma LowerAppend(a: string, b: string)
    ensures Lower(a + b) == Lower(a) + Lower(b)
  {
  }

  lemma LowerIdempotent(s: string)
    ensures Lower(Lower(s)) == Lower(s)
  {
  }

  lemma WordPrefixAppendSpace(s: string, c: char)
    requires IsSpace(c)
    ensures WordPrefix(s + [c]) == WordPrefix(s)
  {
    if s != [] && !IsSpace(s[0]) {
      assert (s + [c])[1..] == s[1..] + [c];
      WordPrefixAppendSpace(s[1..], c);
    }
  }

  lemma {:induction false} WordsAppendSpace(s: string, c: char)
    requires IsSpace(c)
    ensures Words(s + [c]) == Words(s)
    decreases |s|
  {
    if s == [] {
      assert Words([c]) == Words([]);
    } else if IsSpace(s[0]) {
      assert (s + [c])[1..] == s[1..] + [c];
      WordsAppendSpace(s[1..], c);
    } else {
      WordPrefixAppendSpace(s, c);
      var w := WordPrefix(s);
      assert (s + [c])[|w|..] == s[|w|..] + [c];
      WordsAppendSpace(s[|w|..], c);
    }
  }

  lemma {:induction false} WordsTrimStart(s: string)
    ensures Words(TrimStart(s)) == Words(s)
  {
    if s != [] && IsSpace(s[0]) {
      WordsTrimStart(s[1..]);
    }
  }

  lemma {:induction false} WordsTrimEnd(s: string)
    ensures Words(TrimEnd(s)) == Words(s)
    decreases |s|
  {
    if s != [] && IsSpace(s[|s| - 1]) {
      var t := s[..|s| - 1];
      assert s == t + [s[|s| - 1]];
      WordsAppendSpace(t, s[|s| - 1]);
      WordsTrimEnd(t);
    }
  }

  lemma {:induction false} CollapseWordPrefix(w: string, r: string)
    requires NoSpace(w)
    ensures Collapse(w + r) == w + Collapse(r)
    decreases |w|
  {
    if w != [] {
      var s := w + r;
      assert s[0] == w[0] && !IsSpace(s[0]);
      assert s[1..] == w[1..] + r;
      CollapseWordPrefix(w[1..], r);
      assert w == [w[0]] + w[1..];
    } else {
      assert w + r == r;
    }
  }

  /** After a word, the rest of a trimmed text is a space run followed by a trimmed text. */
  lemma AfterWord(rest: string)
    requires rest != [] && IsSpace(rest[0]) && !IsSpace(rest[|rest| - 1])
    ensures TrimStart(rest[1..]) != [] && Trimmed(TrimStart(rest[1..]))
    ensures |TrimStart(rest[1..])| < |rest|
    ensures Words(rest) == Words(TrimStart(rest[1..]))
  {
    var u := rest[1..];
    assert u != [] && u[|u| - 1] == rest[|rest| - 1];
    TrimStartKeepsLast(u);
    WordsTrimStart(u);
  }

  lemma TrimStartKeepsLast(u: string)
    requires u != [] && !IsSpace(u[|u| - 1])
    ensures TrimStart(u) != [] && TrimStart(u)[|TrimStart(u)| - 1] == u[|u| - 1]
  {
    if IsSpace(u[0]) {
      TrimStartKeepsLast(u[1..]);
    }
  }

  lemma JoinWordsCons(w: string, ws: seq<string>)
    requires ws != []
    ensures JoinWords([w] + ws) == w + " " + JoinWords(ws)
  {
    assert ([w] + ws)[1..] == ws;
  }

  lemma {:induction false} CollapseTrimmedIsJoin(t: string)
    requires Trimmed(t)
    ensures Collapse(t) == JoinWords(Words(t))
    decreases |t|
  {
    if t != [] {
      var w := WordPrefix(t);
      var rest := t[|w|..];
      WordSplit(t);
      if rest != [] {
        assert rest[|rest| - 1] == t[|t| - 1];
        AfterWord(rest);
        var t' := TrimStart(rest[1..]);
        CollapseTrimmedIsJoin(t');
        JoinAfterWord(w, rest, t');
      }
    }
  }

  /** A text that starts with a word is that word followed by the rest. */
  lemma WordSplit(t: string)
    requires t != [] && !IsSpace(t[0])
    ensures var w := WordPrefix(t);
      && Words(t) == [w] + Words(t[|w|..])
      && Collapse(t) == w + Collapse(t[|w|..])
  {
    var w := WordPrefix(t);
    assert t == w + t[|w|..];
    CollapseWordPrefix(w, t[|w|..]);
  }

  lemma JoinAfterWord(w: string, rest: string, t': string)
    requires rest != [] && IsSpace(rest[0]) && t' == TrimStart(rest[1..]) && t' != []
    requires !IsSpace(t'[0])
    requires Words(rest) == Words(t')
    requires Collapse(t') == JoinWords(Words(t'))
    ensures w + Collapse(rest) == JoinWords([w] + Words(rest))
  {
    assert Collapse(rest) == " " + Collapse(t');
    WordSplit(t');
    JoinWordsCons(w, Words(t'));
  }

  lemma {:induction false} LowerJoin(ws: seq<string>)
    ensures Lower(JoinWords(ws)) == JoinWords(LowerAll(ws))
  {
    if |ws| >= 2 {
      LowerJoin(ws[1..]);
      LowerAppend(ws[0] + " ", JoinWords(ws[1..]));
      LowerAppend(ws[0], " ");
      assert LowerAll(ws)[1..] == LowerAll(ws[1..]);
    }
  }

  /** NormalizeName puts the lower-cased words back together with single spaces. */
  lemma NormalizeNameIsJoinedWords(s: string)
    ensures NormalizeName(s) == JoinWords(LowerAll(Words(s)))
  {
    TrimIsTrimmed(s);
    CollapseTrimmedIsJoin(Trim(s));
    WordsTrimStart(s);
    WordsTrimEnd(TrimStart(s));
    LowerJoin(Words(Trim(s)));
  }

  lemma WordsAreProper(s: string)
    ensures ProperWords(Words(s))
    decreases |s|
  {
    if s != [] {
      if IsSpace(s[0]) {
        WordsAreProper(s[1..]);
      } else {
        WordsAreProper(s[|WordPrefix(s)|..]);
      }
    }
  }

  lemma {:induction false} WordPrefixOfWord(w: string, r: string)
    requires NoSpace(w)
    requires r == [] || IsSpace(r[0])
    ensures WordPrefix(w + r) == w
    decreases |w|
  {
    if w != [] {
      assert (w + r)[1..] == w[1..] + r;
      WordPrefixOfWord(w[1..], r);
    } else {
      assert w + r == r;
    }
  }

  lemma {:induction false} WordsOfJoin(ws: seq<string>)
    requires ProperWords(ws)
    ensures Words(JoinWords(ws)) == ws
  {
    if |ws| == 1 {
      WordPrefixOfWord(ws[0], []);
      assert ws[0] + [] == ws[0];
      assert ws[0][|ws[0]|..] == [];
    } else if |ws| >= 2 {
      var j := JoinWords(ws[1..]);
      var s := ws[0] + " " + j;
      WordPrefixOfWord(ws[0], " " + j);
      assert s == ws[0] + (" " + j);
      assert s[|ws[0]|..] == " " + j;
      assert (" " + j)[1..] == j;
      WordsOfJoin(ws[1..]);
    }
  }

  lemma LowerAllProper(ws: seq<string>)
    requires ProperWords(ws)
    ensures ProperWords(LowerAll(ws))
  {
    forall i | 0 <= i < |ws|
      ensures LowerAll(ws)[i] != [] && NoSpace(LowerAll(ws)[i])
    {
      var w := ws[i];
      forall k | 0 <= k < |w| ensures !IsSpace(Lower(w)[k]) {
        assert !IsSpace(w[k]);
      }
    }
  }

  /** Normalising a game key twice changes nothing. */
  lemma NormalizeNameIdempotent(s: string)
    ensures NormalizeName(NormalizeName(s)) == NormalizeName(s)
  {
    var ws := LowerAll(Words(s));
    NormalizeNameIsJoinedWords(s);
    WordsAreProper(s);
    LowerAllProper(Words(s));
    NormalizeNameIsJoinedWords(JoinWords(ws));
    WordsOfJoin(ws);
    forall i | 0 <= i < |ws| ensures Lower(ws[i]) == ws[i] {
      LowerIdempotent(Words(s)[i]);
    }
    assert LowerAll(ws) == ws;
  }

  /**
   * Two spellings that differ only in letter case, in where the whitespace runs are,
   * or in how long they are, get the same game key.
   */
  lemma SameWordsSameKey(a: string, b: string)
    requires LowerAll(Words(a)) == LowerAll(Words(b))
    ensures NormalizeName(a) == NormalizeName(b)
  {
    NormalizeNameIsJoinedWords(a);
    NormalizeNameIsJoinedWords(b);
  }

  /** An empty key arises exactly from an all-whitespace name. */
  lemma NormalizeNameEmpty(s: string)
    ensures NormalizeName(s) == "" <==> Trim(s) == ""
  {
    var t := Trim(s);
    if t != [] {
      TrimIsTrimmed(s);
      assert !IsSpace(t[0]);
      assert Collapse(t)[0] == t[0];
    }
  }

  // ---------------------------------------------------------------------------
  // Prefixes, substrings, splitting and joining.

  predicate StartsWith(s: string, p: string)
  {
    |p| <= |s| && s[..|p|] == p
  }

  predicate OccursAt(s: string, t: string, p: nat)
  {
    p + |t| <= |s| && s[p..p + |t|] == t
  }

  /** `s.includes(t)`. */
  predicate Contains(s: string, t: string)
  {
    exists p: nat :: p + |t| <= |s| && OccursAt(s, t, p)
  }

  /** `s.indexOf(t, from)`. */
  function IndexOf(s: string, t: string, from: nat): (r: Option<nat>)
    decreases |s| - from
    ensures r.Some? ==> from <= r.value && OccursAt(s, t, r.value)
    ensures r.Some? ==> forall q: nat :: from <= q < r.value ==> !OccursAt(s, t, q)
    ensures r.None? ==> forall q: nat :: from <= q ==> !OccursAt(s, t, q)
  {
    if from + |t| > |s| then None
    else if s[from..from + |t|] == t then Some(from)
    else IndexOf(s, t, from + 1)
  }

  /** `s.split(sep)` for a non-empty separator. */
  function Split(s: string, sep: string): (parts: seq<string>)
    requires sep != []
    ensures |parts| >= 1
    decreases |s|
  {
    match IndexOf(s, sep, 0)
    case None => [s]
    case Some(p) => [s[..p]] + Split(s[p + |sep|..], sep)
  }

  /** `parts.join(sep)`. */
  function Join(parts: seq<string>, sep: string): string
  {
    if |parts| == 0 then ""
    else if |parts| == 1 then parts[0]
    else parts[0] + sep + Join(parts[1..], sep)
  }

  /** Splitting and joining on the same separator gives back the text. */
  lemma {:induction false} JoinSplit(s: string, sep: string)
    requires sep != []
    ensures Join(Split(s, sep), sep) == s
    decreases |s|
  {
    var i := IndexOf(s, sep, 0);
    if i.Some? {
      var p := i.value;
      var rest := s[p + |sep|..];
      var tail := Split(rest, sep);
      assert Split(s, sep) == [s[..p]] + tail;
      JoinSplit(rest, sep);
      JoinCons(s[..p], tail, sep);
      assert s == s[..p] + s[p..p + |sep|] + rest;
    }
  }

  /**
   * No part holds the separator, the text is one part exactly when it holds no
   * separator, and the first cut is at the leftmost occurrence.
   */
  lemma {:induction false} SplitSpec(s: string, sep: string)
    requires sep != []
    ensures forall i :: 0 <= i < |Split(s, sep)| ==> !Contains(Split(s, sep)[i], sep)
    ensures |Split(s, sep)| == 1 <==> !Contains(s, sep)
    ensures |Split(s, sep)| > 1 ==>
      OccursAt(s, sep, |Split(s, sep)[0]|) && forall q: nat :: q < |Split(s, sep)[0]| ==> !OccursAt(s, sep, q)
    decreases |s|
  {
    var parts := Split(s, sep);
    match IndexOf(s, sep, 0)
    case None =>
      assert parts == [s];
    case Some(p) =>
      var rest := s[p + |sep|..];
      SplitSpec(rest, sep);
      assert parts == [s[..p]] + Split(rest, sep);
      PrefixFree(s, sep, p);
      assert OccursAt(s, sep, p);
      forall i | 1 <= i < |parts| ensures !Contains(parts[i], sep) {
        assert parts[i] == Split(rest, sep)[i - 1];
      }
  }

  /** The text before the leftmost occurrence holds no occurrence. */
  lemma PrefixFree(s: string, sep: string, p: nat)
    requires p <= |s| && forall q: nat :: q < p ==> !OccursAt(s, sep, q)
    requires sep != []
    ensures !Contains(s[..p], sep)
  {
    forall q: nat | q + |sep| <= p ensures !OccursAt(s[..p], sep, q) {
      assert q < p && !OccursAt(s, sep, q);
      assert s[..p][q..q + |sep|] == s[q..q + |sep|];
    }
  }

  lemma JoinCons(a: string, parts: seq<string>, sep: string)
    requires parts != []
    ensures Join([a] + parts, sep) == a + sep + Join(parts, sep)
  {
    assert ([a] + parts)[1..] == parts;
  }

  /** Decimal digits, as in a template literal. */
  function NatToString(n: nat): (r: string)
    ensures r != [] && forall i :: 0 <= i < |r| ==> IsDigit(r[i])
  {
    if n < 10 then [('0' as int + n) as char]
    else NatToString(n / 10) + [('0' as int + n % 10) as char]
  }

  // ---------------------------------------------------------------------------
  // Lexicographic order by code point, which is `Array.prototype.sort`'s default
  // UTF-16 order except between non-BMP characters and U+E000 to U+FFFF; the model
  // also uses it for `localeCompare`.

  predicate StrLess(a: string, b: string)
  {
    if a == [] then b != []
    else if b == [] then false
    else if a[0] != b[0] then a[0] < b[0]
    else StrLess(a[1..], b[1..])
  }

  lemma {:induction false} StrLessIrreflexive(a: string)
    ensures !StrLess(a, a)
  {
    if a != [] { StrLessIrreflexive(a[1..]); }
  }

  lemma {:induction false} StrLessTransitive(a: string, b: string, c: string)
    requires StrLess(a, b) && StrLess(b, c)
    ensures StrLess(a, c)
  {
    if a != [] && b != [] && c != [] && a[0] == b[0] && b[0] == c[0] {
      StrLessTransitive(a[1..], b[1..], c[1..]);
    }
  }

  lemma {:induction false} StrLessTotal(a: string, b: string)
    requires a != b
    ensures StrLess(a, b) || StrLess(b, a)
  {
    if a != [] && b != [] && a[0] == b[0] {
      assert a == [a[0]] + a[1..] && b == [b[0]] + b[1..];
      StrLessTotal(a[1..], b[1..]);
    }
  }

  predicate StrictlySorted(s: seq<string>)
  {
    forall i, j :: 0 <= i < j < |s| ==> StrLess(s[i], s[j])
  }

  function InsertSorted(s: seq<string>, x: string): (r: seq<string>)
    requires StrictlySorted(s) && x !in s
    ensures StrictlySorted(r) && |r| == |s| + 1
    ensures forall y :: y in r <==> y in s || y == x
  {
    if s == [] then [x]
    else if StrLess(x, s[0]) then
      InsertFront(s, x);
      [x] + s
    else
      StrLessTotal(x, s[0]);
      var t := InsertSorted(s[1..], x);
      assert forall j :: 0 < j < |s| ==> StrLess(s[0], s[j]);
      assert forall y :: y in t ==> StrLess(s[0], y);
      [s[0]] + t
  }

  lemma InsertFront(s: seq<string>, x: string)
    requires StrictlySorted(s) && s != [] && StrLess(x, s[0])
    ensures StrictlySorted([x] + s)
  {
    forall j | 0 < j < |s| ensures StrLess(x, s[j]) {
      StrLessTransitive(x, s[0], s[j]);
    }
  }

  /** Adds `x` to a strictly sorted list of distinct names unless it is already there. */
  function AddMember(s: seq<string>, x: string): (r: seq<string>)
    requires StrictlySorted(s)
    ensures StrictlySorted(r)
    ensures forall y :: y in r <==> y in s || y == x
  {
    if x in s then s
    else
      InsertSorted(s, x)
  }

  /** The prefix of a sequence up to its length is the whole sequence. */
  lemma TakeAll<T>(s: seq<T>, n: nat)
    requires n == |s|
    ensures s[..n] == s
  {
  }

  /** A game key does not depend on surrounding whitespace. */
  lemma NormalizeNameTrim(s: string)
    ensures NormalizeName(Trim(s)) == NormalizeName(s)
  {
    TrimIdempotent(s);
  }

  datatype Option<+T> = None | Some(value: T)

  datatype Result<+T, +E> = Ok(value: T) | Err(error: E)
}
