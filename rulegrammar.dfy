/**
 * The sentence grammar of the free-text rules file: a sentence is classified into one
 * of the forms `applyRuleSentence` recognises (the first case that matches wins), and
 * each form tightens or extends a rule in one specific way.
 *
 * The regular expressions `applyRuleSentence` in app.js uses are modelled by token patterns matched
 * with maximal munch: each `\d+` takes the whole digit run and each `\s*` the whole
 * whitespace run. For the seven patterns below this is what backtracking gives too,
 * because no digit run is followed by a token that can start with a digit and no
 * whitespace run by a token that can start with whitespace.
 */
module RuleGrammar {
  import opened Text
  import opened Rules

  // ---------------------------------------------------------------------------
  // Numbers in text.

  /** The decimal value of a run of digits (`Number("007")` is 7). */
  function DigitsValue(ds: string): nat
  {
    if ds == [] then 0
    else DigitsValue(ds[..|ds| - 1]) * 10 + (if IsDigit(ds[|ds| - 1]) then ds[|ds| - 1] as int - '0' as int else 0)
  }

  /** The end of the digit run starting at `p` (`p` itself when there is none). */
  function DigitEnd(s: string, p: nat): (e: nat)
    requires p <= |s|
    ensures p <= e <= |s|
    ensures forall i :: p <= i < e ==> IsDigit(s[i])
    ensures e < |s| ==> !IsDigit(s[e])
    decreases |s| - p
  {
    if p < |s| && IsDigit(s[p]) then DigitEnd(s, p + 1) else p
  }

  /** The end of the whitespace run starting at `p`. */
  function SpaceEnd(s: string, p: nat): (e: nat)
    requires p <= |s|
    ensures p <= e <= |s|
    ensures forall i :: p <= i < e ==> IsSpace(s[i])
    ensures e < |s| ==> !IsSpace(s[e])
    decreases |s| - p
  {
    if p < |s| && IsSpace(s[p]) then SpaceEnd(s, p + 1) else p
  }

  /** `extractNumbers`: the value of every maximal digit run, left to right. */
  function ExtractNumbers(s: string): (ns: seq<nat>)
    decreases |s|
  {
    if s == [] then []
    else if IsDigit(s[0]) then
      var e := DigitEnd(s, 0);
      [DigitsValue(s[..e])] + ExtractNumbers(s[e..])
    else ExtractNumbers(s[1..])
  }

  predicate HasDigit(s: string)
  {
    exists i :: 0 <= i < |s| && IsDigit(s[i])
  }

  /** A text yields some number exactly when it contains a digit. */
  lemma {:induction false} ExtractNumbersEmpty(s: string)
    ensures ExtractNumbers(s) == [] <==> !HasDigit(s)
    decreases |s|
  {
    if s != [] && !IsDigit(s[0]) {
      ExtractNumbersEmpty(s[1..]);
      if HasDigit(s) {
        var i :| 0 <= i < |s| && IsDigit(s[i]);
        assert s[1..][i - 1] == s[i];
      }
      if HasDigit(s[1..]) {
        var i :| 0 <= i < |s[1..]| && IsDigit(s[1..][i]);
        assert s[i + 1] == s[1..][i];
      }
    }
  }

  /** One number per digit run, the first one being the value of the first run. */
  lemma {:induction false} ExtractNumbersFirst(s: string, p: nat)
    requires p < |s| && IsDigit(s[p]) && forall i :: 0 <= i < p ==> !IsDigit(s[i])
    ensures ExtractNumbers(s) != [] && ExtractNumbers(s)[0] == DigitsValue(s[p..DigitEnd(s, p)])
    decreases |s|
  {
    if p > 0 {
      assert !IsDigit(s[0]);
      assert forall i :: 0 <= i < p - 1 ==> s[1..][i] == s[i + 1];
      ExtractNumbersFirst(s[1..], p - 1);
      DigitEndShift(s, p);
      assert s[1..][p - 1..DigitEnd(s[1..], p - 1)] == s[p..DigitEnd(s, p)];
    }
  }

  /** A run of digits is one number, its value. */
  lemma ExtractNumbersRun(s: string)
    requires s != [] && forall i :: 0 <= i < |s| ==> IsDigit(s[i])
    ensures ExtractNumbers(s) == [DigitsValue(s)]
  {
    var e := DigitEnd(s, 0);
    assert e == |s|;
    assert s[..e] == s && s[e..] == [];
  }

  /**
   * A non-digit cuts the text in two: the numbers of the left side, then those of the
   * right side. With `ExtractNumbersRun` this gives every number of a list such as
   * "2, 5 or 7", in order.
   */
  lemma {:induction false} ExtractNumbersAppend(a: string, c: char, b: string)
    requires !IsDigit(c)
    ensures ExtractNumbers(a + [c] + b) == ExtractNumbers(a) + ExtractNumbers(b)
    decreases |a|
  {
    var s := a + [c] + b;
    if a == [] {
      assert s[0] == c && s[1..] == b;
    } else if IsDigit(a[0]) {
      var e := DigitEnd(a, 0);
      DigitEndAppend(a, c, b, 0);
      assert s[0] == a[0];
      assert s[..e] == a[..e] && s[e..] == a[e..] + [c] + b;
      ExtractNumbersAppend(a[e..], c, b);
      var v := DigitsValue(a[..e]);
      assert [v] + (ExtractNumbers(a[e..]) + ExtractNumbers(b)) == ([v] + ExtractNumbers(a[e..])) + ExtractNumbers(b);
    } else {
      assert s[0] == a[0] && s[1..] == a[1..] + [c] + b;
      ExtractNumbersAppend(a[1..], c, b);
    }
  }

  /** A digit run inside `a` ends where it does in `a`, whatever follows a non-digit. */
  lemma {:induction false} DigitEndAppend(a: string, c: char, b: string, p: nat)
    requires !IsDigit(c) && p <= |a|
    ensures DigitEnd(a + [c] + b, p) == DigitEnd(a, p)
    decreases |a| - p
  {
    var s := a + [c] + b;
    if p < |a| {
      assert s[p] == a[p];
      if IsDigit(a[p]) {
        DigitEndAppend(a, c, b, p + 1);
      }
    } else {
      assert s[p] == c;
    }
  }

  lemma {:induction false} DigitEndShift(s: string, p: nat)
    requires 0 < p <= |s|
    ensures DigitEnd(s[1..], p - 1) == DigitEnd(s, p) - 1
    decreases |s| - p
  {
    if p < |s| && IsDigit(s[p]) {
      DigitEndShift(s, p + 1);
    }
  }

  // ---------------------------------------------------------------------------
  // Token patterns.

  datatype Token = Lit(text: string) | Digits | Spaces

  function CaptureCount(toks: seq<Token>): nat
  {
    if toks == [] then 0 else (if toks[0].Digits? then 1 else 0) + CaptureCount(toks[1..])
  }

  /**
   * Matches `toks` at exactly position `p`, giving the value of each digit group, as
   * a regular expression's capture groups would.
   */
  function MatchAt(s: string, p: nat, toks: seq<Token>): (r: Option<seq<nat>>)
    requires p <= |s|
    ensures r.Some? ==> |r.value| == CaptureCount(toks)
    decreases |toks|
  {
    if toks == [] then Some([])
    else
      match toks[0]
      case Lit(t) =>
        if OccursAt(s, t, p) then MatchAt(s, p + |t|, toks[1..]) else None
      case Spaces =>
        MatchAt(s, SpaceEnd(s, p), toks[1..])
      case Digits =>
        var e := DigitEnd(s, p);
        if e == p then None
        else
          match MatchAt(s, e, toks[1..])
          case None => None
          case Some(cs) => Some([DigitsValue(s[p..e])] + cs)
  }

  /** The captures of the leftmost match of `toks` at or after `p`, as `String.prototype.match` finds it. */
  function Search(s: string, toks: seq<Token>, p: nat): (r: Option<seq<nat>>)
    requires p <= |s|
    ensures r.Some? ==> |r.value| == CaptureCount(toks)
    ensures r.Some? ==> exists q :: (p <= q <= |s| && MatchAt(s, q, toks) == r &&
                                     forall q' :: p <= q' < q ==> MatchAt(s, q', toks).None?)
    ensures r.None? ==> forall q :: p <= q <= |s| ==> MatchAt(s, q, toks).None?
    decreases |s| - p
  {
    match MatchAt(s, p, toks)
    case Some(cs) => Some(cs)
    case None =>
      if p == |s| then None
      else Search(s, toks, p + 1)
  }

  /** The first capture of the leftmost match, if there is one. */
  function Capture1(s: string, toks: seq<Token>): Option<nat>
  {
    match Search(s, toks, 0)
    case Some(cs) => if |cs| >= 1 then Some(cs[0]) else None
    case None => None
  }

  /** The first two captures of the leftmost match, if there is one. */
  function Capture2(s: string, toks: seq<Token>): Option<(nat, nat)>
  {
    match Search(s, toks, 0)
    case Some(cs) => if |cs| >= 2 then Some((cs[0], cs[1])) else None
    case None => None
  }

  /** `/cannot be played with (\d+)\s*or more/` */
  const CannotOrMorePattern: seq<Token> := [Lit("cannot be played with "), Digits, Spaces, Lit("or more")]
  /** `/cannot be played with more than (\d+)/` */
  const CannotMoreThanPattern: seq<Token> := [Lit("cannot be played with more than "), Digits]
  /** `/can be played with more than (\d+)/` */
  const CanMoreThanPattern: seq<Token> := [Lit("can be played with more than "), Digits]
  /** `/can be played with (\d+)\s*or more/` */
  const CanOrMorePattern: seq<Token> := [Lit("can be played with "), Digits, Spaces, Lit("or more")]
  /** `/can be played with up to (\d+)/` */
  const CanUpToPattern: seq<Token> := [Lit("can be played with up to "), Digits]
  /** `/can be played with between (\d+)\s*and\s*(\d+)/` */
  const CanBetweenPattern: seq<Token> := [Lit("can be played with between "), Digits, Spaces, Lit("and"), Spaces, Digits]
  /** `/can be played with (\d+)\s*to\s*(\d+)/` */
  const CanRangePattern: seq<Token> := [Lit("can be played with "), Digits, Spaces, Lit("to"), Spaces, Digits]

  lemma PatternCaptures()
    ensures CaptureCount(CannotOrMorePattern) == 1 && CaptureCount(CannotMoreThanPattern) == 1
    ensures CaptureCount(CanMoreThanPattern) == 1 && CaptureCount(CanOrMorePattern) == 1 && CaptureCount(CanUpToPattern) == 1
    ensures CaptureCount(CanBetweenPattern) == 2 && CaptureCount(CanRangePattern) == 2
  {
    assert CannotOrMorePattern[1..][1..][1..][1..] == [];
    assert CannotMoreThanPattern[1..][1..] == [];
    assert CanMoreThanPattern[1..][1..] == [];
    assert CanOrMorePattern[1..][1..][1..][1..] == [];
    assert CanUpToPattern[1..][1..] == [];
    assert CanBetweenPattern[1..][1..][1..][1..][1..][1..] == [];
    assert CanRangePattern[1..][1..][1..][1..][1..][1..] == [];
  }

  // ---------------------------------------------------------------------------
  // Sentence forms.

  /** The grammar case a sentence falls under; exactly one applies to any sentence. */
  datatype SentenceForm =
    | BestWith(best: nat)                    // "best ... played with" and a number
    | CannotFromOn(from: nat)                // "cannot be played with N or more"
    | CannotAbove(above: nat)                // "cannot be played with more than N"
    | CannotCounts(counts: seq<nat>)         // "cannot be played with" and some numbers
    | CanAbove(above: nat)                   // "can be played with more than N"
    | CanFromOn(from: nat)                   // "can be played with N or more"
    | CanUpTo(upTo: nat)                     // "can be played with up to N"
    | CanBetween(low: nat, high: nat)        // "can be played with between N and M"
    | CanRange(low: nat, high: nat)          // "can be played with N to M"
    | CanCounts(counts: seq<nat>)            // "can be played with" and some numbers
    | Unparsed                               // a number and "cannot", nothing else recognised
    | Ignored                                // nothing recognised

  /** The classification `applyRuleSentence` performs, on the lower-cased sentence. */
  function Classify(sentence: string): SentenceForm
  {
    ClassifyLower(Lower(sentence))
  }

  /** The cases of `applyRuleSentence`, tried in order on text already lower-cased. */
  function ClassifyLower(lower: string): SentenceForm
  {
    var numbers := ExtractNumbers(lower);
    if Contains(lower, "best") && Contains(lower, "played with") && numbers != [] then BestWith(numbers[0])
    else match CannotForm(lower, numbers)
      case Some(f) => f
      case None =>
        match CanForm(lower, numbers)
        case Some(f) => f
        case None => if numbers != [] && Contains(lower, "cannot") then Unparsed else Ignored
  }

  /** The "cannot be played with" block: `None` when it falls through. */
  function CannotForm(lower: string, numbers: seq<nat>): Option<SentenceForm>
  {
    if !Contains(lower, "cannot be played with") then None
    else if Capture1(lower, CannotOrMorePattern).Some? then Some(CannotFromOn(Capture1(lower, CannotOrMorePattern).value))
    else if Capture1(lower, CannotMoreThanPattern).Some? then Some(CannotAbove(Capture1(lower, CannotMoreThanPattern).value))
    else if numbers != [] then Some(CannotCounts(numbers))
    else None
  }

  /** The "can be played with" block: `None` when it falls through. */
  function CanForm(lower: string, numbers: seq<nat>): Option<SentenceForm>
  {
    if !Contains(lower, "can be played with") then None
    else if Capture1(lower, CanMoreThanPattern).Some? then Some(CanAbove(Capture1(lower, CanMoreThanPattern).value))
    else if Capture1(lower, CanOrMorePattern).Some? then Some(CanFromOn(Capture1(lower, CanOrMorePattern).value))
    else if Capture1(lower, CanUpToPattern).Some? then Some(CanUpTo(Capture1(lower, CanUpToPattern).value))
    else if Capture2(lower, CanBetweenPattern).Some? then
      Some(CanBetween(Capture2(lower, CanBetweenPattern).value.0, Capture2(lower, CanBetweenPattern).value.1))
    else if Capture2(lower, CanRangePattern).Some? then
      Some(CanRange(Capture2(lower, CanRangePattern).value.0, Capture2(lower, CanRangePattern).value.1))
    else if numbers != [] then Some(CanCounts(numbers))
    else None
  }

  function AsSet(ns: seq<nat>): (r: set<int>)
    ensures forall i :: 0 <= i < |ns| ==> ns[i] in r
    ensures forall x :: x in r ==> exists i :: 0 <= i < |ns| && ns[i] == x
  {
    set i | 0 <= i < |ns| :: ns[i] as int
  }

  function Max(a: int, b: int): int { if a >= b then a else b }

  /** The forms that set `rangeAllowed`. */
  predicate IsRangeForm(f: SentenceForm)
  {
    f.CanAbove? || f.CanFromOn? || f.CanUpTo? || f.CanBetween? || f.CanRange?
  }

  /** The effect of one sentence of form `f` on a rule. */
  function ApplyForm(r: Rule, f: SentenceForm): Rule
  {
    match f
    case BestWith(n) =>
      r.(idealMin := Some(n), idealMax := Some(n), allowedCounts := r.allowedCounts + {n})
    case CannotFromOn(v) => r.(maxPlayers := MinBound(r.maxPlayers, v - 1))
    case CannotAbove(v) => r.(maxPlayers := MinBound(r.maxPlayers, v))
    case CannotCounts(ns) => r.(disallowedCounts := r.disallowedCounts + AsSet(ns))
    case CanAbove(v) => r.(minPlayers := Max(r.minPlayers, v + 1), rangeAllowed := true)
    case CanFromOn(v) => r.(minPlayers := Max(r.minPlayers, v), rangeAllowed := true)
    case CanUpTo(v) => r.(maxPlayers := MinBound(r.maxPlayers, v), rangeAllowed := true)
    case CanBetween(lo, hi) =>
      r.(minPlayers := Max(r.minPlayers, lo), maxPlayers := MinBound(r.maxPlayers, hi), rangeAllowed := true)
    case CanRange(lo, hi) =>
      r.(minPlayers := Max(r.minPlayers, lo), maxPlayers := MinBound(r.maxPlayers, hi), rangeAllowed := true)
    case CanCounts(ns) => r.(allowedCounts := r.allowedCounts + AsSet(ns))
    case Unparsed => r
    case Ignored => r
  }

  function UnparsedWarning(sentence: string): string
  {
    "Unparsed rule: \"" + sentence + "\"."
  }

  /** The warnings one sentence adds. */
  function SentenceWarnings(sentence: string): seq<string>
  {
    if Classify(sentence).Unparsed? then [UnparsedWarning(sentence)] else []
  }

  /**
   * One sentence never loosens a rule: the minimum never decreases, the maximum never
   * increases, flags and count sets only grow, and the name, notes and online cap are
   * untouched.
   */
  lemma ApplyFormTightens(r: Rule, f: SentenceForm)
    ensures var r' := ApplyForm(r, f);
      && r'.minPlayers >= r.minPlayers
      && BoundLe(r'.maxPlayers, r.maxPlayers)
      && r.allowedCounts <= r'.allowedCounts && r.disallowedCounts <= r'.disallowedCounts
      && (r.rangeAllowed ==> r'.rangeAllowed)
      && r'.name == r.name && r'.notes == r.notes && r'.onlineCap == r.onlineCap
  {
  }

  /**
   * Each form touches only its own part of the rule: the ideal range and the allowed
   * counts only for "best" and "can" count lists, the disallowed counts only for
   * "cannot" count lists, the range flag only for the five range forms, and the
   * bounds only for the bound forms.
   */
  lemma ApplyFormFrame(r: Rule, f: SentenceForm)
    ensures var r' := ApplyForm(r, f);
      && (!f.BestWith? ==> r'.idealMin == r.idealMin && r'.idealMax == r.idealMax)
      && (!f.BestWith? && !f.CanCounts? ==> r'.allowedCounts == r.allowedCounts)
      && (!f.CannotCounts? ==> r'.disallowedCounts == r.disallowedCounts)
      && (r'.rangeAllowed <==> r.rangeAllowed || IsRangeForm(f))
      && (!(f.CanAbove? || f.CanFromOn? || f.CanBetween? || f.CanRange?) ==> r'.minPlayers == r.minPlayers)
      && ((f.BestWith? || f.CannotCounts? || f.CanAbove? || f.CanFromOn? || f.CanCounts? || f.Unparsed? || f.Ignored?)
            ==> r'.maxPlayers == r.maxPlayers)
      && (f.Unparsed? || f.Ignored? ==> r' == r)
  {
  }

  /** The forms reached through "can be played with". */
  predicate IsCanForm(f: SentenceForm)
  {
    IsRangeForm(f) || f.CanCounts?
  }

  /** The forms reached through "cannot be played with". */
  predicate IsCannotForm(f: SentenceForm)
  {
    f.CannotFromOn? || f.CannotAbove? || f.CannotCounts?
  }

  /**
   * The "cannot be played with" block tries "N or more", then "more than N", then the
   * list of every number; each form carries what its pattern captured, and it falls
   * through only when there is no phrase, or no match and no number.
   */
  lemma CannotFormOrder(lower: string, numbers: seq<nat>)
    ensures CannotForm(lower, numbers).Some? <==>
              Contains(lower, "cannot be played with") &&
              (Capture1(lower, CannotOrMorePattern).Some? || Capture1(lower, CannotMoreThanPattern).Some? || numbers != [])
    ensures CannotForm(lower, numbers).Some? ==> IsCannotForm(CannotForm(lower, numbers).value)
    ensures CannotForm(lower, numbers).Some? && CannotForm(lower, numbers).value.CannotFromOn? ==>
              Capture1(lower, CannotOrMorePattern) == Some(CannotForm(lower, numbers).value.from)
    ensures CannotForm(lower, numbers).Some? && CannotForm(lower, numbers).value.CannotAbove? ==>
              Capture1(lower, CannotOrMorePattern).None? && Capture1(lower, CannotMoreThanPattern) == Some(CannotForm(lower, numbers).value.above)
    ensures CannotForm(lower, numbers).Some? && CannotForm(lower, numbers).value.CannotCounts? ==>
              Capture1(lower, CannotOrMorePattern).None? && Capture1(lower, CannotMoreThanPattern).None? &&
              CannotForm(lower, numbers).value.counts == numbers != []
  {
  }

  /**
   * The "can be played with" block tries "more than N", "N or more", "up to N",
   * "between N and M", "N to M", then the list of every number.
   */
  lemma CanFormOrder(lower: string, numbers: seq<nat>)
    ensures CanForm(lower, numbers).Some? <==>
              Contains(lower, "can be played with") &&
              (Capture1(lower, CanMoreThanPattern).Some? || Capture1(lower, CanOrMorePattern).Some? ||
               Capture1(lower, CanUpToPattern).Some? || Capture2(lower, CanBetweenPattern).Some? ||
               Capture2(lower, CanRangePattern).Some? || numbers != [])
    ensures CanForm(lower, numbers).Some? ==> IsCanForm(CanForm(lower, numbers).value)
    ensures CanForm(lower, numbers).Some? && CanForm(lower, numbers).value.CanAbove? ==> Capture1(lower, CanMoreThanPattern) == Some(CanForm(lower, numbers).value.above)
    ensures CanForm(lower, numbers).Some? && CanForm(lower, numbers).value.CanFromOn? ==>
              Capture1(lower, CanMoreThanPattern).None? && Capture1(lower, CanOrMorePattern) == Some(CanForm(lower, numbers).value.from)
    ensures CanForm(lower, numbers).Some? && CanForm(lower, numbers).value.CanUpTo? ==>
              Capture1(lower, CanMoreThanPattern).None? && Capture1(lower, CanOrMorePattern).None? &&
              Capture1(lower, CanUpToPattern) == Some(CanForm(lower, numbers).value.upTo)
    ensures CanForm(lower, numbers).Some? && CanForm(lower, numbers).value.CanBetween? ==>
              Capture1(lower, CanMoreThanPattern).None? && Capture1(lower, CanOrMorePattern).None? &&
              Capture1(lower, CanUpToPattern).None? &&
              Capture2(lower, CanBetweenPattern) == Some((CanForm(lower, numbers).value.low, CanForm(lower, numbers).value.high))
    ensures CanForm(lower, numbers).Some? && CanForm(lower, numbers).value.CanRange? ==>
              Capture1(lower, CanMoreThanPattern).None? && Capture1(lower, CanOrMorePattern).None? &&
              Capture1(lower, CanUpToPattern).None? && Capture2(lower, CanBetweenPattern).None? &&
              Capture2(lower, CanRangePattern) == Some((CanForm(lower, numbers).value.low, CanForm(lower, numbers).value.high))
    ensures CanForm(lower, numbers).Some? && CanForm(lower, numbers).value.CanCounts? ==>
              Capture1(lower, CanMoreThanPattern).None? && Capture1(lower, CanOrMorePattern).None? &&
              Capture1(lower, CanUpToPattern).None? && Capture2(lower, CanBetweenPattern).None? &&
              Capture2(lower, CanRangePattern).None? && CanForm(lower, numbers).value.counts == numbers != []
  {
  }

  /** Every "can" form needs a digit: the patterns capture digits, and the count list is not empty. */
  lemma CanFormNeedsNumber(lower: string)
    ensures CanForm(lower, ExtractNumbers(lower)).Some? ==> ExtractNumbers(lower) != []
  {
    ExtractNumbersEmpty(lower);
    PatternCaptures();
    SearchHasDigit(lower, CanMoreThanPattern, 0);
    SearchHasDigit(lower, CanOrMorePattern, 0);
    SearchHasDigit(lower, CanUpToPattern, 0);
    SearchHasDigit(lower, CanBetweenPattern, 0);
    SearchHasDigit(lower, CanRangePattern, 0);
  }

  /**
   * The blocks run in the order `applyRuleSentence` gives them: "best ... played with"
   * with a digit first; then the "cannot" block; then the "can" block, which a sentence
   * holding "cannot be played with" never reaches; and the warning only for a sentence
   * with a digit and "cannot" that no block took.
   */
  lemma ClassifyOrder(lower: string)
    ensures ClassifyLower(lower).BestWith? <==> Contains(lower, "best") && Contains(lower, "played with") && HasDigit(lower)
    ensures ClassifyLower(lower).BestWith? ==> ClassifyLower(lower).best == ExtractNumbers(lower)[0]
    ensures IsCannotForm(ClassifyLower(lower)) <==> !ClassifyLower(lower).BestWith? && CannotForm(lower, ExtractNumbers(lower)).Some?
    ensures IsCannotForm(ClassifyLower(lower)) ==> ClassifyLower(lower) == CannotForm(lower, ExtractNumbers(lower)).value
    ensures IsCanForm(ClassifyLower(lower)) <==>
              !ClassifyLower(lower).BestWith? && CannotForm(lower, ExtractNumbers(lower)).None? &&
              CanForm(lower, ExtractNumbers(lower)).Some?
    ensures IsCanForm(ClassifyLower(lower)) ==>
              ClassifyLower(lower) == CanForm(lower, ExtractNumbers(lower)).value && !Contains(lower, "cannot be played with")
    ensures ClassifyLower(lower).Unparsed? <==>
              !ClassifyLower(lower).BestWith? && CannotForm(lower, ExtractNumbers(lower)).None? &&
              CanForm(lower, ExtractNumbers(lower)).None? && HasDigit(lower) && Contains(lower, "cannot")
  {
    ExtractNumbersEmpty(lower);
    CannotFormOrder(lower, ExtractNumbers(lower));
    CanFormOrder(lower, ExtractNumbers(lower));
    CanFormNeedsNumber(lower);
  }

  /** A pattern with a capture group only matches text with a digit. */
  lemma {:induction false} MatchHasDigit(s: string, p: nat, toks: seq<Token>)
    requires p <= |s| && CaptureCount(toks) >= 1 && MatchAt(s, p, toks).Some?
    ensures HasDigit(s)
    decreases |toks|
  {
    match toks[0]
    case Lit(t) => MatchHasDigit(s, p + |t|, toks[1..]);
    case Spaces => MatchHasDigit(s, SpaceEnd(s, p), toks[1..]);
    case Digits => assert IsDigit(s[p]);
  }

  lemma SearchHasDigit(s: string, toks: seq<Token>, p: nat)
    requires p <= |s| && CaptureCount(toks) >= 1
    ensures Search(s, toks, p).Some? ==> HasDigit(s)
  {
    if Search(s, toks, p).Some? {
      var q :| p <= q <= |s| && MatchAt(s, q, toks) == Search(s, toks, p);
      MatchHasDigit(s, q, toks);
    }
  }

  /** Text holding "cannot be played with" holds "cannot". */
  lemma CannotHasCannot(s: string)
    ensures Contains(s, "cannot be played with") ==> Contains(s, "cannot")
  {
    if Contains(s, "cannot be played with") {
      var p: nat :| p + 21 <= |s| && OccursAt(s, "cannot be played with", p);
      assert s[p..p + 6] == s[p..p + 21][..6];
      assert OccursAt(s, "cannot", p);
    }
  }
}
