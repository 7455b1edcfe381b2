/**
 * The recommendation engine (the ranking logic of `computeAndRender`): for a set of
 * selected players, every known game is checked against its player-count rules and
 * the players' vetoes, the surviving games are scored and ranked, and with exactly
 * five players one priority game is moved to the front.
 */
module Engine {
  import opened Text
  import opened Prefs
  import opened Rules
  import PrefParser

  const ClubsLeagueKey := "clubs - league"
  const FivePlayerPriority: set<string> := {"valorant", "counterstrike", "dota 2"}
  /** The score of a player who has not rated a game. */
  const MissingScoreDefault := 1

  /** Why a game is not recommended; only whether there is a reason matters. */
  datatype Reason =
    | Vetoed(player: string)
    | CountNotAllowed(count: int)
    | RulesDisallow(count: int)
    | NeedsAtLeast(min: int)
    | AboveMax(max: int)
    | OverOnlineCap(cap: int)

  /** A recommended game. */
  datatype Recommendation = Recommendation(name: string, totalScore: int, bonus: int, idealRange: Option<(int, int)>)

  // ---------------------------------------------------------------------------
  // One game's configuration.

  function PrefOf(prefs: Preferences, key: string): Option<PrefEntry>
  {
    if key in prefs then Some(prefs[key]) else None
  }

  function RuleOf(rules: Option<RuleMap>, key: string): Option<Rule>
  {
    if rules.Some? && key in rules.value then Some(rules.value[key]) else None
  }

  /** `(rules && rules.name) || (pref && pref.name) || gameKey`. */
  function DisplayName(rule: Option<Rule>, pref: Option<PrefEntry>, key: string): string
  {
    if rule.Some? && rule.value.name != "" then rule.value.name
    else if pref.Some? && pref.value.name != "" then pref.value.name
    else key
  }

  function MinOf(rule: Option<Rule>): int { if rule.Some? then rule.value.minPlayers else 1 }
  function MaxOf(rule: Option<Rule>): Bound { if rule.Some? then rule.value.maxPlayers else Unbounded }
  function CapOf(rule: Option<Rule>): Option<int> { if rule.Some? then rule.value.onlineCap else None }
  function AllowedOf(rule: Option<Rule>): set<int> { if rule.Some? then rule.value.allowedCounts else {} }
  function DisallowedOf(rule: Option<Rule>): set<int> { if rule.Some? then rule.value.disallowedCounts else {} }
  function RangeAllowedOf(rule: Option<Rule>): bool { rule.Some? && rule.value.rangeAllowed }

  /**
   * When `n` players may play under the rule: the count is not disallowed; it is
   * explicitly allowed, or else it lies within the bounds, which with a non-empty
   * allowed list only counts when ranges are allowed too; and it is within a nonzero
   * online cap (a cap of 0 means none).
   */
  predicate CountEligible(rule: Option<Rule>, n: int)
  {
    var allowed := AllowedOf(rule);
    && n !in DisallowedOf(rule)
    && (n in allowed || ((allowed == {} || RangeAllowedOf(rule)) && MinOf(rule) <= n && WithinBound(n, MaxOf(rule))))
    && !(CapOf(rule).Some? && CapOf(rule).value != 0 && n > CapOf(rule).value)
  }

  /** The count checks, in the order and with the flags `computeAndRender` in app.js uses. */
  method CheckCount(rule: Option<Rule>, playerCount: int) returns (reasons: seq<Reason>)
    ensures reasons == [] <==> CountEligible(rule, playerCount)
    ensures playerCount in DisallowedOf(rule) ==> reasons != [] && reasons[0] == CountNotAllowed(playerCount)
  {
    var minPlayers := MinOf(rule);
    var maxPlayers := MaxOf(rule);
    var onlineCap := CapOf(rule);
    var allowedCounts := AllowedOf(rule);
    var disallowedCounts := DisallowedOf(rule);
    var rangeAllowed := RangeAllowedOf(rule);
    reasons := [];
    var countAllowed := true;
    if playerCount in disallowedCounts {
      reasons := reasons + [CountNotAllowed(playerCount)];
      countAllowed := false;
    }
    if countAllowed && |allowedCounts| > 0 {
      var allowed := playerCount in allowedCounts;
      if !allowed && rangeAllowed {
        allowed := playerCount >= minPlayers && WithinBound(playerCount, maxPlayers);
      }
      if !allowed {
        reasons := reasons + [RulesDisallow(playerCount)];
        countAllowed := false;
      }
    }
    var explicitlyAllowed := |allowedCounts| > 0 && playerCount in allowedCounts;
    if countAllowed && !explicitlyAllowed {
      if playerCount < minPlayers {
        reasons := reasons + [NeedsAtLeast(minPlayers)];
      }
      if maxPlayers.AtMost? && playerCount > maxPlayers.limit {
        reasons := reasons + [AboveMax(maxPlayers.limit)];
      }
    }
    if countAllowed && onlineCap.Some? && onlineCap.value != 0 && playerCount > onlineCap.value {
      reasons := reasons + [OverOnlineCap(onlineCap.value)];
    }
  }

  // ---------------------------------------------------------------------------
  // Scores and vetoes.

  /** A stored score, or the default for a player without one. */
  function EffectiveScore(pref: Option<PrefEntry>, player: string): int
  {
    if pref.Some? && player in pref.value.scores then pref.value.scores[player] else MissingScoreDefault
  }

  /** The position of the first player whose score is 0. */
  function FirstVeto(pref: Option<PrefEntry>, players: seq<string>): (r: Option<nat>)
    ensures r.Some? ==> r.value < |players| && EffectiveScore(pref, players[r.value]) == 0
    ensures r.Some? ==> forall i :: 0 <= i < r.value ==> EffectiveScore(pref, players[i]) != 0
    ensures r.None? ==> forall i :: 0 <= i < |players| ==> EffectiveScore(pref, players[i]) != 0
  {
    if players == [] then None
    else if EffectiveScore(pref, players[0]) == 0 then Some(0)
    else
      match FirstVeto(pref, players[1..])
      case None => None
      case Some(i) => Some(i + 1)
  }

  /** The sum of the players' effective scores. */
  function ScoreSum(pref: Option<PrefEntry>, players: seq<string>): int
  {
    if players == [] then 0 else ScoreSum(pref, players[..|players| - 1]) + EffectiveScore(pref, players[|players| - 1])
  }

  /** The total the loop reaches: every score, or those before the first veto. */
  function Total(pref: Option<PrefEntry>, players: seq<string>): int
  {
    match FirstVeto(pref, players)
    case None => ScoreSum(pref, players)
    case Some(i) => ScoreSum(pref, players[..i])
  }

  /** A veto that counts: `if (vetoedBy)` ignores a player whose name is empty. */
  predicate Vetoes(pref: Option<PrefEntry>, players: seq<string>)
  {
    FirstVeto(pref, players).Some? && players[FirstVeto(pref, players).value] != ""
  }

  /** The scoring loop, which stops at the first veto. */
  method ScorePlayers(pref: Option<PrefEntry>, selectedPlayers: seq<string>) returns (totalScore: int, vetoedBy: Option<string>)
    ensures totalScore == Total(pref, selectedPlayers)
    ensures vetoedBy.Some? <==> FirstVeto(pref, selectedPlayers).Some?
    ensures vetoedBy.Some? ==> vetoedBy.value == selectedPlayers[FirstVeto(pref, selectedPlayers).value]
  {
    totalScore := 0;
    vetoedBy := None;
    var i := 0;
    while i < |selectedPlayers|
      invariant i <= |selectedPlayers|
      invariant forall j :: 0 <= j < i ==> EffectiveScore(pref, selectedPlayers[j]) != 0
      invariant totalScore == ScoreSum(pref, selectedPlayers[..i])
    {
      var player := selectedPlayers[i];
      var score := EffectiveScore(pref, player);
      if score == 0 {
        vetoedBy := Some(player);
        break;
      }
      assert selectedPlayers[..i + 1][..i] == selectedPlayers[..i];
      totalScore := totalScore + score;
      i := i + 1;
    }
    if vetoedBy.None? {
      TakeAll(selectedPlayers, i);
    }
  }

  // ---------------------------------------------------------------------------
  // Candidates.

  /** One point when the player count lies in the rule's ideal range. */
  function Bonus(rule: Option<Rule>, n: int): int
  {
    if rule.Some? && rule.value.idealMin.Some? && rule.value.idealMax.Some?
      && n >= rule.value.idealMin.value && n <= rule.value.idealMax.value
    then 1 else 0
  }

  function IdealRange(rule: Option<Rule>): Option<(int, int)>
  {
    if rule.Some? && rule.value.idealMin.Some? && rule.value.idealMax.Some?
    then Some((rule.value.idealMin.value, rule.value.idealMax.value)) else None
  }

  /** Whether the game under `key` is recommended for the selection, and how. */
  function Candidate(prefs: Preferences, rules: Option<RuleMap>, selected: seq<string>, key: string): Option<Recommendation>
  {
    var pref := PrefOf(prefs, key);
    var rule := RuleOf(rules, key);
    var n := |selected|;
    if key == ClubsLeagueKey && n < 5 then None
    else if !CountEligible(rule, n) || Vetoes(pref, selected) then None
    else Some(Recommendation(DisplayName(rule, pref, key), Total(pref, selected), Bonus(rule, n), IdealRange(rule)))
  }

  /** The recommendations of `keys`, in key order. */
  function Candidates(prefs: Preferences, rules: Option<RuleMap>, selected: seq<string>, keys: seq<string>): seq<Recommendation>
  {
    if keys == [] then []
    else
      var init := Candidates(prefs, rules, selected, keys[..|keys| - 1]);
      match Candidate(prefs, rules, selected, keys[|keys| - 1])
      case None => init
      case Some(r) => init + [r]
  }

  /**
   * A game is never recommended when the player count is disallowed, or when it is the
   * club league with fewer than five.
   */
  lemma CandidateExcluded(prefs: Preferences, rules: Option<RuleMap>, selected: seq<string>, key: string)
    ensures |selected| in DisallowedOf(RuleOf(rules, key)) ==> Candidate(prefs, rules, selected, key).None?
    ensures key == ClubsLeagueKey && |selected| < 5 ==> Candidate(prefs, rules, selected, key).None?
  {
  }

  /**
   * A game is never recommended when a selected player vetoes it (score 0). The names
   * must be non-empty because `if (vetoedBy)` ignores an empty one; every roster name is.
   */
  lemma CandidateVetoed(prefs: Preferences, rules: Option<RuleMap>, selected: seq<string>, key: string)
    requires forall i :: 0 <= i < |selected| ==> selected[i] != ""
    ensures (exists i :: 0 <= i < |selected| && EffectiveScore(PrefOf(prefs, key), selected[i]) == 0) ==>
      Candidate(prefs, rules, selected, key).None?
  {
  }

  /** A recommended game is one every selected player scored above 0, with its total. */
  lemma CandidateRecommended(prefs: Preferences, rules: Option<RuleMap>, selected: seq<string>, key: string)
    requires Candidate(prefs, rules, selected, key).Some?
    requires forall i :: 0 <= i < |selected| ==> selected[i] != ""
    ensures var r := Candidate(prefs, rules, selected, key).value;
      && (forall i :: 0 <= i < |selected| ==> EffectiveScore(PrefOf(prefs, key), selected[i]) != 0)
      && r.totalScore == ScoreSum(PrefOf(prefs, key), selected)
      && CountEligible(RuleOf(rules, key), |selected|)
      && (r.bonus == 1 || r.bonus == 0)
  {
  }

  lemma {:induction false} CandidatesMembers(prefs: Preferences, rules: Option<RuleMap>, selected: seq<string>, keys: seq<string>)
    ensures forall r :: r in Candidates(prefs, rules, selected, keys) <==>
      exists i :: 0 <= i < |keys| && Candidate(prefs, rules, selected, keys[i]) == Some(r)
  {
    if keys != [] {
      var init := keys[..|keys| - 1];
      CandidatesMembers(prefs, rules, selected, init);
      assert forall i :: 0 <= i < |init| ==> init[i] == keys[i];
    }
  }

  // ---------------------------------------------------------------------------
  // Ranking.

  /**
   * The sort comparator's strict order: higher total plus bonus first, then higher
   * total (the average has the same order, every game sharing the player count),
   * then name.
   */
  predicate Before(a: Recommendation, b: Recommendation)
  {
    || a.totalScore + a.bonus > b.totalScore + b.bonus
    || (a.totalScore + a.bonus == b.totalScore + b.bonus &&
         (a.totalScore > b.totalScore || (a.totalScore == b.totalScore && StrLess(a.name, b.name))))
  }

  lemma BeforeTransitive(a: Recommendation, b: Recommendation, c: Recommendation)
    requires Before(a, b) && Before(b, c)
    ensures Before(a, c)
  {
    if a.totalScore + a.bonus == c.totalScore + c.bonus && a.totalScore == c.totalScore {
      StrLessTransitive(a.name, b.name, c.name);
    }
  }

  /** Two games the comparator cannot order agree on every sort key. */
  lemma BeforeTotal(a: Recommendation, b: Recommendation)
    requires !Before(a, b) && !Before(b, a)
    ensures a.totalScore == b.totalScore && a.bonus == b.bonus && a.name == b.name
  {
    if a.name != b.name {
      StrLessTotal(a.name, b.name);
    }
  }

  predicate Ranked(s: seq<Recommendation>)
  {
    forall i, j :: 0 <= i < j < |s| ==> !Before(s[j], s[i])
  }

  /** Inserts `x` before the first element it is not ranked after (keeping the sort stable). */
  function InsertRanked(x: Recommendation, s: seq<Recommendation>): seq<Recommendation>
  {
    if s == [] || !Before(s[0], x) then [x] + s
    else [s[0]] + InsertRanked(x, s[1..])
  }

  /** Inserting into a ranked list keeps it ranked and adds exactly `x`. */
  lemma {:induction false} InsertRankedSpec(x: Recommendation, s: seq<Recommendation>)
    requires Ranked(s)
    ensures Ranked(InsertRanked(x, s)) && multiset(InsertRanked(x, s)) == multiset(s) + multiset{x}
  {
    if s == [] || !Before(s[0], x) {
      InsertAhead(x, s);
    } else {
      RankedSuffix(s, 1);
      InsertRankedSpec(x, s[1..]);
      InsertBehind(x, s, InsertRanked(x, s[1..]));
    }
  }

  lemma BeforeAsymmetric(a: Recommendation, b: Recommendation)
    requires Before(a, b)
    ensures !Before(b, a)
  {
    if Before(b, a) && a.totalScore + a.bonus == b.totalScore + b.bonus && a.totalScore == b.totalScore {
      StrLessTransitive(a.name, b.name, a.name);
      StrLessIrreflexive(a.name);
    }
  }

  /** The head of `s` stays in front when `x`, ranked after it, goes into the tail. */
  lemma InsertBehind(x: Recommendation, s: seq<Recommendation>, t: seq<Recommendation>)
    requires Ranked(s) && s != [] && Before(s[0], x)
    requires Ranked(t) && multiset(t) == multiset(s[1..]) + multiset{x}
    ensures Ranked([s[0]] + t) && multiset([s[0]] + t) == multiset(s) + multiset{x}
  {
    forall j | 0 <= j < |t| ensures !Before(t[j], s[0]) {
      assert t[j] in multiset(t);
      if t[j] == x {
        BeforeAsymmetric(s[0], x);
      } else {
        assert t[j] in multiset(s[1..]);
        var k :| 0 <= k < |s[1..]| && s[1..][k] == t[j];
        assert s[k + 1] == t[j];
      }
    }
    assert s == [s[0]] + s[1..];
  }

  lemma InsertAhead(x: Recommendation, s: seq<Recommendation>)
    requires Ranked(s) && (s == [] || !Before(s[0], x))
    ensures Ranked([x] + s)
  {
    forall j | 0 < j < |s| ensures !Before(s[j], x) {
      if Before(s[j], x) {
        if Before(s[0], s[j]) { BeforeTransitive(s[0], s[j], x); }
        else {
          BeforeTotal(s[0], s[j]);
        }
      }
    }
  }

  /** `recommendations.sort(...)`: a stable insertion sort by the comparator. */
  function SortByRank(s: seq<Recommendation>): seq<Recommendation>
  {
    if s == [] then [] else InsertRanked(s[0], SortByRank(s[1..]))
  }

  /** The sort ranks the list and is a permutation of it. */
  lemma {:induction false} SortByRankSpec(s: seq<Recommendation>)
    ensures Ranked(SortByRank(s)) && multiset(SortByRank(s)) == multiset(s)
  {
    if s != [] {
      SortByRankSpec(s[1..]);
      InsertRankedSpec(s[0], SortByRank(s[1..]));
      assert s == [s[0]] + s[1..];
    }
  }

  lemma RankedSuffix(s: seq<Recommendation>, m: nat)
    requires Ranked(s) && m <= |s|
    ensures Ranked(s[m..])
  {
    forall i, j | 0 <= i < j < |s| - m ensures !Before(s[m..][j], s[m..][i]) {
      assert s[m..][i] == s[m + i] && s[m..][j] == s[m + j];
    }
  }

  /** The element at `k` once `x` is placed at `m` in `s`. */
  function Placed(x: Recommendation, s: seq<Recommendation>, m: nat, k: nat): Recommendation
    requires m <= |s| && k <= |s|
  {
    if k < m then s[k] else if k == m then x else s[k - 1]
  }

  /** `InsertRanked` places `x` after the elements ranked before it, element by element. */
  lemma {:induction false} InsertRankedAt(x: Recommendation, s: seq<Recommendation>, m: nat)
    requires m <= |s|
    requires forall k :: 0 <= k < m ==> Before(s[k], x)
    requires m == |s| || !Before(s[m], x)
    ensures |InsertRanked(x, s)| == |s| + 1
    ensures forall k :: 0 <= k <= |s| ==> InsertRanked(x, s)[k] == Placed(x, s, m, k)
  {
    if m > 0 {
      InsertRankedAt(x, s[1..], m - 1);
    }
  }

  lemma SortByRankStep(s: seq<Recommendation>, i: nat)
    requires 0 < i <= |s|
    ensures SortByRank(s[i - 1..]) == InsertRanked(s[i - 1], SortByRank(s[i..]))
  {
    assert s[i - 1..][1..] == s[i..];
  }

  /** Moves `a[i - 1]` rightwards into the suffix `a[i..]` past every element ranked before it. */
  method InsertAt(a: array<Recommendation>, i: nat)
    requires 0 < i <= a.Length
    modifies a
    ensures a[..i - 1] == old(a[..i - 1])
    ensures a[i - 1..] == InsertRanked(old(a[i - 1]), old(a[i..]))
  {
    var x := a[i - 1];
    ghost var sorted := a[i..];
    var j := ShiftPast(a, i, x);
    a[j - 1] := x;
    InsertRankedAt(x, sorted, j - i);
    forall k | 0 <= k < a.Length - i + 1 ensures a[i - 1..][k] == InsertRanked(x, sorted)[k] {
      assert InsertRanked(x, sorted)[k] == Placed(x, sorted, j - i, k);
    }
  }

  /** Shifts left by one the run of `a[i..]` ranked before `x`, leaving a gap at `j - 1`. */
  method ShiftPast(a: array<Recommendation>, i: nat, x: Recommendation) returns (j: nat)
    requires 0 < i <= a.Length
    modifies a
    ensures i <= j <= a.Length
    ensures forall k :: 0 <= k < i - 1 ==> a[k] == old(a[k])
    ensures forall k :: i - 1 <= k < j - 1 ==> a[k] == old(a[k + 1])
    ensures forall k :: j <= k < a.Length ==> a[k] == old(a[k])
    ensures forall k :: i <= k < j ==> Before(old(a[k]), x)
    ensures j == a.Length || !Before(a[j], x)
  {
    j := i;
    while j < a.Length && Before(a[j], x)
      invariant i <= j <= a.Length
      invariant forall k :: 0 <= k < i - 1 ==> a[k] == old(a[k])
      invariant forall k :: i - 1 <= k < j - 1 ==> a[k] == old(a[k + 1])
      invariant forall k :: j <= k < a.Length ==> a[k] == old(a[k])
      invariant forall k :: i <= k < j ==> Before(old(a[k]), x)
    {
      a[j - 1] := a[j];
      j := j + 1;
    }
  }

  /** `recommendations.sort(...)` in place: each element, from the back, is moved into the ranked suffix. */
  method RankInPlace(a: array<Recommendation>)
    modifies a
    ensures a[..] == SortByRank(old(a[..]))
  {
    ghost var s := a[..];
    var i := a.Length;
    assert a[i..] == [];
    while i > 0
      invariant 0 <= i <= a.Length
      invariant a[..i] == s[..i]
      invariant a[i..] == SortByRank(s[i..])
    {
      assert a[i - 1] == s[i - 1];
      InsertAt(a, i);
      assert s[..i][..i - 1] == s[..i - 1];
      SortByRankStep(s, i);
      i := i - 1;
    }
    assert s[0..] == s;
  }

  // ---------------------------------------------------------------------------
  // The five-player promotion.

  predicate IsPriority(r: Recommendation)
  {
    NormalizeName(r.name) in FivePlayerPriority
  }

  /** `recommendations.find(...)`: the first priority game. */
  function FindPriority(s: seq<Recommendation>): (i: Option<nat>)
    ensures i.Some? ==> i.value < |s| && IsPriority(s[i.value])
    ensures i.Some? ==> forall j :: 0 <= j < i.value ==> !IsPriority(s[j])
    ensures i.None? ==> forall j :: 0 <= j < |s| ==> !IsPriority(s[j])
  {
    if s == [] then None
    else if IsPriority(s[0]) then Some(0)
    else
      match FindPriority(s[1..])
      case None => None
      case Some(i) => Some(i + 1)
  }

  /** Moves the first priority game to the front; everything else keeps its order. */
  function Promote(s: seq<Recommendation>): seq<Recommendation>
  {
    match FindPriority(s)
    case None => s
    case Some(i) => if i == 0 then s else [s[i]] + (s[..i] + s[i + 1..])
  }

  /**
   * The promotion is a permutation that puts the first priority game at index 0 and
   * leaves the other games in their relative order; without a priority game it
   * changes nothing.
   */
  lemma PromoteSpec(s: seq<Recommendation>)
    ensures multiset(Promote(s)) == multiset(s)
    ensures FindPriority(s).None? ==> Promote(s) == s
    ensures FindPriority(s).Some? ==>
      var i := FindPriority(s).value;
      Promote(s)[0] == s[i] && Promote(s)[1..] == s[..i] + s[i + 1..]
  {
    match FindPriority(s)
    case None =>
    case Some(i) =>
      assert s == s[..i] + [s[i]] + s[i + 1..];
      if i == 0 {
        assert s[1..] == s[..0] + s[1..];
      }
  }

  /** The rest of a ranked list stays ranked once one element is taken out. */
  lemma RankedWithout(s: seq<Recommendation>, i: nat)
    requires Ranked(s) && i < |s|
    ensures Ranked(s[..i] + s[i + 1..])
  {
    var t := s[..i] + s[i + 1..];
    forall a, b | 0 <= a < b < |t| ensures !Before(t[b], t[a]) {
      var a' := if a < i then a else a + 1;
      var b' := if b < i then b else b + 1;
      assert t[a] == s[a'] && t[b] == s[b'];
    }
  }

  // ---------------------------------------------------------------------------
  // The whole computation.

  function Finish(n: int, ranked: seq<Recommendation>): seq<Recommendation>
  {
    if n == 5 then Promote(ranked) else ranked
  }

  /** What the engine returns when it enumerates the game keys in the order `keys`. */
  function RecommendOver(prefs: Option<Preferences>, rules: Option<RuleMap>, selected: seq<string>, keys: seq<string>): seq<Recommendation>
  {
    if prefs.None? || |selected| < 3 then []
    else Finish(|selected|, SortByRank(Candidates(prefs.value, rules, selected, keys)))
  }

  /** Every game key the engine looks at. */
  function GameKeys(prefs: Preferences, rules: Option<RuleMap>): set<string>
  {
    prefs.Keys + (if rules.Some? then rules.value.Keys else {})
  }

  /** The surviving games in ranked order, before any promotion. */
  function Ranking(prefs: Preferences, rules: Option<RuleMap>, selected: seq<string>, keys: seq<string>): seq<Recommendation>
  {
    SortByRank(Candidates(prefs, rules, selected, keys))
  }

  lemma SameMembers(a: seq<Recommendation>, b: seq<Recommendation>)
    requires multiset(a) == multiset(b)
    ensures forall r :: r in a <==> r in b
  {
    forall r ensures r in a <==> r in b {
      assert r in a <==> r in multiset(a);
      assert r in b <==> r in multiset(b);
    }
  }

  /** The result holds exactly the games some key recommends. */
  lemma RecommendMembers(prefs: Option<Preferences>, rules: Option<RuleMap>, selected: seq<string>, keys: seq<string>)
    requires prefs.Some? && |selected| >= 3
    ensures forall r :: r in RecommendOver(prefs, rules, selected, keys) <==>
      exists i :: 0 <= i < |keys| && Candidate(prefs.value, rules, selected, keys[i]) == Some(r)
  {
    var cs := Candidates(prefs.value, rules, selected, keys);
    CandidatesMembers(prefs.value, rules, selected, keys);
    SortByRankSpec(cs);
    PromoteSpec(Ranking(prefs.value, rules, selected, keys));
    SameMembers(RecommendOver(prefs, rules, selected, keys), cs);
  }

  /** With other than five players the result is ranked by the comparator. */
  lemma RecommendRanked(prefs: Option<Preferences>, rules: Option<RuleMap>, selected: seq<string>, keys: seq<string>)
    requires |selected| != 5
    ensures Ranked(RecommendOver(prefs, rules, selected, keys))
  {
    if prefs.Some? && |selected| >= 3 {
      SortByRankSpec(Candidates(prefs.value, rules, selected, keys));
    }
  }

  /**
   * With five players the first priority game of the ranking leads and the other
   * games follow in ranked order; without a priority game the ranking is returned.
   */
  lemma RecommendPromoted(prefs: Option<Preferences>, rules: Option<RuleMap>, selected: seq<string>, keys: seq<string>)
    requires prefs.Some? && |selected| == 5
    ensures var ranked := Ranking(prefs.value, rules, selected, keys);
      FindPriority(ranked).None? ==> RecommendOver(prefs, rules, selected, keys) == ranked
    ensures var ranked := Ranking(prefs.value, rules, selected, keys);
      var result := RecommendOver(prefs, rules, selected, keys);
      FindPriority(ranked).Some? ==>
        |result| == |ranked| && result[0] == ranked[FindPriority(ranked).value] && IsPriority(result[0]) && Ranked(result[1..])
  {
    var ranked := Ranking(prefs.value, rules, selected, keys);
    SortByRankSpec(Candidates(prefs.value, rules, selected, keys));
    PromoteSpec(ranked);
    assert |multiset(Promote(ranked))| == |multiset(ranked)|;
    if FindPriority(ranked).Some? {
      RankedWithout(ranked, FindPriority(ranked).value);
    }
  }

  /** A game that is vetoed, has a disallowed count, or is the club league with fewer than five is absent. */
  lemma ExcludedAbsent(prefs: Option<Preferences>, rules: Option<RuleMap>, selected: seq<string>, keys: seq<string>, key: string)
    requires prefs.Some?
    requires || ((forall i :: 0 <= i < |selected| ==> selected[i] != "") &&
                 exists i :: 0 <= i < |selected| && EffectiveScore(PrefOf(prefs.value, key), selected[i]) == 0)
             || |selected| in DisallowedOf(RuleOf(rules, key))
             || (key == ClubsLeagueKey && |selected| < 5)
    ensures forall r :: r in RecommendOver(prefs, rules, selected, keys) ==>
      exists i :: 0 <= i < |keys| && keys[i] != key && Candidate(prefs.value, rules, selected, keys[i]) == Some(r)
  {
    CandidateExcluded(prefs.value, rules, selected, key);
    if forall i :: 0 <= i < |selected| ==> selected[i] != "" {
      CandidateVetoed(prefs.value, rules, selected, key);
    }
    if |selected| >= 3 {
      RecommendMembers(prefs, rules, selected, keys);
    }
  }

  /** One game key: its checks, its scoring, and its entry if it survives. */
  method ConsiderGame(prefs: Preferences, rules: Option<RuleMap>, selectedPlayers: seq<string>, gameKey: string)
    returns (rec: Option<Recommendation>)
    ensures rec == Candidate(prefs, rules, selectedPlayers, gameKey)
  {
    var pref := PrefOf(prefs, gameKey);
    var rule := RuleOf(rules, gameKey);
    var playerCount := |selectedPlayers|;
    var name := DisplayName(rule, pref, gameKey);
    if gameKey == ClubsLeagueKey && playerCount < 5 {
      return None;
    }
    var reasons := CheckCount(rule, playerCount);
    var totalScore, vetoedBy := ScorePlayers(pref, selectedPlayers);
    if vetoedBy.Some? && vetoedBy.value != "" {
      reasons := [Vetoed(vetoedBy.value)] + reasons;
    }
    if |reasons| > 0 {
      return None;
    }
    var bonus := Bonus(rule, playerCount);
    return Some(Recommendation(name, totalScore, bonus, IdealRange(rule)));
  }

  /** `computeAndRender` without its rendering: the ordered recommendations. */
  method Recommend(prefs: Option<Preferences>, rules: Option<RuleMap>, selectedPlayers: seq<string>)
    returns (result: seq<Recommendation>)
    ensures prefs.None? || |selectedPlayers| < 3 ==> result == []
    ensures prefs.Some? && |selectedPlayers| >= 3 ==> exists keys ::
      && StrictlySorted(keys) && (forall k :: k in keys <==> k in GameKeys(prefs.value, rules))
      && result == RecommendOver(prefs, rules, selectedPlayers, keys)
  {
    if prefs.None? {
      return [];
    }
    var playerCount := |selectedPlayers|;
    if playerCount < 3 {
      return [];
    }
    var gameKeys := PrefParser.SortNames(GameKeys(prefs.value, rules));
    var recommendations: seq<Recommendation> := [];
    var i := 0;
    while i < |gameKeys|
      invariant i <= |gameKeys|
      invariant recommendations == Candidates(prefs.value, rules, selectedPlayers, gameKeys[..i])
    {
      assert gameKeys[..i + 1][..i] == gameKeys[..i];
      var rec := ConsiderGame(prefs.value, rules, selectedPlayers, gameKeys[i]);
      if rec.Some? {
        recommendations := recommendations + [rec.value];
      }
      i := i + 1;
    }
    TakeAll(gameKeys, i);
    var sortable := new Recommendation[|recommendations|](k requires 0 <= k < |recommendations| => recommendations[k]);
    assert sortable[..] == recommendations;
    RankInPlace(sortable);
    var ranked := sortable[..];
    result := if playerCount == 5 then Promote(ranked) else ranked;
    assert result == RecommendOver(prefs, rules, selectedPlayers, gameKeys);
  }
}
