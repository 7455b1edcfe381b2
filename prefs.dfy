/**
 * Preference entries: parsing one score cell, recording one (game, player, score)
 * triple, the admin overrides layered over the base preferences, and the entry list
 * that saving the overrides writes.
 */
module Prefs {
  import opened Text
  import opened Table

  /** One game's record: its display name and the scores stored per player. */
  datatype PrefEntry = PrefEntry(name: string, scores: map<string, int>)

  /** The preference map, keyed by game key (the normalised game name). */
  type Preferences = map<string, PrefEntry>

  /** A blank cell: absent, or text that is empty once trimmed. */
  predicate IsBlank(c: Cell)
  {
    c.Missing? || Trim(c.text) == ""
  }

  function NotNumberWarning(game: string, player: string): string
  {
    "Score for " + player + " on " + game + " is not a number."
  }

  function OutOfRangeWarning(game: string, player: string): string
  {
    "Score for " + player + " on " + game + " is outside 0-3."
  }

  /**
   * `parseScore`: a blank cell gives no score and no warning; a non-numeric cell or a
   * number outside 0..3 gives no score and exactly one warning; otherwise the number.
   */
  function ParseScore(value: Cell, warnings: seq<string>, game: string, player: string): (r: (Option<int>, seq<string>))
    ensures r.0.Some? ==> 0 <= r.0.value <= 3
    ensures IsBlank(value) ==> r.0.None? && r.1 == warnings
    ensures !IsBlank(value) ==>
      (r.0.Some? <==> value.number.Finite? && 0 <= value.number.value <= 3)
    ensures !IsBlank(value) && r.0.Some? ==> r.0.value == value.number.value && r.1 == warnings
    ensures !IsBlank(value) && r.0.None? ==> |r.1| == |warnings| + 1 && r.1[..|warnings|] == warnings
  {
    if IsBlank(value) then (None, warnings)
    else if value.number.NotFinite? then (None, warnings + [NotNumberWarning(game, player)])
    else if value.number.value < 0 || value.number.value > 3 then (None, warnings + [OutOfRangeWarning(game, player)])
    else (Some(value.number.value), warnings)
  }

  /**
   * `addPreference` on a value: the entry keyed by the normalised game name is created
   * if absent, renamed to the trimmed game name, and given the player's score when
   * there is one; every other entry is left alone, and an all-blank name changes nothing.
   */
  function AddPref(m: Preferences, gameName: string, player: string, score: Option<int>): (r: Preferences)
    ensures NormalizeName(gameName) == "" ==> r == m
    ensures NormalizeName(gameName) != "" ==> r.Keys == m.Keys + {NormalizeName(gameName)}
    ensures forall k :: k in m && k != NormalizeName(gameName) ==> r[k] == m[k]
    ensures NormalizeName(gameName) != "" ==>
      var key := NormalizeName(gameName);
      var before := if key in m then m[key].scores else map[];
      && r[key].name == Trim(gameName)
      && r[key].scores == (if score.Some? then before[player := score.value] else before)
  {
    var key := NormalizeName(gameName);
    if key == "" then m
    else
      NormalizeNameEmpty(gameName);
      var entry := if key in m then m[key] else PrefEntry(gameName, map[]);
      var named := if Trim(gameName) != "" then entry.(name := Trim(gameName)) else entry;
      var scored := if score.Some? then named.(scores := named.scores[player := score.value]) else named;
      m[key := scored]
  }

  /** Every score a parser stores lies in 0..3. */
  ghost predicate ScoresInRange(m: Preferences)
  {
    forall k, p :: k in m && p in m[k].scores ==> 0 <= m[k].scores[p] <= 3
  }

  lemma AddPrefKeepsRange(m: Preferences, gameName: string, player: string, score: Option<int>)
    requires ScoresInRange(m)
    requires score.Some? ==> 0 <= score.value <= 3
    ensures ScoresInRange(AddPref(m, gameName, player, score))
  {
  }

  // ---------------------------------------------------------------------------
  // Overrides.

  /**
   * One persisted override: the game key (empty when the stored entry is null or its
   * key is falsy), the display name (empty when absent), and the stored scores in
   * object order, each with what `Number(value)` gives.
   */
  datatype OverrideEntry = OverrideEntry(gameKey: string, name: string, scores: seq<(string, Numeric)>)

  /** The stored document: `None` when it is absent or has no `entries` array. */
  type OverrideDoc = Option<seq<OverrideEntry>>

  /** Sets each finite score in order; later pairs for the same player win. */
  function SetScores(scores: map<string, int>, pairs: seq<(string, Numeric)>): map<string, int>
  {
    if pairs == [] then scores
    else
      var prev := SetScores(scores, pairs[..|pairs| - 1]);
      var (player, value) := pairs[|pairs| - 1];
      if value.Finite? then prev[player := value.value] else prev
  }

  /** The effect of one override entry. */
  function ApplyEntry(m: Preferences, e: OverrideEntry): Preferences
  {
    if e.gameKey == "" then m
    else
      var target := if e.gameKey in m then m[e.gameKey]
                    else PrefEntry(if e.name != "" then e.name else e.gameKey, map[]);
      var named := if e.name != "" then target.(name := e.name) else target;
      m[e.gameKey := named.(scores := SetScores(named.scores, e.scores))]
  }

  function ApplyEntries(m: Preferences, es: seq<OverrideEntry>): Preferences
  {
    if es == [] then m else ApplyEntry(ApplyEntries(m, es[..|es| - 1]), es[|es| - 1])
  }

  /** `applyOverrides` on a value. */
  function ApplyOverridesTo(m: Preferences, doc: OverrideDoc): Preferences
  {
    match doc
    case None => m
    case Some(es) => ApplyEntries(m, es)
  }

  /** `n` extends `m`: no game and no stored score of `m` is missing from `n`. */
  ghost predicate Extends(m: Preferences, n: Preferences)
  {
    && m.Keys <= n.Keys
    && forall k :: k in m ==> m[k].scores.Keys <= n[k].scores.Keys
  }

  lemma {:induction false} SetScoresExtends(scores: map<string, int>, pairs: seq<(string, Numeric)>)
    ensures scores.Keys <= SetScores(scores, pairs).Keys
  {
    if pairs != [] { SetScoresExtends(scores, pairs[..|pairs| - 1]); }
  }

  /** Overrides never delete a game or a stored score. */
  lemma {:induction false} OverridesNeverRemove(m: Preferences, doc: OverrideDoc)
    ensures Extends(m, ApplyOverridesTo(m, doc))
  {
    if doc.Some? { EntriesNeverRemove(m, doc.value); }
  }

  lemma {:induction false} EntriesNeverRemove(m: Preferences, es: seq<OverrideEntry>)
    ensures Extends(m, ApplyEntries(m, es))
  {
    if es != [] {
      var prev := ApplyEntries(m, es[..|es| - 1]);
      EntriesNeverRemove(m, es[..|es| - 1]);
      var e := es[|es| - 1];
      if e.gameKey != "" {
        var target := if e.gameKey in prev then prev[e.gameKey]
                      else PrefEntry(if e.name != "" then e.name else e.gameKey, map[]);
        SetScoresExtends(target.scores, e.scores);
      }
    }
  }

  /** Whether some override entry for game `k` names player `p`. */
  predicate Names(es: seq<OverrideEntry>, k: string, p: string)
  {
    exists i, j :: 0 <= i < |es| && es[i].gameKey == k && 0 <= j < |es[i].scores| && es[i].scores[j].0 == p
  }

  lemma {:induction false} SetScoresOthers(scores: map<string, int>, pairs: seq<(string, Numeric)>, p: string)
    requires forall j :: 0 <= j < |pairs| ==> pairs[j].0 != p
    ensures p in scores ==> p in SetScores(scores, pairs) && SetScores(scores, pairs)[p] == scores[p]
    ensures p !in scores ==> p !in SetScores(scores, pairs)
  {
    if pairs != [] { SetScoresOthers(scores, pairs[..|pairs| - 1], p); }
  }

  /** A stored score that no override entry for its game names is left as it was. */
  lemma {:induction false} OverridesKeepUnnamed(m: Preferences, es: seq<OverrideEntry>, k: string, p: string)
    requires k in m && p in m[k].scores
    requires !Names(es, k, p)
    ensures k in ApplyEntries(m, es) && p in ApplyEntries(m, es)[k].scores
    ensures ApplyEntries(m, es)[k].scores[p] == m[k].scores[p]
  {
    if es != [] {
      var init := es[..|es| - 1];
      assert forall i :: 0 <= i < |init| ==> init[i] == es[i];
      OverridesKeepUnnamed(m, init, k, p);
      var prev := ApplyEntries(m, init);
      var e := es[|es| - 1];
      if e.gameKey == k {
        assert forall j :: 0 <= j < |e.scores| ==> e.scores[j].0 != p by {
          forall j | 0 <= j < |e.scores| ensures e.scores[j].0 != p {
            if e.scores[j].0 == p { assert Names(es, k, p); }
          }
        }
        var named := if e.name != "" then prev[k].(name := e.name) else prev[k];
        SetScoresOthers(named.scores, e.scores, p);
      }
    }
  }

  /** A game that no override entry names keeps its whole record. */
  lemma {:induction false} OverridesKeepUnnamedGame(m: Preferences, es: seq<OverrideEntry>, k: string)
    requires k in m
    requires forall i :: 0 <= i < |es| ==> es[i].gameKey != k
    ensures k in ApplyEntries(m, es) && ApplyEntries(m, es)[k] == m[k]
  {
    if es != [] { OverridesKeepUnnamedGame(m, es[..|es| - 1], k); }
  }

  /** An entry with a non-empty key always leaves a record under that key. */
  lemma {:induction false} OverridesCreateEntry(m: Preferences, es: seq<OverrideEntry>, i: nat)
    requires i < |es| && es[i].gameKey != ""
    ensures es[i].gameKey in ApplyEntries(m, es)
  {
    if i < |es| - 1 {
      OverridesCreateEntry(m, es[..|es| - 1], i);
      EntriesNeverRemove(ApplyEntries(m, es[..|es| - 1]), [es[|es| - 1]]);
      assert ApplyEntries(ApplyEntries(m, es[..|es| - 1]), [es[|es| - 1]]) == ApplyEntries(m, es) by {
        assert [es[|es| - 1]][..0] == [];
      }
    }
  }

  /** The last finite pair naming `p` decides `p`'s score. */
  lemma {:induction false} SetScoresLast(scores: map<string, int>, pairs: seq<(string, Numeric)>, j: nat, p: string, v: int)
    requires j < |pairs| && pairs[j] == (p, Finite(v))
    requires forall j' :: j < j' < |pairs| && pairs[j'].0 == p ==> pairs[j'].1.NotFinite?
    ensures p in SetScores(scores, pairs) && SetScores(scores, pairs)[p] == v
  {
    if j < |pairs| - 1 {
      SetScoresLast(scores, pairs[..|pairs| - 1], j, p, v);
    }
  }

  /**
   * An override's finite score for player `p` is what the map then holds, when no
   * later pair of that entry gives `p` a finite score and no later entry for the same
   * game names `p`.
   */
  lemma {:induction false} OverridesSetScore(m: Preferences, es: seq<OverrideEntry>, i: nat, j: nat, p: string, v: int)
    requires i < |es| && es[i].gameKey != ""
    requires j < |es[i].scores| && es[i].scores[j] == (p, Finite(v))
    requires forall j' :: j < j' < |es[i].scores| && es[i].scores[j'].0 == p ==> es[i].scores[j'].1.NotFinite?
    requires forall i', j' :: i < i' < |es| && es[i'].gameKey == es[i].gameKey && 0 <= j' < |es[i'].scores| ==>
               es[i'].scores[j'].0 != p
    ensures es[i].gameKey in ApplyEntries(m, es)
    ensures p in ApplyEntries(m, es)[es[i].gameKey].scores && ApplyEntries(m, es)[es[i].gameKey].scores[p] == v
  {
    var k := es[i].gameKey;
    var init := es[..|es| - 1];
    var prev := ApplyEntries(m, init);
    var e := es[|es| - 1];
    var target := if e.gameKey in prev then prev[e.gameKey]
                  else PrefEntry(if e.name != "" then e.name else e.gameKey, map[]);
    var named := if e.name != "" then target.(name := e.name) else target;
    if i == |es| - 1 {
      SetScoresLast(named.scores, e.scores, j, p, v);
    } else {
      assert forall i' :: 0 <= i' < |init| ==> init[i'] == es[i'];
      OverridesSetScore(m, init, i, j, p, v);
      if e.gameKey == k {
        assert forall j' :: 0 <= j' < |e.scores| ==> e.scores[j'].0 != p by {
          forall j' | 0 <= j' < |e.scores| ensures e.scores[j'].0 != p {
            assert es[|es| - 1].scores[j'] == e.scores[j'];
          }
        }
        SetScoresOthers(named.scores, e.scores, p);
      }
    }
  }

  /** An override's non-empty name is the name the map then holds, unless a later entry for that game renames it. */
  lemma {:induction false} OverridesSetName(m: Preferences, es: seq<OverrideEntry>, i: nat)
    requires i < |es| && es[i].gameKey != "" && es[i].name != ""
    requires forall i' :: i < i' < |es| && es[i'].gameKey == es[i].gameKey ==> es[i'].name == ""
    ensures es[i].gameKey in ApplyEntries(m, es) && ApplyEntries(m, es)[es[i].gameKey].name == es[i].name
  {
    if i < |es| - 1 {
      var init := es[..|es| - 1];
      assert forall i' :: 0 <= i' < |init| ==> init[i'] == es[i'];
      OverridesSetName(m, init, i);
    }
  }

  // ---------------------------------------------------------------------------
  // The entry list saving writes, and the save-then-reapply round trip.

  /** The scores object saving writes: the roster's stored scores, in roster order. */
  function SavedScores(scores: map<string, int>, players: seq<string>): seq<(string, Numeric)>
  {
    if players == [] then []
    else
      var prev := SavedScores(scores, players[..|players| - 1]);
      var p := players[|players| - 1];
      if p in scores then prev + [(p, Finite(scores[p]))] else prev
  }

  /** `entries` is what saving writes for `m`: one entry per game, each with its name and roster scores. */
  ghost predicate SavedFrom(entries: seq<OverrideEntry>, m: Preferences, players: seq<string>)
  {
    && |entries| == |m|
    && DistinctKeys(entries)
    && (forall i :: 0 <= i < |entries| ==> SavedEntry(entries[i], m, players))
  }

  /** One saved entry: an existing game with its name and its roster scores. */
  ghost predicate SavedEntry(e: OverrideEntry, m: Preferences, players: seq<string>)
  {
    e.gameKey in m && e.name == m[e.gameKey].name && e.scores == SavedScores(m[e.gameKey].scores, players)
  }

  lemma {:induction false} SetSavedScores(s: map<string, int>, t: map<string, int>, players: seq<string>)
    ensures SetScores(s, SavedScores(t, players)) == s + map p | p in t && p in players :: t[p]
  {
    if players != [] {
      var init := players[..|players| - 1];
      var p := players[|players| - 1];
      SetSavedScores(s, t, init);
      var prev := SavedScores(t, init);
      if p in t {
        assert (prev + [(p, Finite(t[p]))])[..|prev|] == prev;
      }
    }
  }

  /** `m` patched with `n`'s records on the keys in `ks`. */
  ghost function Patched(m: Preferences, n: Preferences, ks: set<string>): Preferences
    requires ks <= n.Keys
  {
    map k | k in m.Keys + ks :: if k in ks then n[k] else m[k]
  }

  /**
   * Saving the current preferences and reapplying the saved entries over the base
   * gives the current preferences back, as long as the current map extends the base,
   * every key and name is non-empty, and every stored score belongs to a roster player.
   */
  lemma SaveThenReapply(base: Preferences, m: Preferences, players: seq<string>, entries: seq<OverrideEntry>)
    requires Extends(base, m)
    requires forall k :: k in m ==> k != "" && m[k].name != "" && m[k].scores.Keys <= set p | p in players
    requires SavedFrom(entries, m, players)
    ensures ApplyOverridesTo(base, Some(entries)) == m
  {
    ReapplyPrefix(base, m, players, entries);
    DistinctKeysCard(entries);
    SubsetSameCard(KeysOf(entries), m.Keys);
    PatchedAll(base, m);
  }

  lemma SubsetSameCard(a: set<string>, b: set<string>)
    requires a <= b && |a| == |b|
    ensures a == b
  {
    assert b == a + (b - a);
    assert |b - a| == 0;
  }

  lemma PatchedAll(base: Preferences, m: Preferences)
    requires base.Keys <= m.Keys
    ensures Patched(base, m, m.Keys) == m
  {
  }

  /** The game keys of a list of entries. */
  ghost function KeysOf(es: seq<OverrideEntry>): set<string>
  {
    if es == [] then {} else KeysOf(es[..|es| - 1]) + {es[|es| - 1].gameKey}
  }

  ghost predicate DistinctKeys(es: seq<OverrideEntry>)
  {
    forall i, j :: 0 <= i < j < |es| ==> es[i].gameKey != es[j].gameKey
  }

  lemma {:induction false} KeysOfMembers(es: seq<OverrideEntry>, k: string)
    ensures k in KeysOf(es) <==> exists i :: 0 <= i < |es| && es[i].gameKey == k
  {
    if es != [] {
      KeysOfMembers(es[..|es| - 1], k);
      if k in KeysOf(es[..|es| - 1]) {
        var i :| 0 <= i < |es| - 1 && es[..|es| - 1][i].gameKey == k;
        assert es[i].gameKey == k;
      }
    }
  }

  lemma {:induction false} DistinctKeysCard(es: seq<OverrideEntry>)
    requires DistinctKeys(es)
    ensures |KeysOf(es)| == |es|
  {
    if es != [] {
      var init := es[..|es| - 1];
      DistinctKeysCard(init);
      KeysOfMembers(init, es[|es| - 1].gameKey);
    }
  }

  /** Reapplying saved entries patches the base with the current records of their keys. */
  lemma {:induction false} ReapplyPrefix(base: Preferences, m: Preferences, players: seq<string>, es: seq<OverrideEntry>)
    requires Extends(base, m)
    requires forall k :: k in m ==> k != "" && m[k].name != "" && m[k].scores.Keys <= set p | p in players
    requires DistinctKeys(es)
    requires forall i :: 0 <= i < |es| ==> SavedEntry(es[i], m, players)
    ensures KeysOf(es) <= m.Keys
    ensures ApplyEntries(base, es) == Patched(base, m, KeysOf(es))
  {
    if es == [] {
      assert Patched(base, m, {}) == base;
    } else {
      var init := es[..|es| - 1];
      var e := es[|es| - 1];
      ReapplyPrefix(base, m, players, init);
      KeysOfMembers(init, e.gameKey);
      ReapplyStep(base, m, players, KeysOf(init), e);
    }
  }

  lemma ReapplyStep(base: Preferences, m: Preferences, players: seq<string>, ks: set<string>, e: OverrideEntry)
    requires Extends(base, m)
    requires forall k :: k in m ==> k != "" && m[k].name != "" && m[k].scores.Keys <= set p | p in players
    requires ks <= m.Keys && e.gameKey !in ks && SavedEntry(e, m, players)
    ensures ApplyEntry(Patched(base, m, ks), e) == Patched(base, m, ks + {e.gameKey})
  {
    var k := e.gameKey;
    var prev := Patched(base, m, ks);
    var target := if k in prev then prev[k] else PrefEntry(if e.name != "" then e.name else k, map[]);
    assert target.scores.Keys <= m[k].scores.Keys;
    SetSavedScores(target.scores, m[k].scores, players);
    assert SetScores(target.scores, e.scores) == m[k].scores;
    assert ApplyEntry(prev, e) == prev[k := m[k]];
    PatchedAdd(base, m, ks, k);
  }

  lemma PatchedAdd(base: Preferences, m: Preferences, ks: set<string>, k: string)
    requires ks <= m.Keys && k in m
    ensures Patched(base, m, ks)[k := m[k]] == Patched(base, m, ks + {k})
  {
  }

  // ---------------------------------------------------------------------------
  // The mutable preference map.

  /** A preference map that the parsers and the admin overrides update in place. */
  class PreferenceStore {
    var games: Preferences

    constructor ()
      ensures games == map[]
    {
      games := map[];
    }

    /** `clonePreferences`: a new map holding copies of every entry. */
    method Clone() returns (c: PreferenceStore)
      ensures fresh(c) && c.games == games
    {
      c := new PreferenceStore();
      c.games := games;
    }

    /** `addPreference`. */
    method AddPreference(gameName: string, player: string, score: Option<int>)
      modifies this
      ensures games == AddPref(old(games), gameName, player, score)
    {
      var key := NormalizeName(gameName);
      if key == "" {
        return;
      }
      var entry := if key in games then games[key] else PrefEntry(gameName, map[]);
      if Trim(gameName) != "" {
        entry := entry.(name := Trim(gameName));
      }
      if score.Some? {
        entry := entry.(scores := entry.scores[player := score.value]);
      }
      games := games[key := entry];
    }

    /** `applyOverrides`: patches the map entry by entry, score by score. */
    method ApplyOverrides(doc: OverrideDoc)
      modifies this
      ensures games == ApplyOverridesTo(old(games), doc)
      ensures Extends(old(games), games)
    {
      OverridesNeverRemove(games, doc);
      if doc.None? {
        return;
      }
      var es := doc.value;
      ghost var start := games;
      var i := 0;
      while i < |es|
        invariant 0 <= i <= |es|
        invariant games == ApplyEntries(start, es[..i])
      {
        var e := es[i];
        assert es[..i + 1][..i] == es[..i];
        if e.gameKey != "" {
          var target := if e.gameKey in games then games[e.gameKey]
                        else PrefEntry(if e.name != "" then e.name else e.gameKey, map[]);
          if e.name != "" {
            target := target.(name := e.name);
          }
          target := SetEntryScores(target, e.scores);
          games := games[e.gameKey := target];
        }
        i := i + 1;
      }
      TakeAll(es, i);
    }

    /** Sets each finite stored score of an override entry on the target record. */
    static method SetEntryScores(target: PrefEntry, pairs: seq<(string, Numeric)>) returns (t: PrefEntry)
      ensures t == target.(scores := SetScores(target.scores, pairs))
    {
      t := target;
      var j := 0;
      while j < |pairs|
        invariant 0 <= j <= |pairs|
        invariant t == target.(scores := SetScores(target.scores, pairs[..j]))
      {
        assert pairs[..j + 1][..j] == pairs[..j];
        var (player, value) := pairs[j];
        if value.Finite? {
          t := t.(scores := t.scores[player := value.value]);
        }
        j := j + 1;
      }
      TakeAll(pairs, j);
    }

    /** The entry list `saveOverrides` stores, before it is serialised. */
    method SaveEntries(players: seq<string>) returns (entries: seq<OverrideEntry>)
      ensures SavedFrom(entries, games, players)
    {
      entries := [];
      var remaining := games.Keys;
      while remaining != {}
        invariant remaining <= games.Keys
        invariant |entries| + |remaining| == |games|
        invariant forall i :: 0 <= i < |entries| ==> entries[i].gameKey in games.Keys - remaining
        invariant forall i, j :: 0 <= i < j < |entries| ==> entries[i].gameKey != entries[j].gameKey
        invariant forall i :: 0 <= i < |entries| ==> SavedEntry(entries[i], games, players)
        decreases |remaining|
      {
        var k :| k in remaining;
        var entry := games[k];
        var scores: seq<(string, Numeric)> := [];
        var j := 0;
        while j < |players|
          invariant 0 <= j <= |players|
          invariant scores == SavedScores(entry.scores, players[..j])
        {
          assert players[..j + 1][..j] == players[..j];
          if players[j] in entry.scores {
            scores := scores + [(players[j], Finite(entry.scores[players[j]]))];
          }
          j := j + 1;
        }
        TakeAll(players, j);
        entries := entries + [OverrideEntry(k, entry.name, scores)];
        remaining := remaining - {k};
      }
      assert |games.Keys| == |games|;
    }
  }
}
