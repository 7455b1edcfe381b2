/**
 * The preference table parser. Three layouts are read: the long format (one row per
 * game and player, with game, player and score columns), the paired format (for each
 * player a column of game names followed by a column of scores) and the wide format
 * (a game column and one score column per player).
 *
 * Each layout is specified by a fold over the rows (`LongRows`, `PairedRows`,
 * `WideRows`) on an accumulator `Acc`, and the methods `ParsePairedPreferences` and
 * `ParsePreferencesData` compute the same thing with loops over a `PreferenceStore`.
 */
module PrefParser {
  import opened Text
  import opened Table
  import opened Prefs

  /** What a successful parse returns: the preference map, the sorted roster and the warnings. */
  datatype Parsed = Parsed(preferences: Preferences, players: seq<string>, warnings: seq<string>)

  /** The parse state while rows are read; the roster is still a set. */
  datatype Acc = Acc(preferences: Preferences, roster: set<string>, warnings: seq<string>)

  datatype PrefError = NoHeader | NoPlayerColumns | NoGameColumn

  function ErrorMessage(e: PrefError): string
  {
    match e
    case NoHeader => "No header row found for preferences."
    case NoPlayerColumns => "No player columns found in preferences."
    case NoGameColumn => "Preferences must include a game column."
  }

  /** A returned value reports a final state: same map and warnings, roster sorted. */
  ghost predicate Reports(p: Parsed, a: Acc)
  {
    && p.preferences == a.preferences
    && p.warnings == a.warnings
    && StrictlySorted(p.players)
    && (forall x :: x in p.players <==> x in a.roster)
  }

  /**
   * The shape every parse leaves behind: each game is keyed by the normalised form
   * of its non-empty display name, and every stored score lies in 0..3 and belongs
   * to a player on the roster.
   */
  ghost predicate WellFormed(m: Preferences, roster: set<string>)
  {
    forall k :: k in m ==> k != "" && m[k].name != "" && NormalizeName(m[k].name) == k && GoodScores(m[k].scores, roster)
  }

  ghost predicate GoodScores(scores: map<string, int>, roster: set<string>)
  {
    forall p :: p in scores ==> p in roster && 0 <= scores[p] <= 3
  }

  lemma WellFormedGrow(m: Preferences, r: set<string>, r': set<string>)
    requires WellFormed(m, r) && r <= r'
    ensures WellFormed(m, r')
  {
  }

  // ---------------------------------------------------------------------------
  // Scoring cells.

  /** Reads one score cell with `parseScore` and records it with `addPreference`. */
  function AddScore(m: Preferences, warnings: seq<string>, row: Row, game: string, player: string, field: string): (Preferences, seq<string>)
  {
    var (score, ws) := ParseScore(CellAt(row, field), warnings, game, player);
    (AddPref(m, game, player, score), ws)
  }

  /** `AddScore` for each (player, score column) pair in order. */
  function AddScores(m: Preferences, warnings: seq<string>, row: Row, game: string, cols: seq<(string, string)>): (Preferences, seq<string>)
  {
    if cols == [] then (m, warnings)
    else
      var (m', ws) := AddScores(m, warnings, row, game, cols[..|cols| - 1]);
      AddScore(m', ws, row, game, cols[|cols| - 1].0, cols[|cols| - 1].1)
  }

  lemma AddScoreWellFormed(m: Preferences, warnings: seq<string>, row: Row, game: string, player: string, field: string, roster: set<string>)
    requires WellFormed(m, roster) && player in roster
    ensures WellFormed(AddScore(m, warnings, row, game, player, field).0, roster)
    ensures warnings <= AddScore(m, warnings, row, game, player, field).1
  {
    var (score, ws) := ParseScore(CellAt(row, field), warnings, game, player);
    AddPrefWellFormed(m, game, player, score, roster);
  }

  lemma AddPrefWellFormed(m: Preferences, game: string, player: string, score: Option<int>, roster: set<string>)
    requires WellFormed(m, roster) && player in roster
    requires score.Some? ==> 0 <= score.value <= 3
    ensures WellFormed(AddPref(m, game, player, score), roster)
  {
    NormalizeNameEmpty(game);
    NormalizeNameTrim(game);
  }

  /** The players named by a list of score columns. */
  function ColumnPlayers(cols: seq<(string, string)>): set<string>
  {
    if cols == [] then {} else ColumnPlayers(cols[..|cols| - 1]) + {cols[|cols| - 1].0}
  }

  lemma {:induction false} AddScoresWellFormed(m: Preferences, warnings: seq<string>, row: Row, game: string, cols: seq<(string, string)>, roster: set<string>)
    requires WellFormed(m, roster) && ColumnPlayers(cols) <= roster
    ensures WellFormed(AddScores(m, warnings, row, game, cols).0, roster)
    ensures warnings <= AddScores(m, warnings, row, game, cols).1
  {
    if cols != [] {
      var init := cols[..|cols| - 1];
      AddScoresWellFormed(m, warnings, row, game, init, roster);
      var (m', ws) := AddScores(m, warnings, row, game, init);
      AddScoreWellFormed(m', ws, row, game, cols[|cols| - 1].0, cols[|cols| - 1].1, roster);
    }
  }

  // ---------------------------------------------------------------------------
  // The long format.

  /** One long-format row: skipped unless both the game and the player cell are non-blank. */
  function LongRow(acc: Acc, row: Row, gf: string, pf: string, sf: string): Acc
  {
    var game := CleanValue(CellAt(row, gf));
    var player := CleanValue(CellAt(row, pf));
    if game == "" || player == "" then acc
    else
      var (m, ws) := AddScore(acc.preferences, acc.warnings, row, game, player, sf);
      Acc(m, acc.roster + {player}, ws)
  }

  function LongRows(acc: Acc, rows: seq<Row>, gf: string, pf: string, sf: string): Acc
  {
    if rows == [] then acc else LongRow(LongRows(acc, rows[..|rows| - 1], gf, pf, sf), rows[|rows| - 1], gf, pf, sf)
  }

  /** The players the long format reads from its rows. */
  ghost predicate LongPlayer(rows: seq<Row>, gf: string, pf: string, p: string)
  {
    exists i :: 0 <= i < |rows| && CleanValue(CellAt(rows[i], gf)) != "" && CleanValue(CellAt(rows[i], pf)) == p && p != ""
  }

  lemma {:induction false} LongRowsWellFormed(acc: Acc, rows: seq<Row>, gf: string, pf: string, sf: string)
    requires WellFormed(acc.preferences, acc.roster)
    ensures WellFormed(LongRows(acc, rows, gf, pf, sf).preferences, LongRows(acc, rows, gf, pf, sf).roster)
  {
    if rows != [] {
      var init := rows[..|rows| - 1];
      var row := rows[|rows| - 1];
      LongRowsWellFormed(acc, init, gf, pf, sf);
      var prev := LongRows(acc, init, gf, pf, sf);
      var game := CleanValue(CellAt(row, gf));
      var player := CleanValue(CellAt(row, pf));
      if game != "" && player != "" {
        WellFormedGrow(prev.preferences, prev.roster, prev.roster + {player});
        AddScoreWellFormed(prev.preferences, prev.warnings, row, game, player, sf, prev.roster + {player});
      }
    }
  }

  /** The long format's roster is exactly the non-blank player cells of rows with a non-blank game. */
  lemma {:induction false} LongRowsRoster(acc: Acc, rows: seq<Row>, gf: string, pf: string, sf: string, p: string)
    ensures p in LongRows(acc, rows, gf, pf, sf).roster <==> p in acc.roster || LongPlayer(rows, gf, pf, p)
  {
    if rows != [] {
      var init := rows[..|rows| - 1];
      LongRowsRoster(acc, init, gf, pf, sf, p);
      LongPlayerSnoc(rows, gf, pf, p);
    }
  }

  lemma LongPlayerSnoc(rows: seq<Row>, gf: string, pf: string, p: string)
    requires rows != []
    ensures var row := rows[|rows| - 1];
      LongPlayer(rows, gf, pf, p) <==>
        LongPlayer(rows[..|rows| - 1], gf, pf, p) || (p == CleanValue(CellAt(row, pf)) && CleanValue(CellAt(row, gf)) != "" && p != "")
  {
    var init := rows[..|rows| - 1];
    assert forall i :: 0 <= i < |init| ==> rows[i] == init[i];
    if LongPlayer(rows, gf, pf, p) {
      var i :| 0 <= i < |rows| && CleanValue(CellAt(rows[i], gf)) != "" && CleanValue(CellAt(rows[i], pf)) == p && p != "";
      if i < |init| { assert init[i] == rows[i]; }
    }
  }

  // ---------------------------------------------------------------------------
  // The wide format.

  /** `fields.filter((field) => field !== x)`. */
  function Without(fields: seq<string>, x: string): (r: seq<string>)
    ensures forall f :: f in r <==> f in fields && f != x
  {
    if fields == [] then []
    else
      var init := fields[..|fields| - 1];
      var last := fields[|fields| - 1];
      assert forall f :: f in fields <==> f in init || f == last;
      Without(init, x) + (if last != x then [last] else [])
  }

  /** The wide-format score columns: each column whose trimmed header is non-empty, with that name. */
  function WideColumns(fields: seq<string>): (cols: seq<(string, string)>)
    ensures forall k :: 0 <= k < |cols| ==> cols[k].0 == Trim(cols[k].1) && cols[k].0 != "" && cols[k].1 in fields
  {
    if fields == [] then []
    else
      var prev := WideColumns(fields[..|fields| - 1]);
      var last := fields[|fields| - 1];
      if Trim(last) != "" then prev + [(Trim(last), last)] else prev
  }

  lemma {:induction false} WideColumnsComplete(fields: seq<string>, f: string)
    requires f in fields && Trim(f) != ""
    ensures Trim(f) in ColumnPlayers(WideColumns(fields))
  {
    var init := fields[..|fields| - 1];
    if f in init {
      WideColumnsComplete(init, f);
      ColumnPlayersPrefix(WideColumns(init), WideColumns(fields));
    } else {
      assert f == fields[|fields| - 1];
    }
  }

  lemma {:induction false} ColumnPlayersPrefix(a: seq<(string, string)>, b: seq<(string, string)>)
    requires a <= b
    ensures ColumnPlayers(a) <= ColumnPlayers(b)
  {
    if |a| < |b| {
      ColumnPlayersPrefix(a, b[..|b| - 1]);
    } else {
      assert a == b;
    }
  }

  /** One wide-format row: skipped when its game cell is blank. */
  function WideRow(acc: Acc, row: Row, gf: string, cols: seq<(string, string)>): Acc
  {
    var game := CleanValue(CellAt(row, gf));
    if game == "" then acc
    else
      var (m, ws) := AddScores(acc.preferences, acc.warnings, row, game, cols);
      Acc(m, acc.roster, ws)
  }

  function WideRows(acc: Acc, rows: seq<Row>, gf: string, cols: seq<(string, string)>): Acc
  {
    if rows == [] then acc else WideRow(WideRows(acc, rows[..|rows| - 1], gf, cols), rows[|rows| - 1], gf, cols)
  }

  lemma {:induction false} WideRowsFacts(acc: Acc, rows: seq<Row>, gf: string, cols: seq<(string, string)>)
    requires WellFormed(acc.preferences, acc.roster) && ColumnPlayers(cols) <= acc.roster
    ensures WideRows(acc, rows, gf, cols).roster == acc.roster
    ensures WellFormed(WideRows(acc, rows, gf, cols).preferences, acc.roster)
    ensures acc.warnings <= WideRows(acc, rows, gf, cols).warnings
  {
    if rows != [] {
      var prev := WideRows(acc, rows[..|rows| - 1], gf, cols);
      WideRowsFacts(acc, rows[..|rows| - 1], gf, cols);
      var game := CleanValue(CellAt(rows[|rows| - 1], gf));
      if game != "" {
        AddScoresWellFormed(prev.preferences, prev.warnings, rows[|rows| - 1], game, cols, acc.roster);
      }
    }
  }

  // ---------------------------------------------------------------------------
  // The paired format.

  /** A player's column pair: the player's name, the game-name column and the score column. */
  datatype Pair = Pair(player: string, gameField: string, scoreField: string)

  /**
   * Whether columns `i` and `i + 1` form a pair: both headers are non-empty once
   * trimmed, the second mentions "score", and the first is not the game column.
   */
  predicate IsPairAt(fields: seq<string>, i: nat)
    requires i + 1 < |fields|
  {
    var playerField := Trim(fields[i]);
    var scoreField := Trim(fields[i + 1]);
    && playerField != ""
    && scoreField != ""
    && Contains(NormalizeHeader(scoreField), "score")
    && NormalizeHeader(playerField) != "game"
  }

  /** For each column that has a right neighbour, whether the two form a pair. */
  function PairFlags(fields: seq<string>): (flags: seq<bool>)
    ensures |flags| == if |fields| == 0 then 0 else |fields| - 1
    ensures forall i :: 0 <= i < |flags| ==> flags[i] == IsPairAt(fields, i)
  {
    if |fields| <= 1 then [] else seq(|fields| - 1, i requires 0 <= i < |fields| - 1 => IsPairAt(fields, i))
  }

  /**
   * The positions taken by scanning the flags from `i`: after a pair at `j` the scan
   * resumes at `j + 2`, so a score column never starts another pair.
   */
  function ScanPairs(flags: seq<bool>, i: nat): (idx: seq<nat>)
    decreases |flags| + 1 - i
    ensures forall k :: 0 <= k < |idx| ==> i <= idx[k] < |flags| && flags[idx[k]]
    ensures forall k :: 0 <= k < |idx| - 1 ==> idx[k] + 2 <= idx[k + 1]
  {
    if i >= |flags| then []
    else if flags[i] then [i] + ScanPairs(flags, i + 2)
    else ScanPairs(flags, i + 1)
  }

  /**
   * No pair is missed: a pair position the scan reaches (the start, or one whose
   * left neighbour did not start a pair) is taken.
   */
  lemma {:induction false} ScanPairsComplete(flags: seq<bool>, i: nat, j: nat)
    requires i <= j < |flags| && flags[j]
    requires j > i ==> j - 1 !in ScanPairs(flags, i)
    ensures j in ScanPairs(flags, i)
    decreases j - i
  {
    if j > i {
      if flags[i] {
        if j > i + 1 {
          assert j - 1 !in ScanPairs(flags, i + 2);
          ScanPairsComplete(flags, i + 2, j);
        } else {
          assert false;
        }
      } else {
        ScanPairsComplete(flags, i + 1, j);
      }
    }
  }

  function MakePair(fields: seq<string>, j: nat): Pair
    requires j + 1 < |fields|
  {
    Pair(Trim(fields[j]), fields[j], fields[j + 1])
  }

  /** The pairs `parsePairedPreferences` finds scanning from column `i`. */
  function PairsFrom(fields: seq<string>, i: nat): seq<Pair>
    decreases |fields| - i
  {
    if i + 1 >= |fields| then []
    else if IsPairAt(fields, i) then [MakePair(fields, i)] + PairsFrom(fields, i + 2)
    else PairsFrom(fields, i + 1)
  }

  function Pairs(fields: seq<string>): seq<Pair>
  {
    PairsFrom(fields, 0)
  }

  function MakePairs(fields: seq<string>, idx: seq<nat>): (ps: seq<Pair>)
    requires forall k :: 0 <= k < |idx| ==> idx[k] + 1 < |fields|
  {
    if idx == [] then [] else [MakePair(fields, idx[0])] + MakePairs(fields, idx[1..])
  }

  lemma {:induction false} MakePairsAt(fields: seq<string>, idx: seq<nat>, k: nat)
    requires forall k :: 0 <= k < |idx| ==> idx[k] + 1 < |fields|
    requires k < |idx|
    ensures |MakePairs(fields, idx)| == |idx| && MakePairs(fields, idx)[k] == MakePair(fields, idx[k])
  {
    if k > 0 {
      MakePairsAt(fields, idx[1..], k - 1);
    } else if |idx| > 1 {
      MakePairsAt(fields, idx[1..], 0);
    }
  }

  /** Scanning the columns is scanning their pair flags. */
  lemma {:induction false} PairsFromScan(fields: seq<string>, i: nat)
    ensures PairsFrom(fields, i) == MakePairs(fields, ScanPairs(PairFlags(fields), i))
    decreases |fields| - i
  {
    if i + 1 < |fields| {
      PairsFromScan(fields, i + 1);
      PairsFromScan(fields, i + 2);
      ScanStepAt(fields, i);
    } else {
      ScanEnd(fields, i);
    }
  }

  lemma ScanEnd(fields: seq<string>, i: nat)
    requires i + 1 >= |fields|
    ensures PairsFrom(fields, i) == MakePairs(fields, ScanPairs(PairFlags(fields), i))
  {
    assert ScanPairs(PairFlags(fields), i) == [];
  }

  lemma ScanStepAt(fields: seq<string>, i: nat)
    requires i + 1 < |fields|
    requires PairsFrom(fields, i + 1) == MakePairs(fields, ScanPairs(PairFlags(fields), i + 1))
    requires PairsFrom(fields, i + 2) == MakePairs(fields, ScanPairs(PairFlags(fields), i + 2))
    ensures PairsFrom(fields, i) == MakePairs(fields, ScanPairs(PairFlags(fields), i))
  {
    if IsPairAt(fields, i) {
      ScanTaken(fields, i);
    } else {
      ScanSkipped(fields, i);
    }
  }

  lemma ScanTaken(fields: seq<string>, i: nat)
    requires i + 1 < |fields| && IsPairAt(fields, i)
    requires PairsFrom(fields, i + 2) == MakePairs(fields, ScanPairs(PairFlags(fields), i + 2))
    ensures PairsFrom(fields, i) == MakePairs(fields, ScanPairs(PairFlags(fields), i))
  {
    var flags := PairFlags(fields);
    var rest := ScanPairs(flags, i + 2);
    assert flags[i];
    assert ScanPairs(flags, i) == [i] + rest;
    assert ([i] + rest)[1..] == rest;
  }

  lemma ScanSkipped(fields: seq<string>, i: nat)
    requires i + 1 < |fields| && !IsPairAt(fields, i)
    requires PairsFrom(fields, i + 1) == MakePairs(fields, ScanPairs(PairFlags(fields), i + 1))
    ensures PairsFrom(fields, i) == MakePairs(fields, ScanPairs(PairFlags(fields), i))
  {
    assert !PairFlags(fields)[i];
  }

  /**
   * The pairs found are the pairs at the scan positions: pair `k` reads columns
   * `idx[k]` and `idx[k] + 1`, which pass the pair test, and no two pairs share a column.
   */
  lemma PairsShape(fields: seq<string>) returns (idx: seq<nat>)
    ensures idx == ScanPairs(PairFlags(fields), 0)
    ensures |Pairs(fields)| == |idx|
    ensures forall k :: 0 <= k < |idx| ==> idx[k] + 1 < |fields| && IsPairAt(fields, idx[k]) && Pairs(fields)[k] == MakePair(fields, idx[k])
    ensures forall k :: 0 <= k < |idx| - 1 ==> idx[k] + 2 <= idx[k + 1]
  {
    idx := ScanPairs(PairFlags(fields), 0);
    PairsFromScan(fields, 0);
    if idx != [] {
      MakePairsAt(fields, idx, 0);
    }
    forall k | 0 <= k < |idx| ensures Pairs(fields)[k] == MakePair(fields, idx[k]) {
      MakePairsAt(fields, idx, k);
    }
  }

  function PairPlayers(pairs: seq<Pair>): set<string>
  {
    if pairs == [] then {} else PairPlayers(pairs[..|pairs| - 1]) + {pairs[|pairs| - 1].player}
  }

  /** The score columns of the pairs, with their players' names. */
  function PairColumns(pairs: seq<Pair>): (cols: seq<(string, string)>)
    ensures ColumnPlayers(cols) == PairPlayers(pairs)
  {
    if pairs == [] then []
    else PairColumns(pairs[..|pairs| - 1]) + [(pairs[|pairs| - 1].player, pairs[|pairs| - 1].scoreField)]
  }

  function GameCell(row: Row, p: Pair): string
  {
    CleanValue(CellAt(row, p.gameField))
  }

  /**
   * Scanning a row's game cells: the game name is the first non-blank one, and the
   * row is a mismatch when some non-blank game cell has a different game key.
   */
  function ScanGame(row: Row, pairs: seq<Pair>): (string, bool)
  {
    if pairs == [] then ("", false)
    else ScanStep(ScanGame(row, pairs[..|pairs| - 1]), GameCell(row, pairs[|pairs| - 1]))
  }

  /** One game cell: a blank one is skipped, the first non-blank one names the game. */
  function ScanStep(acc: (string, bool), candidate: string): (string, bool)
  {
    var (game, mismatched) := acc;
    if candidate == "" then (game, mismatched)
    else if game == "" then (candidate, mismatched)
    else (game, mismatched || NormalizeName(candidate) != NormalizeName(game))
  }

  lemma ScanGameNext(row: Row, pairs: seq<Pair>, j: nat)
    requires j < |pairs|
    ensures ScanGame(row, pairs[..j + 1]) == ScanStep(ScanGame(row, pairs[..j]), GameCell(row, pairs[j]))
  {
    assert pairs[..j + 1][..j] == pairs[..j];
  }

  /** The game name is blank exactly when every game cell is. */
  lemma {:induction false} ScanGameBlank(row: Row, pairs: seq<Pair>)
    ensures ScanGame(row, pairs).0 == "" <==> forall k :: 0 <= k < |pairs| ==> GameCell(row, pairs[k]) == ""
  {
    if pairs != [] {
      var init := pairs[..|pairs| - 1];
      ScanGameBlank(row, init);
      assert forall k :: 0 <= k < |init| ==> init[k] == pairs[k];
    }
  }

  /** A row is a mismatch exactly when some non-blank game cell keys differently from the game name. */
  lemma {:induction false} ScanGameMismatch(row: Row, pairs: seq<Pair>)
    ensures ScanGame(row, pairs).1 <==>
      exists k :: 0 <= k < |pairs| && GameCell(row, pairs[k]) != "" && NormalizeName(GameCell(row, pairs[k])) != NormalizeName(ScanGame(row, pairs).0)
  {
    if pairs != [] {
      var init := pairs[..|pairs| - 1];
      ScanGameMismatch(row, init);
      ScanGameBlank(row, init);
      var game := ScanGame(row, init).0;
      var last := GameCell(row, pairs[|pairs| - 1]);
      assert forall k :: 0 <= k < |init| ==> init[k] == pairs[k];
      if last != "" && game == "" {
        assert forall k :: 0 <= k < |init| ==> GameCell(row, pairs[k]) == "";
      }
    }
  }

  /** The game name is the first non-blank game cell. */
  lemma {:induction false} ScanGameFirst(row: Row, pairs: seq<Pair>) returns (k: nat)
    requires ScanGame(row, pairs).0 != ""
    ensures k < |pairs| && GameCell(row, pairs[k]) == ScanGame(row, pairs).0
    ensures forall k' :: 0 <= k' < k ==> GameCell(row, pairs[k']) == ""
  {
    var init := pairs[..|pairs| - 1];
    if ScanGame(row, init).0 != "" {
      k := ScanGameFirst(row, init);
      assert init[k] == pairs[k];
      assert forall k' :: 0 <= k' < k ==> init[k'] == pairs[k'];
    } else {
      k := |pairs| - 1;
      ScanGameBlank(row, init);
      assert forall k' :: 0 <= k' < k ==> init[k'] == pairs[k'];
    }
  }

  function MismatchWarning(rowIndex: nat): string
  {
    "Row " + NatToString(rowIndex + 2) + " has mismatched game names across player columns."
  }

  /** One paired row: at most one mismatch warning, then every pair's score under the row's game. */
  function PairedRow(acc: Acc, row: Row, rowIndex: nat, pairs: seq<Pair>): Acc
  {
    var (game, mismatched) := ScanGame(row, pairs);
    var warned := if mismatched then acc.warnings + [MismatchWarning(rowIndex)] else acc.warnings;
    if game == "" then acc.(warnings := warned)
    else
      var (m, ws) := AddScores(acc.preferences, warned, row, game, PairColumns(pairs));
      Acc(m, acc.roster, ws)
  }

  function PairedRows(acc: Acc, rows: seq<Row>, pairs: seq<Pair>): Acc
  {
    if rows == [] then acc else PairedRow(PairedRows(acc, rows[..|rows| - 1], pairs), rows[|rows| - 1], |rows| - 1, pairs)
  }

  /** `parsePairedPreferences`: none when no pair is found. */
  function ParsePaired(data: Data, warnings: seq<string>): Option<Acc>
  {
    var pairs := Pairs(data.fields);
    if |pairs| < 1 then None
    else Some(PairedRows(Acc(map[], PairPlayers(pairs), warnings), data.rows, pairs))
  }

  lemma {:induction false} PairedRowsFacts(acc: Acc, rows: seq<Row>, pairs: seq<Pair>)
    requires WellFormed(acc.preferences, acc.roster) && PairPlayers(pairs) <= acc.roster
    ensures PairedRows(acc, rows, pairs).roster == acc.roster
    ensures WellFormed(PairedRows(acc, rows, pairs).preferences, acc.roster)
    ensures acc.warnings <= PairedRows(acc, rows, pairs).warnings
  {
    if rows != [] {
      var prev := PairedRows(acc, rows[..|rows| - 1], pairs);
      PairedRowsFacts(acc, rows[..|rows| - 1], pairs);
      var row := rows[|rows| - 1];
      var (game, mismatched) := ScanGame(row, pairs);
      var warned := if mismatched then prev.warnings + [MismatchWarning(|rows| - 1)] else prev.warnings;
      if game != "" {
        AddScoresWellFormed(prev.preferences, warned, row, game, PairColumns(pairs), acc.roster);
      }
    }
  }

  /** The paired parse leaves a well-formed map whose scored players are all pair players. */
  lemma PairedWellFormed(data: Data, warnings: seq<string>)
    requires ParsePaired(data, warnings).Some?
    ensures var a := ParsePaired(data, warnings).value;
      WellFormed(a.preferences, a.roster) && a.roster == PairPlayers(Pairs(data.fields)) && warnings <= a.warnings
  {
    var pairs := Pairs(data.fields);
    PairedRowsFacts(Acc(map[], PairPlayers(pairs), warnings), data.rows, pairs);
  }

  // ---------------------------------------------------------------------------
  // The whole parser.

  /** The three header lookups. */
  function GameField(data: Data): Option<string> { FindField(data.fields, GameCandidates) }
  function PlayerField(data: Data): Option<string> { FindField(data.fields, PlayerCandidates) }
  function ScoreField(data: Data): Option<string> { FindField(data.fields, ScoreCandidates) }

  /** Whether the long format applies: game, player and score columns are all present. */
  predicate IsLong(data: Data)
  {
    GameField(data).Some? && PlayerField(data).Some? && ScoreField(data).Some?
  }

  /**
   * `parsePreferencesData`, as written: when a game column exists the wide-format
   * pass runs even after the long-format pass, over every other column.
   */
  function ParsePreferences(data: Data): Result<Acc, PrefError>
  {
    if |data.fields| == 0 then Err(NoHeader)
    else
      var paired := if IsLong(data) then None else ParsePaired(data, []);
      if paired.Some? then Ok(paired.value)
      else if GameField(data).None? then Err(NoGameColumn)
      else
        var gf := GameField(data).value;
        var start := Acc(map[], {}, []);
        var afterLong := if IsLong(data) then LongRows(start, data.rows, gf, PlayerField(data).value, ScoreField(data).value) else start;
        WideContinue(afterLong, data, gf)
  }

  /** The wide-format pass from the state the earlier passes left. */
  function WideContinue(acc: Acc, data: Data, gf: string): Result<Acc, PrefError>
  {
    var playerFields := Without(data.fields, gf);
    if |playerFields| == 0 then Err(NoPlayerColumns)
    else
      var cols := WideColumns(playerFields);
      Ok(WideRows(acc.(roster := acc.roster + ColumnPlayers(cols)), data.rows, gf, cols))
  }

  /** When each of the three errors is raised. */
  lemma ParsePreferencesErrors(data: Data)
    ensures ParsePreferences(data) == Err(NoHeader) <==> |data.fields| == 0
    ensures ParsePreferences(data) == Err(NoGameColumn) <==>
      |data.fields| > 0 && GameField(data).None? && ParsePaired(data, []).None?
    ensures ParsePreferences(data) == Err(NoPlayerColumns) <==>
      && |data.fields| > 0 && GameField(data).Some? && (IsLong(data) || ParsePaired(data, []).None?)
      && forall f :: f in data.fields ==> f == GameField(data).value
  {
    if |data.fields| > 0 && GameField(data).Some? {
      var w := Without(data.fields, GameField(data).value);
      if |w| > 0 {
        assert w[0] in w;
      }
    }
  }

  lemma {:induction false} WideContinueFacts(acc: Acc, data: Data, gf: string)
    requires WellFormed(acc.preferences, acc.roster)
    requires WideContinue(acc, data, gf).Ok?
    ensures var a := WideContinue(acc, data, gf).value;
      WellFormed(a.preferences, a.roster) && acc.roster <= a.roster && acc.warnings <= a.warnings
    ensures forall f :: f in data.fields && f != gf && Trim(f) != "" ==> Trim(f) in WideContinue(acc, data, gf).value.roster
  {
    var cols := WideColumns(Without(data.fields, gf));
    var acc' := acc.(roster := acc.roster + ColumnPlayers(cols));
    WellFormedGrow(acc.preferences, acc.roster, acc'.roster);
    WideRowsFacts(acc', data.rows, gf, cols);
    forall f | f in data.fields && f != gf && Trim(f) != "" ensures Trim(f) in acc'.roster {
      WideColumnsComplete(Without(data.fields, gf), f);
    }
  }

  /**
   * Every successful parse leaves each game keyed by the normalised form of its
   * non-empty name, with scores in 0..3 for rostered players only.
   */
  lemma ParsePreferencesWellFormed(data: Data)
    requires ParsePreferences(data).Ok?
    ensures WellFormed(ParsePreferences(data).value.preferences, ParsePreferences(data).value.roster)
  {
    if !IsLong(data) && ParsePaired(data, []).Some? {
      PairedWellFormed(data, []);
    } else {
      var gf := GameField(data).value;
      var start := Acc(map[], {}, []);
      if IsLong(data) {
        LongRowsWellFormed(start, data.rows, gf, PlayerField(data).value, ScoreField(data).value);
        WideContinueFacts(LongRows(start, data.rows, gf, PlayerField(data).value, ScoreField(data).value), data, gf);
      } else {
        WideContinueFacts(start, data, gf);
      }
    }
  }

  // ---------------------------------------------------------------------------
  // The long format also runs the wide-format pass.

  /** In a long-format table the column headers are distinct fields with non-empty trimmed names. */
  lemma LongHeaders(data: Data)
    requires IsLong(data)
    ensures PlayerField(data).value in data.fields && PlayerField(data).value != GameField(data).value
    ensures ScoreField(data).value in data.fields && ScoreField(data).value != GameField(data).value
    ensures Trim(PlayerField(data).value) != "" && Trim(ScoreField(data).value) != ""
  {
    CandidateListsHaveNoBlank();
    FindFieldFound(data.fields, GameCandidates);
    FindFieldFound(data.fields, PlayerCandidates);
    FindFieldFound(data.fields, ScoreCandidates);
    var g, p, s := GameField(data).value, PlayerField(data).value, ScoreField(data).value;
    HeaderNonEmpty(p, PlayerCandidates);
    HeaderNonEmpty(s, ScoreCandidates);
    CandidatesDisjoint(NormalizeHeader(p));
    CandidatesDisjoint(NormalizeHeader(s));
  }

  /** No header names both the game column and the player or score column. */
  lemma CandidatesDisjoint(h: string)
    ensures h in PlayerCandidates ==> h !in GameCandidates
    ensures h in ScoreCandidates ==> h !in GameCandidates
  {
  }

  lemma HeaderNonEmpty(f: string, candidates: seq<string>)
    requires NormalizeHeader(f) in candidates
    requires NoBlank(candidates)
    ensures Trim(f) != ""
  {
  }

  /**
   * As written, a long-format table lists its own player and score headers as
   * players: the wide-format pass that follows treats every non-game column as a
   * player column. With no rows at all the roster is still not empty.
   */
  lemma LongTableHeadersBecomePlayers(data: Data)
    requires IsLong(data)
    ensures ParsePreferences(data).Ok?
    ensures Trim(PlayerField(data).value) in ParsePreferences(data).value.roster
    ensures Trim(ScoreField(data).value) in ParsePreferences(data).value.roster
    ensures data.rows == [] ==> ParsePreferences(data).value.roster != {}
  {
    LongHeaders(data);
    var gf := GameField(data).value;
    var start := Acc(map[], {}, []);
    var afterLong := LongRows(start, data.rows, gf, PlayerField(data).value, ScoreField(data).value);
    assert PlayerField(data).value in Without(data.fields, gf);
    LongRowsWellFormed(start, data.rows, gf, PlayerField(data).value, ScoreField(data).value);
    WideContinueFacts(afterLong, data, gf);
  }

  /**
   * `parsePreferencesData` with the wide-format pass run only when the long format
   * does not apply, which the long-format branch evidently intends.
   */
  function ParsePreferencesIntended(data: Data): Result<Acc, PrefError>
  {
    if |data.fields| == 0 then Err(NoHeader)
    else if IsLong(data) then
      Ok(LongRows(Acc(map[], {}, []), data.rows, GameField(data).value, PlayerField(data).value, ScoreField(data).value))
    else
      var paired := ParsePaired(data, []);
      if paired.Some? then Ok(paired.value)
      else if GameField(data).None? then Err(NoGameColumn)
      else WideContinue(Acc(map[], {}, []), data, GameField(data).value)
  }

  /**
   * With that correction a long-format table's roster is exactly the non-blank
   * player cells of the rows with a game, its map is well formed, and every other
   * layout parses as before.
   */
  lemma LongTableIntendedRoster(data: Data)
    ensures IsLong(data) && |data.fields| > 0 ==> ParsePreferencesIntended(data).Ok?
    ensures IsLong(data) && |data.fields| > 0 ==>
      forall p :: p in ParsePreferencesIntended(data).value.roster <==> LongPlayer(data.rows, GameField(data).value, PlayerField(data).value, p)
    ensures IsLong(data) && |data.fields| > 0 ==>
      WellFormed(ParsePreferencesIntended(data).value.preferences, ParsePreferencesIntended(data).value.roster)
    ensures !IsLong(data) ==> ParsePreferencesIntended(data) == ParsePreferences(data)
  {
    if IsLong(data) && |data.fields| > 0 {
      var start := Acc(map[], {}, []);
      var gf, pf, sf := GameField(data).value, PlayerField(data).value, ScoreField(data).value;
      LongRowsWellFormed(start, data.rows, gf, pf, sf);
      forall p ensures p in LongRows(start, data.rows, gf, pf, sf).roster <==> LongPlayer(data.rows, gf, pf, p) {
        LongRowsRoster(start, data.rows, gf, pf, sf, p);
      }
    }
  }

  // ---------------------------------------------------------------------------
  // The methods.

  /** `Array.from(set).sort()`. */
  method SortNames(names: set<string>) returns (r: seq<string>)
    ensures StrictlySorted(r)
    ensures forall x :: x in r <==> x in names
  {
    r := [];
    var rest := names;
    while rest != {}
      invariant rest <= names
      invariant StrictlySorted(r)
      invariant forall x :: x in r <==> x in names - rest
      decreases |rest|
    {
      var x :| x in rest;
      r := InsertSorted(r, x);
      rest := rest - {x};
    }
  }

  /** Finds the column pairs, stepping past each consumed score column. */
  method FindPairs(fields: seq<string>) returns (pairs: seq<Pair>)
    ensures pairs == Pairs(fields)
  {
    pairs := [];
    var i := 0;
    while i + 1 < |fields|
      invariant i <= |fields|
      invariant pairs + PairsFrom(fields, i) == Pairs(fields)
      decreases |fields| - i
    {
      var playerField := Trim(fields[i]);
      var scoreField := Trim(fields[i + 1]);
      if playerField != "" && scoreField != "" && Contains(NormalizeHeader(scoreField), "score") && NormalizeHeader(playerField) != "game" {
        assert pairs + [MakePair(fields, i)] + PairsFrom(fields, i + 2) == pairs + PairsFrom(fields, i);
        pairs := pairs + [Pair(playerField, fields[i], fields[i + 1])];
        i := i + 1;
      }
      i := i + 1;
    }
    assert pairs + [] == pairs;
  }

  /** Reads a row's game cells; a mismatch is flagged once, with its warning. */
  method ScanRow(row: Row, rowIndex: nat, pairs: seq<Pair>, mismatchRows: set<nat>, warnings: seq<string>)
    returns (gameName: string, mismatchRows': set<nat>, warnings': seq<string>)
    requires forall x :: x in mismatchRows ==> x < rowIndex
    ensures (gameName, rowIndex in mismatchRows') == ScanGame(row, pairs)
    ensures mismatchRows' - {rowIndex} == mismatchRows
    ensures warnings' == warnings + (if rowIndex in mismatchRows' then [MismatchWarning(rowIndex)] else [])
  {
    gameName := "";
    mismatchRows' := mismatchRows;
    warnings' := warnings;
    var j := 0;
    while j < |pairs|
      invariant 0 <= j <= |pairs|
      invariant (gameName, rowIndex in mismatchRows') == ScanGame(row, pairs[..j])
      invariant mismatchRows' - {rowIndex} == mismatchRows
      invariant warnings' == warnings + (if rowIndex in mismatchRows' then [MismatchWarning(rowIndex)] else [])
    {
      ScanGameNext(row, pairs, j);
      var candidate := CleanValue(CellAt(row, pairs[j].gameField));
      assert candidate == GameCell(row, pairs[j]);
      if candidate != "" {
        if gameName == "" {
          gameName := candidate;
        } else if NormalizeName(candidate) != NormalizeName(gameName) && rowIndex !in mismatchRows' {
          warnings' := warnings' + [MismatchWarning(rowIndex)];
          mismatchRows' := mismatchRows' + {rowIndex};
        }
      }
      j := j + 1;
    }
    TakeAll(pairs, j);
  }

  /** Records every pair's score cell of a row under its game. */
  method ScorePairs(store: PreferenceStore, row: Row, gameName: string, pairs: seq<Pair>, warnings: seq<string>)
    returns (warnings': seq<string>)
    modifies store
    ensures (store.games, warnings') == AddScores(old(store.games), warnings, row, gameName, PairColumns(pairs))
  {
    warnings' := warnings;
    var j := 0;
    while j < |pairs|
      invariant 0 <= j <= |pairs|
      invariant (store.games, warnings') == AddScores(old(store.games), warnings, row, gameName, PairColumns(pairs[..j]))
    {
      AddScoresNext(old(store.games), warnings, row, gameName, pairs, j);
      var pair := pairs[j];
      var (score, ws) := ParseScore(CellAt(row, pair.scoreField), warnings', gameName, pair.player);
      warnings' := ws;
      store.AddPreference(gameName, pair.player, score);
      j := j + 1;
    }
    TakeAll(pairs, j);
  }

  lemma AddScoresNext(m: Preferences, warnings: seq<string>, row: Row, game: string, pairs: seq<Pair>, j: nat)
    requires j < |pairs|
    ensures var (m', ws) := AddScores(m, warnings, row, game, PairColumns(pairs[..j]));
      AddScores(m, warnings, row, game, PairColumns(pairs[..j + 1])) == AddScore(m', ws, row, game, pairs[j].player, pairs[j].scoreField)
  {
    assert pairs[..j + 1][..j] == pairs[..j];
    var cols := PairColumns(pairs[..j + 1]);
    assert cols == PairColumns(pairs[..j]) + [(pairs[j].player, pairs[j].scoreField)];
    assert cols[..|cols| - 1] == PairColumns(pairs[..j]);
  }

  /** One row of the paired format. */
  method PairedRowStep(store: PreferenceStore, row: Row, rowIndex: nat, pairs: seq<Pair>, roster: set<string>, mismatchRows: set<nat>, warnings: seq<string>)
    returns (mismatchRows': set<nat>, warnings': seq<string>)
    requires forall x :: x in mismatchRows ==> x < rowIndex
    modifies store
    ensures forall x :: x in mismatchRows' ==> x <= rowIndex
    ensures Acc(store.games, roster, warnings') == PairedRow(Acc(old(store.games), roster, warnings), row, rowIndex, pairs)
  {
    var gameName;
    gameName, mismatchRows', warnings' := ScanRow(row, rowIndex, pairs, mismatchRows, warnings);
    forall x | x in mismatchRows' ensures x <= rowIndex {
      if x != rowIndex {
        assert x in mismatchRows' - {rowIndex};
      }
    }
    ghost var scanned := ScanGame(row, pairs);
    assert gameName == scanned.0;
    assert warnings' == if scanned.1 then warnings + [MismatchWarning(rowIndex)] else warnings;
    if gameName != "" {
      warnings' := ScorePairs(store, row, gameName, pairs, warnings');
    }
  }

  /** `parsePairedPreferences`. */
  method ParsePairedPreferences(data: Data, warnings: seq<string>) returns (r: Option<Parsed>)
    ensures r.None? <==> ParsePaired(data, warnings).None?
    ensures r.Some? ==> Reports(r.value, ParsePaired(data, warnings).value)
  {
    var pairs := FindPairs(data.fields);
    if |pairs| < 1 {
      return None;
    }
    var playersSet: set<string> := {};
    var k := 0;
    while k < |pairs|
      invariant 0 <= k <= |pairs|
      invariant playersSet == PairPlayers(pairs[..k])
    {
      PairPlayersNext(pairs, k);
      playersSet := playersSet + {pairs[k].player};
      k := k + 1;
    }
    TakeAll(pairs, k);
    var store := new PreferenceStore();
    var mismatchRows: set<nat> := {};
    var ws := warnings;
    ghost var start := Acc(map[], playersSet, warnings);
    var rowIndex := 0;
    assert data.rows[..0] == [];
    while rowIndex < |data.rows|
      invariant 0 <= rowIndex <= |data.rows|
      invariant forall x :: x in mismatchRows ==> x < rowIndex
      invariant Acc(store.games, playersSet, ws) == PairedRows(start, data.rows[..rowIndex], pairs)
    {
      PairedRowsNext(start, data.rows, pairs, rowIndex);
      mismatchRows, ws := PairedRowStep(store, data.rows[rowIndex], rowIndex, pairs, playersSet, mismatchRows, ws);
      rowIndex := rowIndex + 1;
    }
    TakeAll(data.rows, rowIndex);
    var players := SortNames(playersSet);
    return Some(Parsed(store.games, players, ws));
  }

  lemma PairPlayersNext(pairs: seq<Pair>, k: nat)
    requires k < |pairs|
    ensures PairPlayers(pairs[..k + 1]) == PairPlayers(pairs[..k]) + {pairs[k].player}
  {
    assert pairs[..k + 1][..k] == pairs[..k];
  }

  lemma PairedRowsNext(acc: Acc, rows: seq<Row>, pairs: seq<Pair>, i: nat)
    requires i < |rows|
    ensures PairedRows(acc, rows[..i + 1], pairs) == PairedRow(PairedRows(acc, rows[..i], pairs), rows[i], i, pairs)
  {
    assert rows[..i + 1][..i] == rows[..i];
  }

  /** The long-format pass. */
  method LongPass(store: PreferenceStore, rows: seq<Row>, gf: string, pf: string, sf: string)
    returns (roster: set<string>, warnings: seq<string>)
    modifies store
    ensures Acc(store.games, roster, warnings) == LongRows(Acc(old(store.games), {}, []), rows, gf, pf, sf)
  {
    roster := {};
    warnings := [];
    var i := 0;
    while i < |rows|
      invariant 0 <= i <= |rows|
      invariant Acc(store.games, roster, warnings) == LongRows(Acc(old(store.games), {}, []), rows[..i], gf, pf, sf)
    {
      assert rows[..i + 1][..i] == rows[..i];
      var row := rows[i];
      var gameName := CleanValue(CellAt(row, gf));
      var playerName := CleanValue(CellAt(row, pf));
      if gameName != "" && playerName != "" {
        var (score, ws) := ParseScore(CellAt(row, sf), warnings, gameName, playerName);
        warnings := ws;
        store.AddPreference(gameName, playerName, score);
        roster := roster + {playerName};
      }
      i := i + 1;
    }
    TakeAll(rows, i);
  }

  /** The wide-format pass: players from the headers, then every row's score cells. */
  method WidePass(store: PreferenceStore, rows: seq<Row>, gf: string, playerFields: seq<string>, roster: set<string>, warnings: seq<string>)
    returns (roster': set<string>, warnings': seq<string>)
    modifies store
    ensures var cols := WideColumns(playerFields);
      Acc(store.games, roster', warnings') == WideRows(Acc(old(store.games), roster + ColumnPlayers(cols), warnings), rows, gf, cols)
  {
    roster' := roster;
    var j := 0;
    while j < |playerFields|
      invariant 0 <= j <= |playerFields|
      invariant roster' == roster + ColumnPlayers(WideColumns(playerFields[..j]))
    {
      assert playerFields[..j + 1][..j] == playerFields[..j];
      var cleanedPlayer := Trim(playerFields[j]);
      if cleanedPlayer != "" {
        roster' := roster' + {cleanedPlayer};
      }
      j := j + 1;
    }
    TakeAll(playerFields, j);
    ghost var cols := WideColumns(playerFields);
    ghost var start := Acc(old(store.games), roster', warnings);
    warnings' := warnings;
    var i := 0;
    while i < |rows|
      invariant 0 <= i <= |rows|
      invariant Acc(store.games, roster', warnings') == WideRows(start, rows[..i], gf, cols)
    {
      assert rows[..i + 1][..i] == rows[..i];
      warnings' := WideRowStep(store, rows[i], gf, playerFields, roster', warnings');
      i := i + 1;
    }
    TakeAll(rows, i);
  }

  /** One wide-format row: every non-blank player column's score under the row's game. */
  method WideRowStep(store: PreferenceStore, row: Row, gf: string, playerFields: seq<string>, roster: set<string>, warnings: seq<string>)
    returns (warnings': seq<string>)
    modifies store
    ensures Acc(store.games, roster, warnings') == WideRow(Acc(old(store.games), roster, warnings), row, gf, WideColumns(playerFields))
  {
    warnings' := warnings;
    var gameName := CleanValue(CellAt(row, gf));
    if gameName == "" {
      return;
    }
    var c := 0;
    while c < |playerFields|
      invariant 0 <= c <= |playerFields|
      invariant (store.games, warnings') == AddScores(old(store.games), warnings, row, gameName, WideColumns(playerFields[..c]))
    {
      assert playerFields[..c + 1][..c] == playerFields[..c];
      var playerName := Trim(playerFields[c]);
      if playerName != "" {
        var (score, ws) := ParseScore(CellAt(row, playerFields[c]), warnings', gameName, playerName);
        warnings' := ws;
        store.AddPreference(gameName, playerName, score);
      }
      c := c + 1;
    }
    TakeAll(playerFields, c);
  }

  /** `parsePreferencesData`. */
  method ParsePreferencesData(data: Data) returns (r: Result<Parsed, PrefError>)
    ensures r.Err? <==> ParsePreferences(data).Err?
    ensures r.Err? ==> r.error == ParsePreferences(data).error
    ensures r.Ok? ==> Reports(r.value, ParsePreferences(data).value)
  {
    var fields := data.fields;
    if |fields| == 0 {
      return Err(NoHeader);
    }
    var gameField := FindField(fields, GameCandidates);
    var playerField := FindField(fields, PlayerCandidates);
    var scoreField := FindField(fields, ScoreCandidates);
    var store := new PreferenceStore();
    var playersSet: set<string> := {};
    var warnings: seq<string> := [];
    if gameField.Some? && playerField.Some? && scoreField.Some? {
      playersSet, warnings := LongPass(store, data.rows, gameField.value, playerField.value, scoreField.value);
    } else {
      var paired := ParsePairedPreferences(data, warnings);
      if paired.Some? {
        PreferencesPaired(data);
        return Ok(paired.value);
      }
    }
    if gameField.None? {
      PreferencesNoGame(data);
      return Err(NoGameColumn);
    }
    ghost var afterLong := Acc(store.games, playersSet, warnings);
    PreferencesWide(data, afterLong);
    var playerFields := Without(fields, gameField.value);
    if |playerFields| == 0 {
      return Err(NoPlayerColumns);
    }
    playersSet, warnings := WidePass(store, data.rows, gameField.value, playerFields, playersSet, warnings);
    var players := SortNames(playersSet);
    return Ok(Parsed(store.games, players, warnings));
  }

  lemma PreferencesPaired(data: Data)
    requires |data.fields| > 0 && !IsLong(data) && ParsePaired(data, []).Some?
    ensures ParsePreferences(data) == Ok(ParsePaired(data, []).value)
  {
  }

  lemma PreferencesNoGame(data: Data)
    requires |data.fields| > 0 && GameField(data).None? && ParsePaired(data, []).None?
    ensures ParsePreferences(data) == Err(NoGameColumn)
  {
  }

  lemma PreferencesWide(data: Data, acc: Acc)
    requires |data.fields| > 0 && GameField(data).Some? && (IsLong(data) || ParsePaired(data, []).None?)
    requires acc == if IsLong(data)
      then LongRows(Acc(map[], {}, []), data.rows, GameField(data).value, PlayerField(data).value, ScoreField(data).value)
      else Acc(map[], {}, [])
    ensures ParsePreferences(data) == WideContinue(acc, data, GameField(data).value)
  {
  }
}
