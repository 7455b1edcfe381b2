/**
 * The generic table the parsers consume (ordered field names plus rows keyed by field
 * name), cell cleaning and header lookup by synonym list.
 */
module Table {
  import opened Text

  /** What JavaScript's `Number(v)` gives for a cell: a finite number or not. */
  datatype Numeric = NotFinite | Finite(value: int)

  /**
   * A raw cell: absent (`null` or `undefined`), or a present value given by its text
   * (`String(v)`) and its numeric reading (`Number(v)`).
   */
  datatype Cell = Missing | Value(text: string, number: Numeric)

  type Row = map<string, Cell>

  datatype Data = Data(fields: seq<string>, rows: seq<Row>)

  /** `row[field]`: an absent key reads as `undefined`. */
  function CellAt(row: Row, field: string): (c: Cell)
    ensures field !in row ==> c == Missing
  {
    if field in row then row[field] else Missing
  }

  /** `cleanValue`: absent cells are "", anything else is its text trimmed. */
  function CleanValue(c: Cell): (r: string)
    ensures Trimmed(r)
    ensures c.Missing? ==> r == ""
    ensures c.Value? ==> r == Trim(c.text)
  {
    match c
    case Missing => ""
    case Value(t, _) => TrimIsTrimmed(t); Trim(t)
  }

  /** Cleaning a cleaned value again changes nothing. */
  lemma CleanValueIdempotent(c: Cell, n: Numeric)
    ensures CleanValue(Value(CleanValue(c), n)) == CleanValue(c)
  {
    TrimOfTrimmed(CleanValue(c));
  }

  const GameCandidates: seq<string> := ["game", "game_name", "game name", "title"]
  const PlayerCandidates: seq<string> := ["player", "player_name", "player name", "person"]
  const ScoreCandidates: seq<string> := ["score", "rating", "weight", "preference", "pref"]
  const MinCandidates: seq<string> := ["min_players", "min players", "min", "minimum", "minplayers"]
  const MaxCandidates: seq<string> := ["max_players", "max players", "max", "maximum", "maxplayers"]
  const IdealMinCandidates: seq<string> := ["ideal_min", "ideal min", "best_min", "idealmin"]
  const IdealMaxCandidates: seq<string> := ["ideal_max", "ideal max", "best_max", "idealmax"]
  const OnlineCapCandidates: seq<string> := ["online_cap", "online cap", "online_max", "onlinecap"]
  const NotesCandidates: seq<string> := ["notes", "note", "comment"]

  /** No candidate is the empty string. */
  predicate NoBlank(candidates: seq<string>)
  {
    forall i :: 0 <= i < |candidates| ==> candidates[i] != ""
  }

  lemma CandidateListsHaveNoBlank()
    ensures NoBlank(GameCandidates) && NoBlank(PlayerCandidates) && NoBlank(ScoreCandidates)
    ensures NoBlank(MinCandidates) && NoBlank(MaxCandidates) && NoBlank(IdealMinCandidates)
    ensures NoBlank(IdealMaxCandidates) && NoBlank(OnlineCapCandidates) && NoBlank(NotesCandidates)
  {
  }

  /**
   * A map from `key(x)` to the last `x` in `xs` with that key: what filling a `Map` by
   * `lookup.set(key(x), x)` for each `x` in order leaves behind.
   */
  function LastByKey<K(==)>(xs: seq<string>, key: string -> K): (m: map<K, string>)
    ensures forall x :: x in xs ==> key(x) in m
    ensures forall k :: k in m ==> key(m[k]) == k
  {
    if |xs| == 0 then map[]
    else
      var init := xs[..|xs| - 1];
      var last := xs[|xs| - 1];
      assert forall x :: x in xs ==> x in init || x == last;
      LastByKey(init, key)[key(last) := last]
  }

  predicate LaterKeysDiffer<K(==)>(xs: seq<string>, key: string -> K, i: nat, k: K)
  {
    forall j :: i < j < |xs| ==> key(xs[j]) != k
  }

  /** The element a key maps to is the last element with that key. */
  lemma {:induction false} LastByKeyIsLast<K>(xs: seq<string>, key: string -> K, k: K) returns (i: nat)
    requires k in LastByKey(xs, key)
    ensures i < |xs| && xs[i] == LastByKey(xs, key)[k] && LaterKeysDiffer(xs, key, i, k)
    decreases |xs|
  {
    assert xs != [];
    var init := xs[..|xs| - 1];
    if key(xs[|xs| - 1]) == k {
      i := |xs| - 1;
    } else {
      assert k in LastByKey(init, key);
      i := LastByKeyIsLast(init, key, k);
      forall j | i < j < |xs| ensures key(xs[j]) != k {
        if j < |init| { assert xs[j] == init[j]; }
      }
    }
  }

  /**
   * The lookup `findField` builds: normalised header to raw field; when two fields
   * share a normalised header, the later one wins.
   */
  function HeaderLookup(fields: seq<string>): (m: map<string, string>)
    ensures forall f :: f in fields ==> NormalizeHeader(f) in m
    ensures forall k :: k in m ==> NormalizeHeader(m[k]) == k
  {
    LastByKey(fields, NormalizeHeader)
  }

  lemma HeaderLookupLast(fields: seq<string>, k: string)
    requires k in HeaderLookup(fields)
    ensures exists i ::
      0 <= i < |fields| && fields[i] == HeaderLookup(fields)[k] && LaterKeysDiffer(fields, NormalizeHeader, i, k)
  {
    var i := LastByKeyIsLast(fields, NormalizeHeader, k);
  }

  function FirstCandidate(lookup: map<string, string>, candidates: seq<string>): (r: Option<string>)
    ensures r.Some? ==>
      exists i :: 0 <= i < |candidates| && candidates[i] in lookup && r.value == lookup[candidates[i]] &&
        r.value != "" && forall i' :: 0 <= i' < i ==> candidates[i'] !in lookup || lookup[candidates[i']] == ""
    ensures r.None? ==> forall i :: 0 <= i < |candidates| ==> candidates[i] !in lookup || lookup[candidates[i]] == ""
  {
    if |candidates| == 0 then None
    else if candidates[0] in lookup && lookup[candidates[0]] != "" then Some(lookup[candidates[0]])
    else
      var r := FirstCandidate(lookup, candidates[1..]);
      assert forall i :: 0 < i < |candidates| ==> candidates[i] == candidates[1..][i - 1];
      r
  }

  /** `findField`. */
  function FindField(fields: seq<string>, candidates: seq<string>): Option<string>
  {
    FirstCandidate(HeaderLookup(fields), candidates)
  }

  /**
   * What `findField` finds: the field whose normalised header is the earliest
   * candidate present (the last such field when several share that header), or none
   * when no field's header is a candidate.
   */
  lemma FindFieldSpec(fields: seq<string>, candidates: seq<string>)
    requires NoBlank(candidates)
    ensures var r := FindField(fields, candidates);
      && (r.Some? ==> r.value in fields && NormalizeHeader(r.value) in candidates)
      && (r.Some? ==> forall j :: 0 <= j < |fields| && NormalizeHeader(fields[j]) == NormalizeHeader(r.value) ==>
            (exists i :: 0 <= i < |fields| && fields[i] == r.value && j <= i))
      && (r.Some? ==> forall i', j :: 0 <= i' < |candidates| && 0 <= j < |fields| && candidates[i'] == NormalizeHeader(fields[j]) ==>
            (exists i :: 0 <= i < |candidates| && candidates[i] == NormalizeHeader(r.value) && i <= i'))
      && (r.None? <==> forall j :: 0 <= j < |fields| ==> NormalizeHeader(fields[j]) !in candidates)
  {
    var lookup := HeaderLookup(fields);
    LookupValuesNonEmpty(fields);
    var r := FirstCandidate(lookup, candidates);
    if r.Some? {
      HeaderLookupLast(fields, NormalizeHeader(r.value));
    }
  }

  /** A found field is one of the fields and its header is one of the candidates. */
  lemma FindFieldFound(fields: seq<string>, candidates: seq<string>)
    requires NoBlank(candidates)
    ensures FindField(fields, candidates).Some? ==>
      FindField(fields, candidates).value in fields && NormalizeHeader(FindField(fields, candidates).value) in candidates
  {
    FindFieldSpec(fields, candidates);
  }

  lemma LookupValuesNonEmpty(fields: seq<string>)
    ensures forall k :: k in HeaderLookup(fields) && k != "" ==> HeaderLookup(fields)[k] != ""
  {
  }
}
