/**
 * Game rules: the rule record both rule parsers produce, and the table-shaped
 * parser (`parseRulesData`) that reads one rule per row of a gameRules sheet.
 */
module Rules {
  import opened Text
  import opened Table

  /** A player-count ceiling: a number, or `Infinity` when there is none. */
  datatype Bound = AtMost(limit: int) | Unbounded

  /** `a <= b` on ceilings, `Infinity` being the largest. */
  predicate BoundLe(a: Bound, b: Bound)
  {
    b.Unbounded? || (a.AtMost? && a.limit <= b.limit)
  }

  /** `Math.min(b, v)`. */
  function MinBound(b: Bound, v: int): (r: Bound)
    ensures r.AtMost? && r.limit <= v
    ensures BoundLe(r, b)
    ensures r == b || r == AtMost(v)
  {
    if b.AtMost? && b.limit <= v then b else AtMost(v)
  }

  /** `count <= max`. */
  predicate WithinBound(count: int, b: Bound)
  {
    b.Unbounded? || count <= b.limit
  }

  /**
   * One game's rule. The table parser fills the numeric fields from columns; the text
   * parser starts from the defaults and tightens them sentence by sentence.
   */
  datatype Rule = Rule(
    name: string,
    minPlayers: int,
    maxPlayers: Bound,
    idealMin: Option<int>,
    idealMax: Option<int>,
    onlineCap: Option<int>,
    notes: string,
    allowedCounts: set<int>,
    disallowedCounts: set<int>,
    rangeAllowed: bool)

  /** The `rules` map: game key to rule. */
  type RuleMap = map<string, Rule>

  /** What both rule parsers return. */
  datatype RulesParsed = RulesParsed(rules: RuleMap, warnings: seq<string>)

  // ---------------------------------------------------------------------------
  // Cell reading.

  /**
   * `parseNumber(value, fallback)`: the cell's number, or the fallback when the cell
   * is absent, is exactly the empty string, or does not read as a finite number.
   * (A cell of only spaces is not the empty string, and it reads as 0.)
   */
  function ParseNumber(c: Cell, fallback: Option<int>): (r: Option<int>)
    ensures c.Missing? || c.text == "" || c.number.NotFinite? ==> r == fallback
    ensures c.Value? && c.text != "" && c.number.Finite? ==> r == Some(c.number.value)
    ensures r != fallback ==> c.Value? && c.number.Finite? && r == Some(c.number.value)
  {
    if c.Missing? || c.text == "" then fallback
    else if c.number.NotFinite? then fallback
    else Some(c.number.value)
  }

  /** `parseNumber(value, 1)`. */
  function ParseMin(c: Cell): (n: int)
    ensures c.Missing? || c.text == "" || c.number.NotFinite? ==> n == 1
    ensures c.Value? && c.text != "" && c.number.Finite? ==> n == c.number.value
    ensures n != 1 ==> c.Value? && c.number == Finite(n)
  {
    ParseNumber(c, Some(1)).value
  }

  /** `parseNumber(value, Infinity)`. */
  function ParseMax(c: Cell): (b: Bound)
    ensures c.Missing? || c.text == "" || c.number.NotFinite? ==> b == Unbounded
    ensures c.Value? && c.text != "" && c.number.Finite? ==> b == AtMost(c.number.value)
    ensures b.AtMost? ==> c.Value? && c.number == Finite(b.limit)
  {
    match ParseNumber(c, None)
    case None => Unbounded
    case Some(n) => AtMost(n)
  }

  // ---------------------------------------------------------------------------
  // The table path.

  /** The columns `findField` picked; only the game column is required. */
  datatype RuleColumns = RuleColumns(
    game: string,
    min: Option<string>,
    max: Option<string>,
    idealMin: Option<string>,
    idealMax: Option<string>,
    online: Option<string>,
    notes: Option<string>)

  /** `row[field]`; a column that was not found is `null`, which reads the property "null". */
  function FieldCell(row: Row, field: Option<string>): Cell
  {
    CellAt(row, match field case Some(f) => f case None => "null")
  }

  /**
   * The rule one row describes, or nothing when its game cell is blank: the name is
   * the cleaned game cell and every numeric field is read from its own column.
   */
  function RowRule(cols: RuleColumns, row: Row): (r: Option<Rule>)
    ensures r.Some? <==> CleanValue(CellAt(row, cols.game)) != ""
    ensures r.Some? ==> r.value.name == CleanValue(CellAt(row, cols.game))
    ensures r.Some? ==> r.value.name != "" && Trimmed(r.value.name)
    ensures r.Some? ==>
      && r.value.minPlayers == ParseMin(FieldCell(row, cols.min))
      && r.value.maxPlayers == ParseMax(FieldCell(row, cols.max))
      && r.value.idealMin == ParseNumber(FieldCell(row, cols.idealMin), None)
      && r.value.idealMax == ParseNumber(FieldCell(row, cols.idealMax), None)
      && r.value.onlineCap == ParseNumber(FieldCell(row, cols.online), None)
    ensures r.Some? ==> r.value.allowedCounts == {} && r.value.disallowedCounts == {} && !r.value.rangeAllowed
  {
    var gameName := CleanValue(CellAt(row, cols.game));
    if gameName == "" then None
    else
      Some(Rule(
        gameName,
        ParseMin(FieldCell(row, cols.min)),
        ParseMax(FieldCell(row, cols.max)),
        ParseNumber(FieldCell(row, cols.idealMin), None),
        ParseNumber(FieldCell(row, cols.idealMax), None),
        ParseNumber(FieldCell(row, cols.online), None),
        if cols.notes.Some? then CleanValue(CellAt(row, cols.notes.value)) else "",
        {}, {}, false))
  }

  /** Minimum above a finite maximum: the one inconsistency the table parser reports. */
  predicate RangeInverted(r: Rule)
  {
    r.maxPlayers.AtMost? && r.minPlayers > r.maxPlayers.limit
  }

  function RangeWarning(gameName: string): string
  {
    "Rule issue for " + gameName + ": min_players is greater than max_players."
  }

  /** The key a rule is stored under. */
  function RuleKey(r: Rule): string
  {
    NormalizeName(r.name)
  }

  /** `rules.set(normalizeName(gameName), rule)` plus the range warning, for one row. */
  function AddRowRule(acc: RulesParsed, o: Option<Rule>): RulesParsed
  {
    match o
    case None => acc
    case Some(r) =>
      RulesParsed(
        acc.rules[RuleKey(r) := r],
        acc.warnings + (if RangeInverted(r) then [RangeWarning(r.name)] else []))
  }

  /** The map and warnings after the rows whose readings are `os`, in order. */
  function FoldRows(os: seq<Option<Rule>>): RulesParsed
  {
    if os == [] then RulesParsed(map[], [])
    else AddRowRule(FoldRows(os[..|os| - 1]), os[|os| - 1])
  }

  /** What each row reads as. */
  function RowRules(cols: RuleColumns, rows: seq<Row>): (os: seq<Option<Rule>>)
    ensures |os| == |rows| && forall i :: 0 <= i < |rows| ==> os[i] == RowRule(cols, rows[i])
  {
    seq(|rows|, i requires 0 <= i < |rows| => RowRule(cols, rows[i]))
  }

  function TableRules(cols: RuleColumns, rows: seq<Row>): RulesParsed
  {
    FoldRows(RowRules(cols, rows))
  }

  datatype RuleError = NoRulesHeader | NoGameColumn

  function RuleErrorMessage(e: RuleError): string
  {
    match e
    case NoRulesHeader => "No header row found for game rules."
    case NoGameColumn => "Rules must include a game column."
  }

  function Columns(fields: seq<string>, game: string): RuleColumns
  {
    RuleColumns(
      game,
      FindField(fields, MinCandidates),
      FindField(fields, MaxCandidates),
      FindField(fields, IdealMinCandidates),
      FindField(fields, IdealMaxCandidates),
      FindField(fields, OnlineCapCandidates),
      FindField(fields, NotesCandidates))
  }

  /** `parseRulesData` as a function of the table. */
  function RulesTable(data: Data): Result<RulesParsed, RuleError>
  {
    if data.fields == [] then Err(NoRulesHeader)
    else
      match FindField(data.fields, GameCandidates)
      case None => Err(NoGameColumn)
      case Some(g) => Ok(TableRules(Columns(data.fields, g), data.rows))
  }

  /** The two fatal errors, each exactly when its condition holds. */
  lemma RulesTableErrors(data: Data)
    ensures RulesTable(data) == Err(NoRulesHeader) <==> data.fields == []
    ensures RulesTable(data) == Err(NoGameColumn) <==>
      data.fields != [] && forall j :: 0 <= j < |data.fields| ==> NormalizeHeader(data.fields[j]) !in GameCandidates
    ensures RulesTable(data).Err? ==> RulesTable(data) == Err(NoRulesHeader) || RulesTable(data) == Err(NoGameColumn)
  {
    CandidateListsHaveNoBlank();
    FindFieldSpec(data.fields, GameCandidates);
  }

  /** A rule read from a row, stored under its key. */
  predicate StoredRule(k: string, r: Rule)
  {
    && r.name != "" && Trimmed(r.name) && k == NormalizeName(r.name) && k != ""
    && r.allowedCounts == {} && r.disallowedCounts == {} && !r.rangeAllowed
  }

  /** What `RowRule` guarantees of every rule it reads. */
  predicate ReadRule(r: Rule)
  {
    r.name != "" && Trimmed(r.name) && r.allowedCounts == {} && r.disallowedCounts == {} && !r.rangeAllowed
  }

  lemma {:induction false} FoldRowsFacts(os: seq<Option<Rule>>)
    requires forall i :: 0 <= i < |os| && os[i].Some? ==> ReadRule(os[i].value)
    ensures var p := FoldRows(os);
      && (forall k :: k in p.rules ==> StoredRule(k, p.rules[k]))
      && (forall k :: k in p.rules && RangeInverted(p.rules[k]) ==> RangeWarning(p.rules[k].name) in p.warnings)
      && |p.warnings| <= |os|
  {
    if os != [] {
      FoldRowsFacts(os[..|os| - 1]);
      var o := os[|os| - 1];
      if o.Some? {
        NormalizeNameEmpty(o.value.name);
        TrimOfTrimmed(o.value.name);
      }
    }
  }

  /**
   * Every rule the table gives is keyed by its normalised, non-empty name, carries the
   * row's cleaned name, and has no explicit count sets; every inverted range among the
   * stored rules was reported, and there is at most one warning per row.
   */
  lemma TableRulesFacts(cols: RuleColumns, rows: seq<Row>)
    ensures var p := TableRules(cols, rows);
      && (forall k :: k in p.rules ==> StoredRule(k, p.rules[k]))
      && (forall k :: k in p.rules && RangeInverted(p.rules[k]) ==> RangeWarning(p.rules[k].name) in p.warnings)
      && |p.warnings| <= |rows|
  {
    FoldRowsFacts(RowRules(cols, rows));
  }

  /** Reading `o` stores a rule under `k`. */
  predicate HasKey(o: Option<Rule>, k: string)
  {
    o.Some? && RuleKey(o.value) == k
  }

  lemma {:induction false} FoldRowsKeys(os: seq<Option<Rule>>, k: string)
    ensures k in FoldRows(os).rules <==> exists i :: 0 <= i < |os| && HasKey(os[i], k)
  {
    if os != [] {
      var init := os[..|os| - 1];
      FoldRowsKeys(init, k);
      assert forall i :: 0 <= i < |init| ==> init[i] == os[i];
    }
  }

  /** A key is in the map exactly when some row yields a rule with that key. */
  lemma TableRulesKeys(cols: RuleColumns, rows: seq<Row>, k: string)
    ensures k in TableRules(cols, rows).rules <==> exists i :: 0 <= i < |rows| && HasKey(RowRule(cols, rows[i]), k)
  {
    FoldRowsKeys(RowRules(cols, rows), k);
  }

  lemma {:induction false} FoldRowsLast(os: seq<Option<Rule>>, k: string) returns (i: nat)
    requires k in FoldRows(os).rules
    ensures i < |os| && os[i] == Some(FoldRows(os).rules[k])
    ensures forall j :: i < j < |os| ==> !HasKey(os[j], k)
  {
    var init := os[..|os| - 1];
    if HasKey(os[|os| - 1], k) {
      i := |os| - 1;
    } else {
      i := FoldRowsLast(init, k);
      assert forall j :: i < j < |init| ==> init[j] == os[j];
    }
  }

  /** The rule stored under a key is the one from the last row yielding that key. */
  lemma TableRulesLastRowWins(cols: RuleColumns, rows: seq<Row>, k: string) returns (i: nat)
    requires k in TableRules(cols, rows).rules
    ensures i < |rows| && RowRule(cols, rows[i]) == Some(TableRules(cols, rows).rules[k])
    ensures forall j :: i < j < |rows| ==> !HasKey(RowRule(cols, rows[j]), k)
  {
    i := FoldRowsLast(RowRules(cols, rows), k);
  }

  /** `parseRulesData`: one pass over the rows filling a `Map`. */
  method ParseRulesData(data: Data) returns (r: Result<RulesParsed, RuleError>)
    ensures r == RulesTable(data)
  {
    var fields := data.fields;
    if fields == [] {
      return Err(NoRulesHeader);
    }
    var gameField := FindField(fields, GameCandidates);
    if gameField.None? {
      return Err(NoGameColumn);
    }
    var cols := Columns(fields, gameField.value);
    var parsed := ReadRuleRows(cols, data.rows);
    RulesTableOk(data, gameField.value);
    return Ok(parsed);
  }

  /** The row loop of `parseRulesData`: each named row's rule replaces any earlier one for its key. */
  method ReadRuleRows(cols: RuleColumns, rows: seq<Row>) returns (p: RulesParsed)
    ensures p == TableRules(cols, rows)
  {
    var rules: RuleMap := map[];
    var warnings: seq<string> := [];
    ghost var os := RowRules(cols, rows);
    var i := 0;
    while i < |rows|
      invariant i <= |rows|
      invariant rules == FoldRows(os[..i]).rules
      invariant warnings == FoldRows(os[..i]).warnings
    {
      FoldRowsNext(os, i);
      var rule := RowRule(cols, rows[i]);
      assert rule == os[i];
      if rule.Some? {
        var rv := rule.value;
        if RangeInverted(rv) {
          warnings := warnings + [RangeWarning(rv.name)];
        }
        rules := rules[NormalizeName(rv.name) := rv];
      }
      i := i + 1;
    }
    TakeAll(os, i);
    return RulesParsed(rules, warnings);
  }

  lemma RulesTableOk(data: Data, g: string)
    requires data.fields != [] && FindField(data.fields, GameCandidates) == Some(g)
    ensures RulesTable(data) == Ok(TableRules(Columns(data.fields, g), data.rows))
  {
  }

  lemma FoldRowsNext(os: seq<Option<Rule>>, i: nat)
    requires i < |os|
    ensures FoldRows(os[..i + 1]) == AddRowRule(FoldRows(os[..i]), os[i])
  {
    assert os[..i + 1][..i] == os[..i];
  }
}
