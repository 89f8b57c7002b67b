/**
 * A county (name, state, fips code), the sentinel county of a failed lookup,
 * and the two CSV lookups keyed by fips: the severity score, searched in the
 * updated percentile table and then the backup table, and the population.
 * The CSV files are given as sequences of rows whose first row is the header;
 * a file that cannot be opened is `None`.
 */
module CountyData {
  import opened Optional

  datatype County = County(countyName: string, stateName: string, countyFips: string)

  /** What a county lookup produced, with an explicit flag for the failure path. */
  datatype CountyLookup = CountyLookup(county: County, failed: bool)

  type Row = seq<string>
  type Table = seq<Row>

  /** The outcome of scanning a table: the cell of the first matching row, no match, or an exception. */
  datatype Scan = Found(cell: string) | NotFound | Failed

  const IntMin: int := -0x8000_0000
  const IntMax: int := 0x7FFF_FFFF
  const LongMin: int := -0x8000_0000_0000_0000
  const LongMax: int := 0x7FFF_FFFF_FFFF_FFFF

  /** The score of a county that no table can rate. */
  const NeutralScore: real := 5.0

  // Columns of the percentile tables and of the population table.
  const PercentileFipsColumn: nat := 0
  const PercentileValueColumn: nat := 1
  const PopulationFipsColumn: nat := 3
  const PopulationValueColumn: nat := 2

  /**
   * The county of a store given the answer of the census-area service, or the
   * sentinel county with three empty fields when the call or its parsing failed.
   */
  function GetCounty(response: Option<County>): (lookup: CountyLookup)
    ensures lookup.failed <==> response.None?
    ensures lookup.failed ==> lookup.county == County("", "", "")
    ensures !lookup.failed ==> lookup.county == response.value
  {
    match response
    case None => CountyLookup(County("", "", ""), true)
    case Some(c) => CountyLookup(c, false)
  }

  // ---------------------------------------------------------------------------
  // Integer parsing (Integer.parseInt and Long.parseLong on ASCII digits)
  // ---------------------------------------------------------------------------

  predicate AllDigits(s: string) {
    forall k :: 0 <= k < |s| ==> '0' <= s[k] <= '9'
  }

  function DigitsValue(s: string): nat
    requires AllDigits(s)
  {
    if s == [] then 0 else DigitsValue(s[..|s| - 1]) * 10 + (s[|s| - 1] as int - '0' as int)
  }

  /** An optional sign and at least one decimal digit, within [lo, hi]; otherwise a parse failure. */
  function ParseInteger(s: string, lo: int, hi: int): (r: Option<int>)
    ensures r.Some? ==> lo <= r.value <= hi
  {
    if |s| == 0 then None
    else
      var digits := if s[0] == '-' || s[0] == '+' then s[1..] else s;
      if |digits| == 0 || !AllDigits(digits) then None
      else
        var v: int := if s[0] == '-' then 0 - DigitsValue(digits) as int else DigitsValue(digits);
        if lo <= v <= hi then Some(v) else None
  }

  function ParseInt(s: string): Option<int> {
    ParseInteger(s, IntMin, IntMax)
  }

  function ParseLong(s: string): Option<int> {
    ParseInteger(s, LongMin, LongMax)
  }

  lemma {:induction false} LeadingZeroDigits(d: string)
    requires AllDigits(d)
    ensures AllDigits("0" + d) && DigitsValue("0" + d) == DigitsValue(d)
  {
    var z := "0" + d;
    if d != [] {
      var init := d[..|d| - 1];
      assert z[..|z| - 1] == "0" + init;
      LeadingZeroDigits(init);
    } else {
      assert z[..|z| - 1] == [];
    }
  }

  /** A leading zero does not change the number: "01001" and "1001" are the same fips. */
  lemma LeadingZeroIgnored(d: string)
    requires |d| > 0 && AllDigits(d)
    ensures ParseInt("0" + d) == ParseInt(d)
  {
    LeadingZeroDigits(d);
    var z := "0" + d;
    assert z[0] == '0';
  }

  lemma FipsWithLeadingZero()
    ensures ParseInt("01001") == ParseInt("1001") == Some(1001)
  {
    LeadingZeroIgnored("1001");
    assert "0" + "1001" == "01001";
    assert "1001"[..3] == "100" && "100"[..2] == "10" && "10"[..1] == "1" && "1"[..0] == "";
    assert DigitsValue("1001") == 1001;
  }

  // ---------------------------------------------------------------------------
  // Table search
  // ---------------------------------------------------------------------------

  /** The key of a row: column `keyCol` parsed as an int; a missing column or bad number is a failure. */
  function RowKey(row: Row, keyCol: nat): Option<int> {
    if keyCol < |row| then ParseInt(row[keyCol]) else None
  }

  /**
   * Rows i, i+1, ... in order: a fips or key that does not parse is an
   * exception; the first row whose key equals the fips yields its value cell.
   */
  function ScanFrom(rows: Table, i: nat, fips: string, keyCol: nat, valCol: nat): Scan
    decreases |rows| - i
  {
    if i >= |rows| then NotFound
    else
      var f := ParseInt(fips);
      var k := RowKey(rows[i], keyCol);
      if f.None? || k.None? then Failed
      else if f.value == k.value then
        (if valCol < |rows[i]| then Found(rows[i][valCol]) else Failed)
      else ScanFrom(rows, i + 1, fips, keyCol, valCol)
  }

  /** The search over a table after its header row. */
  function SearchTable(rows: Table, fips: string, keyCol: nat, valCol: nat): Scan {
    ScanFrom(rows, 1, fips, keyCol, valCol)
  }

  /** Row j is the first row from i whose key equals the fips: every earlier row has a key that parses and differs. */
  predicate IsFirstMatch(rows: Table, i: nat, j: nat, fips: string, keyCol: nat) {
    && i <= j < |rows|
    && ParseInt(fips).Some?
    && RowKey(rows[j], keyCol) == ParseInt(fips)
    && forall m :: i <= m < j ==> RowKey(rows[m], keyCol).Some? && RowKey(rows[m], keyCol) != ParseInt(fips)
  }

  /** A scan finds a cell exactly when some row is the first match and has the value column. */
  lemma {:induction false} ScanFoundIsFirstMatch(rows: Table, i: nat, fips: string, keyCol: nat, valCol: nat)
    requires ScanFrom(rows, i, fips, keyCol, valCol).Found?
    ensures exists j: nat :: IsFirstMatch(rows, i, j, fips, keyCol) && valCol < |rows[j]|
                        && ScanFrom(rows, i, fips, keyCol, valCol).cell == rows[j][valCol]
    decreases |rows| - i
  {
    var f := ParseInt(fips);
    var k := RowKey(rows[i], keyCol);
    if f.value == k.value {
      assert IsFirstMatch(rows, i, i, fips, keyCol);
    } else {
      ScanFoundIsFirstMatch(rows, i + 1, fips, keyCol, valCol);
      var j: nat :| IsFirstMatch(rows, i + 1, j, fips, keyCol) && valCol < |rows[j]|
               && ScanFrom(rows, i + 1, fips, keyCol, valCol).cell == rows[j][valCol];
      assert IsFirstMatch(rows, i, j, fips, keyCol);
    }
  }

  /** The first matching row decides the scan: its value cell, or a failure when it has no value column. */
  lemma {:induction false} FirstMatchIsFound(rows: Table, i: nat, j: nat, fips: string, keyCol: nat, valCol: nat)
    requires IsFirstMatch(rows, i, j, fips, keyCol)
    ensures ScanFrom(rows, i, fips, keyCol, valCol) == if valCol < |rows[j]| then Found(rows[j][valCol]) else Failed
    decreases j - i
  {
    if i < j {
      assert RowKey(rows[i], keyCol).Some? && RowKey(rows[i], keyCol) != ParseInt(fips);
      FirstMatchIsFound(rows, i + 1, j, fips, keyCol, valCol);
    }
  }

  /** A row whose key is missing or not a number, reached before any match, makes the scan fail. */
  lemma {:induction false} ScanFailsAtBadRow(rows: Table, i: nat, j: nat, fips: string, keyCol: nat, valCol: nat)
    requires i <= j < |rows| && RowKey(rows[j], keyCol).None?
    requires forall m :: i <= m < j ==> RowKey(rows[m], keyCol).Some? && RowKey(rows[m], keyCol) != ParseInt(fips)
    ensures ScanFrom(rows, i, fips, keyCol, valCol) == Failed
    decreases j - i
  {
    if i < j {
      ScanFailsAtBadRow(rows, i + 1, j, fips, keyCol, valCol);
    }
  }

  /** No match at all exactly when every row from i on has a key that parses and differs from the fips. */
  lemma {:induction false} NotFoundIffNoMatch(rows: Table, i: nat, fips: string, keyCol: nat, valCol: nat)
    ensures ScanFrom(rows, i, fips, keyCol, valCol) == NotFound <==>
      forall m :: i <= m < |rows| ==>
        ParseInt(fips).Some? && RowKey(rows[m], keyCol).Some? && RowKey(rows[m], keyCol) != ParseInt(fips)
    decreases |rows| - i
  {
    if i < |rows| {
      NotFoundIffNoMatch(rows, i + 1, fips, keyCol, valCol);
    }
  }

  /** The scan loop: reads the rows after the header, one by one, until the first match. */
  method FindRow(rows: Table, fips: string, keyCol: nat, valCol: nat) returns (result: Scan)
    ensures result == SearchTable(rows, fips, keyCol, valCol)
    ensures result.Found? ==> exists j: nat :: IsFirstMatch(rows, 1, j, fips, keyCol) && valCol < |rows[j]| && result.cell == rows[j][valCol]
  {
    var i := 1;
    while i < |rows|
      invariant 1 <= i
      invariant ScanFrom(rows, i, fips, keyCol, valCol) == SearchTable(rows, fips, keyCol, valCol)
      decreases |rows| - i
    {
      var nextLine := rows[i];
      var f := ParseInt(fips);
      if f.None? || keyCol >= |nextLine| {
        return Failed;
      }
      var k := ParseInt(nextLine[keyCol]);
      if k.None? {
        return Failed;
      }
      if f.value == k.value {
        if valCol >= |nextLine| {
          return Failed;
        }
        result := Found(nextLine[valCol]);
        ScanFoundIsFirstMatch(rows, 1, fips, keyCol, valCol);
        return;
      }
      i := i + 1;
    }
    return NotFound;
  }

  // ---------------------------------------------------------------------------
  // County score
  // ---------------------------------------------------------------------------

  /** Ten times the parsed percentile, or the neutral score when the cell is not a number. */
  function ScoreOfCell(cell: string, parseDouble: string -> Option<real>): real {
    match parseDouble(cell)
    case Some(x) => x * 10.0
    case None => NeutralScore
  }

  /**
   * The county score: the first match in the updated table, else the first
   * match in the backup table, else 5.0; an unopenable file or any parse
   * failure gives 5.0 at once.
   */
  function CountyScore(fips: string, updated: Option<Table>, backup: Option<Table>,
                       parseDouble: string -> Option<real>): real
  {
    if updated.None? then NeutralScore
    else match SearchTable(updated.value, fips, PercentileFipsColumn, PercentileValueColumn)
      case Failed => NeutralScore
      case Found(cell) => ScoreOfCell(cell, parseDouble)
      case NotFound =>
        if backup.None? then NeutralScore
        else match SearchTable(backup.value, fips, PercentileFipsColumn, PercentileValueColumn)
          case Found(cell) => ScoreOfCell(cell, parseDouble)
          case _ => NeutralScore
  }

  /** Searches the updated percentile table, then the backup table, and falls back to 5.0. */
  method GetCountyScore(county: County, updated: Option<Table>, backup: Option<Table>,
                        parseDouble: string -> Option<real>) returns (score: real)
    ensures score == CountyScore(county.countyFips, updated, backup, parseDouble)
  {
    if updated.None? {
      return NeutralScore;
    }
    var result := FindRow(updated.value, county.countyFips, PercentileFipsColumn, PercentileValueColumn);
    if result.Failed? {
      return NeutralScore;
    }
    if result.Found? {
      var x := parseDouble(result.cell);
      if x.None? {
        return NeutralScore;
      }
      return x.value * 10.0;
    }
    if backup.None? {
      return NeutralScore;
    }
    result := FindRow(backup.value, county.countyFips, PercentileFipsColumn, PercentileValueColumn);
    if result.Found? {
      var x := parseDouble(result.cell);
      if x.None? {
        return NeutralScore;
      }
      return x.value * 10.0;
    }
    return NeutralScore;
  }

  /** The first matching row after the header of the updated table decides the score. */
  lemma ScoreFromFirstUpdatedMatch(fips: string, updated: Table, backup: Option<Table>,
                                   parseDouble: string -> Option<real>, j: nat, x: real)
    requires IsFirstMatch(updated, 1, j, fips, PercentileFipsColumn)
    requires PercentileValueColumn < |updated[j]| && parseDouble(updated[j][PercentileValueColumn]) == Some(x)
    ensures CountyScore(fips, Some(updated), backup, parseDouble) == x * 10.0
  {
    FirstMatchIsFound(updated, 1, j, fips, PercentileFipsColumn, PercentileValueColumn);
  }

  /** The backup table is consulted only when no row of the updated table matches. */
  lemma BackupOnlyWithoutUpdatedMatch(fips: string, updated: Option<Table>, backup1: Option<Table>,
                                      backup2: Option<Table>, parseDouble: string -> Option<real>)
    requires CountyScore(fips, updated, backup1, parseDouble) != CountyScore(fips, updated, backup2, parseDouble)
    ensures updated.Some?
    ensures forall m :: 1 <= m < |updated.value| ==>
      RowKey(updated.value[m], PercentileFipsColumn).Some? &&
      RowKey(updated.value[m], PercentileFipsColumn) != ParseInt(fips)
  {
    NotFoundIffNoMatch(updated.value, 1, fips, PercentileFipsColumn, PercentileValueColumn);
  }

  /** With no match in the updated table, the first match of the backup table decides the score. */
  lemma ScoreFromBackupMatch(fips: string, updated: Table, backup: Table,
                             parseDouble: string -> Option<real>, j: nat, x: real)
    requires forall m :: 1 <= m < |updated| ==>
      ParseInt(fips).Some? && RowKey(updated[m], PercentileFipsColumn).Some? &&
      RowKey(updated[m], PercentileFipsColumn) != ParseInt(fips)
    requires IsFirstMatch(backup, 1, j, fips, PercentileFipsColumn)
    requires PercentileValueColumn < |backup[j]| && parseDouble(backup[j][PercentileValueColumn]) == Some(x)
    ensures CountyScore(fips, Some(updated), Some(backup), parseDouble) == x * 10.0
  {
    NotFoundIffNoMatch(updated, 1, fips, PercentileFipsColumn, PercentileValueColumn);
    FirstMatchIsFound(backup, 1, j, fips, PercentileFipsColumn, PercentileValueColumn);
  }

  /** Neither table has a matching row: the neutral score. */
  lemma NeutralScoreWithoutMatch(fips: string, updated: Table, backup: Table,
                                 parseDouble: string -> Option<real>)
    requires forall m :: 1 <= m < |updated| ==>
      RowKey(updated[m], PercentileFipsColumn).Some? && RowKey(updated[m], PercentileFipsColumn) != ParseInt(fips)
    requires forall m :: 1 <= m < |backup| ==>
      RowKey(backup[m], PercentileFipsColumn).Some? && RowKey(backup[m], PercentileFipsColumn) != ParseInt(fips)
    ensures CountyScore(fips, Some(updated), Some(backup), parseDouble) == 5.0
  {
    if ParseInt(fips).None? {
      NeutralScoreForBadFips(fips, Some(updated), Some(backup), parseDouble);
    } else {
      NotFoundIffNoMatch(updated, 1, fips, PercentileFipsColumn, PercentileValueColumn);
      NotFoundIffNoMatch(backup, 1, fips, PercentileFipsColumn, PercentileValueColumn);
    }
  }

  /**
   * A fips that is not a number gives the neutral score whatever the tables:
   * on the first data row it is an exception, and with no data rows nothing matches.
   */
  lemma NeutralScoreForBadFips(fips: string, updated: Option<Table>, backup: Option<Table>,
                               parseDouble: string -> Option<real>)
    requires ParseInt(fips).None?
    ensures CountyScore(fips, updated, backup, parseDouble) == 5.0
  {
  }

  /** An updated table that cannot be opened is an exception: the backup table is not read. */
  lemma NeutralScoreWithoutUpdatedFile(fips: string, backup: Option<Table>, parseDouble: string -> Option<real>)
    ensures CountyScore(fips, None, backup, parseDouble) == 5.0
  {
  }

  /**
   * A data row of the updated table whose key is missing or not a number,
   * reached before any match, is an exception: the neutral score, and the
   * backup table is not read.
   */
  lemma NeutralScoreForBadRow(fips: string, updated: Table, backup: Option<Table>,
                              parseDouble: string -> Option<real>, j: nat)
    requires 1 <= j < |updated| && RowKey(updated[j], PercentileFipsColumn).None?
    requires forall m :: 1 <= m < j ==>
      RowKey(updated[m], PercentileFipsColumn).Some? && RowKey(updated[m], PercentileFipsColumn) != ParseInt(fips)
    ensures CountyScore(fips, Some(updated), backup, parseDouble) == 5.0
  {
    ScanFailsAtBadRow(updated, 1, j, fips, PercentileFipsColumn, PercentileValueColumn);
  }

  /**
   * The first matching row of the updated table without a percentile, or with
   * one that is not a number, is an exception: the neutral score.
   */
  lemma NeutralScoreForBadPercentile(fips: string, updated: Table, backup: Option<Table>,
                                     parseDouble: string -> Option<real>, j: nat)
    requires IsFirstMatch(updated, 1, j, fips, PercentileFipsColumn)
    requires PercentileValueColumn >= |updated[j]| || parseDouble(updated[j][PercentileValueColumn]).None?
    ensures CountyScore(fips, Some(updated), backup, parseDouble) == 5.0
  {
    FirstMatchIsFound(updated, 1, j, fips, PercentileFipsColumn, PercentileValueColumn);
  }

  /**
   * With no match in the updated table, a backup file that cannot be opened
   * is an exception: the neutral score.
   */
  lemma NeutralScoreWithoutBackupFile(fips: string, updated: Table, parseDouble: string -> Option<real>)
    requires forall m :: 1 <= m < |updated| ==>
      ParseInt(fips).Some? && RowKey(updated[m], PercentileFipsColumn).Some? &&
      RowKey(updated[m], PercentileFipsColumn) != ParseInt(fips)
    ensures CountyScore(fips, Some(updated), None, parseDouble) == 5.0
  {
    NotFoundIffNoMatch(updated, 1, fips, PercentileFipsColumn, PercentileValueColumn);
  }

  /**
   * With no match in the updated table, a backup data row whose key is missing
   * or not a number, reached before any backup match, is an exception.
   */
  lemma NeutralScoreForBadBackupRow(fips: string, updated: Table, backup: Table,
                                    parseDouble: string -> Option<real>, j: nat)
    requires forall m :: 1 <= m < |updated| ==>
      ParseInt(fips).Some? && RowKey(updated[m], PercentileFipsColumn).Some? &&
      RowKey(updated[m], PercentileFipsColumn) != ParseInt(fips)
    requires 1 <= j < |backup| && RowKey(backup[j], PercentileFipsColumn).None?
    requires forall m :: 1 <= m < j ==>
      RowKey(backup[m], PercentileFipsColumn).Some? && RowKey(backup[m], PercentileFipsColumn) != ParseInt(fips)
    ensures CountyScore(fips, Some(updated), Some(backup), parseDouble) == 5.0
  {
    NotFoundIffNoMatch(updated, 1, fips, PercentileFipsColumn, PercentileValueColumn);
    ScanFailsAtBadRow(backup, 1, j, fips, PercentileFipsColumn, PercentileValueColumn);
  }

  /**
   * With no match in the updated table, a first backup match without a
   * percentile, or with one that is not a number, gives the neutral score.
   */
  lemma NeutralScoreForBadBackupPercentile(fips: string, updated: Table, backup: Table,
                                           parseDouble: string -> Option<real>, j: nat)
    requires forall m :: 1 <= m < |updated| ==>
      ParseInt(fips).Some? && RowKey(updated[m], PercentileFipsColumn).Some? &&
      RowKey(updated[m], PercentileFipsColumn) != ParseInt(fips)
    requires IsFirstMatch(backup, 1, j, fips, PercentileFipsColumn)
    requires PercentileValueColumn >= |backup[j]| || parseDouble(backup[j][PercentileValueColumn]).None?
    ensures CountyScore(fips, Some(updated), Some(backup), parseDouble) == 5.0
  {
    NotFoundIffNoMatch(updated, 1, fips, PercentileFipsColumn, PercentileValueColumn);
    FirstMatchIsFound(backup, 1, j, fips, PercentileFipsColumn, PercentileValueColumn);
  }

  /** The header row is never compared. */
  lemma HeaderIgnored(fips: string, updated: Table, header: Row, backup: Option<Table>,
                      parseDouble: string -> Option<real>)
    requires |updated| > 0
    ensures CountyScore(fips, Some(updated[0 := header]), backup, parseDouble)
         == CountyScore(fips, Some(updated), backup, parseDouble)
  {
    ScanIgnoresEarlierRows(updated, updated[0 := header], 1, fips, PercentileFipsColumn, PercentileValueColumn);
  }

  lemma {:induction false} ScanIgnoresEarlierRows(rows1: Table, rows2: Table, i: nat, fips: string, keyCol: nat, valCol: nat)
    requires |rows1| == |rows2| && forall m :: i <= m < |rows1| ==> rows1[m] == rows2[m]
    ensures ScanFrom(rows1, i, fips, keyCol, valCol) == ScanFrom(rows2, i, fips, keyCol, valCol)
    decreases |rows1| - i
  {
    if i < |rows1| {
      ScanIgnoresEarlierRows(rows1, rows2, i + 1, fips, keyCol, valCol);
    }
  }

  /** The county "01001" is rated by the row for 1001. */
  lemma LeadingZeroFipsMatches(parseDouble: string -> Option<real>, backup: Option<Table>)
    requires parseDouble("0.3") == Some(0.3)
    ensures CountyScore("01001", Some([["fips", "percentile"], ["1001", "0.3"]]), backup, parseDouble) == 3.0
  {
    FipsWithLeadingZero();
  }

  // ---------------------------------------------------------------------------
  // County population
  // ---------------------------------------------------------------------------

  /** The population of the first row whose fips column matches, or 0 when none does or a parse fails. */
  function CountyPopulation(fips: string, table: Option<Table>): int {
    if table.None? then 0
    else match SearchTable(table.value, fips, PopulationFipsColumn, PopulationValueColumn)
      case Found(cell) => (match ParseLong(cell) case Some(p) => p case None => 0)
      case _ => 0
  }

  method GetCountyPopulationFromCsv(county: County, table: Option<Table>) returns (population: int)
    ensures population == CountyPopulation(county.countyFips, table)
    ensures LongMin <= population <= LongMax
  {
    if table.None? {
      return 0;
    }
    var result := FindRow(table.value, county.countyFips, PopulationFipsColumn, PopulationValueColumn);
    if result.Found? {
      var p := ParseLong(result.cell);
      if p.Some? {
        return p.value;
      }
    }
    return 0;
  }

  /** The first matching row decides the population. */
  lemma PopulationFromFirstMatch(fips: string, table: Table, j: nat, p: int)
    requires IsFirstMatch(table, 1, j, fips, PopulationFipsColumn)
    requires PopulationValueColumn < |table[j]| && ParseLong(table[j][PopulationValueColumn]) == Some(p)
    ensures CountyPopulation(fips, Some(table)) == p
  {
    FirstMatchIsFound(table, 1, j, fips, PopulationFipsColumn, PopulationValueColumn);
  }

  /** No matching row: population 0. */
  lemma PopulationZeroWithoutMatch(fips: string, table: Table)
    requires forall m :: 1 <= m < |table| ==>
      ParseInt(fips).Some? && RowKey(table[m], PopulationFipsColumn).Some? &&
      RowKey(table[m], PopulationFipsColumn) != ParseInt(fips)
    ensures CountyPopulation(fips, Some(table)) == 0
  {
    NotFoundIffNoMatch(table, 1, fips, PopulationFipsColumn, PopulationValueColumn);
  }

  /** A population file that cannot be opened: population 0. */
  lemma PopulationZeroWithoutFile(fips: string)
    ensures CountyPopulation(fips, None) == 0
  {
  }

  /** A fips that is not a number: population 0, whatever the file holds. */
  lemma PopulationZeroForBadFips(fips: string, table: Option<Table>)
    requires ParseInt(fips).None?
    ensures CountyPopulation(fips, table) == 0
  {
  }

  /** A row whose key is missing or not a number, reached before any match, is an exception: population 0. */
  lemma PopulationZeroForBadRow(fips: string, table: Table, j: nat)
    requires 1 <= j < |table| && RowKey(table[j], PopulationFipsColumn).None?
    requires forall m :: 1 <= m < j ==>
      RowKey(table[m], PopulationFipsColumn).Some? && RowKey(table[m], PopulationFipsColumn) != ParseInt(fips)
    ensures CountyPopulation(fips, Some(table)) == 0
  {
    ScanFailsAtBadRow(table, 1, j, fips, PopulationFipsColumn, PopulationValueColumn);
  }

  /** The first matching row without a population, or with one that is not a long: population 0. */
  lemma PopulationZeroForBadCount(fips: string, table: Table, j: nat)
    requires IsFirstMatch(table, 1, j, fips, PopulationFipsColumn)
    requires PopulationValueColumn >= |table[j]| || ParseLong(table[j][PopulationValueColumn]).None?
    ensures CountyPopulation(fips, Some(table)) == 0
  {
    FirstMatchIsFound(table, 1, j, fips, PopulationFipsColumn, PopulationValueColumn);
  }
}
