/** The rent aggregator `generate_rent_summary` (data_processing.py:4-23):
    coerce the "Rent" column to numbers in place, then group the rows by
    (Property Type, Beds, Baths) and report, per group, how many rents are
    numeric and their minimum, median and maximum. */
module Summary {
  import opened Wrappers
  import opened Json
  import opened Numerals
  import Stats
  import Rentals

  /** The columns of a rental row the aggregator reads. */
  datatype Row = Row(propertyType: Value, beds: Value, baths: Value, rent: Value)

  /** A group key: the exact (Property Type, Beds, Baths) triple. */
  datatype Key = Key(propertyType: Value, beds: Value, baths: Value)

  /** One row of the summary. The statistics are missing when the group has
      no numeric rent. */
  datatype SummaryRow = SummaryRow(key: Key, count: nat, minRent: Option<int>,
                                   medianRent: Option<real>, maxRent: Option<int>)

  /** The aggregator's view of a rental record. */
  function FromRecord(rec: Rentals.RentalRecord): Row {
    Row(rec.propertyType, rec.beds, rec.baths, rec.rent)
  }

  /** `pd.to_numeric(v, errors='coerce')` on one cell: integers stay, integer
      literals are parsed, everything else becomes missing. */
  function ToNumeric(v: Value): (r: Option<int>)
    ensures r.Some? <==> v.Int? || (v.Str? && IntLiteral(v.s))
    ensures v.Int? ==> r == Some(v.i)
  {
    match v
    case Int(i) => Some(i)
    case Str(s) => ParseInt(s)
    case _ => None
  }

  /** A rent written as text is read back as the number it spells, and the
      "N/A" the normaliser writes for a missing rent is missing. */
  lemma ToNumericReadsDecimal(i: int)
    ensures ToNumeric(Str(Decimal(i))) == Some(i)
    ensures ToNumeric(Int(i)) == Some(i)
    ensures ToNumeric(NA).None?
  {
    ParseIntOfDecimal(i);
    assert !IsDigit("N/A"[0]);
  }

  /** The value written back into the "Rent" cell: the number, or a missing
      value (NaN, modelled as Null). */
  function Coerce(v: Value): (r: Value)
    ensures r.Int? || r.Null?
    ensures ToNumeric(r) == ToNumeric(v)
  {
    match ToNumeric(v)
    case Some(i) => Int(i)
    case None => Null
  }

  /** Coercing an already coerced cell changes nothing. */
  lemma CoerceIdempotent(v: Value)
    ensures Coerce(Coerce(v)) == Coerce(v)
  {
  }

  /** The in-place write-back of data_processing.py:15: only the "Rent" column changes. */
  function CoerceRents(rows: seq<Row>): (r: seq<Row>)
    ensures |r| == |rows|
    ensures forall k :: 0 <= k < |rows| ==>
              r[k].propertyType == rows[k].propertyType && r[k].beds == rows[k].beds
              && r[k].baths == rows[k].baths && ToNumeric(r[k].rent) == ToNumeric(rows[k].rent)
              && (r[k].rent.Int? || r[k].rent.Null?)
  {
    seq(|rows|, k requires 0 <= k < |rows| => rows[k].(rent := Coerce(rows[k].rent)))
  }

  lemma CoerceRentsIdempotent(rows: seq<Row>)
    ensures CoerceRents(CoerceRents(rows)) == CoerceRents(rows)
  {
    var once := CoerceRents(rows);
    forall k | 0 <= k < |rows| ensures CoerceRents(once)[k] == once[k] {
      CoerceIdempotent(rows[k].rent);
    }
  }

  function KeyOf(row: Row): Key {
    Key(row.propertyType, row.beds, row.baths)
  }

  /** pandas drops rows with a missing key component from the grouping. */
  predicate HasKey(row: Row) {
    !row.propertyType.Null? && !row.beds.Null? && !row.baths.Null?
  }

  /** The row contributes to its group's statistics. */
  predicate Counted(row: Row) {
    HasKey(row) && ToNumeric(row.rent).Some?
  }

  /** The distinct keys, in order of first appearance. */
  function GroupKeys(rows: seq<Row>): seq<Key> {
    if |rows| == 0 then []
    else
      var keys := GroupKeys(rows[..|rows| - 1]);
      var last := rows[|rows| - 1];
      keys + (if HasKey(last) && KeyOf(last) !in keys then [KeyOf(last)] else [])
  }

  predicate Distinct(keys: seq<Key>) {
    forall i, j :: 0 <= i < j < |keys| ==> keys[i] != keys[j]
  }

  lemma {:induction false} GroupKeysDistinct(rows: seq<Row>)
    ensures Distinct(GroupKeys(rows))
  {
    if |rows| > 0 {
      var init := rows[..|rows| - 1];
      GroupKeysDistinct(init);
      var keys := GroupKeys(init);
      var all := GroupKeys(rows);
      forall i, j | 0 <= i < j < |all| ensures all[i] != all[j] {
        if j >= |keys| {
          assert all[i] == keys[i];
        }
      }
    }
  }

  /** Some row with a complete key carries `key`. */
  predicate Keyed(rows: seq<Row>, key: Key) {
    exists i :: 0 <= i < |rows| && HasKey(rows[i]) && KeyOf(rows[i]) == key
  }

  lemma {:induction false} GroupKeysMembers(rows: seq<Row>, key: Key)
    ensures key in GroupKeys(rows) <==> Keyed(rows, key)
  {
    if |rows| > 0 {
      var init := rows[..|rows| - 1];
      GroupKeysMembers(init, key);
      if Keyed(init, key) {
        var i :| 0 <= i < |init| && HasKey(init[i]) && KeyOf(init[i]) == key;
        assert rows[i] == init[i];
      }
      if Keyed(rows, key) {
        var i :| 0 <= i < |rows| && HasKey(rows[i]) && KeyOf(rows[i]) == key;
        if i < |init| {
          assert init[i] == rows[i];
        }
      }
    }
  }

  /** Exactly one summary key per distinct triple: the keys are distinct, and
      a triple is a key exactly when some row with a complete key carries it. */
  lemma GroupKeysExact(rows: seq<Row>)
    ensures Distinct(GroupKeys(rows))
    ensures forall key :: key in GroupKeys(rows) <==>
              exists i :: 0 <= i < |rows| && HasKey(rows[i]) && KeyOf(rows[i]) == key
  {
    GroupKeysDistinct(rows);
    forall key ensures key in GroupKeys(rows) <==> Keyed(rows, key) {
      GroupKeysMembers(rows, key);
    }
  }

  /** The numeric rents of the rows with this key, in row order. */
  function GroupRents(rows: seq<Row>, key: Key): seq<int> {
    if |rows| == 0 then []
    else
      var last := rows[|rows| - 1];
      GroupRents(rows[..|rows| - 1], key)
        + (if Counted(last) && KeyOf(last) == key then [ToNumeric(last.rent).value] else [])
  }

  /** A value is among a group's rents exactly when some row of the group
      has it as its numeric rent. */
  lemma {:induction false} GroupRentsMembers(rows: seq<Row>, key: Key, x: int)
    ensures x in GroupRents(rows, key) <==>
            exists i :: 0 <= i < |rows| && Counted(rows[i]) && KeyOf(rows[i]) == key
                        && ToNumeric(rows[i].rent) == Some(x)
  {
    if |rows| > 0 {
      var init := rows[..|rows| - 1];
      GroupRentsMembers(init, key, x);
      if exists i :: 0 <= i < |init| && Counted(init[i]) && KeyOf(init[i]) == key
                     && ToNumeric(init[i].rent) == Some(x) {
        var i :| 0 <= i < |init| && Counted(init[i]) && KeyOf(init[i]) == key
                 && ToNumeric(init[i].rent) == Some(x);
        assert rows[i] == init[i];
      }
      if exists i :: 0 <= i < |rows| && Counted(rows[i]) && KeyOf(rows[i]) == key
                     && ToNumeric(rows[i].rent) == Some(x) {
        var i :| 0 <= i < |rows| && Counted(rows[i]) && KeyOf(rows[i]) == key
                 && ToNumeric(rows[i].rent) == Some(x);
        if i < |init| {
          assert init[i] == rows[i];
        }
      }
    }
  }

  /** The indices of the rows of group `key` whose numeric rent is `x`. */
  function RowsWithRent(rows: seq<Row>, key: Key, x: int): set<int> {
    set i | 0 <= i < |rows| && Counted(rows[i]) && KeyOf(rows[i]) == key && ToNumeric(rows[i].rent) == Some(x)
  }

  /** The indices of the rows of group `key` that carry a numeric rent. */
  function GroupRows(rows: seq<Row>, key: Key): set<int> {
    set i | 0 <= i < |rows| && Counted(rows[i]) && KeyOf(rows[i]) == key
  }

  /** The row `rows[i]` is in group `key` and carries the numeric rent `x`. */
  predicate CarriesRent(rows: seq<Row>, key: Key, x: int, i: int) {
    0 <= i < |rows| && Counted(rows[i]) && KeyOf(rows[i]) == key && ToNumeric(rows[i].rent) == Some(x)
  }

  /** Adding a row adds its index to the set exactly when it carries `x`. */
  lemma RowsWithRentSnoc(rows: seq<Row>, key: Key, x: int)
    requires |rows| > 0
    ensures RowsWithRent(rows, key, x)
            == RowsWithRent(rows[..|rows| - 1], key, x)
               + (if CarriesRent(rows, key, x, |rows| - 1) then {|rows| - 1} else {})
  {
    var init := rows[..|rows| - 1];
    forall i ensures CarriesRent(rows, key, x, i) <==> CarriesRent(init, key, x, i) || (i == |rows| - 1 && CarriesRent(rows, key, x, i)) {
      if 0 <= i < |init| {
        assert init[i] == rows[i];
      }
    }
  }

  /** Adding a row adds its index to the set exactly when it is counted in
      group `key`. */
  lemma GroupRowsSnoc(rows: seq<Row>, key: Key)
    requires |rows| > 0
    ensures var last := rows[|rows| - 1];
      GroupRows(rows, key)
        == GroupRows(rows[..|rows| - 1], key)
           + (if Counted(last) && KeyOf(last) == key then {|rows| - 1} else {})
  {
    var init := rows[..|rows| - 1];
    forall i | 0 <= i < |init| ensures init[i] == rows[i] {
    }
  }

  /** Each value occurs among a group's rents exactly as often as rows of the
      group carry it as their numeric rent. */
  lemma {:induction false} GroupRentsMultiplicity(rows: seq<Row>, key: Key, x: int)
    ensures multiset(GroupRents(rows, key))[x] == |RowsWithRent(rows, key, x)|
  {
    if |rows| == 0 {
      assert RowsWithRent(rows, key, x) == {};
    } else {
      var init := rows[..|rows| - 1];
      GroupRentsMultiplicity(init, key, x);
      RowsWithRentSnoc(rows, key, x);
      assert |rows| - 1 !in RowsWithRent(init, key, x);
    }
  }

  /** A group has one rent per row of the group with a numeric rent. */
  lemma {:induction false} GroupRentsCount(rows: seq<Row>, key: Key)
    ensures |GroupRents(rows, key)| == |GroupRows(rows, key)|
  {
    if |rows| == 0 {
      assert GroupRows(rows, key) == {};
    } else {
      var init := rows[..|rows| - 1];
      GroupRentsCount(init, key);
      GroupRowsSnoc(rows, key);
      assert |rows| - 1 !in GroupRows(init, key);
    }
  }

  /** The count/min/median/max aggregation of one group (data_processing.py:17-20). */
  function Aggregate(key: Key, rents: seq<int>): (r: SummaryRow)
    ensures r.key == key && r.count == |rents|
    ensures r.count == 0 <==> r.minRent.None?
    ensures r.count == 0 <==> r.medianRent.None?
    ensures r.count == 0 <==> r.maxRent.None?
    ensures r.count > 0 ==> r.minRent.value in rents && r.maxRent.value in rents
    ensures r.count > 0 ==> forall k :: 0 <= k < |rents| ==> r.minRent.value <= rents[k] <= r.maxRent.value
    ensures r.count > 0 ==> r.minRent.value as real <= r.medianRent.value <= r.maxRent.value as real
  {
    if |rents| == 0 then SummaryRow(key, 0, None, None, None)
    else
      SummaryRow(key, |rents|, Some(Stats.Min(rents)), Some(Stats.Median(rents)), Some(Stats.Max(rents)))
  }

  /** One aggregated row per key of `keys`. */
  function Summarise(rows: seq<Row>, keys: seq<Key>): (r: seq<SummaryRow>)
    ensures |r| == |keys|
    ensures forall k :: 0 <= k < |keys| ==> r[k] == Aggregate(keys[k], GroupRents(rows, keys[k]))
  {
    seq(|keys|, k requires 0 <= k < |keys| => Aggregate(keys[k], GroupRents(rows, keys[k])))
  }

  /** The summary of a table whose "Rent" column is already coerced: one row
      per group, no group twice, and the "Count" column sums to the number of
      rows with a complete key and a numeric rent. */
  function RentSummary(rows: seq<Row>): (r: seq<SummaryRow>)
    ensures |r| == |GroupKeys(rows)|
    ensures forall k :: 0 <= k < |r| ==> r[k].key == GroupKeys(rows)[k]
    ensures forall a, b :: 0 <= a < b < |r| ==> r[a].key != r[b].key
    ensures TotalCount(r) == CountedRows(rows)
  {
    GroupKeysDistinct(rows);
    KeyedRowsCovered(rows);
    CountsCover(rows, GroupKeys(rows));
    Summarise(rows, GroupKeys(rows))
  }

  /** Every row with a complete key has its key among the group keys. */
  lemma KeyedRowsCovered(rows: seq<Row>)
    ensures forall i :: 0 <= i < |rows| && HasKey(rows[i]) ==> KeyOf(rows[i]) in GroupKeys(rows)
  {
    forall i | 0 <= i < |rows| && HasKey(rows[i]) ensures KeyOf(rows[i]) in GroupKeys(rows) {
      GroupKeysMembers(rows, KeyOf(rows[i]));
    }
  }

  /** What a call leaves behind: the caller's table, with its "Rent" column
      coerced in place, and the returned summary. */
  datatype Outcome = Outcome(table: seq<Row>, summary: seq<SummaryRow>)

  /** The whole call (data_processing.py:15-23). */
  function GenerateRentSummary(rows: seq<Row>): (r: Outcome)
    ensures |r.table| == |rows|
    ensures forall k :: 0 <= k < |rows| ==> r.table[k].rent.Int? || r.table[k].rent.Null?
  {
    var coerced := CoerceRents(rows);
    Outcome(coerced, RentSummary(coerced))
  }

  lemma {:induction false} CoercionKeepsKeys(rows: seq<Row>)
    ensures GroupKeys(CoerceRents(rows)) == GroupKeys(rows)
  {
    if |rows| > 0 {
      var init := rows[..|rows| - 1];
      assert CoerceRents(rows)[..|rows| - 1] == CoerceRents(init);
      CoercionKeepsKeys(init);
    }
  }

  lemma {:induction false} CoercionKeepsRents(rows: seq<Row>, key: Key)
    ensures GroupRents(CoerceRents(rows), key) == GroupRents(rows, key)
  {
    if |rows| > 0 {
      var init := rows[..|rows| - 1];
      assert CoerceRents(rows)[..|rows| - 1] == CoerceRents(init);
      CoercionKeepsRents(init, key);
    }
  }

  /** Coercing first does not change the summary, so the summary only depends
      on the numeric reading of each rent. */
  lemma SummaryIgnoresCoercion(rows: seq<Row>)
    ensures RentSummary(CoerceRents(rows)) == RentSummary(rows)
  {
    CoercionKeepsKeys(rows);
    var keys := GroupKeys(rows);
    forall k | 0 <= k < |keys|
      ensures Summarise(CoerceRents(rows), keys)[k] == Summarise(rows, keys)[k]
    {
      CoercionKeepsRents(rows, keys[k]);
    }
  }

  /** Running the aggregator again on its own written-back table gives the
      same table and the same summary. */
  lemma GenerateIdempotent(rows: seq<Row>)
    ensures GenerateRentSummary(GenerateRentSummary(rows).table) == GenerateRentSummary(rows)
  {
    CoerceRentsIdempotent(rows);
  }

  /** The number of rows that contribute a rent to some group. */
  function CountedRows(rows: seq<Row>): nat {
    if |rows| == 0 then 0
    else CountedRows(rows[..|rows| - 1]) + (if Counted(rows[|rows| - 1]) then 1 else 0)
  }

  /** The sum of the "Count" column. */
  function TotalCount(summary: seq<SummaryRow>): nat {
    if |summary| == 0 then 0 else summary[0].count + TotalCount(summary[1..])
  }

  /** How often `key` occurs among `keys`. */
  function Occurrences(keys: seq<Key>, key: Key): nat {
    if |keys| == 0 then 0 else (if keys[0] == key then 1 else 0) + Occurrences(keys[1..], key)
  }

  lemma {:induction false} OccurrencesDistinct(keys: seq<Key>, key: Key)
    requires Distinct(keys)
    ensures Occurrences(keys, key) == (if key in keys then 1 else 0)
  {
    if |keys| > 0 {
      OccurrencesDistinct(keys[1..], key);
      if keys[0] == key {
        assert key !in keys[1..] by {
          forall j | 0 <= j < |keys[1..]| ensures keys[1..][j] != key {
            assert keys[1..][j] == keys[j + 1];
          }
        }
      }
    }
  }

  /** Adding one row to the table adds its rent to every listed key that
      matches it. */
  lemma {:induction false} TotalCountSnoc(rows: seq<Row>, row: Row, keys: seq<Key>)
    ensures TotalCount(Summarise(rows + [row], keys))
            == TotalCount(Summarise(rows, keys)) + (if Counted(row) then Occurrences(keys, KeyOf(row)) else 0)
  {
    var rows' := rows + [row];
    assert rows'[..|rows'| - 1] == rows;
    if |keys| > 0 {
      TotalCountSnoc(rows, row, keys[1..]);
      assert Summarise(rows', keys)[1..] == Summarise(rows', keys[1..]);
      assert Summarise(rows, keys)[1..] == Summarise(rows, keys[1..]);
    }
  }

  /** With distinct keys covering every keyed row, the counts add up to the
      number of counted rows. */
  lemma {:induction false} CountsCover(rows: seq<Row>, keys: seq<Key>)
    requires Distinct(keys)
    requires forall i :: 0 <= i < |rows| && HasKey(rows[i]) ==> KeyOf(rows[i]) in keys
    ensures TotalCount(Summarise(rows, keys)) == CountedRows(rows)
  {
    if |rows| == 0 {
      EmptyCounts(keys);
    } else {
      var init := rows[..|rows| - 1];
      var last := rows[|rows| - 1];
      assert forall i :: 0 <= i < |init| ==> init[i] == rows[i];
      CountsCover(init, keys);
      assert init + [last] == rows;
      TotalCountSnoc(init, last, keys);
      OccurrencesDistinct(keys, KeyOf(last));
    }
  }

  lemma {:induction false} EmptyCounts(keys: seq<Key>)
    ensures TotalCount(Summarise([], keys)) == 0
  {
    if |keys| > 0 {
      assert Summarise([], keys)[1..] == Summarise([], keys[1..]);
      EmptyCounts(keys[1..]);
    }
  }

  /** Each summary row describes its group: its count is the number of rows
      with that key and a numeric rent, its minimum and maximum are rents of
      such rows, and the median lies between. */
  lemma SummaryRowFacts(rows: seq<Row>, k: nat)
    requires k < |GroupKeys(rows)|
    ensures var r := RentSummary(rows)[k]; var key := GroupKeys(rows)[k];
      && r.key == key
      && r.count == |GroupRows(rows, key)|
      && (r.count == 0 <==> r.minRent.None? && r.medianRent.None? && r.maxRent.None?)
      && (r.count > 0 ==>
            && (exists i :: 0 <= i < |rows| && Counted(rows[i]) && KeyOf(rows[i]) == key
                            && ToNumeric(rows[i].rent) == r.minRent)
            && (exists i :: 0 <= i < |rows| && Counted(rows[i]) && KeyOf(rows[i]) == key
                            && ToNumeric(rows[i].rent) == r.maxRent)
            && r.minRent.value as real <= r.medianRent.value <= r.maxRent.value as real)
  {
    var r := RentSummary(rows)[k];
    var key := GroupKeys(rows)[k];
    GroupRentsCount(rows, key);
    if r.count > 0 {
      GroupRentsMembers(rows, key, r.minRent.value);
      GroupRentsMembers(rows, key, r.maxRent.value);
    }
  }

  /** A group's statistics depend only on its rents taken with multiplicity:
      any sequence holding each value as often as rows of the group carry it
      aggregates to the same count, minimum, median and maximum. */
  lemma AggregateOfGroup(rows: seq<Row>, key: Key, rents: seq<int>)
    requires forall x :: multiset(rents)[x] == |RowsWithRent(rows, key, x)|
    ensures Aggregate(key, GroupRents(rows, key)) == Aggregate(key, rents)
  {
    var group := GroupRents(rows, key);
    forall x ensures multiset(rents)[x] == multiset(group)[x] {
      GroupRentsMultiplicity(rows, key, x);
    }
    assert multiset(rents) == multiset(group);
    assert |rents| == |multiset(rents)| == |group|;
    if |rents| > 0 {
      Stats.MedianPermutation(rents, group);
      Stats.MinPermutation(rents, group);
      Stats.MaxPermutation(rents, group);
    }
  }

  /** A summary row is the aggregate of its group's rents taken with
      multiplicity, whatever their order. */
  lemma SummaryStatsOfGroup(rows: seq<Row>, k: nat, rents: seq<int>)
    requires k < |GroupKeys(rows)|
    requires forall x :: multiset(rents)[x] == |RowsWithRent(rows, GroupKeys(rows)[k], x)|
    ensures RentSummary(rows)[k] == Aggregate(GroupKeys(rows)[k], rents)
  {
    AggregateOfGroup(rows, GroupKeys(rows)[k], rents);
  }

  /** The aggregator as written: `pd.DataFrame([])` built from a search with no
      readable listing has no columns, so reading its "Rent" column raises
      KeyError, modelled as None. */
  function RentSummaryAsWritten(rows: seq<Row>): (r: Option<Outcome>)
    ensures r.None? <==> |rows| == 0
    ensures r.Some? ==> r.value == GenerateRentSummary(rows)
  {
    if |rows| == 0 then None else Some(GenerateRentSummary(rows))
  }

  /** The empty rental table makes the aggregator as written fail, where the
      evident intent is an empty summary, which the corrected definition
      gives. */
  lemma EmptyTableCounterexample()
    ensures RentSummaryAsWritten([]).None?
    ensures GenerateRentSummary([]) == Outcome([], [])
  {
  }

  /** The summary of the rental normaliser's table. */
  function RentalTableSummary(records: seq<Rentals.RentalRecord>): (r: seq<SummaryRow>)
    ensures TotalCount(r) == CountedRows(seq(|records|, k requires 0 <= k < |records| => FromRecord(records[k])))
  {
    var rows := seq(|records|, k requires 0 <= k < |records| => FromRecord(records[k]));
    SummaryIgnoresCoercion(rows);
    GenerateRentSummary(rows).summary
  }
}
