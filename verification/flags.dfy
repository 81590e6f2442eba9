/** Status and pet-policy summaries: a fixed table of (dict key, label)
    pairs is walked in order, the label of every truthy flag is kept, and the
    kept labels are joined with ", " or replaced by a default when none is
    kept. */
module Flags {
  import opened Json
  import opened Text
  import opened Wrappers

  /** Dict keys with the labels they contribute, in emission order. */
  type FlagTable = seq<(string, string)>

  const Separator: string := ", "

  /** Rental listing status flags (api_functions.py, rental path). */
  const RentalFlags: FlagTable := [
    ("is_new_listing", "NEW LISTING"),
    ("is_pending", "PENDING")
  ]

  /** For-sale listing status flags (api_functions.py, sale path). */
  const SaleFlags: FlagTable := [
    ("is_new_listing", "NEW LISTING"),
    ("is_price_reduced", "PRICE REDUCED"),
    ("is_pending", "PENDING"),
    ("is_foreclosure", "FORECLOSURE"),
    ("is_coming_soon", "COMING SOON"),
    ("is_new_construction", "NEW CONSTRUCTION"),
    ("is_contingent", "CONTINGENT")
  ]

  /** Pet policy flags of a rental listing. */
  const PetFlags: FlagTable := [
    ("cats", "Cats"),
    ("dogs_small", "Small Dogs"),
    ("dogs_large", "Large Dogs")
  ]

  /** The labels of the flags that are truthy in `fields`, in table order. */
  function Labels(fields: seq<(string, Value)>, table: FlagTable): seq<string> {
    if |table| == 0 then []
    else (if FlagSet(fields, table[0].0) then [table[0].1] else []) + Labels(fields, table[1..])
  }

  /** `", ".join(labels) if labels else default`. */
  function Summary(labels: seq<string>, default: string): string {
    if |labels| == 0 then default else Join(labels, Separator)
  }

  /** Labels are distinct and contain no comma. */
  predicate WellFormedTable(table: FlagTable) {
    && (forall i, j :: 0 <= i < j < |table| ==> table[i].1 != table[j].1)
    && (forall i :: 0 <= i < |table| ==> Avoids(table[i].1, ',') && table[i].1 != "")
  }

  /** A label is kept exactly when its flag is truthy. */
  lemma {:induction false} LabelsMembership(fields: seq<(string, Value)>, table: FlagTable)
    ensures forall i :: 0 <= i < |table| && FlagSet(fields, table[i].0) ==> table[i].1 in Labels(fields, table)
    ensures forall k :: 0 <= k < |Labels(fields, table)| ==>
              exists i :: 0 <= i < |table| && table[i].1 == Labels(fields, table)[k] && FlagSet(fields, table[i].0)
    decreases |table|
  {
    if |table| > 0 {
      LabelsMembership(fields, table[1..]);
      var head := if FlagSet(fields, table[0].0) then [table[0].1] else [];
      var tail := Labels(fields, table[1..]);
      assert Labels(fields, table) == head + tail;
      forall k | 0 <= k < |Labels(fields, table)|
        ensures exists i :: 0 <= i < |table| && table[i].1 == Labels(fields, table)[k] && FlagSet(fields, table[i].0)
      {
        if k < |head| {
          assert table[0].1 == Labels(fields, table)[k] && FlagSet(fields, table[0].0);
        } else {
          assert Labels(fields, table)[k] == tail[k - |head|];
          var i :| 0 <= i < |table[1..]| && table[1..][i].1 == tail[k - |head|] && FlagSet(fields, table[1..][i].0);
          assert table[i + 1] == table[1..][i];
          assert table[i + 1].1 == Labels(fields, table)[k] && FlagSet(fields, table[i + 1].0);
        }
      }
      forall i | 0 <= i < |table| && FlagSet(fields, table[i].0)
        ensures table[i].1 in Labels(fields, table)
      {
        if i > 0 {
          assert table[i] == table[1..][i - 1];
        }
      }
    } else {
      assert Labels(fields, table) == [];
    }
  }

  /** No label is kept exactly when no flag is truthy. */
  lemma LabelsEmpty(fields: seq<(string, Value)>, table: FlagTable)
    ensures Labels(fields, table) == [] <==> forall i :: 0 <= i < |table| ==> !FlagSet(fields, table[i].0)
  {
    LabelsMembership(fields, table);
    if Labels(fields, table) != [] {
      assert 0 < |Labels(fields, table)|;
    }
  }

  /** Kept labels keep the table's order: when flags `i < j` are both truthy,
      label `i` comes before label `j`. */
  lemma {:induction false} LabelsOrder(fields: seq<(string, Value)>, table: FlagTable, i: nat, j: nat)
    requires WellFormedTable(table)
    requires i < j < |table| && FlagSet(fields, table[i].0) && FlagSet(fields, table[j].0)
    ensures exists a, b :: 0 <= a < b < |Labels(fields, table)|
              && Labels(fields, table)[a] == table[i].1 && Labels(fields, table)[b] == table[j].1
    decreases |table|
  {
    var tail := Labels(fields, table[1..]);
    var rest := table[1..];
    WellFormedTail(table);
    assert table[j] == rest[j - 1];
    if i == 0 {
      LabelsMembership(fields, rest);
      assert table[j].1 in tail;
      var b :| 0 <= b < |tail| && tail[b] == table[j].1;
      assert Labels(fields, table) == [table[0].1] + tail;
      assert Labels(fields, table)[0] == table[i].1;
      assert Labels(fields, table)[b + 1] == table[j].1;
    } else {
      assert table[i] == rest[i - 1];
      LabelsOrder(fields, rest, i - 1, j - 1);
      var a, b :| 0 <= a < b < |tail| && tail[a] == table[i].1 && tail[b] == table[j].1;
      var head := if FlagSet(fields, table[0].0) then [table[0].1] else [];
      assert Labels(fields, table) == head + tail;
      assert Labels(fields, table)[a + |head|] == table[i].1;
      assert Labels(fields, table)[b + |head|] == table[j].1;
    }
  }

  /** Dropping the first flag keeps a table well formed. */
  lemma WellFormedTail(table: FlagTable)
    requires WellFormedTable(table) && |table| > 0
    ensures WellFormedTable(table[1..])
  {
    var rest := table[1..];
    forall p, q | 0 <= p < q < |rest| ensures rest[p].1 != rest[q].1 {
      assert rest[p] == table[p + 1] && rest[q] == table[q + 1];
    }
    forall p | 0 <= p < |rest| ensures Avoids(rest[p].1, ',') && rest[p].1 != "" {
      assert rest[p] == table[p + 1];
    }
  }

  /** No label is kept twice, so together with `LabelsOrder` the kept labels
      are exactly the set flags' labels in table order. */
  lemma {:induction false} LabelsDistinct(fields: seq<(string, Value)>, table: FlagTable)
    requires WellFormedTable(table)
    ensures forall a, b :: 0 <= a < b < |Labels(fields, table)| ==> Labels(fields, table)[a] != Labels(fields, table)[b]
    decreases |table|
  {
    if |table| > 0 {
      var rest := table[1..];
      var tail := Labels(fields, rest);
      WellFormedTail(table);
      LabelsDistinct(fields, rest);
      if FlagSet(fields, table[0].0) {
        LabelsMembership(fields, rest);
        var labels := Labels(fields, table);
        assert labels == [table[0].1] + tail;
        forall b | 0 < b < |labels| ensures labels[0] != labels[b] {
          assert labels[b] == tail[b - 1];
          var i :| 0 <= i < |rest| && rest[i].1 == tail[b - 1] && FlagSet(fields, rest[i].0);
          assert rest[i] == table[i + 1];
        }
      }
    }
  }

  lemma {:induction false} LabelsAvoidComma(fields: seq<(string, Value)>, table: FlagTable)
    requires WellFormedTable(table)
    ensures forall k :: 0 <= k < |Labels(fields, table)| ==> Avoids(Labels(fields, table)[k], ',')
  {
    LabelsMembership(fields, table);
  }

  /** The summary text splits back into exactly the kept labels; with no
      label kept it is the default. */
  lemma SummaryReadsBack(fields: seq<(string, Value)>, table: FlagTable, default: string)
    requires WellFormedTable(table)
    ensures var labels := Labels(fields, table);
      && (labels == [] ==> Summary(labels, default) == default)
      && (labels != [] ==> Split(Summary(labels, default), Separator) == labels)
  {
    var labels := Labels(fields, table);
    if labels != [] {
      LabelsAvoidComma(fields, table);
      SplitJoin(labels, Separator);
    }
  }

  /** The summary equals the default exactly when no flag is truthy, as long
      as the default is not itself one of the labels and has no comma. */
  lemma SummaryIsDefaultIffNoFlag(fields: seq<(string, Value)>, table: FlagTable, default: string)
    requires WellFormedTable(table) && Avoids(default, ',')
    requires forall i :: 0 <= i < |table| ==> table[i].1 != default
    ensures Summary(Labels(fields, table), default) == default
            <==> forall i :: 0 <= i < |table| ==> !FlagSet(fields, table[i].0)
  {
    var labels := Labels(fields, table);
    LabelsEmpty(fields, table);
    if labels != [] {
      SummaryReadsBack(fields, table, default);
      SplitJoin([default], Separator);
      LabelsMembership(fields, table);
      assert labels[0] != default;
      assert Split(default, Separator) == [default];
    }
  }

  /** The summary is never empty when the default is not. */
  lemma SummaryNonEmpty(fields: seq<(string, Value)>, table: FlagTable, default: string)
    requires WellFormedTable(table) && default != ""
    ensures Summary(Labels(fields, table), default) != ""
  {
    var labels := Labels(fields, table);
    if labels != [] {
      LabelsMembership(fields, table);
      assert labels[0] != "";
      if |labels| > 1 {
        assert Join(labels, Separator) == labels[0] + Separator + Join(labels[1..], Separator);
      }
    }
  }

  /** The rental table walked out: at most the two labels, in order. */
  lemma RentalLabels(fields: seq<(string, Value)>)
    ensures Labels(fields, RentalFlags)
            == (if FlagSet(fields, "is_new_listing") then ["NEW LISTING"] else [])
             + (if FlagSet(fields, "is_pending") then ["PENDING"] else [])
  {
    var t := RentalFlags;
    assert t[1..][1..] == [];
    assert Labels(fields, t[1..]) == (if FlagSet(fields, "is_pending") then ["PENDING"] else []) + Labels(fields, []);
  }

  lemma RentalSummaryCases(fields: seq<(string, Value)>)
    ensures var newListing := FlagSet(fields, "is_new_listing");
      var pending := FlagSet(fields, "is_pending");
      Summary(Labels(fields, RentalFlags), "ACTIVE")
        == (if newListing && pending then "NEW LISTING, PENDING"
            else if newListing then "NEW LISTING"
            else if pending then "PENDING"
            else "ACTIVE")
  {
    RentalLabels(fields);
    var labels := Labels(fields, RentalFlags);
    if FlagSet(fields, "is_new_listing") && FlagSet(fields, "is_pending") {
      assert labels == ["NEW LISTING", "PENDING"];
      assert Join(labels, Separator) == "NEW LISTING" + Separator + Join(["PENDING"], Separator);
    }
  }

  lemma SaleLabelsClean()
    ensures forall i :: 0 <= i < |SaleFlags| ==> Avoids(SaleFlags[i].1, ',') && SaleFlags[i].1 != ""
  {
  }

  lemma SaleLabelsDistinct()
    ensures forall i, j :: 0 <= i < j < |SaleFlags| ==> SaleFlags[i].1 != SaleFlags[j].1
  {
  }

  lemma SmallTablesWellFormed()
    ensures WellFormedTable(RentalFlags)
    ensures WellFormedTable(PetFlags)
  {
  }

  /** The three tables have distinct, comma-free, non-empty labels, and the
      defaults are comma-free. */
  lemma TablesWellFormed()
    ensures WellFormedTable(RentalFlags)
    ensures WellFormedTable(SaleFlags)
    ensures WellFormedTable(PetFlags)
    ensures Avoids("ACTIVE", ',') && Avoids("No information", ',')
  {
    SaleLabelsClean();
    SaleLabelsDistinct();
    SmallTablesWellFormed();
  }

  /** The rental status (api_functions.py:111-119): only a truthy dict of
      flags is consulted. */
  function RentalStatus(flags: Value): (r: string)
    ensures var on := Truthy(flags) && flags.Obj?;
      var newListing := on && FlagSet(flags.fields, "is_new_listing");
      var pending := on && FlagSet(flags.fields, "is_pending");
      r == (if newListing && pending then "NEW LISTING, PENDING"
            else if newListing then "NEW LISTING"
            else if pending then "PENDING"
            else "ACTIVE")
  {
    if Truthy(flags) && flags.Obj? then
      RentalSummaryCases(flags.fields);
      Summary(Labels(flags.fields, RentalFlags), "ACTIVE")
    else
      "ACTIVE"
  }

  /** The for-sale status (api_functions.py:398-415). The flags value must be
      a dict, otherwise the source raises. */
  function SaleStatus(flags: Value): (r: string)
    requires flags.Obj?
    ensures r != ""
    ensures r == "ACTIVE" <==> forall i :: 0 <= i < |SaleFlags| ==> !FlagSet(flags.fields, SaleFlags[i].0)
    ensures r != "ACTIVE" ==> Split(r, Separator) == Labels(flags.fields, SaleFlags)
  {
    TablesWellFormed();
    SummaryIsDefaultIffNoFlag(flags.fields, SaleFlags, "ACTIVE");
    SummaryReadsBack(flags.fields, SaleFlags, "ACTIVE");
    SummaryNonEmpty(flags.fields, SaleFlags, "ACTIVE");
    Summary(Labels(flags.fields, SaleFlags), "ACTIVE")
  }

  /** The pets-allowed summary (api_functions.py:141-157). The except branch
      of the source is unreachable: nothing in the try block can raise. */
  function PetsSummary(policy: Value): (r: string)
    ensures var on := Truthy(policy) && policy.Obj?;
      && (r == "No information" <==> !on || forall i :: 0 <= i < |PetFlags| ==> !FlagSet(policy.fields, PetFlags[i].0))
      && (r != "No information" ==> on && Split(r, Separator) == Labels(policy.fields, PetFlags))
    ensures r != ""
  {
    TablesWellFormed();
    if Truthy(policy) && policy.Obj? then
      SummaryNonEmpty(policy.fields, PetFlags, "No information");
      SummaryIsDefaultIffNoFlag(policy.fields, PetFlags, "No information");
      SummaryReadsBack(policy.fields, PetFlags, "No information");
      Summary(Labels(policy.fields, PetFlags), "No information")
    else
      "No information"
  }
}
