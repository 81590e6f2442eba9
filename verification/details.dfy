/** The two scans of a rental listing that walk nested lists and keep
    overwriting a variable: the free-text detail blocks (security deposit,
    availability date) and the advertisers (management phone). Each is given
    as a declarative reference (the list of qualifying items, of which the
    last one wins) and as a method that loops the way the source does. */
module Details {
  import opened Wrappers
  import opened Json
  import opened Text

  const RentalInfo: string := "Rental Info"
  const OtherPropertyInfo: string := "Other Property Info"
  const DepositMarker: string := "Security Deposit:"
  const AvailabilityMarker: string := "Availability Date:"

  /** The text lines of one detail group that are read for `category`: none
      unless the group is a dict whose "text" is a list and whose "category"
      equals `category`. */
  function GroupLines(group: Value, category: string): seq<Value> {
    if group.Obj? && Get(group.fields, "text", Arr([])).Arr?
       && Get(group.fields, "category", Null) == Str(category)
    then Get(group.fields, "text", Arr([])).items
    else []
  }

  /** A line is used when it is a string containing the marker. */
  predicate Marked(line: Value, marker: string) {
    line.Str? && Contains(line.s, marker)
  }

  /** The marked lines, in order. */
  function MarkedLines(lines: seq<Value>, marker: string): (r: seq<string>)
    ensures forall k :: 0 <= k < |r| ==> Contains(r[k], marker)
  {
    if |lines| == 0 then []
    else
      var last := lines[|lines| - 1];
      MarkedLines(lines[..|lines| - 1], marker) + (if Marked(last, marker) then [last.s] else [])
  }

  /** Every line the scan uses, group by group, in scan order. */
  function MatchingLines(groups: seq<Value>, category: string, marker: string): (r: seq<string>)
    ensures forall k :: 0 <= k < |r| ==> Contains(r[k], marker)
  {
    if |groups| == 0 then []
    else
      MatchingLines(groups[..|groups| - 1], category, marker)
        + MarkedLines(GroupLines(groups[|groups| - 1], category), marker)
  }

  /** The value left in a variable that starts as `current` and is
      overwritten by every used line: the stripped piece after the marker of
      the last used line, or `current` when no line is used. */
  function Overwritten(lines: seq<string>, marker: string, current: string): string
    requires |marker| > 0
    requires forall k :: 0 <= k < |lines| ==> Contains(lines[k], marker)
  {
    if |lines| == 0 then current else Strip(SecondPiece(lines[|lines| - 1], marker))
  }

  /** Overwriting with `a` and then with `b` is overwriting with `a + b`. */
  lemma OverwrittenAppend(a: seq<string>, b: seq<string>, marker: string, current: string)
    requires |marker| > 0
    requires forall k :: 0 <= k < |a| ==> Contains(a[k], marker)
    requires forall k :: 0 <= k < |b| ==> Contains(b[k], marker)
    ensures forall k :: 0 <= k < |a + b| ==> Contains((a + b)[k], marker)
    ensures Overwritten(a + b, marker, current) == Overwritten(b, marker, Overwritten(a, marker, current))
  {
    if |b| == 0 {
      assert a + b == a;
    } else {
      assert (a + b)[|a + b| - 1] == b[|b| - 1];
    }
  }

  /** The field extracted from a listing's "details" value for one category
      and marker (api_functions.py:160-184): "N/A" or a stripped piece, which
      neither starts nor ends with whitespace. `DetailLastWins` and
      `DetailDefault` say which. */
  function DetailValue(details: Value, category: string, marker: string): (r: string)
    requires |marker| > 0
    ensures r == "N/A" || |r| == 0 || (!IsSpace(r[0]) && !IsSpace(r[|r| - 1]))
    ensures !details.Arr? ==> r == "N/A"
  {
    if Truthy(details) && details.Arr?
    then Overwritten(MatchingLines(details.items, category, marker), marker, "N/A")
    else "N/A"
  }

  /** Line `t` of group `g` is used by the scan for this category and marker. */
  predicate UsedAt(groups: seq<Value>, category: string, marker: string, g: int, t: int) {
    && 0 <= g < |groups|
    && 0 <= t < |GroupLines(groups[g], category)|
    && Marked(GroupLines(groups[g], category)[t], marker)
  }

  /** Scan position (g', t') comes after (g, t). */
  predicate After(g': int, t': int, g: int, t: int) {
    g' > g || (g' == g && t' > t)
  }

  lemma {:induction false} MarkedLinesEmpty(lines: seq<Value>, marker: string)
    ensures MarkedLines(lines, marker) == [] <==> forall t :: 0 <= t < |lines| ==> !Marked(lines[t], marker)
  {
    if |lines| > 0 {
      var init := lines[..|lines| - 1];
      MarkedLinesEmpty(init, marker);
      assert forall t :: 0 <= t < |init| ==> init[t] == lines[t];
    }
  }

  /** The last marked line is the one at the last marked position. */
  lemma {:induction false} MarkedLinesLast(lines: seq<Value>, marker: string, t: nat)
    requires t < |lines| && Marked(lines[t], marker)
    requires forall t' :: t < t' < |lines| ==> !Marked(lines[t'], marker)
    ensures |MarkedLines(lines, marker)| > 0
    ensures MarkedLines(lines, marker)[|MarkedLines(lines, marker)| - 1] == lines[t].s
  {
    var init := lines[..|lines| - 1];
    if t < |lines| - 1 {
      assert forall t' :: t < t' < |init| ==> init[t'] == lines[t'];
      MarkedLinesLast(init, marker, t);
    }
  }

  lemma {:induction false} MatchingLinesEmpty(groups: seq<Value>, category: string, marker: string)
    ensures MatchingLines(groups, category, marker) == []
            <==> forall g, t :: !UsedAt(groups, category, marker, g, t)
  {
    if |groups| > 0 {
      var init := groups[..|groups| - 1];
      var last := GroupLines(groups[|groups| - 1], category);
      MatchingLinesEmpty(init, category, marker);
      MarkedLinesEmpty(last, marker);
      assert MatchingLines(groups, category, marker) == MatchingLines(init, category, marker) + MarkedLines(last, marker);
      forall g, t ensures UsedAt(groups, category, marker, g, t)
                          <==> UsedAt(init, category, marker, g, t)
                               || (g == |groups| - 1 && 0 <= t < |last| && Marked(last[t], marker))
      {
        if 0 <= g < |init| {
          assert init[g] == groups[g];
        }
      }
      if forall g, t :: !UsedAt(groups, category, marker, g, t) {
        forall t | 0 <= t < |last| ensures !Marked(last[t], marker) {
          assert !UsedAt(groups, category, marker, |groups| - 1, t);
        }
        forall g, t ensures !UsedAt(init, category, marker, g, t) {
          assert !UsedAt(groups, category, marker, g, t);
        }
      }
    }
  }

  /** Last one wins: when line `t` of group `g` is used and no later line is,
      the scan's value is taken from that line. */
  lemma {:induction false} DetailLastWins(groups: seq<Value>, category: string, marker: string, g: nat, t: nat)
    requires |marker| > 0
    requires UsedAt(groups, category, marker, g, t)
    requires forall g', t' :: After(g', t', g, t) ==> !UsedAt(groups, category, marker, g', t')
    ensures |groups| > 0
    ensures DetailValue(Arr(groups), category, marker)
            == Strip(SecondPiece(GroupLines(groups[g], category)[t].s, marker))
  {
    LastLineAt(groups, category, marker, g, t);
    var lines := MatchingLines(groups, category, marker);
    assert Truthy(Arr(groups));
    assert DetailValue(Arr(groups), category, marker) == Overwritten(lines, marker, "N/A");
  }

  lemma {:induction false} LastLineAt(groups: seq<Value>, category: string, marker: string, g: nat, t: nat)
    requires UsedAt(groups, category, marker, g, t)
    requires forall g', t' :: After(g', t', g, t) ==> !UsedAt(groups, category, marker, g', t')
    ensures var lines := MatchingLines(groups, category, marker);
      |lines| > 0 && lines[|lines| - 1] == GroupLines(groups[g], category)[t].s
  {
    if g == |groups| - 1 {
      forall t' | t < t' ensures !UsedAt(groups, category, marker, g, t') {
        assert After(g, t', g, t);
      }
      LastLineInLastGroup(groups, category, marker, g, t);
    } else {
      var init := groups[..|groups| - 1];
      LastGroupUnused(groups, category, marker, g, t);
      assert init[g] == groups[g];
      LastLineAt(init, category, marker, g, t);
    }
  }

  /** The used line sits in the last group: it is that group's last marked line. */
  lemma LastLineInLastGroup(groups: seq<Value>, category: string, marker: string, g: nat, t: nat)
    requires g == |groups| - 1 && UsedAt(groups, category, marker, g, t)
    requires forall t' :: t < t' ==> !UsedAt(groups, category, marker, g, t')
    ensures var lines := MatchingLines(groups, category, marker);
      |lines| > 0 && lines[|lines| - 1] == GroupLines(groups[g], category)[t].s
  {
    var last := GroupLines(groups[g], category);
    forall t' | t < t' < |last| ensures !Marked(last[t'], marker) {
      assert !UsedAt(groups, category, marker, g, t');
    }
    MarkedLinesLast(last, marker, t);
  }

  /** The used line sits in an earlier group: the last group adds nothing and
      the earlier groups keep the hypotheses. */
  lemma LastGroupUnused(groups: seq<Value>, category: string, marker: string, g: nat, t: nat)
    requires g < |groups| - 1
    requires forall g', t' :: After(g', t', g, t) ==> !UsedAt(groups, category, marker, g', t')
    ensures MatchingLines(groups, category, marker) == MatchingLines(groups[..|groups| - 1], category, marker)
    ensures forall g', t' :: After(g', t', g, t) ==> !UsedAt(groups[..|groups| - 1], category, marker, g', t')
  {
    var init := groups[..|groups| - 1];
    var last := GroupLines(groups[|groups| - 1], category);
    forall t' | 0 <= t' < |last| ensures !Marked(last[t'], marker) {
      assert !UsedAt(groups, category, marker, |groups| - 1, t');
    }
    MarkedLinesEmpty(last, marker);
    assert MatchingLines(groups, category, marker) == MatchingLines(init, category, marker) + [];
    forall g', t' | After(g', t', g, t) ensures !UsedAt(init, category, marker, g', t') {
      if 0 <= g' < |init| {
        assert init[g'] == groups[g'];
        assert !UsedAt(groups, category, marker, g', t');
      }
    }
  }

  /** With no used line anywhere, the field stays "N/A". */
  lemma DetailDefault(details: Value, category: string, marker: string)
    requires |marker| > 0
    requires !details.Arr? || forall g, t :: !UsedAt(details.items, category, marker, g, t)
    ensures DetailValue(details, category, marker) == "N/A"
  {
    if details.Arr? {
      MatchingLinesEmpty(details.items, category, marker);
    }
  }

  lemma MarkedLinesStep(lines: seq<Value>, marker: string, t: nat)
    requires t < |lines|
    ensures MarkedLines(lines[..t + 1], marker)
            == MarkedLines(lines[..t], marker) + (if Marked(lines[t], marker) then [lines[t].s] else [])
  {
    assert lines[..t + 1][..t] == lines[..t];
  }

  /** The inner loop of the scan over one group's lines: each marked line
      overwrites `current`. */
  method ScanLines(lines: seq<Value>, marker: string, current: string) returns (r: string)
    requires |marker| > 0
    ensures r == Overwritten(MarkedLines(lines, marker), marker, current)
  {
    r := current;
    var t := 0;
    while t < |lines|
      invariant 0 <= t <= |lines|
      invariant r == Overwritten(MarkedLines(lines[..t], marker), marker, current)
    {
      var line := lines[t];
      MarkedLinesStep(lines, marker, t);
      OverwrittenAppend(MarkedLines(lines[..t], marker),
                        if Marked(line, marker) then [line.s] else [], marker, current);
      if line.Str? && Contains(line.s, marker) {
        r := Strip(SecondPiece(line.s, marker));
      }
      t := t + 1;
    }
    assert lines[..t] == lines;
  }

  lemma MatchingLinesStep(groups: seq<Value>, category: string, marker: string, g: nat)
    requires g < |groups|
    ensures MatchingLines(groups[..g + 1], category, marker)
            == MatchingLines(groups[..g], category, marker) + MarkedLines(GroupLines(groups[g], category), marker)
  {
    assert groups[..g + 1][..g] == groups[..g];
  }

  /** The detail scan as the source writes it (api_functions.py:160-184):
      walk the groups, skip non-dicts and groups whose "text" is not a list,
      and let every marked line of a "Rental Info" group overwrite the
      deposit and of an "Other Property Info" group the availability date. */
  method ScanDetails(details: Value) returns (deposit: string, available: string)
    ensures deposit == DetailValue(details, RentalInfo, DepositMarker)
    ensures available == DetailValue(details, OtherPropertyInfo, AvailabilityMarker)
  {
    deposit := "N/A";
    available := "N/A";
    if Truthy(details) && details.Arr? {
      var groups := details.items;
      var g := 0;
      while g < |groups|
        invariant 0 <= g <= |groups|
        invariant deposit == Overwritten(MatchingLines(groups[..g], RentalInfo, DepositMarker), DepositMarker, "N/A")
        invariant available == Overwritten(MatchingLines(groups[..g], OtherPropertyInfo, AvailabilityMarker), AvailabilityMarker, "N/A")
      {
        var group := groups[g];
        MatchingLinesStep(groups, RentalInfo, DepositMarker, g);
        MatchingLinesStep(groups, OtherPropertyInfo, AvailabilityMarker, g);
        OverwrittenAppend(MatchingLines(groups[..g], RentalInfo, DepositMarker),
                          MarkedLines(GroupLines(group, RentalInfo), DepositMarker), DepositMarker, "N/A");
        OverwrittenAppend(MatchingLines(groups[..g], OtherPropertyInfo, AvailabilityMarker),
                          MarkedLines(GroupLines(group, OtherPropertyInfo), AvailabilityMarker), AvailabilityMarker, "N/A");
        if group.Obj? {
          var category := Get(group.fields, "category", Null);
          var texts := Get(group.fields, "text", Arr([]));
          if texts.Arr? {
            if category == Str(RentalInfo) {
              deposit := ScanLines(texts.items, DepositMarker, deposit);
            }
            if category == Str(OtherPropertyInfo) {
              available := ScanLines(texts.items, AvailabilityMarker, available);
            }
          }
        }
        g := g + 1;
      }
      assert groups[..g] == groups;
    }
  }

  /** The phone number an advertiser supplies, if it qualifies: a dict of
      type "management" with a truthy dict "office" whose "phones" is a
      non-empty list starting with a dict. */
  function ManagementNumber(advertiser: Value): Option<Value> {
    if advertiser.Obj? && Get(advertiser.fields, "type", Null) == Str("management")
       && Truthy(Get(advertiser.fields, "office", Null))
    then
      var office := Get(advertiser.fields, "office", Null);
      if office.Obj? then
        var phones := Get(office.fields, "phones", Arr([]));
        if Truthy(phones) && phones.Arr? && |phones.items| > 0 && phones.items[0].Obj?
        then Some(Get(phones.items[0].fields, "number", NA))
        else None
      else None
    else None
  }

  /** The numbers of the qualifying advertisers, in order. */
  function QualifyingNumbers(advertisers: seq<Value>): seq<Value> {
    if |advertisers| == 0 then []
    else
      var last := ManagementNumber(advertisers[|advertisers| - 1]);
      QualifyingNumbers(advertisers[..|advertisers| - 1]) + (if last.Some? then [last.value] else [])
  }

  /** The contact phone (api_functions.py:232-246): the loop has no `break`,
      so the last qualifying advertiser wins (`PhoneLastWins`); "N/A" when
      none qualifies (`PhoneDefault`). Any other phone is the number of some
      qualifying advertiser. */
  function ContactPhone(advertisers: Value): (r: Value)
    ensures r == NA || (advertisers.Arr? &&
              exists j :: 0 <= j < |advertisers.items| && ManagementNumber(advertisers.items[j]) == Some(r))
  {
    if Truthy(advertisers) && advertisers.Arr? then
      var numbers := QualifyingNumbers(advertisers.items);
      if |numbers| == 0 then NA
      else
        QualifyingNumbersFrom(advertisers.items);
        numbers[|numbers| - 1]
    else NA
  }

  /** The last qualifying number is the number of some advertiser. */
  lemma {:induction false} QualifyingNumbersFrom(advertisers: seq<Value>)
    requires |QualifyingNumbers(advertisers)| > 0
    ensures var numbers := QualifyingNumbers(advertisers);
      exists j :: 0 <= j < |advertisers| && ManagementNumber(advertisers[j]) == Some(numbers[|numbers| - 1])
  {
    var n := |advertisers|;
    var init := advertisers[..n - 1];
    if ManagementNumber(advertisers[n - 1]).None? {
      QualifyingNumbersFrom(init);
      var j :| 0 <= j < |init| && ManagementNumber(init[j]) == Some(QualifyingNumbers(init)[|QualifyingNumbers(init)| - 1]);
      assert advertisers[j] == init[j];
    }
  }

  lemma {:induction false} QualifyingNumbersLast(advertisers: seq<Value>, i: nat)
    requires i < |advertisers| && ManagementNumber(advertisers[i]).Some?
    requires forall j :: i < j < |advertisers| ==> ManagementNumber(advertisers[j]).None?
    ensures var numbers := QualifyingNumbers(advertisers);
      |numbers| > 0 && numbers[|numbers| - 1] == ManagementNumber(advertisers[i]).value
  {
    var init := advertisers[..|advertisers| - 1];
    if i < |advertisers| - 1 {
      assert forall j :: i < j < |init| ==> init[j] == advertisers[j];
      QualifyingNumbersLast(init, i);
    }
  }

  lemma {:induction false} QualifyingNumbersEmpty(advertisers: seq<Value>)
    ensures QualifyingNumbers(advertisers) == []
            <==> forall j :: 0 <= j < |advertisers| ==> ManagementNumber(advertisers[j]).None?
  {
    if |advertisers| > 0 {
      var init := advertisers[..|advertisers| - 1];
      QualifyingNumbersEmpty(init);
      assert forall j :: 0 <= j < |init| ==> init[j] == advertisers[j];
    }
  }

  /** Last one wins: the phone comes from a qualifying advertiser after which
      no advertiser qualifies. */
  lemma PhoneLastWins(advertisers: seq<Value>, i: nat)
    requires i < |advertisers| && ManagementNumber(advertisers[i]).Some?
    requires forall j :: i < j < |advertisers| ==> ManagementNumber(advertisers[j]).None?
    ensures ContactPhone(Arr(advertisers)) == ManagementNumber(advertisers[i]).value
  {
    QualifyingNumbersLast(advertisers, i);
  }

  /** With no qualifying advertiser, or no advertiser list, the phone is "N/A". */
  lemma PhoneDefault(advertisers: Value)
    requires !advertisers.Arr? || forall j :: 0 <= j < |advertisers.items| ==> ManagementNumber(advertisers.items[j]).None?
    ensures ContactPhone(advertisers) == NA
  {
    if advertisers.Arr? {
      QualifyingNumbersEmpty(advertisers.items);
    }
  }

  /** The advertiser loop as the source writes it: every qualifying
      advertiser overwrites the phone. */
  method ScanAdvertisers(advertisers: Value) returns (phone: Value)
    ensures phone == ContactPhone(advertisers)
  {
    phone := NA;
    if Truthy(advertisers) && advertisers.Arr? {
      var list := advertisers.items;
      var i := 0;
      while i < |list|
        invariant 0 <= i <= |list|
        invariant var numbers := QualifyingNumbers(list[..i]);
          phone == if |numbers| == 0 then NA else numbers[|numbers| - 1]
      {
        assert list[..i + 1][..i] == list[..i];
        var advertiser := list[i];
        if advertiser.Obj? {
          if Get(advertiser.fields, "type", Null) == Str("management")
             && Truthy(Get(advertiser.fields, "office", Null)) {
            var office := Get(advertiser.fields, "office", Null);
            if office.Obj? {
              var phones := Get(office.fields, "phones", Arr([]));
              if Truthy(phones) && phones.Arr? && |phones.items| > 0 {
                if phones.items[0].Obj? {
                  phone := Get(phones.items[0].fields, "number", NA);
                }
              }
            }
          }
        }
        i := i + 1;
      }
      assert list[..i] == list;
    }
  }
}
