/** The rental normaliser `display_and_store_rentals` (api_functions.py:54-313):
    a decoded search response becomes a table of flat rental records, one
    per listing that can be read, in listing order. A listing whose
    processing raises is skipped by the outer `except`; the only places that
    can raise are the `.get` calls on the listing itself, its "location",
    its "address" and its "description". */
module Rentals {
  import opened Wrappers
  import opened Json
  import opened Text
  import opened Numerals
  import Flags
  import Details
  import Fields
  import opened Payload

  /** One row of the rental table, with the source's columns in order. */
  datatype RentalRecord = RentalRecord(
    address: Value, city: Value, state: Value, zip: Value,
    monthlyRent: string, rent: Value,
    beds: Value, baths: Value, sqft: Value, propertyType: Value, subType: Value,
    status: string, securityDeposit: string, availableFrom: string, petsAllowed: string,
    listingId: Value, propertyId: Value, listDate: Value,
    contactPhone: Value, primaryImage: Value, additionalPhotos: nat,
    virtualTour: Value, listingUrl: string)

  /** The listing can be processed without raising: it is a dict, and its
      "location", the location's "address" and its "description" are dicts
      where present. */
  predicate RentalEntryOk(prop: Value) {
    && prop.Obj?
    && Fields.ExtractAddress(prop.fields).Some?
    && Get(prop.fields, "description", Obj([])).Obj?
  }

  /** The facts that tie a record's columns together. */
  predicate Consistent(rec: RentalRecord) {
    && (rec.monthlyRent == "N/A" ==> rec.rent == NA)
    && (rec.rent.Int? ==> |rec.monthlyRent| >= 2 && rec.monthlyRent[0] == '$'
                          && ParseInt(RemoveCommas(rec.monthlyRent[1..])) == Some(rec.rent.i))
    && rec.status != ""
    && rec.petsAllowed != ""
    && (rec.listingUrl == "N/A"
        || (|Fields.RentalUrlPrefix| <= |rec.listingUrl|
            && rec.listingUrl[..|Fields.RentalUrlPrefix|] == Fields.RentalUrlPrefix))
  }

  /** The "Rent" column: the raw price, or the string "N/A" when it is absent
      or null (api_functions.py:90-102). */
  function RentColumn(rent: Value): (r: Value)
    ensures rent.Null? ==> r == NA
    ensures !rent.Null? ==> r == rent
  {
    if rent.Null? then NA else rent
  }

  /** The record built from one listing (api_functions.py:64-295), or None
      when the source skips it. */
  function NormaliseRental(prop: Value): (r: Option<RentalRecord>)
    ensures r.Some? <==> RentalEntryOk(prop)
    ensures r.Some? ==> Consistent(r.value)
    ensures r.Some? ==> r.value.rent == RentColumn(Get(prop.fields, "list_price", Null))
  {
    if !prop.Obj? then None
    else
      var p := prop.fields;
      var addr :- Fields.ExtractAddress(p);
      var description := Get(p, "description", Obj([]));
      if !description.Obj? then None
      else
        var d := description.fields;
        var rent := Get(p, "list_price", Null);
        var details := Get(p, "details", Arr([]));
        Fields.PrefixesWellFormed();
        var rec := RentalRecord(
          addr.line, addr.city, addr.state, addr.zip,
          Fields.FormatRent(rent), RentColumn(rent),
          Get(d, "beds", NA), Get(d, "baths_consolidated", NA), Get(d, "sqft", NA),
          Get(d, "type", NA), Get(d, "sub_type", NA),
          Flags.RentalStatus(Get(p, "flags", Obj([]))),
          Details.DetailValue(details, Details.RentalInfo, Details.DepositMarker),
          Details.DetailValue(details, Details.OtherPropertyInfo, Details.AvailabilityMarker),
          Flags.PetsSummary(Get(p, "pet_policy", Obj([]))),
          Get(p, "listing_id", NA), Get(p, "property_id", NA), Get(p, "list_date", NA),
          Details.ContactPhone(Get(p, "advertisers", Arr([]))),
          Fields.RentalPrimaryImage(Get(p, "primary_photo", Obj([]))),
          Fields.RentalPhotoCount(Get(p, "photos", Arr([]))),
          Fields.GuardedFirstField(Get(p, "virtual_tours", Arr([])), "href"),
          Fields.ListingUrl(Fields.RentalUrlPrefix, Get(p, "permalink", NA)));
        RentRecordFacts(rent);
        Some(rec)
  }

  lemma RentRecordFacts(rent: Value)
    ensures Fields.FormatRent(rent) == "N/A" ==> RentColumn(rent) == NA
    ensures rent.Int? ==> var m := Fields.FormatRent(rent);
      |m| >= 2 && m[0] == '$' && ParseInt(RemoveCommas(m[1..])) == Some(rent.i)
  {
    if rent.Int? {
      Fields.FormatRentReadsBack(rent.i);
    }
  }

  /** The outcome of every listing, in listing order. */
  function Outcomes(props: seq<Value>): (r: seq<Option<RentalRecord>>)
    ensures |r| == |props|
    ensures forall k :: 0 <= k < |props| ==> r[k] == NormaliseRental(props[k])
  {
    seq(|props|, k requires 0 <= k < |props| => NormaliseRental(props[k]))
  }

  /** The records of the listings that are kept, in listing order
      (api_functions.py:64-295). */
  function RentalRows(props: seq<Value>): seq<RentalRecord> {
    Present(Outcomes(props))
  }

  /** The table of a concatenation is the concatenation of the tables: records
      keep the order of their listings. */
  lemma RentalRowsAppend(a: seq<Value>, b: seq<Value>)
    ensures RentalRows(a + b) == RentalRows(a) + RentalRows(b)
  {
    OutcomesAppend(a, b);
    PresentAppend(Outcomes(a), Outcomes(b));
  }

  /** The outcomes of a concatenation, position by position. */
  lemma OutcomesAppend(a: seq<Value>, b: seq<Value>)
    ensures Outcomes(a + b) == Outcomes(a) + Outcomes(b)
  {
    var whole, parts := Outcomes(a + b), Outcomes(a) + Outcomes(b);
    forall k | 0 <= k < |whole| ensures whole[k] == parts[k] {
      if k < |a| {
        assert (a + b)[k] == a[k];
      } else {
        assert (a + b)[k] == b[k - |a|];
      }
    }
  }

  /** When every listing is readable there is one record per listing, and the
      k-th record comes from the k-th listing. */
  lemma RentalRowsAllKept(props: seq<Value>)
    requires forall k :: 0 <= k < |props| ==> RentalEntryOk(props[k])
    ensures |RentalRows(props)| == |props|
    ensures forall k :: 0 <= k < |props| ==> Some(RentalRows(props)[k]) == NormaliseRental(props[k])
  {
    PresentAll(Outcomes(props));
  }

  /** When no listing is readable the table is empty. */
  lemma RentalRowsNoneKept(props: seq<Value>)
    requires forall k :: 0 <= k < |props| ==> !RentalEntryOk(props[k])
    ensures RentalRows(props) == []
  {
    PresentNone(Outcomes(props));
  }

  /** Every record comes from some listing, so the table is never longer than
      the listing list and every row is consistent. */
  lemma RentalRowsFromListings(props: seq<Value>)
    ensures |RentalRows(props)| <= |props|
    ensures forall k :: 0 <= k < |RentalRows(props)| ==>
              exists j :: 0 <= j < |props| && NormaliseRental(props[j]) == Some(RentalRows(props)[k])
  {
    var outcomes := Outcomes(props);
    PresentFrom(outcomes);
    forall k | 0 <= k < |RentalRows(props)|
      ensures exists j :: 0 <= j < |props| && NormaliseRental(props[j]) == Some(RentalRows(props)[k])
    {
      var j :| 0 <= j < |outcomes| && outcomes[j] == Some(RentalRows(props)[k]);
      assert NormaliseRental(props[j]) == Some(RentalRows(props)[k]);
    }
  }

  /** The loop over the listings as the source writes it: a listing whose
      processing raises is skipped and the loop continues. */
  method CollectRentals(props: seq<Value>) returns (rows: seq<RentalRecord>)
    ensures rows == RentalRows(props)
  {
    rows := [];
    for i := 0 to |props|
      invariant rows == RentalRows(props[..i])
    {
      var outcome := NormaliseRental(props[i]);
      assert props[..i + 1] == props[..i] + [props[i]];
      RentalRowsAppend(props[..i], [props[i]]);
      assert Outcomes([props[i]]) == [outcome];
      if outcome.Some? {
        rows := rows + [outcome.value];
      }
    }
    assert props[..|props|] == props;
  }

  /** The normaliser's result: None ("no rental properties found") when the
      payload is falsy or lacks "properties", otherwise the table of the
      readable listings. */
  function RentalTable(payload: Value): (r: Option<seq<RentalRecord>>)
    requires Shaped(payload)
    ensures r.None? <==> !Found(payload)
    ensures r.Some? ==> |r.value| <= |Listings(payload)|
    ensures r.Some? ==> forall k :: 0 <= k < |r.value| ==> Consistent(r.value[k])
  {
    if !Found(payload) then None
    else
      var rows := RentalRows(Listings(payload));
      RentalRowsFromListings(Listings(payload));
      assert forall k :: 0 <= k < |rows| ==> Consistent(rows[k]) by {
        forall k | 0 <= k < |rows| ensures Consistent(rows[k]) {
          var j :| 0 <= j < |Listings(payload)| && NormaliseRental(Listings(payload)[j]) == Some(rows[k]);
        }
      }
      Some(rows)
  }

  /** A "properties" entry that is a string or a dict is walked as strings,
      none of which is a listing, so the table is empty. */
  lemma StringPropertiesGiveEmptyTable(payload: Value)
    requires payload.Obj? && Lookup(payload.fields, PropertiesKey).Some?
    requires Lookup(payload.fields, PropertiesKey).value.Str? || Lookup(payload.fields, PropertiesKey).value.Obj?
    ensures Shaped(payload)
    ensures RentalTable(payload) == Some([])
  {
    var listings := Listings(payload);
    RentalRowsNoneKept(listings);
  }
}
