/** The for-sale normaliser `display_and_store_properties`
    (api_functions.py:352-490). Unlike the rental path it has no exception
    handling: any listing it cannot read makes the whole call raise, so the
    model takes well-formed listings as a precondition and returns one
    record per listing, in order. */
module Sales {
  import opened Wrappers
  import opened Json
  import opened Text
  import Flags
  import Fields
  import Rentals
  import opened Payload

  /** One row of the for-sale table, with the source's columns in order. */
  datatype SaleRecord = SaleRecord(
    address: Value, city: Value, state: Value, zip: Value,
    price: Value, beds: Value, baths: Value, sqft: Value, lotSize: Value,
    propertyType: Value, status: string,
    listingId: Value, propertyId: Value, listDate: Value,
    primaryImage: Value, additionalPhotos: nat, virtualTour: Value,
    listedBy: Value, listingUrl: string)

  /** The listing can be processed without raising: it is a dict; its
      "location", address, "description" and "flags" are dicts where
      present; a truthy "primary_photo" is a dict; a truthy "photos" has a
      length; a truthy "virtual_tours" or "branding" is a list whose first
      entry is a dict. */
  predicate SaleEntryOk(prop: Value) {
    && prop.Obj?
    && Fields.ExtractAddress(prop.fields).Some?
    && Get(prop.fields, "description", Obj([])).Obj?
    && Get(prop.fields, "flags", Obj([])).Obj?
    && Fields.SalePrimaryPhotoOk(Get(prop.fields, "primary_photo", Null))
    && Fields.SalePhotosOk(Get(prop.fields, "photos", Arr([])))
    && Fields.FirstEntryOk(Get(prop.fields, "virtual_tours", Arr([])))
    && Fields.FirstEntryOk(Get(prop.fields, "branding", Arr([])))
  }

  /** The record built from one listing (api_functions.py:362-476). The price
      defaults to "N/A" only when the key is absent; an explicit null stays. */
  function NormaliseSale(prop: Value): (r: SaleRecord)
    requires SaleEntryOk(prop)
    ensures r.status != ""
    ensures r.status == "ACTIVE"
            <==> forall i :: 0 <= i < |Flags.SaleFlags| ==> !FlagSet(Get(prop.fields, "flags", Obj([])).fields, Flags.SaleFlags[i].0)
    ensures Lookup(prop.fields, "list_price").None? ==> r.price == NA
    ensures Lookup(prop.fields, "list_price").Some? ==> r.price == Lookup(prop.fields, "list_price").value
  {
    var p := prop.fields;
    var addr := Fields.ExtractAddress(p).value;
    var d := Get(p, "description", Obj([])).fields;
    Fields.PrefixesWellFormed();
    SaleRecord(
      addr.line, addr.city, addr.state, addr.zip,
      Get(p, "list_price", NA),
      Get(d, "beds", NA), Get(d, "baths_consolidated", NA), Get(d, "sqft", NA),
      Get(d, "lot_sqft", NA), Get(d, "type", NA),
      Flags.SaleStatus(Get(p, "flags", Obj([]))),
      Get(p, "listing_id", NA), Get(p, "property_id", NA), Get(p, "list_date", NA),
      Fields.SalePrimaryImage(Get(p, "primary_photo", Null)),
      Fields.SalePhotoCount(Get(p, "photos", Arr([]))),
      Fields.FirstField(Get(p, "virtual_tours", Arr([])), "href"),
      Fields.FirstField(Get(p, "branding", Arr([])), "name"),
      Fields.ListingUrl(Fields.SaleUrlPrefix, Get(p, "permalink", NA)))
  }

  /** The descriptive columns agree: address, size, type, ids and date. */
  lemma DescriptionsAgree(prop: Value)
    requires SaleEntryOk(prop)
    ensures Rentals.RentalEntryOk(prop)
    ensures var rent := Rentals.NormaliseRental(prop).value; var sale := NormaliseSale(prop);
      && rent.address == sale.address && rent.city == sale.city
      && rent.state == sale.state && rent.zip == sale.zip
      && rent.beds == sale.beds && rent.baths == sale.baths && rent.sqft == sale.sqft
      && rent.propertyType == sale.propertyType
      && rent.listingId == sale.listingId && rent.propertyId == sale.propertyId
      && rent.listDate == sale.listDate
  {
  }

  /** The media columns agree: the primary image, the first virtual tour and,
      when "photos" is a list or falsy, the number of additional photos. */
  lemma MediaAgree(prop: Value)
    requires SaleEntryOk(prop)
    ensures Rentals.RentalEntryOk(prop)
    ensures var rent := Rentals.NormaliseRental(prop).value; var sale := NormaliseSale(prop);
      && rent.primaryImage == sale.primaryImage
      && rent.virtualTour == sale.virtualTour
      && (Get(prop.fields, "photos", Arr([])).Arr? || !Truthy(Get(prop.fields, "photos", Arr([])))
          ==> rent.additionalPhotos == sale.additionalPhotos)
  {
    var p := prop.fields;
    var photo := Get(p, "primary_photo", Obj([]));
    assert Get(p, "primary_photo", Null) == photo || (!Truthy(photo) && !Truthy(Get(p, "primary_photo", Null)));
    Fields.PrimaryImagesAgree(Get(p, "primary_photo", Null));
    Fields.FirstFieldsAgree(Get(p, "virtual_tours", Arr([])), "href");
    var photos := Get(p, "photos", Arr([]));
    if photos.Arr? || !Truthy(photos) {
      Fields.PhotoCountsAgree(photos);
    }
  }

  /** The listing URLs carry the same permalink under different prefixes,
      and the price equals the rental "Rent" column unless "list_price" is an
      explicit null. */
  lemma LinksAndPricesAgree(prop: Value)
    requires SaleEntryOk(prop)
    ensures Rentals.RentalEntryOk(prop)
    ensures var rent := Rentals.NormaliseRental(prop).value; var sale := NormaliseSale(prop);
      && (rent.listingUrl == "N/A" <==> sale.listingUrl == "N/A")
      && (rent.listingUrl != "N/A" ==>
            rent.listingUrl[|Fields.RentalUrlPrefix|..] == sale.listingUrl[|Fields.SaleUrlPrefix|..])
      && (Lookup(prop.fields, "list_price") != Some(Null) ==> rent.rent == sale.price)
  {
  }

  /** Every listing the sale path reads, the rental path reads too, and the
      two agree on every column they share. The photo counts agree when
      "photos" is a list or falsy, the listing URLs carry the same permalink
      under different prefixes, and the price equals the rental "Rent" column
      except when "list_price" is an explicit null (the rental path shows
      "N/A", the sale path keeps the null). */
  lemma SaleAndRentalAgree(prop: Value)
    requires SaleEntryOk(prop)
    ensures Rentals.RentalEntryOk(prop)
    ensures var rent := Rentals.NormaliseRental(prop).value; var sale := NormaliseSale(prop);
      && rent.address == sale.address && rent.city == sale.city
      && rent.state == sale.state && rent.zip == sale.zip
      && rent.beds == sale.beds && rent.baths == sale.baths && rent.sqft == sale.sqft
      && rent.propertyType == sale.propertyType
      && rent.listingId == sale.listingId && rent.propertyId == sale.propertyId
      && rent.listDate == sale.listDate
      && rent.primaryImage == sale.primaryImage
      && rent.virtualTour == sale.virtualTour
      && (Get(prop.fields, "photos", Arr([])).Arr? || !Truthy(Get(prop.fields, "photos", Arr([])))
          ==> rent.additionalPhotos == sale.additionalPhotos)
      && (rent.listingUrl == "N/A" <==> sale.listingUrl == "N/A")
      && (rent.listingUrl != "N/A" ==>
            rent.listingUrl[|Fields.RentalUrlPrefix|..] == sale.listingUrl[|Fields.SaleUrlPrefix|..])
      && (Lookup(prop.fields, "list_price") != Some(Null) ==> rent.rent == sale.price)
  {
    DescriptionsAgree(prop);
    MediaAgree(prop);
    LinksAndPricesAgree(prop);
  }

  /** The loop over the listings (api_functions.py:362-476): one record per
      listing, in order. */
  method CollectSales(props: seq<Value>) returns (rows: seq<SaleRecord>)
    requires forall k :: 0 <= k < |props| ==> SaleEntryOk(props[k])
    ensures |rows| == |props|
    ensures forall k :: 0 <= k < |props| ==> rows[k] == NormaliseSale(props[k])
  {
    rows := MapAll(props, NormaliseSale);
  }

  /** The payloads on which the sale normaliser does not raise: the payload
      check and the loop header succeed and every listing is readable. A
      "properties" string or dict is walked as strings, which are not
      listings, so it must be empty. */
  predicate SalePayloadOk(payload: Value) {
    && Shaped(payload)
    && (Found(payload) ==> forall k :: 0 <= k < |Listings(payload)| ==> SaleEntryOk(Listings(payload)[k]))
  }

  /** The normaliser's result: None when the payload is falsy or lacks
      "properties", otherwise one record per listing. */
  method SaleTable(payload: Value) returns (r: Option<seq<SaleRecord>>)
    requires SalePayloadOk(payload)
    ensures r.None? <==> !Found(payload)
    ensures r.Some? ==> |r.value| == |Listings(payload)|
    ensures r.Some? ==> forall k :: 0 <= k < |r.value| ==> r.value[k] == NormaliseSale(Listings(payload)[k])
  {
    if !Found(payload) {
      return None;
    }
    var rows := CollectSales(Listings(payload));
    return Some(rows);
  }

  /** A string or dict under "properties" is walked as strings, none of
      which is a readable listing, so it is acceptable exactly when empty. */
  lemma StringPropertiesMustBeEmpty(payload: Value)
    requires Shaped(payload) && Found(payload)
    requires Lookup(payload.fields, PropertiesKey).value.Str? || Lookup(payload.fields, PropertiesKey).value.Obj?
    ensures SalePayloadOk(payload) <==> |Listings(payload)| == 0
  {
    var listings := Listings(payload);
    forall k | 0 <= k < |listings| ensures !SaleEntryOk(listings[k]) {
      assert listings[k].Str?;
    }
    if |listings| > 0 {
      assert !SaleEntryOk(listings[0]);
    }
  }
}
