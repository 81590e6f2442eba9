/** The single-valued fields both normalisers derive from a listing: photo
    count, first virtual tour or branding entry, primary image, listing URL,
    the rent display and the address block. The rental path guards every
    access with type checks; the sale path reaches into the same values
    without guards, so its versions carry the precondition under which the
    source's expression does not raise. */
module Fields {
  import opened Wrappers
  import opened Json
  import opened Numerals
  import opened Text

  /** Python's `len(v)`, defined for strings, lists and dicts only. */
  function PyLen(v: Value): Option<nat> {
    match v
    case Str(s) => Some(|s|)
    case Arr(items) => Some(|items|)
    case Obj(fields) => Some(|fields|)
    case _ => None
  }

  /** Additional photos on the rental path (api_functions.py:206-210): the
      photos beyond the first, counted only when "photos" is a non-empty list. */
  function RentalPhotoCount(photos: Value): (r: nat)
    ensures r > 0 <==> photos.Arr? && |photos.items| >= 2
    ensures photos.Arr? && |photos.items| >= 1 ==> r + 1 == |photos.items|
  {
    if Truthy(photos) && photos.Arr? then
      if |photos.items| - 1 > 0 then |photos.items| - 1 else 0
    else 0
  }

  /** "photos" is falsy or has a length, so the sale path's `len` does not raise. */
  predicate SalePhotosOk(photos: Value) {
    !Truthy(photos) || PyLen(photos).Some?
  }

  /** Additional photos on the sale path (api_functions.py:433-434): one less
      than the length when the length exceeds one. A string counts its
      characters and a dict its keys, as `len` does. */
  function SalePhotoCount(photos: Value): (r: nat)
    requires SalePhotosOk(photos)
    ensures r > 0 <==> PyLen(photos).Some? && PyLen(photos).value >= 2
    ensures PyLen(photos).Some? && PyLen(photos).value >= 1 ==> r + 1 == PyLen(photos).value
  {
    if Truthy(photos) && PyLen(photos).value > 1 then PyLen(photos).value - 1 else 0
  }

  /** On a list, or on any falsy value, the two photo counts agree. */
  lemma PhotoCountsAgree(photos: Value)
    requires photos.Arr? || !Truthy(photos)
    ensures SalePhotosOk(photos)
    ensures RentalPhotoCount(photos) == SalePhotoCount(photos)
  {
  }

  /** The rental path's first-entry lookup (api_functions.py:219-229): when
      the value is a non-empty list whose first entry is a dict, that dict's
      entry under `key` (default "N/A"); otherwise "N/A". */
  function GuardedFirstField(v: Value, key: string): (r: Value)
    ensures v.Arr? && |v.items| > 0 && v.items[0].Obj? && Lookup(v.items[0].fields, key).Some?
            ==> r == Lookup(v.items[0].fields, key).value
    ensures !(v.Arr? && |v.items| > 0 && v.items[0].Obj? && Lookup(v.items[0].fields, key).Some?)
            ==> r == NA
  {
    if Truthy(v) && v.Arr? && |v.items| > 0 && v.items[0].Obj?
    then Get(v.items[0].fields, key, NA)
    else NA
  }

  /** The sale path indexes `[0]` and calls `.get` on any truthy value, which
      only succeeds for a list whose first entry is a dict. */
  predicate FirstEntryOk(v: Value) {
    !Truthy(v) || (v.Arr? && v.items[0].Obj?)
  }

  /** The sale path's first-entry lookup (api_functions.py:439-440 for the
      virtual tour, 445-446 for the listing agency). */
  function FirstField(v: Value, key: string): (r: Value)
    requires FirstEntryOk(v)
    ensures !Truthy(v) ==> r == NA
    ensures Truthy(v) && Lookup(v.items[0].fields, key).Some? ==> r == Lookup(v.items[0].fields, key).value
    ensures Truthy(v) && Lookup(v.items[0].fields, key).None? ==> r == NA
  {
    if Truthy(v) && |v.items| > 0 then Get(v.items[0].fields, key, NA) else NA
  }

  /** Wherever the unguarded sale lookup succeeds it agrees with the guarded
      rental one. */
  lemma FirstFieldsAgree(v: Value, key: string)
    requires FirstEntryOk(v)
    ensures GuardedFirstField(v, key) == FirstField(v, key)
  {
  }

  /** The rental primary image (api_functions.py:194-198): the "href" of a
      truthy dict, else "N/A". */
  function RentalPrimaryImage(photo: Value): (r: Value)
    ensures photo.Obj? && Lookup(photo.fields, "href").Some? ==> r == Lookup(photo.fields, "href").value
    ensures !(photo.Obj? && Lookup(photo.fields, "href").Some?) ==> r == NA
  {
    if Truthy(photo) && photo.Obj? then Get(photo.fields, "href", NA) else NA
  }

  /** `(photo or {})` has `.get` only when a truthy photo is a dict. */
  predicate SalePrimaryPhotoOk(photo: Value) {
    !Truthy(photo) || photo.Obj?
  }

  /** The sale primary image (api_functions.py:428): falsy photos fall back to
      an empty dict and so to "N/A". */
  function SalePrimaryImage(photo: Value): (r: Value)
    requires SalePrimaryPhotoOk(photo)
    ensures !Truthy(photo) ==> r == NA
    ensures photo.Obj? && Lookup(photo.fields, "href").Some? ==> r == Lookup(photo.fields, "href").value
    ensures photo.Obj? && Lookup(photo.fields, "href").None? ==> r == NA
  {
    var dict := if Truthy(photo) then photo.fields else [];
    Get(dict, "href", NA)
  }

  /** Wherever the sale image lookup succeeds it agrees with the rental one. */
  lemma PrimaryImagesAgree(photo: Value)
    requires SalePrimaryPhotoOk(photo)
    ensures RentalPrimaryImage(photo) == SalePrimaryImage(photo)
  {
  }

  const RentalUrlPrefix: string := "https://www.realtor.com/rentals/details/"
  const SaleUrlPrefix: string := "https://www.realtor.com/realestateandhomes-detail/"

  /** A URL prefix cannot be confused with "N/A". */
  predicate UrlPrefix(prefix: string) {
    |prefix| > 0 && prefix[0] == 'h'
  }

  lemma PrefixesWellFormed()
    ensures UrlPrefix(RentalUrlPrefix) && UrlPrefix(SaleUrlPrefix)
  {
  }

  /** The listing URL (api_functions.py:253-261 and 450-452): the site prefix
      followed by the permalink as `str` renders it, unless the permalink is
      the string "N/A". An explicit null permalink renders as "None". */
  function ListingUrl(prefix: string, permalink: Value): (r: string)
    requires UrlPrefix(prefix)
    ensures r == "N/A" <==> permalink == NA
    ensures r != "N/A" ==> |prefix| <= |r| && r[..|prefix|] == prefix && r[|prefix|..] == Render(permalink)
  {
    if permalink != NA then
      var url := prefix + Render(permalink);
      assert url[0] != "N/A"[0];
      url
    else "N/A"
  }

  /** The permalink is recovered from a rental URL by dropping the prefix. */
  lemma ListingUrlReadsBack(prefix: string, permalink: string)
    requires UrlPrefix(prefix) && permalink != "N/A"
    ensures ListingUrl(prefix, Str(permalink)) != "N/A"
    ensures ListingUrl(prefix, Str(permalink))[|prefix|..] == permalink
  {
  }

  /** The "Monthly Rent" display (api_functions.py:89-102). `f"${rent:,}"`
      groups an integer's digits in threes (a boolean formats as 1 or 0); a
      string makes the format raise ValueError and a list or dict TypeError,
      both caught, falling back to `f"${rent}"`. An absent or null rent
      displays as "N/A". */
  function FormatRent(rent: Value): (r: string)
    ensures r == "N/A" <==> rent.Null?
    ensures !rent.Null? ==> |r| >= 1 && r[0] == '$'
    ensures rent.Int? ==> r[1..] == GroupedInt(rent.i)
    ensures rent.Str? ==> r[1..] == rent.s
    ensures rent.Bool? ==> r == (if rent.b then "$1" else "$0")
    ensures rent.Arr? || rent.Obj? ==> r == "$" + Repr(rent)
  {
    if rent.Null? then "N/A"
    else
      var shown := "$" + match rent
        case Int(i) => GroupedInt(i)
        case Bool(b) => if b then "1" else "0"
        case Str(s) => s
        case _ => Repr(rent);
      assert shown[0] != "N/A"[0];
      shown
  }

  /** A leading minus sign survives the deletion of the separators. */
  lemma RemoveCommasSign(g: string)
    ensures RemoveCommas("-" + g) == "-" + RemoveCommas(g)
  {
    RemoveCommasConcat("-", g);
    assert "-"[..0] == "";
  }

  lemma RemoveCommasGroupedInt(i: int)
    ensures RemoveCommas(GroupedInt(i)) == Decimal(i)
  {
    if i < 0 {
      assert GroupedInt(i) == "-" + Grouped(-i);
      assert Decimal(i) == "-" + Digits(-i);
      RemoveCommasSign(Grouped(-i));
      GroupedDigits(-i);
    } else {
      GroupedDigits(i);
    }
  }

  /** Reading an integer rent's display back, dropping the dollar sign and
      the separators, gives the rent. */
  lemma FormatRentReadsBack(i: int)
    ensures var r := FormatRent(Int(i));
      |r| >= 2 && r[0] == '$' && ParseInt(RemoveCommas(r[1..])) == Some(i)
  {
    RemoveCommasGroupedInt(i);
    ParseIntOfDecimal(i);
    assert |GroupedInt(i)| >= 1 by {
      GroupedShape(if i < 0 then -i else i);
    }
  }

  /** Formatting examples: the rent display groups digits in threes. */
  lemma FormatRentSmall()
    ensures FormatRent(Int(950)) == "$950"
    ensures FormatRent(Null) == "N/A"
  {
    assert Digits(9) == "9";
    assert Digits(95) == "95";
  }

  lemma FormatRentThousands()
    ensures FormatRent(Int(1500)) == "$1,500"
  {
    assert Digits(1) == "1";
    assert Pad3(500) == "500";
  }

  lemma FormatRentNegative()
    ensures FormatRent(Int(-2500)) == "$-2,500"
  {
    assert Digits(2) == "2";
    assert Pad3(500) == "500";
  }

  /** The address block of a listing: `prop.get('location', {}).get('address', {})`
      and its four entries, each defaulting to "N/A". */
  datatype Address = Address(line: Value, city: Value, state: Value, zip: Value)

  /** The address of a listing dict, or None where the source raises
      AttributeError because "location" or "address" is present but not a dict
      (api_functions.py:69-73 and 366-370). */
  function ExtractAddress(prop: seq<(string, Value)>): (r: Option<Address>)
    ensures r.Some? <==> Get(prop, "location", Obj([])).Obj?
                         && Get(Get(prop, "location", Obj([])).fields, "address", Obj([])).Obj?
  {
    var location :- DictOf(Get(prop, "location", Obj([])));
    var address :- DictOf(Get(location, "address", Obj([])));
    Some(Address(Get(address, "line", NA), Get(address, "city", NA),
                 Get(address, "state_code", NA), Get(address, "postal_code", NA)))
  }

  /** The fields of a dict, or None for anything that is not one. */
  function DictOf(v: Value): (r: Option<seq<(string, Value)>>)
    ensures r.Some? <==> v.Obj?
    ensures r.Some? ==> r.value == v.fields
  {
    if v.Obj? then Some(v.fields) else None
  }

  /** A listing without location information gets "N/A" everywhere. */
  lemma AddressDefaults(prop: seq<(string, Value)>)
    requires forall k :: 0 <= k < |prop| ==> prop[k].0 != "location"
    ensures ExtractAddress(prop) == Some(Address(NA, NA, NA, NA))
  {
    LookupFirst(prop, "location");
  }
}
