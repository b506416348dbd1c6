/**
  The listing record the crawl loop builds for each page
  (selenium_scraper.py:106-162): sixteen fields, each read through one
  element lookup and one of the text normalisers, and kept in a fixed key
  order.
*/
module Record {
  import opened Wrappers
  import opened Strings
  import opened Dom
  import opened PriceParse
  import opened BedBath

  /**
    The element lookups of a listing page, one per CSS selector in the
    source. The amenities and description selectors differ only in
    whitespace, so both are `AmenitiesBlock`; the permit-number selector is
    written with `nth-child` and is its own lookup.
  */
  datatype Selector =
    | PropertyIdCell | PurposeCell | TypeCell | AddedOnCell | FurnishingCell
    | HeaderInfo | LocationLine | BedBathSizeLine | PermitNumberCell
    | AgentLink | PrimaryImage | Breadcrumb | AmenitiesBlock | ImageGallery

  /** A parsed page, reduced to what each selector finds first; absent when nothing matches. */
  type Doc = map<Selector, Tag>

  /** `soup.select_one(selector)`. */
  function SelectOne(doc: Doc, sel: Selector): (r: Option<Tag>)
    ensures r.Some? <==> sel in doc
    ensures r.Some? ==> r.value == doc[sel]
  {
    if sel in doc then Some(doc[sel]) else None
  }

  /** `get_text(soup.select_one(selector))`. */
  function TextAt(doc: Doc, sel: Selector): string {
    GetText(SelectOne(doc, sel))
  }

  datatype Item = Item(
    propertyId: string,
    propertyUrl: string,
    purpose: string,
    propertyType: string,
    addedOn: string,
    furnishing: string,
    price: Price,
    location: string,
    bedBathSize: BedBathSize,
    permitNumber: string,
    agentName: string,
    primaryImageUrl: string,
    breadcrumbs: string,
    amenities: string,
    description: string,
    propertyImageUrls: seq<string>)

  /**
    What every built record satisfies: text fields carry no surrounding
    whitespace, the price is either empty or a currency run with a digit
    amount, the bed/bath/size fields are digits, and no image url is empty.
  */
  predicate WellFormed(it: Item) {
    Trimmed(it.propertyId) && Trimmed(it.purpose) && Trimmed(it.propertyType)
    && Trimmed(it.addedOn) && Trimmed(it.furnishing) && Trimmed(it.location)
    && Trimmed(it.permitNumber) && Trimmed(it.agentName) && Trimmed(it.breadcrumbs)
    && Trimmed(it.amenities) && Trimmed(it.description)
    && AllCurrency(it.price.currency) && DigitsOnly(it.price.amount)
    && (it.price.currency == "" ==> it.price.amount == "")
    && DigitsOnly(it.bedBathSize.beds) && DigitsOnly(it.bedBathSize.baths)
    && DigitsOnly(it.bedBathSize.sqft)
    && forall k :: 0 <= k < |it.propertyImageUrls| ==> it.propertyImageUrls[k] != ""
  }

  /** The record for the page at `url`, one field per lookup. */
  function BuildItem(url: string, doc: Doc): Item {
    Item(
      TextAt(doc, PropertyIdCell),
      url,
      TextAt(doc, PurposeCell),
      TextAt(doc, TypeCell),
      TextAt(doc, AddedOnCell),
      TextAt(doc, FurnishingCell),
      ExtractPrice(TextAt(doc, HeaderInfo)),
      TextAt(doc, LocationLine),
      PositionalParse(TextAt(doc, BedBathSizeLine)),
      TextAt(doc, PermitNumberCell),
      TextAt(doc, AgentLink),
      GetImageUrl(SelectOne(doc, PrimaryImage)),
      TextAt(doc, Breadcrumb),
      TextAt(doc, AmenitiesBlock),
      TextAt(doc, AmenitiesBlock),
      GetImageUrls(SelectOne(doc, ImageGallery)))
  }

  /**
    The record for the page at `url` is well formed: the url is kept as
    given, the property id is the text of its cell, the description repeats
    the amenities block, and every field whose element is missing is empty
    (the price and the bed/bath/size record have all their parts empty).
  */
  lemma BuildItemShape(url: string, doc: Doc)
    ensures WellFormed(BuildItem(url, doc))
    ensures BuildItem(url, doc).propertyUrl == url
    ensures BuildItem(url, doc).propertyId == TextAt(doc, PropertyIdCell)
    ensures BuildItem(url, doc).description == BuildItem(url, doc).amenities
    ensures PropertyIdCell !in doc ==> BuildItem(url, doc).propertyId == ""
    ensures PurposeCell !in doc ==> BuildItem(url, doc).purpose == ""
    ensures TypeCell !in doc ==> BuildItem(url, doc).propertyType == ""
    ensures AddedOnCell !in doc ==> BuildItem(url, doc).addedOn == ""
    ensures FurnishingCell !in doc ==> BuildItem(url, doc).furnishing == ""
    ensures LocationLine !in doc ==> BuildItem(url, doc).location == ""
    ensures PermitNumberCell !in doc ==> BuildItem(url, doc).permitNumber == ""
    ensures AgentLink !in doc ==> BuildItem(url, doc).agentName == ""
    ensures Breadcrumb !in doc ==> BuildItem(url, doc).breadcrumbs == ""
    ensures AmenitiesBlock !in doc ==> BuildItem(url, doc).amenities == "" && BuildItem(url, doc).description == ""
    ensures HeaderInfo !in doc ==> BuildItem(url, doc).price == Price("", "")
    ensures BedBathSizeLine !in doc ==> BuildItem(url, doc).bedBathSize == BedBathSize("", "", "")
    ensures PrimaryImage !in doc ==> BuildItem(url, doc).primaryImageUrl == ""
    ensures ImageGallery !in doc ==> BuildItem(url, doc).propertyImageUrls == []
  {
    ImageUrlsOfImages(SelectOne(doc, ImageGallery));
  }

  /** A value in the dictionary the record is written as. */
  datatype Value = Str(s: string) | Obj(fields: seq<(string, string)>) | Strs(items: seq<string>)

  /** The record's keys, in the order the record lists them. */
  const ItemKeys: seq<string> := [
    "property_id", "property_url", "purpose", "type", "added_on", "furnishing",
    "price", "location", "bed_bath_size", "permit_number", "agent_name",
    "primary_image_url", "breadcrumbs", "amenities", "description",
    "property_image_urls"]

  function PriceValue(p: Price): Value {
    Obj([("currency", p.currency), ("amount", p.amount)])
  }

  function BedBathValue(b: BedBathSize): Value {
    Obj([("beds", b.beds), ("baths", b.baths), ("sqft", b.sqft)])
  }

  /** The record as an ordered dictionary: one entry per key of `ItemKeys`, in that order. */
  function Entries(it: Item): (e: seq<(string, Value)>)
    ensures |e| == |ItemKeys|
    ensures forall k :: 0 <= k < |e| ==> e[k].0 == ItemKeys[k]
  {
    [("property_id", Str(it.propertyId)),
     ("property_url", Str(it.propertyUrl)),
     ("purpose", Str(it.purpose)),
     ("type", Str(it.propertyType)),
     ("added_on", Str(it.addedOn)),
     ("furnishing", Str(it.furnishing)),
     ("price", PriceValue(it.price)),
     ("location", Str(it.location)),
     ("bed_bath_size", BedBathValue(it.bedBathSize)),
     ("permit_number", Str(it.permitNumber)),
     ("agent_name", Str(it.agentName)),
     ("primary_image_url", Str(it.primaryImageUrl)),
     ("breadcrumbs", Str(it.breadcrumbs)),
     ("amenities", Str(it.amenities)),
     ("description", Str(it.description)),
     ("property_image_urls", Strs(it.propertyImageUrls))]
  }

  /** The string of a `Str` value. */
  function AsStr(v: Value): Option<string> {
    if v.Str? then Some(v.s) else None
  }

  function AsPrice(v: Value): Option<Price> {
    if v.Obj? && |v.fields| == 2 && v.fields[0].0 == "currency" && v.fields[1].0 == "amount"
    then Some(Price(v.fields[0].1, v.fields[1].1))
    else None
  }

  function AsBedBath(v: Value): Option<BedBathSize> {
    if v.Obj? && |v.fields| == 3 && v.fields[0].0 == "beds" && v.fields[1].0 == "baths"
       && v.fields[2].0 == "sqft"
    then Some(BedBathSize(v.fields[0].1, v.fields[1].1, v.fields[2].1))
    else None
  }

  /** Every entry has the key and the shape its position calls for. */
  predicate Shaped(e: seq<(string, Value)>) {
    |e| == |ItemKeys|
    && (forall k :: 0 <= k < |e| ==> e[k].0 == ItemKeys[k])
    && AsStr(e[0].1).Some? && AsStr(e[1].1).Some? && AsStr(e[2].1).Some?
    && AsStr(e[3].1).Some? && AsStr(e[4].1).Some? && AsStr(e[5].1).Some?
    && AsPrice(e[6].1).Some? && AsStr(e[7].1).Some? && AsBedBath(e[8].1).Some?
    && AsStr(e[9].1).Some? && AsStr(e[10].1).Some? && AsStr(e[11].1).Some?
    && AsStr(e[12].1).Some? && AsStr(e[13].1).Some? && AsStr(e[14].1).Some?
    && e[15].1.Strs?
  }

  /** Reads a record back from its dictionary; `None` for a dictionary of the wrong shape. */
  function FromEntries(e: seq<(string, Value)>): (r: Option<Item>)
    ensures r.Some? <==> Shaped(e)
  {
    if Shaped(e) then
      Some(Item(
        AsStr(e[0].1).value, AsStr(e[1].1).value, AsStr(e[2].1).value,
        AsStr(e[3].1).value, AsStr(e[4].1).value, AsStr(e[5].1).value,
        AsPrice(e[6].1).value, AsStr(e[7].1).value, AsBedBath(e[8].1).value,
        AsStr(e[9].1).value, AsStr(e[10].1).value, AsStr(e[11].1).value,
        AsStr(e[12].1).value, AsStr(e[13].1).value, AsStr(e[14].1).value,
        e[15].1.items))
    else None
  }

  /** Writing a record as its dictionary loses nothing: it reads back unchanged. */
  lemma EntriesRoundTrip(it: Item)
    ensures FromEntries(Entries(it)) == Some(it)
  {
    var e := Entries(it);
    assert Shaped(e);
  }

  /** And every well-shaped dictionary is the dictionary of the record it reads back as. */
  lemma FromEntriesRoundTrip(e: seq<(string, Value)>)
    requires Shaped(e)
    ensures Entries(FromEntries(e).value) == e
  {
    var e' := Entries(FromEntries(e).value);
    var p := e[6].1.fields;
    assert PriceValue(AsPrice(e[6].1).value).fields == p;
    var b := e[8].1.fields;
    assert BedBathValue(AsBedBath(e[8].1).value).fields == b;
    assert forall k :: 0 <= k < |e| ==> e'[k] == e[k];
  }

  /** No key is listed twice. */
  lemma ItemKeysDistinct()
    ensures forall i, j :: 0 <= i < j < |ItemKeys| ==> ItemKeys[i] != ItemKeys[j]
  {
  }
}
