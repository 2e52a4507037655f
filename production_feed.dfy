/** The Apps Script service's reading of a KML document into facility
    records: the ExtendedData fields of a placemark, the coordinate cascade,
    the record it emits, and the walk over every placemark of the document. */
module ProductionFeed {
  import opened Wrappers
  import opened JsText
  import opened Xml
  import opened CoordPattern
  import opened Category
  import opened Resolver

  /** A facility record as the service emits and serves it. */
  datatype Facility = Facility(
    id: string, name: string, kind: string, address: string, note: string,
    lat: real, lng: real, description: string, lastUpdated: string)

  /** The four ExtendedData fields the pipeline reads. */
  datatype Fields = Fields(category: string, address: string, note: string, link: string)

  const NoFields := Fields([], [], [], [])

  /** The `name` attribute of a `Data` element, '' when it has none. */
  function DataName(d: Node): string {
    Attribute(d.attrs, "name").GetOr([])
  }

  /** The text of a `Data` element's `value` child, '' when it has none. */
  function DataValue(d: Node): string {
    match Child(d, "value")
    case None => []
    case Some(v) => v.text
  }

  /** One `Data` element's effect: its value goes to the field its name
      selects; any other name changes nothing. */
  function Assign(f: Fields, d: Node): (r: Fields) {
    var value := DataValue(d);
    match DataName(d)
    case "類別" => f.(category := value)
    case "地址或google座標" => f.(address := value)
    case "備註" => f.(note := value)
    case "地址LINK" => f.(link := value)
    case _ => f
  }

  /** The fields after the `Data` elements `ds`, applied in order. */
  function AssignAll(f: Fields, ds: seq<Node>): Fields
    decreases |ds|
  {
    if ds == [] then f else Assign(AssignAll(f, ds[..|ds| - 1]), ds[|ds| - 1])
  }

  /** The value of the last element of `ds` named `key`, '' when there is none. */
  function LastValue(ds: seq<Node>, key: string): (r: string)
    decreases |ds|
  {
    if ds == [] then []
    else if DataName(ds[|ds| - 1]) == key then DataValue(ds[|ds| - 1])
    else LastValue(ds[..|ds| - 1], key)
  }

  /** The `Data` elements of a placemark: the direct `Data` children of its
      first `ExtendedData` child. */
  function DataElements(placemark: Node): seq<Node> {
    match Child(placemark, "ExtendedData")
    case None => []
    case Some(ext) => Children(ext, "Data")
  }

  /** `parseExtendedData` (and `parseExtendedDataSimple`, which is the same
      code): every field starts empty and each `Data` element, in order,
      overwrites the field its name selects. */
  method ParseExtendedData(placemark: Node) returns (data: Fields)
    ensures data == AssignAll(NoFields, DataElements(placemark))
  {
    data := NoFields;
    var elements := DataElements(placemark);
    var i := 0;
    while i < |elements|
      invariant 0 <= i <= |elements|
      invariant data == AssignAll(NoFields, elements[..i])
    {
      AssignAllStep(NoFields, elements, i);
      data := Assign(data, elements[i]);
      i := i + 1;
    }
    assert elements[..i] == elements;
  }

  /** One more `Data` element applied to the fields of the ones before it. */
  lemma AssignAllStep(f: Fields, ds: seq<Node>, i: nat)
    requires i < |ds|
    ensures AssignAll(f, ds[..i + 1]) == Assign(AssignAll(f, ds[..i]), ds[i])
  {
    assert ds[..i + 1][..i] == ds[..i];
  }

  /** Each field holds the value of the last `Data` element carrying its name:
      later elements overwrite earlier ones and other names are ignored. */
  lemma {:induction false} LastWriteWins(ds: seq<Node>)
    ensures AssignAll(NoFields, ds).category == LastValue(ds, "類別")
    ensures AssignAll(NoFields, ds).address == LastValue(ds, "地址或google座標")
    ensures AssignAll(NoFields, ds).note == LastValue(ds, "備註")
    ensures AssignAll(NoFields, ds).link == LastValue(ds, "地址LINK")
    decreases |ds|
  {
    if ds != [] {
      LastWriteWins(ds[..|ds| - 1]);
    }
  }

  /** A `Data` element with any other name leaves every field as it was. */
  lemma OtherNamesIgnored(f: Fields, ds: seq<Node>, d: Node)
    requires DataName(d) !in {"類別", "地址或google座標", "備註", "地址LINK"}
    ensures AssignAll(f, ds + [d]) == AssignAll(f, ds)
  {
    assert (ds + [d])[..|ds|] == ds;
  }

  /** The coordinates of a placemark's `Point`: the first `Point` child, its
      first `coordinates` child, and that text read as `lng,lat`. */
  function PointCoords(placemark: Node): Option<Coords> {
    match Child(placemark, "Point")
    case None => None
    case Some(point) =>
      match Child(point, "coordinates")
      case None => None
      case Some(c) => CoordsFromPointText(c.text)
  }

  /** What a placemark's own world supplies that the model does not compute:
      the id `Utilities.getUuid` hands out for the placemark at an index, the
      timestamp, the geocoding service's answer for an address, and the
      `Math.random` draws of the estimate for the placemark at an index. */
  datatype Env = Env(
    uuid: nat -> string, now: string, geocode: string -> Option<Coords>,
    randomLat: nat -> Unit, randomLng: nat -> Unit)

  /** The coordinate cascade of `parsePlacemark`: the link, then the `Point`,
      then (for a non-empty address) the geocoder with its estimate, then the
      manual table; the first answer wins. */
  function ResolveCoordinates(link: string, point: Option<Coords>, name: string, address: string,
                              geocoded: Option<Coords>, randomLat: Unit, randomLng: Unit): (r: Option<Coords>)
    ensures point.Some? || address != [] ==> r.Some?
    ensures r.Some? ==> r == ParseCoordinatesFromLink(link) || r == point ||
                        r == Some(GeocodeAddress(address, geocoded, randomLat, randomLng)) ||
                        r == GetManualCoordinates(name, address)
  {
    var fromLink := if link != [] then ParseCoordinatesFromLink(link) else None;
    if fromLink.Some? then fromLink
    else if point.Some? then point
    else if address != [] then Some(GeocodeAddress(address, geocoded, randomLat, randomLng))
    else GetManualCoordinates(name, address)
  }

  /** A placemark is dropped only when the link and the `Point` give nothing,
      the address is empty and the manual table does not know the name: the
      geocoder never fails, since its fallback estimate always answers. */
  lemma DroppedOnlyWhenEverythingFails(link: string, point: Option<Coords>, name: string, address: string,
                                       geocoded: Option<Coords>, randomLat: Unit, randomLng: Unit)
    ensures ResolveCoordinates(link, point, name, address, geocoded, randomLat, randomLng).None? <==>
      (link == [] || ParseCoordinatesFromLink(link).None?) && point.None? && address == [] &&
      GetManualCoordinates(name, []).None?
  {
  }

  /** Each source is used only when the ones before it give nothing. */
  lemma CascadeOrder(link: string, point: Option<Coords>, name: string, address: string,
                     geocoded: Option<Coords>, randomLat: Unit, randomLng: Unit)
    ensures link != [] && ParseCoordinatesFromLink(link).Some? ==>
      ResolveCoordinates(link, point, name, address, geocoded, randomLat, randomLng) == ParseCoordinatesFromLink(link)
    ensures (link == [] || ParseCoordinatesFromLink(link).None?) && point.Some? ==>
      ResolveCoordinates(link, point, name, address, geocoded, randomLat, randomLng) == point
    ensures (link == [] || ParseCoordinatesFromLink(link).None?) && point.None? && address != [] ==>
      ResolveCoordinates(link, point, name, address, geocoded, randomLat, randomLng) ==
        Some(GeocodeAddress(address, geocoded, randomLat, randomLng))
    ensures (link == [] || ParseCoordinatesFromLink(link).None?) && point.None? && address == [] ==>
      ResolveCoordinates(link, point, name, address, geocoded, randomLat, randomLng) ==
        GetManualCoordinates(name, address)
  {
  }

  /** A text, or the default when it is empty (`text || default`). */
  function OrElse(text: string, default: string): (r: string)
    ensures r != [] <== default != []
  {
    if text != [] then text else default
  }

  /** `parsePlacemark` for the placemark at `index`. */
  function ParsePlacemark(placemark: Node, index: nat, env: Env): (r: Option<Facility>)
    ensures r.Some? ==> NormalizeCategory(r.value.kind) == r.value.kind
  {
    var name := OrElse(ChildText(placemark, "name"), "未命名");
    var address := ChildText(placemark, "address");
    var description := ChildText(placemark, "description");
    var ext := AssignAll(NoFields, DataElements(placemark));
    var facilityType := OrElse(ext.category, Unclassified);
    var facilityAddress := OrElse(ext.address, address);
    var coords := ResolveCoordinates(ext.link, PointCoords(placemark), name, facilityAddress,
                                     env.geocode(facilityAddress), env.randomLat(index), env.randomLng(index));
    NormalizeCategoryIdempotent(facilityType);
    match coords
    case None => None
    case Some(c) =>
      Some(Facility(env.uuid(index), Trim(name), NormalizeCategory(facilityType), facilityAddress,
                    ext.note, c.lat, c.lng, description, env.now))
  }

  /** The record of a placemark, field by field, in terms of the last `Data`
      element of each name: it exists exactly when the cascade resolves the
      link, the `Point` and the address in force (the `Data` address, else
      the `address` text); its name is the trimmed name or '未命名', its type
      the normalised category or '未分類', its note the `Data` note, and its
      coordinates the cascade's answer. */
  lemma ParsedPlacemarkFields(placemark: Node, index: nat, env: Env)
    ensures var ds := DataElements(placemark);
      var name := OrElse(ChildText(placemark, "name"), "未命名");
      var address := OrElse(LastValue(ds, "地址或google座標"), ChildText(placemark, "address"));
      var coords := ResolveCoordinates(LastValue(ds, "地址LINK"), PointCoords(placemark), name, address,
                                       env.geocode(address), env.randomLat(index), env.randomLng(index));
      var r := ParsePlacemark(placemark, index, env);
      (r.Some? <==> coords.Some?) &&
      (r.Some? ==> r.value == Facility(env.uuid(index), Trim(name),
                                       NormalizeCategory(OrElse(LastValue(ds, "類別"), Unclassified)),
                                       address, LastValue(ds, "備註"), coords.value.lat, coords.value.lng,
                                       ChildText(placemark, "description"), env.now))
  {
    LastWriteWins(DataElements(placemark));
  }

  /** The cleaning of the KML text before it is parsed: trim, then drop a
      leading byte order mark. */
  function PrepareContent(content: string): string {
    var t := Trim(content);
    if |t| > 0 && t[0] == '\U{FEFF}' then t[1..] else t
  }

  /** `trim` already removes U+FEFF, so the byte order mark test never
      fires: the cleaning is the trim alone. */
  lemma ByteOrderMarkAlreadyTrimmed(content: string)
    ensures PrepareContent(content) == Trim(content)
  {
    var t := Trim(content);
    if |t| > 0 {
      assert !IsWhitespace(t[0]);
    }
  }

  /** The placemarks the service reads: every element below the root named
      `Placemark`, in document order. */
  function Placemarks(root: Node): seq<Node> {
    Named(Descendants(root), "Placemark")
  }

  /** The result of `parsePlacemark` for each placemark, numbered from 0. */
  function ParseEach(ps: seq<Node>, env: Env): (r: seq<Option<Facility>>)
    ensures |r| == |ps|
    ensures forall k :: 0 <= k < |ps| ==> r[k] == ParsePlacemark(ps[k], k, env)
  {
    seq(|ps|, k requires 0 <= k < |ps| => ParsePlacemark(ps[k], k, env))
  }

  /** Every record of a list of results whose normalised type is its own
      normalisation keeps that property after the failures are dropped. */
  lemma {:induction false} EmittedTypesAreNormal(results: seq<Option<Facility>>)
    requires forall k :: 0 <= k < |results| && results[k].Some? ==>
      NormalizeCategory(results[k].value.kind) == results[k].value.kind
    ensures forall k :: 0 <= k < |Somes(results)| ==>
      NormalizeCategory(Somes(results)[k].kind) == Somes(results)[k].kind
    decreases |results|
  {
    if results != [] {
      EmittedTypesAreNormal(results[..|results| - 1]);
    }
  }

  /** `parseKMLContent` on the parsed document: each placemark in turn, the
      records of those that resolve appended in order. */
  method ParseKMLContent(root: Node, env: Env) returns (facilities: seq<Facility>)
    ensures facilities == Somes(ParseEach(Placemarks(root), env))
  {
    var all := Placemarks(root);
    var results := ParseEach(all, env);
    facilities := [];
    var i := 0;
    while i < |all|
      invariant 0 <= i <= |all|
      invariant facilities == Somes(results[..i])
    {
      SomesStep(results, i);
      var facility := ParsePlacemark(all[i], i, env);
      if facility.Some? {
        facilities := facilities + [facility.value];
      }
      i := i + 1;
    }
    assert results[..i] == results;
  }

  /** Every record the service emits carries a normalised type, and there are
      never more records than placemarks. */
  lemma EmittedRecords(root: Node, env: Env)
    ensures |Somes(ParseEach(Placemarks(root), env))| <= |Placemarks(root)|
    ensures forall f :: f in Somes(ParseEach(Placemarks(root), env)) ==> NormalizeCategory(f.kind) == f.kind
  {
    var results := ParseEach(Placemarks(root), env);
    EmittedTypesAreNormal(results);
  }
}
