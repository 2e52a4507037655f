/** The simple Apps Script service's reading of a KML document: the same
    ExtendedData fields and manual table as the production service, but a
    shorter coordinate cascade (link, `Point`, manual table; no geocoder), the
    category kept as written, and ids numbered `test_<index>`. */
module SimpleFeed {
  import opened Wrappers
  import opened JsText
  import opened JsNumber
  import opened Xml
  import opened CoordPattern
  import opened Category
  import opened Resolver
  import opened ProductionFeed

  /** `searchPlacemarks`: the element itself when it is a placemark, then what
      the search of each child finds, in order. */
  method SearchPlacemarks(element: Node) returns (placemarks: seq<Node>)
    ensures placemarks == (if element.name == "Placemark" then [element] else []) +
                          Named(Descendants(element), "Placemark")
    decreases element
  {
    placemarks := if element.name == "Placemark" then [element] else [];
    var own := placemarks;
    var children := element.children;
    var i := 0;
    assert children[..0] == [];
    while i < |children|
      invariant 0 <= i <= |children|
      invariant placemarks == own + Named(DescendantsOfAll(children[..i]), "Placemark")
    {
      var child := children[i];
      var found := SearchPlacemarks(child);
      SearchStep(children, i);
      ConcatAssociative(own, Named(DescendantsOfAll(children[..i]), "Placemark"), found);
      placemarks := placemarks + found;
      i := i + 1;
    }
    assert children[..i] == children;
    assert Descendants(element) == DescendantsOfAll(children);
  }

  /** The placemarks of the first `i + 1` children's subtrees: those of the
      first `i`, then the child's own search. */
  lemma SearchStep(children: seq<Node>, i: nat)
    requires i < |children|
    ensures Named(DescendantsOfAll(children[..i + 1]), "Placemark") ==
            Named(DescendantsOfAll(children[..i]), "Placemark") +
            ((if children[i].name == "Placemark" then [children[i]] else []) +
             Named(Descendants(children[i]), "Placemark"))
  {
    assert children[..i + 1] == children[..i] + [children[i]];
    NamedDescendantsAppend(children[..i], children[i], "Placemark");
  }

  /** The coordinates a pair of possibly-null, possibly-NaN numbers stands
      for: both present and finite. */
  function AsCoords(lat: Option<Num>, lng: Option<Num>): (r: Option<Coords>)
    ensures r.Some? <==> lat.Some? && lng.Some? && lat.value.Finite? && lng.value.Finite?
  {
    if lat.Some? && lng.Some? && lat.value.Finite? && lng.value.Finite? then
      Some(Coords(lat.value.value, lng.value.value))
    else None
  }

  /** What `getManualCoordinatesSimple` leaves in `lat` and `lng` once the
      NaN test has looked at them: a row's coordinates; nothing when the
      lookup found nothing; and nothing for a name an object inherits, whose
      `lat` and `lng` are `undefined`, which `isNaN` rejects. */
  function SimpleManual(name: string, address: string): Option<Coords> {
    match GetManualCoordinatesAsWritten(name, address)
    case Row(c) => Some(c)
    case Inherited => None
    case Absent => None
  }

  /** The simple lookup agrees with the intended lookup except on the names
      an object inherits, which it never resolves: neither the partial-name
      step nor the address step is tried for them. */
  lemma SimpleManualAgrees(name: string, address: string)
    ensures name !in PrototypeKeys ==> SimpleManual(name, address) == GetManualCoordinates(name, address)
    ensures name in PrototypeKeys ==> SimpleManual(name, address).None?
  {
    if name in PrototypeKeys {
      PrototypeNamesUnknown(name);
    }
  }

  /** The simple lookup gives nothing exactly when the name is one an object
      inherits, or no row is related to the name by containment and the
      address holds no fragment. */
  lemma SimpleLookupFails(name: string, address: string)
    ensures SimpleManual(name, address).None? <==>
      name in PrototypeKeys ||
      ((forall i :: 0 <= i < |ManualTable| ==> !Related(name, ManualTable[i].name)) &&
       (forall i :: 0 <= i < |AddressRules| ==> !Contains(address, AddressRules[i].name)))
  {
    SimpleManualAgrees(name, address);
    ManualLookupFails(name, address);
  }

  /** The simple script's cascade: the link's first number pair, else the
      `Point` when both its fields are numbers, else the manual table as the
      simple script reads it. */
  function SimpleCoordinates(link: string, point: Option<Coords>, name: string, address: string): (r: Option<Coords>)
    ensures r.None? <==> (link == [] || FindCoords(link).None?) && point.None? &&
                         (name in PrototypeKeys || GetManualCoordinates(name, address).None?)
    ensures r.Some? ==> r == FindCoords(link) || r == point || r == GetManualCoordinates(name, address)
  {
    SimpleManualAgrees(name, address);
    var fromLink := if link != [] then FindCoords(link) else None;
    if fromLink.Some? then fromLink
    else if point.Some? then point
    else SimpleManual(name, address)
  }

  /** A placemark named after an inherited member with no usable link or
      `Point` is dropped, whatever its address holds. */
  lemma InheritedNameDropped(link: string, name: string, address: string)
    requires name in PrototypeKeys
    requires link == [] || FindCoords(link).None?
    ensures SimpleCoordinates(link, None, name, address).None?
  {
    SimpleManualAgrees(name, address);
  }

  /** The link step: `lat` and `lng` start null and take the two numbers of
      the first pair the link matches, which always parse. */
  method LinkStep(link: string) returns (lat: Option<Num>, lng: Option<Num>)
    ensures AsCoords(lat, lng) == (if link != [] then FindCoords(link) else None)
    ensures AsCoords(lat, lng).None? ==> lat.None? && lng.None?
  {
    lat := None;
    lng := None;
    if link != [] {
      var coordMatch := MatchPair(link);
      if coordMatch.Some? {
        PairAlwaysParses(link);
        lat := Some(ParseFloat(coordMatch.value.first));
        lng := Some(ParseFloat(coordMatch.value.second));
      }
    }
  }

  /** The `Point` step, taken while `lat` or `lng` is null or NaN: the two
      fields of the trimmed `coordinates` text are assigned, NaN or not. */
  method PointStep(placemark: Node, lat0: Option<Num>, lng0: Option<Num>) returns (lat: Option<Num>, lng: Option<Num>)
    requires lat0.None? && lng0.None?
    ensures AsCoords(lat, lng) == PointCoords(placemark)
  {
    lat, lng := lat0, lng0;
    var point := Child(placemark, "Point");
    if point.Some? {
      var coordElement := Child(point.value, "coordinates");
      if coordElement.Some? {
        var fields := PointFields(coordElement.value.text);
        if fields.Some? {
          lng := Some(fields.value.1);
          lat := Some(fields.value.0);
        }
      }
    }
  }

  /** The manual step, taken while `lat` or `lng` is still null or NaN. */
  method ManualStep(name: string, address: string, lat0: Option<Num>, lng0: Option<Num>)
    returns (lat: Option<Num>, lng: Option<Num>)
    requires AsCoords(lat0, lng0).None?
    ensures AsCoords(lat, lng) == SimpleManual(name, address)
    ensures GetManualCoordinatesAsWritten(name, address).Inherited? ==> lat == Some(NaN) && lng == Some(NaN)
  {
    lat, lng := lat0, lng0;
    var manualCoords := GetManualCoordinatesAsWritten(name, address);
    match manualCoords
    case Row(c) =>
      lat := Some(Finite(c.lat));
      lng := Some(Finite(c.lng));
    case Inherited =>
      // the inherited member is truthy; its `lat` and `lng` are undefined
      lat := Some(NaN);
      lng := Some(NaN);
    case Absent =>
  }

  /** The coordinate steps of the loop body as written: the link step, then
      the `Point` step while `lat` or `lng` is null or NaN, then the manual
      step while they still are. The pair they end as is the first source of
      the cascade that gives two numbers. */
  method ResolveSimple(link: string, placemark: Node, name: string, address: string)
    returns (lat: Option<Num>, lng: Option<Num>)
    ensures AsCoords(lat, lng) == SimpleCoordinates(link, PointCoords(placemark), name, address)
  {
    lat, lng := LinkStep(link);
    if AsCoords(lat, lng).None? {
      lat, lng := PointStep(placemark, lat, lng);
    }
    if AsCoords(lat, lng).None? {
      lat, lng := ManualStep(name, address, lat, lng);
    }
  }

  /** The id of the placemark at an index: `'test_' + i`. */
  function SimpleId(i: nat): string {
    "test_" + NatToDecimal(i)
  }

  /** Distinct indices give distinct ids. */
  lemma SimpleIdInjective(m: nat, n: nat)
    requires SimpleId(m) == SimpleId(n)
    ensures m == n
  {
    assert SimpleId(m)[5..] == NatToDecimal(m);
    assert SimpleId(n)[5..] == NatToDecimal(n);
  }

  /** The record the simple script emits for the placemark at `index`. */
  function SimpleRecord(placemark: Node, index: nat, now: string): (r: Option<Facility>)
    ensures r.Some? ==> r.value.id == SimpleId(index) && r.value.kind != [] && r.value.name != []
  {
    var name := OrElse(ChildText(placemark, "name"), "未命名");
    var address := ChildText(placemark, "address");
    var description := ChildText(placemark, "description");
    var ext := AssignAll(NoFields, DataElements(placemark));
    var facilityAddress := OrElse(ext.address, address);
    match SimpleCoordinates(ext.link, PointCoords(placemark), name, facilityAddress)
    case None => None
    case Some(c) =>
      Some(Facility(SimpleId(index), name, OrElse(ext.category, Unclassified), facilityAddress,
                    ext.note, c.lat, c.lng, description, now))
  }

  /** The loop body for one placemark. */
  method ParseSimplePlacemark(placemark: Node, index: nat, now: string) returns (facility: Option<Facility>)
    ensures facility == SimpleRecord(placemark, index, now)
  {
    var name := OrElse(ChildText(placemark, "name"), "未命名");
    var address := ChildText(placemark, "address");
    var description := ChildText(placemark, "description");
    var extendedData := ParseExtendedData(placemark);
    var facilityType := OrElse(extendedData.category, Unclassified);
    var facilityAddress := OrElse(extendedData.address, address);
    var lat, lng := ResolveSimple(extendedData.link, placemark, name, facilityAddress);
    if AsCoords(lat, lng).Some? {
      facility := Some(Facility(SimpleId(index), name, facilityType, facilityAddress, extendedData.note,
                                lat.value.value, lng.value.value, description, now));
    } else {
      facility := None;
    }
  }

  /** The simple script's record for each placemark, numbered from 0. */
  function SimpleEach(ps: seq<Node>, now: string): (r: seq<Option<Facility>>)
    ensures |r| == |ps|
  {
    seq(|ps|, k requires 0 <= k < |ps| => SimpleRecord(ps[k], k, now))
  }

  lemma SimpleEachAt(ps: seq<Node>, now: string, k: nat)
    requires k < |ps|
    ensures SimpleEach(ps, now)[k] == SimpleRecord(ps[k], k, now)
  {
  }

  /** The simple script's `parseKMLContent` on the parsed document. */
  method ParseKMLContentSimple(root: Node, now: string) returns (facilities: seq<Facility>)
    ensures facilities == Somes(SimpleEach(Placemarks(root), now))
  {
    var allPlacemarks := Placemarks(root);
    ghost var results := SimpleEach(allPlacemarks, now);
    facilities := [];
    var i := 0;
    while i < |allPlacemarks|
      invariant 0 <= i <= |allPlacemarks|
      invariant facilities == Somes(results[..i])
    {
      SomesStep(results, i);
      SimpleEachAt(allPlacemarks, now, i);
      var facility := ParseSimplePlacemark(allPlacemarks[i], i, now);
      if facility.Some? {
        facilities := facilities + [facility.value];
      }
      i := i + 1;
    }
    assert results[..i] == results;
  }

  /** The records kept from a list whose entry `k` carries the id of `k` have
      distinct ids, each the id of some index of the list. */
  lemma {:induction false} KeptIdsDistinct(rs: seq<Option<Facility>>)
    requires forall k :: 0 <= k < |rs| && rs[k].Some? ==> rs[k].value.id == SimpleId(k)
    ensures forall a :: 0 <= a < |Somes(rs)| ==> exists k :: 0 <= k < |rs| && Somes(rs)[a].id == SimpleId(k)
    ensures forall a, b :: 0 <= a < b < |Somes(rs)| ==> Somes(rs)[a].id != Somes(rs)[b].id
    decreases |rs|
  {
    if rs != [] {
      var n := |rs| - 1;
      var init := rs[..n];
      KeptIdsDistinct(init);
      var kept := Somes(init);
      var all := Somes(rs);
      if rs[n].Some? {
        assert all == kept + [rs[n].value];
        forall a | 0 <= a < |kept| ensures all[a].id != all[|kept|].id {
          var k :| 0 <= k < n && kept[a].id == SimpleId(k);
          if SimpleId(k) == SimpleId(n) {
            SimpleIdInjective(k, n);
          }
        }
        forall a | 0 <= a < |all| ensures exists k :: 0 <= k < |rs| && all[a].id == SimpleId(k) {
          if a < |kept| {
            var k :| 0 <= k < n && kept[a].id == SimpleId(k);
            assert all[a] == kept[a];
          } else {
            assert all[a].id == SimpleId(n);
          }
        }
      } else {
        assert all == kept;
        forall a | 0 <= a < |all| ensures exists k :: 0 <= k < |rs| && all[a].id == SimpleId(k) {
          var k :| 0 <= k < n && kept[a].id == SimpleId(k);
        }
      }
    } else {
      assert Somes(rs) == [];
    }
  }

  /** Every record the simple script emits has an id no other record shares. */
  lemma SimpleIdsUnique(root: Node, now: string)
    ensures var fs := Somes(SimpleEach(Placemarks(root), now));
      forall a, b :: 0 <= a < b < |fs| ==> fs[a].id != fs[b].id
  {
    KeptIdsDistinct(SimpleEach(Placemarks(root), now));
  }

  /** Without an address and with a link that is empty or already holds a
      number pair (and has no surrounding whitespace), the simple script and
      the production service find the same coordinates. */
  lemma SimpleAgreesWithService(link: string, point: Option<Coords>, name: string,
                                geocoded: Option<Coords>, randomLat: Unit, randomLng: Unit)
    requires Trim(link) == link
    requires link == [] || MatchPair(link).Some?
    ensures ResolveCoordinates(link, point, name, [], geocoded, randomLat, randomLng) ==
            SimpleCoordinates(link, point, name, [])
  {
    if link != [] {
      GenericPairWins(link);
    }
    SimpleManualWithoutAddress(name);
  }

  /** Without an address the two lookups agree on every name: an inherited
      name is unknown to the intended lookup too. */
  lemma SimpleManualWithoutAddress(name: string)
    ensures SimpleManual(name, []) == GetManualCoordinates(name, [])
  {
    SimpleManualAgrees(name, []);
    if name in PrototypeKeys {
      PrototypeNamesUnknown(name);
    }
  }

  /** With an address, where the service always answers through its geocoder
      or estimate, the simple script goes to the manual table, which may know
      nothing. */
  lemma AddressResolvedOnlyByService(link: string, point: Option<Coords>, name: string, address: string,
                                     geocoded: Option<Coords>, randomLat: Unit, randomLng: Unit)
    requires address != []
    requires link == [] || (ParseCoordinatesFromLink(link).None? && FindCoords(link).None?)
    requires point.None?
    ensures ResolveCoordinates(link, point, name, address, geocoded, randomLat, randomLng).Some?
    ensures name !in PrototypeKeys ==> SimpleCoordinates(link, point, name, address) == GetManualCoordinates(name, address)
  {
    SimpleManualAgrees(name, address);
  }
}
