/** The browser map application's view state and the computations behind its
    dashboard, table, search, radius search and location entry. The page's
    module-level variables (`facilitiesData`, `currentFilter`,
    `searchResults`, `isSearchActive`) are the fields of `Viewer`, together
    with the rows of the facilities table; markers, toasts and every other
    DOM effect are not modelled. */
module App {
  import opened Wrappers
  import opened JsText
  import opened JsNumber
  import opened Xml
  import opened KmlParser
  import Query
  import opened Category

  /** The configured facility types, in declaration order, with their colours. */
  const FacilityTypes: seq<(string, string)> := [
    ("流動廁所", "#f97316"), ("沐浴站", "#10b981"), ("取水站", "#06b6d4"), ("災區醫療站", "#dc2626")
  ]

  /** `facilityTypes[type]?.color || '#gray'`. */
  function TypeColor(kind: string): (color: string)
    ensures (forall i :: 0 <= i < |FacilityTypes| ==> FacilityTypes[i].0 != kind) ==> color == "#gray"
  {
    ColorIn(FacilityTypes, kind)
  }

  function ColorIn(types: seq<(string, string)>, kind: string): (color: string)
    ensures (forall i :: 0 <= i < |types| ==> types[i].0 != kind) ==> color == "#gray"
  {
    if types == [] then "#gray"
    else if types[0].0 == kind then types[0].1
    else ColorIn(types[1..], kind)
  }

  /** A configured type gets the colour of its first entry. */
  lemma {:induction false} ColorOfFirstEntry(types: seq<(string, string)>, kind: string, i: nat)
    requires i < |types| && types[i].0 == kind
    requires forall j :: 0 <= j < i ==> types[j].0 != kind
    ensures ColorIn(types, kind) == types[i].1
    decreases i
  {
    if i > 0 {
      assert forall j :: 0 <= j < i - 1 ==> types[1..][j] == types[j + 1];
      ColorOfFirstEntry(types[1..], kind, i - 1);
    }
  }

  /** The records `loadFallbackData` installs when the KML file cannot be
      loaded. They carry no description, read here as ''. */
  const FallbackData: seq<ParsedFacility> := [
    ParsedFacility("馬太鞍教會", "流動廁所", "花蓮縣光復鄉大馬村中山路三段89巷14號", "4座",
                   Finite(23.675444431837576), Finite(121.4263233196848), []),
    ParsedFacility("光復高職", "流動廁所", "花蓮縣光復鄉林森路100號", "11座",
                   Finite(23.66736667736868), Finite(121.42738942281937), []),
    ParsedFacility("太巴塱教會", "沐浴站", "花蓮縣光復鄉中正路二段90號", "8間",
                   Finite(23.6603), Finite(121.4494), []),
    ParsedFacility("大馬村加水站", "取水站", "花蓮縣光復鄉大馬村林森路730號", "2桶",
                   Finite(23.68556550556121), Finite(121.40873496485706), [])
  ]

  /** The records the page holds after `loadKMLData`: the parsed document, or
      the fallback records when the file could not be fetched (`None`) or
      could not be parsed. */
  function LoadedData(doc: Option<Node>): (r: seq<ParsedFacility>)
    ensures forall f :: f in r ==> f.name != [] && NormalizeCategoryParser(Some(f.kind)) == f.kind
  {
    FallbackRecordsNormal();
    match doc
    case None => FallbackData
    case Some(d) => if ParseError(d).Some? then FallbackData else DocumentRecordsNormal(d); DocumentRecords(d)
  }

  /** The built-in records have names and canonical types. */
  lemma FallbackRecordsNormal()
    ensures forall f :: f in FallbackData ==> f.name != [] && NormalizeCategoryParser(Some(f.kind)) == f.kind
  {
    CanonicalNamesAreFixed();
    forall i | 0 <= i < |FallbackData|
      ensures FallbackData[i].name != [] && NormalizeCategoryParser(Some(FallbackData[i].kind)) == FallbackData[i].kind
    {
      assert FallbackData[i].kind in [Toilet, Shower, Water];
    }
  }

  /** Every record parsed from a document has a name and a normalised type. */
  lemma DocumentRecordsNormal(d: Node)
    ensures forall f :: f in DocumentRecords(d) ==> f.name != [] && NormalizeCategoryParser(Some(f.kind)) == f.kind
  {
    forall f | f in DocumentRecords(d) ensures f.name != [] && NormalizeCategoryParser(Some(f.kind)) == f.kind {
      DocumentTypesAreNormal(d, f);
    }
  }

  /** The Google Maps link `generateGoogleMapsUrl` builds: to the coordinates,
      to a search for the address, or to Guangfu township. */
  datatype MapsLink = Place(lat: real, lng: real) | Search(address: string) | Guangfu

  /** The text of a link, given how the page prints a number and what
      `encodeURIComponent` makes of an address. */
  function Href(link: MapsLink, show: real -> string, encode: string -> string): string {
    match link
    case Place(lat, lng) => "https://www.google.com/maps?q=" + show(lat) + "," + show(lng)
    case Search(address) => "https://www.google.com/maps/search/" + encode(address)
    case Guangfu => "https://www.google.com/maps/search/花蓮縣光復鄉"
  }

  /** `generateGoogleMapsUrl`: the coordinates when both are truthy numbers
      (neither NaN nor 0), else the address when it is non-empty, else the
      township. */
  function GenerateGoogleMapsUrl(address: string, lat: Num, lng: Num): (link: MapsLink)
    ensures link.Place? <==> lat.Truthy() && lng.Truthy()
    ensures link.Place? ==> link.lat == lat.value && link.lng == lng.value
    ensures link.Search? <==> !(lat.Truthy() && lng.Truthy()) && address != []
    ensures link.Search? ==> link.address == address
  {
    if lat.Truthy() && lng.Truthy() then Place(lat.value, lng.value)
    else if address != [] then Search(address)
    else Guangfu
  }

  /** A facility on the equator or the prime meridian is linked by its
      address: a coordinate of 0 reads as missing. */
  lemma ZeroCoordinateFallsBack(address: string, lng: Num)
    requires address != []
    ensures GenerateGoogleMapsUrl(address, Finite(0.0), lng) == Search(address)
  {
  }

  /** One row of the facilities table. */
  datatype TableRow = TableRow(name: string, kind: string, color: string, link: MapsLink, address: string, note: string)

  function RowOf(f: ParsedFacility): TableRow {
    TableRow(f.name, f.kind, TypeColor(f.kind), GenerateGoogleMapsUrl(f.address, f.lat, f.lng), f.address, f.note)
  }

  /** The records `updateTable` lists: all of them for 'all', else those of
      exactly the selected type. */
  function Shown(fs: seq<ParsedFacility>, filter: string): seq<ParsedFacility> {
    if filter == "all" then fs else OfKind(fs, filter)
  }

  /** The rows of the table for the shown records, in their order. */
  function TableRows(fs: seq<ParsedFacility>, filter: string): (rows: seq<TableRow>)
    ensures |rows| == |Shown(fs, filter)|
    ensures forall k :: 0 <= k < |rows| ==> rows[k] == RowOf(Shown(fs, filter)[k])
  {
    var shown := Shown(fs, filter);
    seq(|shown|, k requires 0 <= k < |shown| => RowOf(shown[k]))
  }

  /** The table rows after one more shown record. */
  lemma RowsStep(fs: seq<ParsedFacility>, filter: string, rows: seq<TableRow>, k: nat)
    requires k < |Shown(fs, filter)| && rows == TableRows(fs, filter)[..k]
    ensures rows + [RowOf(Shown(fs, filter)[k])] == TableRows(fs, filter)[..k + 1]
  {
  }

  /** Under a type filter every row is of that type, and every record of that
      type has its row. */
  lemma TableShowsOnlyFilter(fs: seq<ParsedFacility>, filter: string)
    requires filter != "all"
    ensures forall k :: 0 <= k < |TableRows(fs, filter)| ==> TableRows(fs, filter)[k].kind == filter
    ensures forall f :: f in fs && f.kind == filter ==> RowOf(f) in TableRows(fs, filter)
  {
    var rows := TableRows(fs, filter);
    var shown := Shown(fs, filter);
    forall k | 0 <= k < |rows|
      ensures rows[k].kind == filter
    {
      assert shown[k] in shown;
    }
    forall f | f in fs && f.kind == filter
      ensures RowOf(f) in rows
    {
      var k :| 0 <= k < |shown| && shown[k] == f;
      assert rows[k] == RowOf(f);
    }
  }

  /** The selection `toggleFilter` makes: clicking the card of the current
      filter selects 'all', any other card selects its type. */
  function NextFilter(current: string, kind: string): string {
    if current == kind then "all" else kind
  }

  /** Clicking the same card twice, starting from 'all', returns to 'all'. */
  lemma ToggleTwice(kind: string)
    ensures NextFilter(NextFilter("all", kind), kind) == "all"
  {
  }

  /** A card of another type than the current filter selects that type
      directly. */
  lemma ToggleSwitches(current: string, kind: string)
    requires current != kind
    ensures NextFilter(current, kind) == kind && NextFilter(NextFilter(current, kind), kind) == "all"
  {
  }

  /** A facility answers the search term when its lower-cased name, address,
      type or note contains it. */
  predicate SearchHit(f: ParsedFacility, term: string) {
    Contains(Lower(f.name), term) || Contains(Lower(f.address), term) ||
    Contains(Lower(f.kind), term) || Contains(Lower(f.note), term)
  }

  /** `facilitiesData.filter(...)` with that test. */
  function SearchMatches(fs: seq<ParsedFacility>, term: string): (r: seq<ParsedFacility>)
    ensures |r| <= |fs|
    ensures forall f :: f in r <==> f in fs && SearchHit(f, term)
    decreases |fs|
  {
    if fs == [] then []
    else SearchMatches(fs[..|fs| - 1], term) + (if SearchHit(fs[|fs| - 1], term) then [fs[|fs| - 1]] else [])
  }

  /** The search runs through the records in order: searching two runs of
      records one after the other finds the first run's matches, then the
      second's. */
  lemma {:induction false} SearchKeepsOrder(a: seq<ParsedFacility>, b: seq<ParsedFacility>, term: string)
    ensures SearchMatches(a + b, term) == SearchMatches(a, term) + SearchMatches(b, term)
    decreases |b|
  {
    if b == [] {
      assert a + b == a;
    } else {
      var init := b[..|b| - 1];
      var last := b[|b| - 1];
      var tail := if SearchHit(last, term) then [last] else [];
      SearchKeepsOrder(a, init, term);
      assert (a + b)[..|a + b| - 1] == a + init;
      assert (a + b)[|a + b| - 1] == last;
      assert SearchMatches(a + b, term) == SearchMatches(a + init, term) + tail;
      assert SearchMatches(b, term) == SearchMatches(init, term) + tail;
      ConcatAssociative(SearchMatches(a, term), SearchMatches(init, term), tail);
    }
  }

  /** The facilities `findNearbyFacilities` keeps, with their distances from
      the user: a latitude or longitude that is NaN or 0 is skipped, and the
      others are kept within the radius. `distance` stands for the haversine
      formula of `calculateDistance`. */
  function NearbySites(fs: seq<ParsedFacility>, userLat: real, userLng: real, radiusKm: real,
                       distance: (real, real, real, real) -> real): (r: seq<Query.Nearby<ParsedFacility>>)
    ensures forall x :: x in r ==>
      x.facility in fs && x.facility.lat.Truthy() && x.facility.lng.Truthy() &&
      x.distance == distance(userLat, userLng, x.facility.lat.value, x.facility.lng.value) &&
      x.distance <= radiusKm
    ensures forall f :: f in fs && f.lat.Truthy() && f.lng.Truthy() &&
                        distance(userLat, userLng, f.lat.value, f.lng.value) <= radiusKm ==>
      Query.Nearby(f, distance(userLat, userLng, f.lat.value, f.lng.value)) in r
    decreases |fs|
  {
    if fs == [] then []
    else
      var f := fs[|fs| - 1];
      var rest := NearbySites(fs[..|fs| - 1], userLat, userLng, radiusKm, distance);
      if f.lat.Truthy() && f.lng.Truthy() && distance(userLat, userLng, f.lat.value, f.lng.value) <= radiusKm then
        rest + [Query.Nearby(f, distance(userLat, userLng, f.lat.value, f.lng.value))]
      else rest
  }

  /** `findNearbyFacilities`: the kept facilities sorted by distance, nearest
      first; the radius defaults to 5 km. */
  function FindNearbyFacilities(fs: seq<ParsedFacility>, userLat: real, userLng: real, radiusKm: Option<real>,
                                distance: (real, real, real, real) -> real): (r: seq<Query.Nearby<ParsedFacility>>)
    ensures Query.SortedByDistance(r)
    ensures multiset(r) == multiset(NearbySites(fs, userLat, userLng, radiusKm.GetOr(5.0), distance))
  {
    Query.SortByDistance(NearbySites(fs, userLat, userLng, radiusKm.GetOr(5.0), distance))
  }

  /** The nearby list is sorted by distance and holds exactly the kept
      facilities: each entry is a facility with usable coordinates within the
      radius, and every such facility is listed. The radius defaults to 5 km. */
  lemma NearbyIsSortedSelection(fs: seq<ParsedFacility>, userLat: real, userLng: real, radiusKm: Option<real>,
                                distance: (real, real, real, real) -> real)
    ensures var r := FindNearbyFacilities(fs, userLat, userLng, radiusKm, distance);
            var radius := radiusKm.GetOr(5.0);
            Query.SortedByDistance(r) &&
            multiset(r) == multiset(NearbySites(fs, userLat, userLng, radius, distance)) &&
            (forall x :: x in r ==>
               x.facility in fs && x.facility.lat.Truthy() && x.facility.lng.Truthy() && x.distance <= radius) &&
            (forall f ::
               f in fs && f.lat.Truthy() && f.lng.Truthy() &&
               distance(userLat, userLng, f.lat.value, f.lng.value) <= radius ==>
                 Query.Nearby(f, distance(userLat, userLng, f.lat.value, f.lng.value)) in r)
  {
    var kept := NearbySites(fs, userLat, userLng, radiusKm.GetOr(5.0), distance);
    Query.SameMembers(Query.SortByDistance(kept), kept);
  }

  /** `setManualLocation` once `parseFloat` has read the two inputs: NaN is
      rejected first, then a latitude outside [-90, 90], then a longitude
      outside [-180, 180]; otherwise the location is set. */
  function SetManualLocation(latText: string, lngText: string): (r: Result<(real, real), string>)
    ensures r.Success? <==> ParseFloat(latText).Finite? && ParseFloat(lngText).Finite? &&
                            -90.0 <= ParseFloat(latText).value <= 90.0 &&
                            -180.0 <= ParseFloat(lngText).value <= 180.0
    ensures r.Success? ==> r.value == (ParseFloat(latText).value, ParseFloat(lngText).value)
    ensures r.Failure? && (ParseFloat(latText).NaN? || ParseFloat(lngText).NaN?) ==>
              r.error == "請輸入有效的緯度和經度"
  {
    var lat := ParseFloat(latText);
    var lng := ParseFloat(lngText);
    if lat.NaN? || lng.NaN? then Failure("請輸入有效的緯度和經度")
    else if lat.value < -90.0 || lat.value > 90.0 then Failure("緯度必須在 -90 到 90 之間")
    else if lng.value < -180.0 || lng.value > 180.0 then Failure("經度必須在 -180 到 180 之間")
    else Success((lat.value, lng.value))
  }

  /** An out-of-range latitude is reported before an out-of-range longitude. */
  lemma LatitudeCheckedFirst(latText: string, lngText: string)
    requires ParseFloat(latText).Finite? && ParseFloat(lngText).Finite?
    requires ParseFloat(latText).value > 90.0 || ParseFloat(latText).value < -90.0
    ensures SetManualLocation(latText, lngText) == Failure("緯度必須在 -90 到 90 之間")
  {
  }

  /** A keyword rule of `fallbackGeocoding`: both keywords must occur in the
      lower-cased address. */
  datatype AreaRule = AreaRule(place: string, street: string, lat: real, lng: real, displayName: string)

  const AreaRules: seq<AreaRule> := [
    AreaRule("光復", "中山路", 23.673, 121.427, "光復鄉中山路區域"),
    AreaRule("光復", "林森路", 23.670, 121.425, "光復鄉林森路區域"),
    AreaRule("光復", "中正路", 23.668, 121.430, "光復鄉中正路區域"),
    AreaRule("鳳林", "中正路", 23.750, 121.450, "鳳林鎮中正路區域"),
    AreaRule("鳳林", "民生路", 23.748, 121.452, "鳳林鎮民生路區域"),
    AreaRule("萬榮", "明利", 23.720, 121.480, "萬榮鄉明利村區域"),
    AreaRule("萬榮", "紅葉", 23.680, 121.520, "萬榮鄉紅葉村區域")
  ]

  predicate RuleApplies(rule: AreaRule, address: string) {
    Contains(address, rule.place) && Contains(address, rule.street)
  }

  /** The first rule, in order, that applies. */
  function FirstRule(rules: seq<AreaRule>, address: string): (r: Option<AreaRule>)
    ensures r.None? <==> forall i :: 0 <= i < |rules| ==> !RuleApplies(rules[i], address)
    ensures r.Some? ==> r.value in rules && RuleApplies(r.value, address)
  {
    if rules == [] then None
    else if RuleApplies(rules[0], address) then Some(rules[0])
    else FirstRule(rules[1..], address)
  }

  /** The rule found applies and no earlier rule does. */
  lemma {:induction false} FirstRuleIsFirst(rules: seq<AreaRule>, address: string)
    ensures FirstRule(rules, address).Some? ==>
              exists i :: 0 <= i < |rules| && rules[i] == FirstRule(rules, address).value &&
                          RuleApplies(rules[i], address) &&
                          forall j :: 0 <= j < i ==> !RuleApplies(rules[j], address)
  {
    if rules != [] && RuleApplies(rules[0], address) {
      assert rules[0] == FirstRule(rules, address).value;
    } else if rules != [] && FirstRule(rules, address).Some? {
      var tail := rules[1..];
      FirstRuleIsFirst(tail, address);
      var i :| 0 <= i < |tail| && tail[i] == FirstRule(tail, address).value && RuleApplies(tail[i], address) &&
               forall j :: 0 <= j < i ==> !RuleApplies(tail[j], address);
      assert rules[i + 1] == tail[i];
      forall j | 0 <= j < i + 1 ensures !RuleApplies(rules[j], address) {
        if j > 0 {
          assert rules[j] == tail[j - 1];
        }
      }
    }
  }

  /** `fallbackGeocoding`: the first area whose two keywords both occur in
      the lower-cased address, none otherwise. */
  function FallbackGeocoding(address: string): (r: Option<AreaRule>)
    ensures r.None? <==> forall i :: 0 <= i < |AreaRules| ==> !RuleApplies(AreaRules[i], Lower(address))
    ensures r.Some? ==> r.value in AreaRules && RuleApplies(r.value, Lower(address))
  {
    FirstRule(AreaRules, Lower(address))
  }

  /** An address naming Guangfu and both Zhongshan and Linsen roads is placed
      on Zhongshan road, the earlier rule. */
  lemma EarlierAreaWins()
    ensures FallbackGeocoding("光復鄉中山路林森路") == Some(AreaRules[0])
    ensures AreaRules[0].displayName == "光復鄉中山路區域"
  {
    var address := "光復鄉中山路林森路";
    assert Lower(address) == address by {
      LowerOfNonAscii(address);
    }
    assert OccursAt(address, "光復", 0);
    assert OccursAt(address, "中山路", 3);
    assert RuleApplies(AreaRules[0], address);
  }

  /** Lower-casing leaves a text without ASCII capitals as it is. */
  lemma LowerOfNonAscii(s: string)
    requires forall i :: 0 <= i < |s| ==> !('A' <= s[i] <= 'Z')
    ensures Lower(s) == s
  {
    assert forall i :: 0 <= i < |s| ==> Lower(s)[i] == s[i];
  }

  /** The dashboard card of one configured type. */
  datatype Card = Card(kind: string, count: nat, total: nat)

  /** What `updateStats` shows: for each configured type, in order, the
      number of records of exactly that type and the sum of their notes'
      first numbers. */
  function Cards(fs: seq<ParsedFacility>): (cards: seq<Card>)
    ensures |cards| == |FacilityTypes|
  {
    seq(|FacilityTypes|, i requires 0 <= i < |FacilityTypes| =>
      Card(FacilityTypes[i].0, |OfKind(fs, FacilityTypes[i].0)|, NoteTotal(OfKind(fs, FacilityTypes[i].0))))
  }

  /** The dashboard agrees with the parser's `getStatsByType` on every
      configured type: a type it counts has the same counters, and a type it
      does not count shows zero. */
  lemma CardsAgreeWithParserStats(fs: seq<ParsedFacility>, i: nat)
    requires i < |FacilityTypes|
    ensures var kind := FacilityTypes[i].0;
            var card := Cards(fs)[i];
            (kind in StatsByType(fs) ==> StatsByType(fs)[kind] == TypeCount(card.count, card.total)) &&
            (kind !in StatsByType(fs) <==> card.count == 0)
  {
    var kind := FacilityTypes[i].0;
    StatsAreTallies(fs, kind);
    assert kind !in Resolver.PrototypeKeys;
  }

  /** Records of a type that is not configured are counted on no card. */
  lemma OtherTypesUncounted(fs: seq<ParsedFacility>)
    requires forall k :: 0 <= k < |fs| ==> forall i :: 0 <= i < |FacilityTypes| ==> fs[k].kind != FacilityTypes[i].0
    ensures forall i :: 0 <= i < |FacilityTypes| ==> Cards(fs)[i].count == 0
  {
    forall i | 0 <= i < |FacilityTypes| ensures Cards(fs)[i].count == 0 {
      var kind := FacilityTypes[i].0;
      if OfKind(fs, kind) != [] {
        assert OfKind(fs, kind)[0] in OfKind(fs, kind);
      }
    }
  }

  class Viewer {
    var facilitiesData: seq<ParsedFacility>
    var currentFilter: string
    var searchResults: seq<ParsedFacility>
    var isSearchActive: bool
    var tableRows: seq<TableRow>
    var kmlParser: KMLParser?

    /** The page's initial state. */
    constructor()
      ensures facilitiesData == [] && currentFilter == "all" && searchResults == []
      ensures !isSearchActive && tableRows == [] && kmlParser == null
    {
      facilitiesData := [];
      currentFilter := "all";
      searchResults := [];
      isSearchActive := false;
      tableRows := [];
      kmlParser := null;
    }

    /** `loadKMLData` once the file has been fetched (`None` when the fetch
        failed): a new parser reads it, and any failure installs the fallback
        records. */
    method LoadKMLData(doc: Option<Node>)
      modifies this
      ensures facilitiesData == LoadedData(doc)
      ensures doc.Some? ==> kmlParser != null && fresh(kmlParser)
      ensures doc.None? ==> kmlParser == old(kmlParser)
      ensures currentFilter == old(currentFilter) && searchResults == old(searchResults)
      ensures isSearchActive == old(isSearchActive) && tableRows == old(tableRows)
    {
      if doc.None? {
        LoadFallbackData();
        return;
      }
      var parser := new KMLParser();
      kmlParser := parser;
      var r := parser.ParseKMLFile(doc.value);
      if r.Success? {
        facilitiesData := r.value;
      } else {
        LoadFallbackData();
      }
    }

    /** `loadFallbackData`. */
    method LoadFallbackData()
      modifies this
      ensures facilitiesData == FallbackData
      ensures currentFilter == old(currentFilter) && searchResults == old(searchResults)
      ensures isSearchActive == old(isSearchActive) && tableRows == old(tableRows)
      ensures kmlParser == old(kmlParser)
    {
      facilitiesData := FallbackData;
    }

    /** `searchFacilities`: a blank query clears the search; any other
        selects the records matching the lower-cased, trimmed query and
        marks the search active. */
    method SearchFacilities(query: string)
      modifies this
      ensures facilitiesData == old(facilitiesData) && kmlParser == old(kmlParser)
      ensures currentFilter == old(currentFilter)
      ensures Trim(query) == [] ==>
                searchResults == [] && !isSearchActive && tableRows == TableRows(facilitiesData, currentFilter)
      ensures Trim(query) != [] ==>
                searchResults == SearchMatches(facilitiesData, Trim(Lower(query))) && isSearchActive &&
                tableRows == old(tableRows)
    {
      if Trim(query) == [] {
        ClearSearch();
      } else {
        ShowSearch(Trim(Lower(query)));
      }
    }

    /** The non-blank branch of `searchFacilities`, for the prepared term. */
    method ShowSearch(searchTerm: string)
      modifies this
      ensures searchResults == SearchMatches(facilitiesData, searchTerm) && isSearchActive
      ensures facilitiesData == old(facilitiesData) && kmlParser == old(kmlParser)
      ensures currentFilter == old(currentFilter) && tableRows == old(tableRows)
    {
      searchResults := SearchMatches(facilitiesData, searchTerm);
      isSearchActive := true;
    }

    /** `clearSearch`: no results, search inactive, and the current filter
        applied again. */
    method ClearSearch()
      modifies this
      ensures searchResults == [] && !isSearchActive
      ensures facilitiesData == old(facilitiesData) && currentFilter == old(currentFilter)
      ensures tableRows == TableRows(facilitiesData, currentFilter) && kmlParser == old(kmlParser)
    {
      searchResults := [];
      isSearchActive := false;
      FilterFacilities(currentFilter);
    }

    /** `filterFacilities`: the type becomes the current filter, an active
        search is switched off (its results kept) and the table redrawn. */
    method FilterFacilities(kind: string)
      modifies this
      ensures currentFilter == kind && !isSearchActive
      ensures tableRows == TableRows(facilitiesData, kind)
      ensures facilitiesData == old(facilitiesData) && searchResults == old(searchResults)
      ensures kmlParser == old(kmlParser)
    {
      currentFilter := kind;
      if isSearchActive {
        isSearchActive := false;
      }
      UpdateTable(kind);
    }

    /** `toggleFilter`: a dashboard card click. */
    method ToggleFilter(kind: string)
      modifies this
      ensures currentFilter == NextFilter(old(currentFilter), kind) && !isSearchActive
      ensures tableRows == TableRows(facilitiesData, currentFilter)
      ensures facilitiesData == old(facilitiesData) && searchResults == old(searchResults)
      ensures kmlParser == old(kmlParser)
    {
      if currentFilter == kind {
        FilterFacilities("all");
      } else {
        FilterFacilities(kind);
      }
    }

    /** `updateTable`: one row per shown record, appended in order. */
    method UpdateTable(filter: string)
      modifies this
      ensures tableRows == TableRows(facilitiesData, filter)
      ensures facilitiesData == old(facilitiesData) && currentFilter == old(currentFilter)
      ensures searchResults == old(searchResults) && isSearchActive == old(isSearchActive)
      ensures kmlParser == old(kmlParser)
    {
      var filteredData := facilitiesData;
      if filter != "all" {
        filteredData := OfKind(facilitiesData, filter);
      }
      var rows := [];
      var k := 0;
      while k < |filteredData|
        invariant 0 <= k <= |filteredData| && filteredData == Shown(facilitiesData, filter)
        invariant rows == TableRows(facilitiesData, filter)[..k]
        modifies {}
      {
        RowsStep(facilitiesData, filter, rows, k);
        rows := rows + [RowOf(filteredData[k])];
        k := k + 1;
      }
      tableRows := rows;
    }

    /** `updateStats`: the four dashboard cards, each counting its type's
        records and adding up the first number of each of their notes. */
    method UpdateStats() returns (cards: seq<Card>)
      ensures cards == Cards(facilitiesData)
    {
      cards := [];
      var i := 0;
      while i < |FacilityTypes|
        invariant 0 <= i <= |FacilityTypes|
        invariant cards == Cards(facilitiesData)[..i]
      {
        var kind := FacilityTypes[i].0;
        var facilities := OfKind(facilitiesData, kind);
        var total := 0;
        var k := 0;
        while k < |facilities|
          invariant 0 <= k <= |facilities|
          invariant total == NoteTotal(facilities[..k])
        {
          assert facilities[..k + 1][..k] == facilities[..k];
          total := total + NoteQuantity(facilities[k].note);
          k := k + 1;
        }
        assert facilities[..k] == facilities;
        cards := cards + [Card(kind, |facilities|, total)];
        i := i + 1;
      }
    }
  }
}
