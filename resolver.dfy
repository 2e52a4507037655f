/** Where a placemark's coordinates come from in the Apps Script service: the
    coordinate link, the text of a `Point`, a geocoded or estimated address,
    and a hand-made table of known facilities. */
module Resolver {
  import opened Wrappers
  import opened JsText
  import opened JsNumber
  import opened CoordPattern
  import opened UriDecode

  /** A link that names a Google Maps page. */
  predicate IsGoogleLink(t: string) {
    Contains(t, "maps.app.goo.gl") || Contains(t, "google.com/maps")
  }

  /** `parseCoordinatesFromLink`: a blank link gives nothing; otherwise the
      trimmed link is tried with the generic pair, then (for a Google Maps link)
      the `@lat,lng` and `ll=lat,lng` forms, then, when it holds an escaped
      comma, the generic pair on its percent-decoded text; a `URIError` from the
      decoding gives nothing. */
  function ParseCoordinatesFromLink(link: string): (r: Option<Coords>)
    ensures FindCoords(Trim(link)).Some? ==> r == FindCoords(Trim(link))
    ensures FindCoords(Trim(link)).None? ==> r == (if Contains(Trim(link), "%2C") then DecodedPair(Trim(link)) else None)
  {
    var clean := Trim(link);
    if clean == [] then
      NoPairInEmpty();
      ContainsLength(clean, "%2C");
      None
    else if FindCoords(clean).Some? then FindCoords(clean)
    else
      AtPatternNeedsGeneric(clean);
      LlPatternNeedsGeneric(clean);
      PairAlwaysParses(clean);
      if IsGoogleLink(clean) && MatchCoords(MatchAtPair(clean)).Some? then MatchCoords(MatchAtPair(clean))
      else if IsGoogleLink(clean) && MatchCoords(MatchLlPair(clean)).Some? then MatchCoords(MatchLlPair(clean))
      else if Contains(clean, "%2C") then DecodedPair(clean)
      else None
  }

  /** The empty text holds no pair. */
  lemma NoPairInEmpty()
    ensures FindCoords([]).None?
  {
    assert PairAt([], 0).None?;
  }

  /** The generic pair of the percent-decoded text; nothing when decoding
      throws. */
  function DecodedPair(t: string): Option<Coords> {
    match Decode(t)
    case None => None
    case Some(decoded) => FindCoords(decoded)
  }

  /** A blank link gives nothing. */
  lemma BlankLinkFails(link: string)
    requires AllWhitespace(link)
    ensures ParseCoordinatesFromLink(link).None?
  {
    TrimEmptyIffBlank(link);
  }

  /** A generic pair in the trimmed link is the answer, and it always reads as
      coordinates: its first number is the latitude, its second the longitude. */
  lemma GenericPairWins(link: string)
    requires MatchPair(Trim(link)).Some?
    ensures ParseCoordinatesFromLink(link) == FindCoords(Trim(link))
    ensures FindCoords(Trim(link)).Some?
  {
    PairAlwaysParses(Trim(link));
  }

  /** Without a generic pair only the percent-decoded retry can succeed: the
      `@lat,lng` and `ll=lat,lng` branches never contribute. */
  lemma GoogleFormsNeverContribute(link: string)
    requires MatchPair(Trim(link)).None?
    ensures ParseCoordinatesFromLink(link) ==
      (if Trim(link) != [] && Contains(Trim(link), "%2C") then
         match Decode(Trim(link))
         case None => None
         case Some(decoded) => FindCoords(decoded)
       else None)
  {
    AtPatternNeedsGeneric(Trim(link));
    LlPatternNeedsGeneric(Trim(link));
  }

  /** The latitude and longitude read from a `Point`'s text `lng,lat[,alt]`:
      the first comma field is the longitude, the second the latitude; fewer
      than two fields give nothing. */
  function PointFields(text: string): Option<(Num, Num)> {
    match PointFieldTexts(text)
    case None => None
    case Some((lat, lng)) => Some((ParseFloat(lat), ParseFloat(lng)))
  }

  /** The latitude and longitude texts of a `Point`'s trimmed text: the second
      and the first comma field. */
  function PointFieldTexts(text: string): Option<(string, string)> {
    var fields := Split(Trim(text), ',');
    if |fields| >= 2 then Some((fields[1], fields[0])) else None
  }

  /** `getCoordinatesFromPoint` once the `coordinates` text is found: both
      fields must read as numbers. */
  function CoordsFromPointText(text: string): Option<Coords> {
    match PointFields(text)
    case None => None
    case Some((lat, lng)) =>
      if lat.Finite? && lng.Finite? then Some(Coords(lat.value, lng.value)) else None
  }

  /** Text written as comma-separated fields `lng,lat,...` gives the second
      field as latitude and the first as longitude. */
  lemma PointFieldsSwap(fields: seq<string>)
    requires |fields| >= 2
    requires forall k :: 0 <= k < |fields| ==> ',' !in fields[k]
    requires Trim(Join(fields, ',')) == Join(fields, ',')
    ensures PointFieldTexts(Join(fields, ',')) == Some((fields[1], fields[0]))
  {
    SplitOfJoin(fields, ',');
  }

  /** Text without a comma is a single field, which gives nothing. */
  lemma PointFieldsNeedComma(text: string)
    requires ',' !in Trim(text)
    ensures PointFieldTexts(text).None?
  {
    SplitField(Trim(text), ',');
  }

  /** A latitude/longitude offset factor drawn by `Math.random()`. */
  type Unit = r: real | 0.0 <= r < 1.0

  const GuangfuCenter := Coords(23.6577, 121.4269)

  /** The keyword centroid `estimateCoordinatesFromAddress` starts from: the
      first rule, in order, with a keyword in the lower-cased address, else the
      centre of Guangfu. */
  function Centroid(address: string): Coords {
    var a := Lower(address);
    if Contains(a, "太巴塱") || Contains(a, "tabalong") then Coords(23.6650, 121.4180)
    else if Contains(a, "馬太鞍") || Contains(a, "馬佛") then Coords(23.6380, 121.4380)
    else if Contains(a, "大同") || Contains(a, "復興") then Coords(23.6720, 121.4120)
    else if Contains(a, "大進") || Contains(a, "大全") then Coords(23.6450, 121.4450)
    else if Contains(a, "砂荖") || Contains(a, "加里洞") then Coords(23.6280, 121.4580)
    else GuangfuCenter
  }

  /** `estimateCoordinatesFromAddress` with its two `Math.random()` draws
      passed in, latitude first. */
  function EstimateCoordinates(address: string, randomLat: Unit, randomLng: Unit): (r: Coords)
    ensures Centroid(address).lat - 0.001 <= r.lat < Centroid(address).lat + 0.001
    ensures Centroid(address).lng - 0.001 <= r.lng < Centroid(address).lng + 0.001
  {
    var c := Centroid(address);
    Coords(c.lat + (randomLat - 0.5) * 0.002, c.lng + (randomLng - 0.5) * 0.002)
  }

  /** Every estimate lies in the box spanned by the centroids, widened by the
      jitter. */
  lemma EstimateInDistrict(address: string, randomLat: Unit, randomLng: Unit)
    ensures 23.627 <= EstimateCoordinates(address, randomLat, randomLng).lat < 23.673
    ensures 121.411 <= EstimateCoordinates(address, randomLat, randomLng).lng < 121.459
  {
  }

  /** `geocodeAddress`: a pair written in the address itself, else the
      geocoding service's answer (`api`, None when it fails or finds nothing),
      else the estimate. It always gives coordinates. */
  function GeocodeAddress(address: string, api: Option<Coords>, randomLat: Unit, randomLng: Unit): (r: Coords)
    ensures FindCoords(address).Some? ==> r == FindCoords(address).value
    ensures FindCoords(address).None? && api.Some? ==> r == api.value
    ensures FindCoords(address).None? && api.None? ==> r == EstimateCoordinates(address, randomLat, randomLng)
    ensures FindCoords(address).None? && api.None? ==>
      Centroid(address).lat - 0.001 <= r.lat < Centroid(address).lat + 0.001 &&
      Centroid(address).lng - 0.001 <= r.lng < Centroid(address).lng + 0.001
  {
    match FindCoords(address)
    case Some(c) => c
    case None =>
      match api
      case Some(c) => c
      case None => EstimateCoordinates(address, randomLat, randomLng)
  }

  /** A row of the hand-made table: a facility name and its coordinates. */
  datatype Known = Known(name: string, at: Coords)

  const SchoolGuangfuJunior := Coords(23.670744817168, 121.424612054950)
  const TownshipOffice := Coords(23.672128822372, 121.425962653936)
  const TafalongChurch := Coords(23.656125191784, 121.448685869841)
  const SchoolGuangfuPrimary := Coords(23.673782831711, 121.427167314022)
  const HuyeMedicalStation := Coords(23.500648786750, 121.360855764468)

  /** The table of known facilities, in declaration order. */
  const ManualTable: seq<Known> := [
    Known("光復國中", SchoolGuangfuJunior),
    Known("花蓮縣光復鄉公所", TownshipOffice),
    Known("太巴塱教會", TafalongChurch),
    Known("光復國小", SchoolGuangfuPrimary),
    Known("虎爺溫泉醫療站", HuyeMedicalStation)
  ]

  /** The address fragments tried after the names, in order. */
  const AddressRules: seq<Known> := [
    Known("林森路200號", SchoolGuangfuJunior),
    Known("中華路257號", TownshipOffice),
    Known("中正路二段90號", TafalongChurch),
    Known("中山路三段75號", SchoolGuangfuPrimary),
    Known("瑞穗鄉祥北路二段101-5號", HuyeMedicalStation)
  ]

  /** The first row whose name equals `key`. */
  function ExactRow(table: seq<Known>, key: string): (r: Option<Coords>)
    ensures r.None? <==> forall i :: 0 <= i < |table| ==> table[i].name != key
    ensures r.Some? ==> exists i :: 0 <= i < |table| && table[i].name == key && table[i].at == r.value
  {
    if table == [] then None
    else if table[0].name == key then Some(table[0].at)
    else ExactRow(table[1..], key)
  }

  /** `name` and a key are related by containment. */
  predicate Related(name: string, key: string) {
    Contains(name, key) || Contains(key, name)
  }

  /** The first row whose name contains `name` or is contained in it. */
  function PartialRow(table: seq<Known>, name: string): (r: Option<Coords>)
    ensures r.None? <==> forall i :: 0 <= i < |table| ==> !Related(name, table[i].name)
    ensures r.Some? ==> exists i :: 0 <= i < |table| && Related(name, table[i].name) && table[i].at == r.value
  {
    if table == [] then None
    else if Related(name, table[0].name) then Some(table[0].at)
    else PartialRow(table[1..], name)
  }

  /** The first rule whose fragment the text contains. */
  function FragmentRow(rules: seq<Known>, text: string): (r: Option<Coords>)
    ensures r.None? <==> forall i :: 0 <= i < |rules| ==> !Contains(text, rules[i].name)
    ensures r.Some? ==> exists i :: 0 <= i < |rules| && Contains(text, rules[i].name) && rules[i].at == r.value
  {
    if rules == [] then None
    else if Contains(text, rules[0].name) then Some(rules[0].at)
    else FragmentRow(rules[1..], text)
  }

  /** The manual lookup shared by both Apps Script scripts: the row named
      exactly `name`, else the first row related to it by containment, else the
      first address fragment in the lower-cased address, else nothing. */
  function GetManualCoordinates(name: string, address: string): (r: Option<Coords>)
    ensures r.Some? ==>
      (exists i :: 0 <= i < |ManualTable| && Related(name, ManualTable[i].name) && ManualTable[i].at == r.value) ||
      (exists i :: 0 <= i < |AddressRules| && Contains(Lower(address), AddressRules[i].name) &&
                   AddressRules[i].at == r.value)
  {
    ContainsSelf(name);
    if ExactRow(ManualTable, name).Some? then ExactRow(ManualTable, name)
    else if PartialRow(ManualTable, name).Some? then PartialRow(ManualTable, name)
    else if address != [] then FragmentRow(AddressRules, Lower(address))
    else None
  }

  /** The lookup fails exactly when no row is related to the name by
      containment and the address holds no fragment. */
  lemma ManualLookupFails(name: string, address: string)
    ensures GetManualCoordinates(name, address).None? <==>
      (forall i :: 0 <= i < |ManualTable| ==> !Related(name, ManualTable[i].name)) &&
      (forall i :: 0 <= i < |AddressRules| ==> !Contains(address, AddressRules[i].name))
  {
    if ExactRow(ManualTable, name).Some? {
      var i :| 0 <= i < |ManualTable| && ManualTable[i].name == name;
      ContainsSelf(name);
    }
    forall i | 0 <= i < |AddressRules|
      ensures Contains(Lower(address), AddressRules[i].name) <==> Contains(address, AddressRules[i].name)
    {
      assert NoAsciiLetters(AddressRules[i].name);
      LowerKeepsKeyword(address, AddressRules[i].name);
    }
    if address == [] {
      forall i | 0 <= i < |AddressRules| ensures !Contains(address, AddressRules[i].name) {
        ContainsLength(address, AddressRules[i].name);
      }
    }
  }

  /** An empty name is contained in every key, so it takes the first row. */
  lemma EmptyNameTakesFirstRow(address: string)
    ensures GetManualCoordinates([], address) == Some(SchoolGuangfuJunior)
  {
    ContainsEmpty(ManualTable[0].name);
  }

  /** The partial match finds row `j` when no earlier row is related to `name`
      and row `j` is. */
  lemma {:induction false} PartialRowAt(table: seq<Known>, name: string, j: nat)
    requires j < |table| && Related(name, table[j].name)
    requires forall i :: 0 <= i < j ==> !Related(name, table[i].name)
    ensures PartialRow(table, name) == Some(table[j].at)
  {
    if j > 0 {
      assert !Related(name, table[0].name);
      PartialRowAt(table[1..], name, j - 1);
    }
  }

  /** The exact step finds row `j` when no earlier row has the same name. */
  lemma {:induction false} ExactRowAt(table: seq<Known>, name: string, j: nat)
    requires j < |table| && table[j].name == name
    requires forall i :: 0 <= i < j ==> table[i].name != name
    ensures ExactRow(table, name) == Some(table[j].at)
  {
    if j > 0 {
      ExactRowAt(table[1..], name, j - 1);
    }
  }

  /** No key is related by containment to an earlier key. */
  lemma EarlierKeysUnrelated(j: nat, i: nat)
    requires i < j < |ManualTable|
    ensures !Related(ManualTable[j].name, ManualTable[i].name)
    ensures ManualTable[j].name != ManualTable[i].name
  {
    var t := ManualTable;
    if j == 1 {
      KeysUnrelated(t[1].name, t[0].name, 3, 0);
    } else if j == 2 {
      KeysUnrelated(t[2].name, t[i].name, 0, 0);
    } else if j == 3 {
      FourthKeyUnrelated(i);
    } else {
      KeysUnrelated(t[4].name, t[i].name, 0, 0);
    }
  }

  /** The fourth key against each key before it. */
  lemma FourthKeyUnrelated(i: nat)
    requires i < 3
    ensures !Related(ManualTable[3].name, ManualTable[i].name)
    ensures ManualTable[3].name != ManualTable[i].name
  {
    var t := ManualTable;
    if i == 0 {
      KeysUnrelated(t[3].name, t[0].name, 3, 3);
    } else if i == 1 {
      KeysUnrelated(t[3].name, t[1].name, 0, 2);
    } else {
      KeysUnrelated(t[3].name, t[2].name, 0, 0);
    }
  }

  /** The exact step and the partial match both find each key's own row, so
      the exact step never changes the result. */
  lemma KeyFindsOwnRow(j: nat)
    requires j < |ManualTable|
    ensures ExactRow(ManualTable, ManualTable[j].name) == Some(ManualTable[j].at)
    ensures PartialRow(ManualTable, ManualTable[j].name) == Some(ManualTable[j].at)
  {
    var name := ManualTable[j].name;
    ContainsSelf(name);
    forall i | 0 <= i < j
      ensures !Related(name, ManualTable[i].name) && ManualTable[i].name != name
    {
      EarlierKeysUnrelated(j, i);
    }
    PartialRowAt(ManualTable, name, j);
    ExactRowAt(ManualTable, name, j);
  }

  /** Two texts each lacking a character of the other are unrelated. */
  lemma KeysUnrelated(a: string, b: string, i: nat, j: nat)
    requires i < |b| && b[i] !in a
    requires j < |a| && a[j] !in b
    ensures !Related(a, b) && a != b
  {
    MissingChar(a, b, i);
    MissingChar(b, a, j);
  }

  /** The names an object literal answers through its prototype: looking one
      of them up in the table gives a function or an object, never a row. */
  const PrototypeKeys: seq<string> := [
    "constructor", "hasOwnProperty", "isPrototypeOf", "propertyIsEnumerable",
    "toLocaleString", "toString", "valueOf", "__proto__",
    "__defineGetter__", "__defineSetter__", "__lookupGetter__", "__lookupSetter__"
  ]

  /** What the service's exact-key step of `getManualCoordinates` finds. */
  datatype Lookup = Row(at: Coords) | Inherited | Absent

  /** The service's `getManualCoordinates` as written: `manualCoordinates[name]`
      is also truthy for an inherited member, whose `lat` and `lng` are
      `undefined`; the lookup then returns an object without coordinates. */
  function GetManualCoordinatesAsWritten(name: string, address: string): (r: Lookup)
    ensures r.Inherited? <==> name in PrototypeKeys
    ensures name !in PrototypeKeys ==> (r.Row? <==> GetManualCoordinates(name, address).Some?)
    ensures r.Row? ==> GetManualCoordinates(name, address) == Some(r.at)
  {
    if name in PrototypeKeys then PrototypeNamesUnknown(name); Inherited
    else if ExactRow(ManualTable, name).Some? then Row(ExactRow(ManualTable, name).value)
    else
      match GetManualCoordinates(name, address)
      case Some(c) => Row(c)
      case None => Absent
  }

  /** Every character of the text is below U+0080. */
  predicate AllAscii(s: string) {
    forall k :: 0 <= k < |s| ==> s[k] < '\U{80}'
  }

  /** A non-empty ASCII text and a text starting with a non-ASCII character
      are unrelated by containment. */
  lemma AsciiUnrelated(name: string, key: string)
    requires |name| > 0 && AllAscii(name) && |key| > 0 && key[0] >= '\U{80}' && name[0] !in key
    ensures !Related(name, key) && name != key
  {
    KeysUnrelated(name, key, 0, 0);
  }

  /** No name an object inherits is a key of the table or related to one,
      so the table's own rows never answer it: the exact and the partial
      steps both find nothing. */
  lemma PrototypeNamesUnknown(name: string)
    requires name in PrototypeKeys
    ensures ExactRow(ManualTable, name).None? && PartialRow(ManualTable, name).None?
  {
    var k :| 0 <= k < |PrototypeKeys| && PrototypeKeys[k] == name;
    assert |name| > 0 && AllAscii(name) by {
      PrototypeKeysAscii(k);
    }
    forall i | 0 <= i < |ManualTable|
      ensures !Related(name, ManualTable[i].name) && ManualTable[i].name != name
    {
      var key := ManualTable[i].name;
      assert |key| > 0 && key[0] >= '\U{80}';
      assert name[0] !in key by {
        forall j | 0 <= j < |key| ensures key[j] != name[0] {
          TableKeysWide(i, j);
        }
      }
      AsciiUnrelated(name, key);
    }
  }

  lemma PrototypeKeysAscii(k: nat)
    requires k < |PrototypeKeys|
    ensures |PrototypeKeys[k]| > 0 && AllAscii(PrototypeKeys[k])
  {
    if k < 4 {
      FirstPrototypeKeysAscii();
    } else if k < 8 {
      MiddlePrototypeKeysAscii();
    } else {
      LastPrototypeKeysAscii();
    }
  }

  lemma FirstPrototypeKeysAscii()
    ensures AllAscii("constructor") && AllAscii("hasOwnProperty")
    ensures AllAscii("isPrototypeOf") && AllAscii("propertyIsEnumerable")
  {
  }

  lemma MiddlePrototypeKeysAscii()
    ensures AllAscii("toLocaleString") && AllAscii("toString") && AllAscii("valueOf") && AllAscii("__proto__")
  {
  }

  lemma LastPrototypeKeysAscii()
    ensures AllAscii("__defineGetter__") && AllAscii("__defineSetter__")
    ensures AllAscii("__lookupGetter__") && AllAscii("__lookupSetter__")
  {
  }

  lemma TableKeysWide(i: nat, j: nat)
    requires i < |ManualTable| && j < |ManualTable[i].name|
    ensures ManualTable[i].name[j] >= '\U{80}'
  {
  }

  /** A placemark named "toString" is answered by the inherited member: the
      service then emits it without coordinates, where the evident intent is
      that only the table's own rows answer. */
  lemma InheritedNameAnswers()
    ensures GetManualCoordinatesAsWritten("toString", []) == Inherited
    ensures GetManualCoordinates("toString", []).None?
  {
    assert PrototypeKeys[5] == "toString";
    var name := "toString";
    forall i | 0 <= i < |ManualTable|
      ensures ManualTable[i].name != name && !Related(name, ManualTable[i].name)
    {
      KeysUnrelated(name, ManualTable[i].name, 0, 0);
    }
  }
}
