/** The browser's `KMLParser`: it reads a KML document through the DOM,
    walks every `Folder` and every `Placemark` below it, and keeps the parsed
    records in its `facilitiesData` field, from which it also tallies the
    facilities of each type. */
module KmlParser {
  import opened Wrappers
  import opened JsText
  import opened JsNumber
  import opened Xml
  import opened CoordPattern
  import opened Category
  import opened Resolver

  /** A record as the browser parser emits it: no id and no timestamp, and the
      coordinates exactly as `parseFloat` read them, NaN included. */
  datatype ParsedFacility = ParsedFacility(
    name: string, kind: string, address: string, note: string,
    lat: Num, lng: Num, description: string)

  /** `querySelector(name)?.textContent?.trim()`: the trimmed text of the
      first descendant with that name, None (`undefined`) when there is none. */
  function TrimmedText(n: Node, name: string): (r: Option<string>)
    ensures r.Some? <==> Select(n, name).Some?
    ensures r.Some? ==> r.value == Trim(SelectText(n, name).value)
  {
    match SelectText(n, name)
    case None => None
    case Some(t) => Some(Trim(t))
  }

  /** `value || default` on a text that may be `undefined`: the value when it
      is present and non-empty, otherwise the default. */
  function OrDefault(value: Option<string>, default: string): (r: string)
    ensures value.Some? && value.value != [] ==> r == value.value
    ensures value.None? || value.value == [] ==> r == default
  {
    if value.Some? && value.value != [] then value.value else default
  }

  /** The three variables the `Data` loop of `parsePlacemark` updates. */
  datatype DataState = DataState(category: Option<string>, note: Option<string>, addressData: Option<string>)

  /** The `Data` elements of a placemark: every `Data` below its first
      `ExtendedData` descendant, none when it has no `ExtendedData`. */
  function ParserDataElements(placemark: Node): seq<Node> {
    match Select(placemark, "ExtendedData")
    case None => []
    case Some(ext) => Named(Descendants(ext), "Data")
  }

  /** One `Data` element's effect: the `switch` on its `name` attribute
      assigns its trimmed value (possibly `undefined`) to the variable the
      name selects. A missing attribute is `null`, which matches no case, and
      "地址LINK" is not among the cases. */
  function ApplyData(s: DataState, d: Node): DataState {
    var dataName := Attribute(d.attrs, "name");
    var value := TrimmedText(d, "value");
    if dataName == Some("類別") then s.(category := value)
    else if dataName == Some("備註") then s.(note := value)
    else if dataName == Some("地址或google座標") then s.(addressData := value)
    else s
  }

  /** The variables after the `Data` elements `ds`, applied in order. */
  function FoldData(s: DataState, ds: seq<Node>): DataState
    decreases |ds|
  {
    if ds == [] then s else ApplyData(FoldData(s, ds[..|ds| - 1]), ds[|ds| - 1])
  }

  /** One more `Data` element applied to the variables of the ones before it. */
  lemma FoldDataStep(s: DataState, ds: seq<Node>, k: nat)
    requires k < |ds|
    ensures FoldData(s, ds[..k + 1]) == ApplyData(FoldData(s, ds[..k]), ds[k])
  {
    assert ds[..k + 1][..k] == ds[..k];
  }

  /** The value of the last element of `ds` whose `name` attribute is `key`,
      and `default` when no element carries that name. */
  function LastData(ds: seq<Node>, key: string, default: Option<string>): Option<string>
    decreases |ds|
  {
    if ds == [] then default
    else if Attribute(ds[|ds| - 1].attrs, "name") == Some(key) then TrimmedText(ds[|ds| - 1], "value")
    else LastData(ds[..|ds| - 1], key, default)
  }

  /** Each variable ends as the value of the last `Data` element naming it,
      or as it started when none does. */
  lemma {:induction false} FoldDataFields(s: DataState, ds: seq<Node>)
    ensures FoldData(s, ds).category == LastData(ds, "類別", s.category)
    ensures FoldData(s, ds).note == LastData(ds, "備註", s.note)
    ensures FoldData(s, ds).addressData == LastData(ds, "地址或google座標", s.addressData)
    decreases |ds|
  {
    if ds != [] {
      FoldDataFields(s, ds[..|ds| - 1]);
    }
  }

  /** A `Data` element named "地址LINK", or with any other name, changes
      nothing: the browser parser ignores the link field. */
  lemma OtherDataIgnored(s: DataState, ds: seq<Node>, d: Node)
    requires Attribute(d.attrs, "name") !in {Some("類別"), Some("備註"), Some("地址或google座標")}
    ensures FoldData(s, ds + [d]) == FoldData(s, ds)
  {
    assert (ds + [d])[..|ds|] == ds;
  }

  /** The latitude and longitude a matched "lat, lng" pair gives. */
  function PairNums(c: Captures): (Num, Num) {
    (ParseFloat(c.first), ParseFloat(c.second))
  }

  /** The coordinates a `Point` gives: its first `coordinates` split on
      commas, when that has at least two fields. */
  function PointPair(placemark: Node): Option<(Num, Num)> {
    var point := SelectPointCoordinates(placemark);
    if point.Some? then PointFields(TextContent(point.value)) else None
  }

  /** The address value is consulted: it is non-empty, holds a comma and
      matches a "lat, lng" pair. */
  predicate AddressHasPair(addressData: Option<string>) {
    addressData.Some? && addressData.value != [] && Contains(addressData.value, ",")
    && MatchPair(addressData.value).Some?
  }

  /** The description is consulted: it is non-empty and matches a pair. */
  predicate DescriptionHasPair(placemark: Node) {
    var description := SelectText(placemark, "description");
    description.Some? && description.value != [] && MatchPair(description.value).Some?
  }

  /** `parseCoordinates`: the first `coordinates` below a `Point`, split on
      commas, when it has at least two fields, read without any NaN check;
      else a "lat, lng" pair in the address value when that is non-empty and
      holds a comma; else such a pair in the untrimmed description; else
      nothing. */
  function ParseCoordinates(placemark: Node, addressData: Option<string>): (r: Option<(Num, Num)>)
    ensures PointPair(placemark).Some? ==> r == PointPair(placemark)
    ensures PointPair(placemark).None? && AddressHasPair(addressData) ==>
      r == Some(PairNums(MatchPair(addressData.value).value))
    ensures PointPair(placemark).None? && !AddressHasPair(addressData) && DescriptionHasPair(placemark) ==>
      r == Some(PairNums(MatchPair(SelectText(placemark, "description").value).value))
    ensures r.None? <==>
      PointPair(placemark).None? && !AddressHasPair(addressData) && !DescriptionHasPair(placemark)
  {
    var fromPoint := PointPair(placemark);
    if fromPoint.Some? then fromPoint
    else if AddressHasPair(addressData) then
      Some(PairNums(MatchPair(addressData.value).value))
    else
      var description := SelectText(placemark, "description");
      if DescriptionHasPair(placemark) then
        Some(PairNums(MatchPair(description.value).value))
      else None
  }

  /** Without a `Point` the parser only takes coordinates from a matched pair,
      and those always read as numbers: NaN can only come from a `Point`. */
  lemma PairCoordinatesAreFinite(placemark: Node, addressData: Option<string>)
    requires SelectPointCoordinates(placemark).None?
    requires ParseCoordinates(placemark, addressData).Some?
    ensures ParseCoordinates(placemark, addressData).value.0.Finite?
    ensures ParseCoordinates(placemark, addressData).value.1.Finite?
  {
    var description := SelectText(placemark, "description");
    if addressData.Some? && addressData.value != [] && Contains(addressData.value, ",")
       && MatchPair(addressData.value).Some? {
      PairAlwaysParses(addressData.value);
    } else {
      PairAlwaysParses(description.value);
    }
  }

  /** The variables before the `Data` loop: the category is the folder's
      name, the note is empty and the address is the `address` text. */
  function StartState(placemark: Node, folderName: Option<string>): DataState {
    DataState(folderName, Some([]), TrimmedText(placemark, "address"))
  }

  /** The tail of `parsePlacemark` once the `Data` loop has run: no
      coordinates give `null`, otherwise the record with its defaults. */
  function Emit(placemark: Node, s: DataState): (r: Option<ParsedFacility>)
    ensures r.Some? <==> ParseCoordinates(placemark, s.addressData).Some?
    ensures r.Some? ==> r.value.name != [] && r.value.kind != []
    ensures r.Some? ==> NormalizeCategoryParser(Some(r.value.kind)) == r.value.kind
  {
    NormalizeCategoryParserIdempotent(s.category);
    match ParseCoordinates(placemark, s.addressData)
    case None => None
    case Some((lat, lng)) =>
      var address := TrimmedText(placemark, "address");
      Some(ParsedFacility(
        OrDefault(TrimmedText(placemark, "name"), "未命名"),
        NormalizeCategoryParser(s.category),
        OrDefault(s.addressData, OrDefault(address, [])),
        OrDefault(s.note, []),
        lat, lng,
        OrDefault(TrimmedText(placemark, "description"), [])))
  }

  /** What `parsePlacemark` returns for a placemark of a folder with the given
      name. */
  function PlacemarkRecord(placemark: Node, folderName: Option<string>): (r: Option<ParsedFacility>)
    ensures r.Some? ==> r.value.name != [] && r.value.kind != []
    ensures r.Some? ==> NormalizeCategoryParser(Some(r.value.kind)) == r.value.kind
  {
    Emit(placemark, FoldData(StartState(placemark, folderName), ParserDataElements(placemark)))
  }

  /** Every field of a parsed record, stated through the last `Data` element
      of each name: the category falls back to the folder's name, the note to
      '', the address value to the `address` text, and the record exists
      exactly when coordinates are found for the address value in force. */
  lemma PlacemarkRecordFields(placemark: Node, folderName: Option<string>)
    ensures var ds := ParserDataElements(placemark);
            var address := TrimmedText(placemark, "address");
            var addressData := LastData(ds, "地址或google座標", address);
            var r := PlacemarkRecord(placemark, folderName);
            (r.Some? <==> ParseCoordinates(placemark, addressData).Some?) &&
            (r.Some? ==>
              r.value.name == OrDefault(TrimmedText(placemark, "name"), "未命名") &&
              r.value.kind == NormalizeCategoryParser(LastData(ds, "類別", folderName)) &&
              r.value.note == OrDefault(LastData(ds, "備註", Some([])), []) &&
              r.value.address == OrDefault(addressData, OrDefault(address, [])) &&
              (r.value.lat, r.value.lng) == ParseCoordinates(placemark, addressData).value)
  {
    FoldDataFields(StartState(placemark, folderName), ParserDataElements(placemark));
  }

  /** The elements of the document (the document element and everything
      below it) with the given name, in document order:
      `xmlDoc.querySelectorAll(name)`. */
  function DocumentNamed(doc: Node, name: string): seq<Node> {
    Named([doc] + Descendants(doc), name)
  }

  /** The `parsererror` element `DOMParser` puts into a document it could not
      parse. */
  function ParseError(doc: Node): Option<Node> {
    FirstNamed([doc] + Descendants(doc), "parsererror")
  }

  /** A folder's name: the trimmed text of its first `name` descendant. */
  function FolderName(folder: Node): Option<string> {
    TrimmedText(folder, "name")
  }

  /** Every `Placemark` below a folder, nested folders included. */
  function FolderPlacemarks(folder: Node): seq<Node> {
    Named(Descendants(folder), "Placemark")
  }

  /** `parsePlacemark` applied to each placemark, for a folder of that name. */
  function PlacemarkResults(placemarks: seq<Node>, folderName: Option<string>): (r: seq<Option<ParsedFacility>>)
    ensures |r| == |placemarks|
    ensures forall j :: 0 <= j < |r| ==> r[j] == PlacemarkRecord(placemarks[j], folderName)
  {
    seq(|placemarks|, j requires 0 <= j < |placemarks| => PlacemarkRecord(placemarks[j], folderName))
  }

  /** The records collected after one more placemark of a folder. */
  lemma PlacemarkPushed(start: seq<ParsedFacility>, placemarks: seq<Node>, folderName: Option<string>,
                        j: nat, facility: Option<ParsedFacility>)
    requires j < |placemarks| && facility == PlacemarkRecord(placemarks[j], folderName)
    ensures var results := PlacemarkResults(placemarks, folderName);
            start + Somes(results[..j + 1]) ==
            (start + Somes(results[..j])) + (if facility.Some? then [facility.value] else [])
  {
    SomesStepAfter(start, PlacemarkResults(placemarks, folderName), j);
  }

  function FolderResults(folder: Node): seq<Option<ParsedFacility>> {
    PlacemarkResults(FolderPlacemarks(folder), FolderName(folder))
  }

  /** The records of the folders `folders`, folder by folder, each folder's
      in placemark order, the placemarks without coordinates dropped. */
  function FolderRecords(folders: seq<Node>): seq<ParsedFacility>
    decreases |folders|
  {
    if folders == [] then []
    else FolderRecords(folders[..|folders| - 1]) + Somes(FolderResults(folders[|folders| - 1]))
  }

  /** The records `parseKMLFile` collects from a document it could parse. */
  function DocumentRecords(doc: Node): seq<ParsedFacility> {
    FolderRecords(DocumentNamed(doc, "Folder"))
  }

  lemma {:induction false} SomesMember<T>(xs: seq<Option<T>>, x: T)
    ensures x in Somes(xs) <==> Some(x) in xs
    decreases |xs|
  {
    if xs != [] {
      var init := xs[..|xs| - 1];
      SomesMember(init, x);
      assert xs == init + [xs[|xs| - 1]];
    }
  }

  /** A record is collected exactly when some folder has a placemark that
      parses to it: placemarks outside every folder are never read. */
  lemma {:induction false} FolderRecordsFromFolders(folders: seq<Node>, f: ParsedFacility)
    ensures f in FolderRecords(folders) <==>
            exists i :: 0 <= i < |folders| && Some(f) in FolderResults(folders[i])
    decreases |folders|
  {
    if folders != [] {
      var init := folders[..|folders| - 1];
      var last := folders[|folders| - 1];
      FolderRecordsFromFolders(init, f);
      SomesMember(FolderResults(last), f);
      if f in FolderRecords(folders) {
        if f in FolderRecords(init) {
          var i :| 0 <= i < |init| && Some(f) in FolderResults(init[i]);
          assert folders[i] == init[i];
        } else {
          assert Some(f) in FolderResults(folders[|folders| - 1]);
        }
      }
      if exists i :: 0 <= i < |folders| && Some(f) in FolderResults(folders[i]) {
        var i :| 0 <= i < |folders| && Some(f) in FolderResults(folders[i]);
        if i < |folders| - 1 {
          assert init[i] == folders[i];
        }
      }
    }
  }

  /** Every record the parser emits has a name, and a type `normalizeCategory`
      leaves as it is. */
  lemma DocumentTypesAreNormal(doc: Node, f: ParsedFacility)
    requires f in DocumentRecords(doc)
    ensures NormalizeCategoryParser(Some(f.kind)) == f.kind
    ensures f.name != []
  {
    var folders := DocumentNamed(doc, "Folder");
    FolderRecordsFromFolders(folders, f);
    var i :| 0 <= i < |folders| && Some(f) in FolderResults(folders[i]);
    var results := FolderResults(folders[i]);
    var j :| 0 <= j < |results| && results[j] == Some(f);
    assert results[j] == PlacemarkRecord(FolderPlacemarks(folders[i])[j], FolderName(folders[i]));
  }

  /** A placemark whose `Point` text has two fields that are not numbers. */
  const NaNCoordinates := Element("coordinates", [], "x,y", [])
  const NaNPoint := Element("Point", [], [], [NaNCoordinates])
  const NaNPlacemark := Element("Placemark", [], [], [NaNPoint])

  /** A folder holding a folder holding that placemark. */
  const InnerFolder := Element("Folder", [], [], [NaNPlacemark])
  const NestedFolders := Element("Folder", [], [], [InnerFolder])

  /** A placemark inside a nested folder is parsed once for each enclosing
      folder, and a `Point` that does not read as numbers still yields a
      record, with NaN coordinates. */
  lemma NestedPlacemarkTwice()
    ensures |DocumentRecords(NestedFolders)| == 2
    ensures DocumentRecords(NestedFolders)[0].lat == NaN
    ensures DocumentRecords(NestedFolders)[1] == DocumentRecords(NestedFolders)[0]
  {
    NestedFolderShape();
    PlacemarkOfNaNPoint();
    var r := PlacemarkRecord(NaNPlacemark, None);
    OnePlacemark(NestedFolders, NaNPlacemark);
    OnePlacemark(InnerFolder, NaNPlacemark);
    SomesSingle(r.value);
    assert [NestedFolders, InnerFolder][..1] == [NestedFolders];
    assert [NestedFolders][..0] == [];
    assert FolderRecords([NestedFolders]) == [r.value];
  }

  /** An unnamed folder holding one placemark gives that placemark's result. */
  lemma OnePlacemark(folder: Node, placemark: Node)
    requires FolderPlacemarks(folder) == [placemark] && FolderName(folder) == None
    ensures FolderResults(folder) == [PlacemarkRecord(placemark, None)]
  {
  }

  /** Both folders are found, both hold the placemark, and neither has a
      name. */
  lemma NestedFolderShape()
    ensures DocumentNamed(NestedFolders, "Folder") == [NestedFolders, InnerFolder]
    ensures FolderPlacemarks(NestedFolders) == [NaNPlacemark]
    ensures FolderPlacemarks(InnerFolder) == [NaNPlacemark]
    ensures FolderName(NestedFolders) == None && FolderName(InnerFolder) == None
  {
    NestedFoldersFound();
    NestedPlacemarksFound();
  }

  lemma NestedFoldersFound()
    ensures DocumentNamed(NestedFolders, "Folder") == [NestedFolders, InnerFolder]
  {
    NestedDocumentOrder();
    TwoNamedFirst(NestedFolders, InnerFolder, [NaNPlacemark, NaNPoint, NaNCoordinates], "Folder");
  }

  /** Two nodes with the name followed by nodes without it: the two are
      selected. */
  lemma TwoNamedFirst(a: Node, b: Node, below: seq<Node>, name: string)
    requires a.name == name && b.name == name
    requires forall i :: 0 <= i < |below| ==> below[i].name != name
    ensures Named([a, b] + below, name) == [a, b]
  {
    NamedAppend([a, b], below, name);
    NamedNone(below, name);
    NamedCons(a, [b], name);
    NamedSingle(b, name);
    assert [a] + [b] == [a, b];
  }

  /** The nodes of the nested document, in document order. */
  lemma NestedDocumentOrder()
    ensures [NestedFolders] + Descendants(NestedFolders) ==
      [NestedFolders, InnerFolder] + [NaNPlacemark, NaNPoint, NaNCoordinates]
  {
    NestedDescendants();
  }

  lemma NestedPlacemarksFound()
    ensures FolderPlacemarks(NestedFolders) == [NaNPlacemark]
    ensures FolderPlacemarks(InnerFolder) == [NaNPlacemark]
    ensures FolderName(NestedFolders) == None && FolderName(InnerFolder) == None
  {
    var rest := [NaNPoint, NaNCoordinates];
    NestedDescendants();
    assert Descendants(InnerFolder) == [NaNPlacemark] + rest;
    assert Descendants(NestedFolders) == [InnerFolder] + ([NaNPlacemark] + rest);
    NamedNone(rest, "Placemark");
    NamedCons(NaNPlacemark, rest, "Placemark");
    NamedCons(InnerFolder, [NaNPlacemark] + rest, "Placemark");
    assert FirstNamed(Descendants(InnerFolder), "name").None?;
    assert FirstNamed(Descendants(NestedFolders), "name").None?;
  }

  /** No node of `ns` has the name, so none is selected. */
  lemma NamedNone(ns: seq<Node>, name: string)
    requires forall i :: 0 <= i < |ns| ==> ns[i].name != name
    ensures Named(ns, name) == []
  {
  }

  lemma NestedDescendants()
    ensures Descendants(InnerFolder) == [NaNPlacemark, NaNPoint, NaNCoordinates]
    ensures Descendants(NestedFolders) == [InnerFolder, NaNPlacemark, NaNPoint, NaNCoordinates]
  {
    OnlyChild(NaNPoint);
    OnlyChild(NaNPlacemark);
    OnlyChild(InnerFolder);
    OnlyChild(NestedFolders);
    assert Descendants(NaNCoordinates) == [];
  }

  /** The placemark with the non-numeric `Point` parses, to NaN coordinates. */
  lemma PlacemarkOfNaNPoint()
    ensures PlacemarkRecord(NaNPlacemark, None).Some?
    ensures PlacemarkRecord(NaNPlacemark, None).value.lat == NaN
  {
    NaNPointFields();
    NaNPointSelected();
  }

  lemma NaNPointSelected()
    ensures SelectPointCoordinates(NaNPlacemark) == Some(NaNCoordinates)
  {
    var none: seq<Node> := [];
    assert CoordinatesUnderPoint(none, true) == [] && CoordinatesUnderPoint(none, false) == [];
    assert [NaNCoordinates][1..] == none && [NaNPoint][1..] == none;
    assert CoordinatesUnderPoint([NaNCoordinates], true) == [NaNCoordinates] + [] + [];
    assert CoordinatesUnderPoint([NaNPoint], false) == [] + [NaNCoordinates] + [];
  }

  lemma NaNPointFields()
    ensures PointFields(TextContent(NaNCoordinates)) == Some((NaN, NaN))
  {
    NaNPointText();
    SplitTwoChars('x', 'y', ',');
    NotNumbers();
  }

  lemma NaNPointText()
    ensures Trim(TextContent(NaNCoordinates)) == "x,y"
  {
    assert TextContent(NaNCoordinates) == "x,y";
    TrimUnchanged("x,y");
  }

  /** A text that neither starts nor ends with whitespace is its own trim. */
  lemma TrimUnchanged(s: string)
    requires s != [] && !IsWhitespace(s[0]) && !IsWhitespace(s[|s| - 1])
    ensures Trim(s) == s
  {
    assert TrimStart(s) == s;
  }

  lemma NotNumbers()
    ensures ParseFloat("x") == NaN && ParseFloat("y") == NaN
  {
    NotANumber('x');
    NotANumber('y');
  }

  /** A one-character text that cannot begin a number reads as NaN. */
  lemma NotANumber(c: char)
    requires !IsWhitespace(c) && !IsDigit(c) && c != '+' && c != '-' && c != '.'
    ensures ParseFloat([c]) == NaN
  {
    assert TrimStart([c]) == [c];
    assert SignedBody([c]) == (false, [c]);
    assert DigitRun([c], 0) == 0;
    assert FractionPart([c]) == ([], [c]);
  }

  /** "a,b" splits into "a" and "b". */
  lemma SplitTwoChars(a: char, b: char, sep: char)
    requires a != sep && b != sep
    ensures Split([a, sep, b], sep) == [[a], [b]]
  {
    var empty: string := [];
    assert Split(empty, sep) == [empty];
    assert [b][1..] == empty;
    var last := Split([b], sep);
    assert last == [[b] + empty] + [empty][1..];
    assert [b] + empty == [b] && [empty][1..] == [];
    assert last == [[b]];
    assert [sep, b][1..] == [b];
    var mid := Split([sep, b], sep);
    assert mid == [[], [b]];
    assert [a, sep, b][1..] == [sep, b];
    assert Split([a, sep, b], sep) == [[a] + mid[0]] + mid[1..];
    assert [a] + mid[0] == [a] && mid[1..] == [[b]];
  }

  lemma OnlyChild(n: Node)
    requires |n.children| == 1
    ensures Descendants(n) == [n.children[0]] + Descendants(n.children[0])
  {
    assert n.children[1..] == [];
    assert DescendantsOfAll(n.children[1..]) == [];
  }

  lemma NamedCons(n: Node, rest: seq<Node>, name: string)
    ensures Named([n] + rest, name) == (if n.name == name then [n] else []) + Named(rest, name)
  {
    assert ([n] + rest)[1..] == rest;
  }

  /** The counters `getStatsByType` keeps for one type. */
  datatype TypeCount = TypeCount(count: nat, total: nat)

  /** One facility counted: a type seen for the first time starts at zero.
      A type that names a member every object inherits (`toString`, say) is
      found by `!stats[type]` as already present, and the increments land on
      the inherited member, so the returned object never gets that key. */
  function Tally(stats: map<string, TypeCount>, f: ParsedFacility): map<string, TypeCount> {
    if f.kind in PrototypeKeys then stats
    else
      var prior := if f.kind in stats then stats[f.kind] else TypeCount(0, 0);
      stats[f.kind := TypeCount(prior.count + 1, prior.total + NoteQuantity(f.note))]
  }

  function StatsByType(fs: seq<ParsedFacility>): map<string, TypeCount>
    decreases |fs|
  {
    if fs == [] then map[] else Tally(StatsByType(fs[..|fs| - 1]), fs[|fs| - 1])
  }

  /** One more record counted into the statistics of the ones before it. */
  lemma StatsStep(fs: seq<ParsedFacility>, i: nat)
    requires i < |fs|
    ensures StatsByType(fs[..i + 1]) == Tally(StatsByType(fs[..i]), fs[i])
  {
    assert fs[..i + 1][..i] == fs[..i];
  }

  /** The facilities of one type, in order. */
  function OfKind(fs: seq<ParsedFacility>, kind: string): (r: seq<ParsedFacility>)
    ensures forall f :: f in r <==> f in fs && f.kind == kind
    decreases |fs|
  {
    if fs == [] then []
    else OfKind(fs[..|fs| - 1], kind) + (if fs[|fs| - 1].kind == kind then [fs[|fs| - 1]] else [])
  }

  /** The quantities of the notes of `fs`, added up. */
  function NoteTotal(fs: seq<ParsedFacility>): nat
    decreases |fs|
  {
    if fs == [] then 0 else NoteTotal(fs[..|fs| - 1]) + NoteQuantity(fs[|fs| - 1].note)
  }

  /** The counters of a type are the number of its facilities and the sum of
      their note quantities; a type is present exactly when it has a
      facility and is not an inherited member's name. */
  lemma {:induction false} StatsAreTallies(fs: seq<ParsedFacility>, kind: string)
    ensures kind in StatsByType(fs) <==> kind !in PrototypeKeys && OfKind(fs, kind) != []
    ensures kind in StatsByType(fs) ==>
              StatsByType(fs)[kind] == TypeCount(|OfKind(fs, kind)|, NoteTotal(OfKind(fs, kind)))
    decreases |fs|
  {
    if fs != [] {
      var init := fs[..|fs| - 1];
      var f := fs[|fs| - 1];
      StatsAreTallies(init, kind);
      TallyEffect(StatsByType(init), f, kind);
      if f.kind == kind {
        assert OfKind(fs, kind) == OfKind(init, kind) + [f];
        assert OfKind(fs, kind)[..|OfKind(fs, kind)| - 1] == OfKind(init, kind);
      } else {
        assert OfKind(fs, kind) == OfKind(init, kind);
      }
    }
  }

  /** Counting one facility touches only its own type's counters. */
  lemma TallyEffect(stats: map<string, TypeCount>, f: ParsedFacility, kind: string)
    ensures f.kind != kind || kind in PrototypeKeys ==>
              (kind in Tally(stats, f) <==> kind in stats) &&
              (kind in stats ==> Tally(stats, f)[kind] == stats[kind])
    ensures f.kind == kind && kind !in PrototypeKeys ==>
              kind in Tally(stats, f) &&
              Tally(stats, f)[kind] == (if kind in stats then TypeCount(stats[kind].count + 1, stats[kind].total + NoteQuantity(f.note))
                                        else TypeCount(1, NoteQuantity(f.note)))
  {
  }

  class KMLParser {
    var facilitiesData: seq<ParsedFacility>

    constructor()
      ensures facilitiesData == []
    {
      facilitiesData := [];
    }

    /** `parseKMLFile` on the document `DOMParser` produced: a `parsererror`
        element makes it throw, with the records of the previous file kept;
        otherwise the records are replaced by those of every placemark of
        every folder. */
    method ParseKMLFile(doc: Node) returns (r: Result<seq<ParsedFacility>, string>)
      modifies this
      ensures ParseError(doc).Some? ==>
                r == Failure("KML解析錯誤: " + TextContent(ParseError(doc).value)) &&
                facilitiesData == old(facilitiesData)
      ensures ParseError(doc).None? ==>
                facilitiesData == DocumentRecords(doc) && r == Success(facilitiesData)
    {
      var parseError := ParseError(doc);
      if parseError.Some? {
        return Failure("KML解析錯誤: " + TextContent(parseError.value));
      }
      facilitiesData := [];
      var folders := DocumentNamed(doc, "Folder");
      var i := 0;
      while i < |folders|
        invariant 0 <= i <= |folders|
        invariant facilitiesData == FolderRecords(folders[..i])
      {
        ParseFolder(folders[i]);
        assert folders[..i + 1][..i] == folders[..i];
        i := i + 1;
      }
      assert folders[..i] == folders;
      r := Success(facilitiesData);
    }

    /** The body of the folder loop of `parseKMLFile`: each placemark below
        the folder is parsed with the folder's name and pushed when it
        parses. */
    method ParseFolder(folder: Node)
      modifies this
      ensures facilitiesData == old(facilitiesData) + Somes(FolderResults(folder))
    {
      var folderName := FolderName(folder);
      var placemarks := FolderPlacemarks(folder);
      ghost var results := PlacemarkResults(placemarks, folderName);
      ghost var start := facilitiesData;
      var j := 0;
      while j < |placemarks|
        invariant 0 <= j <= |placemarks|
        invariant facilitiesData == start + Somes(results[..j])
      {
        var facility := ParsePlacemark(placemarks[j], folderName);
        PlacemarkPushed(start, placemarks, folderName, j, facility);
        if facility.Some? {
          facilitiesData := facilitiesData + [facility.value];
        }
        j := j + 1;
      }
      assert results[..j] == results;
    }

    /** `parsePlacemark`: the `Data` loop over the placemark's `ExtendedData`,
        then the coordinates and the record. */
    method ParsePlacemark(placemark: Node, folderName: Option<string>) returns (facility: Option<ParsedFacility>)
      ensures facility == PlacemarkRecord(placemark, folderName)
    {
      var state := StartState(placemark, folderName);
      var elements := ParserDataElements(placemark);
      var k := 0;
      while k < |elements|
        invariant 0 <= k <= |elements|
        invariant state == FoldData(StartState(placemark, folderName), elements[..k])
      {
        FoldDataStep(StartState(placemark, folderName), elements, k);
        state := ApplyData(state, elements[k]);
        k := k + 1;
      }
      assert elements[..k] == elements;
      facility := Emit(placemark, state);
    }

    /** `getFacilitiesData`. */
    function GetFacilitiesData(): seq<ParsedFacility>
      reads this
    {
      facilitiesData
    }

    /** `getStatsByType`: one pass over the records, counting each type and
        adding up the quantities in the notes. */
    method GetStatsByType() returns (stats: map<string, TypeCount>)
      ensures stats == StatsByType(facilitiesData)
    {
      var fs := facilitiesData;
      stats := map[];
      var i := 0;
      while i < |fs|
        invariant 0 <= i <= |fs|
        invariant stats == StatsByType(fs[..i])
      {
        StatsStep(fs, i);
        var facility := fs[i];
        ghost var before := stats;
        if facility.kind !in PrototypeKeys {
          var prior := if facility.kind in stats then stats[facility.kind] else TypeCount(0, 0);
          stats := stats[facility.kind := TypeCount(prior.count + 1, prior.total + NoteQuantity(facility.note))];
        }
        assert stats == Tally(before, facility);
        i := i + 1;
      }
      assert fs[..i] == fs;
    }
  }
}
