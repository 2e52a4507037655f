/** The service's query endpoints over the parsed facility records: the
    filtered and paginated listing, a single record by id, per-type statistics,
    the distinct types, free-text search, and the radius search. */
module Query {
  import opened Wrappers
  import opened JsText
  import opened JsNumber
  import opened ProductionFeed

  /** A facility matches a lower-cased search term when its lower-cased name,
      address, type or note contains the term. */
  predicate Matches(f: Facility, term: string) {
    Contains(Lower(f.name), term) || Contains(Lower(f.address), term) ||
    Contains(Lower(f.kind), term) || Contains(Lower(f.note), term)
  }

  /** The facilities of one type, in order. */
  function OfType(fs: seq<Facility>, kind: string): (r: seq<Facility>)
    ensures |r| <= |fs|
    ensures forall f :: f in r <==> f in fs && f.kind == kind
    decreases |fs|
  {
    if fs == [] then []
    else OfType(fs[..|fs| - 1], kind) + (if fs[|fs| - 1].kind == kind then [fs[|fs| - 1]] else [])
  }

  /** The facilities matching a lower-cased term, in order. */
  function Matching(fs: seq<Facility>, term: string): (r: seq<Facility>)
    ensures |r| <= |fs|
    ensures forall f :: f in r <==> f in fs && Matches(f, term)
    decreases |fs|
  {
    if fs == [] then []
    else Matching(fs[..|fs| - 1], term) + (if Matches(fs[|fs| - 1], term) then [fs[|fs| - 1]] else [])
  }

  /** `Math.ceil(a / b)` for a count `a` and a non-zero divisor `b`. */
  function CeilDiv(a: nat, b: int): (r: int)
    requires b != 0
    ensures b > 0 ==> (r - 1) * b < a <= r * b
    ensures b > 0 ==> r >= 0
    ensures b < 0 ==> r <= 0
  {
    if b > 0 then
      var q := a / b;
      if a % b == 0 then q else q + 1
    else -(a / -b)
  }

  /** The query parameters of the listing; absent parameters are empty. */
  datatype Params = Params(kind: string, search: string, page: string, limit: string)

  /** One page of the listing with its pagination block. */
  datatype Listing = Listing(data: seq<Facility>, page: int, limit: int, total: nat, totalPages: int)

  /** `parseInt(text) || default`: NaN and 0 give the default. */
  function IntOr(text: string, default: int): (r: int)
    ensures r != 0 <== default != 0
    ensures ParseInt(text).Some? && ParseInt(text).value != 0 ==> r == ParseInt(text).value
    ensures ParseInt(text).None? || ParseInt(text).value == 0 ==> r == default
  {
    match ParseInt(text)
    case None => default
    case Some(v) => if v == 0 then default else v
  }

  /** The facilities the listing filters: by type when one is given, then by
      search term when one is given. */
  function Filtered(fs: seq<Facility>, params: Params): seq<Facility> {
    var byType := if params.kind != [] then OfType(fs, params.kind) else fs;
    if params.search != [] then Matching(byType, Lower(params.search)) else byType
  }

  /** Page `page` of size `limit`: `slice((page-1)*limit, (page-1)*limit + limit)`. */
  function PageOf<T>(l: seq<T>, page: int, limit: int): seq<T> {
    var offset := (page - 1) * limit;
    JsSlice(l, offset, offset + limit)
  }

  /** `getFacilities`: the filtered list, one page of it, and the pagination
      block (default page 1, default limit 50). */
  function GetFacilities(fs: seq<Facility>, params: Params): (r: Listing)
    ensures r.total == |Filtered(fs, params)|
    ensures r.page == IntOr(params.page, 1) && r.limit == IntOr(params.limit, 50)
    ensures r.limit != 0
    ensures r.data == PageOf(Filtered(fs, params), r.page, r.limit)
    ensures r.totalPages == CeilDiv(r.total, r.limit)
  {
    var filtered := Filtered(fs, params);
    var page := IntOr(params.page, 1);
    var limit := IntOr(params.limit, 50);
    Listing(PageOf(filtered, page, limit), page, limit, |filtered|, CeilDiv(|filtered|, limit))
  }

  /** For a positive page and limit, the page is the `page`-th block of
      `limit` consecutive records, cut short at the end of the list. */
  lemma PageIsBlock<T>(l: seq<T>, page: int, limit: int)
    requires page >= 1 && limit >= 1
    ensures var lo := (page - 1) * limit;
      PageOf(l, page, limit) == (if lo >= |l| then [] else l[lo..if lo + limit <= |l| then lo + limit else |l|])
  {
    var lo := (page - 1) * limit;
    assert lo >= 0 by { ProductNonNegative(page - 1, limit); }
  }

  lemma ProductNonNegative(a: int, b: int)
    requires a >= 0 && b >= 0
    ensures a * b >= 0
  {
  }

  /** The first `k` pages of size `limit`, concatenated. */
  function Pages<T>(l: seq<T>, limit: int, k: nat): seq<T> {
    if k == 0 then [] else Pages(l, limit, k - 1) + PageOf(l, k, limit)
  }

  /** The first `k` pages are the prefix of the first `k * limit` records. */
  lemma PagesArePrefix<T>(l: seq<T>, limit: int, k: nat)
    requires limit >= 1
    ensures Pages(l, limit, k) == l[..if k * limit <= |l| then k * limit else |l|]
  {
    PagesUpTo(l, limit, k, k * limit);
  }

  /** `PagesArePrefix`, with the end `top` of the last page given. */
  lemma {:induction false} PagesUpTo<T>(l: seq<T>, limit: int, k: nat, top: int)
    requires limit >= 1 && top == k * limit
    ensures Pages(l, limit, k) == l[..if top <= |l| then top else |l|]
  {
    if k > 0 {
      var lo := top - limit;
      NextBlockStart(k, limit);
      PagesUpTo(l, limit, k - 1, lo);
      PageIsBlock(l, k, limit);
      if lo < |l| {
        var hi := if top <= |l| then top else |l|;
        assert l[..lo] + l[lo..hi] == l[..hi];
      }
    }
  }

  lemma NextBlockStart(k: nat, limit: int)
    requires k >= 1 && limit >= 1
    ensures (k - 1) * limit >= 0 && k * limit == (k - 1) * limit + limit
  {
  }

  /** With a positive limit, pages 1 to `totalPages` together are exactly the
      list, each record once and in order. */
  lemma AllPagesCoverList<T>(l: seq<T>, limit: int)
    requires limit >= 1
    ensures Pages(l, limit, CeilDiv(|l|, limit)) == l
  {
    var n := CeilDiv(|l|, limit);
    PagesArePrefix(l, limit, n);
    assert l[..|l|] == l;
  }

  /** The listing a client gets for page `page`, the other parameters kept. */
  function ListingOfPage(fs: seq<Facility>, params: Params, page: nat): Listing {
    GetFacilities(fs, params.(page := NatToDecimal(page)))
  }

  /** The listings a client gets by changing only the page parameter. */
  function ListingsFor(fs: seq<Facility>, params: Params): nat -> Listing {
    (page: nat) => ListingOfPage(fs, params, page)
  }

  /** The data of the listings for pages 1 to `k`, concatenated. */
  function ListedData(listing: nat -> Listing, k: nat): seq<Facility> {
    if k == 0 then [] else ListedData(listing, k - 1) + listing(k).data
  }

  /** The listings for pages 1 to `k` hold the first `k` pages of the
      filtered records. */
  lemma ListedDataArePages(fs: seq<Facility>, params: Params, k: nat)
    ensures ListedData(ListingsFor(fs, params), k) == Pages(Filtered(fs, params), IntOr(params.limit, 50), k)
  {
    var l := Filtered(fs, params);
    var limit := IntOr(params.limit, 50);
    var listing := ListingsFor(fs, params);
    forall j | 1 <= j <= k
      ensures listing(j).data == PageOf(l, j, limit)
    {
      ListingOfPageData(fs, params, j);
    }
    ListedDataUpTo(listing, k, l, limit);
  }

  /** Listings that hold the pages of a list, concatenated, are those pages. */
  lemma {:induction false} ListedDataUpTo(listing: nat -> Listing, k: nat, l: seq<Facility>, limit: int)
    requires forall j :: 1 <= j <= k ==> listing(j).data == PageOf(l, j, limit)
    ensures ListedData(listing, k) == Pages(l, limit, k)
  {
    if k > 0 {
      ListedDataUpTo(listing, k - 1, l, limit);
    }
  }

  /** The listing for page `k` holds the `k`-th page of the filtered records. */
  lemma ListingOfPageData(fs: seq<Facility>, params: Params, k: nat)
    requires k >= 1
    ensures ListingOfPage(fs, params, k).data == PageOf(Filtered(fs, params), k, IntOr(params.limit, 50))
  {
    IndexPage(k);
    FilteredIgnoresPage(fs, params, params.(page := NatToDecimal(k)));
  }

  /** The text of an index is read back as that page. */
  lemma IndexPage(k: nat)
    requires k >= 1
    ensures IntOr(NatToDecimal(k), 1) == k
  {
    ParseIntOfDigits(NatToDecimal(k));
  }

  /** The filter does not look at the page or the limit. */
  lemma FilteredIgnoresPage(fs: seq<Facility>, params: Params, other: Params)
    requires other.kind == params.kind && other.search == params.search
    ensures Filtered(fs, other) == Filtered(fs, params)
  {
  }

  /** The data of the listings for pages 1 to `totalPages`, concatenated, is
      the filtered list: every matching record is listed once, in order. */
  lemma ListingPagesCoverFiltered(fs: seq<Facility>, params: Params)
    requires IntOr(params.limit, 50) >= 1
    ensures var r := GetFacilities(fs, params);
      r.totalPages >= 0 && ListedData(ListingsFor(fs, params), r.totalPages) == Filtered(fs, params)
  {
    var r := GetFacilities(fs, params);
    ListedDataArePages(fs, params, r.totalPages);
    AllPagesCoverList(Filtered(fs, params), IntOr(params.limit, 50));
  }

  /** `getFacility`: the first record with the id, or the not-found error. */
  function GetFacility(fs: seq<Facility>, id: string): (r: Result<Facility, string>)
    ensures r.Success? ==> r.value in fs && r.value.id == id
    ensures r.Failure? <==> forall k :: 0 <= k < |fs| ==> fs[k].id != id
  {
    if fs == [] then Failure("找不到指定的設施")
    else if fs[0].id == id then Success(fs[0])
    else GetFacility(fs[1..], id)
  }

  /** The first record with the id is the one found. */
  lemma {:induction false} GetFacilityFindsFirst(fs: seq<Facility>, id: string, j: nat)
    requires j < |fs| && fs[j].id == id
    requires forall k :: 0 <= k < j ==> fs[k].id != id
    ensures GetFacility(fs, id) == Success(fs[j])
  {
    if j > 0 {
      GetFacilityFindsFirst(fs[1..], id, j - 1);
    }
  }

  /** `getFacilityTypes`: the distinct types in order of first appearance
      (`[...new Set(types)]`). */
  function Distinct(kinds: seq<string>): (r: seq<string>)
    ensures forall t :: t in r <==> t in kinds
    ensures forall i, j :: 0 <= i < j < |r| ==> r[i] != r[j]
    ensures forall i, j :: 0 <= i < j < |r| ==> FirstAt(kinds, r[i]) < FirstAt(kinds, r[j])
    decreases |kinds|
  {
    if kinds == [] then []
    else
      var init := kinds[..|kinds| - 1];
      var prior := Distinct(init);
      var last := kinds[|kinds| - 1];
      assert kinds == init + [last];
      assert forall t :: t in kinds <==> t in init || t == last;
      FirstAtAppend(init, last);
      if last in prior then prior else prior + [last]
  }

  /** The index where `t` first occurs in `s`. */
  function FirstAt(s: seq<string>, t: string): (k: nat)
    requires t in s
    ensures k < |s| && s[k] == t && t !in s[..k]
  {
    if s[0] == t then 0 else 1 + FirstAt(s[1..], t)
  }

  /** A first occurrence does not move when a value is appended. */
  lemma {:induction false} FirstAtAppendOne(s: seq<string>, x: string, t: string)
    requires t in s
    ensures FirstAt(s + [x], t) == FirstAt(s, t)
  {
    if s[0] != t {
      assert (s + [x])[1..] == s[1..] + [x];
      FirstAtAppendOne(s[1..], x, t);
    }
  }

  /** Appending to a list moves no first occurrence, and a new value first
      occurs at the end. */
  lemma {:induction false} FirstAtAppend(s: seq<string>, x: string)
    ensures forall t :: t in s ==> FirstAt(s + [x], t) == FirstAt(s, t)
    ensures x !in s ==> FirstAt(s + [x], x) == |s|
  {
    forall t | t in s ensures FirstAt(s + [x], t) == FirstAt(s, t) {
      FirstAtAppendOne(s, x, t);
    }
  }

  function Kinds(fs: seq<Facility>): (r: seq<string>)
    ensures |r| == |fs| && forall k :: 0 <= k < |fs| ==> r[k] == fs[k].kind
  {
    seq(|fs|, k requires 0 <= k < |fs| => fs[k].kind)
  }

  function GetFacilityTypes(fs: seq<Facility>): (r: seq<string>)
    ensures forall t :: t in r <==> exists f :: f in fs && f.kind == t
    ensures forall i, j :: 0 <= i < j < |r| ==> r[i] != r[j]
  {
    KindsOccur(fs);
    Distinct(Kinds(fs))
  }

  /** The types listed are those of the records. */
  lemma KindsOccur(fs: seq<Facility>)
    ensures forall t :: t in Kinds(fs) <==> exists f :: f in fs && f.kind == t
  {
    var ks := Kinds(fs);
    forall t | t in ks ensures exists f :: f in fs && f.kind == t {
      var k :| 0 <= k < |ks| && ks[k] == t;
      assert fs[k] in fs;
    }
    forall f | f in fs ensures f.kind in ks {
      var k :| 0 <= k < |fs| && fs[k] == f;
      assert ks[k] == f.kind;
    }
  }

  /** A member of the statistics of one type. */
  datatype Member = Member(id: string, name: string, address: string)

  /** The statistics of one type: how many records, the sum of the quantities
      their notes state, and the records themselves. */
  datatype TypeStats = TypeStats(count: nat, total: nat, members: seq<Member>)

  const NoStats := TypeStats(0, 0, [])

  /** One record added to the statistics of its type. */
  function Tally(s: TypeStats, f: Facility): TypeStats {
    TypeStats(s.count + 1, s.total + NoteQuantity(f.note), s.members + [Member(f.id, f.name, f.address)])
  }

  /** One record counted into the statistics map. */
  function Count(stats: map<string, TypeStats>, f: Facility): (r: map<string, TypeStats>)
    ensures r.Keys == stats.Keys + {f.kind}
  {
    var prior := if f.kind in stats then stats[f.kind] else NoStats;
    stats[f.kind := Tally(prior, f)]
  }

  /** The statistics of a list of records, counted in order. */
  function StatsOf(fs: seq<Facility>): map<string, TypeStats>
    decreases |fs|
  {
    if fs == [] then map[] else Count(StatsOf(fs[..|fs| - 1]), fs[|fs| - 1])
  }

  /** `getStats`: each record in turn counted into the map of its type. */
  method GetStats(fs: seq<Facility>) returns (total: nat, byType: map<string, TypeStats>)
    ensures total == |fs|
    ensures byType == StatsOf(fs)
  {
    byType := map[];
    var i := 0;
    while i < |fs|
      invariant 0 <= i <= |fs|
      invariant byType == StatsOf(fs[..i])
    {
      assert fs[..i + 1][..i] == fs[..i];
      byType := Count(byType, fs[i]);
      i := i + 1;
    }
    assert fs[..i] == fs;
    total := |fs|;
  }

  /** The statistics of one list of records of a single type, counted from
      nothing: its length, the sum of its notes' quantities, its members. */
  function Summary(l: seq<Facility>): (r: TypeStats)
    decreases |l|
  {
    if l == [] then NoStats else Tally(Summary(l[..|l| - 1]), l[|l| - 1])
  }

  /** A summary counts every record once and lists each in order. */
  lemma {:induction false} SummaryCounts(l: seq<Facility>)
    ensures Summary(l).count == |l| && |Summary(l).members| == |l|
    ensures forall k :: 0 <= k < |l| ==>
      Summary(l).members[k] == Member(l[k].id, l[k].name, l[k].address)
    decreases |l|
  {
    if l != [] {
      SummaryCounts(l[..|l| - 1]);
    }
  }

  /** The types in the statistics are exactly the types of the records. */
  lemma {:induction false} StatsKeys(fs: seq<Facility>)
    ensures forall t :: t in StatsOf(fs) <==> t in Kinds(fs)
    decreases |fs|
  {
    if fs != [] {
      var init := fs[..|fs| - 1];
      StatsKeys(init);
      assert Kinds(fs) == Kinds(init) + [fs[|fs| - 1].kind];
    }
  }

  /** The statistics of each type are the summary of that type's records:
      counting all records into one map and counting each type on its own
      agree. */
  lemma {:induction false} StatsAreSummaries(fs: seq<Facility>, kind: string)
    ensures kind in StatsOf(fs) ==> StatsOf(fs)[kind] == Summary(OfType(fs, kind))
    ensures kind !in StatsOf(fs) ==> OfType(fs, kind) == []
    decreases |fs|
  {
    if fs != [] {
      var init := fs[..|fs| - 1];
      var f := fs[|fs| - 1];
      StatsAreSummaries(init, kind);
      var m := StatsOf(init);
      assert StatsOf(fs) == Count(m, f);
      if f.kind == kind {
        var o := OfType(fs, kind);
        assert o == OfType(init, kind) + [f];
        assert o[..|o| - 1] == OfType(init, kind);
        assert Summary(o) == Tally(Summary(OfType(init, kind)), f);
      } else {
        assert OfType(fs, kind) == OfType(init, kind);
      }
    }
  }

  /** The per-type counts, over the distinct types, add up to the number of
      records. */
  function CountSum(kinds: seq<string>, fs: seq<Facility>): nat {
    if kinds == [] then 0 else |OfType(fs, kinds[0])| + CountSum(kinds[1..], fs)
  }

  lemma {:induction false} CountsAddUp(fs: seq<Facility>)
    ensures CountSum(GetFacilityTypes(fs), fs) == |fs|
    decreases |fs|
  {
    if fs != [] {
      var init := fs[..|fs| - 1];
      assert fs == init + [fs[|fs| - 1]];
      CountsAddUp(init);
      CountsStep(init, fs[|fs| - 1]);
    }
  }

  /** One more record adds one to the sum of the per-type counts. */
  lemma CountsStep(init: seq<Facility>, f: Facility)
    ensures CountSum(GetFacilityTypes(init + [f]), init + [f]) == CountSum(GetFacilityTypes(init), init) + 1
  {
    var prior := GetFacilityTypes(init);
    CountSumStep(prior, init, f);
    TypesStep(init, f);
    if f.kind !in prior {
      CountSumAppend(prior, f.kind, init + [f]);
      NewTypeCountsOnce(init, f);
    }
  }

  /** The distinct types after one more record: a new type is appended. */
  lemma TypesStep(init: seq<Facility>, f: Facility)
    ensures GetFacilityTypes(init + [f]) ==
      (if f.kind in GetFacilityTypes(init) then GetFacilityTypes(init) else GetFacilityTypes(init) + [f.kind])
  {
    var fs := init + [f];
    assert Kinds(fs)[..|fs| - 1] == Kinds(init);
  }

  /** A record of a type not seen before is the only record of that type. */
  lemma NewTypeCountsOnce(init: seq<Facility>, f: Facility)
    requires f.kind !in GetFacilityTypes(init)
    ensures OfType(init + [f], f.kind) == [f]
  {
    forall k | 0 <= k < |init| ensures init[k].kind != f.kind {
      assert Kinds(init)[k] == init[k].kind;
    }
    OfTypeAbsent(init, f.kind);
    assert (init + [f])[..|init|] == init;
  }

  /** No record of a type that does not occur. */
  lemma {:induction false} OfTypeAbsent(fs: seq<Facility>, kind: string)
    requires forall k :: 0 <= k < |fs| ==> fs[k].kind != kind
    ensures OfType(fs, kind) == []
    decreases |fs|
  {
    if fs != [] {
      OfTypeAbsent(fs[..|fs| - 1], kind);
    }
  }

  /** Adding one record adds one to the sum exactly when its type is listed. */
  lemma {:induction false} CountSumStep(kinds: seq<string>, init: seq<Facility>, f: Facility)
    requires forall i, j :: 0 <= i < j < |kinds| ==> kinds[i] != kinds[j]
    ensures CountSum(kinds, init + [f]) == CountSum(kinds, init) + (if f.kind in kinds then 1 else 0)
  {
    var fs := init + [f];
    assert fs[..|fs| - 1] == init;
    if kinds != [] {
      CountSumStep(kinds[1..], init, f);
      assert f.kind in kinds <==> f.kind == kinds[0] || f.kind in kinds[1..];
    }
  }

  lemma {:induction false} CountSumAppend(kinds: seq<string>, t: string, fs: seq<Facility>)
    ensures CountSum(kinds + [t], fs) == CountSum(kinds, fs) + |OfType(fs, t)|
  {
    if kinds == [] {
      assert [t][1..] == [];
    } else {
      assert (kinds + [t])[1..] == kinds[1..] + [t];
      CountSumAppend(kinds[1..], t, fs);
    }
  }

  /** `searchFacilities`: an empty query is an error; otherwise the records
      matching the lower-cased query, in order. */
  function SearchFacilities(query: string, fs: seq<Facility>): (r: Result<seq<Facility>, string>)
    ensures r.Failure? <==> query == []
    ensures r.Success? ==> forall f :: f in r.value <==> f in fs && Matches(f, Lower(query))
  {
    if query == [] then Failure("搜索查詢不能為空") else Success(Matching(fs, Lower(query)))
  }

  /** A record with the distance from the search centre attached. */
  datatype Nearby<T> = Nearby(facility: T, distance: real)

  /** The records within `radius` of the centre, with their distances, in
      order; `distance` stands for the haversine formula. */
  function Within(fs: seq<Facility>, lat: real, lng: real, radius: real,
                  distance: (real, real, real, real) -> real): (r: seq<Nearby<Facility>>)
    ensures |r| <= |fs|
    ensures forall x :: x in r ==>
      x.facility in fs && x.distance <= radius && x.distance == distance(lat, lng, x.facility.lat, x.facility.lng)
    ensures forall f :: f in fs && distance(lat, lng, f.lat, f.lng) <= radius ==>
      Nearby(f, distance(lat, lng, f.lat, f.lng)) in r
    decreases |fs|
  {
    if fs == [] then []
    else
      var f := fs[|fs| - 1];
      var d := distance(lat, lng, f.lat, f.lng);
      Within(fs[..|fs| - 1], lat, lng, radius, distance) + (if d <= radius then [Nearby(f, d)] else [])
  }

  predicate SortedByDistance<T>(s: seq<Nearby<T>>) {
    forall i, j :: 0 <= i < j < |s| ==> s[i].distance <= s[j].distance
  }

  /** `x` placed into a list sorted by distance, after every entry not
      farther than it (the order a stable sort keeps). */
  function Insert<T(==)>(x: Nearby<T>, s: seq<Nearby<T>>): (r: seq<Nearby<T>>)
    requires SortedByDistance(s)
    ensures SortedByDistance(r)
    ensures multiset(r) == multiset(s) + multiset{x}
    ensures |r| == |s| + 1
    ensures forall k :: 0 <= k < |r| ==> r[k] == x || r[k] in s
  {
    if s == [] then [x]
    else if x.distance < s[0].distance then
      InsertFront(x, s);
      [x] + s
    else
      var rest := Insert(x, s[1..]);
      InsertBehind(x, s, rest);
      [s[0]] + rest
  }

  /** `x` before every entry of a sorted list it is nearer than. */
  lemma InsertFront<T>(x: Nearby<T>, s: seq<Nearby<T>>)
    requires SortedByDistance(s) && s != [] && x.distance < s[0].distance
    ensures SortedByDistance([x] + s)
  {
    assert forall k :: 0 <= k < |s| ==> s[0].distance <= s[k].distance;
  }

  /** The head of a sorted list before `x` inserted into its tail. */
  lemma InsertBehind<T>(x: Nearby<T>, s: seq<Nearby<T>>, rest: seq<Nearby<T>>)
    requires SortedByDistance(s) && s != [] && s[0].distance <= x.distance
    requires SortedByDistance(rest) && multiset(rest) == multiset(s[1..]) + multiset{x}
    requires forall k :: 0 <= k < |rest| ==> rest[k] == x || rest[k] in s[1..]
    ensures SortedByDistance([s[0]] + rest)
    ensures multiset([s[0]] + rest) == multiset(s) + multiset{x}
    ensures forall k :: 0 <= k < |rest| + 1 ==> ([s[0]] + rest)[k] == x || ([s[0]] + rest)[k] in s
  {
    assert s == [s[0]] + s[1..];
    forall k | 0 <= k < |rest| ensures s[0].distance <= rest[k].distance {
      if rest[k] != x {
        var j :| 0 <= j < |s[1..]| && s[1..][j] == rest[k];
        assert s[j + 1] == rest[k];
      }
    }
    assert multiset([s[0]] + rest) == multiset{s[0]} + multiset(rest);
  }

  /** The list sorted by distance, not decreasing. */
  function SortByDistance<T(==)>(s: seq<Nearby<T>>): (r: seq<Nearby<T>>)
    ensures SortedByDistance(r)
    ensures multiset(r) == multiset(s)
    decreases |s|
  {
    if s == [] then []
    else
      assert s == s[..|s| - 1] + [s[|s| - 1]];
      Insert(s[|s| - 1], SortByDistance(s[..|s| - 1]))
  }

  /** The answer of `getNearbyFacilities`. */
  datatype NearbyAnswer = NearbyAnswer(data: seq<Nearby<Facility>>, centerLat: Num, centerLng: Num, radius: real)

  /** `getNearbyFacilities`: a missing latitude or longitude is an error; the
      radius is 5 km when it reads as NaN or 0; a centre that is not a number
      is at no finite distance from anything, so nothing is near it. */
  function GetNearbyFacilities(lat: string, lng: string, radius: string, fs: seq<Facility>,
                               distance: (real, real, real, real) -> real): (r: Result<NearbyAnswer, string>)
    ensures r.Failure? <==> lat == [] || lng == []
    ensures r.Success? && !(ParseFloat(lat).Finite? && ParseFloat(lng).Finite?) ==> r.value.data == []
  {
    if lat == [] || lng == [] then Failure("緯度和經度參數是必需的")
    else
      var userLat := ParseFloat(lat);
      var userLng := ParseFloat(lng);
      var r := ParseFloat(radius);
      var searchRadius := if r.Truthy() then r.value else 5.0;
      var data := if userLat.Finite? && userLng.Finite?
                  then SortByDistance(Within(fs, userLat.value, userLng.value, searchRadius, distance))
                  else [];
      Success(NearbyAnswer(data, userLat, userLng, searchRadius))
  }

  /** The results are sorted nearest first and are exactly the records
      within the radius: each result is a record at its stated distance,
      within the radius, and every record within the radius is a result. */
  lemma NearbyResults(lat: string, lng: string, radius: string, fs: seq<Facility>,
                      distance: (real, real, real, real) -> real)
    requires lat != [] && lng != []
    requires ParseFloat(lat).Finite? && ParseFloat(lng).Finite?
    ensures var a := GetNearbyFacilities(lat, lng, radius, fs, distance).value;
      var la := ParseFloat(lat).value;
      var ln := ParseFloat(lng).value;
      SortedByDistance(a.data) &&
      multiset(a.data) == multiset(Within(fs, la, ln, a.radius, distance)) &&
      (forall x :: x in a.data ==>
         x.facility in fs && x.distance <= a.radius && x.distance == distance(la, ln, x.facility.lat, x.facility.lng)) &&
      (forall f :: f in fs && distance(la, ln, f.lat, f.lng) <= a.radius ==>
         Nearby(f, distance(la, ln, f.lat, f.lng)) in a.data)
  {
    var a := GetNearbyFacilities(lat, lng, radius, fs, distance).value;
    SortedWithin(fs, ParseFloat(lat).value, ParseFloat(lng).value, a.radius, distance);
  }

  /** The records within the radius, sorted: still exactly those records. */
  lemma SortedWithin(fs: seq<Facility>, lat: real, lng: real, radius: real,
                     distance: (real, real, real, real) -> real)
    ensures var s := SortByDistance(Within(fs, lat, lng, radius, distance));
      (forall x :: x in s ==>
         x.facility in fs && x.distance <= radius && x.distance == distance(lat, lng, x.facility.lat, x.facility.lng)) &&
      (forall f :: f in fs && distance(lat, lng, f.lat, f.lng) <= radius ==>
         Nearby(f, distance(lat, lng, f.lat, f.lng)) in s)
  {
    var w := Within(fs, lat, lng, radius, distance);
    SameMembers(SortByDistance(w), w);
  }

  /** Lists with the same multiset have the same members. */
  lemma SameMembers<T>(a: seq<T>, b: seq<T>)
    requires multiset(a) == multiset(b)
    ensures forall x :: x in a <==> x in b
  {
    forall x ensures x in a <==> x in b {
      assert x in a <==> x in multiset(a);
      assert x in b <==> x in multiset(b);
    }
  }

  /** A radius that reads as NaN or 0 is 5 km. */
  lemma DefaultRadius(lat: string, lng: string, radius: string, fs: seq<Facility>,
                      distance: (real, real, real, real) -> real)
    requires lat != [] && lng != [] && !ParseFloat(radius).Truthy()
    ensures GetNearbyFacilities(lat, lng, radius, fs, distance).value.radius == 5.0
  {
  }
}
