/** Category normalisation: ordered keyword rules map a free-text category to
    one of three canonical facility types, an empty category to "未分類", and
    any other text to itself. The Apps Script service lower-cases before the
    keyword tests; the browser parser does not, and accepts a missing value. */
module Category {
  import opened Wrappers
  import opened JsText

  const Toilet := "流動廁所"
  const Shower := "沐浴站"
  const Water := "取水站"
  const Unclassified := "未分類"

  /** The types a category is normalised to when it is not kept as written. */
  const CanonicalTypes: seq<string> := [Unclassified, Toilet, Shower, Water]

  /** The canonical type the keyword rules give, in their order of testing. */
  function KeywordClass(t: string): Option<string> {
    if Contains(t, "流動廁所") || Contains(t, "廁所") then Some(Toilet)
    else if Contains(t, "沐浴站") || Contains(t, "沐浴") then Some(Shower)
    else if Contains(t, "取水站") || Contains(t, "加水站") || Contains(t, "自來水") then Some(Water)
    else None
  }

  /** `normalizeCategory` of the Apps Script service. */
  function NormalizeCategory(category: string): (r: string)
    ensures r != []
    ensures r == category || r in CanonicalTypes
  {
    if category == [] then Unclassified
    else
      match KeywordClass(Lower(category))
      case Some(k) => k
      case None => category
  }

  /** `normalizeCategory` of the browser parser: a missing category is read
      like an empty one, and the keywords are tested on the text as it is. */
  function NormalizeCategoryParser(category: Option<string>): (r: string)
    ensures r != []
    ensures category == Some(r) || r in CanonicalTypes
  {
    match category
    case None => Unclassified
    case Some(c) =>
      if c == [] then Unclassified
      else
        match KeywordClass(c)
        case Some(k) => k
        case None => c
  }

  /** None of the keywords contains an ASCII letter, so lower-casing does not
      change whether a text contains them. */
  lemma KeywordClassIgnoresCase(t: string)
    ensures KeywordClass(Lower(t)) == KeywordClass(t)
  {
    LowerKeepsKeyword(t, "流動廁所");
    LowerKeepsKeyword(t, "廁所");
    LowerKeepsKeyword(t, "沐浴站");
    LowerKeepsKeyword(t, "沐浴");
    LowerKeepsKeyword(t, "取水站");
    LowerKeepsKeyword(t, "加水站");
    LowerKeepsKeyword(t, "自來水");
  }

  /** A text containing a longer keyword contains the shorter one inside it. */
  lemma ContainsWithin(t: string, outer: string, inner: string, at: nat)
    requires at + |inner| <= |outer| && outer[at..at + |inner|] == inner
    requires Contains(t, outer)
    ensures Contains(t, inner)
  {
    var i :| 0 <= i <= |t| - |outer| && OccursAt(t, outer, i);
    forall k | 0 <= k < |inner| ensures t[i + at + k] == inner[k] {
      assert t[i..i + |outer|][at + k] == outer[at + k];
      assert outer[at..at + |inner|][k] == inner[k];
    }
    assert OccursAt(t, inner, i + at);
  }

  /** The rules of `normalizeCategory`, in their order: empty text is
      unclassified; any text with 廁所 is a toilet; otherwise any with 沐浴 a
      shower; otherwise any with 取水站, 加水站 or 自來水 a water station; any
      other text is kept as it is. */
  lemma NormalizeCategoryRules(c: string)
    ensures c == [] ==> NormalizeCategory(c) == Unclassified
    ensures c != [] && Contains(c, "廁所") ==> NormalizeCategory(c) == Toilet
    ensures c != [] && !Contains(c, "廁所") && Contains(c, "沐浴") ==> NormalizeCategory(c) == Shower
    ensures c != [] && !Contains(c, "廁所") && !Contains(c, "沐浴") &&
            (Contains(c, "取水站") || Contains(c, "加水站") || Contains(c, "自來水")) ==>
            NormalizeCategory(c) == Water
    ensures c != [] && !Contains(c, "廁所") && !Contains(c, "沐浴") &&
            !Contains(c, "取水站") && !Contains(c, "加水站") && !Contains(c, "自來水") ==>
            NormalizeCategory(c) == c
  {
    KeywordClassIgnoresCase(c);
    if Contains(c, "流動廁所") {
      ContainsWithin(c, "流動廁所", "廁所", 2);
    }
    if Contains(c, "沐浴站") {
      ContainsWithin(c, "沐浴站", "沐浴", 0);
    }
  }

  /** The canonical and default names are fixed points of the rules. */
  lemma CanonicalNamesAreFixed()
    ensures KeywordClass(Toilet) == Some(Toilet)
    ensures KeywordClass(Shower) == Some(Shower)
    ensures KeywordClass(Water) == Some(Water)
    ensures KeywordClass(Unclassified) == None
  {
    ContainsSelf(Toilet);
    MissingChar(Shower, "流動廁所", 0);
    MissingChar(Shower, "廁所", 0);
    ContainsSelf(Shower);
    MissingChar(Water, "流動廁所", 0);
    MissingChar(Water, "廁所", 0);
    MissingChar(Water, "沐浴站", 0);
    MissingChar(Water, "沐浴", 0);
    ContainsSelf(Water);
    MissingChar(Unclassified, "流動廁所", 0);
    MissingChar(Unclassified, "廁所", 0);
    MissingChar(Unclassified, "沐浴站", 0);
    MissingChar(Unclassified, "沐浴", 0);
    MissingChar(Unclassified, "取水站", 0);
    MissingChar(Unclassified, "加水站", 0);
    MissingChar(Unclassified, "自來水", 0);
  }

  /** Normalising a normalised category changes nothing. */
  lemma NormalizeCategoryIdempotent(c: string)
    ensures NormalizeCategory(NormalizeCategory(c)) == NormalizeCategory(c)
  {
    CanonicalNamesAreFixed();
    KeywordClassIgnoresCase(c);
    var r := NormalizeCategory(c);
    KeywordClassIgnoresCase(r);
  }

  /** The browser parser's rules give the same type as the service's for every
      present category. */
  lemma ParserAgreesWithService(c: string)
    ensures NormalizeCategoryParser(Some(c)) == NormalizeCategory(c)
  {
    KeywordClassIgnoresCase(c);
  }

  /** The browser parser's normalisation is idempotent too. */
  lemma NormalizeCategoryParserIdempotent(c: Option<string>)
    ensures NormalizeCategoryParser(Some(NormalizeCategoryParser(c))) == NormalizeCategoryParser(c)
  {
    CanonicalNamesAreFixed();
  }
}
