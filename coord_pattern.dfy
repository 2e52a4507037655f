/** The coordinate patterns the pipeline matches against link, address and
    description text:
      generic  `(-?\d+\.?\d*),\s*(-?\d+\.?\d*)`
      at-sign  `@(-?\d+\.?\d*),(-?\d+\.?\d*)`
      ll=      `[?&]ll=(-?\d+\.?\d*),(-?\d+\.?\d*)`
    `String.prototype.match` without the `g` flag returns the leftmost match.
    Every quantifier is greedy, and a number group can only be followed by ','
    where it ends at its longest extent, so backtracking never finds a match the
    greedy reading misses: each pattern is modelled by greedy scanning at each
    start position in turn. */
module CoordPattern {
  import opened Wrappers
  import opened JsText
  import opened JsNumber

  /** A latitude/longitude pair in the order the pipeline stores it. */
  datatype Coords = Coords(lat: real, lng: real)

  /** The two captured groups of a match. */
  datatype Captures = Captures(first: string, second: string)

  /** The end of the number group `-?\d+\.?\d*` matched at `p`, or None. */
  function TokenEnd(s: string, p: nat): (r: Option<nat>)
    requires p <= |s|
    ensures r.Some? ==> p < r.value <= |s|
    ensures r.Some? ==> s[p] == '-' || IsDigit(s[p])
  {
    var q := if p < |s| && s[p] == '-' then p + 1 else p;
    var d := DigitRun(s, q);
    if d == 0 then None
    else
      var e := q + d;
      if e < |s| && s[e] == '.' then Some(e + 1 + DigitRun(s, e + 1)) else Some(e)
  }

  /** Length of the run of `\s` characters starting at `i`. */
  function WhitespaceRun(s: string, i: nat): (n: nat)
    requires i <= |s|
    ensures i + n <= |s|
    ensures forall k :: i <= k < i + n ==> IsWhitespace(s[k])
    ensures i + n == |s| || !IsWhitespace(s[i + n])
    decreases |s| - i
  {
    if i < |s| && IsWhitespace(s[i]) then 1 + WhitespaceRun(s, i + 1) else 0
  }

  /** The generic pattern attempted at start position `p`. */
  function PairAt(s: string, p: nat): Option<Captures>
    requires p <= |s|
  {
    match TokenEnd(s, p)
    case None => None
    case Some(e1) => PairAfter(s, p, e1)
  }

  /** The rest of the generic pattern, once its first group spans `p..e1`. */
  function PairAfter(s: string, p: nat, e1: nat): Option<Captures>
    requires p <= e1 <= |s|
  {
    if e1 < |s| && s[e1] == ',' then
      var q := e1 + 1 + WhitespaceRun(s, e1 + 1);
      match TokenEnd(s, q)
      case None => None
      case Some(e2) => Some(Captures(s[p..e1], s[q..e2]))
    else None
  }

  /** The least position in `p..n` where `matches` holds: the order in which
      a regular expression tries its start positions. */
  function FirstFrom(n: nat, p: nat, matches: nat -> bool): (r: Option<nat>)
    requires p <= n
    ensures r.None? ==> forall q :: p <= q <= n ==> !matches(q)
    ensures r.Some? ==> p <= r.value <= n && matches(r.value)
    ensures r.Some? ==> forall q :: p <= q < r.value ==> !matches(q)
    decreases n - p
  {
    if matches(p) then Some(p)
    else if p == n then None
    else FirstFrom(n, p + 1, matches)
  }

  /** The leftmost start position where the generic pattern matches. */
  function FirstPair(s: string): Option<nat> {
    FirstFrom(|s|, 0, (q: nat) => q <= |s| && PairAt(s, q).Some?)
  }

  /** The start position of the generic pattern is the least one where it
      matches. */
  lemma FirstPairLeftmost(s: string)
    ensures FirstPair(s).None? ==> forall q :: 0 <= q <= |s| ==> PairAt(s, q).None?
    ensures FirstPair(s).Some? ==>
      FirstPair(s).value <= |s| && PairAt(s, FirstPair(s).value).Some? &&
      forall q :: 0 <= q < FirstPair(s).value ==> PairAt(s, q).None?
  {
    var matches := (q: nat) => q <= |s| && PairAt(s, q).Some?;
    var first := FirstFrom(|s|, 0, matches);
    if first.None? {
      forall q | 0 <= q <= |s| ensures PairAt(s, q).None? {
        assert !matches(q);
      }
    } else {
      assert matches(first.value);
      forall q | 0 <= q < first.value ensures PairAt(s, q).None? {
        assert !matches(q);
      }
    }
  }

  /** `s.match(generic)`. */
  function MatchPair(s: string): (r: Option<Captures>)
    ensures r.None? <==> forall q :: 0 <= q <= |s| ==> PairAt(s, q).None?
    ensures r.Some? ==> exists p :: 0 <= p <= |s| && PairAt(s, p) == r &&
                                    forall q :: 0 <= q < p ==> PairAt(s, q).None?
  {
    FirstPairLeftmost(s);
    match FirstPair(s)
    case None => None
    case Some(p) => PairAt(s, p)
  }

  /** The at-sign pattern attempted at `p`. */
  function AtPairAt(s: string, p: nat): Option<Captures>
    requires p <= |s|
  {
    if p + 1 <= |s| && s[p] == '@' then
      match TokenEnd(s, p + 1)
      case None => None
      case Some(e1) => CommaPairAfter(s, p + 1, e1)
    else None
  }

  /** The `ll=` pattern attempted at `p`. */
  function LlPairAt(s: string, p: nat): Option<Captures>
    requires p <= |s|
  {
    if p + 4 <= |s| && (s[p] == '?' || s[p] == '&') && s[p + 1..p + 4] == "ll=" then
      match TokenEnd(s, p + 4)
      case None => None
      case Some(e1) => CommaPairAfter(s, p + 4, e1)
    else None
  }

  /** The end shared by the at-sign and ll= patterns, once the first group
      spans `p..e1`: a comma, with no whitespace, then the second group. */
  function CommaPairAfter(s: string, p: nat, e1: nat): Option<Captures>
    requires p <= e1 <= |s|
  {
    if e1 < |s| && s[e1] == ',' then
      match TokenEnd(s, e1 + 1)
      case None => None
      case Some(e2) => Some(Captures(s[p..e1], s[e1 + 1..e2]))
    else None
  }

  /** `s.match(at-sign pattern)`. */
  function MatchAtPair(s: string): Option<Captures> {
    match FirstFrom(|s|, 0, (q: nat) => q <= |s| && AtPairAt(s, q).Some?)
    case None => None
    case Some(p) => AtPairAt(s, p)
  }

  /** `s.match(ll= pattern)`. */
  function MatchLlPair(s: string): Option<Captures> {
    match FirstFrom(|s|, 0, (q: nat) => q <= |s| && LlPairAt(s, q).Some?)
    case None => None
    case Some(p) => LlPairAt(s, p)
  }

  /** Where the at-sign pattern matches at `p`, the generic pattern matches at
      `p + 1`: the comma is followed by a digit or '-', never by whitespace. */
  lemma AtPairGivesPair(s: string, p: nat)
    requires p <= |s| && AtPairAt(s, p).Some?
    ensures p + 1 <= |s| && PairAt(s, p + 1).Some?
  {
    CommaPairIsPair(s, p + 1, TokenEnd(s, p + 1).value);
  }

  /** Where the ll= pattern matches at `p`, the generic pattern matches at `p + 4`. */
  lemma LlPairGivesPair(s: string, p: nat)
    requires p <= |s| && LlPairAt(s, p).Some?
    ensures p + 4 <= |s| && PairAt(s, p + 4).Some?
  {
    CommaPairIsPair(s, p + 4, TokenEnd(s, p + 4).value);
  }

  /** A first group followed by a comma and a second group, with nothing
      between them, is a generic match. */
  lemma CommaPairIsPair(s: string, p: nat, e1: nat)
    requires p <= |s| && TokenEnd(s, p) == Some(e1)
    requires CommaPairAfter(s, p, e1).Some?
    ensures PairAt(s, p).Some?
  {
    TokenStartsWithoutWhitespace(s, e1 + 1);
    CommaThenToken(s, p, e1);
  }

  /** No whitespace stands where a number group matches. */
  lemma TokenStartsWithoutWhitespace(s: string, i: nat)
    requires i <= |s| && TokenEnd(s, i).Some?
    ensures WhitespaceRun(s, i) == 0
  {
  }

  /** The generic pattern completes after a comma that a number group
      follows at once. */
  lemma CommaThenToken(s: string, p: nat, e1: nat)
    requires p <= e1 < |s| && s[e1] == ','
    requires WhitespaceRun(s, e1 + 1) == 0 && TokenEnd(s, e1 + 1).Some?
    ensures PairAfter(s, p, e1).Some?
  {
  }

  /** A position where the generic pattern matches bounds the leftmost match. */
  lemma NoPairBelowFirst(s: string, p: nat)
    requires p <= |s| && PairAt(s, p).Some?
    ensures MatchPair(s).Some?
  {
    var m := (q: nat) => q <= |s| && PairAt(s, q).Some?;
    assert m(p);
  }

  /** Any text the at-sign pattern matches is matched by the generic pattern
      too, so that pattern is only reached when it cannot match. */
  lemma AtPatternNeedsGeneric(s: string)
    ensures MatchAtPair(s).Some? ==> MatchPair(s).Some?
  {
    var first := FirstFrom(|s|, 0, (q: nat) => q <= |s| && AtPairAt(s, q).Some?);
    if first.Some? {
      AtPairGivesPair(s, first.value);
      NoPairBelowFirst(s, first.value + 1);
    }
  }

  /** Any text the ll= pattern matches is matched by the generic pattern too. */
  lemma LlPatternNeedsGeneric(s: string)
    ensures MatchLlPair(s).Some? ==> MatchPair(s).Some?
  {
    var first := FirstFrom(|s|, 0, (q: nat) => q <= |s| && LlPairAt(s, q).Some?);
    if first.Some? {
      LlPairGivesPair(s, first.value);
      NoPairBelowFirst(s, first.value + 4);
    }
  }

  /** The shape of a captured number group: a digit, or '-' and a digit, first. */
  predicate NumberToken(t: string) {
    t != [] && (IsDigit(t[0]) || (t[0] == '-' && |t| >= 2 && IsDigit(t[1])))
  }

  /** The text a number group matches at `p` has the shape of a number token. */
  lemma TokenIsNumber(s: string, p: nat)
    requires p <= |s| && TokenEnd(s, p).Some?
    ensures NumberToken(s[p..TokenEnd(s, p).value])
  {
    var t := s[p..TokenEnd(s, p).value];
    assert t[0] == s[p];
    if s[p] == '-' {
      assert IsDigit(s[p + 1]) && t[1] == s[p + 1];
    }
  }

  /** Both groups of a generic match have the shape of a number token. */
  lemma PairAtTokens(s: string, p: nat)
    requires p <= |s| && PairAt(s, p).Some?
    ensures NumberToken(PairAt(s, p).value.first)
    ensures NumberToken(PairAt(s, p).value.second)
  {
    var e1 := TokenEnd(s, p).value;
    PairAtSplits(s, p, e1);
    var q := e1 + 1 + WhitespaceRun(s, e1 + 1);
    var e2 := PairAfterGroups(s, p, e1, q);
    TokenIsNumber(s, p);
    TokenIsNumber(s, q);
  }

  /** The generic pattern at `p`, once its first group spans `p..e1`. */
  lemma PairAtSplits(s: string, p: nat, e1: nat)
    requires p <= |s| && TokenEnd(s, p) == Some(e1)
    ensures PairAt(s, p) == PairAfter(s, p, e1)
  {
  }

  /** The two groups a completed generic match captures. */
  lemma PairAfterGroups(s: string, p: nat, e1: nat, q: nat) returns (e2: nat)
    requires p <= e1 <= |s| && PairAfter(s, p, e1).Some?
    requires q == e1 + 1 + WhitespaceRun(s, e1 + 1)
    ensures q <= |s| && TokenEnd(s, q) == Some(e2)
    ensures PairAfter(s, p, e1).value.first == s[p..e1]
    ensures PairAfter(s, p, e1).value.second == s[q..e2]
  {
    assert e1 < |s| && s[e1] == ',';
    e2 := TokenEnd(s, q).value;
  }

  /** A number token has a numeric prefix, so `parseFloat` reads a number. */
  lemma NumberTokenParses(t: string)
    requires NumberToken(t)
    ensures DecimalPrefix(t).Some?
  {
    assert TrimStart(t) == t;
    var body := SignedBody(t).1;
    assert IsDigit(body[0]);
    assert DigitRun(body, 0) > 0;
  }

  /** The coordinates a generic match denotes: first group latitude, second
      group longitude, each through `parseFloat`, kept only when neither is NaN. */
  function MatchCoords(m: Option<Captures>): Option<Coords> {
    match m
    case None => None
    case Some(c) =>
      var lat := ParseFloat(c.first);
      var lng := ParseFloat(c.second);
      if lat.Finite? && lng.Finite? then Some(Coords(lat.value, lng.value)) else None
  }

  /** A match whose groups both parse gives coordinates. */
  lemma ParsedGroupsGiveCoords(m: Option<Captures>)
    requires m.Some? && DecimalPrefix(m.value.first).Some? && DecimalPrefix(m.value.second).Some?
    ensures MatchCoords(m).Some?
  {
  }

  /** A matched pair always yields coordinates: the NaN guard after a match
      never rejects it. */
  lemma PairAlwaysParses(s: string)
    ensures MatchCoords(MatchPair(s)).Some? <==> MatchPair(s).Some?
  {
    var m := MatchPair(s);
    if m.Some? {
      PairAtTokens(s, FirstPair(s).value);
      NumberTokenParses(m.value.first);
      NumberTokenParses(m.value.second);
      ParsedGroupsGiveCoords(m);
    }
  }

  /** The coordinates written as "lat, lng" anywhere in the text. */
  function FindCoords(s: string): Option<Coords> {
    MatchCoords(MatchPair(s))
  }
}
