/** `decodeURIComponent`: every `%XY` escape is a byte, a byte below 0x80 is
    a character of its own, and a longer UTF-8 sequence of escapes is one code
    point (the percent-encoding of section 2.1 of RFC 3986 over the UTF-8
    encoding of RFC 3629). A malformed escape or an invalid UTF-8 sequence is a
    `URIError`, here `None`. */
module UriDecode {
  import opened Wrappers
  import opened JsNumber

  /** The byte written by the escape `%XY` at the start of `s`. */
  function EscapedByte(s: string): (r: Option<nat>)
    ensures r.Some? ==> |s| >= 3 && s[0] == '%' && r.value < 256
  {
    if |s| >= 3 && s[0] == '%' && IsHexDigit(s[1]) && IsHexDigit(s[2])
    then Some(HexDigitValue(s[1]) * 16 + HexDigitValue(s[2]))
    else None
  }

  /** The number of bytes of the UTF-8 sequence a leading byte announces: its
      count of leading one bits (1 and 5 or more are never a leading byte). */
  function LeadingOnes(b: nat): (n: nat)
    requires b < 256
    ensures b < 0x80 <==> n == 0
  {
    if b < 0x80 then 0
    else if b < 0xC0 then 1
    else if b < 0xE0 then 2
    else if b < 0xF0 then 3
    else if b < 0xF8 then 4
    else 5
  }

  /** `count` continuation bytes `10xxxxxx`, each written as an escape, at the
      start of `s`. */
  function Continuations(s: string, count: nat): (r: Option<seq<nat>>)
    ensures r.Some? ==> |r.value| == count && 3 * count <= |s|
    ensures r.Some? ==> forall i :: 0 <= i < count ==> 0x80 <= r.value[i] < 0xC0
    decreases count
  {
    if count == 0 then Some([])
    else
      match EscapedByte(s)
      case None => None
      case Some(b) =>
        if b < 0x80 || 0xC0 <= b then None
        else
          match Continuations(s[3..], count - 1)
          case None => None
          case Some(rest) => Some([b] + rest)
  }

  /** The code point the payload bits of a leading byte and its continuation
      bytes spell, most significant bits first. */
  function Accumulate(v: nat, cs: seq<nat>): nat
    requires forall i :: 0 <= i < |cs| ==> 0x80 <= cs[i] < 0xC0
    decreases |cs|
  {
    if cs == [] then v else Accumulate(v * 64 + (cs[0] - 0x80), cs[1..])
  }

  /** A code point is the shortest encoding of a Unicode scalar value for its
      sequence length `n`: no overlong form, no surrogate, nothing past 10FFFF. */
  predicate ValidCodePoint(n: nat, cp: nat) {
    (n == 2 && 0x80 <= cp <= 0x7FF) ||
    (n == 3 && 0x800 <= cp <= 0xFFFF && !(0xD800 <= cp <= 0xDFFF)) ||
    (n == 4 && 0x10000 <= cp <= 0x10FFFF)
  }

  function Prepend(c: char, r: Option<string>): (p: Option<string>)
    ensures p.Some? <==> r.Some?
    ensures p.Some? ==> |p.value| == |r.value| + 1
  {
    match r
    case None => None
    case Some(t) => Some([c] + t)
  }

  /** `decodeURIComponent(s)`. */
  function Decode(s: string): (r: Option<string>)
    ensures r.Some? ==> |r.value| <= |s|
    decreases |s|
  {
    if s == [] then Some([])
    else if s[0] != '%' then Prepend(s[0], Decode(s[1..]))
    else
      match EscapedByte(s)
      case None => None
      case Some(b) =>
        if b < 0x80 then Prepend(b as char, Decode(s[3..]))
        else
          var n := LeadingOnes(b);
          if n == 1 || n > 4 then None
          else
            match Continuations(s[3..], n - 1)
            case None => None
            case Some(cs) =>
              var cp := Accumulate(b % Pow2(7 - n), cs);
              if ValidCodePoint(n, cp) then Prepend(cp as char, Decode(s[3 * n..])) else None
  }

  function Pow2(k: nat): (r: nat)
    ensures r >= 1
  {
    if k == 0 then 1 else 2 * Pow2(k - 1)
  }

  /** Text without '%' decodes to itself. */
  lemma {:induction false} DecodeWithoutPercent(s: string)
    requires '%' !in s
    ensures Decode(s) == Some(s)
  {
    if s != [] {
      assert '%' !in s[1..] by {
        assert forall i :: 0 <= i < |s[1..]| ==> s[1..][i] == s[i + 1];
      }
      DecodeWithoutPercent(s[1..]);
      assert [s[0]] + s[1..] == s;
    }
  }

  /** An escape that is cut short is an error. */
  lemma TruncatedEscapeFails(s: string)
    requires s != [] && s[0] == '%' && |s| < 3
    ensures Decode(s).None?
  {
  }

  /** The hexadecimal digit of a value below 16, upper-case as
      `encodeURIComponent` writes it. */
  function HexChar(d: nat): (c: char)
    requires d < 16
    ensures IsHexDigit(c) && HexDigitValue(c) == d
  {
    if d < 10 then DigitChar(d) else ('A' as int + d - 10) as char
  }

  predicate IsAscii(s: string) {
    forall i :: 0 <= i < |s| ==> s[i] as int < 0x80
  }

  /** Every character of ASCII text written as an escape. */
  function EscapeAll(s: string): (e: string)
    requires IsAscii(s)
    ensures |e| == 3 * |s|
  {
    if s == [] then []
    else ['%', HexChar(s[0] as int / 16), HexChar(s[0] as int % 16)] + EscapeAll(s[1..])
  }

  /** Decoding undoes escaping. */
  lemma {:induction false} DecodeEscapeAll(s: string)
    requires IsAscii(s)
    ensures Decode(EscapeAll(s)) == Some(s)
  {
    if s != [] {
      var e := EscapeAll(s);
      var c := s[0] as int;
      assert e[0] == '%' && e[1] == HexChar(c / 16) && e[2] == HexChar(c % 16);
      assert EscapedByte(e) == Some(c);
      assert e[3..] == EscapeAll(s[1..]);
      DecodeEscapeAll(s[1..]);
      assert [c as char] + s[1..] == s;
    }
  }

  /** The escaped comma of a shared coordinate link. */
  lemma EscapedComma()
    ensures Decode("%2C") == Some(",")
  {
    var s := "%2C";
    assert EscapedByte(s) == Some(44);
    assert s[3..] == [];
    assert Decode(s[3..]) == Some([]);
    assert 44 as char == ',';
    assert Decode(s) == Prepend(',', Some([]));
    assert [','] + [] == ",";
  }
}
