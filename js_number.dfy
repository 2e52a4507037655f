/** JavaScript numbers as the pipeline reads them from text: `parseFloat`,
    `parseInt`, the first `\d+` run of a note, and the decimal rendering of an
    index. A double is modelled by an exact real; NaN is a value of its own. */
module JsNumber {
  import opened Wrappers
  import opened JsText

  /** A JavaScript number as far as the pipeline can produce one. */
  datatype Num = NaN | Finite(value: real) {
    /** JavaScript truthiness of a number: neither NaN nor zero. */
    predicate Truthy() { Finite? && value != 0.0 }
  }

  predicate IsDigit(c: char) { '0' <= c <= '9' }

  predicate AllDigits(s: string) {
    forall i :: 0 <= i < |s| ==> IsDigit(s[i])
  }

  function DigitValue(c: char): nat
    requires IsDigit(c)
  {
    c as int - '0' as int
  }

  /** The value of a run of decimal digits (empty run: 0). */
  function DigitsValue(ds: string): nat
    requires AllDigits(ds)
  {
    if ds == [] then 0 else DigitsValue(ds[..|ds| - 1]) * 10 + DigitValue(ds[|ds| - 1])
  }

  function Pow10(n: nat): (r: nat)
    ensures r >= 1
  {
    if n == 0 then 1 else 10 * Pow10(n - 1)
  }

  /** Length of the maximal run of decimal digits starting at index `i`. */
  function DigitRun(s: string, i: nat): (n: nat)
    requires i <= |s|
    ensures i + n <= |s|
    ensures forall k :: i <= k < i + n ==> IsDigit(s[k])
    ensures i + n == |s| || !IsDigit(s[i + n])
    decreases |s| - i
  {
    if i < |s| && IsDigit(s[i]) then 1 + DigitRun(s, i + 1) else 0
  }

  /** The value of fraction digits `ds` read after a decimal point. */
  function FractionValue(ds: string): real
    requires AllDigits(ds)
  {
    DigitsValue(ds) as real / Pow10(|ds|) as real
  }

  /** 10 to an integer power. */
  function Scale(e: int): real {
    if e >= 0 then Pow10(e) as real else 1.0 / Pow10(-e) as real
  }

  /** The exponent part `e[+-]?digits` at the start of `s`, 0 when absent. */
  function ExponentOf(s: string): int {
    if s == [] || (s[0] != 'e' && s[0] != 'E') then 0
    else
      var signed := |s| > 1 && (s[1] == '+' || s[1] == '-');
      var start := if signed then 2 else 1;
      var n := DigitRun(s, start);
      if n == 0 then 0
      else if signed && s[1] == '-' then -(DigitsValue(s[start..start + n]) as int)
      else DigitsValue(s[start..start + n])
  }

  /** The sign, integer digits, fraction digits and exponent of the longest
      numeric prefix `parseFloat` accepts, after leading whitespace. */
  datatype Decimal = Decimal(negative: bool, whole: string, fraction: string, exponent: int)

  /** Leading whitespace and an optional sign removed: whether the sign was a
      minus, and the text after it. */
  function SignedBody(s: string): (bool, string) {
    var t := TrimStart(s);
    if t != [] && (t[0] == '+' || t[0] == '-') then (t[0] == '-', t[1..]) else (false, t)
  }

  /** The digits after a leading decimal point of `rest` (none when `rest` does
      not start with one), and the text after them. */
  function FractionPart(rest: string): (r: (string, string))
    ensures AllDigits(r.0)
  {
    if rest != [] && rest[0] == '.' then
      var n := DigitRun(rest, 1);
      (rest[1..1 + n], rest[1 + n..])
    else ([], rest)
  }

  function DecimalPrefix(s: string): (r: Option<Decimal>)
    ensures r.Some? ==> AllDigits(r.value.whole) && AllDigits(r.value.fraction)
  {
    var (negative, body) := SignedBody(s);
    var n := DigitRun(body, 0);
    var (fraction, after) := FractionPart(body[n..]);
    if n == 0 && fraction == [] then None
    else Some(Decimal(negative, body[..n], fraction, ExponentOf(after)))
  }

  function DecimalValue(d: Decimal): real
    requires AllDigits(d.whole) && AllDigits(d.fraction)
  {
    var m := (DigitsValue(d.whole) as real + FractionValue(d.fraction)) * Scale(d.exponent);
    if d.negative then -m else m
  }

  /** `parseFloat(s)`: the value of the longest numeric prefix after leading
      whitespace, NaN when there is none. */
  function ParseFloat(s: string): (r: Num)
    ensures r.Finite? <==> DecimalPrefix(s).Some?
  {
    match DecimalPrefix(s)
    case None => NaN
    case Some(d) => Finite(DecimalValue(d))
  }

  predicate IsHexDigit(c: char) {
    IsDigit(c) || 'a' <= c <= 'f' || 'A' <= c <= 'F'
  }

  function HexDigitValue(c: char): (v: nat)
    requires IsHexDigit(c)
    ensures v < 16
  {
    if IsDigit(c) then DigitValue(c)
    else if 'a' <= c <= 'f' then c as int - 'a' as int + 10
    else c as int - 'A' as int + 10
  }

  function HexRun(s: string, i: nat): (n: nat)
    requires i <= |s|
    ensures i + n <= |s|
    ensures forall k :: i <= k < i + n ==> IsHexDigit(s[k])
    decreases |s| - i
  {
    if i < |s| && IsHexDigit(s[i]) then 1 + HexRun(s, i + 1) else 0
  }

  function HexValue(ds: string): nat
    requires forall k :: 0 <= k < |ds| ==> IsHexDigit(ds[k])
  {
    if ds == [] then 0 else HexValue(ds[..|ds| - 1]) * 16 + HexDigitValue(ds[|ds| - 1])
  }

  /** `parseInt(s)` without a radix: leading whitespace, an optional sign, then
      hexadecimal digits after a `0x`/`0X` prefix or decimal digits; None is NaN. */
  function ParseInt(s: string): (r: Option<int>)
  {
    var (negative, body) := SignedBody(s);
    var magnitude := if |body| >= 2 && body[0] == '0' && (body[1] == 'x' || body[1] == 'X')
                     then HexPrefixValue(body[2..]) else DecimalPrefixValue(body);
    match magnitude
    case None => None
    case Some(v) => Some(if negative then -(v as int) else v as int)
  }

  /** The value of the leading hexadecimal digits, None when there is none. */
  function HexPrefixValue(s: string): Option<nat> {
    var n := HexRun(s, 0);
    if n == 0 then None else Some(HexValue(s[..n]))
  }

  /** The value of the leading decimal digits, None when there is none. */
  function DecimalPrefixValue(s: string): Option<nat> {
    var n := DigitRun(s, 0);
    if n == 0 then None else Some(DigitsValue(s[..n]))
  }

  /** The quantity a note encodes: `parseInt` of the first match of `/\d+/g`,
      0 when the note holds no digit. */
  function NoteQuantity(note: string): (q: nat)
    ensures (forall i :: 0 <= i < |note| ==> !IsDigit(note[i])) ==> q == 0
  {
    if note == [] then 0
    else if IsDigit(note[0]) then DigitsValue(note[..DigitRun(note, 0)])
    else NoteQuantity(note[1..])
  }

  /** The first digit run of a note is the one after its digit-free prefix. */
  lemma {:induction false} NoteQuantityIsFirstRun(pre: string, ds: string, post: string)
    requires forall i :: 0 <= i < |pre| ==> !IsDigit(pre[i])
    requires ds != [] && AllDigits(ds)
    requires post == [] || !IsDigit(post[0])
    ensures NoteQuantity(pre + ds + post) == DigitsValue(ds)
  {
    var s := pre + ds + post;
    if pre == [] {
      assert s == ds + post;
      DigitRunOver(ds, post);
      assert s[..|ds|] == ds;
    } else {
      assert s[1..] == pre[1..] + ds + post;
      NoteQuantityIsFirstRun(pre[1..], ds, post);
    }
  }

  /** The digit run at the start of `ds + post` is exactly `ds`. */
  lemma {:induction false} DigitRunOver(ds: string, post: string)
    requires AllDigits(ds)
    requires post == [] || !IsDigit(post[0])
    ensures DigitRun(ds + post, 0) == |ds|
  {
    DigitRunFrom(ds + post, 0, |ds|);
  }

  lemma {:induction false} DigitRunFrom(s: string, i: nat, j: nat)
    requires i <= j <= |s|
    requires forall k :: i <= k < j ==> IsDigit(s[k])
    requires j == |s| || !IsDigit(s[j])
    ensures DigitRun(s, i) == j - i
    decreases j - i
  {
    if i < j {
      DigitRunFrom(s, i + 1, j);
    }
  }

  /** A note such as "4座" contributes 4; one without digits contributes 0. */
  lemma NoteQuantityExamples()
    ensures NoteQuantity("4座") == 4
    ensures NoteQuantity("共12座") == 12
    ensures NoteQuantity("無") == 0
  {
    NoteQuantityIsFirstRun("", "4", "座");
    assert "" + "4" + "座" == "4座";
    NoteQuantityIsFirstRun("共", "12", "座");
    assert "共" + "12" + "座" == "共12座";
  }

  function DigitChar(d: nat): (c: char)
    requires d < 10
    ensures IsDigit(c) && DigitValue(c) == d
  {
    ('0' as int + d) as char
  }

  /** The decimal rendering of a natural number, as string concatenation
      renders an array index. */
  function NatToDecimal(n: nat): (s: string)
    ensures s != [] && AllDigits(s)
    ensures DigitsValue(s) == n
    decreases n
  {
    if n < 10 then [DigitChar(n)]
    else
      var s := NatToDecimal(n / 10) + [DigitChar(n % 10)];
      assert s[..|s| - 1] == NatToDecimal(n / 10);
      s
  }

  /** `parseInt` reads a run of decimal digits as its value. */
  lemma ParseIntOfDigits(ds: string)
    requires ds != [] && AllDigits(ds)
    ensures ParseInt(ds) == Some(DigitsValue(ds) as int)
  {
    DigitsUnsigned(ds);
    DigitsArePrefix(ds);
  }

  /** A digit run has no leading whitespace and no sign. */
  lemma DigitsUnsigned(ds: string)
    requires ds != [] && AllDigits(ds)
    ensures SignedBody(ds) == (false, ds)
    ensures !(|ds| >= 2 && ds[0] == '0' && (ds[1] == 'x' || ds[1] == 'X'))
  {
    DigitIsNotBlank(ds[0]);
    assert TrimStart(ds) == ds;
  }

  /** A digit is neither whitespace nor a sign. */
  lemma DigitIsNotBlank(c: char)
    requires IsDigit(c)
    ensures !IsWhitespace(c) && c != '+' && c != '-'
  {
  }

  /** The leading decimal digits of a digit run are all of it. */
  lemma DigitsArePrefix(ds: string)
    requires ds != [] && AllDigits(ds)
    ensures DecimalPrefixValue(ds) == Some(DigitsValue(ds))
  {
    DigitRunFrom(ds, 0, |ds|);
    assert ds[..|ds|] == ds;
  }

  /** Distinct indices render as distinct text. */
  lemma NatToDecimalInjective(m: nat, n: nat)
    requires NatToDecimal(m) == NatToDecimal(n)
    ensures m == n
  {
  }
}
