/** The simple service's fallback reader of a KMZ archive: it looks for the
    file name `doc.kml` (then `.kml`) among the bytes, looks back up to 100
    bytes for a ZIP local file header, reads the header's sizes and returns
    the stored (uncompressed) data as text, one character per byte. The bytes
    are those Apps Script's `Blob.getBytes` hands out: signed, -128 to 127. */
module ZipExtract {
  import opened Wrappers
  import opened JsText

  type Byte = b: int | -128 <= b < 128

  /** A position read in a bitwise expression: past the end the array gives
      `undefined`, which `|` and `<<` read as 0. */
  function Get(b: seq<Byte>, p: int): int {
    if 0 <= p < |b| then b[p] else 0
  }

  /** The bitwise or of two non-negative integers. */
  function OrBits(x: nat, y: nat): nat
    decreases x
  {
    if x == 0 then y
    else if y == 0 then x
    else 2 * OrBits(x / 2, y / 2) + (if x % 2 == 1 || y % 2 == 1 then 1 else 0)
  }

  /** The 32-bit pattern of an integer and the signed integer of a pattern,
      the conversions JavaScript's bitwise operators apply. */
  function ToU32(x: int): nat {
    x % 0x1_0000_0000
  }

  function FromU32(v: nat): (r: int)
    ensures -0x8000_0000 <= r < 0x8000_0000 <== v < 0x1_0000_0000
  {
    if v < 0x8000_0000 then v else v - 0x1_0000_0000
  }

  /** `x | y` and `x << s` on 32-bit signed integers. */
  function Or32(x: int, y: int): int {
    FromU32(OrBits(ToU32(x), ToU32(y)))
  }

  function Shl(x: int, factor: nat): int {
    FromU32(ToU32(x * factor))
  }

  /** How the header's numbers and the data's characters are read: as the
      code is written, on the signed bytes; or on the unsigned value of each
      byte, as a ZIP header's fields are defined. */
  datatype Reading = AsWritten | Unsigned

  function Unsign(x: int): nat {
    x % 256
  }

  /** `b[p] | (b[p+1] << 8)`, a 2-byte little-endian field. */
  function Read16(b: seq<Byte>, p: int, reading: Reading): int {
    match reading
    case AsWritten => Or32(Get(b, p), Shl(Get(b, p + 1), 0x100))
    case Unsigned => Unsign(Get(b, p)) + 0x100 * Unsign(Get(b, p + 1))
  }

  /** `b[p] | (b[p+1] << 8) | (b[p+2] << 16) | (b[p+3] << 24)`, a 4-byte
      little-endian field. */
  function Read32(b: seq<Byte>, p: int, reading: Reading): int {
    match reading
    case AsWritten =>
      Or32(Or32(Or32(Get(b, p), Shl(Get(b, p + 1), 0x100)), Shl(Get(b, p + 2), 0x1_0000)),
           Shl(Get(b, p + 3), 0x100_0000))
    case Unsigned =>
      Unsign(Get(b, p)) + 0x100 * Unsign(Get(b, p + 1)) +
      0x1_0000 * Unsign(Get(b, p + 2)) + 0x100_0000 * Unsign(Get(b, p + 3))
  }

  /** `String.fromCharCode(x)`: the code unit `x` modulo 2^16; on the
      unsigned value of the byte, the Latin-1 character of the byte. */
  function CharOf(x: Byte, reading: Reading): char {
    match reading
    case AsWritten => (x % 0x1_0000) as char
    case Unsigned => Unsign(x) as char
  }

  function Chars(data: seq<Byte>, reading: Reading): (r: string)
    ensures |r| == |data| && forall k :: 0 <= k < |data| ==> r[k] == CharOf(data[k], reading)
  {
    seq(|data|, k requires 0 <= k < |data| => CharOf(data[k], reading))
  }

  /** The little-endian bytes of `n` below `256^count`, as signed bytes. */
  function LittleEndian(n: nat, count: nat): (r: seq<Byte>)
    ensures |r| == count
  {
    if count == 0 then []
    else
      var u := n % 256;
      [if u < 128 then u else u - 256] + LittleEndian(n / 256, count - 1)
  }

  /** A 4-byte field holding the little-endian bytes of `n` reads back as
      `n`. */
  lemma Read32Encoded(b: seq<Byte>, p: nat, n: nat)
    requires n < 0x1_0000_0000 && p + 4 <= |b| && b[p..p + 4] == LittleEndian(n, 4)
    ensures Read32(b, p, Unsigned) == n
  {
    var e := LittleEndian(n, 4);
    assert Get(b, p) == e[0] && Get(b, p + 1) == e[1] && Get(b, p + 2) == e[2] && Get(b, p + 3) == e[3] by {
      assert b[p..p + 4][0] == b[p] && b[p..p + 4][1] == b[p + 1];
      assert b[p..p + 4][2] == b[p + 2] && b[p..p + 4][3] == b[p + 3];
    }
    var n1 := n / 256;
    var n2 := n1 / 256;
    var n3 := n2 / 256;
    assert e == LittleEndian(n, 1) + LittleEndian(n1, 3);
    assert LittleEndian(n1, 3) == LittleEndian(n1, 1) + LittleEndian(n2, 2);
    assert LittleEndian(n2, 2) == LittleEndian(n2, 1) + LittleEndian(n3, 1);
    assert Unsign(e[0]) == n % 256;
    assert Unsign(e[1]) == n1 % 256;
    assert Unsign(e[2]) == n2 % 256;
    assert Unsign(e[3]) == n3 % 256;
    assert n == n % 256 + 256 * n1 && n1 == n1 % 256 + 256 * n2 && n2 == n2 % 256 + 256 * n3;
    assert n3 < 256;
  }

  /** A 2-byte field holding the little-endian bytes of `n` reads back as `n`. */
  lemma Read16Encoded(b: seq<Byte>, p: nat, n: nat)
    requires n < 0x1_0000 && p + 2 <= |b| && b[p..p + 2] == LittleEndian(n, 2)
    ensures Read16(b, p, Unsigned) == n
  {
    var e := LittleEndian(n, 2);
    assert Get(b, p) == e[0] && Get(b, p + 1) == e[1] by {
      assert b[p..p + 2][0] == b[p] && b[p..p + 2][1] == b[p + 1];
    }
    assert Unsign(e[0]) == n % 256;
    assert Unsign(e[1]) == n / 256 % 256;
  }

  /** Reading the signed bytes as they are turns a size of 200 (the byte
      0xC8, handed out as -56) into -56. */
  lemma SignedSizeMisread()
    ensures Read32([-56, 0, 0, 0], 0, AsWritten) == -56
    ensures Read32([-56, 0, 0, 0], 0, Unsigned) == 200
  {
    assert ToU32(-56) == 0xFFFF_FFC8;
    assert Shl(0, 0x100) == 0 && Shl(0, 0x1_0000) == 0 && Shl(0, 0x100_0000) == 0;
    assert Or32(-56, 0) == -56;
  }

  /** With the size misread as -56, the data of a 200-byte `doc.kml` stored
      at offset 0 ends at 37 - 56 = -19, which `slice` counts from the end of
      the bytes: an archive of just that entry gives 181 of its 200 bytes. */
  lemma SignedSizeTruncates(b: seq<Byte>)
    requires |b| == 30 + |DocKml| + 200
    ensures JsSlice(b, 37, 37 + Read32([-56, 0, 0, 0], 0, AsWritten)) == b[37..218]
    ensures |b[37..218]| == 181
  {
    SignedSizeMisread();
  }

  /** What examining one candidate header does: move on, or end the search
      with its answer. */
  datatype Outcome = Continue | Return(content: Option<string>)

  /** `50 4B 03 04` at `k`: the local file header signature. */
  predicate HeaderAt(b: seq<Byte>, k: int) {
    Get(b, k) == 0x50 && Get(b, k + 1) == 0x4B && Get(b, k + 2) == 0x03 && Get(b, k + 3) == 0x04
  }

  /** The header candidate at `k`: when the signature is there and the data
      it describes lies inside the bytes, the data as text if it is stored
      (method 0), no text otherwise; in every other case the search goes on. */
  function HeaderOutcome(b: seq<Byte>, k: int, reading: Reading): Outcome {
    if !HeaderAt(b, k) then Continue
    else
      var size := Read32(b, k + 18, reading);
      var dataStart := k + 30 + Read16(b, k + 26, reading) + Read16(b, k + 28, reading);
      if dataStart < |b| && dataStart + size <= |b| then
        if Read16(b, k + 8, reading) == 0 then Return(Some(Chars(JsSlice(b, dataStart, dataStart + size), reading)))
        else Return(None)
      else Continue
  }

  /** The candidates `k` to `i - 1`, in order: the first that ends the search. */
  function ScanHeaders(b: seq<Byte>, k: int, i: int, reading: Reading): Outcome
    decreases i - k
  {
    if k >= i then Continue
    else
      var o := HeaderOutcome(b, k, reading);
      if o.Return? then o else ScanHeaders(b, k + 1, i, reading)
  }

  predicate NameAt(b: seq<Byte>, needle: seq<int>, i: int) {
    forall j :: 0 <= j < |needle| ==> Get(b, i + j) == needle[j]
  }

  function Max(a: int, b: int): int {
    if a >= b then a else b
  }

  /** The positions `i` on (below `|b| - |needle|`) where the name occurs,
      each searched back up to 100 bytes for a header. */
  function ScanPositions(b: seq<Byte>, needle: seq<int>, i: int, reading: Reading): Outcome
    decreases |b| - i
  {
    if i >= |b| - |needle| then Continue
    else
      var o := if NameAt(b, needle, i) then ScanHeaders(b, Max(0, i - 100), i, reading) else Continue;
      if o.Return? then o else ScanPositions(b, needle, i + 1, reading)
  }

  /** The character codes of a search string (`charCodeAt`). */
  function Codes(s: string): (r: seq<int>)
    ensures |r| == |s|
  {
    seq(|s|, k requires 0 <= k < |s| => s[k] as int)
  }

  const SearchStrings: seq<string> := ["doc.kml", ".kml"]

  function ScanNames(b: seq<Byte>, names: seq<string>, reading: Reading): Option<string> {
    if names == [] then None
    else
      var o := ScanPositions(b, Codes(names[0]), 0, reading);
      if o.Return? then o.content else ScanNames(b, names[1..], reading)
  }

  /** What `extractKMLFromZip` returns for the bytes under a reading. */
  function Extract(b: seq<Byte>, reading: Reading): (r: Option<string>)
    ensures r.Some? ==> exists k :: 0 <= k < |b| && HeaderOutcome(b, k, reading) == Return(r) &&
                                    HeaderAt(b, k) && Read16(b, k + 8, reading) == 0
  {
    ScanNamesFromHeader(b, SearchStrings, reading);
    ScanNames(b, SearchStrings, reading)
  }

  /** Without a usable header the reader returns null. */
  lemma NothingUsableGivesNull(b: seq<Byte>, reading: Reading)
    requires forall k :: 0 <= k < |b| ==> HeaderOutcome(b, k, reading).Continue?
    ensures Extract(b, reading).None?
  {
  }

  /** A search that ends does so at a header candidate below `i`. */
  lemma {:induction false} ScanHeadersFromHeader(b: seq<Byte>, k: int, i: int, reading: Reading)
    requires 0 <= k
    ensures ScanHeaders(b, k, i, reading).Return? ==>
      exists j :: k <= j < i && HeaderOutcome(b, j, reading) == ScanHeaders(b, k, i, reading)
    decreases i - k
  {
    if k < i && HeaderOutcome(b, k, reading).Continue? {
      ScanHeadersFromHeader(b, k + 1, i, reading);
    }
  }

  /** A scan of the name positions that ends does so at a header candidate. */
  lemma {:induction false} ScanPositionsFromHeader(b: seq<Byte>, needle: seq<int>, i: int, reading: Reading)
    requires 0 <= i
    ensures ScanPositions(b, needle, i, reading).Return? ==>
      exists j :: 0 <= j < |b| && HeaderOutcome(b, j, reading) == ScanPositions(b, needle, i, reading)
    decreases |b| - i
  {
    if i < |b| - |needle| {
      if NameAt(b, needle, i) {
        ScanHeadersFromHeader(b, Max(0, i - 100), i, reading);
      }
      ScanPositionsFromHeader(b, needle, i + 1, reading);
    }
  }

  /** Text found by the name searches is the answer of a header candidate in
      the bytes. */
  lemma {:induction false} ScanNamesFromHeader(b: seq<Byte>, names: seq<string>, reading: Reading)
    ensures ScanNames(b, names, reading).Some? ==>
      exists k :: 0 <= k < |b| && HeaderOutcome(b, k, reading) == Return(ScanNames(b, names, reading))
  {
    if names != [] {
      ScanPositionsFromHeader(b, Codes(names[0]), 0, reading);
      ScanNamesFromHeader(b, names[1..], reading);
    }
  }

  /** The first candidate that ends the search decides it: a later header is
      never looked at, even when the first one is compressed and gives no
      text. */
  lemma {:induction false} ScanHeadersFirst(b: seq<Byte>, k: int, i: int, j: int, reading: Reading)
    requires k <= j < i && HeaderOutcome(b, j, reading).Return?
    requires forall m :: k <= m < j ==> HeaderOutcome(b, m, reading).Continue?
    ensures ScanHeaders(b, k, i, reading) == HeaderOutcome(b, j, reading)
    decreases j - k
  {
    if k < j {
      ScanHeadersFirst(b, k + 1, i, j, reading);
    }
  }

  /** The look-back goes on past every candidate exactly when none of them
      ends the search. */
  lemma {:induction false} ScanHeadersNone(b: seq<Byte>, k: int, i: int, reading: Reading)
    ensures ScanHeaders(b, k, i, reading) == Continue <==>
      forall m :: k <= m < i ==> HeaderOutcome(b, m, reading).Continue?
    decreases i - k
  {
    if k < i {
      ScanHeadersNone(b, k + 1, i, reading);
    }
  }

  /** The first position holding the name whose look-back ends the search
      decides the scan of that name. */
  lemma {:induction false} ScanPositionsFirst(b: seq<Byte>, needle: seq<int>, i: int, p: int, reading: Reading)
    requires i <= p < |b| - |needle| && NameAt(b, needle, p)
    requires ScanHeaders(b, Max(0, p - 100), p, reading).Return?
    requires forall q :: i <= q < p && NameAt(b, needle, q) ==> ScanHeaders(b, Max(0, q - 100), q, reading).Continue?
    ensures ScanPositions(b, needle, i, reading) == ScanHeaders(b, Max(0, p - 100), p, reading)
    decreases p - i
  {
    if i < p {
      ScanPositionsFirst(b, needle, i + 1, p, reading);
    }
  }

  /** Positions without the name end nothing: a scan over them goes on. */
  lemma {:induction false} ScanPositionsNoName(b: seq<Byte>, needle: seq<int>, i: int, reading: Reading)
    requires forall q :: i <= q < |b| - |needle| ==> !NameAt(b, needle, q)
    ensures ScanPositions(b, needle, i, reading) == Continue
    decreases |b| - i
  {
    if i < |b| - |needle| {
      ScanPositionsNoName(b, needle, i + 1, reading);
    }
  }

  /** Read unsigned, a stored header gives exactly as many characters as its
      size field says. */
  lemma HeaderTextSize(b: seq<Byte>, k: int)
    requires HeaderOutcome(b, k, Unsigned).Return? && HeaderOutcome(b, k, Unsigned).content.Some?
    ensures |HeaderOutcome(b, k, Unsigned).content.value| == Read32(b, k + 18, Unsigned)
    ensures Read16(b, k + 8, Unsigned) == 0
  {
    var size := Read32(b, k + 18, Unsigned);
    var dataStart := k + 30 + Read16(b, k + 26, Unsigned) + Read16(b, k + 28, Unsigned);
    assert 0 <= k;
    assert 0 <= dataStart <= dataStart + size <= |b|;
  }

  /** An empty stored file whose header at 0 describes data at 30, followed by
      the name `doc.kml` in the last seven bytes. */
  const NameAtEnd: seq<Byte> :=
    [0x50, 0x4B, 0x03, 0x04, 20, 0, 0, 0, 0, 0, 0, 0, 0, 0, 0, 0, 0, 0,
     0, 0, 0, 0, 0, 0, 0, 0, 0, 0, 0, 0, 100, 111, 99, 46, 107, 109, 108]

  /** The fields of the header at 0 of `NameAtEnd`: method 0, size 0, no
      name and no extra field. */
  lemma NameAtEndFields()
    ensures HeaderAt(NameAtEnd, 0)
    ensures Read32(NameAtEnd, 18, Unsigned) == 0 && Read16(NameAtEnd, 8, Unsigned) == 0
    ensures Read16(NameAtEnd, 26, Unsigned) == 0 && Read16(NameAtEnd, 28, Unsigned) == 0
  {
    var b := NameAtEnd;
    assert Get(b, 18) == 0 && Get(b, 19) == 0 && Get(b, 20) == 0 && Get(b, 21) == 0;
    assert Get(b, 26) == 0 && Get(b, 27) == 0 && Get(b, 28) == 0 && Get(b, 29) == 0;
    assert Get(b, 8) == 0 && Get(b, 9) == 0;
  }

  /** The header at 0 of `NameAtEnd` is usable: it gives the empty text. */
  lemma NameAtEndHeader()
    ensures HeaderOutcome(NameAtEnd, 0, Unsigned) == Return(Some([]))
  {
    NameAtEndFields();
    assert |NameAtEnd| == 37;
    assert JsSlice(NameAtEnd, 30, 30) == [];
  }

  /** `NameAtEnd` holds the name in its last seven bytes and nowhere else. */
  lemma NameAtEndOnly()
    ensures NameAt(NameAtEnd, Codes("doc.kml"), |NameAtEnd| - 7)
    ensures forall q :: 0 <= q < |NameAtEnd| - 7 ==> !NameAt(NameAtEnd, Codes("doc.kml"), q)
    ensures forall q :: 0 <= q < |NameAtEnd| - 4 ==> !NameAt(NameAtEnd, Codes(".kml"), q)
  {
    var b := NameAtEnd;
    assert |b| == 37;
    forall j | 0 <= j < 7 ensures Get(b, 30 + j) == Codes("doc.kml")[j] {
      assert b[30 + j] == DocKml[j];
    }
    forall q | 0 <= q < |b| - 7 ensures !NameAt(b, Codes("doc.kml"), q) {
      assert Get(b, q + 0) != Codes("doc.kml")[0];
    }
    forall q | 0 <= q < |b| - 4 ensures !NameAt(b, Codes(".kml"), q) {
      assert Get(b, q + 0) != Codes(".kml")[0];
    }
  }

  /** The name search stops one position short of the end: a name in the last
      bytes is never seen, so the usable header at 0 is never examined. */
  lemma NameAtEndUnseen(reading: Reading)
    ensures HeaderOutcome(NameAtEnd, 0, Unsigned) == Return(Some([]))
    ensures NameAt(NameAtEnd, Codes("doc.kml"), |NameAtEnd| - 7)
    ensures Extract(NameAtEnd, reading) == None
  {
    var b := NameAtEnd;
    NameAtEndHeader();
    NameAtEndOnly();
    ScanPositionsNoName(b, Codes("doc.kml"), 0, reading);
    ScanPositionsNoName(b, Codes(".kml"), 0, reading);
    var rest := SearchStrings[1..];
    assert rest == [".kml"] && rest[1..] == [];
    assert ScanNames(b, rest, reading) == ScanNames(b, [], reading);
    assert ScanNames(b, SearchStrings, reading) == ScanNames(b, rest, reading);
  }

  /** The bytes of the file name `doc.kml`. */
  const DocKml: seq<Byte> := [100, 111, 99, 46, 107, 109, 108]

  /** A local file header for a stored (method 0) file of `size` bytes named
      `doc.kml`, without extra field. */
  function StoredHeader(size: nat, crc: nat): (r: seq<Byte>)
    ensures |r| == 30
  {
    [0x50, 0x4B, 0x03, 0x04] + LittleEndian(20, 2) + LittleEndian(0, 2) + LittleEndian(0, 2) +
    LittleEndian(0, 4) + LittleEndian(crc, 4) + LittleEndian(size, 4) + LittleEndian(size, 4) +
    LittleEndian(|DocKml|, 2) + LittleEndian(0, 2)
  }

  /** A ZIP archive starting with `doc.kml` stored uncompressed. */
  function StoredArchive(content: seq<Byte>, crc: nat): (r: seq<Byte>)
    ensures |r| == 37 + |content|
  {
    StoredHeader(|content|, crc) + DocKml + content
  }

  /** Where a stored header keeps its fields, byte by byte: the signature at
      0, the method at 8, the size at 18, the name length at 26, the extra
      length at 28. */
  lemma StoredHeaderLayout(size: nat, crc: nat)
    ensures var h := StoredHeader(size, crc);
      var s := LittleEndian(size, 4);
      var z := LittleEndian(0, 2);
      var n := LittleEndian(|DocKml|, 2);
      h[0] == 0x50 && h[1] == 0x4B && h[2] == 0x03 && h[3] == 0x04 &&
      h[8] == z[0] && h[9] == z[1] &&
      h[18] == s[0] && h[19] == s[1] && h[20] == s[2] && h[21] == s[3] &&
      h[26] == n[0] && h[27] == n[1] && h[28] == z[0] && h[29] == z[1]
  {
  }

  /** The fields of the header at the start of a stored archive. */
  lemma StoredFields(content: seq<Byte>, crc: nat)
    requires |content| < 0x1_0000_0000
    ensures var b := StoredArchive(content, crc);
      HeaderAt(b, 0) && Read32(b, 18, Unsigned) == |content| && Read16(b, 26, Unsigned) == |DocKml| &&
      Read16(b, 28, Unsigned) == 0 && Read16(b, 8, Unsigned) == 0
  {
    var b := StoredArchive(content, crc);
    var h := StoredHeader(|content|, crc);
    StoredHeaderLayout(|content|, crc);
    HeaderBytes(b, |content|);
  }

  /** Bytes laid out as a stored header for `size` bytes read back as its
      fields. */
  lemma HeaderBytes(b: seq<Byte>, size: nat)
    requires 30 <= |b| && size < 0x1_0000_0000
    requires var s := LittleEndian(size, 4);
      var z := LittleEndian(0, 2);
      var n := LittleEndian(|DocKml|, 2);
      b[0] == 0x50 && b[1] == 0x4B && b[2] == 0x03 && b[3] == 0x04 &&
      b[8] == z[0] && b[9] == z[1] &&
      b[18] == s[0] && b[19] == s[1] && b[20] == s[2] && b[21] == s[3] &&
      b[26] == n[0] && b[27] == n[1] && b[28] == z[0] && b[29] == z[1]
    ensures HeaderAt(b, 0) && Read32(b, 18, Unsigned) == size && Read16(b, 26, Unsigned) == |DocKml|
    ensures Read16(b, 28, Unsigned) == 0 && Read16(b, 8, Unsigned) == 0
  {
    assert b[8..10] == LittleEndian(0, 2);
    Read16Encoded(b, 8, 0);
    assert b[18..22] == LittleEndian(size, 4);
    Read32Encoded(b, 18, size);
    assert b[26..28] == LittleEndian(|DocKml|, 2);
    Read16Encoded(b, 26, |DocKml|);
    assert b[28..30] == LittleEndian(0, 2);
    Read16Encoded(b, 28, 0);
  }

  /** The header at the start of a stored archive gives its content. */
  lemma StoredHeaderOutcome(content: seq<Byte>, crc: nat)
    requires 0 < |content| < 0x1_0000_0000
    ensures HeaderOutcome(StoredArchive(content, crc), 0, Unsigned) == Return(Some(Chars(content, Unsigned)))
  {
    StoredFields(content, crc);
    StoredContent(content, crc);
    HeaderWithFields(StoredArchive(content, crc), content);
  }

  /** A header at 0 naming a stored file of 7 characters without extra field
      gives the bytes after the name, when they are exactly the data. */
  lemma HeaderWithFields(b: seq<Byte>, content: seq<Byte>)
    requires HeaderAt(b, 0) && Read32(b, 18, Unsigned) == |content| && Read16(b, 26, Unsigned) == 7
    requires Read16(b, 28, Unsigned) == 0 && Read16(b, 8, Unsigned) == 0
    requires |content| > 0 && |b| == 37 + |content| && b[37..] == content
    ensures HeaderOutcome(b, 0, Unsigned) == Return(Some(Chars(content, Unsigned)))
  {
    assert JsSlice(b, 37, 37 + |content|) == content;
  }

  /** The data of a stored archive follows the header and the name. */
  lemma StoredContent(content: seq<Byte>, crc: nat)
    ensures StoredArchive(content, crc)[37..] == content
  {
    var h := StoredHeader(|content|, crc);
    assert StoredArchive(content, crc) == (h + DocKml) + content;
  }

  /** When the bytes start with a header that ends the search and the name
      occurs at `last`, within 100 bytes of it, the scan from any position
      from 1 to `last` ends at that header: every occurrence on the way looks
      back to position 0. */
  lemma {:induction false} ScanFindsHeader(b: seq<Byte>, needle: seq<int>, i: nat, last: nat)
    requires 1 <= i <= last <= 100 && last < |b| - |needle|
    requires NameAt(b, needle, last) && HeaderOutcome(b, 0, Unsigned).Return?
    ensures ScanPositions(b, needle, i, Unsigned) == HeaderOutcome(b, 0, Unsigned)
    decreases last - i
  {
    if i < last && !NameAt(b, needle, i) {
      ScanFindsHeader(b, needle, i + 1, last);
    } else {
      assert ScanHeaders(b, 0, i, Unsigned) == HeaderOutcome(b, 0, Unsigned);
    }
  }

  /** The first search string finds the header at 0 when it does not stand
      at 0 itself but stands at `last`, within 100 bytes. */
  lemma ExtractFindsHeader(b: seq<Byte>, last: nat)
    requires 1 <= last <= 100 && last < |b| - 7
    requires !NameAt(b, Codes("doc.kml"), 0) && NameAt(b, Codes("doc.kml"), last)
    requires HeaderOutcome(b, 0, Unsigned).Return?
    ensures Extract(b, Unsigned) == HeaderOutcome(b, 0, Unsigned).content
  {
    var needle := Codes(SearchStrings[0]);
    assert SearchStrings[0] == "doc.kml";
    ScanFindsHeader(b, needle, 1, last);
    assert ScanPositions(b, needle, 0, Unsigned) == ScanPositions(b, needle, 1, Unsigned);
  }

  /** Where a stored archive holds the name: not at 0, where the signature
      is, but at 30, right after the header. */
  lemma StoredNamePosition(content: seq<Byte>, crc: nat)
    ensures !NameAt(StoredArchive(content, crc), Codes("doc.kml"), 0)
    ensures NameAt(StoredArchive(content, crc), Codes("doc.kml"), 30)
  {
    var b := StoredArchive(content, crc);
    var needle := Codes("doc.kml");
    assert needle == DocKml;
    assert Get(b, 0) == StoredHeader(|content|, crc)[0] == 0x50;
    assert Get(b, 0 + 0) != needle[0];
    forall j | 0 <= j < |needle| ensures Get(b, 30 + j) == needle[j] {
      assert b[30 + j] == (StoredHeader(|content|, crc) + DocKml)[30 + j];
    }
  }

  /** A stored `doc.kml` at the start of the archive is read back as its
      content, one character per byte. */
  lemma StoredArchiveRoundTrip(content: seq<Byte>, crc: nat)
    requires 0 < |content| < 0x1_0000_0000
    ensures Extract(StoredArchive(content, crc), Unsigned) == Some(Chars(content, Unsigned))
  {
    StoredNamePosition(content, crc);
    StoredHeaderOutcome(content, crc);
    ExtractFindsHeader(StoredArchive(content, crc), 30);
  }

  /** The loop turning the stored bytes into text. */
  method BytesToText(data: seq<Byte>) returns (text: string)
    ensures text == Chars(data, Unsigned)
  {
    text := [];
    var n := 0;
    while n < |data|
      invariant 0 <= n <= |data|
      invariant text == Chars(data[..n], Unsigned)
    {
      text := text + [CharOf(data[n], Unsigned)];
      n := n + 1;
    }
    assert data[..n] == data;
  }

  /** Whether the search string's codes stand at `i`, compared code by code
      up to the first difference. */
  method NameMatches(bytes: seq<Byte>, needle: seq<int>, i: int) returns (found: bool)
    ensures found == NameAt(bytes, needle, i)
  {
    found := true;
    var j := 0;
    while j < |needle|
      invariant 0 <= j <= |needle|
      invariant found <==> forall j' :: 0 <= j' < j ==> Get(bytes, i + j') == needle[j']
    {
      if Get(bytes, i + j) != needle[j] {
        found := false;
        break;
      }
      j := j + 1;
    }
  }

  /** The body of the look-back loop: the candidate header at `k`. */
  method ExamineHeader(bytes: seq<Byte>, k: int) returns (o: Outcome)
    ensures o == HeaderOutcome(bytes, k, Unsigned)
  {
    o := Continue;
    if HeaderAt(bytes, k) {
      var compressedSize := Read32(bytes, k + 18, Unsigned);
      var fileNameLength := Read16(bytes, k + 26, Unsigned);
      var extraFieldLength := Read16(bytes, k + 28, Unsigned);
      var dataStart := k + 30 + fileNameLength + extraFieldLength;
      if dataStart < |bytes| && dataStart + compressedSize <= |bytes| {
        var compressedData := JsSlice(bytes, dataStart, dataStart + compressedSize);
        if Read16(bytes, k + 8, Unsigned) == 0 {
          var text := BytesToText(compressedData);
          o := Return(Some(text));
          assert o == HeaderOutcome(bytes, k, Unsigned);
        } else {
          o := Return(None);
        }
      }
    }
  }

  /** `extractKMLFromZip`, reading every byte as its unsigned value. */
  method ExtractKMLFromZip(bytes: seq<Byte>) returns (r: Option<string>)
    ensures r == Extract(bytes, Unsigned)
  {
    var s := 0;
    while s < |SearchStrings|
      invariant 0 <= s <= |SearchStrings|
      invariant Extract(bytes, Unsigned) == ScanNames(bytes, SearchStrings[s..], Unsigned)
    {
      var needle := Codes(SearchStrings[s]);
      var i := 0;
      while i < |bytes| - |needle|
        invariant 0 <= i
        invariant ScanPositions(bytes, needle, 0, Unsigned) == ScanPositions(bytes, needle, i, Unsigned)
      {
        var found := NameMatches(bytes, needle, i);
        if found {
          var k := Max(0, i - 100);
          while k < i
            invariant Max(0, i - 100) <= k <= i
            invariant ScanHeaders(bytes, Max(0, i - 100), i, Unsigned) == ScanHeaders(bytes, k, i, Unsigned)
          {
            var o := ExamineHeader(bytes, k);
            if o.Return? {
              assert ScanHeaders(bytes, k, i, Unsigned) == o;
              assert ScanPositions(bytes, needle, i, Unsigned) == o;
              return o.content;
            }
            k := k + 1;
          }
        }
        i := i + 1;
      }
      s := s + 1;
    }
    return None;
  }
}
