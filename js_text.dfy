/** The JavaScript string primitives the pipeline relies on: `trim`, the `\s`
    class of regular expressions, `toLowerCase` (on ASCII letters), `includes`
    and `split` on a one-character separator; and `slice` on arrays. */
module JsText {

  /** ECMAScript WhiteSpace and LineTerminator code points: what `trim`,
      `parseFloat` and the regular-expression class `\s` skip. */
  predicate IsWhitespace(c: char) {
    c == '\t' || c == '\n' || c == '\U{000B}' || c == '\U{000C}' || c == '\r' ||
    c == ' ' || c == '\U{00A0}' || c == '\U{1680}' ||
    ('\U{2000}' <= c <= '\U{200A}') ||
    c == '\U{2028}' || c == '\U{2029}' || c == '\U{202F}' || c == '\U{205F}' ||
    c == '\U{3000}' || c == '\U{FEFF}'
  }

  predicate AllWhitespace(s: string) {
    forall i :: 0 <= i < |s| ==> IsWhitespace(s[i])
  }

  /** Drops leading whitespace. */
  function TrimStart(s: string): (r: string)
    ensures |r| <= |s| && r == s[|s| - |r|..]
    ensures AllWhitespace(s[..|s| - |r|])
    ensures r == [] || !IsWhitespace(r[0])
  {
    if s != [] && IsWhitespace(s[0]) then TrimStart(s[1..]) else s
  }

  /** Drops trailing whitespace. */
  function TrimEnd(s: string): (r: string)
    ensures |r| <= |s| && r == s[..|r|]
    ensures AllWhitespace(s[|r|..])
    ensures r == [] || !IsWhitespace(r[|r| - 1])
  {
    if s != [] && IsWhitespace(s[|s| - 1]) then TrimEnd(s[..|s| - 1]) else s
  }

  /** `String.prototype.trim`. */
  function Trim(s: string): (r: string)
  {
    TrimEnd(TrimStart(s))
  }

  /** `trim()` yields the empty string exactly when the text is blank. */
  lemma TrimEmptyIffBlank(s: string)
    ensures Trim(s) == [] <==> AllWhitespace(s)
  {
    var t := TrimStart(s);
    if Trim(s) == [] {
      // a text that keeps a non-blank first character keeps it at the end too
      if t != [] {
        assert false;
      }
      forall i | 0 <= i < |s| ensures IsWhitespace(s[i]) {
        assert s[..|s| - |t|][i] == s[i];
      }
    } else if t != [] {
      assert !IsWhitespace(t[0]) && t[0] == s[|s| - |t|];
    }
  }

  function LowerChar(c: char): char {
    if 'A' <= c <= 'Z' then (c as int + 32) as char else c
  }

  /** `toLowerCase`, on ASCII letters only. */
  function Lower(s: string): (r: string)
    ensures |r| == |s|
    ensures forall i :: 0 <= i < |s| ==> r[i] == LowerChar(s[i])
  {
    seq(|s|, i requires 0 <= i < |s| => LowerChar(s[i]))
  }

  /** `sub` occurs in `s` starting at index `i`. */
  predicate OccursAt(s: string, sub: string, i: int) {
    0 <= i && i + |sub| <= |s| && s[i..i + |sub|] == sub
  }

  /** `s.includes(sub)`: some window of `s` equals `sub`. */
  predicate Contains(s: string, sub: string) {
    exists i :: 0 <= i <= |s| - |sub| && OccursAt(s, sub, i)
  }

  lemma ContainsEmpty(s: string)
    ensures Contains(s, [])
  {
    assert OccursAt(s, [], 0);
  }

  /** A string contains itself. */
  lemma ContainsSelf(s: string)
    ensures Contains(s, s)
  {
    assert OccursAt(s, s, 0);
  }

  /** A keyword without ASCII upper-case letters occurs in `Lower(s)` exactly
      when it occurs in a window of `s` whose letters lower to it; for a keyword
      without any ASCII letter (every Chinese keyword of the pipeline) this is the
      same as occurring in `s`. */
  predicate NoAsciiLetters(k: string) {
    forall i :: 0 <= i < |k| ==> !('A' <= k[i] <= 'Z') && !('a' <= k[i] <= 'z')
  }

  lemma LowerKeepsKeyword(s: string, k: string)
    requires NoAsciiLetters(k)
    ensures Contains(Lower(s), k) <==> Contains(s, k)
  {
    var l := Lower(s);
    if Contains(l, k) {
      var i :| 0 <= i <= |l| - |k| && OccursAt(l, k, i);
      forall j | 0 <= j < |k| ensures s[i + j] == k[j] {
        assert l[i + j] == k[j];
      }
      assert OccursAt(s, k, i);
    }
    if Contains(s, k) {
      var i :| 0 <= i <= |s| - |k| && OccursAt(s, k, i);
      forall j | 0 <= j < |k| ensures l[i + j] == k[j] {
        assert s[i + j] == k[j];
      }
      assert OccursAt(l, k, i);
    }
  }

  /** A text that lacks some character of `sub` does not contain `sub`. */
  lemma MissingChar(t: string, sub: string, j: nat)
    requires j < |sub| && sub[j] !in t
    ensures !Contains(t, sub)
  {
    forall i | 0 <= i <= |t| - |sub| ensures !OccursAt(t, sub, i) {
      assert t[i + j] in t && t[i + j] != sub[j];
      assert t[i..i + |sub|][j] == t[i + j];
    }
  }

  /** A text does not contain anything longer than itself, and contains text of
      its own length only when the two are equal. */
  lemma ContainsLength(t: string, sub: string)
    ensures |sub| > |t| ==> !Contains(t, sub)
    ensures |sub| == |t| && Contains(t, sub) ==> t == sub
  {
    if |sub| == |t| && Contains(t, sub) {
      var i :| 0 <= i <= |t| - |sub| && OccursAt(t, sub, i);
      assert t[0..|t|] == t;
    }
  }

  /** Lower-casing twice is lower-casing once. */
  lemma LowerIdempotent(s: string)
    ensures Lower(Lower(s)) == Lower(s)
  {
  }

  /** `s.split(sep)` for a one-character separator: the fields between the
      separators, always at least one. */
  function Split(s: string, sep: char): (r: seq<string>)
    ensures |r| >= 1
    ensures forall k :: 0 <= k < |r| ==> sep !in r[k]
  {
    if s == [] then [[]]
    else
      var rest := Split(s[1..], sep);
      if s[0] == sep then [[]] + rest
      else [[s[0]] + rest[0]] + rest[1..]
  }

  /** Joining the fields with the separator gives the text back. */
  function Join(fields: seq<string>, sep: char): string
    requires |fields| >= 1
  {
    if |fields| == 1 then fields[0] else fields[0] + [sep] + Join(fields[1..], sep)
  }

  lemma {:induction false} SplitJoin(s: string, sep: char)
    ensures Join(Split(s, sep), sep) == s
  {
    if s != [] {
      var rest := Split(s[1..], sep);
      SplitJoin(s[1..], sep);
      if s[0] == sep {
        assert Split(s, sep) == [[]] + rest;
        assert (([[]] + rest)[1..]) == rest;
      } else {
        var r := Split(s, sep);
        assert r == [[s[0]] + rest[0]] + rest[1..];
        if |rest| == 1 {
          assert Join(r, sep) == [s[0]] + rest[0];
        } else {
          assert r[1..] == rest[1..];
          assert Join(rest, sep) == rest[0] + [sep] + Join(rest[1..], sep);
        }
      }
    }
  }

  /** Splitting text built from separator-free fields gives those fields back. */
  lemma {:induction false} SplitOfJoin(fields: seq<string>, sep: char)
    requires |fields| >= 1
    requires forall k :: 0 <= k < |fields| ==> sep !in fields[k]
    ensures Split(Join(fields, sep), sep) == fields
  {
    if |fields| == 1 {
      SplitField(fields[0], sep);
    } else {
      SplitOfJoin(fields[1..], sep);
      SplitPrefix(fields[0], Join(fields[1..], sep), sep);
    }
  }

  lemma {:induction false} SplitField(f: string, sep: char)
    requires sep !in f
    ensures Split(f, sep) == [f]
  {
    if f != [] {
      SplitField(f[1..], sep);
      assert [f[0]] + f[1..] == f;
    }
  }

  lemma {:induction false} SplitPrefix(f: string, t: string, sep: char)
    requires sep !in f
    ensures Split(f + [sep] + t, sep) == [f] + Split(t, sep)
  {
    if f == [] {
      assert f + [sep] + t == [sep] + t;
      assert ([sep] + t)[1..] == t;
    } else {
      SplitPrefix(f[1..], t, sep);
      assert (f + [sep] + t)[1..] == f[1..] + [sep] + t;
      assert [f[0]] + f[1..] == f;
    }
  }

  /** `Array.prototype.slice(start, end)`: negative positions count from the
      end, and positions are clamped to the list. */
  function SlicePos(len: nat, p: int): (r: nat)
    ensures r <= len
  {
    if p < 0 then (if len + p < 0 then 0 else len + p) else if p > len then len else p
  }

  function JsSlice<T>(s: seq<T>, start: int, end: int): (r: seq<T>)
    ensures 0 <= start <= end <= |s| ==> r == s[start..end]
  {
    var a := SlicePos(|s|, start);
    var b := SlicePos(|s|, end);
    if b <= a then [] else s[a..b]
  }
}
