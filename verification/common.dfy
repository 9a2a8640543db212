/** Shared vocabulary: an Option type, bytes, and the few Python string and
    bytes operations the capture tool relies on (`in`, `find`, `lower`,
    `startswith`, `strip`, `split`), stated for the ASCII text the tool
    works on. */
module Common {

  datatype Option<+T> = None | Some(value: T)

  /** One octet of a captured payload. */
  newtype byte = b: int | 0 <= b < 256

  // ---------------------------------------------------------------------
  // Character classes

  predicate IsDigit(c: char) { '0' <= c <= '9' }
  predicate IsUpper(c: char) { 'A' <= c <= 'Z' }
  predicate IsLowerLetter(c: char) { 'a' <= c <= 'z' }
  predicate IsAlnum(c: char) { IsDigit(c) || IsUpper(c) || IsLowerLetter(c) }

  /** Python's `str.isspace()`, which is also what `\s` matches in a
      `str` regular expression. */
  predicate IsSpace(c: char)
  {
    var n := c as int;
    n == 32 || 9 <= n <= 13 || 28 <= n <= 31 || n == 0x85 || n == 0xA0
    || n == 0x1680 || 0x2000 <= n <= 0x200A || n == 0x2028 || n == 0x2029
    || n == 0x202F || n == 0x205F || n == 0x3000
  }

  /** `str.lower()` / `bytes.lower()` on ASCII: only A-Z change. */
  function LowerChar(c: char): char
  {
    if IsUpper(c) then (c as int + 32) as char else c
  }

  function Lower(s: string): (r: string)
    ensures |r| == |s|
    ensures forall i :: 0 <= i < |s| ==> r[i] == LowerChar(s[i])
  {
    seq(|s|, i requires 0 <= i < |s| => LowerChar(s[i]))
  }

  function LowerByte(b: byte): byte
  {
    if 65 <= b <= 90 then b + 32 else b
  }

  function LowerBytes(s: seq<byte>): (r: seq<byte>)
    ensures |r| == |s|
    ensures forall i :: 0 <= i < |s| ==> r[i] == LowerByte(s[i])
  {
    seq(|s|, i requires 0 <= i < |s| => LowerByte(s[i]))
  }

  /** The bytes of an ASCII literal such as `b'releaseStream'`. */
  function AsciiBytes(s: string): (r: seq<byte>)
    requires forall i :: 0 <= i < |s| ==> s[i] < 128 as char
    ensures |r| == |s|
    ensures forall i :: 0 <= i < |s| ==> r[i] as int == s[i] as int
  {
    seq(|s|, i requires 0 <= i < |s| => s[i] as int as byte)
  }

  /** `bytes.decode('ascii', errors='ignore')`: bytes above 127 vanish. */
  function AsciiString(bs: seq<byte>): (r: string)
    ensures |r| <= |bs|
    ensures forall i :: 0 <= i < |bs| && bs[i] < 128 ==> bs[i] as int as char in r
    ensures forall c :: c in r ==> c < 128 as char && c as int as byte in bs
    ensures (forall i :: 0 <= i < |bs| ==> bs[i] < 128) ==>
      |r| == |bs| && forall i :: 0 <= i < |bs| ==> r[i] == bs[i] as int as char
  {
    if bs == [] then ""
    else if bs[0] < 128 then [bs[0] as int as char] + AsciiString(bs[1..])
    else AsciiString(bs[1..])
  }

  /** Regrouping a concatenation. */
  lemma ConcatAssoc<T>(x: seq<T>, y: seq<T>, z: seq<T>)
    ensures x + y + z == x + (y + z)
  {
  }

  // ---------------------------------------------------------------------
  // Sub-sequence search (`t in s`, `s.find(t)`, `s.startswith(t)`)

  predicate OccursAt<T(==)>(s: seq<T>, t: seq<T>, i: int)
  {
    0 <= i && i + |t| <= |s| && s[i..i + |t|] == t
  }

  predicate Contains<T(==)>(s: seq<T>, t: seq<T>)
  {
    exists i | 0 <= i <= |s| :: OccursAt(s, t, i)
  }

  predicate StartsWith<T(==)>(s: seq<T>, p: seq<T>)
  {
    |p| <= |s| && s[..|p|] == p
  }

  /** `s.find(t, from)`: the first occurrence at or after `from`, or -1. */
  function FindFrom<T(==)>(s: seq<T>, t: seq<T>, from: nat): (r: int)
    decreases |s| - from
    ensures r == -1 || (from <= r && OccursAt(s, t, r))
    ensures r != -1 ==> forall j :: from <= j < r ==> !OccursAt(s, t, j)
    ensures r == -1 ==> forall j :: from <= j ==> !OccursAt(s, t, j)
  {
    if from + |t| > |s| then -1
    else if s[from..from + |t|] == t then from
    else FindFrom(s, t, from + 1)
  }

  function Find<T(==)>(s: seq<T>, t: seq<T>): (r: int)
    ensures r == -1 <==> !Contains(s, t)
    ensures r != -1 ==> OccursAt(s, t, r) && forall j :: 0 <= j < r ==> !OccursAt(s, t, j)
  {
    FindFrom(s, t, 0)
  }

  /** `j` is the first position from `i` to `n` where `hit` holds: what a
      left-to-right search reports. */
  predicate LeftmostFrom(hit: nat -> bool, i: nat, j: nat, n: nat)
  {
    i <= j <= n && hit(j) && forall k: nat :: i <= k < j ==> !hit(k)
  }

  /** A miss at `i` turns the first hit from `i + 1` into the first hit
      from `i`. */
  lemma LeftmostShift(hit: nat -> bool, i: nat, n: nat)
    requires !hit(i)
    ensures forall j :: LeftmostFrom(hit, i + 1, j, n) ==> LeftmostFrom(hit, i, j, n)
  {
  }

  /** `xs[x]` is the first element for which `good` holds. */
  predicate FirstWhere<T>(good: T -> bool, xs: seq<T>, x: int)
  {
    0 <= x < |xs| && good(xs[x]) && forall y :: 0 <= y < x ==> !good(xs[y])
  }

  /** Moving from `xs[1..]` to `xs`: indices shift by one, and the head is
      checked first. */
  lemma FirstWhereShift<T>(good: T -> bool, xs: seq<T>)
    requires xs != []
    ensures (forall x :: 0 <= x < |xs[1..]| ==> !good(xs[1..][x])) && !good(xs[0])
      <==> forall x :: 0 <= x < |xs| ==> !good(xs[x])
    ensures !good(xs[0]) ==> forall x :: FirstWhere(good, xs[1..], x) ==> FirstWhere(good, xs, x + 1)
    ensures good(xs[0]) ==> FirstWhere(good, xs, 0)
  {
    if !good(xs[0]) {
      forall x | FirstWhere(good, xs[1..], x) ensures FirstWhere(good, xs, x + 1) {
        forall y | 0 <= y < x + 1 ensures !good(xs[y]) {
          if y > 0 { assert xs[y] == xs[1..][y - 1]; }
        }
      }
    }
    if forall x :: 0 <= x < |xs| ==> !good(xs[x]) {
      forall x | 0 <= x < |xs[1..]| ensures !good(xs[1..][x]) { assert xs[1..][x] == xs[x + 1]; }
    }
  }

  /** `s.find(c)` for one element. */
  function IndexOf<T(==)>(s: seq<T>, c: T): (r: int)
    ensures r == -1 <==> c !in s
    ensures r != -1 ==> 0 <= r < |s| && s[r] == c && c !in s[..r]
  {
    if s == [] then -1
    else if s[0] == c then 0
    else var k := IndexOf(s[1..], c); if k == -1 then -1 else k + 1
  }

  /** `s.rfind(c)`: the last index holding `c`, or -1. */
  function LastIndexOf<T(==)>(s: seq<T>, c: T): (r: int)
    ensures r == -1 <==> c !in s
    ensures r != -1 ==> 0 <= r < |s| && s[r] == c && c !in s[r + 1..]
  {
    if s == [] then -1
    else if s[|s| - 1] == c then |s| - 1
    else
      var k := LastIndexOf(s[..|s| - 1], c);
      assert s[..|s| - 1][k + 1..] + [s[|s| - 1]] == s[k + 1..] by {
        if k == -1 { } else { }
      }
      k
  }

  /** End of the longest run of `p`-characters starting at `i`. */
  function SpanEnd(t: string, i: nat, p: char -> bool): (e: nat)
    requires i <= |t|
    decreases |t| - i
    ensures i <= e <= |t|
    ensures forall k :: i <= k < e ==> p(t[k])
    ensures e < |t| ==> !p(t[e])
  {
    if i < |t| && p(t[i]) then SpanEnd(t, i + 1, p) else i
  }

  // ---------------------------------------------------------------------
  // Python `str.strip()` and `str.split(sep)`

  /** Start of the run of whitespace that ends at `j`. */
  function SpaceRunStart(s: string, j: nat): (b: nat)
    requires j <= |s|
    ensures b <= j
    ensures forall k :: b <= k < j ==> IsSpace(s[k])
    ensures b > 0 ==> !IsSpace(s[b - 1])
  {
    if j > 0 && IsSpace(s[j - 1]) then SpaceRunStart(s, j - 1) else j
  }

  /** `s.lstrip()`. */
  function StripLeft(s: string): (r: string)
    ensures |r| <= |s| && r == s[|s| - |r|..]
    ensures r != "" ==> !IsSpace(r[0])
    ensures forall k :: 0 <= k < |s| - |r| ==> IsSpace(s[k])
  {
    s[SpanEnd(s, 0, IsSpace)..]
  }

  /** `s.rstrip()`. */
  function StripRight(s: string): (r: string)
    ensures |r| <= |s| && r == s[..|r|]
    ensures r != "" ==> !IsSpace(r[|r| - 1])
    ensures forall k :: |r| <= k < |s| ==> IsSpace(s[k])
  {
    s[..SpaceRunStart(s, |s|)]
  }

  /** `s[i..j]` is what remains of `s` once whitespace-only runs before
      `i` and from `j` on are cut. */
  predicate TrimmedAt(s: string, i: int, j: int)
  {
    0 <= i <= j <= |s|
    && (forall k :: 0 <= k < i ==> IsSpace(s[k]))
    && (forall k :: j <= k < |s| ==> IsSpace(s[k]))
  }

  /** `s.strip()`: the text without leading and trailing whitespace; only
      whitespace is cut, and nothing inside is touched. */
  function Strip(s: string): (r: string)
    ensures r != "" ==> !IsSpace(r[0]) && !IsSpace(r[|r| - 1])
    ensures exists i, j :: TrimmedAt(s, i, j) && r == s[i..j]
    ensures Contains(s, r)
  {
    var l := StripLeft(s);
    var r := StripRight(l);
    var i := |s| - |l|;
    assert s[i..][..|r|] == s[i..i + |r|];
    assert TrimmedAt(s, i, i + |r|) by {
      forall k | i + |r| <= k < |s| ensures IsSpace(s[k]) {
        assert s[k] == l[k - i];
      }
    }
    assert OccursAt(s, r, i);
    r
  }

  /** `s.split(sep)`: never empty, no piece holds `sep`, and the pieces
      joined with `sep` give back `s`. */
  function Split(s: string, sep: char): (parts: seq<string>)
    decreases |s|
    ensures |parts| >= 1
    ensures forall p :: p in parts ==> sep !in p
    ensures Join(parts, sep) == s
  {
    var i := IndexOf(s, sep);
    if i == -1 then [s]
    else
      var rest := Split(s[i + 1..], sep);
      var parts := [s[..i]] + rest;
      assert parts[1..] == rest;
      assert Join(parts, sep) == s[..i] + [sep] + s[i + 1..];
      assert s == s[..i] + [sep] + s[i + 1..];
      parts
  }

  function Join(parts: seq<string>, sep: char): string
  {
    if parts == [] then ""
    else if |parts| == 1 then parts[0]
    else parts[0] + [sep] + Join(parts[1..], sep)
  }

  /** Splitting text without the separator gives the text back whole. */
  lemma SplitWithoutSeparator(a: string, sep: char)
    requires sep !in a
    ensures Split(a, sep) == [a]
  {
  }

  /** Splitting peels off the text before the first separator. */
  lemma SplitAtFirstSeparator(a: string, b: string, sep: char)
    requires sep !in a
    ensures Split(a + [sep] + b, sep) == [a] + Split(b, sep)
  {
    var s := a + [sep] + b;
    assert s[|a|] == sep;
    assert s[..|a|] == a;
    assert s[|a| + 1..] == b;
  }
}
