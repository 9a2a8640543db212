/** Stream-name extraction from RTMP command messages
    (rtmp_capture.py, `parse_rtmp_commands`).

    A frame that mentions `release` in any case is read as a
    `releaseStream` call: the stream name is first looked for in the raw
    bytes after the command name (a scan for a run of name bytes holding a
    query string), then, failing that, with five text patterns over the
    printable text view. A frame that mentions `publish` or `Publish`
    (and not `release`) yields the key after `publish`. Anything else,
    `connect` included, yields nothing. */
module CommandExtraction {
  import opened Common

  datatype CommandKind = ReleaseStream | Publish

  /** One stream record's payload: which command, and the recorded name. */
  datatype Command = Command(kind: CommandKind, streamName: string)

  const StreamPrefix := "stream-"

  // ---------------------------------------------------------------------
  // The name guard shared by both release paths

  /** `re.match(r'^\d+\.\d+\.\d+', s)`: the name opens with a dotted
      version number. Each digit run is followed by a non-digit, so the
      greedy runs are the only candidates. */
  predicate VersionPrefix(s: string)
  {
    var a := SpanEnd(s, 0, IsDigit);
    a > 0 && a < |s| && s[a] == '.' &&
    var b := SpanEnd(s, a + 1, IsDigit);
    b > a + 1 && b < |s| && s[b] == '.' &&
    SpanEnd(s, b + 1, IsDigit) > b + 1
  }

  /** A candidate name is kept only if it is not a version string and does
      not mention `release` in any case. */
  predicate GuardOk(name: string)
  {
    !VersionPrefix(name) && !Contains(Lower(name), "release")
  }

  // ---------------------------------------------------------------------
  // Character classes of the name patterns

  /** `[a-zA-Z0-9_.-]`, the characters before the `?`. */
  predicate NameChar(c: char) { IsAlnum(c) || c == '_' || c == '.' || c == '-' }
  /** `[a-zA-Z0-9_=&.-]`, the characters of the query after the `?`. */
  predicate QueryChar(c: char) { NameChar(c) || c == '=' || c == '&' }
  /** Every character a release-stream name can hold. */
  predicate StreamNameChar(c: char) { QueryChar(c) || c == '?' }
  /** `[a-zA-Z0-9_-]`, the characters of a publish key. */
  predicate KeyChar(c: char) { IsAlnum(c) || c == '_' || c == '-' }
  /** `[\s\x00-\x1f]`, skipped between the command name and its argument. */
  predicate SkipChar(c: char) { IsSpace(c) || c < 32 as char }

  predicate StreamNameText(s: string) { forall k :: 0 <= k < |s| ==> StreamNameChar(s[k]) }
  predicate KeyText(s: string) { forall k :: 0 <= k < |s| ==> KeyChar(s[k]) }

  // ---------------------------------------------------------------------
  // The binary scan after the command name

  /** The bytes the binary scan collects: digits, letters and `-_?=&.`. */
  predicate NameByte(b: byte)
  {
    48 <= b <= 57 || 65 <= b <= 90 || 97 <= b <= 122
    || b == 45 || b == 95 || b == 63 || b == 61 || b == 38 || b == 46
  }

  /** How many start offsets are tried, and how far each one looks. */
  const ScanLimit: nat := 200

  function Starts(after: seq<byte>): nat
  {
    if |after| < ScanLimit then |after| else ScanLimit
  }

  /** The window examined for start offset `i` ends here. */
  function WindowEnd(after: seq<byte>, i: nat): nat
  {
    if i + ScanLimit < |after| then i + ScanLimit else |after|
  }

  /** A finished run is taken when it is long enough, holds `?` and `=`,
      and its ASCII text passes the guard. */
  predicate RunAccepted(run: seq<byte>)
  {
    |run| >= 20 && 63 in run && 61 in run && GuardOk(AsciiString(run))
  }

  /** The inner loop for start offset `i`: `after[s..j]` is the run
      collected so far. A delimiter ends the run, which is then either
      accepted or dropped; the window's end drops the open run. */
  function ScanWindow(after: seq<byte>, i: nat, s: nat, j: nat): (r: Option<string>)
    requires i <= s <= j <= WindowEnd(after, i)
    decreases WindowEnd(after, i) - j
    ensures r.Some? ==> '?' in r.value && '=' in r.value
  {
    if j == WindowEnd(after, i) then None
    else if NameByte(after[j]) then ScanWindow(after, i, s, j + 1)
    else if RunAccepted(after[s..j]) then Some(AsciiString(after[s..j]))
    else ScanWindow(after, i, j + 1, j + 1)
  }

  /** The outer loop: the first start offset whose window yields a name. */
  function ScanStarts(after: seq<byte>, i: nat): (r: Option<string>)
    decreases Starts(after) - i
  {
    if i >= Starts(after) then None
    else match ScanWindow(after, i, i, i)
      case Some(n) => Some(n)
      case None => ScanStarts(after, i + 1)
  }

  /** `after[s..e]` is a run the scan for start offset `i` examines: it
      begins at `i` or just after a delimiter, holds only name bytes, and is
      ended by a delimiter inside the window. */
  ghost predicate ExaminedRun(after: seq<byte>, i: nat, s: int, e: int)
  {
    i <= s <= e < WindowEnd(after, i)
    && (s == i || !NameByte(after[s - 1]))
    && (forall k :: s <= k < e ==> NameByte(after[k]))
    && !NameByte(after[e])
  }

  /** The outer loop of the scan over the bytes after the command name:
      the first start offset whose window yields a name. */
  method ScanAfterRelease(after: seq<byte>) returns (name: Option<string>)
    ensures name == ScanStarts(after, 0)
  {
    var limit := if |after| < ScanLimit then |after| else ScanLimit;
    name := None;
    var i := 0;
    while i < limit
      invariant 0 <= i <= limit == Starts(after)
      invariant ScanStarts(after, 0) == ScanStarts(after, i)
      decreases limit - i
    {
      var found := ScanWindowLoop(after, i);
      if found.Some? && '?' in found.value && '=' in found.value {
        name := found;
        break;
      }
      i := i + 1;
    }
  }

  /** The inner loop for start offset `i`: collects name bytes into
      `potential` and tests each run a delimiter ends. */
  method ScanWindowLoop(after: seq<byte>, i: nat) returns (found: Option<string>)
    requires i <= |after|
    ensures found == ScanWindow(after, i, i, i)
  {
    var stop := if i + ScanLimit < |after| then i + ScanLimit else |after|;
    var potential: seq<byte> := [];
    found := None;
    ghost var s := i;
    var j := i;
    while j < stop
      invariant i <= s <= j <= stop == WindowEnd(after, i)
      invariant potential == after[s..j]
      invariant found == None
      invariant ScanWindow(after, i, i, i) == ScanWindow(after, i, s, j)
      decreases stop - j
    {
      var b := after[j];
      if NameByte(b) {
        potential := potential + [b];
      } else {
        if |potential| >= 20 && 63 in potential && 61 in potential {
          var temp := AsciiString(potential);
          if GuardOk(temp) {
            found := Some(temp);
            return;
          }
        }
        potential := [];
        s := j + 1;
      }
      j := j + 1;
    }
  }

  /** Every name the window scan returns is the text of a run it examined
      and accepted. */
  lemma {:induction false} WindowSound(after: seq<byte>, i: nat, s: nat, j: nat)
    requires i <= s <= j <= WindowEnd(after, i)
    requires s == i || !NameByte(after[s - 1])
    requires forall k :: s <= k < j ==> NameByte(after[k])
    requires ScanWindow(after, i, s, j).Some?
    ensures exists s', e :: s <= s' <= e && j <= e && ExaminedRun(after, i, s', e)
              && RunAccepted(after[s'..e]) && ScanWindow(after, i, s, j).value == AsciiString(after[s'..e])
    decreases WindowEnd(after, i) - j
  {
    var w := WindowEnd(after, i);
    assert j < w;
    if NameByte(after[j]) {
      assert ScanWindow(after, i, s, j) == ScanWindow(after, i, s, j + 1);
      WindowSound(after, i, s, j + 1);
      var s', e :| s <= s' <= e && j + 1 <= e && ExaminedRun(after, i, s', e)
        && RunAccepted(after[s'..e]) && ScanWindow(after, i, s, j + 1).value == AsciiString(after[s'..e]);
    } else if RunAccepted(after[s..j]) {
      assert ScanWindow(after, i, s, j).value == AsciiString(after[s..j]);
      assert ExaminedRun(after, i, s, j);
    } else {
      assert ScanWindow(after, i, s, j) == ScanWindow(after, i, j + 1, j + 1);
      WindowSound(after, i, j + 1, j + 1);
      var s', e :| j + 1 <= s' <= e && j + 1 <= e && ExaminedRun(after, i, s', e)
        && RunAccepted(after[s'..e]) && ScanWindow(after, i, j + 1, j + 1).value == AsciiString(after[s'..e]);
    }
  }

  /** When the window scan finds nothing, no run it could examine from the
      current state on was acceptable. */
  lemma {:induction false} WindowComplete(after: seq<byte>, i: nat, s: nat, j: nat)
    requires i <= s <= j <= WindowEnd(after, i)
    requires s == i || !NameByte(after[s - 1])
    requires forall k :: s <= k < j ==> NameByte(after[k])
    requires ScanWindow(after, i, s, j) == None
    ensures forall s', e :: ExaminedRun(after, i, s', e) && j <= e && (s' == s || j < s')
              ==> !RunAccepted(after[s'..e])
    decreases WindowEnd(after, i) - j
  {
    if j == WindowEnd(after, i) {
    } else if NameByte(after[j]) {
      WindowComplete(after, i, s, j + 1);
      forall s', e | ExaminedRun(after, i, s', e) && j <= e && (s' == s || j < s')
        ensures !RunAccepted(after[s'..e])
      {
        if e == j {
          assert false;
        } else if s' == j + 1 {
          assert false;
        } else {
          assert j + 1 <= e && (s' == s || j + 1 < s');
        }
      }
    } else {
      assert !RunAccepted(after[s..j]);
      WindowComplete(after, i, j + 1, j + 1);
      forall s', e | ExaminedRun(after, i, s', e) && j <= e && (s' == s || j < s')
        ensures !RunAccepted(after[s'..e])
      {
        if e == j {
          assert s' == s;
        } else if s' == s {
          assert false;
        } else {
          assert j + 1 <= e && (s' == j + 1 || j + 1 < s');
        }
      }
    }
  }

  /** Soundness of the scan: a name it returns is the text of a run, found
      for one of the first 200 start offsets, that passed every test. */
  lemma {:induction false} ScanSound(after: seq<byte>, i: nat)
    requires ScanStarts(after, i).Some?
    ensures exists i', s, e :: i <= i' < Starts(after) && ExaminedRun(after, i', s, e)
              && RunAccepted(after[s..e]) && ScanStarts(after, i).value == AsciiString(after[s..e])
    decreases Starts(after) - i
  {
    if ScanWindow(after, i, i, i).Some? {
      WindowSound(after, i, i, i);
    } else {
      ScanSound(after, i + 1);
    }
  }

  /** Completeness of the scan: when it returns nothing, no examined run of
      any of the first 200 start offsets was acceptable. */
  lemma {:induction false} ScanComplete(after: seq<byte>, i: nat)
    requires ScanStarts(after, i) == None
    ensures forall i', s, e :: i <= i' < Starts(after) && ExaminedRun(after, i', s, e)
              ==> !RunAccepted(after[s..e])
    decreases Starts(after) - i
  {
    if i < Starts(after) {
      WindowComplete(after, i, i, i);
      ScanComplete(after, i + 1);
      forall i', s, e | i <= i' < Starts(after) && ExaminedRun(after, i', s, e)
        ensures !RunAccepted(after[s..e])
      {
        if i' == i {
          assert s == i || i < s;
        }
      }
    }
  }

  /** The text of an accepted run of name bytes is made of name
      characters, holds `?` and `=`, is at least 20 characters long and
      passes the guard. */
  lemma RunTextShape(run: seq<byte>)
    requires forall k :: 0 <= k < |run| ==> NameByte(run[k])
    requires RunAccepted(run)
    ensures var n := AsciiString(run);
      |n| >= 20 && '?' in n && '=' in n && GuardOk(n) && StreamNameText(n)
  {
    var n := AsciiString(run);
    assert forall k :: 0 <= k < |run| ==> run[k] < 128;
    assert |n| == |run|;
    var q :| q in run && q == 63;
    var e :| e in run && e == 61;
    forall k | 0 <= k < |n| ensures StreamNameChar(n[k]) {
      assert NameByte(run[k]);
    }
  }

  /** A name the scan accepts is made of name characters, holds `?` and
      `=`, is at least 20 characters long and passes the guard. */
  lemma ScannedNameShape(after: seq<byte>)
    requires ScanStarts(after, 0).Some?
    ensures var n := ScanStarts(after, 0).value;
      |n| >= 20 && '?' in n && '=' in n && GuardOk(n) && StreamNameText(n)
  {
    ScanSound(after, 0);
    var i', s, e :| 0 <= i' < Starts(after) && ExaminedRun(after, i', s, e)
      && RunAccepted(after[s..e]) && ScanStarts(after, 0).value == AsciiString(after[s..e]);
    var run := after[s..e];
    forall k | 0 <= k < |run| ensures NameByte(run[k]) {
      assert run[k] == after[s + k];
    }
    RunTextShape(run);
  }

  // ---------------------------------------------------------------------
  // Locating the bytes after the command name

  const ReleaseStreamBytes: seq<byte> := AsciiBytes("releaseStream")
  const LowerReleaseStreamBytes: seq<byte> := AsciiBytes("releasestream")
  const ReleaseBytes: seq<byte> := AsciiBytes("release")

  /** `t` occurs at `p` and nowhere before: what `find` returns. */
  predicate FirstAt(s: seq<byte>, t: seq<byte>, p: int)
  {
    OccursAt(s, t, p) && forall j :: 0 <= j < p ==> !OccursAt(s, t, j)
  }

  /** Where the command name starts: `releaseStream` exactly, else
      `releasestream` in the lowered bytes, else `release` there; -1 when
      even the short name is missing. */
  function ReleasePosition(raw: seq<byte>): (p: int)
    ensures p == -1 || 0 <= p < |raw|
    ensures Contains(raw, ReleaseStreamBytes) ==> FirstAt(raw, ReleaseStreamBytes, p)
    ensures !Contains(raw, ReleaseStreamBytes) && Contains(LowerBytes(raw), LowerReleaseStreamBytes) ==>
      FirstAt(LowerBytes(raw), LowerReleaseStreamBytes, p)
    ensures !Contains(raw, ReleaseStreamBytes) && !Contains(LowerBytes(raw), LowerReleaseStreamBytes) && p != -1
      ==> FirstAt(LowerBytes(raw), ReleaseBytes, p)
    ensures p == -1 <==> !Contains(LowerBytes(raw), ReleaseBytes)
  {
    var p := Find(raw, ReleaseStreamBytes);
    if p != -1 then
      LongNameHoldsShort(raw, p);
      p
    else
      var q := Find(LowerBytes(raw), LowerReleaseStreamBytes);
      if q != -1 then
        LongNameHoldsShort(raw, q);
        q
      else Find(LowerBytes(raw), ReleaseBytes)
  }

  /** Either spelling of the long name, once lowered, starts with the
      short name. */
  lemma LongNameHoldsShort(raw: seq<byte>, p: int)
    requires OccursAt(raw, ReleaseStreamBytes, p) || OccursAt(LowerBytes(raw), LowerReleaseStreamBytes, p)
    ensures OccursAt(LowerBytes(raw), ReleaseBytes, p)
  {
    var low := LowerBytes(raw);
    forall k | 0 <= k < |ReleaseBytes| ensures low[p + k] == ReleaseBytes[k] {
      if OccursAt(raw, ReleaseStreamBytes, p) {
        assert raw[p + k] == ReleaseStreamBytes[k];
      } else {
        assert low[p + k] == LowerReleaseStreamBytes[k];
      }
    }
    assert low[p..p + |ReleaseBytes|] == ReleaseBytes;
  }

  /** The long name is skipped when it occurs anywhere, the short one
      otherwise. */
  function ReleaseOffset(raw: seq<byte>): nat
  {
    if Contains(raw, ReleaseStreamBytes) || Contains(LowerBytes(raw), LowerReleaseStreamBytes)
    then |ReleaseStreamBytes| else |ReleaseBytes|
  }

  /** `raw_payload[release_pos + offset:]`: the suffix from there, empty
      past the end. */
  function AfterRelease(raw: seq<byte>, pos: nat): (after: seq<byte>)
    ensures pos + ReleaseOffset(raw) <= |raw| ==> after == raw[pos + ReleaseOffset(raw)..]
    ensures pos + ReleaseOffset(raw) > |raw| ==> after == []
  {
    var start := pos + ReleaseOffset(raw);
    if start <= |raw| then raw[start..] else []
  }

  /** The binary path: nothing for an empty payload or one without the
      command name, else the scan of what follows the name. */
  function BinaryStreamName(raw: seq<byte>): (r: Option<string>)
  {
    if raw == [] then None
    else
      var pos := ReleasePosition(raw);
      if pos == -1 then None else ScanStarts(AfterRelease(raw, pos), 0)
  }

  /** The binary path only ever reports a name that passed the scan's
      tests. */
  lemma BinaryNameShape(raw: seq<byte>)
    requires BinaryStreamName(raw).Some?
    ensures var n := BinaryStreamName(raw).value;
      |n| >= 20 && '?' in n && '=' in n && GuardOk(n) && StreamNameText(n)
  {
    ScannedNameShape(AfterRelease(raw, ReleasePosition(raw)));
  }

  /** The offset always matches the name that was found: the 13-byte
      skip is used exactly when the position found holds the long name (in
      either spelling), the 7-byte skip only when it holds `release`, so
      the bytes scanned are exactly those after the name found. */
  lemma {:induction false} OffsetMatchesPosition(raw: seq<byte>)
    requires ReleasePosition(raw) != -1
    ensures ReleaseOffset(raw) == 13 <==>
      (OccursAt(raw, ReleaseStreamBytes, ReleasePosition(raw))
       || OccursAt(LowerBytes(raw), LowerReleaseStreamBytes, ReleasePosition(raw)))
    ensures ReleaseOffset(raw) == 7 ==> OccursAt(LowerBytes(raw), ReleaseBytes, ReleasePosition(raw))
    ensures AfterRelease(raw, ReleasePosition(raw)) == raw[ReleasePosition(raw) + ReleaseOffset(raw)..]
  {
    var p := ReleasePosition(raw);
    if Contains(raw, ReleaseStreamBytes) {
    } else if Contains(LowerBytes(raw), LowerReleaseStreamBytes) {
    } else {
      assert !OccursAt(raw, ReleaseStreamBytes, p);
      assert !OccursAt(LowerBytes(raw), LowerReleaseStreamBytes, p);
    }
  }

  // ---------------------------------------------------------------------
  // The text patterns

  /** The five text patterns, tried in order with `re.IGNORECASE`. The
      first two differ only in case and so match the same text. */
  datatype TextPattern =
    | AfterToken(token: string)   // token, [\s\x00-\x1f]*, optional quote, name?query
    | StreamPrefixed              // stream-, alnum+?query
    | LongQuery                   // name?query with at least ten query characters

  const TextPatterns: seq<TextPattern> :=
    [AfterToken("releasestream"), AfterToken("releasestream"), AfterToken("release"),
     StreamPrefixed, LongQuery]

  /** The group `<head>+\?[a-zA-Z0-9_=&.-]{min,}` starting at `q`, where
      the head characters are alphanumerics only or the full name class. */
  function QueryAt(t: string, q: nat, alnumHead: bool, minQuery: nat): (r: Option<string>)
    requires q <= |t|
    ensures r.Some? ==> '?' in r.value && StreamNameText(r.value)
  {
    var k := if alnumHead then SpanEnd(t, q, IsAlnum) else SpanEnd(t, q, NameChar);
    if k > q && k < |t| && t[k] == '?' then
      var e := SpanEnd(t, k + 1, QueryChar);
      if e > k + 1 && e - (k + 1) >= minQuery then
        var n := t[q..e];
        assert n[k - q] == '?';
        assert StreamNameText(n) by {
          forall x | 0 <= x < |n| ensures StreamNameChar(n[x]) {
            assert n[x] == t[q + x];
          }
        }
        Some(n)
      else None
    else None
  }

  /** Case-insensitive literal at `i`. */
  predicate LiteralAt(t: string, i: nat, lit: string)
  {
    i + |lit| <= |t| && Lower(t[i..i + |lit|]) == lit
  }

  /** Index just past `[\s\x00-\x1f]*["\']?` from `w` on. */
  function SkipToArgument(t: string, w: nat): (q: nat)
    requires w <= |t|
    ensures w <= q <= |t|
  {
    var v := SpanEnd(t, w, SkipChar);
    if v < |t| && (t[v] == '"' || t[v] == '\'') then v + 1 else v
  }

  /** The group of pattern `p` when its match starts at `i`. */
  function TextMatchAt(t: string, i: nat, p: TextPattern): (r: Option<string>)
    requires i <= |t|
    ensures r.Some? ==> '?' in r.value && StreamNameText(r.value)
  {
    match p
    case AfterToken(tok) =>
      if LiteralAt(t, i, tok) then QueryAt(t, SkipToArgument(t, i + |tok|), false, 1) else None
    case StreamPrefixed =>
      if LiteralAt(t, i, StreamPrefix) then QueryAt(t, i + |StreamPrefix|, true, 1) else None
    case LongQuery => QueryAt(t, i, false, 10)
  }

  /** `j` is the leftmost position at or after `i` where `p` matches. */
  predicate FirstTextMatch(t: string, p: TextPattern, i: nat, j: nat)
  {
    LeftmostFrom((k: nat) => k <= |t| && TextMatchAt(t, k, p).Some?, i, j, |t|)
  }

  /** `re.search`: the group of the leftmost match at or after `i`. */
  function Search(t: string, p: TextPattern, i: nat): (r: Option<string>)
    requires i <= |t|
    decreases |t| - i
    ensures r.Some? ==> exists j :: FirstTextMatch(t, p, i, j) && TextMatchAt(t, j, p) == r
    ensures r == None ==> forall j :: i <= j <= |t| ==> TextMatchAt(t, j, p) == None
  {
    match TextMatchAt(t, i, p)
    case Some(n) =>
      assert FirstTextMatch(t, p, i, i);
      Some(n)
    case None =>
      if i == |t| then None
      else
        var r := Search(t, p, i + 1);
        LeftmostShift((k: nat) => k <= |t| && TextMatchAt(t, k, p).Some?, i, |t|);
        r
  }

  /** A text match is kept if it holds `?` and `=` and passes the guard. */
  predicate TextNameOk(n: string)
  {
    '?' in n && '=' in n && GuardOk(n)
  }

  /** Pattern `p`'s search result is kept by the loop. */
  predicate Kept(t: string, p: TextPattern)
  {
    Search(t, p, 0).Some? && TextNameOk(Search(t, p, 0).value)
  }

  /** `ps[x]` is the first pattern whose search result is kept. */
  predicate FirstKept(t: string, ps: seq<TextPattern>, x: int)
  {
    FirstWhere((p: TextPattern) => Kept(t, p), ps, x)
  }

  /** The pattern loop over `ps`: the first kept match, trying the
      patterns in order. */
  function TextFallback(t: string, ps: seq<TextPattern>): (r: Option<string>)
    decreases |ps|
    ensures r.Some? ==> TextNameOk(r.value) && StreamNameText(r.value)
    ensures r.None? <==> forall x :: 0 <= x < |ps| ==> !Kept(t, ps[x])
    ensures r.Some? ==> exists x :: FirstKept(t, ps, x) && r == Search(t, ps[x], 0)
  {
    if ps == [] then None
    else
      var r := match Search(t, ps[0], 0)
        case Some(n) => if TextNameOk(n) then Some(n) else TextFallback(t, ps[1..])
        case None => TextFallback(t, ps[1..]);
      FirstWhereShift((p: TextPattern) => Kept(t, p), ps);
      r
  }

  /** A name the text path reports is the group of the leftmost match of
      the first pattern whose match is kept. */
  lemma FallbackIsMatch(t: string, ps: seq<TextPattern>)
    requires TextFallback(t, ps).Some?
    ensures exists x, j :: FirstKept(t, ps, x) && FirstTextMatch(t, ps[x], 0, j)
              && TextMatchAt(t, j, ps[x]) == TextFallback(t, ps)
  {
    var x :| FirstKept(t, ps, x) && TextFallback(t, ps) == Search(t, ps[x], 0);
    var j :| FirstTextMatch(t, ps[x], 0, j) && TextMatchAt(t, j, ps[x]) == Search(t, ps[x], 0);
  }

  /** The pattern loop, with its `break` on the first kept match. */
  method TextStreamName(t: string) returns (name: Option<string>)
    ensures name == TextFallback(t, TextPatterns)
  {
    name := None;
    var rest := TextPatterns;
    while rest != []
      invariant name == None
      invariant TextFallback(t, TextPatterns) == TextFallback(t, rest)
      decreases |rest|
    {
      var m := Search(t, rest[0], 0);
      FallbackStep(t, rest, m);
      if m.Some? && TextNameOk(m.value) {
        name := m;
        break;
      }
      rest := rest[1..];
    }
  }

  /** One round of the pattern loop. */
  lemma FallbackStep(t: string, ps: seq<TextPattern>, m: Option<string>)
    requires ps != [] && m == Search(t, ps[0], 0)
    ensures TextFallback(t, ps)
      == if m.Some? && TextNameOk(m.value) then m else TextFallback(t, ps[1..])
  {
  }

  // ---------------------------------------------------------------------
  // The publish pattern

  /** The two publish patterns, tried in order with `re.IGNORECASE`. */
  const PublishPatterns: seq<string> := ["publish", "Publish"]

  /** The group `([a-zA-Z0-9_-]+)` of a publish pattern, from `q` on. */
  function KeyAt(t: string, q: nat): (r: Option<string>)
    requires q <= |t|
    ensures r.Some? ==> r.value != "" && KeyText(r.value)
  {
    var e := SpanEnd(t, q, KeyChar);
    if e > q then
      var n := t[q..e];
      assert KeyText(n) by {
        forall x | 0 <= x < |n| ensures KeyChar(n[x]) { assert n[x] == t[q + x]; }
      }
      Some(n)
    else None
  }

  /** `<lit>[\s\x00-\x1f]*["\']?([a-zA-Z0-9_-]+)` at `i`, any case. */
  function PublishMatchAt(t: string, i: nat, lit: string): (r: Option<string>)
    requires i <= |t|
    ensures r.Some? ==> r.value != "" && KeyText(r.value)
  {
    if LiteralAt(t, i, Lower(lit)) then KeyAt(t, SkipToArgument(t, i + |lit|)) else None
  }

  /** `j` is the leftmost position at or after `i` where the pattern for
      `lit` matches. */
  predicate FirstPublishMatch(t: string, lit: string, i: nat, j: nat)
  {
    LeftmostFrom((k: nat) => k <= |t| && PublishMatchAt(t, k, lit).Some?, i, j, |t|)
  }

  /** `re.search` of the publish pattern for `lit` from `i` on. */
  function PublishSearch(t: string, lit: string, i: nat): (r: Option<string>)
    requires i <= |t|
    decreases |t| - i
    ensures r.Some? ==> exists j :: FirstPublishMatch(t, lit, i, j) && PublishMatchAt(t, j, lit) == r
    ensures r == None ==> forall j :: i <= j <= |t| ==> PublishMatchAt(t, j, lit) == None
  {
    match PublishMatchAt(t, i, lit)
    case Some(n) =>
      assert FirstPublishMatch(t, lit, i, i);
      Some(n)
    case None =>
      if i == |t| then None
      else
        var r := PublishSearch(t, lit, i + 1);
        LeftmostShift((k: nat) => k <= |t| && PublishMatchAt(t, k, lit).Some?, i, |t|);
        r
  }

  /** Both literals lower to `publish`. */
  lemma PublishPatternsLower()
    ensures forall x :: 0 <= x < |PublishPatterns| ==> Lower(PublishPatterns[x]) == "publish"
  {
    assert Lower("publish") == "publish";
    assert Lower("Publish") == "publish";
  }

  /** Under `re.IGNORECASE` a publish pattern finds what the lower-case
      one finds, at every start. */
  lemma {:induction false} PublishSearchIgnoresCase(t: string, lit: string, i: nat)
    requires i <= |t| && Lower(lit) == "publish"
    decreases |t| - i
    ensures PublishSearch(t, lit, i) == PublishSearch(t, "publish", i)
  {
    assert Lower("publish") == "publish";
    assert |lit| == |"publish"|;
    assert PublishMatchAt(t, i, lit) == PublishMatchAt(t, i, "publish");
    if i < |t| {
      PublishSearchIgnoresCase(t, lit, i + 1);
    }
  }

  /** The loop over the two publish patterns, keeping the first match;
      since the patterns differ only in case, that is the match of the
      first. */
  method PublishStreamName(t: string) returns (name: Option<string>)
    ensures name == PublishSearch(t, "publish", 0)
  {
    name := None;
    PublishPatternsLower();
    for x := 0 to |PublishPatterns|
      invariant name == None
      invariant x > 0 ==> PublishSearch(t, "publish", 0) == None
    {
      PublishSearchIgnoresCase(t, PublishPatterns[x], 0);
      name := PublishSearch(t, PublishPatterns[x], 0);
      if name.Some? {
        return;
      }
    }
  }

  // ---------------------------------------------------------------------
  // The whole command step

  /** The release test exactly as written: the exact long name, or the
      long or short name in the lowered text. */
  predicate ReleaseMentioned(text: string)
  {
    Contains(text, "releaseStream") || Contains(Lower(text), "releasestream")
    || Contains(Lower(text), "release")
  }

  predicate PublishMentioned(text: string)
  {
    Contains(text, "publish") || Contains(text, "Publish")
  }

  /** The release name: the binary scan when the payload is non-empty and
      the scan finds one, else the text patterns. */
  function ReleaseName(text: string, raw: seq<byte>): (r: Option<string>)
    ensures r.Some? ==> TextNameOk(r.value) && StreamNameText(r.value)
    ensures raw != [] && BinaryStreamName(raw).Some? ==> r == BinaryStreamName(raw)
    ensures raw == [] || BinaryStreamName(raw).None? ==> r == TextFallback(text, TextPatterns)
  {
    var b := if raw != [] then BinaryStreamName(raw) else None;
    if b.Some? then BinaryNameShape(raw); b else TextFallback(text, TextPatterns)
  }

  /** The key the publish branch looks at. */
  function PublishKey(text: string): Option<string>
  {
    PublishSearch(text, "publish", 0)
  }

  /** The record a frame's command yields, if any. */
  function ExtractCommand(text: string, raw: seq<byte>): (r: Option<Command>)
    ensures r.Some? && r.value.kind == ReleaseStream ==>
      ReleaseMentioned(text) && StartsWith(r.value.streamName, StreamPrefix)
      && TextNameOk(r.value.streamName[|StreamPrefix|..])
      && StreamNameText(r.value.streamName[|StreamPrefix|..])
    ensures r.Some? && r.value.kind == Publish ==>
      !ReleaseMentioned(text) && PublishMentioned(text)
      && |r.value.streamName| > 3 && KeyText(r.value.streamName)
    ensures ReleaseMentioned(text) ==>
      (r.Some? <==> ReleaseName(text, raw).Some?)
      && (r.Some? ==> r.value == Command(ReleaseStream, StreamPrefix + ReleaseName(text, raw).value))
    ensures !ReleaseMentioned(text) && PublishMentioned(text) ==>
      (r.Some? <==> PublishKey(text).Some? && |PublishKey(text).value| > 3)
      && (r.Some? ==> r.value == Command(Publish, PublishKey(text).value))
    ensures !ReleaseMentioned(text) && !PublishMentioned(text) ==> r == None
  {
    if ReleaseMentioned(text) then
      var n := ReleaseName(text, raw);
      if n.Some? && '?' in n.value && '=' in n.value then
        var s := StreamPrefix + n.value;
        assert s[|StreamPrefix|..] == n.value;
        Some(Command(ReleaseStream, s))
      else None
    else if PublishMentioned(text) then
      var n := PublishKey(text);
      if n.Some? && |n.value| > 3 then Some(Command(Publish, n.value)) else None
    else None
  }

  /** The three-way release test is the same as looking for `release` in
      the lowered text: the first two alternatives imply the third. */
  lemma ReleaseMentionedIsLowerRelease(text: string)
    ensures ReleaseMentioned(text) <==> Contains(Lower(text), "release")
  {
    if Contains(text, "releaseStream") {
      var i :| 0 <= i <= |text| && OccursAt(text, "releaseStream", i);
      assert Lower(text)[i..i + 7] == "release" by {
        forall k | 0 <= k < 7 ensures Lower(text)[i..i + 7][k] == "release"[k] {
          assert text[i + k] == "releaseStream"[k];
        }
      }
      assert OccursAt(Lower(text), "release", i);
    }
    if Contains(Lower(text), "releasestream") {
      var i :| 0 <= i <= |text| && OccursAt(Lower(text), "releasestream", i);
      assert Lower(text)[i..i + 7] == Lower(text)[i..i + 13][..7];
      assert OccursAt(Lower(text), "release", i);
    }
  }

  /** A frame mentioning `release` never yields a publish record, even if
      it also mentions `publish`. */
  lemma ReleaseShadowsPublish(text: string, raw: seq<byte>)
    requires Contains(Lower(text), "release")
    ensures ExtractCommand(text, raw) == None || ExtractCommand(text, raw).value.kind == ReleaseStream
  {
    ReleaseMentionedIsLowerRelease(text);
  }

  /** A `connect` frame, or any frame with neither command name, yields no
      record. */
  lemma NoCommandNoRecord(text: string, raw: seq<byte>)
    requires !Contains(Lower(text), "release") && !PublishMentioned(text)
    ensures ExtractCommand(text, raw) == None
  {
    ReleaseMentionedIsLowerRelease(text);
  }
}
