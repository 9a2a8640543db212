/** Server-URL extraction from the printable text view of a frame: the two
    case-insensitive URL patterns (one for `rtmp://`, one for `rtmps://`)
    and the chain of rejection filters every match goes through before it
    is recorded (rtmp_capture.py, `packet_handler`).

    The patterns are
      (?<!tc)(?<!sw)<scheme>[a-zA-Z0-9.-]+(?::[0-9]+)?/[a-zA-Z0-9/_-]+(?=\\s|$|["'>\\\\;,])
    Because every repeated class is followed by a character outside it,
    backtracking never rescues a failed attempt: at each start position the
    match, if any, is the one `MatchUrlAt` computes, and `findall` takes
    matches left to right without overlap. */
module UrlExtraction {
  import opened Common

  const RtmpScheme := "rtmp://"
  const RtmpsScheme := "rtmps://"

  predicate HostChar(c: char) { IsAlnum(c) || c == '.' || c == '-' }
  predicate PathChar(c: char) { IsAlnum(c) || c == '/' || c == '_' || c == '-' }
  /** The characters a cleaned URL keeps: `[a-zA-Z0-9:/._-]`. */
  predicate UrlChar(c: char) { IsAlnum(c) || c == ':' || c == '/' || c == '.' || c == '_' || c == '-' }
  /** Text made of URL characters only. */
  predicate UrlText(s: string) { forall k :: 0 <= k < |s| ==> UrlChar(s[k]) }

  /** The look-ahead `(?=\s|$|["'>\\;,])`. */
  predicate EndsUrl(t: string, e: nat)
    requires e <= |t|
  {
    e == |t| || IsSpace(t[e]) || t[e] in "\"'>\\;,"
  }

  /** The negative look-behind `(?<!w)`, compared case-insensitively. */
  predicate NotAfter(t: string, i: nat, w: string)
    requires i <= |t|
  {
    !(|w| <= i && Lower(t[i - |w|..i]) == w)
  }

  /** The end of the match of the pattern for `scheme` that starts at `i`,
      if there is one. */
  function MatchUrlAt(t: string, i: nat, scheme: string): (r: Option<nat>)
    requires i <= |t|
    requires scheme == RtmpScheme || scheme == RtmpsScheme
    ensures r.Some? ==> i + |scheme| < r.value <= |t| && EndsUrl(t, r.value)
    ensures r.Some? ==> Lower(t[i..i + |scheme|]) == scheme
    ensures r.Some? ==> forall k :: i <= k < r.value ==> UrlChar(t[k])
  {
    var n := i + |scheme|;
    if NotAfter(t, i, "tc") && NotAfter(t, i, "sw") && n <= |t| && Lower(t[i..n]) == scheme then
      SchemeIsUrlText(t, i, scheme);
      UrlRestAt(t, n)
    else None
  }

  /** A scheme matched in any case is made of URL characters. */
  lemma SchemeIsUrlText(t: string, i: nat, scheme: string)
    requires scheme == RtmpScheme || scheme == RtmpsScheme
    requires i + |scheme| <= |t| && Lower(t[i..i + |scheme|]) == scheme
    ensures forall k :: i <= k < i + |scheme| ==> UrlChar(t[k])
  {
    forall k | i <= k < i + |scheme| ensures UrlChar(t[k]) {
      assert Lower(t[i..i + |scheme|])[k - i] == LowerChar(t[k]);
    }
  }

  /** The end of `[a-zA-Z0-9.-]+(?::[0-9]+)?/[a-zA-Z0-9/_-]+` followed by
      the look-ahead, starting right after the scheme at `n`. */
  function UrlRestAt(t: string, n: nat): (r: Option<nat>)
    requires n <= |t|
    ensures r.Some? ==> n < r.value <= |t| && EndsUrl(t, r.value)
    ensures r.Some? ==> forall k :: n <= k < r.value ==> UrlChar(t[k])
  {
    var h := SpanEnd(t, n, HostChar);
    var d := if h < |t| && t[h] == ':' then SpanEnd(t, h + 1, IsDigit) else h;
    var q := if d > h + 1 then d else h;
    if h > n && q < |t| && t[q] == '/' then
      var e := SpanEnd(t, q + 1, PathChar);
      if e > q + 1 && EndsUrl(t, e) then Some(e) else None
    else None
  }

  /** `re.findall(pattern, t, re.IGNORECASE)` from position `i` on. */
  function FindAll(t: string, scheme: string, i: nat): (ms: seq<string>)
    requires i <= |t|
    requires scheme == RtmpScheme || scheme == RtmpsScheme
    decreases |t| - i
    ensures forall m :: m in ms ==> |m| > |scheme| && UrlText(m)
  {
    match MatchUrlAt(t, i, scheme)
    case Some(e) =>
      var m := t[i..e];
      assert UrlText(m) by {
        forall k | 0 <= k < |m| ensures UrlChar(m[k]) { assert m[k] == t[i + k]; }
      }
      var rest := FindAll(t, scheme, e);
      assert forall x :: x in [m] + rest ==> x == m || x in rest;
      [m] + rest
    case None => if i == |t| then [] else FindAll(t, scheme, i + 1)
  }

  /** All matches of the two patterns, the `rtmp://` pattern first. */
  function UrlMatches(text: string): seq<string>
  {
    FindAll(text, RtmpScheme, 0) + FindAll(text, RtmpsScheme, 0)
  }

  // ---------------------------------------------------------------------
  // The rejection filters

  /** `re.sub(r'[^a-zA-Z0-9:/._-]', '', s)`: every URL character is kept,
      as often as it occurs, and nothing else. */
  function KeepUrlChars(s: string): (r: string)
    ensures |r| <= |s|
    ensures UrlText(r)
    ensures forall k :: 0 <= k < |s| && UrlChar(s[k]) ==> s[k] in r
    ensures UrlText(s) ==> r == s
  {
    if s == "" then ""
    else
      var rest := KeepUrlChars(s[1..]);
      assert forall k :: 1 <= k < |s| ==> s[k] == s[1..][k - 1];
      assert UrlText(s) ==> UrlText(s[1..]) by {
        if UrlText(s) { forall k | 0 <= k < |s| - 1 ensures UrlChar(s[1..][k]) { assert s[1..][k] == s[k + 1]; } }
      }
      (if UrlChar(s[0]) then [s[0]] else []) + rest
  }

  /** The filter works character by character and keeps the order: a
      URL character stays, any other goes. */
  lemma {:induction false} KeepUrlCharsAppend(a: string, b: string)
    ensures KeepUrlChars(a + b) == KeepUrlChars(a) + KeepUrlChars(b)
    ensures forall c :: KeepUrlChars([c]) == if UrlChar(c) then [c] else []
  {
    if a != [] {
      var ab := a + b;
      var h := if UrlChar(a[0]) then [a[0]] else [];
      assert ab[0] == a[0] && ab[1..] == a[1..] + b;
      assert KeepUrlChars(ab) == h + KeepUrlChars(ab[1..]);
      assert KeepUrlChars(a) == h + KeepUrlChars(a[1..]);
      KeepUrlCharsAppend(a[1..], b);
      ConcatAssoc(h, KeepUrlChars(a[1..]), KeepUrlChars(b));
    } else {
      assert a + b == b;
    }
    forall c ensures KeepUrlChars([c]) == if UrlChar(c) then [c] else [] {
      assert [c][1..] == [];
    }
  }

  /** `match.strip()` followed by the character filter. */
  function CleanUrl(m: string): string
  {
    KeepUrlChars(Strip(m))
  }

  /** The parameter names a URL must not mention, in any case. */
  predicate MentionsParameter(u: string)
  {
    Contains(Lower(u), "tcurl") || Contains(Lower(u), "swfurl") || Contains(Lower(u), "pageurl")
  }

  /** `re.match(r'^[a-zA-Z0-9.-]+$', d)` and at least five characters. */
  predicate DomainShaped(d: string)
  {
    |d| >= 5 && forall i :: 0 <= i < |d| ==> HostChar(d[i])
  }

  /** The filter chain applied to one match: the cleaned URL if it
      survives every rejection. */
  function AcceptUrl(m: string): (r: Option<string>)
    ensures r.Some? ==> r.value == CleanUrl(m)
  {
    AcceptClean(CleanUrl(m))
  }

  /** The rejections applied to a cleaned match, in the order the source
      applies them. */
  function AcceptClean(clean: string): (r: Option<string>)
    ensures r.Some? ==> r.value == clean
    ensures r.Some? ==> |clean| >= 20 && !MentionsParameter(clean)
    ensures r.Some? ==> StartsWith(clean, RtmpScheme) || StartsWith(clean, RtmpsScheme)
    ensures r.Some? ==> |Split(clean, '/')| >= 4 && DomainShaped(Split(clean, '/')[2])
    ensures r.Some? ==> ':' !in Split(clean, '/')[2]
  {
    if MentionsParameter(clean) then None
    else if clean == "" || |clean| < 20 then None
    else if !(StartsWith(clean, RtmpScheme) || StartsWith(clean, RtmpsScheme)) then None
    else if !WellSplit(Split(clean, '/')) then None
    else Some(clean)
  }

  /** At least four `/`-separated pieces, the third of domain shape (which
      rules out a `:`). */
  predicate WellSplit(parts: seq<string>)
    ensures WellSplit(parts) ==> |parts| >= 4 && ':' !in parts[2]
  {
    |parts| >= 4 && DomainShaped(parts[2])
  }

  /** A URL the filter chain passes through unchanged: the condition every
      recorded URL meets. */
  predicate Accepted(u: string)
  {
    AcceptUrl(u) == Some(u)
  }

  /** Every URL the filter lets through meets all of the source's
      acceptance conditions at once. */
  lemma AcceptedUrlShape(m: string)
    requires AcceptUrl(m).Some?
    ensures var u := AcceptUrl(m).value;
      UrlText(u) && |u| >= 20 && !MentionsParameter(u)
      && (StartsWith(u, RtmpScheme) || StartsWith(u, RtmpsScheme))
      && |Split(u, '/')| >= 4 && DomainShaped(Split(u, '/')[2])
  {
  }

  /** The URLs of a text view that survive the filters, in match order
      (possibly with repetitions): exactly the matches the rejections let
      through, each as it was matched. */
  function AcceptedUrls(text: string): (us: seq<string>)
    ensures forall u :: u in us ==> AcceptUrl(u) == Some(u)
    ensures forall u :: u in us ==> u in UrlMatches(text) && AcceptClean(u) == Some(u)
    ensures forall m :: m in UrlMatches(text) && AcceptClean(m).Some? ==> m in us
  {
    AllMatchesClean(text);
    AcceptAll(UrlMatches(text))
  }

  /** A filter applied to each match in turn, keeping the survivors in
      order. */
  function Survivors(f: string -> Option<string>, ms: seq<string>): (us: seq<string>)
    ensures |us| <= |ms|
  {
    if ms == [] then []
    else Survivors(f, ms[..|ms| - 1]) + (if f(ms[|ms| - 1]).Some? then [f(ms[|ms| - 1]).value] else [])
  }

  /** Every survivor is listed, and everything listed is one. */
  lemma {:induction false} SurvivorsMembers(f: string -> Option<string>, ms: seq<string>)
    ensures forall m :: m in ms && f(m).Some? ==> f(m).value in Survivors(f, ms)
    ensures forall u :: u in Survivors(f, ms) ==> exists m :: m in ms && f(m) == Some(u)
  {
    if ms != [] {
      var init := ms[..|ms| - 1];
      var last := ms[|ms| - 1];
      assert ms == init + [last];
      SurvivorsMembers(f, init);
    }
  }

  /** The survivors of a list are those of its parts, in order, and a
      single match survives as its filtered value or not at all. */
  lemma {:induction false} SurvivorsAppend(f: string -> Option<string>, a: seq<string>, b: seq<string>)
    decreases |b|
    ensures Survivors(f, a + b) == Survivors(f, a) + Survivors(f, b)
    ensures forall m :: Survivors(f, [m]) == if f(m).Some? then [f(m).value] else []
  {
    if b != [] {
      var ab := a + b;
      var init := b[..|b| - 1];
      var last := b[|b| - 1];
      var t := if f(last).Some? then [f(last).value] else [];
      assert ab[..|ab| - 1] == a + init && ab[|ab| - 1] == last;
      assert Survivors(f, ab) == Survivors(f, a + init) + t;
      assert Survivors(f, b) == Survivors(f, init) + t;
      SurvivorsAppend(f, a, init);
      ConcatAssoc(Survivors(f, a), Survivors(f, init), t);
    } else {
      assert a + b == a;
    }
    forall m ensures Survivors(f, [m]) == if f(m).Some? then [f(m).value] else [] {
      assert [m][..0] == [];
    }
  }

  /** The URL filter applied to each match: every match the filter
      accepts is listed, as its cleaned form, and everything listed is
      such a URL, itself accepted unchanged. */
  function AcceptAll(ms: seq<string>): (us: seq<string>)
    ensures |us| <= |ms|
    ensures forall m :: m in ms && AcceptUrl(m).Some? ==> AcceptUrl(m).value in us
    ensures forall u :: u in us ==> exists m :: m in ms && AcceptUrl(m) == Some(u)
    ensures forall u :: u in us ==> AcceptUrl(u) == Some(u)
  {
    var us := Survivors(AcceptUrl, ms);
    SurvivorsMembers(AcceptUrl, ms);
    assert forall u :: u in us ==> AcceptUrl(u) == Some(u) by {
      forall u | u in us ensures AcceptUrl(u) == Some(u) {
        var m :| m in ms && AcceptUrl(m) == Some(u);
        AcceptIdempotent(m);
      }
    }
    us
  }

  /** Filtering keeps the order of the matches: it runs on each part of a
      list separately, one match at a time. */
  lemma AcceptAllAppend(a: seq<string>, b: seq<string>)
    ensures AcceptAll(a + b) == AcceptAll(a) + AcceptAll(b)
    ensures forall m :: AcceptAll([m]) == if AcceptUrl(m).Some? then [AcceptUrl(m).value] else []
  {
    SurvivorsAppend(AcceptUrl, a, b);
  }

  // ---------------------------------------------------------------------
  // Properties

  /** Text made only of URL characters, which are never whitespace, is
      left as it is by the cleaning step. */
  lemma CleanFixesUrlText(u: string)
    requires UrlText(u)
    ensures CleanUrl(u) == u
  {
    if u != "" {
      assert UrlChar(u[0]) && UrlChar(u[|u| - 1]);
      assert !IsSpace(u[0]) && !IsSpace(u[|u| - 1]);
      assert SpanEnd(u, 0, IsSpace) == 0;
      assert StripLeft(u) == u;
      assert SpaceRunStart(u, |u|) == |u|;
      assert StripRight(u) == u;
    }
  }

  /** An accepted URL is accepted again, unchanged: the recorded URLs are
      exactly the fixed points of the filter chain. */
  lemma AcceptIdempotent(m: string)
    requires AcceptUrl(m).Some?
    ensures AcceptUrl(AcceptUrl(m).value) == AcceptUrl(m)
  {
    var u := AcceptUrl(m).value;
    assert u == CleanUrl(m);
    assert UrlText(u);
    CleanFixesUrlText(u);
    assert AcceptUrl(u) == AcceptClean(u);
  }

  /** A match of either pattern is already clean, so only the length,
      scheme, parameter-name and domain checks can reject it. */
  lemma MatchesAreClean(text: string, m: string)
    requires m in UrlMatches(text)
    ensures CleanUrl(m) == m
  {
    assert m in FindAll(text, RtmpScheme, 0) || m in FindAll(text, RtmpsScheme, 0);
    CleanFixesUrlText(m);
  }

  /** Every match of either pattern is already clean. */
  lemma AllMatchesClean(text: string)
    ensures forall m :: m in UrlMatches(text) ==> CleanUrl(m) == m
  {
    forall m | m in UrlMatches(text) ensures CleanUrl(m) == m {
      MatchesAreClean(text, m);
    }
  }

  /** The third `/`-separated piece of `scheme host/rest` is the host. */
  lemma ThirdPieceIsHost(scheme: string, hostPort: string, rest: string)
    requires scheme == RtmpScheme || scheme == RtmpsScheme
    requires '/' !in hostPort
    ensures var parts := Split(scheme + hostPort + "/" + rest, '/');
      |parts| >= 3 && parts[2] == hostPort
  {
    var head := if scheme == RtmpScheme then "rtmp:" else "rtmps:";
    var tail := hostPort + ['/'] + rest;
    assert scheme == head + ['/'] + ([] + ['/']);
    assert scheme + hostPort + "/" + rest == head + ['/'] + ([] + ['/'] + tail);
    SplitAtFirstSeparator(head, [] + ['/'] + tail, '/');
    SplitAtFirstSeparator([], tail, '/');
    SplitAtFirstSeparator(hostPort, rest, '/');
  }

  /** A URL whose host carries an explicit `:port` never survives: the
      third `/`-separated piece is then `host:port`, which fails the
      domain shape check. */
  lemma ExplicitPortRejected(m: string, scheme: string, hostPort: string, rest: string)
    requires scheme == RtmpScheme || scheme == RtmpsScheme
    requires CleanUrl(m) == scheme + hostPort + "/" + rest
    requires '/' !in hostPort && ':' in hostPort
    ensures AcceptUrl(m) == None
  {
    ThirdPieceIsHost(scheme, hostPort, rest);
    assert !WellSplit(Split(CleanUrl(m), '/'));
  }
}
