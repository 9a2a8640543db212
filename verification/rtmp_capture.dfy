/** The capture object of rtmp_capture.py (`RTMPCapture`): its four
    collections, the per-frame handler with its duplicate-frame check, the
    command step, the on/off switch and the data snapshot.

    The sniffer that delivers frames is not modelled; a frame arrives as a
    `Packet` value. */
module Capture {
  import opened Common
  import opened UrlExtraction
  import opened CommandExtraction

  /** The IP/TCP fields of a frame with a payload layer, and the length of
      the whole frame. */
  datatype Frame = Frame(src: string, sport: nat, dst: string, dport: nat,
                         payload: seq<byte>, size: nat)

  /** A frame handed to the handler: either one with IP, TCP and payload
      layers, or anything else. */
  datatype Packet = TcpData(frame: Frame) | Other

  /** The handler's duplicate key `src:sport-dst:dport-len(payload)`. The
      text is kept as its parts, which the dotted addresses and decimal
      ports determine and are determined by. */
  datatype Fingerprint = Fingerprint(src: string, sport: nat, dst: string, dport: nat, payloadLength: nat)

  function FingerprintOf(f: Frame): Fingerprint
  {
    Fingerprint(f.src, f.sport, f.dst, f.dport, |f.payload|)
  }

  /** One `captured_packets` entry (the wall-clock timestamp is left out). */
  datatype UrlRecord = UrlRecord(srcIp: string, dstIp: string, srcPort: nat, dstPort: nat,
                                 rtmpUrl: string, packetSize: nat)

  /** One `rtmp_streams` entry (the wall-clock timestamp is left out). */
  datatype StreamRecord = StreamRecord(srcIp: string, dstIp: string, srcPort: nat, dstPort: nat,
                                       command: CommandKind, streamName: string, packetSize: nat)

  function UrlRecordOf(f: Frame, u: string): UrlRecord
  {
    UrlRecord(f.src, f.dst, f.sport, f.dport, u, f.size)
  }

  function StreamRecordOf(f: Frame, c: Command): StreamRecord
  {
    StreamRecord(f.src, f.dst, f.sport, f.dport, c.kind, c.streamName, f.size)
  }

  // ---------------------------------------------------------------------
  // The text view of a payload

  /** The characters the handler keeps: codes 32..126, newline, carriage
      return and tab. */
  predicate Printable(c: char)
  {
    32 <= c as int <= 126 || c == '\n' || c == '\r' || c == '\t'
  }

  /** `decode('utf-8', errors='replace')` as far as the printable filter can
      see: an ASCII byte decodes to its own character and is never absorbed
      into a neighbouring sequence; every other byte ends up as a character
      above 127 (a decoded letter or U+FFFD), which the filter drops. */
  function Decode(payload: seq<byte>): (s: string)
    ensures |s| == |payload|
    ensures forall i :: 0 <= i < |payload| ==>
      (payload[i] < 128 ==> s[i] == payload[i] as int as char) && (payload[i] >= 128 ==> s[i] as int > 127)
  {
    seq(|payload|, i requires 0 <= i < |payload| =>
      if payload[i] < 128 then payload[i] as int as char else '\U{FFFD}')
  }

  /** The filter `''.join(c for c in s if printable)`: every printable
      character is kept and nothing else. */
  function PrintableOnly(s: string): (r: string)
    ensures |r| <= |s|
    ensures forall k :: 0 <= k < |r| ==> Printable(r[k])
    ensures forall k :: 0 <= k < |s| && Printable(s[k]) ==> s[k] in r
    ensures (forall k :: 0 <= k < |s| ==> Printable(s[k])) ==> r == s
  {
    if s == "" then ""
    else
      var rest := PrintableOnly(s[1..]);
      assert forall k :: 1 <= k < |s| ==> s[k] == s[1..][k - 1];
      if Printable(s[0]) then [s[0]] + rest else rest
  }

  /** The filter works character by character and keeps the order. */
  lemma {:induction false} PrintableOnlyAppend(a: string, b: string)
    ensures PrintableOnly(a + b) == PrintableOnly(a) + PrintableOnly(b)
    ensures forall c :: PrintableOnly([c]) == if Printable(c) then [c] else []
  {
    if a != [] {
      var ab := a + b;
      var h := if Printable(a[0]) then [a[0]] else [];
      assert ab[0] == a[0] && ab[1..] == a[1..] + b;
      assert PrintableOnly(ab) == h + PrintableOnly(ab[1..]);
      assert PrintableOnly(a) == h + PrintableOnly(a[1..]);
      PrintableOnlyAppend(a[1..], b);
      ConcatAssoc(h, PrintableOnly(a[1..]), PrintableOnly(b));
    } else {
      assert a + b == b;
    }
    forall c ensures PrintableOnly([c]) == if Printable(c) then [c] else [] {
      assert [c][1..] == [];
    }
  }

  /** The text every URL and command pattern is run over. */
  function TextView(payload: seq<byte>): string
  {
    PrintableOnly(Decode(payload))
  }

  /** The text view holds only printable ASCII, newline, carriage return
      and tab, and filtering it again changes nothing. */
  lemma TextViewPrintable(payload: seq<byte>)
    ensures forall k :: 0 <= k < |TextView(payload)| ==> Printable(TextView(payload)[k])
    ensures PrintableOnly(TextView(payload)) == TextView(payload)
  {
  }

  /** A payload of printable ASCII bytes is its own text view. */
  lemma {:induction false} PrintablePayloadKept(payload: seq<byte>)
    requires forall i :: 0 <= i < |payload| ==> Printable(payload[i] as int as char)
    ensures TextView(payload) == Decode(payload)
    ensures forall i :: 0 <= i < |payload| ==> TextView(payload)[i] == payload[i] as int as char
  {
    var s := Decode(payload);
    forall k | 0 <= k < |s| ensures Printable(s[k]) {
      assert Printable(payload[k] as int as char);
    }
  }

  // ---------------------------------------------------------------------
  // Recording new URLs

  /** The accepted URLs of one frame that are not yet known, first
      occurrences only, in match order. */
  function NewUrls(seen: set<string>, cands: seq<string>): (r: seq<string>)
    ensures forall u :: u in r ==> u !in seen && u in cands
    ensures forall u :: u in cands ==> u in seen || u in r
    ensures Distinct(r)
  {
    if cands == [] then []
    else
      var init := cands[..|cands| - 1];
      var x := cands[|cands| - 1];
      var r := NewUrls(seen, init);
      assert forall u :: u in cands ==> u in init || u == x;
      if x in seen || x in r then r else r + [x]
  }

  predicate Distinct(s: seq<string>)
  {
    forall i, j :: 0 <= i < j < |s| ==> s[i] != s[j]
  }

  /** The URLs of a list of records, as a set. */
  function UrlsOf(ps: seq<UrlRecord>): (r: set<string>)
    ensures forall i :: 0 <= i < |ps| ==> ps[i].rtmpUrl in r
    ensures forall u :: u in r ==> exists i :: 0 <= i < |ps| && ps[i].rtmpUrl == u
  {
    if ps == [] then {}
    else UrlsOf(ps[..|ps| - 1]) + {ps[|ps| - 1].rtmpUrl}
  }

  /** Records whose URLs are pairwise different. */
  predicate DistinctUrls(ps: seq<UrlRecord>)
  {
    forall i, j :: 0 <= i < j < |ps| ==> ps[i].rtmpUrl != ps[j].rtmpUrl
  }

  /** With pairwise different URLs there are exactly as many URLs as
      records. */
  lemma {:induction false} DistinctUrlsCount(ps: seq<UrlRecord>)
    requires DistinctUrls(ps)
    ensures |UrlsOf(ps)| == |ps|
  {
    if ps != [] {
      var init := ps[..|ps| - 1];
      assert DistinctUrls(init);
      DistinctUrlsCount(init);
      assert ps[|ps| - 1].rtmpUrl !in UrlsOf(init);
    }
  }

  /** What a well-formed stream record looks like: release names carry
      the `stream-` prefix before a query-shaped name that passed the guard;
      publish keys are longer than three key characters. */
  predicate WellFormedStream(r: StreamRecord)
  {
    match r.command
    case ReleaseStream =>
      StartsWith(r.streamName, StreamPrefix) && TextNameOk(r.streamName[|StreamPrefix|..])
      && StreamNameText(r.streamName[|StreamPrefix|..])
    case Publish => |r.streamName| > 3 && KeyText(r.streamName)
  }

  /** The records one frame's command step appends. */
  function CommandRecords(f: Frame, c: Option<Command>): (rs: seq<StreamRecord>)
    ensures |rs| <= 1
  {
    match c
    case Some(cmd) => [StreamRecordOf(f, cmd)]
    case None => []
  }

  /** The records the URL step of one frame appends. */
  function UrlRecords(f: Frame, us: seq<string>): (rs: seq<UrlRecord>)
    ensures |rs| == |us|
    ensures forall i :: 0 <= i < |us| ==> rs[i] == UrlRecordOf(f, us[i])
  {
    if us == [] then [] else UrlRecords(f, us[..|us| - 1]) + [UrlRecordOf(f, us[|us| - 1])]
  }

  /** Every URL of the set passes the filter chain unchanged. */
  predicate AllAccepted(urls: set<string>)
  {
    forall u {:trigger Accepted(u)} :: u in urls ==> Accepted(u)
  }

  /** The stream record at `i` is well formed. */
  predicate WellFormedAt(streams: seq<StreamRecord>, i: int)
  {
    0 <= i < |streams| && WellFormedStream(streams[i])
  }

  predicate AllWellFormed(streams: seq<StreamRecord>)
  {
    forall i :: 0 <= i < |streams| ==> WellFormedAt(streams, i)
  }

  /** The shape the capture's result collections always have: every URL
      is recorded exactly once in the packet list and in the URL set, and
      every stream record is well formed. */
  predicate Structural(ps: seq<UrlRecord>, urls: set<string>, streams: seq<StreamRecord>)
  {
    UrlsOf(ps) == urls && DistinctUrls(ps) && AllWellFormed(streams)
  }

  /** The capture's invariant: the shape above, and every URL is a fixed
      point of the filter chain. */
  predicate Consistent(ps: seq<UrlRecord>, urls: set<string>, streams: seq<StreamRecord>)
  {
    Structural(ps, urls, streams) && AllAccepted(urls)
  }

  /** In consistent collections every known URL passes the filter chain
      unchanged, every stream record is well formed, and there are as many
      URL records as URLs. */
  lemma ConsistentMeaning(ps: seq<UrlRecord>, urls: set<string>, streams: seq<StreamRecord>)
    requires Consistent(ps, urls, streams)
    ensures forall u :: u in urls ==> AcceptUrl(u) == Some(u)
    ensures forall i :: 0 <= i < |streams| ==> WellFormedStream(streams[i])
    ensures |ps| == |urls|
  {
    forall u | u in urls ensures AcceptUrl(u) == Some(u) {
      assert Accepted(u);
    }
    forall i | 0 <= i < |streams| ensures WellFormedStream(streams[i]) {
      assert WellFormedAt(streams, i);
    }
    DistinctUrlsCount(ps);
  }

  /** Recording a URL not yet known keeps the shape. */
  lemma RecordKeepsStructural(ps: seq<UrlRecord>, urls: set<string>, streams: seq<StreamRecord>, r: UrlRecord)
    requires Structural(ps, urls, streams) && r.rtmpUrl !in urls
    ensures Structural(ps + [r], urls + {r.rtmpUrl}, streams)
  {
    assert (ps + [r])[..|ps|] == ps;
    var ps' := ps + [r];
    forall i, j | 0 <= i < j < |ps'| ensures ps'[i].rtmpUrl != ps'[j].rtmpUrl {
      assert ps'[i] == ps[i];
      if j < |ps'| - 1 {
        assert ps'[j] == ps[j];
      }
    }
  }

  /** Appending a well-formed stream record keeps the shape. */
  lemma StreamKeepsStructural(ps: seq<UrlRecord>, urls: set<string>, streams: seq<StreamRecord>, r: StreamRecord)
    requires Structural(ps, urls, streams) && WellFormedStream(r)
    ensures Structural(ps, urls, streams + [r])
  {
    var streams' := streams + [r];
    forall i | 0 <= i < |streams'| ensures WellFormedAt(streams', i) {
      if i < |streams| {
        assert WellFormedAt(streams, i) && streams'[i] == streams[i];
      }
    }
  }

  /** Adding the new URLs of a list of accepted URLs keeps every known URL
      accepted. */
  lemma NewUrlsKeepAccepted(seen: set<string>, cands: seq<string>)
    requires AllAccepted(seen)
    requires forall u :: u in cands ==> AcceptUrl(u) == Some(u)
    ensures AllAccepted(seen + (set u | u in NewUrls(seen, cands)))
  {
    forall u | u in seen + (set u | u in NewUrls(seen, cands)) ensures Accepted(u) {
      if u !in seen {
        assert u in cands;
      }
    }
  }

  /** One more candidate: it is new exactly when neither known before nor
      already among the new ones. */
  lemma NewUrlsSnoc(seen: set<string>, cands: seq<string>, x: string)
    ensures NewUrls(seen, cands + [x])
      == if x in seen || x in NewUrls(seen, cands) then NewUrls(seen, cands) else NewUrls(seen, cands) + [x]
  {
    assert (cands + [x])[..|cands|] == cands;
  }

  /** One round of the recording loop: the next accepted URL is new
      exactly when it is not yet in the running URL set. */
  lemma NewUrlsStep(seen: set<string>, accepted: seq<string>, k: nat, added: seq<string>, urls: set<string>)
    requires k < |accepted|
    requires added == NewUrls(seen, accepted[..k]) && urls == seen + (set u | u in added)
    ensures NewUrls(seen, accepted[..k + 1])
      == if accepted[k] in urls then added else added + [accepted[k]]
  {
    assert accepted[..k + 1] == accepted[..k] + [accepted[k]];
    NewUrlsSnoc(seen, accepted[..k], accepted[k]);
  }

  lemma UrlRecordsSnoc(f: Frame, us: seq<string>, u: string)
    ensures UrlRecords(f, us + [u]) == UrlRecords(f, us) + [UrlRecordOf(f, u)]
  {
    assert (us + [u])[..|us|] == us;
  }

  /** One recorded URL extends both running results by exactly that URL. */
  lemma RecordStep(f: Frame, packets0: seq<UrlRecord>, seen0: set<string>, added: seq<string>,
                   u: string, ps: seq<UrlRecord>, urls: set<string>)
    requires ps == packets0 + UrlRecords(f, added)
    requires urls == seen0 + (set v | v in added)
    ensures ps + [UrlRecordOf(f, u)] == packets0 + UrlRecords(f, added + [u])
    ensures urls + {u} == seen0 + (set v | v in added + [u])
  {
    UrlRecordsSnoc(f, added, u);
    assert (set v | v in added + [u]) == (set v | v in added) + {u};
  }

  /** Without its last element a list of pairwise different URLs stays
      so, and does not hold that element. */
  lemma DistinctSnoc(s: seq<string>)
    requires Distinct(s) && s != []
    ensures Distinct(s[..|s| - 1]) && s[|s| - 1] !in s[..|s| - 1]
  {
    var init := s[..|s| - 1];
    forall i, j | 0 <= i < j < |init| ensures init[i] != init[j] {
      assert init[i] == s[i] && init[j] == s[j];
    }
  }

  /** Recording a list of new, pairwise different URLs keeps the shape. */
  lemma {:induction false} NewRecordsKeepStructural(ps: seq<UrlRecord>, urls: set<string>,
                                                   streams: seq<StreamRecord>, f: Frame, added: seq<string>)
    requires Structural(ps, urls, streams)
    requires Distinct(added) && forall u :: u in added ==> u !in urls
    ensures Structural(ps + UrlRecords(f, added), urls + (set u | u in added), streams)
    decreases |added|
  {
    if added != [] {
      var init := added[..|added| - 1];
      var x := added[|added| - 1];
      DistinctSnoc(added);
      NewRecordsKeepStructural(ps, urls, streams, f, init);
      RecordStep(f, ps, urls, init, x, ps + UrlRecords(f, init), urls + (set u | u in init));
      assert added == init + [x];
      RecordKeepsStructural(ps + UrlRecords(f, init), urls + (set u | u in init), streams, UrlRecordOf(f, x));
    } else {
      assert ps + UrlRecords(f, added) == ps;
      assert urls + (set u | u in added) == urls;
    }
  }

  /** The per-match loop of the handler on the URL set `seen` and the
      packet list `packets`: each accepted URL not yet known is added to
      the set and gets one packet record, in match order. */
  method CollectNewUrls(f: Frame, seen: set<string>, packets: seq<UrlRecord>, accepted: seq<string>)
    returns (urls: set<string>, packets': seq<UrlRecord>)
    ensures urls == seen + (set u | u in NewUrls(seen, accepted))
    ensures packets' == packets + UrlRecords(f, NewUrls(seen, accepted))
  {
    urls := seen;
    packets' := packets;
    ghost var added: seq<string> := [];
    var k := 0;
    assert accepted[..0] == [] && (set u | u in added) == {};
    while k < |accepted|
      invariant 0 <= k <= |accepted|
      invariant added == NewUrls(seen, accepted[..k])
      invariant urls == seen + (set u | u in added)
      invariant packets' == packets + UrlRecords(f, added)
      decreases |accepted| - k
    {
      var u := accepted[k];
      NewUrlsStep(seen, accepted, k, added, urls);
      if u !in urls {
        RecordStep(f, packets, seen, added, u, packets', urls);
        urls := urls + {u};
        packets' := packets' + [UrlRecordOf(f, u)];
        added := added + [u];
      }
      k := k + 1;
    }
    assert accepted[..|accepted|] == accepted;
  }

  /** `list(s)`: the elements of a set, each once, in some order. */
  method ListSet(s: set<string>) returns (listed: seq<string>)
    ensures Distinct(listed) && (set u | u in listed) == s && |listed| == |s|
  {
    var rest := s;
    listed := [];
    while rest != {}
      invariant rest <= s
      invariant Distinct(listed)
      invariant (set u | u in listed) + rest == s
      invariant forall u :: u in listed ==> u !in rest
      invariant |listed| + |rest| == |s|
      decreases |rest|
    {
      var u :| u in rest;
      listed := listed + [u];
      rest := rest - {u};
    }
  }

  /** The data `get_captured_data` hands out. */
  datatype CapturedData = CapturedData(
    packets: seq<UrlRecord>, rtmpUrls: seq<string>, rtmpStreams: seq<StreamRecord>,
    totalPackets: nat, uniqueUrls: nat, totalStreams: nat)

  class RtmpCapture {
    var isCapturing: bool
    var capturedPackets: seq<UrlRecord>
    var rtmpUrls: set<string>
    var rtmpStreams: seq<StreamRecord>
    var processedPackets: set<Fingerprint>

    /** The object's invariant, `Consistent` of its three result
        collections. */
    predicate Valid()
      reads this
    {
      Consistent(capturedPackets, rtmpUrls, rtmpStreams)
    }

    predicate Shaped()
      reads this
    {
      Structural(capturedPackets, rtmpUrls, rtmpStreams)
    }

    constructor ()
      ensures Valid()
      ensures !isCapturing && capturedPackets == [] && rtmpUrls == {}
      ensures rtmpStreams == [] && processedPackets == {}
    {
      isCapturing := false;
      capturedPackets := [];
      rtmpUrls := {};
      rtmpStreams := [];
      processedPackets := {};
    }

    /** There are exactly as many URL records as known URLs. */
    lemma PacketsMatchUrls()
      requires Valid()
      ensures |capturedPackets| == |rtmpUrls|
      ensures forall u :: u in rtmpUrls ==> AcceptUrl(u) == Some(u)
      ensures forall i :: 0 <= i < |rtmpStreams| ==> WellFormedStream(rtmpStreams[i])
    {
      ConsistentMeaning(capturedPackets, rtmpUrls, rtmpStreams);
    }

    /** `packet_handler`: a frame without the three layers, or one whose
        fingerprint was seen before, changes nothing. Otherwise the
        fingerprint is remembered, the command step runs, and the accepted
        URLs not yet known are recorded once each, in match order. */
    method PacketHandler(p: Packet)
      requires Valid()
      modifies this
      ensures Valid()
      ensures p.Other? || FingerprintOf(p.frame) in old(processedPackets) ==>
        processedPackets == old(processedPackets) && rtmpStreams == old(rtmpStreams)
        && rtmpUrls == old(rtmpUrls) && capturedPackets == old(capturedPackets)
      ensures p.TcpData? && FingerprintOf(p.frame) !in old(processedPackets) ==>
        var f := p.frame;
        var text := TextView(f.payload);
        var added := NewUrls(old(rtmpUrls), AcceptedUrls(text));
        processedPackets == old(processedPackets) + {FingerprintOf(f)}
        && rtmpStreams == old(rtmpStreams) + CommandRecords(f, ExtractCommand(text, f.payload))
        && rtmpUrls == old(rtmpUrls) + (set u | u in added)
        && capturedPackets == old(capturedPackets) + UrlRecords(f, added)
      ensures isCapturing == old(isCapturing)
    {
      if p.Other? {
        return;
      }
      var f := p.frame;
      var id := FingerprintOf(f);
      if id in processedPackets {
        return;
      }
      processedPackets := processedPackets + {id};
      var text := TextView(f.payload);
      ParseRtmpCommands(f, text, f.payload);

      // Each match goes through the filter chain and is recorded if new;
      // the filter is pure, so filtering first and recording second is the
      // same sequence of steps.
      var accepted := AcceptedUrls(text);
      ghost var seen0 := rtmpUrls;
      RecordNewUrls(f, accepted);
      NewUrlsKeepAccepted(seen0, accepted);
    }

    /** Records, in order, each URL of `accepted` that is not yet known. */
    method RecordNewUrls(f: Frame, accepted: seq<string>)
      requires Shaped()
      modifies this
      ensures Shaped()
      ensures rtmpUrls == old(rtmpUrls) + (set u | u in NewUrls(old(rtmpUrls), accepted))
      ensures capturedPackets == old(capturedPackets) + UrlRecords(f, NewUrls(old(rtmpUrls), accepted))
      ensures rtmpStreams == old(rtmpStreams) && processedPackets == old(processedPackets)
      ensures isCapturing == old(isCapturing)
    {
      NewRecordsKeepStructural(capturedPackets, rtmpUrls, rtmpStreams, f, NewUrls(rtmpUrls, accepted));
      rtmpUrls, capturedPackets := CollectNewUrls(f, rtmpUrls, capturedPackets, accepted);
    }

    /** `parse_rtmp_commands`: appends the record the frame's command
        yields, if any, and changes nothing else. */
    method ParseRtmpCommands(f: Frame, text: string, raw: seq<byte>)
      requires Valid()
      modifies this
      ensures Valid()
      ensures rtmpStreams == old(rtmpStreams) + CommandRecords(f, ExtractCommand(text, raw))
      ensures capturedPackets == old(capturedPackets) && rtmpUrls == old(rtmpUrls)
      ensures processedPackets == old(processedPackets) && isCapturing == old(isCapturing)
    {
      var c := ExtractCommand(text, raw);
      if ReleaseMentioned(text) {
        var name: Option<string> := None;
        if raw != [] {
          var pos := ReleasePosition(raw);
          if pos != -1 {
            name := ScanAfterRelease(AfterRelease(raw, pos));
          }
        }
        if name.None? {
          name := TextStreamName(text);
        }
        if name.Some? && '?' in name.value && '=' in name.value {
          assert c == Some(Command(ReleaseStream, StreamPrefix + name.value));
          AppendStream(StreamRecordOf(f, c.value));
        }
      } else if PublishMentioned(text) {
        var name := PublishStreamName(text);
        if name.Some? && |name.value| > 3 {
          AppendStream(StreamRecordOf(f, Command(Publish, name.value)));
        }
      }
    }

    method AppendStream(r: StreamRecord)
      requires Valid() && WellFormedStream(r)
      modifies this
      ensures Valid()
      ensures rtmpStreams == old(rtmpStreams) + [r]
      ensures capturedPackets == old(capturedPackets) && rtmpUrls == old(rtmpUrls)
      ensures processedPackets == old(processedPackets) && isCapturing == old(isCapturing)
    {
      StreamKeepsStructural(capturedPackets, rtmpUrls, rtmpStreams, r);
      rtmpStreams := rtmpStreams + [r];
    }

    /** `start_capture`: refused while capturing; otherwise switches on and
        empties the four collections. */
    method StartCapture()
      requires Valid()
      modifies this
      ensures Valid()
      ensures isCapturing
      ensures old(isCapturing) ==>
        (capturedPackets == old(capturedPackets) && rtmpUrls == old(rtmpUrls)
         && rtmpStreams == old(rtmpStreams) && processedPackets == old(processedPackets))
      ensures !old(isCapturing) ==>
        (capturedPackets == [] && rtmpUrls == {} && rtmpStreams == [] && processedPackets == {})
    {
      if isCapturing {
        return;
      }
      isCapturing := true;
      capturedPackets := [];
      rtmpUrls := {};
      rtmpStreams := [];
      processedPackets := {};
    }

    /** `stop_capture`: switches off; the collections are kept. */
    method StopCapture()
      modifies this
      ensures !isCapturing
      ensures capturedPackets == old(capturedPackets) && rtmpUrls == old(rtmpUrls)
      ensures rtmpStreams == old(rtmpStreams) && processedPackets == old(processedPackets)
    {
      if !isCapturing {
        return;
      }
      isCapturing := false;
    }

    /** The part of `clear_results` that empties the capture's result
        collections (the seen-frame set is kept). */
    method ClearResults()
      requires Valid()
      modifies this
      ensures Valid()
      ensures capturedPackets == [] && rtmpUrls == {} && rtmpStreams == []
      ensures processedPackets == old(processedPackets) && isCapturing == old(isCapturing)
    {
      capturedPackets := [];
      rtmpUrls := {};
      rtmpStreams := [];
    }

    /** `get_captured_data`: copies of the two lists, the URL set listed in
        some order, and the three counts. */
    method GetCapturedData() returns (d: CapturedData)
      requires Valid()
      ensures d.packets == capturedPackets && d.rtmpStreams == rtmpStreams
      ensures Distinct(d.rtmpUrls) && (set u | u in d.rtmpUrls) == rtmpUrls
      ensures d.totalPackets == |capturedPackets| && d.uniqueUrls == |rtmpUrls|
      ensures d.totalStreams == |rtmpStreams|
      ensures d.uniqueUrls == d.totalPackets == |d.rtmpUrls|
    {
      var listed := ListSet(rtmpUrls);
      PacketsMatchUrls();
      d := CapturedData(capturedPackets, listed, rtmpStreams,
                        |capturedPackets|, |rtmpUrls|, |rtmpStreams|);
    }
  }
}
