/** The capture window (gui_interface.py, `RTMPCaptureGUI`): the two
    result boxes and their once-a-second refresh, the auto-apply check and
    its worker, the clear button, and the choice the manual apply button
    makes. */
module Gui {
  import opened Common
  import opened UrlExtraction
  import opened CommandExtraction
  import opened Capture
  import opened ObsControl
  import opened GuiText
  import opened AutoApply

  // ---------------------------------------------------------------------
  // Candidates

  /** A URL the server box and the auto-apply take: one holding `rtmp://`. */
  predicate ServerCandidate(u: string)
  {
    Contains(u, RtmpScheme)
  }

  /** A stream name the stream box and the auto-apply take: a non-empty
      name with the `stream-` prefix, so bare publish keys never qualify. */
  predicate StreamKeyCandidate(name: string)
  {
    name != "" && StartsWith(name, StreamPrefix)
  }

  /** The first server candidate of a URL listing. */
  function FirstServer(urls: seq<string>): (r: Option<string>)
    ensures r.None? <==> forall i :: 0 <= i < |urls| ==> !ServerCandidate(urls[i])
    ensures r.Some? ==> (exists i :: 0 <= i < |urls| && urls[i] == r.value && ServerCandidate(r.value)
                           && forall j :: 0 <= j < i ==> !ServerCandidate(urls[j]))
  {
    if urls == [] then None
    else if ServerCandidate(urls[0]) then Some(urls[0])
    else
      var r := FirstServer(urls[1..]);
      assert forall i :: 0 < i < |urls| ==> urls[i] == urls[1..][i - 1];
      if r.Some? then
        var i :| 0 <= i < |urls[1..]| && urls[1..][i] == r.value && ServerCandidate(r.value)
          && forall j :: 0 <= j < i ==> !ServerCandidate(urls[1..][j]);
        assert urls[i + 1] == r.value;
        r
      else r
  }

  /** The first stream-key candidate among the stream records. */
  function FirstStreamKey(streams: seq<StreamRecord>): (r: Option<string>)
    ensures r.None? <==> forall i :: 0 <= i < |streams| ==> !StreamKeyCandidate(streams[i].streamName)
    ensures r.Some? ==> (exists i :: 0 <= i < |streams| && streams[i].streamName == r.value
                           && StreamKeyCandidate(r.value)
                           && forall j :: 0 <= j < i ==> !StreamKeyCandidate(streams[j].streamName))
  {
    if streams == [] then None
    else if StreamKeyCandidate(streams[0].streamName) then Some(streams[0].streamName)
    else
      var r := FirstStreamKey(streams[1..]);
      assert forall i :: 0 < i < |streams| ==> streams[i] == streams[1..][i - 1];
      if r.Some? then
        var i :| 0 <= i < |streams[1..]| && streams[1..][i].streamName == r.value
          && StreamKeyCandidate(r.value)
          && forall j :: 0 <= j < i ==> !StreamKeyCandidate(streams[1..][j].streamName);
        assert streams[i + 1].streamName == r.value;
        r
      else r
  }

  /** The first-match loop over the URLs in `check_auto_apply`. */
  method SelectServer(urls: seq<string>) returns (server: Option<string>)
    ensures server == FirstServer(urls)
  {
    server := None;
    var i := 0;
    while i < |urls|
      invariant 0 <= i <= |urls|
      invariant FirstServer(urls[i..]) == FirstServer(urls)
      invariant server.None?
      decreases |urls| - i
    {
      if ServerCandidate(urls[i]) {
        server := Some(urls[i]);
        break;
      }
      assert urls[i..][1..] == urls[i + 1..];
      i := i + 1;
    }
  }

  /** The first-match loop over the stream records in `check_auto_apply`. */
  method SelectStreamKey(streams: seq<StreamRecord>) returns (key: Option<string>)
    ensures key == FirstStreamKey(streams)
  {
    key := None;
    var i := 0;
    while i < |streams|
      invariant 0 <= i <= |streams|
      invariant FirstStreamKey(streams[i..]) == FirstStreamKey(streams)
      invariant key.None?
      decreases |streams| - i
    {
      var name := streams[i].streamName;
      if name != "" && StartsWith(name, StreamPrefix) {
        key := Some(name);
        break;
      }
      assert streams[i..][1..] == streams[i + 1..];
      i := i + 1;
    }
  }

  // ---------------------------------------------------------------------
  // What the refresh appends

  /** The URLs `update_server_info` appends to a box showing `shown`. */
  function NewServerLines(urls: seq<string>, shown: set<string>): set<string>
  {
    set u | u in urls && u !in shown && ServerCandidate(u)
  }

  /** The names `update_stream_info` appends to a box showing `shown`. */
  function NewStreamLines(streams: seq<StreamRecord>, shown: set<string>): set<string>
  {
    set r | r in streams && StreamKeyCandidate(r.streamName) && r.streamName !in shown :: r.streamName
  }

  /** The new names are the collected names the box does not show. */
  lemma NewStreamLinesAre(streams: seq<StreamRecord>, names: set<string>, shown: set<string>, kept: set<string>)
    requires names == set r | r in streams && StreamKeyCandidate(r.streamName) :: r.streamName
    requires kept == set u | u in names - shown && (_ => true)(u)
    ensures kept == NewStreamLines(streams, shown)
  {
    assert kept == names - shown;
  }

  /** Two boxes of lines one after the other are one box. */
  lemma {:induction false} LinesConcat(xs: seq<string>, ys: seq<string>)
    ensures Lines(xs + ys) == Lines(xs) + Lines(ys)
    decreases |xs|
  {
    if xs != [] {
      assert (xs + ys)[1..] == xs[1..] + ys;
      LinesConcat(xs[1..], ys);
    } else {
      assert xs + ys == ys;
    }
  }

  /** A box of clean lines with more clean lines appended shows both. */
  lemma AppendedShown(xs: seq<string>, added: seq<string>)
    requires AllClean(xs) && AllClean(added)
    ensures ShownLines(Lines(xs) + Lines(added)) == (set x | x in xs) + (set x | x in added)
  {
    LinesConcat(xs, added);
    CleanConcat(xs, added);
    ShownLinesOfLines(xs + added);
    SetOfConcat(xs, added);
  }

  lemma CleanConcat(xs: seq<string>, ys: seq<string>)
    requires AllClean(xs) && AllClean(ys)
    ensures AllClean(xs + ys)
  {
    forall i | 0 <= i < |xs + ys| ensures CleanLine((xs + ys)[i]) {
      if i < |xs| {
        assert (xs + ys)[i] == xs[i];
      } else {
        assert (xs + ys)[i] == ys[i - |xs|];
      }
    }
  }

  lemma SetOfConcat(xs: seq<string>, ys: seq<string>)
    ensures (set x | x in xs + ys) == (set x | x in xs) + (set x | x in ys)
  {
  }

  /** Refreshing the server box twice with the same URLs appends nothing
      the second time, as long as the box holds clean lines. */
  lemma ServerRefreshIdempotent(xs: seq<string>, added: seq<string>, urls: seq<string>)
    requires AllClean(xs) && AllClean(added)
    requires (set x | x in added) == NewServerLines(urls, ShownLines(Lines(xs)))
    ensures NewServerLines(urls, ShownLines(Lines(xs) + Lines(added))) == {}
  {
    ShownLinesOfLines(xs);
    AppendedShown(xs, added);
  }

  /** Refreshing the stream box twice with the same records appends
      nothing the second time, as long as the box holds clean lines. */
  lemma StreamRefreshIdempotent(xs: seq<string>, added: seq<string>, streams: seq<StreamRecord>)
    requires AllClean(xs) && AllClean(added)
    requires (set x | x in added) == NewStreamLines(streams, ShownLines(Lines(xs)))
    ensures NewStreamLines(streams, ShownLines(Lines(xs) + Lines(added))) == {}
  {
    ShownLinesOfLines(xs);
    AppendedShown(xs, added);
  }

  /** The `stream-` names among the records, collected into a set. */
  method StreamNames(streams: seq<StreamRecord>) returns (names: set<string>)
    ensures names == set r | r in streams && StreamKeyCandidate(r.streamName) :: r.streamName
  {
    names := {};
    var i := 0;
    while i < |streams|
      invariant 0 <= i <= |streams|
      invariant forall n :: n in names ==> exists r :: r in streams[..i] && StreamKeyCandidate(r.streamName) && n == r.streamName
      invariant forall j :: 0 <= j < i && StreamKeyCandidate(streams[j].streamName) ==> streams[j].streamName in names
      decreases |streams| - i
    {
      var name := streams[i].streamName;
      if name != "" && StartsWith(name, StreamPrefix) {
        names := names + {name};
      }
      i := i + 1;
    }
    assert streams[..|streams|] == streams;
  }

  /** Appends to a box, one line each and in some order, the elements of
      `lines` that `keep` accepts. */
  method AppendEach(text: string, lines: set<string>, keep: string -> bool)
    returns (text': string, added: seq<string>)
    ensures text' == text + Lines(added)
    ensures Distinct(added)
    ensures (set x | x in added) == set u | u in lines && keep(u)
  {
    var pending := lines;
    text' := text;
    added := [];
    while pending != {}
      invariant pending <= lines
      invariant text' == text + Lines(added)
      invariant Distinct(added)
      invariant forall x :: x in added ==> x in lines && x !in pending && keep(x)
      invariant forall u :: u in lines && u !in pending && keep(u) ==> u in added
      decreases |pending|
    {
      var u :| u in pending;
      if keep(u) {
        LinesSnoc(added, u);
        text' := text' + u + "\n";
        added := added + [u];
      }
      pending := pending - {u};
    }
  }

  // ---------------------------------------------------------------------
  // The manual apply button

  /** The settings `apply_stream_settings` sends: `None` (a warning and
      nothing sent) when either box is blank, otherwise the first line of
      each box. */
  function ApplySelection(serverText: string, streamText: string): (r: Option<Settings>)
    ensures r.None? <==> Strip(serverText) == "" || Strip(streamText) == ""
    ensures r.Some? ==> r.value == Settings(FirstLine(serverText), FirstLine(streamText))
  {
    if Strip(serverText) == "" then None
    else if Strip(streamText) == "" then None
    else Some(Settings(FirstLine(serverText), FirstLine(streamText)))
  }

  /** With boxes of clean lines, the manual apply sends the first server
      and the first stream name that were appended. */
  lemma ApplySelectsFirstShown(servers: seq<string>, keys: seq<string>)
    requires servers != [] && keys != [] && AllClean(servers) && AllClean(keys)
    ensures ApplySelection(Lines(servers), Lines(keys)) == Some(Settings(servers[0], keys[0]))
  {
    FirstLineOfLines(servers);
    FirstLineOfLines(keys);
  }

  /** With an empty box the manual apply sends nothing. */
  lemma ApplyRefusesEmptyBox(servers: seq<string>, keys: seq<string>)
    requires servers == [] || keys == []
    ensures ApplySelection(Lines(servers), Lines(keys)).None?
  {
    assert Lines([]) == "";
    assert StripLeft("") == "";
  }

  // ---------------------------------------------------------------------
  // The window

  class CaptureGui {
    const capture: RtmpCapture
    /** The "auto apply" check box. */
    var autoApplyEnabled: bool
    var lastAppliedServer: Option<string>
    var lastAppliedStreamKey: Option<string>
    var autoApplyInProgress: bool
    /** Apply workers started and not yet finished, with their pairs. */
    var workers: seq<Settings>
    /** The server and stream boxes' text. */
    var serverText: string
    var streamText: string

    /** The coordinator's part of the window. */
    function State(): ApplyState
      reads this
    {
      ApplyState(lastAppliedServer, lastAppliedStreamKey, autoApplyInProgress, workers)
    }

    /** A new window: a fresh capture, auto-apply on, nothing applied. */
    constructor ()
      ensures fresh(capture) && capture.Valid() && !capture.isCapturing
      ensures autoApplyEnabled && State() == Initial
      ensures serverText == "" && streamText == ""
    {
      capture := new RtmpCapture();
      autoApplyEnabled := true;
      lastAppliedServer := None;
      lastAppliedStreamKey := None;
      autoApplyInProgress := false;
      workers := [];
      serverText := "";
      streamText := "";
    }

    /** `check_auto_apply` on one snapshot of the captured data, with the
        controller's connection state. */
    method CheckAutoApply(connected: bool, d: CapturedData) returns (started: bool)
      modifies this
      ensures State() == Tick(old(State()), autoApplyEnabled, connected,
                              FirstServer(d.rtmpUrls), FirstStreamKey(d.rtmpStreams))
      ensures started <==> StartsWorker(old(State()), autoApplyEnabled, connected,
                                  FirstServer(d.rtmpUrls), FirstStreamKey(d.rtmpStreams))
      ensures (old(lastAppliedServer) == FirstServer(d.rtmpUrls)
               && old(lastAppliedStreamKey) == FirstStreamKey(d.rtmpStreams)) ==> !started
      ensures autoApplyEnabled == old(autoApplyEnabled)
      ensures serverText == old(serverText) && streamText == old(streamText)
    {
      if !autoApplyEnabled || !connected || autoApplyInProgress {
        return false;
      }
      var server := SelectServer(d.rtmpUrls);
      var key := SelectStreamKey(d.rtmpStreams);
      if server.Some? && key.Some? && (server != lastAppliedServer || key != lastAppliedStreamKey) {
        autoApplyInProgress := true;
        workers := workers + [Settings(server.value, key.value)];
        started := true;
      } else {
        started := false;
      }
    }

    /** The auto-apply worker `i` ends; `applied` is whether
        `set_stream_settings` gave a truthy answer (an exception counts as
        not applied). */
    method FinishAutoApply(i: nat, applied: bool)
      requires i < |workers|
      modifies this
      ensures State() == Finish(old(State()), i, applied)
      ensures autoApplyEnabled == old(autoApplyEnabled)
      ensures serverText == old(serverText) && streamText == old(streamText)
    {
      var w := workers[i];
      if applied {
        lastAppliedServer := Some(w.server);
        lastAppliedStreamKey := Some(w.key);
      }
      autoApplyInProgress := false;
      workers := workers[..i] + workers[i + 1..];
    }

    /** `clear_results`: empties both boxes and the capture's three result
        collections (the seen-frame fingerprints stay), and forgets the
        applied pair and the in-progress flag. */
    method ClearResults()
      requires capture.Valid()
      modifies this, capture
      ensures State() == ClearState(old(State()))
      ensures serverText == "" && streamText == ""
      ensures capture.Valid()
      ensures capture.capturedPackets == [] && capture.rtmpUrls == {} && capture.rtmpStreams == []
      ensures capture.processedPackets == old(capture.processedPackets)
      ensures capture.isCapturing == old(capture.isCapturing)
      ensures autoApplyEnabled == old(autoApplyEnabled)
    {
      serverText := "";
      streamText := "";
      capture.ClearResults();
      lastAppliedServer := None;
      lastAppliedStreamKey := None;
      autoApplyInProgress := false;
    }

    /** `update_server_info`: appends, one line each, the URLs holding
        `rtmp://` that the box does not show yet; `added` lists them in the
        order appended (the source walks a set, so any order). */
    method UpdateServerInfo(urls: seq<string>) returns (added: seq<string>)
      modifies this
      ensures serverText == old(serverText) + Lines(added)
      ensures Distinct(added)
      ensures (set x | x in added) == NewServerLines(urls, ShownLines(old(serverText)))
      ensures State() == old(State()) && streamText == old(streamText)
      ensures autoApplyEnabled == old(autoApplyEnabled)
    {
      var current := ShownLines(serverText);
      var newUrls := (set u | u in urls) - current;
      serverText, added := AppendEach(serverText, newUrls, ServerCandidate);
    }

    /** `update_stream_info`: appends, one line each, the `stream-` names
        the box does not show yet; `added` lists them in the order
        appended. */
    method UpdateStreamInfo(streams: seq<StreamRecord>) returns (added: seq<string>)
      modifies this
      ensures streamText == old(streamText) + Lines(added)
      ensures Distinct(added)
      ensures (set x | x in added) == NewStreamLines(streams, ShownLines(old(streamText)))
      ensures State() == old(State()) && serverText == old(serverText)
      ensures autoApplyEnabled == old(autoApplyEnabled)
    {
      var current := ShownLines(streamText);
      var names := StreamNames(streams);
      streamText, added := AppendEach(streamText, names - current, _ => true);
      NewStreamLinesAre(streams, names, current, set u | u in names - current && (_ => true)(u));
    }
  }
}
