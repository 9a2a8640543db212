/** The OBS side (obs_controller.py): turning a captured server URL and
    stream key into the settings sent to OBS, and the obs-websocket v5
    exchanges the controller performs (Hello op 0, Identify op 1,
    Identified op 2, Request op 6).

    The socket is modelled by two sequences: the messages the controller
    has sent, and the messages the OBS server has yet to deliver. A read
    from an exhausted inbox is the closed connection, which the source
    reports as an exception. */
module ObsControl {
  import opened Common
  import opened UrlExtraction

  // ---------------------------------------------------------------------
  // Stream-setting normalisation

  /** A (server, stream key) pair, as `parse_rtmp_url` returns it and as
      `set_stream_settings` sends it. */
  datatype Settings = Settings(server: string, key: string)

  /** `parse_rtmp_url`: an `rtmp://` URL with a `/` after the scheme is cut
      at its last `/` into server and key; anything else is the server
      with an empty key. */
  function ParseRtmpUrl(url: string): (r: Settings)
    ensures StartsWith(url, RtmpScheme) && '/' in url[|RtmpScheme|..] ==>
      r.server + "/" + r.key == url && '/' !in r.key && StartsWith(r.server, RtmpScheme)
    ensures !(StartsWith(url, RtmpScheme) && '/' in url[|RtmpScheme|..]) ==> r == Settings(url, "")
  {
    if StartsWith(url, RtmpScheme) then
      var rest := url[|RtmpScheme|..];
      var i := LastIndexOf(rest, '/');
      if i != -1 then
        CutAtSlash(url, i);
        Settings(RtmpScheme + rest[..i], rest[i + 1..])
      else Settings(url, "")
    else Settings(url, "")
  }

  /** Cutting an `rtmp://` URL at a `/` at index `i` after the scheme
      and joining the two halves with `/` gives the URL back. */
  lemma CutAtSlash(url: string, i: nat)
    requires StartsWith(url, RtmpScheme)
    requires i < |url| - |RtmpScheme| && url[|RtmpScheme|..][i] == '/'
    ensures var rest := url[|RtmpScheme|..];
      RtmpScheme + rest[..i] + "/" + rest[i + 1..] == url
      && StartsWith(RtmpScheme + rest[..i], RtmpScheme)
  {
    var rest := url[|RtmpScheme|..];
    assert url == RtmpScheme + rest;
    assert rest == rest[..i] + "/" + rest[i + 1..];
    assert (RtmpScheme + rest[..i])[..|RtmpScheme|] == RtmpScheme;
  }

  /** The cut is the only one of its kind: any split of an `rtmp://` URL
      into a server keeping the scheme, a `/`, and a key without `/` is the
      one `ParseRtmpUrl` finds. */
  lemma ParseUnique(url: string, server: string, key: string)
    requires StartsWith(server, RtmpScheme)
    requires url == server + "/" + key && '/' !in key
    ensures ParseRtmpUrl(url) == Settings(server, key)
  {
    var n := |RtmpScheme|;
    assert url[..n] == server[..n];
    var rest := url[n..];
    var p := |server| - n;
    assert rest[p] == '/';
    var i := LastIndexOf(rest, '/');
    assert i == p;
    assert rest[..p] == server[n..];
    assert rest[p + 1..] == key;
  }

  /** The split `set_stream_settings` performs: the given key is empty and
      the server is a whole URL whose last segment is not empty. */
  predicate TakesKeyFromUrl(server: string, key: string)
  {
    key == "" && ParseRtmpUrl(server).key != ""
  }

  /** The settings `set_stream_settings` sends for `(server, key)`. */
  function NormalizeStreamSettings(server: string, key: string): (r: Settings)
    ensures StartsWith(r.server, RtmpScheme)
    ensures TakesKeyFromUrl(server, key) ==>
      r == ParseRtmpUrl(server) && r.server + "/" + r.key == server && '/' !in r.key
    ensures !TakesKeyFromUrl(server, key) ==> r.key == key
    ensures !TakesKeyFromUrl(server, key) && StartsWith(server, RtmpScheme) ==> r.server == server
    ensures !StartsWith(server, RtmpScheme) ==> r == Settings(RtmpScheme + server, key)
  {
    var s :=
      if StartsWith(server, RtmpScheme) && '/' in server[|RtmpScheme|..] then
        var parsed := ParseRtmpUrl(server);
        if parsed.key != "" && key == "" then parsed else Settings(server, key)
      else Settings(server, key);
    if StartsWith(s.server, RtmpScheme) then s
    else
      assert (RtmpScheme + s.server)[..|RtmpScheme|] == RtmpScheme;
      Settings(RtmpScheme + s.server, s.key)
  }

  /** Normalising what was already sent sends it again unchanged. */
  lemma {:induction false} NormalizeStable(server: string, key: string)
    ensures var r := NormalizeStreamSettings(server, key);
      r.key != "" ==> NormalizeStreamSettings(r.server, r.key) == r
  {
  }

  // ---------------------------------------------------------------------
  // obs-websocket messages

  const HelloOp := 0
  const IdentifyOp := 1
  const IdentifiedOp := 2
  const RequestOp := 6
  const RequestId := "rtmp_capture_request"

  /** The authentication string of an Identify message: the base64 of the
      SHA-256 of (base64 SHA-256 of password + salt) + challenge. The
      hashing is kept symbolic: the value records what it is computed
      from. */
  datatype AuthProof = AuthProof(password: string, salt: string, challenge: string)

  /** The `requestData` of a request: `{}` or stream-service settings. */
  datatype RequestData = NoData | StreamService(serviceType: string, settings: Settings)

  /** Messages the controller sends. */
  datatype Outbound =
    | Identify(rpcVersion: int, authentication: Option<AuthProof>)
    | Request(requestType: string, requestId: string, requestData: RequestData)

  /** Messages the OBS server sends: the op code, the authentication
      parameters of a Hello, and `requestStatus.result` of a response. */
  datatype Inbound = Inbound(op: int, challenge: Option<string>, salt: Option<string>,
                             requestResult: Option<bool>)

  function OpCode(m: Outbound): int
  {
    match m
    case Identify(_, _) => IdentifyOp
    case Request(_, _, _) => RequestOp
  }

  /** Python truthiness of an optional string: present and not empty. */
  predicate Present(s: Option<string>)
  {
    s.Some? && s.value != ""
  }

  /** The Identify message answering `hello`. */
  function IdentifyMessage(password: Option<string>, hello: Inbound): (m: Outbound)
    ensures OpCode(m) == IdentifyOp && m.Identify? && m.rpcVersion == 1
    ensures m.authentication.Some? <==> Present(password) && Present(hello.challenge) && Present(hello.salt)
    ensures m.authentication.Some? ==>
      m.authentication.value == AuthProof(password.value, hello.salt.value, hello.challenge.value)
  {
    if Present(password) && Present(hello.challenge) && Present(hello.salt) then
      Identify(1, Some(AuthProof(password.value, hello.salt.value, hello.challenge.value)))
    else Identify(1, None)
  }

  /** The request envelope of `send_command`; `data or {}` sends `{}` when
      there is no data. */
  function RequestMessage(command: string, data: Option<RequestData>): (m: Outbound)
    ensures OpCode(m) == RequestOp && m.Request?
    ensures m.requestType == command && m.requestId == RequestId
    ensures data.None? ==> m.requestData == NoData
    ensures data.Some? ==> m.requestData == data.value
  {
    Request(command, RequestId, if data.Some? then data.value else NoData)
  }

  /** The two messages a successful handshake reads: a Hello, then an
      Identified. */
  predicate HandshakeOk(replies: seq<Inbound>)
  {
    |replies| >= 2 && replies[0].op == HelloOp && replies[1].op == IdentifiedOp
  }

  /** Some Identify message has been sent. */
  predicate IdentifySent(ms: seq<Outbound>)
  {
    exists i :: 0 <= i < |ms| && ms[i].Identify?
  }

  /** Every request on the wire was preceded by an Identify, as the
      protocol demands. */
  predicate RequestsAfterIdentify(ms: seq<Outbound>)
  {
    forall i :: 0 <= i < |ms| && ms[i].Request? ==> IdentifySent(ms[..i])
  }

  /** Sending one more message keeps the protocol order when it is an
      Identify, or when an Identify went before. */
  lemma SendKeepsOrder(ms: seq<Outbound>, m: Outbound)
    requires RequestsAfterIdentify(ms)
    requires m.Identify? || IdentifySent(ms)
    ensures RequestsAfterIdentify(ms + [m]) && (m.Identify? ==> IdentifySent(ms + [m]))
    ensures IdentifySent(ms) ==> IdentifySent(ms + [m])
  {
    var ms' := ms + [m];
    forall i | 0 <= i < |ms'| && ms'[i].Request? ensures IdentifySent(ms'[..i]) {
      if i < |ms| {
        assert ms'[..i] == ms[..i];
      } else {
        assert ms'[..i] == ms;
      }
    }
    if IdentifySent(ms) {
      var j :| 0 <= j < |ms| && ms[j].Identify?;
      assert ms'[j] == ms[j];
    }
    if m.Identify? {
      assert ms'[|ms|] == m;
    }
  }

  // ---------------------------------------------------------------------
  // The controller

  class ObsController {
    var isConnected: bool
    var hasWebsocket: bool
    /** Every message written to the socket, in order. */
    var sent: seq<Outbound>
    /** The messages the OBS server will deliver next, in order. */
    var inbox: seq<Inbound>

    /** A connected controller has a socket and has identified itself,
        and no request ever went out before an Identify. */
    predicate Valid()
      reads this
    {
      (isConnected ==> hasWebsocket && IdentifySent(sent)) && RequestsAfterIdentify(sent)
    }

    /** A controller with no socket yet; `replies` is what the server will
        say once one is opened. */
    constructor (replies: seq<Inbound>)
      ensures Valid()
      ensures !isConnected && !hasWebsocket && sent == [] && inbox == replies
    {
      isConnected := false;
      hasWebsocket := false;
      sent := [];
      inbox := replies;
    }

    /** One read from the socket; `None` is the closed connection. */
    method Receive() returns (m: Option<Inbound>)
      modifies this
      ensures old(inbox) == [] ==> m.None? && inbox == []
      ensures old(inbox) != [] ==> m == Some(old(inbox)[0]) && inbox == old(inbox)[1..]
      ensures sent == old(sent) && isConnected == old(isConnected) && hasWebsocket == old(hasWebsocket)
    {
      if inbox == [] {
        m := None;
      } else {
        m := Some(inbox[0]);
        inbox := inbox[1..];
      }
    }

    /** `identify`: read a Hello, answer with an Identify (carrying the
        authentication string only when a password, a challenge and a salt
        are all present), and require an Identified in return. `false`
        stands for the exception the source raises. */
    method Identify(password: Option<string>) returns (ok: bool)
      requires Valid()
      modifies this
      ensures Valid()
      ensures isConnected == old(isConnected) && hasWebsocket == old(hasWebsocket)
      ensures ok <==> hasWebsocket && HandshakeOk(old(inbox))
      ensures ok ==> IdentifySent(sent)
      ensures ok ==> sent == old(sent) + [IdentifyMessage(password, old(inbox)[0])]
                     && inbox == old(inbox)[2..]
      ensures !hasWebsocket || old(inbox) == [] || old(inbox)[0].op != HelloOp ==> sent == old(sent)
      ensures hasWebsocket && old(inbox) != [] && old(inbox)[0].op == HelloOp ==>
        sent == old(sent) + [IdentifyMessage(password, old(inbox)[0])]
      ensures !hasWebsocket ==> inbox == old(inbox)
      ensures hasWebsocket && old(inbox) != [] && old(inbox)[0].op != HelloOp ==> inbox == old(inbox)[1..]
      ensures hasWebsocket && old(inbox) != [] && old(inbox)[0].op == HelloOp ==>
        inbox == old(inbox)[if |old(inbox)| >= 2 then 2 else 1..]
      ensures hasWebsocket && old(inbox) == [] ==> inbox == []
    {
      if !hasWebsocket {
        return false;
      }
      var hello := Receive();
      if hello.None? || hello.value.op != HelloOp {
        return false;
      }
      var request := IdentifyMessage(password, hello.value);
      SendKeepsOrder(sent, request);
      sent := sent + [request];
      var identified := Receive();
      ok := identified.Some? && identified.value.op == IdentifiedOp;
    }

    /** `connect_websocket`: open the socket (`reachable` says whether
        that succeeds) and identify; connected exactly when both work. */
    method ConnectWebsocket(reachable: bool, password: Option<string>) returns (ok: bool)
      requires Valid()
      modifies this
      ensures Valid()
      ensures ok == isConnected
      ensures ok <==> reachable && HandshakeOk(old(inbox))
      ensures reachable ==> hasWebsocket
      ensures !reachable ==> hasWebsocket == old(hasWebsocket) && sent == old(sent) && inbox == old(inbox)
      ensures ok ==> sent == old(sent) + [IdentifyMessage(password, old(inbox)[0])]
    {
      if !reachable {
        isConnected := false;
        return false;
      }
      hasWebsocket := true;
      isConnected := false;
      ok := Identify(password);
      isConnected := ok;
    }

    /** `send_command`: nothing is sent unless connected with a socket;
        otherwise one request goes out and the next message is the answer,
        whatever it says. */
    method SendCommand(command: string, data: Option<RequestData>) returns (response: Option<Inbound>)
      requires Valid()
      modifies this
      ensures Valid()
      ensures isConnected == old(isConnected) && hasWebsocket == old(hasWebsocket)
      ensures !(isConnected && hasWebsocket) ==>
        response.None? && sent == old(sent) && inbox == old(inbox)
      ensures isConnected && hasWebsocket ==>
        sent == old(sent) + [RequestMessage(command, data)]
        && (old(inbox) == [] ==> response.None? && inbox == [])
        && (old(inbox) != [] ==> response == Some(old(inbox)[0]) && inbox == old(inbox)[1..])
    {
      if !isConnected || !hasWebsocket {
        return None;
      }
      var request := RequestMessage(command, data);
      SendKeepsOrder(sent, request);
      sent := sent + [request];
      response := Receive();
    }

    /** `start_streaming`: the `StartStream` request, without data, through
        `send_command`; the answer is the next message, or nothing when
        not connected. */
    method StartStreaming() returns (response: Option<Inbound>)
      requires Valid()
      modifies this
      ensures Valid()
      ensures isConnected == old(isConnected) && hasWebsocket == old(hasWebsocket)
      ensures isConnected && hasWebsocket ==>
        sent == old(sent) + [Request("StartStream", RequestId, NoData)]
        && (old(inbox) == [] ==> response.None? && inbox == [])
        && (old(inbox) != [] ==> response == Some(old(inbox)[0]) && inbox == old(inbox)[1..])
      ensures !(isConnected && hasWebsocket) ==> response.None? && sent == old(sent) && inbox == old(inbox)
    {
      response := SendCommand("StartStream", None);
    }

    /** `stop_streaming`: the `StopStream` request, without data, through
        `send_command`; the answer is the next message, or nothing when
        not connected. */
    method StopStreaming() returns (response: Option<Inbound>)
      requires Valid()
      modifies this
      ensures Valid()
      ensures isConnected == old(isConnected) && hasWebsocket == old(hasWebsocket)
      ensures isConnected && hasWebsocket ==>
        sent == old(sent) + [Request("StopStream", RequestId, NoData)]
        && (old(inbox) == [] ==> response.None? && inbox == [])
        && (old(inbox) != [] ==> response == Some(old(inbox)[0]) && inbox == old(inbox)[1..])
      ensures !(isConnected && hasWebsocket) ==> response.None? && sent == old(sent) && inbox == old(inbox)
    {
      response := SendCommand("StopStream", None);
    }

    /** `get_stream_status`: the `GetStreamStatus` request, without data, through
        `send_command`; the answer is the next message, or nothing when
        not connected. */
    method GetStreamStatus() returns (response: Option<Inbound>)
      requires Valid()
      modifies this
      ensures Valid()
      ensures isConnected == old(isConnected) && hasWebsocket == old(hasWebsocket)
      ensures isConnected && hasWebsocket ==>
        sent == old(sent) + [Request("GetStreamStatus", RequestId, NoData)]
        && (old(inbox) == [] ==> response.None? && inbox == [])
        && (old(inbox) != [] ==> response == Some(old(inbox)[0]) && inbox == old(inbox)[1..])
      ensures !(isConnected && hasWebsocket) ==> response.None? && sent == old(sent) && inbox == old(inbox)
    {
      response := SendCommand("GetStreamStatus", None);
    }

    /** `set_stream_settings`: send the normalised settings as an
        `rtmp_custom` service and hand back the raw answer, even one whose
        `requestStatus.result` is false or missing. */
    method SetStreamSettings(server: string, key: string) returns (response: Option<Inbound>)
      requires Valid()
      modifies this
      ensures Valid()
      ensures isConnected == old(isConnected) && hasWebsocket == old(hasWebsocket)
      ensures isConnected && hasWebsocket ==>
        sent == old(sent) + [Request("SetStreamServiceSettings", RequestId,
                                     StreamService("rtmp_custom", NormalizeStreamSettings(server, key)))]
        && (old(inbox) != [] ==> response == Some(old(inbox)[0]) && inbox == old(inbox)[1..])
        && (old(inbox) == [] ==> response.None? && inbox == [])
      ensures !(isConnected && hasWebsocket) ==> response.None? && sent == old(sent) && inbox == old(inbox)
    {
      var settings := NormalizeStreamSettings(server, key);
      response := SendCommand("SetStreamServiceSettings", Some(StreamService("rtmp_custom", settings)));
    }

    /** `disconnect`: marks the controller disconnected; the socket object
        itself is only asked to close and stays in place. */
    method Disconnect()
      requires Valid()
      modifies this
      ensures Valid()
      ensures !isConnected && hasWebsocket == old(hasWebsocket)
      ensures sent == old(sent) && inbox == old(inbox)
    {
      isConnected := false;
    }
  }
}
