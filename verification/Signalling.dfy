/**
  The handshake between the sample's client and server, and the echo that follows it, as a step
  machine.

  Each side has a WebSocket thread, which handles messages one at a time, and a signalling thread,
  which runs the peer connection's callbacks as separate tasks; every handler and every callback
  is one step.  The two WebSocket directions and the two directions of the data channel are FIFO.
  A run is any sequence of steps; a step that is not enabled does nothing.
 */
module Signalling {
  import opened Wrappers
  import opened IceJson

  type Sdp = string

  /** The signalling states a side of this program can be in; `NoPeer` is a null `peer_connection`. */
  datatype SignallingState = NoPeer | Stable | HaveLocalOffer | HaveRemoteOffer

  /** A FIFO: everything sent so far, and how many messages the receiver has handled. */
  datatype Channel<T> = Channel(sent: seq<T>, taken: nat)

  datatype Frame = Text(json: Json) | CloseFrame

  /** `creating`: an offer or answer has been asked for and its callback has not run yet.
      `failed`: the process has exited, or an exception has left a handler.
      `nullUse`: a candidate was pushed into a null peer connection. */
  datatype Peer = Peer(
    state: SignallingState, creating: bool, local: Option<Sdp>, remote: Option<Sdp>,
    iceList: seq<Ice>, pushed: seq<Ice>, channelOpen: bool, failed: bool, nullUse: bool)

  /** `main` of the client runs the WebSocket loop, then reads lines, then is over. */
  datatype Phase = RunningSocket | Reading | Over

  datatype World = World(
    client: Peer, server: Peer, toServer: Channel<Json>, toClient: Channel<Frame>,
    socketOpen: bool, closing: bool, phase: Phase, lines: seq<string>, received: seq<string>,
    dataToServer: Channel<string>, dataToClient: Channel<string>, listening: bool, serverQuit: bool)

  const NEW_PEER := Peer(NoPeer, false, None, None, [], [], false, false, false)

  const INITIAL := World(NEW_PEER, NEW_PEER, Channel([], 0), Channel([], 0), false, false, RunningSocket,
                         [], [], Channel([], 0), Channel([], 0), true, false)

  function OfferMessage(sdp: Sdp): Json {
    map["type" := JString("offer"), "sdp" := JString(sdp)]
  }

  function AnswerMessage(sdp: Sdp): Json {
    map["type" := JString("answer"), "answer" := JString(sdp)]
  }

  /** `accepted` is whether the library parses the description or candidate it is given. */
  datatype Step =
    | ClientOpen
    | OfferCreated(sdp: Sdp)
    | ClientCandidate(ice: Ice)
    | ServerMessage(accepted: bool)
    | AnswerCreated(sdp: Sdp)
    | ServerCandidate(ice: Ice)
    | ClientMessage(accepted: bool)
    | ClientChannelOpens
    | ServerChannelOpens
    | ReadLine(line: string)
    | EndOfInput
    | ServerData
    | ClientData
    | LoseData(kept: nat)
    | ServerReturns

  predicate Waiting<T>(c: Channel<T>) {
    c.taken < |c.sent|
  }

  predicate Enabled(w: World, step: Step) {
    match step
    case ClientOpen => !w.socketOpen
    case OfferCreated(_) => w.client.creating && !w.client.failed
    case ClientCandidate(_) => w.client.local.Some? && !w.client.failed && w.phase != Over
    case ServerMessage(_) => Waiting(w.toServer) && !w.server.failed && !w.closing
    case AnswerCreated(_) => w.server.creating && !w.server.failed
    case ServerCandidate(_) => w.server.local.Some? && !w.server.failed && !w.serverQuit
    case ClientMessage(_) => Waiting(w.toClient) && !w.client.failed && w.phase == RunningSocket
    case ClientChannelOpens => w.client.state == Stable && w.client.remote.Some? && !w.client.failed
    // The server learns of the channel from the client's announcement, sent once its own is open.
    case ServerChannelOpens => w.client.channelOpen && w.server.local.Some? && !w.server.failed && !w.server.channelOpen
    case ReadLine(_) => w.phase == Reading && !w.client.failed
    case EndOfInput => w.phase == Reading && !w.client.failed
    case ServerData => Waiting(w.dataToServer) && w.server.channelOpen && !w.server.failed && !w.serverQuit
    case ClientData => Waiting(w.dataToClient) && w.phase != Over && !w.client.failed
    // The client is gone: what is still in flight may be lost.
    case LoseData(kept) => (w.phase == Over || w.client.failed) && w.dataToServer.taken <= kept <= |w.dataToServer.sent|
    case ServerReturns => !w.listening && w.closing && !w.server.failed
  }

  function Post<T>(c: Channel<T>, m: T): Channel<T> {
    c.(sent := c.sent + [m])
  }

  function Take<T>(c: Channel<T>): Channel<T> {
    c.(taken := c.taken + 1)
  }

  /** A side's `on_success_csd`: set the local description. */
  function SetLocal(p: Peer, sdp: Sdp, state: SignallingState): Peer {
    p.(local := Some(sdp), creating := false, state := state)
  }

  /** `push_ice` after decoding; a message that is not a candidate, or is refused, ends the process. */
  function HandleIce(p: Peer, json: Json, accepted: bool): Peer {
    match FromJson(json)
    case Err(_) => p.(failed := true)
    case Ok(ice) =>
      if !accepted then p.(failed := true)
      else if p.state.NoPeer? then p.(failed := true, nullUse := true)
      else p.(pushed := p.pushed + [ice])
  }

  /** The server's `MessageHandler`. */
  function HandleAtServer(p: Peer, json: Json, accepted: bool): Peer {
    var kind := GetString(json, "type");
    if kind == "offer" then
      if accepted then p.(state := HaveRemoteOffer, remote := Some(GetString(json, "sdp")), creating := true)
      else p.(failed := true)
    else if kind == "ice" then HandleIce(p, json, accepted)
    else p.(failed := true)
  }

  /** The client's `MessageHandler`. */
  function HandleAtClient(p: Peer, json: Json, accepted: bool): Peer {
    var kind := GetString(json, "type");
    if kind == "answer" then
      if accepted then p.(state := Stable, remote := Some(GetString(json, "answer")))
      else p.(failed := true)
    else if kind == "ice" then HandleIce(p, json, accepted)
    else p.(failed := true)
  }

  function Echo(line: string): string {
    "Echo of: " + line
  }

  function Apply(w: World, step: Step): World
    requires Enabled(w, step)
  {
    match step
    case ClientOpen => w.(socketOpen := true, client := w.client.(state := Stable, creating := true))
    case OfferCreated(sdp) =>
      w.(client := SetLocal(w.client, sdp, HaveLocalOffer), toServer := Post(w.toServer, OfferMessage(sdp)))
    case ClientCandidate(ice) =>
      // Sending on a closed socket throws, and the exception leaves the callback.
      var p := w.client.(iceList := w.client.iceList + [ice]);
      if w.phase == RunningSocket then w.(client := p, toServer := Post(w.toServer, ToJson(ice)))
      else w.(client := p.(failed := true))
    case ServerMessage(accepted) =>
      var p := HandleAtServer(w.server, w.toServer.sent[w.toServer.taken], accepted);
      if p.failed then w.(server := p) else w.(server := p, toServer := Take(w.toServer))
    case AnswerCreated(sdp) =>
      var p := SetLocal(w.server, sdp, Stable);
      if w.closing then w.(server := p.(failed := true))
      else w.(server := p, toClient := Post(w.toClient, Text(AnswerMessage(sdp))))
    case ServerCandidate(ice) =>
      var p := w.server.(iceList := w.server.iceList + [ice]);
      if w.closing then w.(server := p.(failed := true))
      else w.(server := p, toClient := Post(w.toClient, Text(ToJson(ice))))
    case ClientMessage(accepted) =>
      (match w.toClient.sent[w.toClient.taken]
       case CloseFrame => w.(phase := Reading, toClient := Take(w.toClient))
       case Text(json) =>
         var p := HandleAtClient(w.client, json, accepted);
         if p.failed then w.(client := p) else w.(client := p, toClient := Take(w.toClient)))
    case ClientChannelOpens => w.(client := w.client.(channelOpen := true))
    case ServerChannelOpens =>
      w.(server := w.server.(channelOpen := true), closing := true, toClient := Post(w.toClient, CloseFrame))
    case ReadLine(line) =>
      var w1 := w.(lines := w.lines + [line]);
      var w2 := if w.client.channelOpen then w1.(dataToServer := Post(w.dataToServer, line)) else w1;
      if line == "exit" then w2.(phase := Over) else w2
    case EndOfInput => w.(phase := Over)
    case ServerData =>
      var line := w.dataToServer.sent[w.dataToServer.taken];
      var w1 := w.(dataToServer := Take(w.dataToServer));
      if line == "exit" then w1.(listening := false) else w1.(dataToClient := Post(w.dataToClient, Echo(line)))
    case ClientData =>
      w.(received := w.received + [w.dataToClient.sent[w.dataToClient.taken]], dataToClient := Take(w.dataToClient))
    case LoseData(kept) => w.(dataToServer := w.dataToServer.(sent := w.dataToServer.sent[..kept]))
    case ServerReturns => w.(serverQuit := true)
  }

  function Next(w: World, step: Step): World {
    if Enabled(w, step) then Apply(w, step) else w
  }

  /** The world after a run. */
  function Exec(steps: seq<Step>): World {
    if steps == [] then INITIAL else Next(Exec(steps[..|steps| - 1]), steps[|steps| - 1])
  }

  // ----- What every step keeps: the WebSocket

  /** The client has sent its offer, then its candidates in order, all of them while the WebSocket
      loop runs. */
  ghost predicate ClientSends(w: World) {
    && (w.client.local.None? ==> w.toServer.sent == [] && w.client.iceList == [])
    && (w.client.local.Some? ==>
          && 1 <= |w.toServer.sent| <= 1 + |w.client.iceList|
          && w.toServer.sent[0] == OfferMessage(w.client.local.value)
          && (forall i :: 1 <= i < |w.toServer.sent| ==> w.toServer.sent[i] == ToJson(w.client.iceList[i - 1]))
          && (w.phase == RunningSocket ==> |w.toServer.sent| == 1 + |w.client.iceList|))
  }

  /** How many messages the server has put on the WebSocket before closing it. */
  ghost function ServerSent(w: World): int {
    if w.closing then |w.toClient.sent| - 1 else |w.toClient.sent|
  }

  /** The server has sent its answer, then its candidates in order, then at most the close frame. */
  ghost predicate ServerSends(w: World) {
    && (w.server.local.None? ==> w.toClient.sent == [] && w.server.iceList == [] && !w.closing)
    && (w.server.local.Some? ==>
          && 1 <= ServerSent(w) <= 1 + |w.server.iceList|
          && w.toClient.sent[0] == Text(AnswerMessage(w.server.local.value))
          && (forall i :: 1 <= i < ServerSent(w) ==> w.toClient.sent[i] == Text(ToJson(w.server.iceList[i - 1])))
          && (if w.closing then w.toClient.sent[ServerSent(w)] == CloseFrame
              else ServerSent(w) == 1 + |w.server.iceList|))
  }

  /** What the server has made of the messages it handled. */
  ghost predicate ServerHandled(w: World) {
    && w.toServer.taken <= |w.toServer.sent| && !w.server.nullUse
    && (w.toServer.taken == 0 ==>
          && w.server.state == NoPeer && w.server.remote == None && w.server.local == None
          && !w.server.creating && w.server.pushed == [])
    && (w.toServer.taken > 0 ==>
          && w.server.remote == w.client.local
          && w.server.pushed <= w.client.iceList && |w.server.pushed| == w.toServer.taken - 1
          && w.server.state == (if w.server.local.Some? then Stable else HaveRemoteOffer)
          && (w.server.creating <==> w.server.local.None?))
  }

  /** What the client has made of the messages it handled. */
  ghost predicate ClientHandled(w: World) {
    && w.toClient.taken <= |w.toClient.sent| && !w.client.nullUse
    && (w.phase == RunningSocket <==> !(w.closing && w.toClient.taken == |w.toClient.sent|))
    && (w.toClient.taken == 0 ==> w.client.remote == None && w.client.pushed == [])
    && (w.toClient.taken > 0 ==>
          && w.client.remote == w.server.local && w.client.pushed <= w.server.iceList
          && |w.client.pushed| == w.toClient.taken - if w.phase == RunningSocket then 1 else 2)
  }

  ghost predicate ClientState(w: World) {
    && (w.client.creating <==> w.socketOpen && w.client.local.None?)
    && (w.client.state == NoPeer <==> !w.socketOpen)
    && (w.client.local.Some? ==>
          w.socketOpen && w.client.state == if w.client.remote.Some? then Stable else HaveLocalOffer)
    && (w.client.remote.Some? ==> w.client.local.Some?)
    && (w.client.channelOpen ==> w.client.remote.Some?)
    && (w.server.channelOpen ==> w.client.channelOpen)
    && (w.closing <==> w.server.channelOpen)
  }

  // ----- What every step keeps: the data channel

  function Echoes(lines: seq<string>): seq<string> {
    if lines == [] then []
    else Echoes(lines[..|lines| - 1]) + (if lines[|lines| - 1] == "exit" then [] else [Echo(lines[|lines| - 1])])
  }

  ghost predicate DataFlows(w: World) {
    && w.dataToServer.taken <= |w.dataToServer.sent| && w.dataToClient.taken <= |w.dataToClient.sent|
    && (w.phase == RunningSocket ==> w.lines == [])
    && (w.phase != RunningSocket ==> w.server.channelOpen)
    && w.dataToServer.sent <= w.lines && (w.phase != Over && !w.client.failed ==> w.dataToServer.sent == w.lines)
    && w.dataToClient.sent == Echoes(w.dataToServer.sent[..w.dataToServer.taken])
    && w.received == w.dataToClient.sent[..w.dataToClient.taken]
    && (!w.listening <==> "exit" in w.dataToServer.sent[..w.dataToServer.taken])
    && (w.serverQuit ==> !w.listening)
  }

  ghost predicate Invariant(w: World) {
    ClientSends(w) && ServerSends(w) && ServerHandled(w) && ClientHandled(w) && ClientState(w) && DataFlows(w)
  }

  lemma {:induction false} EveryRunKeepsInvariant(steps: seq<Step>)
    ensures Invariant(Exec(steps))
  {
    if steps != [] {
      EveryRunKeepsInvariant(steps[..|steps| - 1]);
      var w, step := Exec(steps[..|steps| - 1]), steps[|steps| - 1];
      if Enabled(w, step) {
        StepKeepsInvariant(w, step);
      }
    }
  }

  lemma StepKeepsInvariant(w: World, step: Step)
    requires Invariant(w) && Enabled(w, step)
    ensures Invariant(Apply(w, step))
  {
    if IsDataStep(step) {
      DataStepKeepsInvariant(w, step);
    } else {
      HandshakeStepKeepsInvariant(w, step);
    }
  }

  lemma HandshakeStepKeepsInvariant(w: World, step: Step)
    requires Invariant(w) && Enabled(w, step) && !IsDataStep(step)
    ensures Invariant(Apply(w, step))
  {
    match step
    case ClientOpen => OpenKeeps(w);
    case OfferCreated(sdp) => OfferKeeps(w, sdp);
    case ClientCandidate(ice) => ClientCandidateKeeps(w, ice);
    case ServerMessage(accepted) => ServerMessageKeeps(w, accepted);
    case AnswerCreated(sdp) => AnswerKeeps(w, sdp);
    case ServerCandidate(ice) => ServerCandidateKeeps(w, ice);
    case ClientMessage(accepted) => ClientMessageKeeps(w, accepted);
    case ClientChannelOpens => ClientOpensKeeps(w);
    case ServerChannelOpens => ServerOpensKeeps(w);
  }

  lemma DataStepKeepsInvariant(w: World, step: Step)
    requires Invariant(w) && Enabled(w, step) && IsDataStep(step)
    ensures Invariant(Apply(w, step))
  {
    match step
    case ReadLine(line) => ReadLineKeeps(w, line);
    case EndOfInput => EndOfInputKeeps(w);
    case ServerData => ServerDataKeeps(w);
    case ClientData => ClientDataKeeps(w);
    case LoseData(kept) => LoseDataKeeps(w, kept);
    case ServerReturns => ServerReturnsKeeps(w);
  }

  lemma OpenKeeps(w: World)
    requires Invariant(w) && Enabled(w, ClientOpen)
    ensures Invariant(Apply(w, ClientOpen))
  {}

  lemma ClientOpensKeeps(w: World)
    requires Invariant(w) && Enabled(w, ClientChannelOpens)
    ensures Invariant(Apply(w, ClientChannelOpens))
  {}

  lemma ReadLineKeeps(w: World, line: string)
    requires Invariant(w) && Enabled(w, ReadLine(line))
    ensures Invariant(Apply(w, ReadLine(line)))
  {
    assert w.client.channelOpen;
    LineSentKeeps(w, line, if line == "exit" then Over else Reading);
  }

  lemma LineSentKeeps(w: World, line: string, phase: Phase)
    requires Invariant(w) && w.phase == Reading && phase != RunningSocket && !w.client.failed
    ensures Invariant(w.(lines := w.lines + [line], dataToServer := Post(w.dataToServer, line), phase := phase))
  {
    assert (w.dataToServer.sent + [line])[..w.dataToServer.taken] == w.dataToServer.sent[..w.dataToServer.taken];
  }

  lemma EndOfInputKeeps(w: World)
    requires Invariant(w) && Enabled(w, EndOfInput)
    ensures Invariant(Apply(w, EndOfInput))
  {}

  lemma ServerReturnsKeeps(w: World)
    requires Invariant(w) && Enabled(w, ServerReturns)
    ensures Invariant(Apply(w, ServerReturns))
  {}

  lemma OfferKeeps(w: World, sdp: Sdp)
    requires Invariant(w) && Enabled(w, OfferCreated(sdp))
    ensures Invariant(Apply(w, OfferCreated(sdp)))
  {}

  lemma ClientCandidateKeeps(w: World, ice: Ice)
    requires Invariant(w) && Enabled(w, ClientCandidate(ice))
    ensures Invariant(Apply(w, ClientCandidate(ice)))
  {}

  lemma AnswerKeeps(w: World, sdp: Sdp)
    requires Invariant(w) && Enabled(w, AnswerCreated(sdp))
    ensures Invariant(Apply(w, AnswerCreated(sdp)))
  {}

  lemma ServerCandidateKeeps(w: World, ice: Ice)
    requires Invariant(w) && Enabled(w, ServerCandidate(ice))
    ensures Invariant(Apply(w, ServerCandidate(ice)))
  {}

  lemma ServerOpensKeeps(w: World)
    requires Invariant(w) && Enabled(w, ServerChannelOpens)
    ensures Invariant(Apply(w, ServerChannelOpens))
  {}

  /** What the handlers do with the messages the two programs send. */
  lemma DescriptionMessages(sdp: Sdp)
    ensures GetString(OfferMessage(sdp), "type") == "offer" && GetString(OfferMessage(sdp), "sdp") == sdp
    ensures GetString(AnswerMessage(sdp), "type") == "answer" && GetString(AnswerMessage(sdp), "answer") == sdp
  {
    assert OfferMessage(sdp)["type"] == JString("offer") && AnswerMessage(sdp)["type"] == JString("answer");
  }

  lemma CandidateMessage(p: Peer, ice: Ice, accepted: bool)
    requires p.state != NoPeer
    ensures GetString(ToJson(ice), "type") == "ice"
    ensures HandleIce(p, ToJson(ice), accepted)
            == if Transmissible(ice) && accepted then p.(pushed := p.pushed + [ice]) else p.(failed := true)
  {
    assert ToJson(ice)["type"] == JString("ice");
    RoundTripIffTransmissible(ice);
  }

  lemma FailureKeeps(w: World)
    requires Invariant(w)
    ensures Invariant(w.(server := w.server.(failed := true))) && Invariant(w.(client := w.client.(failed := true)))
  {}

  lemma ServerMessageKeeps(w: World, accepted: bool)
    requires Invariant(w) && Enabled(w, ServerMessage(accepted))
    ensures Invariant(Apply(w, ServerMessage(accepted)))
  {
    FailureKeeps(w);
    if w.toServer.taken == 0 {
      DescriptionMessages(w.client.local.value);
    } else {
      CandidateMessage(w.server, w.client.iceList[w.toServer.taken - 1], accepted);
      ServerPushKeeps(w, w.client.iceList[w.toServer.taken - 1]);
    }
  }

  lemma ServerPushKeeps(w: World, ice: Ice)
    requires Invariant(w) && 0 < w.toServer.taken < |w.toServer.sent|
    requires ice == w.client.iceList[w.toServer.taken - 1]
    ensures Invariant(w.(server := w.server.(pushed := w.server.pushed + [ice]), toServer := Take(w.toServer)))
  {}

  lemma ClientMessageKeeps(w: World, accepted: bool)
    requires Invariant(w) && Enabled(w, ClientMessage(accepted))
    ensures Invariant(Apply(w, ClientMessage(accepted)))
  {
    var k := w.toClient.taken;
    FailureKeeps(w);
    if k == 0 {
      DescriptionMessages(w.server.local.value);
      AnswerHandledKeeps(w);
    } else if k < ServerSent(w) {
      CandidateMessage(w.client, w.server.iceList[k - 1], accepted);
      ClientPushKeeps(w, w.server.iceList[k - 1]);
    } else {
      CloseHandledKeeps(w);
    }
  }

  lemma AnswerHandledKeeps(w: World)
    requires Invariant(w) && w.toClient.taken == 0 < |w.toClient.sent|
    ensures Invariant(w.(client := w.client.(state := Stable, remote := w.server.local), toClient := Take(w.toClient)))
  {}

  lemma ClientPushKeeps(w: World, ice: Ice)
    requires Invariant(w) && w.phase == RunningSocket && 0 < w.toClient.taken < ServerSent(w)
    requires ice == w.server.iceList[w.toClient.taken - 1]
    ensures Invariant(w.(client := w.client.(pushed := w.client.pushed + [ice]), toClient := Take(w.toClient)))
  {}

  lemma CloseHandledKeeps(w: World)
    requires Invariant(w) && w.phase == RunningSocket && w.toClient.taken == ServerSent(w) < |w.toClient.sent|
    ensures Invariant(w.(phase := Reading, toClient := Take(w.toClient)))
  {}

  lemma EchoesExtend(lines: seq<string>, k: nat)
    requires k < |lines|
    ensures Echoes(lines[..k + 1]) == Echoes(lines[..k]) + if lines[k] == "exit" then [] else [Echo(lines[k])]
  {
    assert lines[..k + 1][..k] == lines[..k];
  }

  /** What the data channel does leaves everything else alone. */
  lemma DataOnly(w: World, w': World)
    requires Invariant(w) && DataFlows(w') && w'.client == w.client && w'.server == w.server
    requires w'.toServer == w.toServer && w'.toClient == w.toClient && w'.phase == w.phase
    requires w'.socketOpen == w.socketOpen && w'.closing == w.closing
    ensures Invariant(w')
  {}

  lemma EchoFlows(w: World, line: string)
    requires DataFlows(w) && Waiting(w.dataToServer) && line == w.dataToServer.sent[w.dataToServer.taken] != "exit"
    ensures DataFlows(w.(dataToServer := Take(w.dataToServer), dataToClient := Post(w.dataToClient, Echo(line))))
  {
    var sent, k := w.dataToServer.sent, w.dataToServer.taken;
    EchoesExtend(sent, k);
    assert sent[..k + 1] == sent[..k] + [line];
    assert (w.dataToClient.sent + [Echo(line)])[..w.dataToClient.taken] == w.dataToClient.sent[..w.dataToClient.taken];
  }

  lemma ExitFlows(w: World)
    requires DataFlows(w) && Waiting(w.dataToServer) && w.dataToServer.sent[w.dataToServer.taken] == "exit"
    ensures DataFlows(w.(dataToServer := Take(w.dataToServer), listening := false))
  {
    var sent, k := w.dataToServer.sent, w.dataToServer.taken;
    EchoesExtend(sent, k);
    assert sent[..k + 1] == sent[..k] + ["exit"];
  }

  lemma ServerDataKeeps(w: World)
    requires Invariant(w) && Enabled(w, ServerData)
    ensures Invariant(Apply(w, ServerData))
  {
    var line := w.dataToServer.sent[w.dataToServer.taken];
    if line == "exit" {
      ExitFlows(w);
    } else {
      EchoFlows(w, line);
    }
    DataOnly(w, Apply(w, ServerData));
  }

  lemma ReceiptFlows(w: World)
    requires DataFlows(w) && Waiting(w.dataToClient)
    ensures DataFlows(w.(received := w.received + [w.dataToClient.sent[w.dataToClient.taken]],
                         dataToClient := Take(w.dataToClient)))
  {}

  lemma ClientDataKeeps(w: World)
    requires Invariant(w) && Enabled(w, ClientData)
    ensures Invariant(Apply(w, ClientData))
  {
    ReceiptFlows(w);
    DataOnly(w, Apply(w, ClientData));
  }

  lemma LoseDataKeeps(w: World, kept: nat)
    requires Invariant(w) && Enabled(w, LoseData(kept))
    ensures Invariant(Apply(w, LoseData(kept)))
  {
    assert w.dataToServer.sent[..kept][..w.dataToServer.taken] == w.dataToServer.sent[..w.dataToServer.taken];
  }

  // ----- What holds in every run

  ghost predicate OfferInFlight(w: World) {
    exists i :: w.toServer.taken <= i < |w.toServer.sent| && GetString(w.toServer.sent[i], "type") == "offer"
  }

  ghost predicate ServerAnswering(w: World) {
    w.server.remote.Some? && w.server.local.None?
  }

  ghost predicate AnswerInFlight(w: World) {
    exists i :: && w.toClient.taken <= i < |w.toClient.sent|
                && w.toClient.sent[i].Text? && GetString(w.toClient.sent[i].json, "type") == "answer"
  }

  ghost predicate ClientStable(w: World) {
    w.client.state == Stable && w.client.remote.Some?
  }

  ghost predicate ExactlyOne(a: bool, b: bool, c: bool, d: bool) {
    && (a || b || c || d) && !(a && b) && !(a && c) && !(a && d) && !(b && c) && !(b && d) && !(c && d)
  }

  lemma OfferInFlightIff(w: World)
    requires Invariant(w) && w.client.local.Some?
    ensures OfferInFlight(w) <==> w.toServer.taken == 0
  {
    DescriptionMessages(w.client.local.value);
    if w.toServer.taken == 0 {
      assert GetString(w.toServer.sent[0], "type") == "offer";
    }
    forall i | 1 <= i < |w.toServer.sent| ensures GetString(w.toServer.sent[i], "type") != "offer" {
      assert w.toServer.sent[i]["type"] == JString("ice");
    }
  }

  lemma AnswerInFlightIff(w: World)
    requires Invariant(w)
    ensures AnswerInFlight(w) <==> w.server.local.Some? && w.toClient.taken == 0
  {
    if w.server.local.Some? {
      DescriptionMessages(w.server.local.value);
      if w.toClient.taken == 0 {
        assert GetString(w.toClient.sent[0].json, "type") == "answer";
      }
      forall i | 1 <= i < |w.toClient.sent| && w.toClient.sent[i].Text?
        ensures GetString(w.toClient.sent[i].json, "type") != "answer"
      {
        assert w.toClient.sent[i].json["type"] == JString("ice");
      }
    }
  }

  /** Once the offer is sent, exactly one of four things is true: the offer is in flight, the server
      is answering, the answer is in flight, the client is stable. */
  lemma HandshakeIsInOnePhase(steps: seq<Step>)
    requires Exec(steps).client.local.Some?
    ensures var w := Exec(steps); ExactlyOne(OfferInFlight(w), ServerAnswering(w), AnswerInFlight(w), ClientStable(w))
  {
    var w := Exec(steps);
    EveryRunKeepsInvariant(steps);
    OfferInFlightIff(w);
    AnswerInFlightIff(w);
  }

  /** Once the client is stable both sides agree: each one's local description is the other's remote
      description, and both are set. */
  lemma StablePeersAgree(steps: seq<Step>)
    requires ClientStable(Exec(steps))
    ensures var w := Exec(steps);
            && w.client.local.Some? && w.client.local == w.server.remote
            && w.client.remote.Some? && w.client.remote == w.server.local
  {
    EveryRunKeepsInvariant(steps);
  }

  /** A side handles candidates only after the peer's description, never with a null peer connection,
      and pushes an unchanged, in-order prefix of the peer's candidate list. */
  lemma CandidatesAfterDescription(steps: seq<Step>)
    ensures var w := Exec(steps);
            && !w.server.nullUse && (w.server.pushed != [] ==> w.server.remote.Some?)
            && w.server.pushed <= w.client.iceList
            && !w.client.nullUse && (w.client.pushed != [] ==> w.client.remote.Some?)
            && w.client.pushed <= w.server.iceList
  {
    EveryRunKeepsInvariant(steps);
  }

  /** The library accepts what it is given and a candidate has its text, media id and index. */
  predicate Benign(step: Step) {
    && (step.ServerMessage? || step.ClientMessage? ==> step.accepted)
    && (step.ClientCandidate? || step.ServerCandidate? ==> Transmissible(step.ice))
  }

  ghost predicate Complete(w: World) {
    && (forall i :: 0 <= i < |w.client.iceList| ==> Transmissible(w.client.iceList[i]))
    && (forall i :: 0 <= i < |w.server.iceList| ==> Transmissible(w.server.iceList[i]))
  }

  datatype Side = Client | Server

  predicate Failed(w: World, side: Side) {
    if side.Client? then w.client.failed else w.server.failed
  }

  /** The side gathers a candidate after its end of the WebSocket is closed: the client after its
      WebSocket loop has ended, the server after it has closed the connection. */
  predicate IsLate(w: World, step: Step, side: Side) {
    Enabled(w, step) && if side.Client? then step.ClientCandidate? && w.phase != RunningSocket
                        else step.ServerCandidate? && w.closing
  }

  /** The side handles a message that the library does not accept, or a candidate that is not complete. */
  predicate Refuses(w: World, step: Step, side: Side) {
    && Enabled(w, step)
    && match side {
         case Server =>
           && step.ServerMessage?
           && (!step.accepted || Incomplete(w.client.iceList, w.toServer.taken))
         case Client =>
           && step.ClientMessage? && w.toClient.sent[w.toClient.taken].Text?
           && (!step.accepted || Incomplete(w.server.iceList, w.toClient.taken))
       }
  }

  /** The candidate that is message `k` of the sender, whose description is message 0, is not complete. */
  predicate Incomplete(iceList: seq<Ice>, k: nat) {
    0 < k <= |iceList| && !Transmissible(iceList[k - 1])
  }

  predicate IsWrong(w: World, step: Step, side: Side) {
    IsLate(w, step, side) || Refuses(w, step, side)
  }

  ghost predicate WrongAt(steps: seq<Step>, i: nat, side: Side)
    requires i < |steps|
  {
    IsWrong(Exec(steps[..i]), steps[i], side)
  }

  ghost predicate GoesWrong(steps: seq<Step>, side: Side) {
    exists i :: 0 <= i < |steps| && WrongAt(steps, i, side)
  }

  ghost predicate LateAt(steps: seq<Step>, i: nat, side: Side)
    requires i < |steps|
  {
    IsLate(Exec(steps[..i]), steps[i], side)
  }

  ghost predicate GathersLate(steps: seq<Step>, side: Side) {
    exists i :: 0 <= i < |steps| && LateAt(steps, i, side)
  }

  /** The step makes a side fail exactly if that side goes wrong in it. */
  ghost predicate FailsIfWrong(w: World, step: Step, w': World) {
    && (w'.client.failed <==> w.client.failed || IsWrong(w, step, Client))
    && (w'.server.failed <==> w.server.failed || IsWrong(w, step, Server))
  }

  lemma ServerMessageFails(w: World, accepted: bool)
    requires Invariant(w) && Enabled(w, ServerMessage(accepted))
    ensures FailsIfWrong(w, ServerMessage(accepted), Apply(w, ServerMessage(accepted)))
  {
    if w.toServer.taken == 0 {
      DescriptionMessages(w.client.local.value);
    } else {
      CandidateMessage(w.server, w.client.iceList[w.toServer.taken - 1], accepted);
    }
  }

  lemma ClientMessageFails(w: World, accepted: bool)
    requires Invariant(w) && Enabled(w, ClientMessage(accepted))
    ensures FailsIfWrong(w, ClientMessage(accepted), Apply(w, ClientMessage(accepted)))
  {
    var k := w.toClient.taken;
    if k == 0 {
      DescriptionMessages(w.server.local.value);
    } else if k < ServerSent(w) {
      CandidateMessage(w.client, w.server.iceList[k - 1], accepted);
    }
  }

  /** The steps of the client's `main` and of the data channel. */
  predicate IsDataStep(step: Step) {
    || step.ReadLine? || step.EndOfInput? || step.ServerData?
    || step.ClientData? || step.LoseData? || step.ServerReturns?
  }

  lemma DataStepFailsNot(w: World, step: Step)
    requires Enabled(w, step) && IsDataStep(step)
    ensures FailsIfWrong(w, step, Apply(w, step))
  {
    assert Apply(w, step).client == w.client && Apply(w, step).server == w.server;
  }

  lemma AnswerFailsNot(w: World, sdp: Sdp)
    requires Invariant(w) && Enabled(w, AnswerCreated(sdp))
    ensures FailsIfWrong(w, AnswerCreated(sdp), Apply(w, AnswerCreated(sdp)))
  {}

  lemma CandidateFailsIfLate(w: World, step: Step)
    requires Enabled(w, step) && (step.ClientCandidate? || step.ServerCandidate?)
    ensures FailsIfWrong(w, step, Apply(w, step))
  {
    if step.ClientCandidate? {
      assert Apply(w, step).server == w.server;
    } else {
      assert Apply(w, step).client == w.client;
    }
  }

  lemma OpeningFailsNot(w: World, step: Step)
    requires Enabled(w, step)
    requires step.ClientOpen? || step.OfferCreated? || step.ClientChannelOpens? || step.ServerChannelOpens?
    ensures FailsIfWrong(w, step, Apply(w, step))
  {}

  lemma StepFailsExactlyIfWrong(w: World, step: Step)
    requires Invariant(w) && Enabled(w, step)
    ensures FailsIfWrong(w, step, Apply(w, step))
  {
    if step.ServerMessage? {
      ServerMessageFails(w, step.accepted);
    } else if step.ClientMessage? {
      ClientMessageFails(w, step.accepted);
    } else if step.ClientCandidate? || step.ServerCandidate? {
      CandidateFailsIfLate(w, step);
    } else if step.AnswerCreated? {
      AnswerFailsNot(w, step.sdp);
    } else if IsDataStep(step) {
      DataStepFailsNot(w, step);
    } else {
      OpeningFailsNot(w, step);
    }
  }

  lemma WrongAtFront(front: seq<Step>, step: Step, i: nat, side: Side)
    requires i <= |front|
    ensures WrongAt(front + [step], i, side) <==>
            if i < |front| then WrongAt(front, i, side) else IsWrong(Exec(front), step, side)
  {
    assert (front + [step])[..i] == front[..i];
    assert i == |front| ==> front[..i] == front;
  }

  lemma WrongSnoc(front: seq<Step>, step: Step, side: Side)
    ensures GoesWrong(front + [step], side) <==> GoesWrong(front, side) || IsWrong(Exec(front), step, side)
  {
    if GoesWrong(front, side) {
      var i :| 0 <= i < |front| && WrongAt(front, i, side);
      WrongAtFront(front, step, i, side);
    }
    if GoesWrong(front + [step], side) {
      var i :| 0 <= i < |front + [step]| && WrongAt(front + [step], i, side);
      WrongAtFront(front, step, i, side);
    }
    WrongAtFront(front, step, |front|, side);
  }

  /** In every run a side fails if and only if it gathers a candidate after its end of the WebSocket is
      closed, or handles a message the library does not accept or a candidate that is not complete. */
  lemma {:induction false} FailsExactly(steps: seq<Step>, side: Side)
    ensures Failed(Exec(steps), side) <==> GoesWrong(steps, side)
  {
    if steps != [] {
      var front, step := steps[..|steps| - 1], steps[|steps| - 1];
      FailsExactly(front, side);
      EveryRunKeepsInvariant(front);
      WrongSnoc(front, step, side);
      assert steps == front + [step];
      if Enabled(Exec(front), step) {
        StepFailsExactlyIfWrong(Exec(front), step);
      }
    }
  }

  ghost predicate AllBenign(steps: seq<Step>) {
    forall i :: 0 <= i < |steps| ==> Benign(steps[i])
  }

  ghost predicate SameLists(w: World, w': World) {
    w'.client.iceList == w.client.iceList && w'.server.iceList == w.server.iceList
  }

  lemma ServerMessageKeepsLists(w: World, accepted: bool)
    requires Enabled(w, ServerMessage(accepted))
    ensures SameLists(w, Apply(w, ServerMessage(accepted)))
  {
    var p := HandleAtServer(w.server, w.toServer.sent[w.toServer.taken], accepted);
    assert p.iceList == w.server.iceList;
  }

  lemma ClientMessageKeepsLists(w: World, accepted: bool)
    requires Enabled(w, ClientMessage(accepted))
    ensures SameLists(w, Apply(w, ClientMessage(accepted)))
  {
    var frame := w.toClient.sent[w.toClient.taken];
    assert frame.Text? ==> HandleAtClient(w.client, frame.json, accepted).iceList == w.client.iceList;
  }

  lemma OpeningKeepsLists(w: World, step: Step)
    requires Enabled(w, step)
    requires step.ClientOpen? || step.OfferCreated? || step.ClientChannelOpens? || step.ServerChannelOpens?
    ensures SameLists(w, Apply(w, step))
  {}

  lemma CandidateComplete(w: World, step: Step)
    requires Complete(w) && Enabled(w, step) && Benign(step) && (step.ClientCandidate? || step.ServerCandidate?)
    ensures Complete(Apply(w, step))
  {
    if step.ClientCandidate? {
      assert Apply(w, step).client.iceList == w.client.iceList + [step.ice] && Apply(w, step).server == w.server;
    } else {
      assert Apply(w, step).server.iceList == w.server.iceList + [step.ice] && Apply(w, step).client == w.client;
    }
  }

  lemma OtherStepKeepsLists(w: World, step: Step)
    requires Enabled(w, step) && !step.ClientCandidate? && !step.ServerCandidate?
    ensures SameLists(w, Apply(w, step))
  {
    if step.ServerMessage? {
      ServerMessageKeepsLists(w, step.accepted);
    } else if step.ClientMessage? {
      ClientMessageKeepsLists(w, step.accepted);
    } else if step.AnswerCreated? {
      assert Apply(w, step).client == w.client;
    } else if IsDataStep(step) {
      assert Apply(w, step).client == w.client && Apply(w, step).server == w.server;
    } else {
      OpeningKeepsLists(w, step);
    }
  }

  lemma BenignStepComplete(w: World, step: Step)
    requires Complete(w) && Enabled(w, step) && Benign(step)
    ensures Complete(Apply(w, step))
  {
    if step.ClientCandidate? || step.ServerCandidate? {
      CandidateComplete(w, step);
    } else {
      OtherStepKeepsLists(w, step);
    }
  }

  lemma {:induction false} BenignRunsComplete(steps: seq<Step>)
    requires AllBenign(steps)
    ensures Complete(Exec(steps))
  {
    if steps != [] {
      BenignRunsComplete(steps[..|steps| - 1]);
      if Enabled(Exec(steps[..|steps| - 1]), steps[|steps| - 1]) {
        BenignStepComplete(Exec(steps[..|steps| - 1]), steps[|steps| - 1]);
      }
    }
  }

  lemma BenignNeverRefuses(w: World, step: Step, side: Side)
    requires Complete(w) && Benign(step)
    ensures IsWrong(w, step, side) <==> IsLate(w, step, side)
  {}

  /** So in a run where the library accepts everything and candidates are complete, a side fails if and
      only if it gathers a candidate too late. */
  lemma FailsExactlyWhenLate(steps: seq<Step>, side: Side)
    requires AllBenign(steps)
    ensures Failed(Exec(steps), side) <==> GathersLate(steps, side)
  {
    FailsExactly(steps, side);
    forall i | 0 <= i < |steps| ensures WrongAt(steps, i, side) <==> LateAt(steps, i, side) {
      BenignRunsComplete(steps[..i]);
      BenignNeverRefuses(Exec(steps[..i]), steps[i], side);
    }
  }

  lemma ExecSnoc(steps: seq<Step>, step: Step)
    ensures Exec(steps + [step]) == Next(Exec(steps), step)
  {
    assert (steps + [step])[..|steps|] == steps;
  }

  const OFFERED: seq<Step> := [ClientOpen] + [OfferCreated("offer")] + [ServerMessage(true)]
  const ANSWERED := OFFERED + [AnswerCreated("answer")] + [ClientMessage(true)]
  const CONNECTED := ANSWERED + [ClientChannelOpens] + [ServerChannelOpens]
  const LATE_ICE := Ice("candidate", "0", 0)

  lemma OfferIsHandled()
    ensures var w := Exec(OFFERED);
            && w.server == NEW_PEER.(state := HaveRemoteOffer, remote := Some("offer"), creating := true)
            && w.client == NEW_PEER.(state := HaveLocalOffer, local := Some("offer"))
            && w.toClient == Channel([], 0) && !w.closing && w.phase == RunningSocket && !w.serverQuit
  {
    DescriptionMessages("offer");
    assert Exec([]) == INITIAL && [ClientOpen] == [] + [ClientOpen];
    ExecSnoc([], ClientOpen);
    ExecSnoc([ClientOpen], OfferCreated("offer"));
    ExecSnoc([ClientOpen] + [OfferCreated("offer")], ServerMessage(true));
  }

  lemma AnswerIsHandled()
    ensures var w := Exec(ANSWERED);
            && w.client.state == Stable && w.client.remote.Some? && !w.client.failed && !w.closing && !w.serverQuit
            && w.server.local.Some? && !w.server.failed && !w.server.channelOpen
  {
    OfferIsHandled();
    DescriptionMessages("answer");
    ExecSnoc(OFFERED, AnswerCreated("answer"));
    ExecSnoc(OFFERED + [AnswerCreated("answer")], ClientMessage(true));
  }

  lemma ConnectionCloses()
    ensures Exec(CONNECTED).closing && Exec(CONNECTED).server.local.Some? && !Exec(CONNECTED).server.failed
    ensures !Exec(CONNECTED).serverQuit
  {
    AnswerIsHandled();
    ExecSnoc(ANSWERED, ClientChannelOpens);
    ExecSnoc(ANSWERED + [ClientChannelOpens], ServerChannelOpens);
  }

  /** A benign run in which the server gathers a candidate after its data channel opened, and fails. */
  lemma LateCandidateFails()
    ensures AllBenign(CONNECTED + [ServerCandidate(LATE_ICE)])
    ensures Exec(CONNECTED + [ServerCandidate(LATE_ICE)]).server.failed
  {
    ConnectionCloses();
    ExecSnoc(CONNECTED, ServerCandidate(LATE_ICE));
  }

  lemma StableStays(w: World, step: Step)
    requires Invariant(w) && ClientStable(w) && Enabled(w, step)
    ensures ClientStable(Apply(w, step))
  {
    StepKeepsInvariant(w, step);
    TakenGrows(w, step);
  }

  lemma TakenGrows(w: World, step: Step)
    requires Enabled(w, step)
    ensures w.toClient.taken <= Apply(w, step).toClient.taken
  {
    if step.ClientMessage? {
      MessageTaken(w, step.accepted);
    } else if step.AnswerCreated? || step.ServerCandidate? || step.ServerChannelOpens? {
      ServerTakesNone(w, step);
    } else {
      assert Apply(w, step).toClient == w.toClient;
    }
  }

  lemma MessageTaken(w: World, accepted: bool)
    requires Enabled(w, ClientMessage(accepted))
    ensures w.toClient.taken <= Apply(w, ClientMessage(accepted)).toClient.taken
  {}

  lemma ServerTakesNone(w: World, step: Step)
    requires Enabled(w, step) && (step.AnswerCreated? || step.ServerCandidate? || step.ServerChannelOpens?)
    ensures w.toClient.taken == Apply(w, step).toClient.taken
  {}

  /** Before the client is stable nothing fails in a run of benign steps. */
  lemma {:induction false} FailsOnlyOnceStable(steps: seq<Step>)
    requires AllBenign(steps)
    ensures Exec(steps).client.failed || Exec(steps).server.failed ==> ClientStable(Exec(steps))
  {
    if steps != [] {
      var front, step := steps[..|steps| - 1], steps[|steps| - 1];
      FailsOnlyOnceStable(front);
      BenignRunsComplete(front);
      EveryRunKeepsInvariant(front);
      if Enabled(Exec(front), step) {
        StepFailsExactlyIfWrong(Exec(front), step);
        BenignNeverRefuses(Exec(front), step, Client);
        BenignNeverRefuses(Exec(front), step, Server);
        if ClientStable(Exec(front)) {
          StableStays(Exec(front), step);
        }
      }
    }
  }

  /** The handshake never gets stuck: until the client is stable, one of its steps is enabled. */
  lemma HandshakeNeverStuck(steps: seq<Step>, sdp: Sdp)
    requires AllBenign(steps) && !ClientStable(Exec(steps))
    ensures var w := Exec(steps);
            || Enabled(w, ClientOpen) || Enabled(w, OfferCreated(sdp)) || Enabled(w, ServerMessage(true))
            || Enabled(w, AnswerCreated(sdp)) || Enabled(w, ClientMessage(true))
  {
    EveryRunKeepsInvariant(steps);
    FailsOnlyOnceStable(steps);
    NotStuck(Exec(steps), sdp);
  }

  lemma NotStuck(w: World, sdp: Sdp)
    requires Invariant(w) && !w.client.failed && !w.server.failed && !ClientStable(w)
    ensures || Enabled(w, ClientOpen) || Enabled(w, OfferCreated(sdp)) || Enabled(w, ServerMessage(true))
            || Enabled(w, AnswerCreated(sdp)) || Enabled(w, ClientMessage(true))
  {
    if w.client.local.Some? && w.server.remote.Some? && w.server.local.Some? {
      assert w.toClient.taken == 0 && Waiting(w.toClient);
    }
  }

  lemma {:induction false} EchoesMonotone(a: seq<string>, b: seq<string>)
    requires a <= b
    ensures Echoes(a) <= Echoes(b)
  {
    if a != b {
      EchoesMonotone(a, b[..|b| - 1]);
    }
  }

  /** The lines that are to be echoed. */
  function NotExit(lines: seq<string>): seq<string> {
    if lines == [] then []
    else NotExit(lines[..|lines| - 1]) + if lines[|lines| - 1] == "exit" then [] else [lines[|lines| - 1]]
  }

  lemma {:induction false} EchoesAreEchoes(lines: seq<string>)
    ensures |Echoes(lines)| == |NotExit(lines)|
    ensures forall i :: 0 <= i < |NotExit(lines)| ==> Echoes(lines)[i] == "Echo of: " + NotExit(lines)[i]
  {
    if lines != [] {
      EchoesAreEchoes(lines[..|lines| - 1]);
    }
  }

  /** What was received is the front of what is to be echoed, in order, each line after "Echo of: ". */
  ghost predicate EchoFront(received: seq<string>, lines: seq<string>) {
    && |received| <= |NotExit(lines)|
    && forall i :: 0 <= i < |received| ==> received[i] == "Echo of: " + NotExit(lines)[i]
  }

  /** The client's `main` sends nothing before the server's data channel is open, and what it has
      received is always the front of the echoes of the lines it sent, in order. */
  lemma EchoedInOrder(steps: seq<Step>)
    ensures var w := Exec(steps); (w.lines != [] ==> w.server.channelOpen) && EchoFront(w.received, w.lines)
  {
    var w := Exec(steps);
    EveryRunKeepsInvariant(steps);
    EchoesMonotone(w.dataToServer.sent[..w.dataToServer.taken], w.lines);
    EchoesAreEchoes(w.lines);
  }

  /** While the client reads lines, once nothing is in flight every line has been echoed. */
  lemma AllEchoedWhenDrained(steps: seq<Step>)
    requires var w := Exec(steps);
             w.phase == Reading && !w.client.failed && !Waiting(w.dataToServer) && !Waiting(w.dataToClient)
    ensures Exec(steps).received == Echoes(Exec(steps).lines)
  {
    var w := Exec(steps);
    EveryRunKeepsInvariant(steps);
    assert w.dataToServer.sent[..w.dataToServer.taken] == w.lines;
    assert w.dataToClient.sent[..w.dataToClient.taken] == w.dataToClient.sent;
  }

  /** The server stops listening exactly when it has taken an "exit". */
  lemma StopsListeningExactlyOnExit(steps: seq<Step>)
    ensures var w := Exec(steps);
            && w.dataToServer.taken <= |w.dataToServer.sent|
            && (!w.listening <==> "exit" in w.dataToServer.sent[..w.dataToServer.taken])
  {
    EveryRunKeepsInvariant(steps);
  }

  /** The server reaches `quit` only after the client sent "exit". */
  lemma ServerQuitsOnlyAfterExit(steps: seq<Step>)
    requires Exec(steps).serverQuit
    ensures "exit" in Exec(steps).lines
  {
    EveryRunKeepsInvariant(steps);
  }

  // ----- What the environment did, and nothing else, is what each side has

  /** What happened to the two programs from outside: descriptions created, candidates gathered, channels
      opened, lines read, the WebSocket opened, the server's `main` returned. */
  datatype Inputs = Inputs(offer: Option<Sdp>, answer: Option<Sdp>, clientIce: seq<Ice>, serverIce: seq<Ice>,
                           clientOpened: bool, serverOpened: bool, lines: seq<string>, connected: bool, quit: bool)

  const NO_INPUTS := Inputs(None, None, [], [], false, false, [], false, false)

  function Noted(step: Step, inputs: Inputs): Inputs {
    match step
    case ClientOpen => inputs.(connected := true)
    case OfferCreated(sdp) => inputs.(offer := Some(sdp))
    case ClientCandidate(ice) => inputs.(clientIce := inputs.clientIce + [ice])
    case ServerMessage(_) => inputs
    case AnswerCreated(sdp) => inputs.(answer := Some(sdp))
    case ServerCandidate(ice) => inputs.(serverIce := inputs.serverIce + [ice])
    case ClientMessage(_) => inputs
    case ClientChannelOpens => inputs.(clientOpened := true)
    case ServerChannelOpens => inputs.(serverOpened := true)
    case ReadLine(line) => inputs.(lines := inputs.lines + [line])
    case EndOfInput => inputs
    case ServerData => inputs
    case ClientData => inputs
    case LoseData(_) => inputs
    case ServerReturns => inputs.(quit := true)
  }

  /** The inputs of a run: the steps that were possible when their turn came. */
  ghost function InputsOf(steps: seq<Step>): Inputs {
    if steps == [] then NO_INPUTS
    else
      var front, step := steps[..|steps| - 1], steps[|steps| - 1];
      if Enabled(Exec(front), step) then Noted(step, InputsOf(front)) else InputsOf(front)
  }

  ghost predicate Reflects(w: World, inputs: Inputs) {
    && w.client.local == inputs.offer && w.server.local == inputs.answer
    && w.client.iceList == inputs.clientIce && w.server.iceList == inputs.serverIce
    && w.client.channelOpen == inputs.clientOpened && w.server.channelOpen == inputs.serverOpened
    && w.lines == inputs.lines && w.socketOpen == inputs.connected && w.serverQuit == inputs.quit
  }

  /** Handling a message leaves alone what a side has of its own. */
  ghost predicate SameOwn(p: Peer, q: Peer) {
    q.local == p.local && q.iceList == p.iceList && q.channelOpen == p.channelOpen
  }

  lemma ServerHandlerKeepsOwn(p: Peer, json: Json, accepted: bool)
    ensures SameOwn(p, HandleAtServer(p, json, accepted))
  {}

  lemma ClientHandlerKeepsOwn(p: Peer, json: Json, accepted: bool)
    ensures SameOwn(p, HandleAtClient(p, json, accepted))
  {}

  ghost predicate SameInputs(w: World, w': World) {
    && SameOwn(w.client, w'.client) && SameOwn(w.server, w'.server)
    && w'.lines == w.lines && w'.socketOpen == w.socketOpen && w'.serverQuit == w.serverQuit
  }

  lemma ServerMessageReflects(w: World, accepted: bool)
    requires Enabled(w, ServerMessage(accepted))
    ensures SameInputs(w, Apply(w, ServerMessage(accepted)))
  {
    ServerHandlerKeepsOwn(w.server, w.toServer.sent[w.toServer.taken], accepted);
  }

  lemma ClientMessageReflects(w: World, accepted: bool)
    requires Enabled(w, ClientMessage(accepted))
    ensures SameInputs(w, Apply(w, ClientMessage(accepted)))
  {
    var frame := w.toClient.sent[w.toClient.taken];
    if frame.Text? {
      ClientHandlerKeepsOwn(w.client, frame.json, accepted);
    }
  }

  lemma DataStepReflects(w: World, step: Step, inputs: Inputs)
    requires Reflects(w, inputs) && Enabled(w, step) && IsDataStep(step)
    ensures Reflects(Apply(w, step), Noted(step, inputs))
  {
    assert Apply(w, step).client == w.client && Apply(w, step).server == w.server;
  }

  lemma CreationReflects(w: World, step: Step, inputs: Inputs)
    requires Reflects(w, inputs) && Enabled(w, step) && (step.OfferCreated? || step.AnswerCreated?)
    ensures Reflects(Apply(w, step), Noted(step, inputs))
  {}

  lemma CandidateReflects(w: World, step: Step, inputs: Inputs)
    requires Reflects(w, inputs) && Enabled(w, step) && (step.ClientCandidate? || step.ServerCandidate?)
    ensures Reflects(Apply(w, step), Noted(step, inputs))
  {}

  lemma OpeningReflects(w: World, step: Step, inputs: Inputs)
    requires Reflects(w, inputs) && Enabled(w, step)
    requires step.ClientOpen? || step.ClientChannelOpens? || step.ServerChannelOpens?
    ensures Reflects(Apply(w, step), Noted(step, inputs))
  {}

  lemma StepReflects(w: World, step: Step, inputs: Inputs)
    requires Reflects(w, inputs) && Enabled(w, step)
    ensures Reflects(Apply(w, step), Noted(step, inputs))
  {
    if step.ServerMessage? {
      ServerMessageReflects(w, step.accepted);
    } else if step.ClientMessage? {
      ClientMessageReflects(w, step.accepted);
    } else if IsDataStep(step) {
      DataStepReflects(w, step, inputs);
    } else if step.OfferCreated? || step.AnswerCreated? {
      CreationReflects(w, step, inputs);
    } else if step.ClientCandidate? || step.ServerCandidate? {
      CandidateReflects(w, step, inputs);
    } else {
      OpeningReflects(w, step, inputs);
    }
  }

  /** In every run each side's own description, its candidates in order, its open channel and the lines
      sent are exactly those its library, its user and its peer connection gave it. */
  lemma {:induction false} EveryRunReflectsInputs(steps: seq<Step>)
    ensures Reflects(Exec(steps), InputsOf(steps))
  {
    if steps != [] {
      var front, step := steps[..|steps| - 1], steps[|steps| - 1];
      EveryRunReflectsInputs(front);
      if Enabled(Exec(front), step) {
        StepReflects(Exec(front), step, InputsOf(front));
      }
    }
  }

  // ----- The handshake can always be completed

  /** What the handshake needs next. */
  function NextStep(w: World): Step {
    if !w.socketOpen then ClientOpen
    else if w.client.local.None? then OfferCreated("offer")
    else if w.toServer.taken == 0 then ServerMessage(true)
    else if w.server.local.None? then AnswerCreated("answer")
    else if w.toClient.taken == 0 then ClientMessage(true)
    else if !w.client.channelOpen then ClientChannelOpens
    else if !w.server.channelOpen then ServerChannelOpens
    else ClientMessage(true)
  }

  function StagesLeft(w: World): nat {
    if !w.socketOpen then 7
    else if w.client.local.None? then 6
    else if w.toServer.taken == 0 then 5
    else if w.server.local.None? then 4
    else if w.toClient.taken == 0 then 3
    else if !w.client.channelOpen then 2
    else if !w.server.channelOpen then 1
    else 0
  }

  function MessagesLeft(w: World): nat {
    if w.toClient.taken <= |w.toClient.sent| then |w.toClient.sent| - w.toClient.taken else 0
  }

  ghost predicate Healthy(w: World) {
    Invariant(w) && Complete(w) && !w.client.failed && !w.server.failed
  }

  /** The next step is possible, is benign, harms neither side, and brings the end nearer. */
  ghost predicate Advances(w: World, step: Step) {
    && Enabled(w, step) && Benign(step) && Healthy(Apply(w, step))
    && (StagesLeft(Apply(w, step)) < StagesLeft(w)
        || (StagesLeft(Apply(w, step)) == StagesLeft(w) && MessagesLeft(Apply(w, step)) < MessagesLeft(w)))
  }

  lemma StaysHealthy(w: World, step: Step)
    requires Healthy(w) && Enabled(w, step) && Benign(step) && !IsLate(w, step, Client) && !IsLate(w, step, Server)
    ensures Healthy(Apply(w, step))
  {
    StepKeepsInvariant(w, step);
    BenignStepComplete(w, step);
    StepFailsExactlyIfWrong(w, step);
    BenignNeverRefuses(w, step, Client);
    BenignNeverRefuses(w, step, Server);
  }

  lemma OpeningAdvances(w: World)
    requires Healthy(w) && w.phase == RunningSocket && StagesLeft(w) >= 6
    ensures Enabled(w, NextStep(w)) && StagesLeft(Apply(w, NextStep(w))) < StagesLeft(w)
  {}

  lemma OfferAdvances(w: World)
    requires Healthy(w) && w.phase == RunningSocket && StagesLeft(w) == 5
    ensures Enabled(w, NextStep(w)) && StagesLeft(Apply(w, NextStep(w))) < StagesLeft(w)
  {
    StaysHealthy(w, ServerMessage(true));
    assert Apply(w, ServerMessage(true)).toServer.taken == 1;
    ServerMessageLeavesClient(w);
  }

  lemma ServerMessageLeavesClient(w: World)
    requires Enabled(w, ServerMessage(true))
    ensures var w' := Apply(w, ServerMessage(true)); w'.client == w.client && w'.socketOpen == w.socketOpen
  {}

  lemma AnswerAdvances(w: World)
    requires Healthy(w) && w.phase == RunningSocket && StagesLeft(w) == 4
    ensures Enabled(w, NextStep(w)) && StagesLeft(Apply(w, NextStep(w))) < StagesLeft(w)
  {}

  lemma ChannelAdvances(w: World)
    requires Healthy(w) && w.phase == RunningSocket && 1 <= StagesLeft(w) <= 2
    ensures Enabled(w, NextStep(w)) && StagesLeft(Apply(w, NextStep(w))) < StagesLeft(w)
  {}

  lemma MessageIsTaken(w: World)
    requires Healthy(w) && Enabled(w, ClientMessage(true))
    ensures var w' := Apply(w, ClientMessage(true));
            && w'.toClient == Take(w.toClient) && w'.toServer == w.toServer && w'.server == w.server
            && w'.client.local == w.client.local && w'.client.channelOpen == w.client.channelOpen
            && w'.socketOpen == w.socketOpen
  {
    StaysHealthy(w, ClientMessage(true));
    var frame := w.toClient.sent[w.toClient.taken];
    if frame.Text? {
      var p := HandleAtClient(w.client, frame.json, true);
      assert p.local == w.client.local && p.channelOpen == w.client.channelOpen;
    }
  }

  lemma MessageAdvances(w: World)
    requires Healthy(w) && w.phase == RunningSocket && (StagesLeft(w) == 3 || StagesLeft(w) == 0)
    ensures Advances(w, NextStep(w))
  {
    StaysHealthy(w, ClientMessage(true));
    MessageIsTaken(w);
  }

  lemma NextStepAdvances(w: World)
    requires Healthy(w) && w.phase == RunningSocket
    ensures Advances(w, NextStep(w))
  {
    if StagesLeft(w) >= 6 {
      OpeningAdvances(w);
    } else if StagesLeft(w) == 5 {
      OfferAdvances(w);
    } else if StagesLeft(w) == 4 {
      AnswerAdvances(w);
    } else if 1 <= StagesLeft(w) <= 2 {
      ChannelAdvances(w);
    } else {
      MessageAdvances(w);
    }
    if StagesLeft(w) != 3 && StagesLeft(w) != 0 {
      StaysHealthy(w, NextStep(w));
    }
  }

  lemma AdvancesInRun(steps: seq<Step>)
    requires Healthy(Exec(steps)) && Exec(steps).phase == RunningSocket
    ensures var w := Exec(steps);
            var w' := Exec(steps + [NextStep(w)]);
            && Benign(NextStep(w)) && Healthy(w')
            && (StagesLeft(w') < StagesLeft(w)
                || (StagesLeft(w') == StagesLeft(w) && MessagesLeft(w') < MessagesLeft(w)))
  {
    NextStepAdvances(Exec(steps));
    ExecSnoc(steps, NextStep(Exec(steps)));
  }

  lemma PrependBenign(steps: seq<Step>, step: Step, rest: seq<Step>)
    requires Benign(step) && AllBenign(rest)
    ensures AllBenign([step] + rest) && steps + [step] + rest == steps + ([step] + rest)
  {}

  /** The handshake is over and nothing went wrong. */
  ghost predicate Completed(steps: seq<Step>) {
    Healthy(Exec(steps)) && Exec(steps).phase != RunningSocket
  }

  /** From every run in which all was benign and no side has failed, the handshake can be completed: the
      data channel opens on both sides, the WebSocket is closed, and the client begins to read. */
  lemma {:induction false} HandshakeCanComplete(steps: seq<Step>) returns (more: seq<Step>)
    requires Healthy(Exec(steps))
    ensures AllBenign(more) && Completed(steps + more)
    decreases StagesLeft(Exec(steps)), MessagesLeft(Exec(steps))
  {
    if Completed(steps) {
      more := [];
      assert steps + more == steps;
    } else {
      AdvancesInRun(steps);
      var step := NextStep(Exec(steps));
      var rest := HandshakeCanComplete(steps + [step]);
      PrependBenign(steps, step, rest);
      more := [step] + rest;
    }
  }

  // ----- Whatever the client sends can be echoed

  function DataLeft(w: World): nat {
    (if w.dataToServer.taken <= |w.dataToServer.sent| then 2 * (|w.dataToServer.sent| - w.dataToServer.taken) else 0)
    + if w.dataToClient.taken <= |w.dataToClient.sent| then |w.dataToClient.sent| - w.dataToClient.taken else 0
  }

  /** The client reads lines and the server serves. */
  ghost predicate Talking(w: World) {
    Invariant(w) && w.phase == Reading && !w.client.failed && !w.server.failed && !w.serverQuit
  }

  predicate InFlight(w: World) {
    Waiting(w.dataToServer) || Waiting(w.dataToClient)
  }

  function NextData(w: World): Step {
    if Waiting(w.dataToServer) then ServerData else ClientData
  }

  lemma DataAdvances(w: World)
    requires Talking(w) && InFlight(w)
    ensures Enabled(w, NextData(w)) && Talking(Apply(w, NextData(w))) && DataLeft(Apply(w, NextData(w))) < DataLeft(w)
    ensures Apply(w, NextData(w)).lines == w.lines
  {
    StepKeepsInvariant(w, NextData(w));
  }

  lemma DataAdvancesInRun(steps: seq<Step>)
    requires Talking(Exec(steps)) && InFlight(Exec(steps))
    ensures var w' := Exec(steps + [NextData(Exec(steps))]);
            Talking(w') && DataLeft(w') < DataLeft(Exec(steps)) && w'.lines == Exec(steps).lines
  {
    DataAdvances(Exec(steps));
    ExecSnoc(steps, NextData(Exec(steps)));
  }

  /** The run leaves the two talking, the given lines sent, and all of them echoed. */
  ghost predicate AllEchoed(steps: seq<Step>, lines: seq<string>) {
    Talking(Exec(steps)) && Exec(steps).lines == lines && Exec(steps).received == Echoes(lines)
  }

  lemma DrainedIsEchoed(steps: seq<Step>)
    requires Talking(Exec(steps)) && !InFlight(Exec(steps))
    ensures AllEchoed(steps, Exec(steps).lines)
  {
    AllEchoedWhenDrained(steps);
  }

  lemma Regroup(steps: seq<Step>, step: Step, rest: seq<Step>)
    ensures steps + [step] + rest == steps + ([step] + rest)
  {}

  /** While the client reads lines and the server serves, everything sent so far can be echoed. */
  lemma {:induction false} AllCanBeEchoed(steps: seq<Step>, lines: seq<string>) returns (more: seq<Step>)
    requires Talking(Exec(steps)) && lines == Exec(steps).lines
    ensures AllEchoed(steps + more, lines)
    decreases DataLeft(Exec(steps))
  {
    if InFlight(Exec(steps)) {
      var step := NextData(Exec(steps));
      DataAdvancesInRun(steps);
      var rest := AllCanBeEchoed(steps + [step], lines);
      Regroup(steps, step, rest);
      more := [step] + rest;
    } else {
      DrainedIsEchoed(steps);
      more := [];
      assert steps + more == steps;
    }
  }

  // ----- What each program can do at any time

  /** While the two talk the client can read any line, and its input can end. */
  lemma ClientCanRead(w: World, line: string)
    requires Talking(w)
    ensures Enabled(w, ReadLine(line)) && Enabled(w, EndOfInput)
    ensures Apply(w, ReadLine(line)).dataToServer.sent == w.dataToServer.sent + [line]
    ensures Apply(w, ReadLine(line)).phase == Over <==> line == "exit"
    ensures Apply(w, EndOfInput).phase == Over
  {}

  /** Once it has taken an "exit", a server that has not failed can reach `quit`. */
  lemma ServerCanQuitAfterExit(steps: seq<Step>)
    requires !Exec(steps).listening && !Exec(steps).server.failed
    ensures Enabled(Exec(steps), ServerReturns) && Exec(steps + [ServerReturns]).serverQuit
  {
    EveryRunKeepsInvariant(steps);
    ExecSnoc(steps, ServerReturns);
  }
}
