/** One WebSocket connection: the counter going up when it opens and down
    when it ends, the per-connection handshake flag, and the dispatch of
    each incoming frame to a handler. Frames arrive one at a time here; the
    socket, the channel that carries a simulation's response back and the
    spawned simulation task are not part of this model (the task is
    `AppState.HandleSimulate`). */
module Session {
  import opened Wrappers
  import opened Protocol
  import opened Agent

  /** An incoming frame: a text frame, with the JSON object its text parses
      to when it is one, or any other kind of frame. */
  datatype Frame = TextFrame(json: Option<JsonObject>) | OtherFrame

  /** Which handler a frame goes to. `Malformed` is a message whose type
      is known but whose full record does not parse. */
  datatype Route =
    | Skip
    | Handshake(handshake: HandshakeRequest)
    | Simulate(simulate: SimulationRequest)
    | Ping(ping: PingMessage)
    | Cancel(cancel: CancelRequest)
    | Malformed

  /** The message type of a frame, when it is a text frame whose JSON
      carries an `id` and a `type`. */
  function MessageType(frame: Frame): Option<string> {
    match frame
    case OtherFrame => None
    case TextFrame(json) =>
      if json.None? then None
      else match DecodeGeneric(json.value)
        case None => None
        case Some(g) => Some(g.msgType)
  }

  /** The dispatch of `handle_connection`. */
  function RouteOf(frame: Frame, handshakeComplete: bool): Route {
    match MessageType(frame)
    case None => Skip
    case Some(t) =>
      var obj := frame.json.value;
      if t == "handshake" then
        match DecodeHandshakeRequest(obj)
        case Some(req) => Handshake(req)
        case None => Malformed
      else if t == "simulate" then
        if !handshakeComplete then Skip
        else
          match DecodeSimulationRequest(obj)
          case Some(req) => Simulate(req)
          case None => Malformed
      else if t == "ping" then
        match DecodePing(obj)
        case Some(req) => Ping(req)
        case None => Malformed
      else if t == "cancel" then
        match DecodeCancelRequest(obj)
        case Some(req) => Cancel(req)
        case None => Malformed
      else Skip
  }

  /** Frames that are not text, do not parse or have an unknown type are
      skipped; a simulation goes through only after a handshake; only a
      known type can be malformed. */
  lemma RouteSkips(frame: Frame, handshakeComplete: bool)
    ensures var r := RouteOf(frame, handshakeComplete);
            && (MessageType(frame).None? ==> r == Skip)
            && (r.Simulate? ==> handshakeComplete)
            && (MessageType(frame) == Some("simulate") && !handshakeComplete ==> r == Skip)
            && (MessageType(frame).Some? && MessageType(frame).value !in {"handshake", "simulate", "ping", "cancel"} ==> r == Skip)
            && (r.Malformed? ==> MessageType(frame).Some? && MessageType(frame).value in {"handshake", "simulate", "ping", "cancel"})
  {
  }

  /** What the connection does with a frame. */
  datatype Reply =
    | NoReply
    | Send(message: Outgoing)
    | StartSimulation(request: SimulationRequest, progress: SimulationProgress)
    | Abort

  /** A response the connection sends back, before it is written out. */
  datatype Outgoing =
    | HandshakeReply(handshake: HandshakeResponse)
    | PongReply(pong: PongResponse)
    | CancelReply(cancel: CancelResponse)

  /** The JSON object a response is sent as. */
  function OutgoingJson(message: Outgoing): seq<(string, Json)> {
    match message
    case HandshakeReply(r) => HandshakeResponseJson(r)
    case PongReply(r) => PongResponseJson(r)
    case CancelReply(r) => CancelResponseJson(r)
  }

  function Progress(request: SimulationRequest, stamp: Stamp): SimulationProgress {
    SimulationProgress(stamp.id, "simulation_progress", request.id, stamp.now, "preparing", "Preparing simulation...")
  }

  class Connection {
    const state: AppState
    var handshakeComplete: bool
    var open: bool

    /** A new connection counts itself and has not shaken hands yet. */
    constructor (state: AppState)
      requires state.Valid()
      modifies state
      ensures state.Valid()
      ensures this.state == state && !handshakeComplete && open
      ensures state.wsConnections == (old(state.wsConnections) + 1) % U32_LIMIT
      ensures state.ltspicePath == old(state.ltspicePath) && state.isSimulating == old(state.isSimulating)
      ensures state.simulationCount == old(state.simulationCount)
      ensures state.lastSimulationTime == old(state.lastSimulationTime)
      ensures state.currentSimulationId == old(state.currentSimulationId)
      ensures state.cancelRequested == old(state.cancelRequested)
      ensures state.currentProcessId == old(state.currentProcessId)
    {
      this.state := state;
      handshakeComplete := false;
      open := true;
      new;
      state.Connected();
    }

    /** One frame of the connection loop. A handshake sets the flag to its
        own outcome; a simulation is started only after a successful one;
        frames that are not text, do not parse, or have an unknown type are
        skipped with the connection left open; a known type whose record
        does not parse ends the connection through the `?`, which returns
        before the counter is decremented, so the counter is left as it
        is. */
    method Receive(frame: Frame, stamp: Stamp) returns (reply: Reply, kill: Option<nat>)
      requires open && state.Valid()
      modifies this, state
      ensures state.Valid()
      ensures handshakeComplete == NextFlag(old(handshakeComplete), frame)
      ensures reply.StartSimulation? ==> old(handshakeComplete)
      ensures reply.Abort? <==> !open
      ensures reply.Abort? <==> RouteOf(frame, old(handshakeComplete)).Malformed?
      ensures state.wsConnections == old(state.wsConnections)
      ensures match RouteOf(frame, old(handshakeComplete))
              case Skip =>
                && reply == NoReply && kill.None? && unchanged(this) && unchanged(state)
              case Handshake(req) =>
                && handshakeComplete == IsOriginAllowed(req.origin) && open
                && reply == Send(HandshakeReply(old(state.HandleHandshake(req, stamp))))
                && kill.None? && unchanged(state)
              case Simulate(req) =>
                && reply == StartSimulation(req, Progress(req, stamp))
                && kill.None? && unchanged(this) && unchanged(state)
              case Ping(_) =>
                && reply == Send(PongReply(PongResponse(stamp.id, "pong", stamp.now, old(state.PingStatus()))))
                && kill.None? && unchanged(this) && unchanged(state)
              case Cancel(req) =>
                var accepted := old(state.currentSimulationId) == Some(req.requestId);
                && reply == Send(CancelReply(CancelResponse(stamp.id, "cancel_response", req.requestId, stamp.now, accepted)))
                && unchanged(this)
                && (accepted ==>
                      && state.cancelRequested
                      && kill == (if old(state.currentProcessId) != 0 then Some(old(state.currentProcessId)) else None)
                      && state.isSimulating == old(state.isSimulating)
                      && state.currentSimulationId == old(state.currentSimulationId)
                      && state.currentProcessId == old(state.currentProcessId)
                      && state.ltspicePath == old(state.ltspicePath)
                      && state.simulationCount == old(state.simulationCount)
                      && state.lastSimulationTime == old(state.lastSimulationTime))
                && (!accepted ==> kill.None? && unchanged(state))
              case Malformed =>
                && reply == Abort && kill.None? && !open && handshakeComplete == old(handshakeComplete)
                && unchanged(state)
    {
      HandshakeRouteIgnoresFlag(frame, handshakeComplete);
      kill := None;
      match RouteOf(frame, handshakeComplete) {
        case Skip =>
          reply := NoReply;
        case Handshake(req) =>
          var response := state.HandleHandshake(req, stamp);
          handshakeComplete := response.success;
          reply := Send(HandshakeReply(response));
        case Simulate(req) =>
          reply := StartSimulation(req, Progress(req, stamp));
        case Ping(_) =>
          reply := Send(PongReply(PongResponse(stamp.id, "pong", stamp.now, state.PingStatus())));
        case Cancel(req) =>
          var response;
          response, kill := state.HandleCancel(req, stamp);
          reply := Send(CancelReply(response));
        case Malformed =>
          open := false;
          reply := Abort;
      }
    }

    /** Frame `n` of the read loop, read with the flag the frames before it
        left: the reply, the process an accepted cancel kills, and the one
        job field a frame can change, the cancel flag. */
    method StepAt(frames: seq<Frame>, stamps: seq<Stamp>, n: nat) returns (reply: Reply, kill: Option<nat>)
      requires n < |frames| == |stamps|
      requires open && state.Valid() && handshakeComplete == FlagAfter(frames, n)
      modifies this, state
      ensures state.Valid() && state.wsConnections == old(state.wsConnections)
      ensures handshakeComplete == FlagAfter(frames, n + 1)
      ensures reply.StartSimulation? ==> FlagAfter(frames, n)
      ensures reply.Abort? <==> !open
      ensures reply.Abort? <==> MalformedAt(frames, n)
      ensures kill == KillAt(frames, n, old(state.currentSimulationId), old(state.currentProcessId))
      ensures state.cancelRequested == (old(state.cancelRequested) || CancelsAt(frames, n, old(state.currentSimulationId)))
      ensures state.ltspicePath == old(state.ltspicePath) && state.isSimulating == old(state.isSimulating)
      ensures state.simulationCount == old(state.simulationCount) && state.lastSimulationTime == old(state.lastSimulationTime)
      ensures state.currentSimulationId == old(state.currentSimulationId) && state.currentProcessId == old(state.currentProcessId)
    {
      reply, kill := Receive(frames[n], stamps[n]);
    }

    /** The read loop over the frames the peer sends, each answered with its
        own stamp, until a malformed message aborts the connection or the
        frames run out. The loop itself never touches the counter. */
    method Run(frames: seq<Frame>, stamps: seq<Stamp>) returns (replies: seq<Reply>, kills: seq<Option<nat>>)
      requires |stamps| == |frames|
      requires open && !handshakeComplete && state.Valid()
      modifies this, state
      ensures state.Valid()
      ensures |replies| <= |frames| && |kills| == |replies|
      ensures forall i :: 0 <= i < |replies| ==> (replies[i].StartSimulation? ==> FlagAfter(frames, i))
      ensures forall i :: 0 <= i < |replies| ==> (replies[i].Abort? <==> MalformedAt(frames, i))
      ensures forall i :: 0 <= i < |replies| - 1 ==> !replies[i].Abort?
      ensures |replies| < |frames| ==> |replies| > 0 && replies[|replies| - 1].Abort?
      ensures !open <==> |replies| > 0 && replies[|replies| - 1].Abort?
      ensures forall i :: 0 <= i < |kills| ==>
                kills[i] == KillAt(frames, i, old(state.currentSimulationId), old(state.currentProcessId))
      ensures state.cancelRequested
              == (old(state.cancelRequested) || CancelSeen(frames, |replies|, old(state.currentSimulationId)))
      ensures state.wsConnections == old(state.wsConnections)
      ensures state.ltspicePath == old(state.ltspicePath) && state.isSimulating == old(state.isSimulating)
      ensures state.simulationCount == old(state.simulationCount) && state.lastSimulationTime == old(state.lastSimulationTime)
      ensures state.currentSimulationId == old(state.currentSimulationId) && state.currentProcessId == old(state.currentProcessId)
    {
      replies, kills := [], [];
      var i := 0;
      while i < |frames|
        invariant 0 <= i <= |frames| && |replies| == i && |kills| == i
        invariant open && state.Valid()
        invariant handshakeComplete == FlagAfter(frames, i)
        invariant Answers(frames, replies, kills, old(state.currentSimulationId), old(state.currentProcessId))
        invariant forall j :: 0 <= j < i ==> !replies[j].Abort?
        invariant state.cancelRequested
                  == (old(state.cancelRequested) || CancelSeen(frames, i, old(state.currentSimulationId)))
        invariant state.wsConnections == old(state.wsConnections)
        invariant state.ltspicePath == old(state.ltspicePath) && state.isSimulating == old(state.isSimulating)
        invariant state.simulationCount == old(state.simulationCount) && state.lastSimulationTime == old(state.lastSimulationTime)
        invariant state.currentSimulationId == old(state.currentSimulationId) && state.currentProcessId == old(state.currentProcessId)
      {
        var reply, kill := StepAt(frames, stamps, i);
        assert CancelSeen(frames, i + 1, old(state.currentSimulationId))
               == (CancelSeen(frames, i, old(state.currentSimulationId)) || CancelsAt(frames, i, old(state.currentSimulationId)));
        AnswersExtend(frames, replies, kills, reply, kill, old(state.currentSimulationId), old(state.currentProcessId));
        replies, kills := replies + [reply], kills + [kill];
        if reply.Abort? {
          return;
        }
        i := i + 1;
      }
    }

    /** The end of the loop (the peer closed, a read failed, or a send
        failed): the connection counts itself out, never below zero. */
    method Close()
      requires state.Valid()
      modifies this, state
      ensures state.Valid() && !open
      ensures state.wsConnections == SaturatingDec(old(state.wsConnections))
      ensures state.ltspicePath == old(state.ltspicePath) && state.isSimulating == old(state.isSimulating)
      ensures state.simulationCount == old(state.simulationCount) && state.lastSimulationTime == old(state.lastSimulationTime)
      ensures state.currentSimulationId == old(state.currentSimulationId) && state.cancelRequested == old(state.cancelRequested)
      ensures state.currentProcessId == old(state.currentProcessId)
    {
      open := false;
      state.Disconnected();
    }
  }

  /** The reply to a handshake tells the page whether its origin was
      accepted, which is also what the connection's flag becomes. */
  lemma HandshakeReplyReportsOrigin(state: AppState, request: HandshakeRequest, stamp: Stamp)
    ensures Member(OutgoingJson(HandshakeReply(state.HandleHandshake(request, stamp))), "success")
            == Some(JBool(IsOriginAllowed(request.origin)))
  {
    HandshakeResponseSuccessField(state.HandleHandshake(request, stamp));
  }

  /** `u32::saturating_sub(1)`. */
  function SaturatingDec(n: nat): nat {
    if n == 0 then 0 else n - 1
  }

  // A whole connection

  /** The handshake a frame carries, whatever the connection's flag. */
  function HandshakeIn(frame: Frame): Option<HandshakeRequest> {
    if MessageType(frame) == Some("handshake") then DecodeHandshakeRequest(frame.json.value) else None
  }

  /** The flag after one more frame: a handshake sets it to its own
      outcome, anything else leaves it. */
  function NextFlag(flag: bool, frame: Frame): bool {
    match HandshakeIn(frame)
    case Some(req) => IsOriginAllowed(req.origin)
    case None => flag
  }

  /** The flag once the first `n` frames have been read, starting from a
      fresh connection. */
  function FlagAfter(frames: seq<Frame>, n: nat): bool
    requires n <= |frames|
  {
    if n == 0 then false else NextFlag(FlagAfter(frames, n - 1), frames[n - 1])
  }

  /** The most recent handshake among the first `n` frames. */
  function LastHandshake(frames: seq<Frame>, n: nat): Option<HandshakeRequest>
    requires n <= |frames|
  {
    if n == 0 then None
    else
      match HandshakeIn(frames[n - 1])
      case Some(req) => Some(req)
      case None => LastHandshake(frames, n - 1)
  }

  /** The most recent handshake among the first `n` frames came from an
      allowed origin. */
  predicate HandshakeAccepted(frames: seq<Frame>, n: nat)
    requires n <= |frames|
  {
    LastHandshake(frames, n).Some? && IsOriginAllowed(LastHandshake(frames, n).value.origin)
  }

  /** Frame `n` of a fresh connection is a known type whose record does
      not parse. */
  predicate MalformedAt(frames: seq<Frame>, n: nat)
    requires n < |frames|
  {
    RouteOf(frames[n], FlagAfter(frames, n)).Malformed?
  }

  /** A route cancels the running simulation `current`. */
  predicate Cancels(route: Route, current: Option<string>) {
    route.Cancel? && current == Some(route.cancel.requestId)
  }

  /** The process a route has killed: the running one, when the route
      cancels its simulation and its process id is known. */
  function KillFor(route: Route, current: Option<string>, pid: nat): Option<nat> {
    if Cancels(route, current) && pid != 0 then Some(pid) else None
  }

  /** Frame `n` of a fresh connection cancels the simulation `current`. */
  predicate CancelsAt(frames: seq<Frame>, n: nat, current: Option<string>)
    requires n < |frames|
  {
    Cancels(RouteOf(frames[n], FlagAfter(frames, n)), current)
  }

  /** Some frame among the first `n` of a fresh connection cancels the
      simulation `current`. */
  predicate CancelSeen(frames: seq<Frame>, n: nat, current: Option<string>)
    requires n <= |frames|
  {
    n > 0 && (CancelSeen(frames, n - 1, current) || CancelsAt(frames, n - 1, current))
  }

  /** The cancel flag a connection leaves set is set by one of its frames. */
  lemma {:induction false} CancelSeenIff(frames: seq<Frame>, n: nat, current: Option<string>)
    requires n <= |frames|
    ensures CancelSeen(frames, n, current) <==> exists i :: 0 <= i < n && CancelsAt(frames, i, current)
  {
    if n > 0 {
      CancelSeenIff(frames, n - 1, current);
    }
  }

  /** The process frame `n` of a fresh connection has killed. */
  function KillAt(frames: seq<Frame>, n: nat, current: Option<string>, pid: nat): Option<nat>
    requires n < |frames|
  {
    KillFor(RouteOf(frames[n], FlagAfter(frames, n)), current, pid)
  }

  /** `replies` and `kills` answer the first frames of a fresh connection,
      one each: a simulation is started only while the flag is set, the
      connection aborts exactly on a malformed frame, and the process killed
      is the one an accepted cancel of `current` names. */
  predicate Answers(frames: seq<Frame>, replies: seq<Reply>, kills: seq<Option<nat>>, current: Option<string>, pid: nat) {
    && |replies| <= |frames| && |kills| == |replies|
    && forall j :: 0 <= j < |replies| ==>
         && (replies[j].StartSimulation? ==> FlagAfter(frames, j))
         && (replies[j].Abort? <==> MalformedAt(frames, j))
         && kills[j] == KillAt(frames, j, current, pid)
  }

  /** One more answer, for the next frame, keeps the answers in step. */
  lemma AnswersExtend(frames: seq<Frame>, replies: seq<Reply>, kills: seq<Option<nat>>, reply: Reply, kill: Option<nat>,
                      current: Option<string>, pid: nat)
    requires Answers(frames, replies, kills, current, pid) && |replies| < |frames|
    requires reply.StartSimulation? ==> FlagAfter(frames, |replies|)
    requires reply.Abort? <==> MalformedAt(frames, |replies|)
    requires kill == KillAt(frames, |replies|, current, pid)
    ensures Answers(frames, replies + [reply], kills + [kill], current, pid)
  {
    var replies', kills' := replies + [reply], kills + [kill];
    forall j | 0 <= j < |replies'|
      ensures && (replies'[j].StartSimulation? ==> FlagAfter(frames, j))
              && (replies'[j].Abort? <==> MalformedAt(frames, j))
              && kills'[j] == KillAt(frames, j, current, pid)
    {
      if j < |replies| {
        assert replies'[j] == replies[j] && kills'[j] == kills[j];
      }
    }
  }

  /** Whether a frame is a handshake does not depend on the flag. */
  lemma HandshakeRouteIgnoresFlag(frame: Frame, flag: bool)
    ensures RouteOf(frame, flag).Handshake? <==> HandshakeIn(frame).Some?
    ensures RouteOf(frame, flag).Handshake? ==> RouteOf(frame, flag).handshake == HandshakeIn(frame).value
  {
  }

  /** The flag is set exactly when the most recent handshake was accepted:
      a rejected handshake clears an earlier success, and no other frame
      touches it. */
  lemma {:induction false} FlagIsLastHandshake(frames: seq<Frame>, n: nat)
    requires n <= |frames|
    ensures FlagAfter(frames, n) <==> HandshakeAccepted(frames, n)
  {
    if n > 0 {
      FlagIsLastHandshake(frames, n - 1);
    }
  }

  /** `handle_connection` as written: the counter goes up (wrapping as a
      release-build `u32` does), the read loop runs over the frames the peer
      sends, each answered with its own stamp, and the counter goes down
      (never below zero) after the loop. A simulation is started only while
      the most recent handshake is an accepted one; an accepted cancel sets
      the cancel flag and kills the running process. A malformed message
      returns from the loop through `?`, past the decrement, so a
      connection that ends that way stays counted. */
  method Serve(state: AppState, frames: seq<Frame>, stamps: seq<Stamp>) returns (replies: seq<Reply>, kills: seq<Option<nat>>)
    requires |stamps| == |frames|
    requires state.Valid()
    modifies state
    ensures state.Valid()
    ensures |replies| <= |frames| && |kills| == |replies|
    ensures forall i :: 0 <= i < |replies| ==> (replies[i].StartSimulation? ==> HandshakeAccepted(frames, i))
    ensures forall i :: 0 <= i < |replies| ==> (replies[i].Abort? <==> MalformedAt(frames, i))
    ensures forall i :: 0 <= i < |replies| - 1 ==> !replies[i].Abort?
    ensures |replies| < |frames| ==> |replies| > 0 && replies[|replies| - 1].Abort?
    ensures forall i :: 0 <= i < |kills| ==>
              kills[i] == KillAt(frames, i, old(state.currentSimulationId), old(state.currentProcessId))
    ensures state.cancelRequested
            == (old(state.cancelRequested) || CancelSeen(frames, |replies|, old(state.currentSimulationId)))
    ensures state.wsConnections
            == if |replies| > 0 && replies[|replies| - 1].Abort?
               then (old(state.wsConnections) + 1) % U32_LIMIT
               else SaturatingDec((old(state.wsConnections) + 1) % U32_LIMIT)
    ensures state.ltspicePath == old(state.ltspicePath) && state.isSimulating == old(state.isSimulating)
    ensures state.simulationCount == old(state.simulationCount) && state.lastSimulationTime == old(state.lastSimulationTime)
    ensures state.currentSimulationId == old(state.currentSimulationId) && state.currentProcessId == old(state.currentProcessId)
  {
    var c := new Connection(state);
    replies, kills := c.Run(frames, stamps);
    forall i | 0 <= i < |replies|
      ensures FlagAfter(frames, i) <==> HandshakeAccepted(frames, i)
    {
      FlagIsLastHandshake(frames, i);
    }
    if c.open {
      c.Close();
    }
  }

  /** A ping without a `timestamp`: its type is known, but `PingMessage`
      does not parse. */
  const PING_WITHOUT_TIMESTAMP: Frame := TextFrame(Some(map["id" := JString("a"), "type" := JString("ping")]))

  lemma PingWithoutTimestampIsMalformed(flag: bool)
    ensures MessageType(PING_WITHOUT_TIMESTAMP) == Some("ping")
    ensures RouteOf(PING_WITHOUT_TIMESTAMP, flag) == Malformed
  {
  }

  /** A connection whose only message is a ping without a timestamp is
      aborted by it, kills nothing, and leaves the counter one higher than
      it found it. */
  method MalformedPingLeaks(state: AppState, stamp: Stamp) returns (replies: seq<Reply>)
    requires state.Valid() && state.wsConnections + 1 < U32_LIMIT
    modifies state
    ensures replies == [Abort]
    ensures state.wsConnections == old(state.wsConnections) + 1
  {
    PingWithoutTimestampIsMalformed(false);
    var kills;
    replies, kills := Serve(state, [PING_WITHOUT_TIMESTAMP], [stamp]);
  }

  /** `handle_connection` with the decrement on every way out of the loop,
      the malformed-message return included: the counter ends where it
      started, except from `u32::MAX`, where the wrapping increment and
      the saturating decrement leave it at zero. */
  method ServeCountingOut(state: AppState, frames: seq<Frame>, stamps: seq<Stamp>) returns (replies: seq<Reply>, kills: seq<Option<nat>>)
    requires |stamps| == |frames|
    requires state.Valid()
    modifies state
    ensures state.Valid()
    ensures |replies| <= |frames| && |kills| == |replies|
    ensures forall i :: 0 <= i < |replies| ==> (replies[i].StartSimulation? ==> HandshakeAccepted(frames, i))
    ensures forall i :: 0 <= i < |replies| ==> (replies[i].Abort? <==> MalformedAt(frames, i))
    ensures forall i :: 0 <= i < |kills| ==>
              kills[i] == KillAt(frames, i, old(state.currentSimulationId), old(state.currentProcessId))
    ensures state.cancelRequested
            == (old(state.cancelRequested) || CancelSeen(frames, |replies|, old(state.currentSimulationId)))
    ensures state.wsConnections == SaturatingDec((old(state.wsConnections) + 1) % U32_LIMIT)
    ensures state.wsConnections == if old(state.wsConnections) + 1 < U32_LIMIT then old(state.wsConnections) else 0
    ensures state.ltspicePath == old(state.ltspicePath) && state.isSimulating == old(state.isSimulating)
    ensures state.simulationCount == old(state.simulationCount) && state.lastSimulationTime == old(state.lastSimulationTime)
    ensures state.currentSimulationId == old(state.currentSimulationId) && state.currentProcessId == old(state.currentProcessId)
  {
    var c := new Connection(state);
    replies, kills := c.Run(frames, stamps);
    forall i | 0 <= i < |replies|
      ensures FlagAfter(frames, i) <==> HandshakeAccepted(frames, i)
    {
      FlagIsLastHandshake(frames, i);
    }
    c.Close();
  }
}
