/** The agent's shared state and the handlers that change it: the handshake,
    the simulation job with its single-flight admission and its
    cancellation, the connection counter and the read-only status snapshot
    the desktop window shows. Response ids and timestamps come in as a
    `Stamp`; the LTspice run itself comes in as an `Execution`. */
module Agent {
  import opened Wrappers
  import opened Protocol

  /** One past the largest `u32`. */
  const U32_LIMIT: nat := 0x1_0000_0000

  const MAX_SIMULATION_TIME: nat := 120
  const SUPPORTED_ANALYSES: seq<string> := ["transient", "ac", "dc"]

  const INVALID_ORIGIN: string := "Invalid origin"
  const ALREADY_RUNNING: string := "Another simulation is already running"
  const NOT_FOUND: string := "LTspice not found on this system"
  const CANCELLED: string := "Simulation cancelled"

  /** The fresh message id and the current time in milliseconds that a
      response is stamped with. */
  datatype Stamp = Stamp(id: string, now: nat)

  /** A cancel request arriving while the simulation runs, with the stamp
      its response gets. */
  datatype CancelCall = CancelCall(request: CancelRequest, stamp: Stamp)

  /** What happens while an admitted simulation runs: the id of the LTspice
      process once it has started (0 when it never did), a cancel request
      that may arrive meanwhile, the run's result, and the elapsed time. */
  datatype Execution = Execution(
    pid: nat,
    cancel: Option<CancelCall>,
    result: Result<SimulationResults, string>,
    elapsed: nat)

  /** What `get_agent_status` reports. */
  datatype AgentStatus = AgentStatus(
    ltspicePath: Option<string>,
    ltspiceAvailable: bool,
    isSimulating: bool,
    wsConnections: nat,
    simulationCount: nat,
    lastSimulationTime: Option<nat>,
    wsPort: nat,
    version: string)

  /** A failed simulation response. */
  function Failure(request: SimulationRequest, stamp: Stamp, error: string, executionTime: nat): (r: SimulationResponse)
    ensures !r.success && r.results.None? && r.error == Some(error)
    ensures r.requestId == request.id && r.simulator == "ltspice" && r.executionTime == executionTime
  {
    SimulationResponse(stamp.id, "simulation_result", request.id, stamp.now, false, None, Some(error), executionTime, "ltspice")
  }

  /** A successful simulation response. */
  function Success(request: SimulationRequest, stamp: Stamp, results: SimulationResults, executionTime: nat): (r: SimulationResponse)
    ensures r.success && r.results == Some(results) && r.error.None?
    ensures r.requestId == request.id && r.simulator == "ltspice" && r.executionTime == executionTime
  {
    SimulationResponse(stamp.id, "simulation_result", request.id, stamp.now, true, Some(results), None, executionTime, "ltspice")
  }

  /** The response a finished run gets when it was not cancelled. */
  function RunResponse(request: SimulationRequest, stamp: Stamp, result: Result<SimulationResults, string>, elapsed: nat): SimulationResponse {
    match result
    case Ok(results) => Success(request, stamp, results, elapsed)
    case Err(e) => Failure(request, stamp, e, elapsed)
  }

  class AppState {
    var ltspicePath: Option<string>
    var isSimulating: bool
    var wsConnections: nat
    var simulationCount: nat
    var lastSimulationTime: Option<nat>
    var currentSimulationId: Option<string>
    var cancelRequested: bool
    var currentProcessId: nat

    /** The counters fit their `u32`s; a simulation is running exactly when
        it has an id; and when none is running there is no pending cancel
        and no process id. */
    predicate Valid()
      reads this
    {
      && wsConnections < U32_LIMIT && simulationCount < U32_LIMIT && currentProcessId < U32_LIMIT
      && (isSimulating <==> currentSimulationId.Some?)
      && (!isSimulating ==> !cancelRequested && currentProcessId == 0)
    }

    /** `AppState::default`. */
    constructor ()
      ensures Valid()
      ensures ltspicePath.None? && !isSimulating && wsConnections == 0 && simulationCount == 0
      ensures lastSimulationTime.None? && currentSimulationId.None? && !cancelRequested && currentProcessId == 0
    {
      ltspicePath := None;
      isSimulating := false;
      wsConnections := 0;
      simulationCount := 0;
      lastSimulationTime := None;
      currentSimulationId := None;
      cancelRequested := false;
      currentProcessId := 0;
    }

    /** Start-up detection: a path that was found is stored; otherwise
        nothing changes. */
    method RecordDetection(found: Option<string>)
      requires Valid()
      modifies this
      ensures Valid()
      ensures ltspicePath == if found.Some? then found else old(ltspicePath)
      ensures isSimulating == old(isSimulating) && wsConnections == old(wsConnections)
      ensures simulationCount == old(simulationCount) && lastSimulationTime == old(lastSimulationTime)
      ensures currentSimulationId == old(currentSimulationId) && cancelRequested == old(cancelRequested)
      ensures currentProcessId == old(currentProcessId)
    {
      if found.Some? {
        ltspicePath := found;
      }
    }

    /** `get_agent_status`: a copy of the fields the window shows. */
    function Status(): (s: AgentStatus)
      reads this
      ensures s.ltspiceAvailable <==> ltspicePath.Some?
      ensures s.ltspicePath == ltspicePath && s.isSimulating == isSimulating
      ensures s.wsConnections == wsConnections && s.simulationCount == simulationCount
      ensures s.lastSimulationTime == lastSimulationTime
      ensures s.wsPort == WS_PORT && s.version == AGENT_VERSION
    {
      AgentStatus(ltspicePath, ltspicePath.Some?, isSimulating, wsConnections, simulationCount,
                  lastSimulationTime, WS_PORT, AGENT_VERSION)
    }

    /** The status a ping reports. */
    function PingStatus(): (status: string)
      reads this
      ensures status == "busy" <==> isSimulating
      ensures status == "ready" <==> !isSimulating
    {
      if isSimulating then "busy" else "ready"
    }

    /** `handle_handshake`: an allowed origin learns whether LTspice is
        available and what the agent supports; any other origin is refused
        with nothing disclosed. The state is only read. */
    function HandleHandshake(request: HandshakeRequest, stamp: Stamp): (response: HandshakeResponse)
      reads this
      ensures response.id == stamp.id && response.timestamp == stamp.now
      ensures response.msgType == "handshake_response" && response.agentVersion == AGENT_VERSION
      ensures response.success <==> IsOriginAllowed(request.origin)
      ensures !response.success ==>
                && response.ltspicePath.None?
                && response.capabilities == AgentCapabilities(false, false, [], MAX_SIMULATION_TIME)
                && response.error == Some(INVALID_ORIGIN)
      ensures response.success ==>
                && response.ltspicePath == ltspicePath
                && response.capabilities == AgentCapabilities(ltspicePath.Some?, false, SUPPORTED_ANALYSES, MAX_SIMULATION_TIME)
                && response.error.None?
    {
      if !IsOriginAllowed(request.origin) then
        HandshakeResponse(stamp.id, "handshake_response", stamp.now, false, AGENT_VERSION, None,
                          AgentCapabilities(false, false, [], MAX_SIMULATION_TIME), Some(INVALID_ORIGIN))
      else
        HandshakeResponse(stamp.id, "handshake_response", stamp.now, true, AGENT_VERSION, ltspicePath,
                          AgentCapabilities(ltspicePath.Some?, false, SUPPORTED_ANALYSES, MAX_SIMULATION_TIME), None)
    }

    /** The checks and the admission at the start of `handle_simulate`. A
        running simulation or a missing LTspice turns the request away with
        no state change; otherwise the state records the new run. */
    method Admit(request: SimulationRequest, stamp: Stamp) returns (rejection: Option<SimulationResponse>)
      requires Valid()
      modifies this
      ensures Valid()
      ensures old(isSimulating) ==> rejection == Some(Failure(request, stamp, ALREADY_RUNNING, 0))
      ensures !old(isSimulating) && old(ltspicePath).None? ==> rejection == Some(Failure(request, stamp, NOT_FOUND, 0))
      ensures rejection.Some? ==> unchanged(this)
      ensures rejection.None? <==> !old(isSimulating) && old(ltspicePath).Some?
      ensures rejection.None? ==>
                && isSimulating && currentSimulationId == Some(request.id) && !cancelRequested && currentProcessId == 0
                && ltspicePath == old(ltspicePath) && wsConnections == old(wsConnections)
                && simulationCount == old(simulationCount) && lastSimulationTime == old(lastSimulationTime)
    {
      if isSimulating {
        return Some(Failure(request, stamp, ALREADY_RUNNING, 0));
      }
      if ltspicePath.None? {
        return Some(Failure(request, stamp, NOT_FOUND, 0));
      }
      isSimulating := true;
      currentSimulationId := Some(request.id);
      cancelRequested := false;
      currentProcessId := 0;
      rejection := None;
    }

    /** The runner stores the LTspice process id once the process has
        started. */
    method ProcessStarted(pid: nat)
      requires Valid() && isSimulating && pid < U32_LIMIT
      modifies this
      ensures Valid()
      ensures currentProcessId == pid
      ensures ltspicePath == old(ltspicePath) && isSimulating == old(isSimulating)
      ensures wsConnections == old(wsConnections) && simulationCount == old(simulationCount)
      ensures lastSimulationTime == old(lastSimulationTime) && currentSimulationId == old(currentSimulationId)
      ensures cancelRequested == old(cancelRequested)
    {
      currentProcessId := pid;
    }

    /** The end of `handle_simulate`: the state is reset whatever happened;
        a cancellation seen now wins over the run's result; only a
        successful, uncancelled run is counted and timed. */
    method Finish(request: SimulationRequest, result: Result<SimulationResults, string>, elapsed: nat, stamp: Stamp)
      returns (response: SimulationResponse)
      requires Valid() && isSimulating
      modifies this
      ensures Valid()
      ensures !isSimulating && currentSimulationId.None? && !cancelRequested && currentProcessId == 0
      ensures ltspicePath == old(ltspicePath) && wsConnections == old(wsConnections)
      ensures old(cancelRequested) ==> response == Failure(request, stamp, CANCELLED, elapsed)
      ensures !old(cancelRequested) ==> response == RunResponse(request, stamp, result, elapsed)
      ensures if !old(cancelRequested) && result.Ok?
              then simulationCount == (old(simulationCount) + 1) % U32_LIMIT && lastSimulationTime == Some(stamp.now)
              else simulationCount == old(simulationCount) && lastSimulationTime == old(lastSimulationTime)
    {
      var wasCancelled := cancelRequested;
      isSimulating := false;
      currentSimulationId := None;
      cancelRequested := false;
      currentProcessId := 0;
      if wasCancelled {
        return Failure(request, stamp, CANCELLED, elapsed);
      }
      match result {
        case Ok(results) =>
          simulationCount := (simulationCount + 1) % U32_LIMIT;
          lastSimulationTime := Some(stamp.now);
          response := Success(request, stamp, results, elapsed);
        case Err(e) =>
          response := Failure(request, stamp, e, elapsed);
      }
    }

    /** `handle_cancel`: only the running simulation's own id cancels it;
        the cancel flag is then set and the process killed if it has
        started. Any other request changes nothing. */
    method HandleCancel(request: CancelRequest, stamp: Stamp) returns (response: CancelResponse, kill: Option<nat>)
      requires Valid()
      modifies this
      ensures Valid()
      ensures response == CancelResponse(stamp.id, "cancel_response", request.requestId, stamp.now,
                                         old(currentSimulationId) == Some(request.requestId))
      ensures response.success ==>
                && cancelRequested
                && kill == (if old(currentProcessId) != 0 then Some(old(currentProcessId)) else None)
                && ltspicePath == old(ltspicePath) && isSimulating == old(isSimulating)
                && wsConnections == old(wsConnections) && simulationCount == old(simulationCount)
                && lastSimulationTime == old(lastSimulationTime) && currentSimulationId == old(currentSimulationId)
                && currentProcessId == old(currentProcessId)
      ensures !response.success ==> unchanged(this) && kill.None?
    {
      var success := false;
      kill := None;
      if currentSimulationId.Some? && currentSimulationId.value == request.requestId {
        cancelRequested := true;
        if currentProcessId != 0 {
          kill := Some(currentProcessId);
        }
        success := true;
      }
      response := CancelResponse(stamp.id, "cancel_response", request.requestId, stamp.now, success);
    }

    /** `handle_simulate` with the run in the middle: admission, the process
        start, a cancel request that may arrive while it runs, and the end.
        Returns the simulation's response and, when a cancel request came,
        its response and the process it killed. */
    method HandleSimulate(request: SimulationRequest, stamp: Stamp, run: Execution)
      returns (response: SimulationResponse, cancelled: Option<(CancelResponse, Option<nat>)>)
      requires Valid() && run.pid < U32_LIMIT
      modifies this
      ensures Valid()
      ensures response.requestId == request.id && response.simulator == "ltspice"
      ensures old(isSimulating) ==> response == Failure(request, stamp, ALREADY_RUNNING, 0)
      ensures !old(isSimulating) && old(ltspicePath).None? ==> response == Failure(request, stamp, NOT_FOUND, 0)
      ensures old(isSimulating) || old(ltspicePath).None? ==> unchanged(this) && cancelled.None?
      ensures !old(isSimulating) && old(ltspicePath).Some? ==>
                && !isSimulating && currentSimulationId.None? && !cancelRequested && currentProcessId == 0
                && ltspicePath == old(ltspicePath) && wsConnections == old(wsConnections)
                && cancelled.Some? == run.cancel.Some?
                && var hit := run.cancel.Some? && run.cancel.value.request.requestId == request.id;
                   && (cancelled.Some? ==>
                         && cancelled.value.0.success == hit
                         && cancelled.value.0.requestId == run.cancel.value.request.requestId
                         && cancelled.value.1 == (if hit && run.pid != 0 then Some(run.pid) else None))
                   && (hit ==> response == Failure(request, stamp, CANCELLED, run.elapsed))
                   && (!hit ==> response == RunResponse(request, stamp, run.result, run.elapsed))
                   && (if !hit && run.result.Ok?
                       then simulationCount == (old(simulationCount) + 1) % U32_LIMIT && lastSimulationTime == Some(stamp.now)
                       else simulationCount == old(simulationCount) && lastSimulationTime == old(lastSimulationTime))
    {
      var rejection := Admit(request, stamp);
      if rejection.Some? {
        return rejection.value, None;
      }
      if run.pid != 0 {
        ProcessStarted(run.pid);
      }
      cancelled := None;
      if run.cancel.Some? {
        var reply, kill := HandleCancel(run.cancel.value.request, run.cancel.value.stamp);
        cancelled := Some((reply, kill));
      }
      response := Finish(request, run.result, run.elapsed, stamp);
    }

    /** A connection opened: the counter goes up by one, wrapping as a
        `u32` does in a release build. */
    method Connected()
      requires Valid()
      modifies this
      ensures Valid()
      ensures wsConnections == (old(wsConnections) + 1) % U32_LIMIT
      ensures ltspicePath == old(ltspicePath) && isSimulating == old(isSimulating)
      ensures simulationCount == old(simulationCount) && lastSimulationTime == old(lastSimulationTime)
      ensures currentSimulationId == old(currentSimulationId) && cancelRequested == old(cancelRequested)
      ensures currentProcessId == old(currentProcessId)
    {
      wsConnections := (wsConnections + 1) % U32_LIMIT;
    }

    /** A connection closed: the counter goes down by one, never below
        zero. */
    method Disconnected()
      requires Valid()
      modifies this
      ensures Valid()
      ensures wsConnections == if old(wsConnections) == 0 then 0 else old(wsConnections) - 1
      ensures ltspicePath == old(ltspicePath) && isSimulating == old(isSimulating)
      ensures simulationCount == old(simulationCount) && lastSimulationTime == old(lastSimulationTime)
      ensures currentSimulationId == old(currentSimulationId) && cancelRequested == old(cancelRequested)
      ensures currentProcessId == old(currentProcessId)
    {
      if wsConnections > 0 {
        wsConnections := wsConnections - 1;
      }
    }
  }
}
