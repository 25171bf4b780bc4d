/** The WebSocket protocol between the browser app and the agent: the
    constants, the origin allow-list, the message records, how requests are
    read from a JSON object and how responses are written as one. */
module Protocol {
  import opened Wrappers

  /** Origins whose handshake is accepted, compared exactly. */
  const ALLOWED_ORIGINS: seq<string> := [
    "https://kelicad.com",
    "https://www.kelicad.com",
    "http://localhost:3000",
    "http://127.0.0.1:3000"
  ]

  const PROTOCOL_VERSION: string := "1.0.0"
  const AGENT_VERSION: string := "1.0.0"

  /** The loopback port the WebSocket server listens on (a `u16`). */
  const WS_PORT: nat := 9347

  /** One past the largest `u64`. */
  const U64_LIMIT: nat := 0x1_0000_0000_0000_0000

  /** A floating-point value left uninterpreted: the little-endian bytes it
      was read from, as an 8-byte `f64` or a 4-byte `f32` widened to `f64`. */
  datatype Real64 = F64Bits(bytes: seq<bv8>) | F32Bits(bytes: seq<bv8>)

  datatype Trace = Trace(name: string, data: seq<Real64>, unit: string)

  datatype SimulationResults = SimulationResults(time: seq<Real64>, traces: seq<Trace>, analysisType: string)

  datatype AgentCapabilities = AgentCapabilities(
    ltspiceAvailable: bool,
    ngspiceAvailable: bool,
    supportedAnalyses: seq<string>,
    maxSimulationTime: nat)

  datatype HandshakeRequest = HandshakeRequest(id: string, msgType: string, origin: string, version: string, timestamp: nat)

  datatype HandshakeResponse = HandshakeResponse(
    id: string,
    msgType: string,
    timestamp: nat,
    success: bool,
    agentVersion: string,
    ltspicePath: Option<string>,
    capabilities: AgentCapabilities,
    error: Option<string>)

  datatype SimulationRequest = SimulationRequest(
    id: string,
    msgType: string,
    netlist: string,
    waveformQuality: string,
    timeout: Option<nat>,
    timestamp: nat)

  datatype SimulationResponse = SimulationResponse(
    id: string,
    msgType: string,
    requestId: string,
    timestamp: nat,
    success: bool,
    results: Option<SimulationResults>,
    error: Option<string>,
    executionTime: nat,
    simulator: string)

  datatype SimulationProgress = SimulationProgress(id: string, msgType: string, requestId: string, timestamp: nat, stage: string, message: string)

  datatype PingMessage = PingMessage(id: string, msgType: string, timestamp: nat)

  datatype PongResponse = PongResponse(id: string, msgType: string, timestamp: nat, status: string)

  datatype CancelRequest = CancelRequest(id: string, msgType: string, requestId: string, timestamp: nat)

  datatype CancelResponse = CancelResponse(id: string, msgType: string, requestId: string, timestamp: nat, success: bool)

  /** The part of every message read first, to learn its type. */
  datatype GenericMessage = GenericMessage(id: string, msgType: string)

  // ---------------------------------------------------------------------
  // Origin allow-list

  function ListContains(xs: seq<string>, x: string): (found: bool)
    ensures found <==> x in xs
  {
    xs != [] && (xs[0] == x || ListContains(xs[1..], x))
  }

  /** `is_origin_allowed`: exact, case-sensitive membership in the list. */
  function IsOriginAllowed(origin: string): (allowed: bool)
    ensures allowed <==> origin == "https://kelicad.com" || origin == "https://www.kelicad.com"
                         || origin == "http://localhost:3000" || origin == "http://127.0.0.1:3000"
  {
    ListContains(ALLOWED_ORIGINS, origin)
  }

  /** The constants the protocol promises. */
  lemma Constants()
    ensures |ALLOWED_ORIGINS| == 4
    ensures forall i, j :: 0 <= i < j < |ALLOWED_ORIGINS| ==> ALLOWED_ORIGINS[i] != ALLOWED_ORIGINS[j]
    ensures WS_PORT == 9347 && PROTOCOL_VERSION == "1.0.0" && AGENT_VERSION == "1.0.0"
  {
  }

  /** No allowed origin is a proper prefix of another, so appending anything to
      an allowed origin (a longer host, a path, a port) gives a rejected one. */
  lemma ExtendedOriginRejected(origin: string, extension: string)
    requires IsOriginAllowed(origin) && extension != []
    ensures !IsOriginAllowed(origin + extension)
  {
    var o := origin + extension;
    assert |o| > |origin|;
    assert forall i :: 0 <= i < |origin| ==> o[i] == origin[i];
    if origin == "https://kelicad.com" {
      assert o[4] == 's' && o[8] == 'k';
    } else if origin == "https://www.kelicad.com" {
      assert |o| > 23;
    } else {
      assert o[4] == ':';
    }
  }

  /** The near misses the allow-list is meant to reject. */
  lemma NearMissesRejected()
    ensures !IsOriginAllowed("http://localhost:8080")
    ensures !IsOriginAllowed("https://kelicad.com.evil.com")
    ensures !IsOriginAllowed("https://malicious.com")
    ensures !IsOriginAllowed("HTTPS://KELICAD.COM")
    ensures !IsOriginAllowed("")
  {
    ExtendedOriginRejected("https://kelicad.com", ".evil.com");
    assert "https://kelicad.com" + ".evil.com" == "https://kelicad.com.evil.com";
  }

  // ---------------------------------------------------------------------
  // JSON values

  datatype Json =
    | JNull
    | JBool(b: bool)
    | JNumber(n: int)
    | JString(s: string)
    | JFloat(f: Real64)
    | JArray(items: seq<Json>)
    | JObject(members: seq<(string, Json)>)

  /** A parsed JSON object on the way in: its members by name. */
  type JsonObject = map<string, Json>

  function Keys(members: seq<(string, Json)>): (keys: seq<string>)
    ensures |keys| == |members|
    ensures forall i :: 0 <= i < |members| ==> keys[i] == members[i].0
  {
    if members == [] then [] else [members[0].0] + Keys(members[1..])
  }

  /** The value of the first member called `key`. */
  function Member(members: seq<(string, Json)>, key: string): Option<Json> {
    if members == [] then None
    else if members[0].0 == key then Some(members[0].1)
    else Member(members[1..], key)
  }

  function OptionalMember(key: string, v: Option<Json>): seq<(string, Json)> {
    if v.Some? then [(key, v.value)] else []
  }

  function OptionString(s: Option<string>): Option<Json> {
    if s.Some? then Some(JString(s.value)) else None
  }

  // ---------------------------------------------------------------------
  // Reading requests (serde's derived `Deserialize`)

  function StringField(obj: JsonObject, key: string): Option<string> {
    if key in obj && obj[key].JString? then Some(obj[key].s) else None
  }

  function U64Field(obj: JsonObject, key: string): Option<nat> {
    if key in obj && obj[key].JNumber? && 0 <= obj[key].n < U64_LIMIT then Some(obj[key].n) else None
  }

  /** An `Option<u64>` field: absent or `null` reads as `None`; a number in
      range as `Some`; anything else fails the whole message. */
  function OptionalU64Field(obj: JsonObject, key: string): Option<Option<nat>> {
    if key !in obj then Some(None)
    else match obj[key]
      case JNull => Some(None)
      case JNumber(n) => if 0 <= n < U64_LIMIT then Some(Some(n)) else None
      case _ => None
  }

  function DecodeGeneric(obj: JsonObject): Option<GenericMessage> {
    match (StringField(obj, "id"), StringField(obj, "type"))
    case (Some(id), Some(t)) => Some(GenericMessage(id, t))
    case _ => None
  }

  function DecodeHandshakeRequest(obj: JsonObject): Option<HandshakeRequest> {
    match (StringField(obj, "id"), StringField(obj, "type"), StringField(obj, "origin"),
           StringField(obj, "version"), U64Field(obj, "timestamp"))
    case (Some(id), Some(t), Some(origin), Some(version), Some(ts)) =>
      Some(HandshakeRequest(id, t, origin, version, ts))
    case _ => None
  }

  function DecodeSimulationRequest(obj: JsonObject): Option<SimulationRequest> {
    match (StringField(obj, "id"), StringField(obj, "type"), StringField(obj, "netlist"),
           StringField(obj, "waveformQuality"), OptionalU64Field(obj, "timeout"), U64Field(obj, "timestamp"))
    case (Some(id), Some(t), Some(netlist), Some(quality), Some(timeout), Some(ts)) =>
      Some(SimulationRequest(id, t, netlist, quality, timeout, ts))
    case _ => None
  }

  function DecodePing(obj: JsonObject): Option<PingMessage> {
    match (StringField(obj, "id"), StringField(obj, "type"), U64Field(obj, "timestamp"))
    case (Some(id), Some(t), Some(ts)) => Some(PingMessage(id, t, ts))
    case _ => None
  }

  function DecodeCancelRequest(obj: JsonObject): Option<CancelRequest> {
    match (StringField(obj, "id"), StringField(obj, "type"), StringField(obj, "requestId"), U64Field(obj, "timestamp"))
    case (Some(id), Some(t), Some(rid), Some(ts)) => Some(CancelRequest(id, t, rid, ts))
    case _ => None
  }

  /** The object a client sends for a simulation request; `timeout` is left
      out when it has none. */
  function EncodeSimulationRequest(r: SimulationRequest): JsonObject {
    map["id" := JString(r.id), "type" := JString(r.msgType), "netlist" := JString(r.netlist),
        "waveformQuality" := JString(r.waveformQuality), "timestamp" := JNumber(r.timestamp)]
    + (if r.timeout.Some? then map["timeout" := JNumber(r.timeout.value)] else map[])
  }

  predicate InU64Range(r: SimulationRequest) {
    r.timestamp < U64_LIMIT && (r.timeout.Some? ==> r.timeout.value < U64_LIMIT)
  }

  /** Every request a client can send is read back unchanged, with or without
      a timeout. */
  lemma SimulationRequestRoundTrip(r: SimulationRequest)
    requires InU64Range(r)
    ensures DecodeSimulationRequest(EncodeSimulationRequest(r)) == Some(r)
  {
    var obj := EncodeSimulationRequest(r);
    assert StringField(obj, "id") == Some(r.id);
    assert StringField(obj, "type") == Some(r.msgType);
    assert StringField(obj, "netlist") == Some(r.netlist);
    assert StringField(obj, "waveformQuality") == Some(r.waveformQuality);
    assert OptionalU64Field(obj, "timeout") == Some(r.timeout);
    assert U64Field(obj, "timestamp") == Some(r.timestamp);
  }

  /** Leaving `timeout` out of an otherwise readable request keeps it readable
      and reads the timeout as `None`. */
  lemma AbsentTimeoutReadsAsNone(obj: JsonObject)
    requires DecodeSimulationRequest(obj).Some?
    ensures DecodeSimulationRequest(obj - {"timeout"}) == Some(DecodeSimulationRequest(obj).value.(timeout := None))
  {
    var o := obj - {"timeout"};
    assert StringField(o, "id") == StringField(obj, "id");
    assert StringField(o, "type") == StringField(obj, "type");
    assert StringField(o, "netlist") == StringField(obj, "netlist");
    assert StringField(o, "waveformQuality") == StringField(obj, "waveformQuality");
    assert U64Field(o, "timestamp") == U64Field(obj, "timestamp");
    assert OptionalU64Field(o, "timeout") == Some(None);
  }

  // ---------------------------------------------------------------------
  // Writing responses (serde's derived `Serialize`: fields in declaration
  // order, renamed as declared, `None` options skipped)

  function Floats(xs: seq<Real64>): (j: Json)
    ensures j.JArray? && |j.items| == |xs|
    ensures forall i :: 0 <= i < |xs| ==> j.items[i] == JFloat(xs[i])
  {
    if xs == [] then JArray([]) else JArray([JFloat(xs[0])] + Floats(xs[1..]).items)
  }

  function Strings(xs: seq<string>): (j: Json)
    ensures j.JArray? && |j.items| == |xs|
    ensures forall i :: 0 <= i < |xs| ==> j.items[i] == JString(xs[i])
  {
    if xs == [] then JArray([]) else JArray([JString(xs[0])] + Strings(xs[1..]).items)
  }

  function TraceJson(t: Trace): Json {
    JObject([("name", JString(t.name)), ("data", Floats(t.data)), ("unit", JString(t.unit))])
  }

  function TracesJson(traces: seq<Trace>): (items: seq<Json>)
    ensures |items| == |traces|
    ensures forall i :: 0 <= i < |traces| ==> items[i] == TraceJson(traces[i])
  {
    if traces == [] then [] else [TraceJson(traces[0])] + TracesJson(traces[1..])
  }

  function ResultsJson(r: SimulationResults): Json {
    JObject([("time", Floats(r.time)),
             ("traces", JArray(TracesJson(r.traces))),
             ("analysis_type", JString(r.analysisType))])
  }

  function CapabilitiesJson(c: AgentCapabilities): Json {
    JObject([("ltspiceAvailable", JBool(c.ltspiceAvailable)), ("ngspiceAvailable", JBool(c.ngspiceAvailable)),
             ("supportedAnalyses", Strings(c.supportedAnalyses)), ("maxSimulationTime", JNumber(c.maxSimulationTime))])
  }

  function HandshakeResponseHead(r: HandshakeResponse): seq<(string, Json)> {
    [("id", JString(r.id)), ("type", JString(r.msgType)), ("timestamp", JNumber(r.timestamp)),
     ("success", JBool(r.success)), ("agentVersion", JString(r.agentVersion))]
  }

  /** The members in declaration order, the optional ones skipped when
      unset (`skip_serializing_if = "Option::is_none"`). */
  function HandshakeResponseJson(r: HandshakeResponse): seq<(string, Json)> {
    HandshakeResponseHead(r)
    + (OptionalMember("ltspicePath", OptionString(r.ltspicePath))
       + ([("capabilities", CapabilitiesJson(r.capabilities))]
          + OptionalMember("error", OptionString(r.error))))
  }

  function SimulationResponseHead(r: SimulationResponse): seq<(string, Json)> {
    [("id", JString(r.id)), ("type", JString(r.msgType)), ("requestId", JString(r.requestId)),
     ("timestamp", JNumber(r.timestamp)), ("success", JBool(r.success))]
  }

  function SimulationResponseTail(r: SimulationResponse): seq<(string, Json)> {
    [("executionTime", JNumber(r.executionTime)), ("simulator", JString(r.simulator))]
  }

  function OptionResults(results: Option<SimulationResults>): Option<Json> {
    if results.Some? then Some(ResultsJson(results.value)) else None
  }

  function SimulationResponseJson(r: SimulationResponse): seq<(string, Json)> {
    SimulationResponseHead(r)
    + (OptionalMember("results", OptionResults(r.results))
       + (OptionalMember("error", OptionString(r.error)) + SimulationResponseTail(r)))
  }

  function SimulationProgressJson(r: SimulationProgress): seq<(string, Json)> {
    [("id", JString(r.id)), ("type", JString(r.msgType)), ("requestId", JString(r.requestId)),
     ("timestamp", JNumber(r.timestamp)), ("stage", JString(r.stage)), ("message", JString(r.message))]
  }

  function PongResponseJson(r: PongResponse): seq<(string, Json)> {
    [("id", JString(r.id)), ("type", JString(r.msgType)), ("timestamp", JNumber(r.timestamp)),
     ("status", JString(r.status))]
  }

  function CancelResponseJson(r: CancelResponse): seq<(string, Json)> {
    [("id", JString(r.id)), ("type", JString(r.msgType)), ("requestId", JString(r.requestId)),
     ("timestamp", JNumber(r.timestamp)), ("success", JBool(r.success))]
  }

  /** `Member` finds a key exactly when some member carries it. */
  lemma {:induction false} MemberFoundIff(m: seq<(string, Json)>, key: string)
    ensures Member(m, key).Some? <==> key in Keys(m)
  {
    if m != [] {
      assert Keys(m) == [m[0].0] + Keys(m[1..]);
      MemberFoundIff(m[1..], key);
    }
  }

  /** The first member called `key` is the one `Member` finds. */
  lemma {:induction false} MemberAt(m: seq<(string, Json)>, i: nat, key: string)
    requires i < |m| && m[i].0 == key
    requires forall j :: 0 <= j < i ==> m[j].0 != key
    ensures Member(m, key) == Some(m[i].1)
  {
    if i > 0 {
      MemberAt(m[1..], i - 1, key);
    }
  }

  /** Members that do not carry `key` can be skipped. */
  lemma {:induction false} MemberAfter(head: seq<(string, Json)>, key: string, rest: seq<(string, Json)>)
    requires forall i :: 0 <= i < |head| ==> head[i].0 != key
    ensures Member(head + rest, key) == Member(rest, key)
  {
    if head == [] {
      assert head + rest == rest;
    } else {
      assert (head + rest)[0] == head[0];
      assert (head + rest)[1..] == head[1..] + rest;
      MemberAfter(head[1..], key, rest);
    }
  }

  /** An optional member is found under its own key exactly when set. */
  lemma MemberOptional(key: string, v: Option<Json>, rest: seq<(string, Json)>)
    ensures Member(OptionalMember(key, v) + rest, key) == if v.Some? then v else Member(rest, key)
  {
    if v.Some? {
      assert (OptionalMember(key, v) + rest)[0] == (key, v.value);
    } else {
      assert OptionalMember(key, v) + rest == rest;
    }
  }

  /** No member carries `key`, so it is not found. */
  lemma MemberMissing(m: seq<(string, Json)>, key: string)
    requires forall i :: 0 <= i < |m| ==> m[i].0 != key
    ensures Member(m, key).None?
  {
    MemberAfter(m, key, []);
    assert m + [] == m;
  }

  /** A handshake response carries `ltspicePath` exactly when it is set, and
      it reads back as the path it was written from. */
  lemma HandshakeResponsePathField(r: HandshakeResponse)
    ensures Member(HandshakeResponseJson(r), "ltspicePath") == OptionString(r.ltspicePath)
  {
    var error := OptionalMember("error", OptionString(r.error));
    var capabilities := [("capabilities", CapabilitiesJson(r.capabilities))];
    MemberAfter(HandshakeResponseHead(r), "ltspicePath",
                OptionalMember("ltspicePath", OptionString(r.ltspicePath)) + (capabilities + error));
    MemberOptional("ltspicePath", OptionString(r.ltspicePath), capabilities + error);
    MemberAfter(capabilities, "ltspicePath", error);
    MemberMissing(error, "ltspicePath");
  }

  /** A handshake response carries `error` exactly when it is set, and it
      reads back as the message it was written from. */
  lemma HandshakeResponseErrorField(r: HandshakeResponse)
    ensures Member(HandshakeResponseJson(r), "error") == OptionString(r.error)
  {
    var path := OptionalMember("ltspicePath", OptionString(r.ltspicePath));
    var capabilities := [("capabilities", CapabilitiesJson(r.capabilities))];
    var error := OptionalMember("error", OptionString(r.error));
    MemberAfter(HandshakeResponseHead(r), "error", path + (capabilities + error));
    MemberAfter(path, "error", capabilities + error);
    MemberAfter(capabilities, "error", error);
    MemberOptional("error", OptionString(r.error), []);
    assert error + [] == error;
  }

  /** A simulation response carries `results` exactly when it is set, and it
      reads back as the results it was written from. */
  lemma SimulationResponseResultsField(r: SimulationResponse)
    ensures Member(SimulationResponseJson(r), "results") == OptionResults(r.results)
  {
    var error := OptionalMember("error", OptionString(r.error));
    var tail := SimulationResponseTail(r);
    MemberAfter(SimulationResponseHead(r), "results", OptionalMember("results", OptionResults(r.results)) + (error + tail));
    MemberOptional("results", OptionResults(r.results), error + tail);
    MemberAfter(error, "results", tail);
    MemberMissing(tail, "results");
  }

  /** A simulation response carries `error` exactly when it is set, and it
      reads back as the message it was written from. */
  lemma SimulationResponseErrorField(r: SimulationResponse)
    ensures Member(SimulationResponseJson(r), "error") == OptionString(r.error)
  {
    var results := OptionalMember("results", OptionResults(r.results));
    var tail := SimulationResponseTail(r);
    MemberAfter(SimulationResponseHead(r), "error", results + (OptionalMember("error", OptionString(r.error)) + tail));
    MemberAfter(results, "error", OptionalMember("error", OptionString(r.error)) + tail);
    MemberOptional("error", OptionString(r.error), tail);
    MemberMissing(tail, "error");
  }

  lemma {:induction false} KeysAppend(a: seq<(string, Json)>, b: seq<(string, Json)>)
    ensures Keys(a + b) == Keys(a) + Keys(b)
  {
    if a == [] {
      assert a + b == b;
    } else {
      assert (a + b)[0] == a[0];
      assert (a + b)[1..] == a[1..] + b;
      KeysAppend(a[1..], b);
    }
  }

  /** A handshake response's members come in declaration order under their
      wire names, `ltspicePath` and `error` only when set. */
  lemma HandshakeResponseKeys(r: HandshakeResponse)
    ensures Keys(HandshakeResponseJson(r))
            == ["id", "type", "timestamp", "success", "agentVersion"]
               + ((if r.ltspicePath.Some? then ["ltspicePath"] else [])
               + (["capabilities"]
               + (if r.error.Some? then ["error"] else [])))
  {
    var path := OptionalMember("ltspicePath", OptionString(r.ltspicePath));
    var capabilities := [("capabilities", CapabilitiesJson(r.capabilities))];
    var error := OptionalMember("error", OptionString(r.error));
    KeysAppend(HandshakeResponseHead(r), path + (capabilities + error));
    KeysAppend(path, capabilities + error);
    KeysAppend(capabilities, error);
    HandshakeHeadKeys(r);
    KeysOptional("ltspicePath", OptionString(r.ltspicePath));
    KeysOptional("error", OptionString(r.error));
    assert Keys(capabilities) == ["capabilities"];
  }

  lemma HandshakeHeadKeys(r: HandshakeResponse)
    ensures Keys(HandshakeResponseHead(r)) == ["id", "type", "timestamp", "success", "agentVersion"]
  {
  }

  /** A simulation response's members come in declaration order under their
      wire names, `results` and `error` only when set. */
  lemma SimulationResponseKeys(r: SimulationResponse)
    ensures Keys(SimulationResponseJson(r))
            == ["id", "type", "requestId", "timestamp", "success"]
               + ((if r.results.Some? then ["results"] else [])
               + ((if r.error.Some? then ["error"] else [])
               + ["executionTime", "simulator"]))
  {
    var results := OptionalMember("results", OptionResults(r.results));
    var error := OptionalMember("error", OptionString(r.error));
    var tail := SimulationResponseTail(r);
    KeysAppend(SimulationResponseHead(r), results + (error + tail));
    KeysAppend(results, error + tail);
    KeysAppend(error, tail);
    SimulationHeadKeys(r);
    KeysOptional("results", OptionResults(r.results));
    KeysOptional("error", OptionString(r.error));
    assert Keys(tail) == ["executionTime", "simulator"];
  }

  lemma SimulationHeadKeys(r: SimulationResponse)
    ensures Keys(SimulationResponseHead(r)) == ["id", "type", "requestId", "timestamp", "success"]
  {
  }

  lemma KeysOptional(key: string, v: Option<Json>)
    ensures Keys(OptionalMember(key, v)) == if v.Some? then [key] else []
  {
  }

  /** A handshake response reports its outcome under `success`. */
  lemma HandshakeResponseSuccessField(r: HandshakeResponse)
    ensures Member(HandshakeResponseJson(r), "success") == Some(JBool(r.success))
  {
    MemberAt(HandshakeResponseJson(r), 3, "success");
  }

  /** A cancel response names the simulation it was about and whether the
      cancellation was accepted. */
  lemma CancelResponseFields(r: CancelResponse)
    ensures Member(CancelResponseJson(r), "requestId") == Some(JString(r.requestId))
    ensures Member(CancelResponseJson(r), "success") == Some(JBool(r.success))
  {
    MemberAt(CancelResponseJson(r), 2, "requestId");
    MemberAt(CancelResponseJson(r), 4, "success");
  }
}
