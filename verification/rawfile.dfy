/** The binary part of an LTspice `.raw` file and the whole decoder: finding
    the end of the `Binary:` marker in the bytes, the size check, reading
    each point's values at fixed offsets into one column per variable, and
    assembling the traces and the analysis type. */
module RawFile {
  import opened Wrappers
  import opened Text
  import opened Protocol
  import opened RawHeader

  // Marker search

  /** `haystack.windows(k)`: every run of `k` consecutive bytes, in order. */
  function Windows(haystack: seq<bv8>, k: nat): (ws: seq<seq<bv8>>)
    ensures |ws| == if k <= |haystack| then |haystack| - k + 1 else 0
    ensures forall i :: 0 <= i < |ws| ==> ws[i] == haystack[i..i + k]
  {
    if k > |haystack| then []
    else seq(|haystack| - k + 1, i requires 0 <= i <= |haystack| - k => haystack[i..i + k])
  }

  /** `find_subsequence`: the position of the first window equal to the
      needle. `windows(0)` panics, so the needle is never empty. */
  function FindSubsequence(haystack: seq<bv8>, needle: seq<bv8>): Option<nat>
    requires |needle| > 0
  {
    Position(Windows(haystack, |needle|), w => w == needle)
  }

  /** The search reports the least index at which the needle occurs, and
      nothing exactly when it occurs nowhere (in particular when it is longer
      than the haystack). */
  lemma FindSubsequenceIsLeast(haystack: seq<bv8>, needle: seq<bv8>)
    requires |needle| > 0
    ensures match FindSubsequence(haystack, needle)
            case Some(i) =>
              && OccursAt(haystack, needle, i)
              && forall j :: 0 <= j < i ==> !OccursAt(haystack, needle, j)
            case None =>
              forall j :: 0 <= j ==> !OccursAt(haystack, needle, j)
  {
    var ws := Windows(haystack, |needle|);
    match FindSubsequence(haystack, needle)
    case Some(i) =>
      assert ws[i] == needle;
      forall j | 0 <= j < i ensures !OccursAt(haystack, needle, j) {
        assert ws[j] != needle;
      }
    case None =>
      forall j | 0 <= j ensures !OccursAt(haystack, needle, j) {
        if j + |needle| <= |haystack| {
          assert ws[j] != needle;
        }
      }
  }

  /** An ASCII string as bytes, one byte per character. */
  function Ascii(s: string): (bytes: seq<bv8>)
    requires forall i :: 0 <= i < |s| ==> s[i] < 128 as char
    ensures |bytes| == |s|
  {
    seq(|s|, i requires 0 <= i < |s| => s[i] as int as bv8)
  }

  /** An ASCII string as UTF-16LE: each character, then a zero byte. */
  function Utf16Le(s: string): (bytes: seq<bv8>)
    requires forall i :: 0 <= i < |s| ==> s[i] < 128 as char
    ensures |bytes| == 2 * |s|
    ensures forall i :: 0 <= i < |s| ==> bytes[2 * i] == s[i] as int as bv8 && bytes[2 * i + 1] == 0
  {
    seq(2 * |s|, j requires 0 <= j < 2 * |s| => if j % 2 == 0 then s[j / 2] as int as bv8 else 0)
  }

  const BINARY_LF: string := "Binary:\n"
  const BINARY_CRLF: string := "Binary:\r\n"

  /** The markers `find_binary_marker` tries, in its order. */
  const MARKERS: seq<seq<bv8>> := [
    Utf16Le(BINARY_LF),
    Utf16Le(BINARY_CRLF),
    Ascii(BINARY_LF),
    Ascii(BINARY_CRLF)
  ]

  lemma MarkersAreNotEmpty()
    ensures |MARKERS| == 4
    ensures forall m :: 0 <= m < |MARKERS| ==> |MARKERS[m]| > 0
  {
    assert |BINARY_LF| == 8 && |BINARY_CRLF| == 9;
    assert |MARKERS[0]| == 16 && |MARKERS[1]| == 18;
    assert |MARKERS[2]| == 8 && |MARKERS[3]| == 9;
  }

  /** The end of the first marker among `markers[i..]` that occurs in
      `data`. */
  function FirstMarkerEnd(data: seq<bv8>, markers: seq<seq<bv8>>, i: nat): (r: Option<nat>)
    requires i <= |markers|
    requires forall m :: 0 <= m < |markers| ==> |markers[m]| > 0
    ensures r.Some? ==> r.value <= |data|
    decreases |markers| - i
  {
    if i == |markers| then None
    else
      match FindSubsequence(data, markers[i])
      case Some(pos) =>
        FindSubsequenceIsLeast(data, markers[i]);
        Some(pos + |markers[i]|)
      case None => FirstMarkerEnd(data, markers, i + 1)
  }

  /** `find_binary_marker`: where the binary data starts. */
  function FindBinaryMarker(data: seq<bv8>): (r: Option<nat>)
    ensures r.Some? ==> r.value <= |data|
  {
    MarkersAreNotEmpty();
    FirstMarkerEnd(data, MARKERS, 0)
  }

  /** The markers are tried in order: when marker `m` is the first from `i`
      on that occurs, the data starts just past its first occurrence. */
  lemma {:induction false} FirstMarkerEndIsFirst(data: seq<bv8>, markers: seq<seq<bv8>>, i: nat, m: nat)
    requires forall j :: 0 <= j < |markers| ==> |markers[j]| > 0
    requires i <= m < |markers|
    requires forall k :: i <= k < m ==> FindSubsequence(data, markers[k]).None?
    requires FindSubsequence(data, markers[m]).Some?
    ensures FirstMarkerEnd(data, markers, i) == Some(FindSubsequence(data, markers[m]).value + |markers[m]|)
    decreases m - i
  {
    if i < m {
      assert FindSubsequence(data, markers[i]).None?;
      FirstMarkerEndIsFirst(data, markers, i + 1, m);
    }
  }

  /** When no marker from `i` on occurs, there is no data start. */
  lemma {:induction false} NoMarkerNoEnd(data: seq<bv8>, markers: seq<seq<bv8>>, i: nat)
    requires forall j :: 0 <= j < |markers| ==> |markers[j]| > 0
    requires i <= |markers|
    requires forall k :: i <= k < |markers| ==> FindSubsequence(data, markers[k]).None?
    ensures FirstMarkerEnd(data, markers, i).None?
    decreases |markers| - i
  {
    if i < |markers| {
      assert FindSubsequence(data, markers[i]).None?;
      NoMarkerNoEnd(data, markers, i + 1);
    }
  }

  // Record width and the size check

  /** Bytes per point: every value an `f64` in double precision; otherwise
      the time an `f64` and every other variable an `f32`. */
  function BytesPerPoint(numVars: nat, isDouble: bool): (bpp: nat)
    requires numVars >= 1
    ensures bpp >= 8
  {
    if isDouble then numVars * 8 else 8 + (numVars - 1) * 4
  }

  /** Where value `v` of point `p` starts, and how many bytes it takes. */
  function Offset(bpp: nat, isDouble: bool, p: nat, v: nat): nat {
    p * bpp + (if v == 0 then 0 else if isDouble then v * 8 else 8 + (v - 1) * 4)
  }

  function Width(isDouble: bool, v: nat): nat {
    if v == 0 || isDouble then 8 else 4
  }

  /** Within a point the values are laid out back to back and fill the
      record exactly. */
  lemma RecordLayout(numVars: nat, isDouble: bool, v: nat)
    requires 1 <= numVars && v < numVars
    ensures var bpp := BytesPerPoint(numVars, isDouble);
            && Offset(bpp, isDouble, 0, v) + Width(isDouble, v) <= bpp
            && (v + 1 < numVars ==> Offset(bpp, isDouble, 0, v + 1) == Offset(bpp, isDouble, 0, v) + Width(isDouble, v))
            && (v + 1 == numVars ==> Offset(bpp, isDouble, 0, v) + Width(isDouble, v) == bpp)
  {
  }

  lemma MulMono(a: nat, b: nat, c: nat)
    requires a <= b
    ensures a * c <= b * c
  {
  }

  /** Once the data holds `numPoints` records, every value of every point
      lies inside it. */
  lemma ReadsInBounds(numVars: nat, numPoints: nat, isDouble: bool, size: nat, p: nat, v: nat)
    requires 1 <= numVars && v < numVars && p < numPoints
    requires size >= numPoints * BytesPerPoint(numVars, isDouble)
    ensures Offset(BytesPerPoint(numVars, isDouble), isDouble, p, v) + Width(isDouble, v) <= size
  {
    var bpp := BytesPerPoint(numVars, isDouble);
    RecordLayout(numVars, isDouble, v);
    MulMono(p + 1, numPoints, bpp);
    assert (p + 1) * bpp == p * bpp + bpp;
  }

  // Reading values

  /** `read_f64_le`. */
  function ReadF64Le(data: seq<bv8>, offset: nat): (r: Result<Real64, string>)
    ensures r.Ok? <==> offset + 8 <= |data|
    ensures r.Ok? ==> r.value == F64Bits(data[offset..offset + 8])
    ensures r.Err? ==> r.error == "Buffer overflow reading f64 at offset " + NatToString(offset)
  {
    if offset + 8 > |data| then Err("Buffer overflow reading f64 at offset " + NatToString(offset))
    else Ok(F64Bits(data[offset..offset + 8]))
  }

  /** `read_f32_le`, the value then widened to `f64`. */
  function ReadF32Le(data: seq<bv8>, offset: nat): (r: Result<Real64, string>)
    ensures r.Ok? <==> offset + 4 <= |data|
    ensures r.Ok? ==> r.value == F32Bits(data[offset..offset + 4])
    ensures r.Err? ==> r.error == "Buffer overflow reading f32 at offset " + NatToString(offset)
  {
    if offset + 4 > |data| then Err("Buffer overflow reading f32 at offset " + NatToString(offset))
    else Ok(F32Bits(data[offset..offset + 4]))
  }

  /** The read the loop makes for value `v` of point `p`. */
  function ReadValue(binary: seq<bv8>, bpp: nat, isDouble: bool, p: nat, v: nat): Result<Real64, string> {
    var offset := Offset(bpp, isDouble, p, v);
    if Width(isDouble, v) == 8 then ReadF64Le(binary, offset) else ReadF32Le(binary, offset)
  }

  /** Value `v` of point `p`: the bytes at its offset, as wide as its type. */
  function Value(binary: seq<bv8>, bpp: nat, isDouble: bool, p: nat, v: nat): Real64
    requires Offset(bpp, isDouble, p, v) + Width(isDouble, v) <= |binary|
  {
    var offset := Offset(bpp, isDouble, p, v);
    if Width(isDouble, v) == 8 then F64Bits(binary[offset..offset + 8])
    else F32Bits(binary[offset..offset + 4])
  }

  /** Past the size check no read fails: the overflow errors of the two
      readers cannot occur, and each read gives the value at its offset. */
  lemma ReadsSucceed(binary: seq<bv8>, numVars: nat, numPoints: nat, isDouble: bool, p: nat, v: nat)
    requires 1 <= numVars && v < numVars && p < numPoints
    requires |binary| >= numPoints * BytesPerPoint(numVars, isDouble)
    ensures var bpp := BytesPerPoint(numVars, isDouble);
            && Offset(bpp, isDouble, p, v) + Width(isDouble, v) <= |binary|
            && ReadValue(binary, bpp, isDouble, p, v) == Ok(Value(binary, bpp, isDouble, p, v))
  {
    ReadsInBounds(numVars, numPoints, isDouble, |binary|, p, v);
  }

  /** Column `v`: value `v` of every point, in point order. */
  function Column(binary: seq<bv8>, numVars: nat, numPoints: nat, isDouble: bool, v: nat): (col: seq<Real64>)
    requires 1 <= numVars && v < numVars
    requires |binary| >= numPoints * BytesPerPoint(numVars, isDouble)
    ensures |col| == numPoints
  {
    var bpp := BytesPerPoint(numVars, isDouble);
    seq(numPoints, p requires 0 <= p < numPoints =>
      ReadsInBounds(numVars, numPoints, isDouble, |binary|, p, v);
      Value(binary, bpp, isDouble, p, v))
  }

  /** All columns, the time first. */
  function Columns(binary: seq<bv8>, numVars: nat, numPoints: nat, isDouble: bool): (cols: seq<seq<Real64>>)
    requires 1 <= numVars
    requires |binary| >= numPoints * BytesPerPoint(numVars, isDouble)
    ensures |cols| == numVars
  {
    seq(numVars, v requires 0 <= v < numVars => Column(binary, numVars, numPoints, isDouble, v))
  }

  /** The point/variable loop of `parse_raw_file`, run once the size check
      has passed: one buffer per variable, each point appending one value to
      each. */
  method ReadColumns(binary: seq<bv8>, numVars: nat, numPoints: nat, isDouble: bool) returns (columns: seq<seq<Real64>>)
    requires 1 <= numVars
    requires |binary| >= numPoints * BytesPerPoint(numVars, isDouble)
    ensures columns == Columns(binary, numVars, numPoints, isDouble)
  {
    var bpp := BytesPerPoint(numVars, isDouble);
    var all := new seq<Real64>[numVars](_ => []);
    for point := 0 to numPoints
      invariant forall v :: 0 <= v < numVars ==> all[v] == Column(binary, numVars, numPoints, isDouble, v)[..point]
    {
      var pointOffset := point * bpp;
      ReadsSucceed(binary, numVars, numPoints, isDouble, point, 0);
      var time := ReadF64Le(binary, pointOffset).value;
      Extend(all[0], binary, numVars, numPoints, isDouble, 0, point, time);
      all[0] := all[0] + [time];
      for v := 1 to numVars
        invariant forall u :: 0 <= u < v ==> all[u] == Column(binary, numVars, numPoints, isDouble, u)[..point + 1]
        invariant forall u :: v <= u < numVars ==> all[u] == Column(binary, numVars, numPoints, isDouble, u)[..point]
      {
        ReadsSucceed(binary, numVars, numPoints, isDouble, point, v);
        var value;
        if isDouble {
          value := ReadF64Le(binary, pointOffset + v * 8).value;
        } else {
          value := ReadF32Le(binary, pointOffset + 8 + (v - 1) * 4).value;
        }
        Extend(all[v], binary, numVars, numPoints, isDouble, v, point, value);
        all[v] := all[v] + [value];
      }
    }
    columns := all[..];
    forall v | 0 <= v < numVars
      ensures columns[v] == Columns(binary, numVars, numPoints, isDouble)[v]
    {
      var col := Column(binary, numVars, numPoints, isDouble, v);
      assert col[..numPoints] == col;
    }
  }

  lemma Extend(prefix: seq<Real64>, binary: seq<bv8>, numVars: nat, numPoints: nat, isDouble: bool, v: nat, point: nat, x: Real64)
    requires 1 <= numVars && v < numVars && point < numPoints
    requires |binary| >= numPoints * BytesPerPoint(numVars, isDouble)
    requires prefix == Column(binary, numVars, numPoints, isDouble, v)[..point]
    requires ReadValue(binary, BytesPerPoint(numVars, isDouble), isDouble, point, v) == Ok(x)
    ensures prefix + [x] == Column(binary, numVars, numPoints, isDouble, v)[..point + 1]
  {
    ReadsSucceed(binary, numVars, numPoints, isDouble, point, v);
  }

  /** Each entry of a column is what the loop's read of that value gives. */
  lemma ColumnIsRead(binary: seq<bv8>, numVars: nat, numPoints: nat, isDouble: bool, v: nat, p: nat)
    requires 1 <= numVars && v < numVars && p < numPoints
    requires |binary| >= numPoints * BytesPerPoint(numVars, isDouble)
    ensures ReadValue(binary, BytesPerPoint(numVars, isDouble), isDouble, p, v)
            == Ok(Column(binary, numVars, numPoints, isDouble, v)[p])
  {
    ReadsSucceed(binary, numVars, numPoints, isDouble, p, v);
  }

  // Traces and analysis type

  /** The unit shown for a variable of the given type. */
  function UnitOf(varType: string): (unit: string)
    ensures unit in {"V", "A", "s", ""}
    ensures unit == "" <==> varType !in {"voltage", "current", "time"}
  {
    if varType == "voltage" then "V"
    else if varType == "current" then "A"
    else if varType == "time" then "s"
    else ""
  }

  /** One trace per declared variable after the first (the time axis), with
      that variable's column, or no data when the header declared fewer
      variables than it lists. */
  function BuildTraces(variables: seq<Variable>, columns: seq<seq<Real64>>): (traces: seq<Trace>)
    ensures |traces| == if |variables| == 0 then 0 else |variables| - 1
  {
    if |variables| == 0 then []
    else
      seq(|variables| - 1, k requires 0 <= k < |variables| - 1 =>
        var i := k + 1;
        Trace(variables[i].name, if i < |columns| then columns[i] else [], UnitOf(variables[i].varType)))
  }

  function TraceNames(traces: seq<Trace>): seq<string> {
    seq(|traces|, k requires 0 <= k < |traces| => traces[k].name)
  }

  function VariableNames(variables: seq<Variable>): seq<string> {
    seq(|variables|, k requires 0 <= k < |variables| => variables[k].name)
  }

  /** The traces carry the declared names after the first, in order. */
  lemma TracesFollowDeclarations(variables: seq<Variable>, columns: seq<seq<Real64>>)
    requires |variables| >= 1
    ensures TraceNames(BuildTraces(variables, columns)) == VariableNames(variables[1..])
    ensures VariableNames(variables) == [variables[0].name] + TraceNames(BuildTraces(variables, columns))
  {
  }

  const TRANSIENT: string := "transient"

  /** The analysis named by the decoded text: a transient analysis wins over
      an AC analysis, which wins over any mention of `dc`; transient when
      nothing matches. */
  function AnalysisType(text: string): (kind: string)
    ensures kind in {TRANSIENT, "ac", "dc"}
    ensures kind == "ac" <==> !Contains(Lower(text), "transient analysis") && Contains(Lower(text), "ac analysis")
    ensures kind == "dc"
            <==> !Contains(Lower(text), "transient analysis") && !Contains(Lower(text), "ac analysis") && Contains(Lower(text), "dc")
  {
    var lower := Lower(text);
    if Contains(lower, "transient analysis") then TRANSIENT
    else if Contains(lower, "ac analysis") then "ac"
    else if Contains(lower, "dc") then "dc"
    else TRANSIENT
  }

  /** The plot name LTspice writes for a transient run makes the file a
      transient one, whatever else the header says. */
  lemma TransientPlotname(before: string, after: string)
    ensures AnalysisType(before + "Plotname: Transient Analysis" + after) == TRANSIENT
  {
    assert OccursAt(Lower("Plotname: Transient Analysis"), "transient analysis", 10);
    ContainsInContext(before, "Plotname: Transient Analysis", after, "transient analysis");
  }

  /** The plot name of an AC run makes the file an AC one unless the text
      also mentions a transient analysis. */
  lemma AcPlotname(before: string, after: string)
    requires !Contains(Lower(before + "Plotname: AC Analysis" + after), "transient analysis")
    ensures AnalysisType(before + "Plotname: AC Analysis" + after) == "ac"
  {
    assert OccursAt(Lower("Plotname: AC Analysis"), "ac analysis", 10);
    ContainsInContext(before, "Plotname: AC Analysis", after, "ac analysis");
  }

  // The decoder

  const HEADER_ERROR: string := "Could not parse raw file header"
  const MARKER_ERROR: string := "Could not find binary data marker"

  function TooShort(expected: nat, got: nat): string {
    "Binary data too short: expected " + NatToString(expected) + " bytes, got " + NatToString(got)
  }

  /** What `parse_raw_file` makes of the file's bytes once the header has
      been read and the analysis type named. */
  function Assemble(data: seq<bv8>, marker: Option<nat>, h: Header, kind: string): Result<SimulationResults, string>
    requires marker.Some? ==> marker.value <= |data|
  {
    if h.numVars == 0 || h.numPoints == 0 then Err(HEADER_ERROR)
    else
      match marker
      case None => Err(MARKER_ERROR)
      case Some(start) =>
        var binary := data[start..];
        var expected := h.numPoints * BytesPerPoint(h.numVars, h.isDouble);
        if |binary| < expected then Err(TooShort(expected, |binary|))
        else
          var columns := Columns(binary, h.numVars, h.numPoints, h.isDouble);
          Ok(SimulationResults(columns[0], BuildTraces(h.variables, columns), kind))
  }

  /** `parse_raw_file` on the file's bytes and the text they decode to. */
  function Decode(data: seq<bv8>, text: string): Result<SimulationResults, string> {
    Assemble(data, FindBinaryMarker(data), HeaderOf(text), AnalysisType(text))
  }

  /** `parse_raw_file`, from the point where the file has been read and its
      text decoded. */
  method ParseRawFile(data: seq<bv8>, text: string) returns (r: Result<SimulationResults, string>)
    ensures r == Decode(data, text)
  {
    var h := ParseHeader(text);
    if h.numVars == 0 || h.numPoints == 0 {
      return Err(HEADER_ERROR);
    }
    var start := FindBinaryMarker(data);
    if start.None? {
      return Err(MARKER_ERROR);
    }
    var binary := data[start.value..];
    var bpp := BytesPerPoint(h.numVars, h.isDouble);
    var expected := h.numPoints * bpp;
    if |binary| < expected {
      return Err(TooShort(expected, |binary|));
    }
    var columns := ReadColumns(binary, h.numVars, h.numPoints, h.isDouble);
    var time := columns[0];
    var traces := BuildTraces(h.variables, columns);
    r := Ok(SimulationResults(time, traces, AnalysisType(text)));
  }

  /** Decoding fails with the header error exactly when the last variable
      count or the last point count before `Binary:` is missing, does not
      parse, or is zero. */
  lemma HeaderErrorIff(data: seq<bv8>, text: string)
    ensures var pre := BeforeBinary(Kinds(Lines(text)));
            Decode(data, text) == Err(HEADER_ERROR)
            <==> LastVariablesCount(pre) == 0 || LastPointsCount(pre) == 0
  {
    HeaderFields(text);
    HeaderError(data, FindBinaryMarker(data), HeaderOf(text), AnalysisType(text));
  }

  lemma HeaderError(data: seq<bv8>, marker: Option<nat>, h: Header, kind: string)
    requires marker.Some? ==> marker.value <= |data|
    ensures Assemble(data, marker, h, kind) == Err(HEADER_ERROR) <==> h.numVars == 0 || h.numPoints == 0
  {
    if h.numVars != 0 && h.numPoints != 0 {
      assert MARKER_ERROR[10] != HEADER_ERROR[10];
      match marker
      case None =>
      case Some(start) =>
        var expected := h.numPoints * BytesPerPoint(h.numVars, h.isDouble);
        assert TooShort(expected, |data[start..]|)[0] != HEADER_ERROR[0];
    }
  }

  /** Every decoding failure is one of the three the decoder reports. */
  lemma DecodeErrors(data: seq<bv8>, text: string)
    ensures var r := Decode(data, text);
            r.Err? ==> r.error == HEADER_ERROR || r.error == MARKER_ERROR || StartsWith(r.error, "Binary data too short: expected ")
  {
    AssembleErrors(data, FindBinaryMarker(data), HeaderOf(text), AnalysisType(text));
  }

  lemma AssembleErrors(data: seq<bv8>, marker: Option<nat>, h: Header, kind: string)
    requires marker.Some? ==> marker.value <= |data|
    ensures var r := Assemble(data, marker, h, kind);
            r.Err? ==> r.error == HEADER_ERROR || r.error == MARKER_ERROR || StartsWith(r.error, "Binary data too short: expected ")
  {
  }

  /** Decoding succeeds exactly when both counts are set, a marker is found
      and the data after it holds every record; how many variables the
      `Variables:` block lists plays no part. */
  lemma DecodeSucceedsIff(data: seq<bv8>, marker: Option<nat>, h: Header, kind: string)
    requires marker.Some? ==> marker.value <= |data|
    ensures Assemble(data, marker, h, kind).Ok?
            <==> && h.numVars != 0 && h.numPoints != 0
                 && marker.Some?
                 && |data| - marker.value >= h.numPoints * BytesPerPoint(h.numVars, h.isDouble)
  {
  }

  /** A decoded file has one time value per point: the `f64` at the start
      of each record, whose read succeeds. */
  lemma DecodedTime(data: seq<bv8>, marker: Option<nat>, h: Header, kind: string)
    requires marker.Some? ==> marker.value <= |data|
    requires Assemble(data, marker, h, kind).Ok?
    ensures var time := Assemble(data, marker, h, kind).value.time;
            var binary := data[marker.value..];
            var bpp := BytesPerPoint(h.numVars, h.isDouble);
            && |time| == h.numPoints
            && forall p :: 0 <= p < h.numPoints ==> ReadF64Le(binary, p * bpp) == Ok(time[p])
  {
    var binary := data[marker.value..];
    var bpp := BytesPerPoint(h.numVars, h.isDouble);
    var time := Column(binary, h.numVars, h.numPoints, h.isDouble, 0);
    assert Assemble(data, marker, h, kind).value.time == time;
    forall p | 0 <= p < h.numPoints ensures ReadF64Le(binary, p * bpp) == Ok(time[p]) {
      ReadsSucceed(binary, h.numVars, h.numPoints, h.isDouble, p, 0);
    }
  }

  /** Each trace of a decoded file whose variable the header counts has one
      value per point, read at that variable's place in each record; a trace
      the count does not cover has no data. */
  lemma DecodedTraces(data: seq<bv8>, marker: Option<nat>, h: Header, kind: string)
    requires marker.Some? ==> marker.value <= |data|
    requires Assemble(data, marker, h, kind).Ok?
    ensures var traces := Assemble(data, marker, h, kind).value.traces;
            var binary := data[marker.value..];
            && |traces| == (if |h.variables| == 0 then 0 else |h.variables| - 1)
            && forall k :: 0 <= k < |traces| ==>
                 && traces[k].name == h.variables[k + 1].name
                 && traces[k].unit == UnitOf(h.variables[k + 1].varType)
                 && (k + 1 < h.numVars ==> traces[k].data == Column(binary, h.numVars, h.numPoints, h.isDouble, k + 1))
                 && (k + 1 >= h.numVars ==> traces[k].data == [])
  {
    var binary := data[marker.value..];
    var columns := Columns(binary, h.numVars, h.numPoints, h.isDouble);
    assert Assemble(data, marker, h, kind).value.traces == BuildTraces(h.variables, columns);
  }

  // The size check in 64-bit arithmetic

  /** `usize` multiplication as a release build performs it: modulo 2^64. */
  function WrappingMul(a: nat, b: nat): (r: nat)
    ensures r < USIZE_LIMIT
  {
    (a * b) % USIZE_LIMIT
  }

  /** The expected data size as `parse_raw_file` computes it, in wrapping
      `usize` arithmetic. */
  function ExpectedSizeAsWritten(numVars: nat, numPoints: nat, isDouble: bool): (size: nat)
    requires numVars >= 1
    ensures size < USIZE_LIMIT
  {
    var bpp := if isDouble then WrappingMul(numVars, 8) else (8 + WrappingMul(numVars - 1, 4)) % USIZE_LIMIT;
    WrappingMul(numPoints, bpp)
  }

  /** One double-precision variable and 2^61 points, both counts a `usize`:
      the product wraps to zero, so an empty data section passes the size
      check as written. What comes next is the allocation of the sample
      columns with room for 2^61 `f64`s each, 2^64 bytes, which no `usize`
      holds: the code stops there, before any read. The unbounded check
      that `Decode` makes rejects the same input (`DecodeSucceedsIff`). */
  lemma SizeCheckWraps()
    ensures var numPoints := 0x2000_0000_0000_0000;
            && numPoints < USIZE_LIMIT
            && ExpectedSizeAsWritten(1, numPoints, true) == 0
            && numPoints * 8 >= USIZE_LIMIT
            && numPoints * BytesPerPoint(1, true) > 0
  {
  }
}
