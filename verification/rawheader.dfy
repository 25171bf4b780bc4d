/** The text header of an LTspice `.raw` file: the variable count, the point
    count, the precision flag and the `Variables:` block, read line by line
    from the decoded text up to the `Binary:` line. */
module RawHeader {
  import opened Wrappers
  import opened Text

  datatype Variable = Variable(name: string, varType: string)

  datatype Header = Header(numVars: nat, numPoints: nat, isDouble: bool, variables: seq<Variable>)

  /** What the header loop carries from one line to the next. */
  datatype Scan = Scan(header: Header, inVariables: bool, done: bool)

  const NUM_VARIABLES: string := "No. Variables:"
  const NUM_POINTS: string := "No. Points:"
  const FLAGS: string := "Flags:"

  /** `line.split(':').nth(1)`, trimmed and parsed as a `usize`, with 0 for a
      value that does not parse; None when there is no second piece. */
  function CountField(line: string): Option<nat> {
    var parts := Split(line, ':');
    if |parts| < 2 then None
    else
      match ParseUsize(Trim(parts[1]))
      case Some(n) => Some(n)
      case None => Some(0)
  }

  /** A `Variables:` entry such as `0\ttime\ttime`: at least three
      tab-separated fields, the second the name and the third the type. */
  function Entry(line: string): Option<Variable> {
    var parts := Split(line, '\t');
    if |parts| >= 3 then Some(Variable(parts[1], parts[2])) else None
  }

  /** What a header line is, once trimmed, decided in the loop's order:
      the three prefixes first, then the two section markers, then a
      candidate entry. */
  datatype LineKind =
    | VariablesCount(count: Option<nat>)
    | PointsCount(count: Option<nat>)
    | FlagsLine(double: bool)
    | VariablesMarker
    | BinaryMarker
    | Blank
    | EntryLine(entry: Option<Variable>)

  function Classify(raw: string): LineKind {
    var line := Trim(raw);
    if StartsWith(line, NUM_VARIABLES) then VariablesCount(CountField(line))
    else if StartsWith(line, NUM_POINTS) then PointsCount(CountField(line))
    else if StartsWith(line, FLAGS) then FlagsLine(Contains(Lower(line), "double"))
    else if line == "Variables:" then VariablesMarker
    else if line == "Binary:" then BinaryMarker
    else if line == "" then Blank
    else EntryLine(Entry(line))
  }

  function KindsBy(lines: seq<string>, classify: string -> LineKind): (ks: seq<LineKind>)
    ensures |ks| == |lines|
  {
    seq(|lines|, i requires 0 <= i < |lines| => classify(lines[i]))
  }

  function Kinds(lines: seq<string>): (ks: seq<LineKind>)
    ensures |ks| == |lines|
  {
    KindsBy(lines, Classify)
  }

  /** One turn of the header loop. */
  function Step(st: Scan, kind: LineKind): Scan {
    if st.done then st
    else
      match kind
      case VariablesCount(c) => if c.Some? then st.(header := st.header.(numVars := c.value)) else st
      case PointsCount(c) => if c.Some? then st.(header := st.header.(numPoints := c.value)) else st
      case FlagsLine(d) => st.(header := st.header.(isDouble := d))
      case VariablesMarker => st.(inVariables := true)
      case BinaryMarker => st.(done := true)
      case Blank => st
      case EntryLine(e) =>
        if st.inVariables && e.Some? then st.(header := st.header.(variables := st.header.variables + [e.value]))
        else st
  }

  const START: Scan := Scan(Header(0, 0, false, []), false, false)

  /** The loop's state after the first `n` lines. */
  function ScanKinds(ks: seq<LineKind>, n: nat): Scan
    requires n <= |ks|
  {
    if n == 0 then START else Step(ScanKinds(ks, n - 1), ks[n - 1])
  }

  /** The header read from the decoded text of the file. */
  function HeaderOf(text: string): Header {
    var ks := Kinds(Lines(text));
    ScanKinds(ks, |ks|).header
  }

  /** The header loop of `parse_raw_file`. */
  method ParseHeader(text: string) returns (h: Header)
    ensures h == HeaderOf(text)
  {
    h := ScanHeader(Lines(text), Classify);
  }

  /** The header loop over lines already split, with the way a line is
      classified passed in; `ParseHeader` passes `Classify`. */
  method ScanHeader(lines: seq<string>, classify: string -> LineKind) returns (h: Header)
    ensures h == ScanKinds(KindsBy(lines, classify), |lines|).header
  {
    ghost var ks := KindsBy(lines, classify);
    var numVars: nat, numPoints: nat := 0, 0;
    var variables: seq<Variable> := [];
    var inVariables := false;
    var isDouble := false;
    var i := 0;
    while i < |lines|
      invariant i <= |lines|
      invariant ScanKinds(ks, i) == Scan(Header(numVars, numPoints, isDouble, variables), inVariables, false)
    {
      var kind := classify(lines[i]);
      match kind {
        case VariablesCount(n) =>
          if n.Some? {
            numVars := n.value;
          }
        case PointsCount(n) =>
          if n.Some? {
            numPoints := n.value;
          }
        case FlagsLine(d) =>
          isDouble := d;
        case VariablesMarker =>
          inVariables := true;
        case BinaryMarker =>
          DoneStays(ks, i + 1);
          h := Header(numVars, numPoints, isDouble, variables);
          return;
        case Blank =>
        case EntryLine(v) =>
          if inVariables && v.Some? {
            variables := variables + [v.value];
          }
      }
      i := i + 1;
    }
    h := Header(numVars, numPoints, isDouble, variables);
  }

  /** A count line such as `No. Points:  42` reads back the number printed
      after its first colon, whatever whitespace comes between. */
  lemma CountFieldReadsNumber(key: string, ws: string, n: nat)
    requires ':' !in key
    requires forall i :: 0 <= i < |ws| ==> IsWhitespace(ws[i])
    requires n < USIZE_LIMIT
    ensures CountField(key + [':'] + ws + NatToString(n)) == Some(n)
  {
    var digits := NatToString(n);
    var rest := ws + digits;
    assert key + [':'] + ws + digits == key + [':'] + rest;
    assert ':' !in rest by {
      forall i | 0 <= i < |rest| ensures rest[i] != ':' {
        if i < |ws| {
          assert IsWhitespace(ws[i]);
        } else {
          assert IsDigit(digits[i - |ws|]);
        }
      }
    }
    SplitAfterPiece(key, ':', rest);
    SplitNoSep(rest, ':');
    assert IsDigit(digits[0]) && IsDigit(digits[|digits| - 1]);
    TrimPadded(ws, digits);
    ParseUsizeOfNatToString(n);
  }

  /** An entry written as tab-separated fields (index, name, type and
      possibly more) reads back the second and third field. */
  lemma EntryReadsFields(fields: seq<string>)
    requires |fields| >= 3
    requires forall k :: 0 <= k < |fields| ==> '\t' !in fields[k]
    ensures Entry(JoinWith(fields, '\t')) == Some(Variable(fields[1], fields[2]))
  {
    SplitJoinWith(fields, '\t');
  }

  /** A line with fewer than two tabs is not an entry. */
  lemma EntryNeedsThreeFields(a: string, b: string)
    requires '\t' !in a && '\t' !in b
    ensures Entry(a) == None
    ensures Entry(a + ['\t'] + b) == None
  {
    SplitNoSep(a, '\t');
    SplitAfterPiece(a, '\t', b);
    SplitNoSep(b, '\t');
  }

  /** Nothing after the `Binary:` line is looked at. */
  lemma {:induction false} DoneStays(ks: seq<LineKind>, n: nat)
    requires n <= |ks| && ScanKinds(ks, n).done
    ensures ScanKinds(ks, |ks|) == ScanKinds(ks, n)
    decreases |ks| - n
  {
    if n < |ks| {
      DoneStays(ks, n + 1);
    }
  }

  // An independent reading of the header, one field at a time.

  predicate IsBinaryMarker(k: LineKind) {
    k.BinaryMarker?
  }

  predicate IsVariablesMarker(k: LineKind) {
    k.VariablesMarker?
  }

  /** The lines the loop looks at: those before the first `Binary:` line. */
  function BeforeBinary(ks: seq<LineKind>): seq<LineKind> {
    match Position(ks, IsBinaryMarker)
    case None => ks
    case Some(b) => ks[..b]
  }

  /** The last count a `No. Variables:` line gives, 0 when there is none. */
  function LastVariablesCount(pre: seq<LineKind>): nat {
    if pre == [] then 0
    else
      var k := pre[|pre| - 1];
      if k.VariablesCount? && k.count.Some? then k.count.value else LastVariablesCount(pre[..|pre| - 1])
  }

  /** The last count a `No. Points:` line gives, 0 when there is none. */
  function LastPointsCount(pre: seq<LineKind>): nat {
    if pre == [] then 0
    else
      var k := pre[|pre| - 1];
      if k.PointsCount? && k.count.Some? then k.count.value else LastPointsCount(pre[..|pre| - 1])
  }

  /** Whether the last `Flags:` line mentions `double`. */
  function LastDouble(pre: seq<LineKind>): bool {
    if pre == [] then false
    else
      var k := pre[|pre| - 1];
      if k.FlagsLine? then k.double else LastDouble(pre[..|pre| - 1])
  }

  function Entries(ks: seq<LineKind>): seq<Variable> {
    if ks == [] then []
    else
      var k := ks[|ks| - 1];
      Entries(ks[..|ks| - 1]) + (if k.EntryLine? && k.entry.Some? then [k.entry.value] else [])
  }

  /** The entries of the lines after the first `Variables:` line. */
  function VariablesOf(pre: seq<LineKind>): seq<Variable> {
    match Position(pre, IsVariablesMarker)
    case None => []
    case Some(v) => Entries(pre[v + 1..])
  }

  /** The header loop reads each field from the lines before `Binary:`: the
      counts and the precision flag from the last line that sets them, the
      variables from the entries after `Variables:`. */
  lemma HeaderFields(text: string)
    ensures var pre := BeforeBinary(Kinds(Lines(text)));
            HeaderOf(text) == Header(LastVariablesCount(pre), LastPointsCount(pre), LastDouble(pre), VariablesOf(pre))
  {
    ScanFields(Kinds(Lines(text)));
  }

  lemma ScanFields(ks: seq<LineKind>)
    ensures var pre := BeforeBinary(ks);
            ScanKinds(ks, |ks|).header
            == Header(LastVariablesCount(pre), LastPointsCount(pre), LastDouble(pre), VariablesOf(pre))
  {
    match Position(ks, IsBinaryMarker)
    case None =>
      ScanSummary(ks, |ks|);
      assert ks[..|ks|] == ks;
    case Some(b) =>
      ScanSummary(ks, b);
      DoneStays(ks, b + 1);
  }

  /** The loop state `st` agrees with the per-field reading of `pre`. */
  predicate Summarises(st: Scan, pre: seq<LineKind>) {
    && !st.done
    && st.inVariables == Position(pre, IsVariablesMarker).Some?
    && st.header == Header(LastVariablesCount(pre), LastPointsCount(pre), LastDouble(pre), VariablesOf(pre))
  }

  lemma {:induction false} ScanSummary(ks: seq<LineKind>, n: nat)
    requires n <= |ks|
    requires forall j :: 0 <= j < n ==> !ks[j].BinaryMarker?
    ensures Summarises(ScanKinds(ks, n), ks[..n])
  {
    if n > 0 {
      ScanSummary(ks, n - 1);
      var init, k := ks[..n - 1], ks[n - 1];
      assert ks[..n] == init + [k];
      StepSummary(ScanKinds(ks, n - 1), init, k);
    }
  }

  /** One more line other than `Binary:` keeps the loop state in step with
      the per-field reading. */
  lemma StepSummary(st: Scan, init: seq<LineKind>, k: LineKind)
    requires Summarises(st, init) && !k.BinaryMarker?
    ensures Summarises(Step(st, k), init + [k])
  {
    LastFieldsStep(init, k);
    VariablesStep(init, k);
  }

  /** Appending one line to the reading: the last-line fields look at the
      new last line first. */
  lemma LastFieldsStep(init: seq<LineKind>, k: LineKind)
    ensures var pre := init + [k];
            && LastVariablesCount(pre) == (if k.VariablesCount? && k.count.Some? then k.count.value else LastVariablesCount(init))
            && LastPointsCount(pre) == (if k.PointsCount? && k.count.Some? then k.count.value else LastPointsCount(init))
            && LastDouble(pre) == (if k.FlagsLine? then k.double else LastDouble(init))
  {
    assert (init + [k])[..|init|] == init;
  }

  /** Appending one line to the reading: after a `Variables:` line, an
      entry joins the variables; the line may itself be the marker. */
  lemma VariablesStep(init: seq<LineKind>, k: LineKind)
    ensures var pre := init + [k];
            && VariablesOf(pre) == (if Position(init, IsVariablesMarker).Some? then VariablesOf(init) + Entries([k]) else [])
            && Position(pre, IsVariablesMarker).Some? == (Position(init, IsVariablesMarker).Some? || k.VariablesMarker?)
  {
    var pre := init + [k];
    PositionAppend(init, IsVariablesMarker, k);
    match Position(init, IsVariablesMarker)
    case None =>
      if k.VariablesMarker? {
        assert pre[|init| + 1..] == [];
      }
    case Some(v) =>
      assert pre[v + 1..] == init[v + 1..] + [k];
      assert (init[v + 1..] + [k])[..|init[v + 1..]|] == init[v + 1..];
  }
}
