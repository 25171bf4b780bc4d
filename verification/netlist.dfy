/** Netlist preparation before a batch run: the netlist is split into lines
    and up to three directives (`.backanno`, `.save all` and
    `.options plotwinsize=N`) are inserted immediately before the first
    `.end` line, each only when the original text does not already mention
    it. */
module Netlist {
  import opened Wrappers
  import opened Text

  const BACKANNO: string := ".backanno"
  const SAVE_ALL: string := ".save all"

  /** The compression window: 128 for the "fast" quality, 0 (lossless) for
      "balanced", "smooth" and every other string. */
  function PlotWinSize(quality: string): nat {
    if quality == "fast" then 128 else 0
  }

  function PlotWinSizeDirective(quality: string): string {
    ".options plotwinsize=" + NatToString(PlotWinSize(quality))
  }

  /** A line that ends the netlist: `.end` in any case, surrounded by any
      whitespace. */
  predicate IsEndLine(line: string) {
    Lower(Trim(line)) == ".end"
  }

  /** Inserting elements that fail `p` just before the first element that
      satisfies it moves that element on by the number inserted. */
  lemma PositionAfterInsert<T>(xs: seq<T>, p: T -> bool, ds: seq<T>, e: nat)
    requires Position(xs, p) == Some(e)
    requires forall k :: 0 <= k < |ds| ==> !p(ds[k])
    ensures Position(xs[..e] + ds + xs[e..], p) == Some(e + |ds|)
  {
    var out := xs[..e] + ds + xs[e..];
    assert out[e + |ds|] == xs[e];
    forall k | 0 <= k < e + |ds|
      ensures !p(out[k])
    {
      if k < e {
        assert out[k] == xs[k];
      } else {
        assert out[k] == ds[k - e];
      }
    }
    PositionIsFirst(out, p, e + |ds|);
  }

  /** The index of the first end line. */
  function FindEnd(lines: seq<string>): Option<nat> {
    Position(lines, IsEndLine)
  }

  /** The directives chosen by the three guards, in insertion order. */
  function Chosen(backanno: bool, save: bool, plotWin: bool, plotWinDirective: string): (ds: seq<string>)
    ensures |ds| <= 3
  {
    (if backanno then [BACKANNO] else [])
    + (if save then [SAVE_ALL] else [])
    + (if plotWin then [plotWinDirective] else [])
  }

  /** The directives the netlist lacks, in the order they are inserted. The
      guards look at the original text, lower-cased, as a whole. */
  function Directives(netlist: string, quality: string): (ds: seq<string>)
    ensures |ds| <= 3
  {
    var lower := Lower(netlist);
    Chosen(!Contains(lower, ".backanno"), !Contains(lower, ".save"), !Contains(lower, ".options plotwinsize"),
           PlotWinSizeDirective(quality))
  }

  /** `ds` placed just before the first element satisfying `p`; when there
      is none, `xs` unchanged. */
  function InsertBefore<T>(xs: seq<T>, p: T -> bool, ds: seq<T>): seq<T> {
    match Position(xs, p)
    case None => xs
    case Some(e) => xs[..e] + ds + xs[e..]
  }

  /** Inserting one batch is inserting its elements one after the other, as
      long as none of them satisfies `p`. */
  lemma InsertBeforeStep<T>(xs: seq<T>, p: T -> bool, ds: seq<T>, d: T)
    requires forall k :: 0 <= k < |ds| ==> !p(ds[k])
    requires !p(d)
    ensures InsertBefore(xs, p, ds + [d]) == InsertBefore(InsertBefore(xs, p, ds), p, [d])
  {
    match Position(xs, p)
    case None =>
    case Some(e) =>
      var a, b := xs[..e], xs[e..];
      var cur := a + ds + b;
      PositionAfterInsert(xs, p, ds, e);
      SpliceParts(a, ds, b);
      assert InsertBefore(cur, p, [d]) == cur[..|a| + |ds|] + [d] + cur[|a| + |ds|..];
      SpliceGrows(a, ds, d, b);
  }

  lemma SpliceParts<T>(a: seq<T>, b: seq<T>, c: seq<T>)
    ensures (a + b + c)[..|a| + |b|] == a + b
    ensures (a + b + c)[|a| + |b|..] == c
  {
  }

  lemma SpliceGrows<T>(a: seq<T>, b: seq<T>, d: T, c: seq<T>)
    ensures a + b + [d] + c == a + (b + [d]) + c
  {
  }

  lemma InsertNothing<T>(xs: seq<T>, p: T -> bool)
    ensures InsertBefore(xs, p, []) == xs
  {
    match Position(xs, p)
    case None =>
    case Some(e) => assert xs[..e] + [] + xs[e..] == xs;
  }

  /** The netlist's lines with `ds` placed just before the first end line. */
  function Injected(lines: seq<string>, ds: seq<string>): seq<string> {
    InsertBefore(lines, IsEndLine, ds)
  }

  /** The text handed to the simulator. */
  function Prepared(netlist: string, quality: string): string {
    Join(Injected(Lines(netlist), Directives(netlist, quality)))
  }

  /** One `lines.insert(end_idx, d)` at the first end line, if there is one. */
  method InsertBeforeEnd(lines: seq<string>, d: string) returns (out: seq<string>)
    ensures out == Injected(lines, [d])
  {
    out := lines;
    var end := FindEnd(lines);
    if end.Some? {
      out := lines[..end.value] + [d] + lines[end.value..];
    }
  }

  /** `prepare_netlist`: three guarded insertions, each one looking for the
      end line again in the list as it now stands. */
  method PrepareNetlist(netlist: string, quality: string) returns (prepared: string)
    ensures prepared == Prepared(netlist, quality)
  {
    var lines := Lines(netlist);
    var lower := Lower(netlist);
    var needBackanno := !Contains(lower, ".backanno");
    var needSave := !Contains(lower, ".save");
    var needPlotWin := !Contains(lower, ".options plotwinsize");
    var directive := PlotWinSizeDirective(quality);
    ghost var original := lines;
    if needBackanno {
      lines := InsertBeforeEnd(lines, BACKANNO);
    }
    ghost var afterBackanno := lines;
    if needSave {
      lines := InsertBeforeEnd(lines, SAVE_ALL);
    }
    ghost var afterSave := lines;
    if needPlotWin {
      lines := InsertBeforeEnd(lines, directive);
    }
    DirectivesAreNotEndLines(quality);
    InsertInTurn(original, IsEndLine, needBackanno, BACKANNO, needSave, SAVE_ALL, needPlotWin, directive);
    prepared := Join(lines);
  }

  /** Three guarded insertions one after the other place the chosen
      elements, in order, before the first element satisfying `p`. */
  lemma InsertInTurn<T>(xs: seq<T>, p: T -> bool, b1: bool, x1: T, b2: bool, x2: T, b3: bool, x3: T)
    requires !p(x1) && !p(x2) && !p(x3)
    ensures var l1 := if b1 then InsertBefore(xs, p, [x1]) else xs;
            var l2 := if b2 then InsertBefore(l1, p, [x2]) else l1;
            var l3 := if b3 then InsertBefore(l2, p, [x3]) else l2;
            l3 == InsertBefore(xs, p, (if b1 then [x1] else []) + (if b2 then [x2] else []) + (if b3 then [x3] else []))
  {
    var a1 := if b1 then [x1] else [];
    var a2 := a1 + (if b2 then [x2] else []);
    var a3 := a2 + (if b3 then [x3] else []);
    InsertNothing(xs, p);
    if b1 {
      InsertBeforeStep(xs, p, [], x1);
      assert [] + [x1] == [x1];
    }
    if b2 {
      InsertBeforeStep(xs, p, a1, x2);
    } else {
      assert a2 == a1;
    }
    if b3 {
      InsertBeforeStep(xs, p, a2, x3);
    } else {
      assert a3 == a2;
    }
  }

  /** A line whose ends are not whitespace and whose length is not four
      cannot be an end line. */
  lemma NotEndLine(d: string)
    requires d != [] && !IsWhitespace(d[0]) && !IsWhitespace(d[|d| - 1]) && |d| != 4
    ensures !IsEndLine(d)
  {
    assert TrimStart(d) == d;
    assert TrimEnd(d) == d;
  }

  lemma DirectivesAreNotEndLines(quality: string)
    ensures !IsEndLine(BACKANNO) && !IsEndLine(SAVE_ALL) && !IsEndLine(PlotWinSizeDirective(quality))
  {
    NotEndLine(BACKANNO);
    NotEndLine(SAVE_ALL);
    var digits := NatToString(PlotWinSize(quality));
    var p := PlotWinSizeDirective(quality);
    assert p[|p| - 1] == digits[|digits| - 1];
    NotEndLine(p);
  }

  /** The window directive reads `=128` for "fast" and `=0` otherwise. */
  lemma PlotWinSizeDirectiveText(quality: string)
    ensures quality == "fast" ==> PlotWinSizeDirective(quality) == ".options plotwinsize=128"
    ensures quality != "fast" ==> PlotWinSizeDirective(quality) == ".options plotwinsize=0"
  {
    if quality == "fast" {
      assert NatToString(128) == "128" by {
        assert NatToString(1) == "1";
        assert NatToString(12) == NatToString(1) + [DigitChar(2)];
      }
    }
  }

  /** Each directive is added exactly when the lower-cased original text
      does not mention it, and they come in the order `.backanno`,
      `.save all`, `.options plotwinsize=N`. */
  lemma DirectiveGuards(netlist: string, quality: string)
    ensures var ds := Directives(netlist, quality);
            var lower := Lower(netlist);
            && (BACKANNO in ds <==> !Contains(lower, ".backanno"))
            && (SAVE_ALL in ds <==> !Contains(lower, ".save"))
            && (PlotWinSizeDirective(quality) in ds <==> !Contains(lower, ".options plotwinsize"))
  {
    var p := PlotWinSizeDirective(quality);
    assert |p| > |BACKANNO| && |p| > |SAVE_ALL|;
    assert BACKANNO[1] != SAVE_ALL[1];
  }

  /** A netlist spelling `.backanno` with a Kelvin sign for the `k` already
      mentions it once lower-cased, so `.backanno` is not added. */
  lemma KelvinSignSpellsBackanno()
    ensures BACKANNO !in Directives(".bac" + [KELVIN_SIGN] + "anno\n.end", "fast")
  {
    var netlist := ".bac" + [KELVIN_SIGN] + "anno\n.end";
    assert OccursAt(Lower(netlist), ".backanno", 0);
    DirectiveGuards(netlist, "fast");
  }

  /** The directives come in the order `.backanno`, `.save all`,
      `.options plotwinsize`. */
  lemma DirectivesInOrder(netlist: string, quality: string)
    ensures var ds := Directives(netlist, quality);
            forall i, j :: 0 <= i < j < |ds| ==> Rank(ds[i]) < Rank(ds[j])
  {
    var p := PlotWinSizeDirective(quality);
    assert |p| > |BACKANNO| && |p| > |SAVE_ALL|;
    assert BACKANNO[1] != SAVE_ALL[1];
  }

  /** Where a directive stands in the insertion order. */
  function Rank(d: string): nat {
    if d == BACKANNO then 0 else if d == SAVE_ALL then 1 else 2
  }

  /** The inserted elements sit right before the first element satisfying
      `p`, which stays the first one; with no such element, nothing changes. */
  lemma InsertBeforeShape<T>(xs: seq<T>, p: T -> bool, ds: seq<T>)
    requires forall k :: 0 <= k < |ds| ==> !p(ds[k])
    ensures var out := InsertBefore(xs, p, ds);
            match Position(xs, p)
            case None => out == xs
            case Some(e) =>
              && out[..e] == xs[..e]
              && out[e..e + |ds|] == ds
              && out[e + |ds|..] == xs[e..]
              && Position(out, p) == Some(e + |ds|)
  {
    match Position(xs, p)
    case None =>
    case Some(e) =>
      var out := xs[..e] + ds + xs[e..];
      assert out[..e] == xs[..e];
      assert out[e..e + |ds|] == ds;
      assert out[e + |ds|..] == xs[e..];
      PositionAfterInsert(xs, p, ds, e);
  }

  /** Every directive is one of the three. */
  lemma DirectivesAreKnown(netlist: string, quality: string)
    ensures var ds := Directives(netlist, quality);
            forall k :: 0 <= k < |ds| ==> ds[k] == BACKANNO || ds[k] == SAVE_ALL || ds[k] == PlotWinSizeDirective(quality)
  {
  }

  lemma NoneSatisfies<T>(p: T -> bool, ds: seq<T>, x1: T, x2: T, x3: T)
    requires forall k :: 0 <= k < |ds| ==> ds[k] == x1 || ds[k] == x2 || ds[k] == x3
    requires !p(x1) && !p(x2) && !p(x3)
    ensures forall k :: 0 <= k < |ds| ==> !p(ds[k])
  {
  }

  /** No directive is an end line. */
  lemma NoDirectiveEndsNetlist(netlist: string, quality: string)
    ensures var ds := Directives(netlist, quality);
            forall k :: 0 <= k < |ds| ==> !IsEndLine(ds[k])
  {
    DirectivesAreNotEndLines(quality);
    DirectivesAreKnown(netlist, quality);
    NoneSatisfies(IsEndLine, Directives(netlist, quality), BACKANNO, SAVE_ALL, PlotWinSizeDirective(quality));
  }

  /** Directives that are not end lines sit right before the first end
      line; with no end line, the lines are left as they are. */
  lemma InjectedShape(lines: seq<string>, ds: seq<string>)
    requires forall k :: 0 <= k < |ds| ==> !IsEndLine(ds[k])
    ensures var out := Injected(lines, ds);
            match FindEnd(lines)
            case None => out == lines
            case Some(e) =>
              && out[..e] == lines[..e]
              && out[e..e + |ds|] == ds
              && out[e + |ds|..] == lines[e..]
  {
    assert FindEnd(lines) == Position(lines, IsEndLine);
    assert Injected(lines, ds) == InsertBefore(lines, IsEndLine, ds);
    InsertBeforeShape(lines, IsEndLine, ds);
  }

  /** Every original line survives, in its original order, and at most three
      lines are added, all in one block. */
  lemma PreparedKeepsLines(netlist: string, quality: string)
    ensures var lines := Lines(netlist);
            var out := Injected(lines, Directives(netlist, quality));
            && |lines| <= |out| <= |lines| + 3
            && exists e: nat :: e <= |lines| && out[..e] == lines[..e] && out[e + |out| - |lines|..] == lines[e..]
  {
    var lines := Lines(netlist);
    var ds := Directives(netlist, quality);
    var out := Injected(lines, ds);
    NoDirectiveEndsNetlist(netlist, quality);
    InjectedShape(lines, ds);
    match FindEnd(lines)
    case None =>
      assert out[..|lines|] == lines[..|lines|] && out[|lines| + |out| - |lines|..] == lines[|lines|..];
    case Some(e) =>
      assert out[..e] == lines[..e] && out[e + |out| - |lines|..] == lines[e..];
  }

  /** A directive mentions the text its guard looks for. */
  lemma DirectivesMentionGuards(quality: string)
    ensures Contains(Lower(BACKANNO), ".backanno")
    ensures Contains(Lower(SAVE_ALL), ".save")
    ensures Contains(Lower(PlotWinSizeDirective(quality)), ".options plotwinsize")
  {
    BackannoMentionsGuard();
    SaveAllMentionsGuard();
    PlotWinSizeMentionsGuard(quality);
  }

  lemma BackannoMentionsGuard()
    ensures Contains(Lower(BACKANNO), ".backanno")
  {
    assert OccursAt(Lower(BACKANNO), ".backanno", 0);
  }

  lemma SaveAllMentionsGuard()
    ensures Contains(Lower(SAVE_ALL), ".save")
  {
    assert OccursAt(Lower(SAVE_ALL), ".save", 0);
  }

  lemma PlotWinSizeMentionsGuard(quality: string)
    ensures Contains(Lower(PlotWinSizeDirective(quality)), ".options plotwinsize")
  {
    var head := ".options plotwinsize=";
    var digits := NatToString(PlotWinSize(quality));
    LowerAppend(head, digits);
    assert Lower(head) == head;
    assert OccursAt(Lower(PlotWinSizeDirective(quality)), ".options plotwinsize", 0);
  }

  /** Lines with a block spliced in at `e` mention a pattern that one of the
      original lines or the block's `directive` mentions. */
  lemma PatternInSpliced(lines: seq<string>, ds: seq<string>, out: seq<string>, e: nat, pattern: string, directive: string)
    requires e <= |lines| && |out| == |lines| + |ds|
    requires out[..e] == lines[..e] && out[e..e + |ds|] == ds && out[e + |ds|..] == lines[e..]
    requires (exists k :: 0 <= k < |lines| && Contains(Lower(lines[k]), pattern)) || directive in ds
    requires Contains(Lower(directive), pattern)
    ensures Contains(Lower(Join(out)), pattern)
  {
    if k :| 0 <= k < |lines| && Contains(Lower(lines[k]), pattern) {
      if k < e {
        assert out[..e][k] == lines[..e][k];
        ContainsInJoin(out, k, pattern);
      } else {
        assert out[e + |ds|..][k - e] == lines[e..][k - e];
        ContainsInJoin(out, k + |ds|, pattern);
      }
    } else {
      var i :| 0 <= i < |ds| && ds[i] == directive;
      assert out[e..e + |ds|][i] == directive;
      ContainsInJoin(out, e + i, pattern);
    }
  }

  /** Once a netlist with an end line is prepared, the text mentions each
      guard pattern: either an original line did, or the directive was
      added. */
  lemma PatternInPrepared(netlist: string, quality: string, pattern: string, directive: string)
    requires FindEnd(Lines(netlist)).Some?
    requires '\n' !in pattern && '\r' !in pattern && |pattern| > 0
    requires Contains(Lower(directive), pattern)
    requires Contains(Lower(netlist), pattern) || directive in Directives(netlist, quality)
    ensures Contains(Lower(Prepared(netlist, quality)), pattern)
  {
    var lines := Lines(netlist);
    var ds := Directives(netlist, quality);
    NoDirectiveEndsNetlist(netlist, quality);
    InjectedShape(lines, ds);
    if Contains(Lower(netlist), pattern) {
      ContainsInSomeLine(netlist, pattern);
    }
    PatternInSpliced(lines, ds, Injected(lines, ds), FindEnd(lines).value, pattern, directive);
  }

  /** The guard patterns are single-line. */
  lemma GuardPatternsOneLine()
    ensures '\n' !in ".backanno" && '\r' !in ".backanno"
    ensures '\n' !in ".save" && '\r' !in ".save"
    ensures '\n' !in ".options plotwinsize" && '\r' !in ".options plotwinsize"
  {
  }

  /** Each guard pattern is either in the netlist already or its directive
      is added. */
  lemma GuardOrDirective(netlist: string, quality: string)
    ensures Contains(Lower(netlist), ".backanno") || BACKANNO in Directives(netlist, quality)
    ensures Contains(Lower(netlist), ".save") || SAVE_ALL in Directives(netlist, quality)
    ensures Contains(Lower(netlist), ".options plotwinsize") || PlotWinSizeDirective(quality) in Directives(netlist, quality)
  {
    DirectiveGuards(netlist, quality);
  }

  lemma BackannoInPrepared(netlist: string, quality: string)
    requires FindEnd(Lines(netlist)).Some?
    ensures Contains(Lower(Prepared(netlist, quality)), ".backanno")
  {
    DirectivesMentionGuards(quality);
    GuardOrDirective(netlist, quality);
    GuardPatternsOneLine();
    PatternInPrepared(netlist, quality, ".backanno", BACKANNO);
  }

  lemma SaveInPrepared(netlist: string, quality: string)
    requires FindEnd(Lines(netlist)).Some?
    ensures Contains(Lower(Prepared(netlist, quality)), ".save")
  {
    DirectivesMentionGuards(quality);
    GuardOrDirective(netlist, quality);
    GuardPatternsOneLine();
    PatternInPrepared(netlist, quality, ".save", SAVE_ALL);
  }

  lemma PlotWinInPrepared(netlist: string, quality: string)
    requires FindEnd(Lines(netlist)).Some?
    ensures Contains(Lower(Prepared(netlist, quality)), ".options plotwinsize")
  {
    DirectivesMentionGuards(quality);
    GuardOrDirective(netlist, quality);
    GuardPatternsOneLine();
    PatternInPrepared(netlist, quality, ".options plotwinsize", PlotWinSizeDirective(quality));
  }

  /** Preparing an already prepared netlist adds nothing: every guard now
      finds its pattern. */
  lemma PreparedTwiceAddsNothing(netlist: string, quality: string, quality': string)
    requires FindEnd(Lines(netlist)).Some?
    ensures Directives(Prepared(netlist, quality), quality') == []
  {
    BackannoInPrepared(netlist, quality);
    SaveInPrepared(netlist, quality);
    PlotWinInPrepared(netlist, quality);
    NothingMissing(Prepared(netlist, quality), quality');
  }

  lemma NothingMissing(netlist: string, quality: string)
    requires Contains(Lower(netlist), ".backanno")
    requires Contains(Lower(netlist), ".save")
    requires Contains(Lower(netlist), ".options plotwinsize")
    ensures Directives(netlist, quality) == []
  {
  }

  /** With no end line the netlist is only split into lines and re-joined. */
  lemma NoEndLineNoChange(netlist: string, quality: string)
    requires FindEnd(Lines(netlist)).None?
    ensures Prepared(netlist, quality) == Join(Lines(netlist))
  {
  }
}
