/** The few pieces of Rust's string library that the agent's text handling
    relies on, with the standard library's semantics: `str::lines`,
    `slice::join("\n")`, `str::split(char)`, `str::trim`, `str::starts_with`,
    `str::contains`, `usize::from_str` and `usize`'s `Display`.
    `str::to_lowercase` is modelled on ASCII letters and the Kelvin sign. */
module Text {
  import opened Wrappers

  /** `char::is_whitespace`: the Unicode White_Space property. */
  predicate IsWhitespace(c: char) {
    c == ' ' || ('\t' <= c <= '\r') || c == '\U{85}' || c == '\U{A0}' || c == '\U{1680}'
    || ('\U{2000}' <= c <= '\U{200A}') || c == '\U{2028}' || c == '\U{2029}'
    || c == '\U{202F}' || c == '\U{205F}' || c == '\U{3000}'
  }

  function TrimStart(s: string): (r: string)
    ensures |r| <= |s| && r == s[|s| - |r|..]
    ensures r == [] || !IsWhitespace(r[0])
    ensures forall i :: 0 <= i < |s| - |r| ==> IsWhitespace(s[i])
  {
    if s != [] && IsWhitespace(s[0]) then
      var r := TrimStart(s[1..]);
      assert s[1..][|s| - 1 - |r|..] == s[|s| - |r|..];
      assert forall i :: 1 <= i < |s| - |r| ==> s[i] == s[1..][i - 1];
      r
    else s
  }

  function TrimEnd(s: string): (r: string)
    ensures |r| <= |s| && r == s[..|r|]
    ensures r == [] || !IsWhitespace(r[|r| - 1])
    ensures forall i :: |r| <= i < |s| ==> IsWhitespace(s[i])
  {
    if s != [] && IsWhitespace(s[|s| - 1]) then TrimEnd(s[..|s| - 1]) else s
  }

  /** `str::trim`: drops leading and trailing whitespace. */
  function Trim(s: string): string {
    TrimEnd(TrimStart(s))
  }

  /** The KELVIN SIGN, which `char::to_lowercase` maps to an ASCII `k`. */
  const KELVIN_SIGN: char := '\U{212A}'

  function LowerChar(c: char): char {
    if 'A' <= c <= 'Z' then (c as int + 32) as char
    else if c == KELVIN_SIGN then 'k'
    else c
  }

  /** `str::to_lowercase` on ASCII letters and the Kelvin sign, the
      characters whose lower case is a single ASCII letter. */
  function Lower(s: string): (r: string)
    ensures |r| == |s|
  {
    seq(|s|, i requires 0 <= i < |s| => LowerChar(s[i]))
  }

  /** Lower-casing leaves no ASCII capital and no Kelvin sign, and changes
      no other character. */
  lemma LowerCharacters(s: string)
    ensures forall i :: 0 <= i < |s| ==> !('A' <= Lower(s)[i] <= 'Z') && Lower(s)[i] != KELVIN_SIGN
    ensures forall i :: 0 <= i < |s| && !('A' <= s[i] <= 'Z') && s[i] != KELVIN_SIGN ==> Lower(s)[i] == s[i]
  {
  }

  /** Lower-casing twice is lower-casing once. */
  lemma LowerIdempotent(s: string)
    ensures Lower(Lower(s)) == Lower(s)
  {
  }

  predicate StartsWith(s: string, prefix: string) {
    |prefix| <= |s| && s[..|prefix|] == prefix
  }

  /** `needle` occurs in `haystack` starting at index `i`. */
  predicate OccursAt<T(==)>(haystack: seq<T>, needle: seq<T>, i: nat) {
    i + |needle| <= |haystack| && haystack[i..i + |needle|] == needle
  }

  /** `str::contains` with a string pattern. */
  predicate Contains<T(==)>(haystack: seq<T>, needle: seq<T>) {
    exists i: nat :: i + |needle| <= |haystack| && OccursAt(haystack, needle, i)
  }

  /** `str::split(sep)`: the pieces between separators, always at least one. */
  function Split(s: string, sep: char): (parts: seq<string>)
    ensures |parts| >= 1
    ensures forall k :: 0 <= k < |parts| ==> sep !in parts[k]
  {
    if s == [] then [""]
    else
      var rest := Split(s[1..], sep);
      if s[0] == sep then [""] + rest else [[s[0]] + rest[0]] + rest[1..]
  }

  /** `slice::join` with a one-character separator. */
  function JoinWith(parts: seq<string>, sep: char): string {
    if |parts| == 0 then ""
    else if |parts| == 1 then parts[0]
    else parts[0] + [sep] + JoinWith(parts[1..], sep)
  }

  function Join(lines: seq<string>): string {
    JoinWith(lines, '\n')
  }

  function StripCr(s: string): string {
    if s != [] && s[|s| - 1] == '\r' then s[..|s| - 1] else s
  }

  /** `str::lines`: split after every `\n`, drop that `\n` and then one `\r`
      before it; a final piece that is empty is not a line, and a final piece
      without a `\n` keeps any `\r` it ends with. */
  function Lines(s: string): (lines: seq<string>)
    ensures forall k :: 0 <= k < |lines| ==> '\n' !in lines[k]
  {
    var parts := Split(s, '\n');
    var n := |parts| - 1;
    seq(n, i requires 0 <= i < n => StripCr(parts[i])) + (if parts[n] == "" then [] else [parts[n]])
  }

  predicate IsDigit(c: char) {
    '0' <= c <= '9'
  }

  predicate AllDigits(s: string) {
    forall i :: 0 <= i < |s| ==> IsDigit(s[i])
  }

  function DigitsValue(ds: string): nat
    requires AllDigits(ds)
  {
    if ds == [] then 0 else 10 * DigitsValue(ds[..|ds| - 1]) + (ds[|ds| - 1] as int - '0' as int)
  }

  /** One past the largest `usize` on a 64-bit target. */
  const USIZE_LIMIT: nat := 0x1_0000_0000_0000_0000

  /** `s.parse::<usize>()`: an optional `+`, then at least one ASCII digit,
      and a value that fits in 64 bits. */
  function ParseUsize(s: string): (r: Option<nat>)
    ensures r.Some? ==> r.value < USIZE_LIMIT
    ensures r.Some? ==> 0 < |s| && (IsDigit(s[0]) || s[0] == '+')
  {
    var digits := if s != [] && s[0] == '+' then s[1..] else s;
    if digits == [] || !AllDigits(digits) then None
    else if DigitsValue(digits) < USIZE_LIMIT then Some(DigitsValue(digits))
    else None
  }

  function DigitChar(d: nat): char
    requires d < 10
  {
    ('0' as int + d) as char
  }

  /** `usize`'s decimal `Display`. */
  function NatToString(n: nat): (s: string)
    ensures |s| > 0 && AllDigits(s)
  {
    if n < 10 then [DigitChar(n)] else NatToString(n / 10) + [DigitChar(n % 10)]
  }

  lemma {:induction false} NatToStringValue(n: nat)
    ensures DigitsValue(NatToString(n)) == n
  {
    if n >= 10 {
      var s := NatToString(n);
      assert s[..|s| - 1] == NatToString(n / 10);
      NatToStringValue(n / 10);
    }
  }

  /** Printing a `usize` and parsing it back gives the same number. */
  lemma ParseUsizeOfNatToString(n: nat)
    requires n < USIZE_LIMIT
    ensures ParseUsize(NatToString(n)) == Some(n)
  {
    NatToStringValue(n);
  }

  lemma {:induction false} TrimStartPadded(ws: string, s: string)
    requires forall i :: 0 <= i < |ws| ==> IsWhitespace(ws[i])
    requires s != [] && !IsWhitespace(s[0])
    ensures TrimStart(ws + s) == s
  {
    if ws != [] {
      assert (ws + s)[0] == ws[0];
      assert (ws + s)[1..] == ws[1..] + s;
      TrimStartPadded(ws[1..], s);
    } else {
      assert ws + s == s;
    }
  }

  /** Trimming whitespace padding off a value that neither starts nor ends
      with whitespace gives the value back. */
  lemma TrimPadded(ws: string, s: string)
    requires forall i :: 0 <= i < |ws| ==> IsWhitespace(ws[i])
    requires s != [] && !IsWhitespace(s[0]) && !IsWhitespace(s[|s| - 1])
    ensures Trim(ws + s) == s
  {
    TrimStartPadded(ws, s);
  }

  lemma {:induction false} SplitNoSep(a: string, sep: char)
    requires sep !in a
    ensures Split(a, sep) == [a]
  {
    if a != [] {
      SplitNoSep(a[1..], sep);
      assert [a[0]] + a[1..] == a;
    }
  }

  lemma {:induction false} SplitAfterPiece(a: string, sep: char, rest: string)
    requires sep !in a
    ensures Split(a + [sep] + rest, sep) == [a] + Split(rest, sep)
  {
    if a == [] {
      assert a + [sep] + rest == [sep] + rest;
      assert ([sep] + rest)[1..] == rest;
    } else {
      assert (a + [sep] + rest)[1..] == a[1..] + [sep] + rest;
      SplitAfterPiece(a[1..], sep, rest);
      assert [a[0]] + a[1..] == a;
    }
  }

  /** Splitting a joined list of separator-free pieces gives the pieces back. */
  lemma {:induction false} SplitJoinWith(parts: seq<string>, sep: char)
    requires |parts| >= 1
    requires forall k :: 0 <= k < |parts| ==> sep !in parts[k]
    ensures Split(JoinWith(parts, sep), sep) == parts
  {
    if |parts| == 1 {
      SplitNoSep(parts[0], sep);
    } else {
      SplitJoinWith(parts[1..], sep);
      SplitAfterPiece(parts[0], sep, JoinWith(parts[1..], sep));
    }
  }

  /** The lines of a re-joined list of lines: every line but the last loses one
      trailing `\r`, and a last line that is empty disappears. */
  lemma LinesOfJoin(lines: seq<string>)
    requires |lines| >= 1
    requires forall k :: 0 <= k < |lines| ==> '\n' !in lines[k]
    ensures var n := |lines| - 1;
            Lines(Join(lines))
            == seq(n, i requires 0 <= i < n => StripCr(lines[i])) + (if lines[n] == "" then [] else [lines[n]])
  {
    SplitJoinWith(lines, '\n');
  }

  lemma LowerAppend(a: string, b: string)
    ensures Lower(a + b) == Lower(a) + Lower(b)
  {
  }

  /** A pattern found in a piece of a string is found in the whole string. */
  lemma ContainsInContext(a: string, b: string, c: string, p: string)
    requires Contains(Lower(b), p)
    ensures Contains(Lower(a + b + c), p)
  {
    var i: nat :| i + |p| <= |Lower(b)| && OccursAt(Lower(b), p, i);
    LowerAppend(a + b, c);
    LowerAppend(a, b);
    assert Lower(a + b + c)[|a| + i..|a| + i + |p|] == Lower(b)[i..i + |p|];
    assert OccursAt(Lower(a + b + c), p, |a| + i);
  }

  /** A line of a list shows up, case-insensitively, in the joined text. */
  lemma {:induction false} ContainsInJoin(lines: seq<string>, k: nat, p: string)
    requires k < |lines| && Contains(Lower(lines[k]), p)
    ensures Contains(Lower(Join(lines)), p)
  {
    if |lines| == 1 {
      assert Join(lines) == "" + lines[0] + "";
      ContainsInContext("", lines[0], "", p);
    } else if k == 0 {
      ContainsInContext("", lines[0], ['\n'] + Join(lines[1..]), p);
      assert "" + lines[0] + (['\n'] + Join(lines[1..])) == Join(lines);
    } else {
      ContainsInJoin(lines[1..], k - 1, p);
      var i: nat :| i + |p| <= |Lower(Join(lines[1..]))| && OccursAt(Lower(Join(lines[1..])), p, i);
      ContainsInContext(lines[0] + ['\n'], Join(lines[1..]), "", p);
      assert lines[0] + ['\n'] + Join(lines[1..]) + "" == Join(lines);
    }
  }

  /** An occurrence of a pattern without `\n` and `\r` lies inside one line
      of `str::lines`. */
  lemma ContainsInSomeLine(s: string, p: string)
    requires '\n' !in p && '\r' !in p && |p| > 0
    requires Contains(Lower(s), p)
    ensures exists k :: 0 <= k < |Lines(s)| && Contains(Lower(Lines(s)[k]), p)
  {
    var parts := Split(s, '\n');
    SplitJoinOfString(s, '\n');
    var j := ContainsInSomePiece(parts, p);
    var n := |parts| - 1;
    if j < n {
      ContainsAfterStripCr(parts[j], p);
      assert Lines(s)[j] == StripCr(parts[j]);
    } else {
      assert parts[n] != "";
      assert Lines(s)[n] == parts[n];
    }
  }

  lemma ContainsAfterStripCr(l: string, p: string)
    requires '\r' !in p && |p| > 0
    requires Contains(Lower(l), p)
    ensures Contains(Lower(StripCr(l)), p)
  {
    var i: nat :| i + |p| <= |Lower(l)| && OccursAt(Lower(l), p, i);
    if StripCr(l) != l {
      var body := StripCr(l);
      assert l == body + ['\r'];
      LowerAppend(body, ['\r']);
      assert Lower(['\r']) == ['\r'];
      if i + |p| > |body| {
        OccursAtIndex(Lower(l), p, i, |body|);
        assert false;
      }
      OccursInLeft(Lower(body), Lower(['\r']), p, i);
    }
  }

  lemma {:induction false} SplitJoinOfString(s: string, sep: char)
    ensures JoinWith(Split(s, sep), sep) == s
  {
    if s != [] {
      SplitJoinOfString(s[1..], sep);
      var rest := Split(s[1..], sep);
      if s[0] != sep {
        if |rest| == 1 {
          assert JoinWith(rest, sep) == rest[0];
        } else {
          assert JoinWith(rest, sep) == rest[0] + [sep] + JoinWith(rest[1..], sep);
        }
      }
    }
  }

  /** An occurrence of a `\n`-free pattern in a joined list lies in one piece. */
  lemma OccursAtIndex<T>(haystack: seq<T>, needle: seq<T>, i: nat, k: nat)
    requires OccursAt(haystack, needle, i) && i <= k < i + |needle|
    ensures haystack[k] == needle[k - i]
  {
    assert haystack[i..i + |needle|][k - i] == haystack[k];
  }

  /** An occurrence that ends within the left part of a concatenation is an
      occurrence in that part. */
  lemma OccursInLeft<T>(a: seq<T>, b: seq<T>, p: seq<T>, i: nat)
    requires OccursAt(a + b, p, i) && i + |p| <= |a|
    ensures OccursAt(a, p, i)
  {
    assert (a + b)[i..i + |p|] == a[i..i + |p|];
  }

  /** An occurrence that starts within the right part of a concatenation is
      an occurrence in that part. */
  lemma OccursInRight<T>(a: seq<T>, b: seq<T>, p: seq<T>, i: nat)
    requires OccursAt(a + b, p, i) && |a| <= i
    ensures OccursAt(b, p, i - |a|)
  {
    assert (a + b)[i..i + |p|] == b[i - |a|..i - |a| + |p|];
  }

  lemma {:induction false} ContainsInSomePiece(parts: seq<string>, p: string) returns (j: nat)
    requires |parts| >= 1 && '\n' !in p && |p| > 0
    requires Contains(Lower(JoinWith(parts, '\n')), p)
    ensures j < |parts| && Contains(Lower(parts[j]), p)
  {
    if |parts| == 1 {
      j := 0;
    } else {
      var head, tail := parts[0], JoinWith(parts[1..], '\n');
      assert JoinWith(parts, '\n') == head + (['\n'] + tail);
      LowerAppend(head, ['\n'] + tail);
      LowerAppend(['\n'], tail);
      assert Lower(['\n']) == ['\n'];
      var whole := Lower(JoinWith(parts, '\n'));
      var i: nat :| i + |p| <= |whole| && OccursAt(whole, p, i);
      if i + |p| <= |head| {
        OccursInLeft(Lower(head), ['\n'] + Lower(tail), p, i);
        j := 0;
      } else if i <= |head| {
        OccursAtIndex(whole, p, i, |head|);
        assert false;
      } else {
        OccursInRight(Lower(head), ['\n'] + Lower(tail), p, i);
        OccursInRight(['\n'], Lower(tail), p, i - |head|);
        var j' := ContainsInSomePiece(parts[1..], p);
        j := j' + 1;
      }
    }
  }

  /** `Iterator::position` from index `from` on: the first index at or after
      `from` whose element satisfies `p`. */
  function PositionFrom<T>(xs: seq<T>, p: T -> bool, from: nat): (r: Option<nat>)
    requires from <= |xs|
    ensures r.Some? ==> from <= r.value < |xs| && p(xs[r.value])
    ensures r.Some? ==> forall k :: from <= k < r.value ==> !p(xs[k])
    ensures r.None? ==> forall k :: from <= k < |xs| ==> !p(xs[k])
    decreases |xs| - from
  {
    if from == |xs| then None
    else if p(xs[from]) then Some(from)
    else PositionFrom(xs, p, from + 1)
  }

  function Position<T>(xs: seq<T>, p: T -> bool): Option<nat> {
    PositionFrom(xs, p, 0)
  }

  /** The first element satisfying `p` is the one `Position` reports. */
  lemma PositionIsFirst<T>(xs: seq<T>, p: T -> bool, i: nat)
    requires i < |xs| && p(xs[i])
    requires forall k :: 0 <= k < i ==> !p(xs[k])
    ensures Position(xs, p) == Some(i)
  {
  }

  /** Appending an element leaves an earlier match where it was, and is the
      match only when there was none before. */
  lemma PositionAppend<T>(xs: seq<T>, p: T -> bool, x: T)
    ensures Position(xs + [x], p)
            == if Position(xs, p).Some? then Position(xs, p) else if p(x) then Some(|xs|) else None
  {
    var ys := xs + [x];
    assert forall k :: 0 <= k < |xs| ==> ys[k] == xs[k];
    match Position(xs, p)
    case Some(i) =>
      PositionIsFirst(ys, p, i);
    case None =>
      if p(x) {
        PositionIsFirst(ys, p, |xs|);
      } else {
        assert forall k :: 0 <= k < |ys| ==> !p(ys[k]);
      }
  }
}
