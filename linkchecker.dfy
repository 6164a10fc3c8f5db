/**
 * linkchecker_cron_wrapper.py: run `linkchecker` with the wrapper's own
 * arguments and, only when it fails, echo the part of its output that lists
 * erroneous links.
 */
module LinkChecker {

  import opened Strings

  const StartPrefix := "Start checking "
  const StatisticsPrefix := "Statistics:"
  const Header := "Erroneous links found:"

  /** `args = list(sys.argv); args[0] = "linkchecker"`. */
  function InvokedArgs(argv: seq<string>): (args: seq<string>)
    requires |argv| >= 1
    ensures |args| == |argv|
    ensures args[0] == "linkchecker"
    ensures forall i :: 1 <= i < |argv| ==> args[i] == argv[i]
  {
    ["linkchecker"] + argv[1..]
  }

  // ---------------------------------------------------------------------------
  // str.splitlines
  // ---------------------------------------------------------------------------

  /** The line boundaries of Python's `str.splitlines`. */
  predicate IsLineBreak(c: char) {
    c == '\n' || c == '\r' || c == '\U{0B}' || c == '\U{0C}' || ('\U{1C}' <= c <= '\U{1E}')
    || c == '\U{85}' || c == '\U{2028}' || c == '\U{2029}'
  }

  /** Index of the first line boundary in `s`, or `|s|`. */
  function FirstBreak(s: string): (i: nat)
    ensures i <= |s|
    ensures forall j :: 0 <= j < i ==> !IsLineBreak(s[j])
    ensures i < |s| ==> IsLineBreak(s[i])
  {
    if s == [] || IsLineBreak(s[0]) then 0 else 1 + FirstBreak(s[1..])
  }

  /** How many characters the boundary at `i` takes: two for `\r\n`, else one. */
  function BreakWidth(s: string, i: nat): nat
    requires i < |s|
  {
    if s[i] == '\r' && i + 1 < |s| && s[i + 1] == '\n' then 2 else 1
  }

  /** Python's `s.splitlines()`: `\r\n` counts as one boundary, and a final
      boundary does not start an empty last line. */
  function SplitLines(s: string): (lines: seq<string>)
    ensures |lines| == 0 <==> s == []
    ensures forall k, j :: 0 <= k < |lines| && 0 <= j < |lines[k]| ==> !IsLineBreak(lines[k][j])
    decreases |s|
  {
    if s == [] then []
    else if FirstBreak(s) == |s| then [s]
    else [s[..FirstBreak(s)]] + SplitLines(s[FirstBreak(s) + BreakWidth(s, FirstBreak(s))..])
  }

  /** The only line boundaries in `s` are `\n`. */
  predicate NewlinesOnly(s: string) {
    forall i :: 0 <= i < |s| && IsLineBreak(s[i]) ==> s[i] == '\n'
  }

  /** The first boundary cuts off the first line. */
  lemma SplitAtFirstBreak(s: string, i: nat)
    requires i == FirstBreak(s) && i < |s|
    ensures SplitLines(s) == [s[..i]] + SplitLines(s[i + BreakWidth(s, i)..])
  {
  }

  /** The text after a boundary has only `\n` boundaries too. */
  lemma NewlinesOnlySuffix(s: string, k: nat)
    requires NewlinesOnly(s) && k <= |s|
    ensures NewlinesOnly(s[k..])
  {
    forall j | 0 <= j < |s[k..]| && IsLineBreak(s[k..][j]) ensures s[k..][j] == '\n' {
      assert s[k..][j] == s[k + j];
    }
  }

  /** `s` is the text before its `\n` at `i`, the `\n`, and the rest. */
  lemma CutAtNewline(s: string, i: nat)
    requires i < |s| && s[i] == '\n'
    ensures s == s[..i] + "\n" + s[i + 1..]
    ensures i + 1 < |s| ==> s[|s| - 1] == s[i + 1..][|s| - i - 2]
  {
  }

  /** A line put in front of lines that rebuild `rest` rebuilds that line,
      a `\n` and `rest`. */
  lemma JoinInFront(head: string, lines: seq<string>, rest: string, tail: string)
    requires |lines| >= 1 && Join(lines, "\n") + tail == rest
    ensures Join([head] + lines, "\n") + tail == head + "\n" + rest
  {
    JoinCons(head, lines, "\n");
  }

  /** For text whose line boundaries are all `\n`, joining the lines with
      `\n` gives the text back, apart from a final `\n`. */
  lemma {:induction false} SplitLinesRoundTrip(s: string)
    requires NewlinesOnly(s)
    ensures Join(SplitLines(s), "\n") + (if |s| > 0 && s[|s| - 1] == '\n' then "\n" else "") == s
    decreases |s|
  {
    if s != [] && FirstBreak(s) < |s| {
      var i := FirstBreak(s);
      var rest := s[i + 1..];
      SplitAtFirstBreak(s, i);
      assert BreakWidth(s, i) == 1;
      CutAtNewline(s, i);
      if rest != [] {
        NewlinesOnlySuffix(s, i + 1);
        SplitLinesRoundTrip(rest);
        var tail := if rest[|rest| - 1] == '\n' then "\n" else "";
        JoinInFront(s[..i], SplitLines(rest), rest, tail);
      }
    }
  }

  // ---------------------------------------------------------------------------
  // the output filter
  // ---------------------------------------------------------------------------

  /** What the loop prints for `lines` when it starts with the flag `printing`. */
  function FilterFrom(lines: seq<string>, printing: bool): seq<string>
    decreases |lines|
  {
    if lines == [] then []
    else if StartsWith(lines[0], StartPrefix) then [Header] + FilterFrom(lines[1..], true)
    else if StartsWith(lines[0], StatisticsPrefix) then []
    else if !printing then FilterFrom(lines[1..], false)
    else [lines[0]] + FilterFrom(lines[1..], true)
  }

  /** A segment of the output as printed: every `Start checking ` line becomes
      the header, every other line is echoed as it is. */
  function Headed(segment: seq<string>): (r: seq<string>)
    ensures |r| == |segment|
    ensures forall i :: 0 <= i < |segment| ==>
      r[i] == if StartsWith(segment[i], StartPrefix) then Header else segment[i]
  {
    if segment == [] then []
    else [if StartsWith(segment[0], StartPrefix) then Header else segment[0]] + Headed(segment[1..])
  }

  /** Index of the first line starting with `prefix`, or `|lines|`. */
  function FirstWithPrefix(lines: seq<string>, prefix: string): (k: nat)
    ensures k <= |lines|
    ensures forall i :: 0 <= i < k ==> !StartsWith(lines[i], prefix)
    ensures k < |lines| ==> StartsWith(lines[k], prefix)
  {
    if lines == [] then 0
    else if StartsWith(lines[0], prefix) then 0
    else 1 + FirstWithPrefix(lines[1..], prefix)
  }

  /** No line starts with both prefixes. */
  lemma PrefixesExclusive(line: string)
    ensures !(StartsWith(line, StartPrefix) && StartsWith(line, StatisticsPrefix))
  {
    if StartsWith(line, StartPrefix) {
      assert line[3] == StartPrefix[3] != StatisticsPrefix[3];
    }
  }

  /** Once printing has begun, the output is every line up to the first
      `Statistics:` line, with each `Start checking ` line replaced by the header. */
  lemma {:induction false} FilterWhilePrinting(lines: seq<string>)
    ensures FilterFrom(lines, true) == Headed(lines[..FirstWithPrefix(lines, StatisticsPrefix)])
    decreases |lines|
  {
    if lines != [] {
      PrefixesExclusive(lines[0]);
      FilterWhilePrinting(lines[1..]);
      var e := FirstWithPrefix(lines, StatisticsPrefix);
      if e > 0 {
        assert lines[..e][1..] == lines[1..][..e - 1];
      }
    }
  }

  /** The whole output of the loop: the header for each `Start checking ` line
      and the other lines of the stretch that runs from the first
      `Start checking ` line up to (not including) the first `Statistics:`
      line, in their original order; nothing when no `Start checking ` line
      comes before the first `Statistics:` line. */
  lemma {:induction false} FilterIsSegment(lines: seq<string>)
    ensures var e := FirstWithPrefix(lines, StatisticsPrefix);
      var b := FirstWithPrefix(lines[..e], StartPrefix);
      FilterFrom(lines, false) == Headed(lines[b..e])
    decreases |lines|
  {
    if lines != [] {
      PrefixesExclusive(lines[0]);
    }
    if lines != [] && !StartsWith(lines[0], StatisticsPrefix) {
      var tail := lines[1..];
      var e' := FirstWithPrefix(tail, StatisticsPrefix);
      var e := FirstWithPrefix(lines, StatisticsPrefix);
      assert e == e' + 1;
      assert lines[..e][1..] == tail[..e'];
      if StartsWith(lines[0], StartPrefix) {
        FilterWhilePrinting(tail);
        assert FirstWithPrefix(lines[..e], StartPrefix) == 0;
        assert FilterFrom(lines, false) == [Header] + Headed(tail[..e']);
        assert Headed(lines[..e]) == [Header] + Headed(lines[..e][1..]);
        assert lines[0..e] == lines[..e];
      } else {
        FilterIsSegment(tail);
        var b' := FirstWithPrefix(tail[..e'], StartPrefix);
        assert FirstWithPrefix(lines[..e], StartPrefix) == b' + 1;
        assert lines[b' + 1..e] == tail[b'..e'];
      }
    }
  }

  /** Without a `Start checking ` line nothing at all is printed. */
  lemma NothingBeforeStart(lines: seq<string>)
    requires forall i :: 0 <= i < |lines| ==> !StartsWith(lines[i], StartPrefix)
    ensures FilterFrom(lines, false) == []
  {
    FilterIsSegment(lines);
  }

  /** A `Statistics:` line ends the output: nothing from it on is printed. */
  lemma {:induction false} StatisticsEndsOutput(lines: seq<string>, k: nat, printing: bool)
    requires k < |lines| && StartsWith(lines[k], StatisticsPrefix)
    ensures FilterFrom(lines, printing) == FilterFrom(lines[..k], printing)
    decreases k
  {
    PrefixesExclusive(lines[k]);
    if k > 0 {
      assert lines[..k][1..] == lines[1..][..k - 1];
      StatisticsEndsOutput(lines[1..], k - 1, printing || StartsWith(lines[0], StartPrefix));
    }
  }

  /** The script: when `linkchecker` exits 0 nothing is printed; otherwise the
      loop over the lines of its output prints the result of the filter. */
  method Wrapper(exitCode: int, output: string) returns (printed: seq<string>)
    ensures exitCode == 0 ==> printed == []
    ensures exitCode != 0 ==> printed == FilterFrom(SplitLines(output), false)
  {
    printed := [];
    if exitCode == 0 {
      return;
    }
    var lines := SplitLines(output);
    var printing := false;
    var i := 0;
    while i < |lines|
      invariant 0 <= i <= |lines|
      invariant printed + FilterFrom(lines[i..], printing) == FilterFrom(lines, false)
    {
      var line := lines[i];
      assert lines[i..][1..] == lines[i + 1..];
      if StartsWith(line, StartPrefix) {
        printing := true;
        printed := printed + [Header];
        i := i + 1;
        continue;
      }
      if StartsWith(line, StatisticsPrefix) {
        break;
      }
      if !printing {
        i := i + 1;
        continue;
      }
      printed := printed + [line];
      i := i + 1;
    }
    assert printed == FilterFrom(lines, false) by {
      if i < |lines| {
        assert FilterFrom(lines[i..], printing) == [];
      } else {
        assert lines[i..] == [];
      }
    }
  }
}
