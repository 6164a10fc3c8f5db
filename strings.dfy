/**
 * The pieces of Python's `str` and `posixpath` that the scripts rely on:
 * prefix and suffix tests, `split`/`join` on a separator, `replace`,
 * `strip`/`rstrip`, decimal digits, and `basename`/`dirname`/`join`.
 */
module Strings {

  import opened Common

  predicate StartsWith(s: string, p: string) {
    |p| <= |s| && s[..|p|] == p
  }

  predicate EndsWith(s: string, p: string) {
    |p| <= |s| && s[|s| - |p|..] == p
  }

  /** `p` occurs in `s` starting at index `i`. */
  predicate OccursAt(s: string, p: string, i: int) {
    0 <= i && i + |p| <= |s| && s[i..i + |p|] == p
  }

  /** Python's `p in s`. */
  predicate Contains(s: string, p: string) {
    exists i :: 0 <= i <= |s| && OccursAt(s, p, i)
  }

  // ---------------------------------------------------------------------------
  // split, join and replace on a non-empty separator
  // ---------------------------------------------------------------------------

  /** Python's `s.split(sep)`: the pieces between the non-overlapping,
      left-to-right occurrences of `sep`. */
  function Split(s: string, sep: string): (r: seq<string>)
    requires |sep| > 0
    ensures |r| >= 1
    decreases |s|
  {
    if |s| < |sep| then [s]
    else if s[..|sep|] == sep then [""] + Split(s[|sep|..], sep)
    else
      var rest := Split(s[1..], sep);
      [[s[0]] + rest[0]] + rest[1..]
  }

  /** Python's `sep.join(parts)`. */
  function Join(parts: seq<string>, sep: string): string {
    if |parts| == 0 then ""
    else if |parts| == 1 then parts[0]
    else parts[0] + sep + Join(parts[1..], sep)
  }

  /** Python's `s.replace(pat, rep)`: every non-overlapping occurrence of
      `pat`, scanning left to right, becomes `rep`. */
  function ReplaceAll(s: string, pat: string, rep: string): string
    requires |pat| > 0
    decreases |s|
  {
    if |s| < |pat| then s
    else if s[..|pat|] == pat then rep + ReplaceAll(s[|pat|..], pat, rep)
    else [s[0]] + ReplaceAll(s[1..], pat, rep)
  }

  lemma JoinCons(head: string, rest: seq<string>, sep: string)
    requires |rest| >= 1
    ensures Join([head] + rest, sep) == head + sep + Join(rest, sep)
  {
    assert ([head] + rest)[1..] == rest;
  }

  /** Gluing a character to the front of the first piece glues it to the front
      of the joined text. */
  lemma JoinPrependChar(c: char, rest: seq<string>, sep: string)
    requires |rest| >= 1
    ensures Join([[c] + rest[0]] + rest[1..], sep) == [c] + Join(rest, sep)
  {
    if |rest| > 1 {
      JoinCons([c] + rest[0], rest[1..], sep);
      assert [rest[0]] + rest[1..] == rest;
      JoinCons(rest[0], rest[1..], sep);
    }
  }

  /** Splitting and joining again with the same separator gives the input back:
      no text is lost or moved by `Split`. */
  lemma {:induction false} JoinSplit(s: string, sep: string)
    requires |sep| > 0
    ensures Join(Split(s, sep), sep) == s
    decreases |s|
  {
    if |s| < |sep| {
    } else if s[..|sep|] == sep {
      var rest := Split(s[|sep|..], sep);
      assert Split(s, sep) == [""] + rest;
      JoinSplit(s[|sep|..], sep);
      JoinCons("", rest, sep);
      assert s == sep + s[|sep|..];
    } else {
      var rest := Split(s[1..], sep);
      assert Split(s, sep) == [[s[0]] + rest[0]] + rest[1..];
      JoinSplit(s[1..], sep);
      JoinPrependChar(s[0], rest, sep);
      assert s == [s[0]] + s[1..];
    }
  }

  /** `replace` is `rep.join(s.split(pat))`. */
  lemma {:induction false} ReplaceIsJoinOfSplit(s: string, pat: string, rep: string)
    requires |pat| > 0
    ensures ReplaceAll(s, pat, rep) == Join(Split(s, pat), rep)
    decreases |s|
  {
    if |s| < |pat| {
    } else if s[..|pat|] == pat {
      var rest := Split(s[|pat|..], pat);
      assert Split(s, pat) == [""] + rest;
      ReplaceIsJoinOfSplit(s[|pat|..], pat, rep);
      JoinCons("", rest, rep);
    } else {
      var rest := Split(s[1..], pat);
      assert Split(s, pat) == [[s[0]] + rest[0]] + rest[1..];
      ReplaceIsJoinOfSplit(s[1..], pat, rep);
      JoinPrependChar(s[0], rest, rep);
    }
  }

  /** The first piece of a split is a prefix of the input. */
  lemma {:induction false} SplitHeadIsPrefix(s: string, sep: string)
    requires |sep| > 0
    ensures |Split(s, sep)[0]| <= |s| && s[..|Split(s, sep)[0]|] == Split(s, sep)[0]
    decreases |s|
  {
    if |s| < |sep| {
    } else if s[..|sep|] == sep {
    } else {
      SplitHeadIsPrefix(s[1..], sep);
      var r0 := Split(s[1..], sep)[0];
      assert s[..1 + |r0|] == [s[0]] + s[1..][..|r0|];
    }
  }

  /** A character in front of a text without the separator adds an
      occurrence only at the very start. */
  lemma ConsAvoidsSeparator(c: char, t: string, sep: string)
    requires |sep| > 0 && !Contains(t, sep) && !StartsWith([c] + t, sep)
    ensures !Contains([c] + t, sep)
  {
    var piece := [c] + t;
    forall i | 0 <= i <= |piece| ensures !OccursAt(piece, sep, i) {
      if 0 < i && i + |sep| <= |piece| {
        assert piece[i..i + |sep|] == t[i - 1..i - 1 + |sep|];
        assert !OccursAt(t, sep, i - 1);
      }
    }
  }

  /** None of `pieces` contains `sep`. */
  predicate NoneContains(pieces: seq<string>, sep: string) {
    forall k :: 0 <= k < |pieces| ==> !Contains(pieces[k], sep)
  }

  lemma NoneContainsCons(piece: string, rest: seq<string>, sep: string)
    requires !Contains(piece, sep) && NoneContains(rest, sep)
    ensures NoneContains([piece] + rest, sep)
  {
    forall k | 0 <= k < |[piece] + rest| ensures !Contains(([piece] + rest)[k], sep) {
      if k > 0 {
        assert ([piece] + rest)[k] == rest[k - 1];
      }
    }
  }

  /** When `s` does not start with `sep`, neither does its first character
      followed by a prefix of the rest. */
  lemma FirstPieceAvoidsSeparator(s: string, r0: string, sep: string)
    requires 0 < |sep| <= |s| && s[..|sep|] != sep
    requires |r0| < |s| && s[1..][..|r0|] == r0
    ensures !StartsWith([s[0]] + r0, sep)
  {
    var piece := [s[0]] + r0;
    if |sep| <= |piece| {
      assert s[..1 + |r0|] == piece;
      assert piece[..|sep|] == s[..|sep|];
    }
  }

  /** No piece of a split contains the separator: `Split` cuts at every occurrence. */
  lemma {:induction false} SplitPiecesAvoidSeparator(s: string, sep: string)
    requires |sep| > 0
    ensures forall k :: 0 <= k < |Split(s, sep)| ==> !Contains(Split(s, sep)[k], sep)
    decreases |s|
  {
    if |s| < |sep| {
    } else if s[..|sep|] == sep {
      SplitPiecesAvoidSeparator(s[|sep|..], sep);
      NoneContainsCons("", Split(s[|sep|..], sep), sep);
    } else {
      var rest := Split(s[1..], sep);
      SplitPiecesAvoidSeparator(s[1..], sep);
      SplitHeadIsPrefix(s[1..], sep);
      FirstPieceAvoidsSeparator(s, rest[0], sep);
      ConsAvoidsSeparator(s[0], rest[0], sep);
      assert NoneContains(rest[1..], sep) by {
        forall k | 0 <= k < |rest[1..]| ensures !Contains(rest[1..][k], sep) {
          assert rest[1..][k] == rest[k + 1];
        }
      }
      NoneContainsCons([s[0]] + rest[0], rest[1..], sep);
    }
  }

  /** Replacing a string that does not occur changes nothing. */
  lemma {:induction false} ReplaceAbsent(s: string, pat: string, rep: string)
    requires |pat| > 0 && !Contains(s, pat)
    ensures ReplaceAll(s, pat, rep) == s
    decreases |s|
  {
    assert !OccursAt(s, pat, 0);
    if |s| < |pat| {
    } else if s[..|pat|] == pat {
    } else {
      assert !Contains(s[1..], pat) by {
        forall i | 0 <= i <= |s[1..]| ensures !OccursAt(s[1..], pat, i) {
          if i + |pat| <= |s[1..]| {
            assert s[1..][i..i + |pat|] == s[i + 1..i + 1 + |pat|];
            assert !OccursAt(s, pat, i + 1);
          }
        }
      }
      ReplaceAbsent(s[1..], pat, rep);
    }
  }

  // ---------------------------------------------------------------------------
  // decimal digits
  // ---------------------------------------------------------------------------

  predicate IsDigit(c: char) {
    '0' <= c <= '9'
  }

  predicate AllDigits(s: string) {
    forall i :: 0 <= i < |s| ==> IsDigit(s[i])
  }

  function DigitValue(c: char): (d: nat)
    requires IsDigit(c)
    ensures d < 10
  {
    (c - '0') as nat
  }

  function DigitChar(d: nat): (c: char)
    requires d < 10
    ensures IsDigit(c) && DigitValue(c) == d
  {
    ('0' as int + d) as char
  }

  /** The number a string of decimal digits denotes (leading zeros allowed). */
  function DecimalValue(s: string): nat
    requires AllDigits(s)
  {
    if |s| == 0 then 0
    else DecimalValue(s[..|s| - 1]) * 10 + DigitValue(s[|s| - 1])
  }

  /** Python's `str(n)` for a natural number. */
  function DecimalString(n: nat): (s: string)
    ensures |s| >= 1 && AllDigits(s)
  {
    if n < 10 then [DigitChar(n)] else DecimalString(n / 10) + [DigitChar(n % 10)]
  }

  lemma {:induction false} DecimalRoundTrip(n: nat)
    ensures DecimalValue(DecimalString(n)) == n
  {
    if n >= 10 {
      DecimalRoundTrip(n / 10);
      var s := DecimalString(n);
      assert s[..|s| - 1] == DecimalString(n / 10);
    }
  }

  /** Python's `int(s)` restricted to plain decimal digit strings. */
  function ParseNat(s: string): (r: Option<nat>)
    ensures r.Some? <==> |s| > 0 && AllDigits(s)
  {
    if |s| > 0 && AllDigits(s) then Some(DecimalValue(s)) else None
  }

  // ---------------------------------------------------------------------------
  // strip
  // ---------------------------------------------------------------------------

  /** The characters Python's argument-less `str.strip()` removes. */
  predicate IsSpace(c: char) {
    c == ' ' || ('\t' <= c <= '\r') || ('\U{1C}' <= c <= '\U{1F}')
    || c == '\U{85}' || c == '\U{A0}' || c == '\U{1680}'
    || ('\U{2000}' <= c <= '\U{200A}') || c == '\U{2028}' || c == '\U{2029}'
    || c == '\U{202F}' || c == '\U{205F}' || c == '\U{3000}'
  }

  /** Python's `s.rstrip(c)` for one character. */
  function RStripChar(s: string, c: char): (r: string)
    ensures |r| <= |s| && r == s[..|r|]
    ensures |r| == 0 || r[|r| - 1] != c
    ensures forall i :: |r| <= i < |s| ==> s[i] == c
  {
    if |s| > 0 && s[|s| - 1] == c then RStripChar(s[..|s| - 1], c) else s
  }

  function RStripSpace(s: string): (r: string)
    ensures |r| <= |s| && r == s[..|r|]
    ensures |r| == 0 || !IsSpace(r[|r| - 1])
    ensures forall i :: |r| <= i < |s| ==> IsSpace(s[i])
  {
    if |s| > 0 && IsSpace(s[|s| - 1]) then RStripSpace(s[..|s| - 1]) else s
  }

  function LStripSpace(s: string): (r: string)
    ensures |r| <= |s| && r == s[|s| - |r|..]
    ensures |r| == 0 || !IsSpace(r[0])
    ensures forall i :: 0 <= i < |s| - |r| ==> IsSpace(s[i])
  {
    if |s| > 0 && IsSpace(s[0]) then LStripSpace(s[1..]) else s
  }

  /** Python's `s.strip()`. */
  function Strip(s: string): (r: string)
    ensures |r| <= |s|
    ensures |r| == 0 || (!IsSpace(r[0]) && !IsSpace(r[|r| - 1]))
  {
    LStripSpace(RStripSpace(s))
  }

  /** `rstrip()` stops at the last non-whitespace character. */
  lemma RStripSpaceAt(s: string, b: nat)
    requires b <= |s|
    requires forall i :: b <= i < |s| ==> IsSpace(s[i])
    requires b == 0 || !IsSpace(s[b - 1])
    ensures RStripSpace(s) == s[..b]
  {
  }

  /** `lstrip()` stops at the first non-whitespace character. */
  lemma LStripSpaceAt(s: string, a: nat)
    requires a <= |s|
    requires forall i :: 0 <= i < a ==> IsSpace(s[i])
    requires a == |s| || !IsSpace(s[a])
    ensures LStripSpace(s) == s[a..]
  {
  }

  /** `strip()` keeps exactly the stretch of `s` that starts and ends with
      a non-whitespace character and has only whitespace around it. */
  lemma StripIsInnerSegment(s: string, a: nat, b: nat)
    requires a <= b <= |s|
    requires forall i :: 0 <= i < a ==> IsSpace(s[i])
    requires forall i :: b <= i < |s| ==> IsSpace(s[i])
    requires a < b ==> !IsSpace(s[a]) && !IsSpace(s[b - 1])
    ensures Strip(s) == s[a..b]
  {
    if a < b {
      RStripSpaceAt(s, b);
      LStripSpaceAt(s[..b], a);
    } else {
      RStripSpaceAt(s, 0);
    }
  }

  // ---------------------------------------------------------------------------
  // posixpath
  // ---------------------------------------------------------------------------

  /** The part of `p` after its last `/`: Python's `basename(p)`. */
  function Basename(p: string): (r: string)
    ensures |r| <= |p| && r == p[|p| - |r|..]
    ensures forall i :: 0 <= i < |r| ==> r[i] != '/'
  {
    if |p| == 0 || p[|p| - 1] == '/' then "" else Basename(p[..|p| - 1]) + [p[|p| - 1]]
  }

  /** The part of `p` up to and including its last `/` (empty when there is none). */
  function Head(p: string): (r: string)
    ensures r + Basename(p) == p
  {
    if |p| == 0 || p[|p| - 1] == '/' then p
    else
      assert p == p[..|p| - 1] + [p[|p| - 1]];
      Head(p[..|p| - 1])
  }

  predicate AllSlashes(s: string) {
    forall i :: 0 <= i < |s| ==> s[i] == '/'
  }

  /** Python's `dirname(p)`: the head without its trailing slashes, unless the
      head consists of slashes only. */
  function Dirname(p: string): string {
    var head := Head(p);
    if head != "" && !AllSlashes(head) then RStripChar(head, '/') else head
  }

  /** Python's `os.path.join(a, b)` for two components. */
  function PathJoin(a: string, b: string): (r: string)
    ensures EndsWith(r, b)
  {
    if StartsWith(b, "/") then b
    else if a == "" || EndsWith(a, "/") then a + b
    else a + "/" + b
  }

  /** Stripping `c` from a string followed by nothing but `c` gives the string
      back, provided it does not itself end in `c`. */
  lemma {:induction false} RStripCharAppended(s: string, t: string, c: char)
    requires |s| == 0 || s[|s| - 1] != c
    requires forall i :: 0 <= i < |t| ==> t[i] == c
    ensures RStripChar(s + t, c) == s
    decreases |t|
  {
    if |t| == 0 {
      assert s + t == s;
    } else {
      assert (s + t)[..|s + t| - 1] == s + t[..|t| - 1];
      RStripCharAppended(s, t[..|t| - 1], c);
    }
  }

  /** Head and basename of `a + "/" + b` when `b` holds no `/`. */
  lemma {:induction false} SplitLastComponent(a: string, b: string)
    requires forall i :: 0 <= i < |b| ==> b[i] != '/'
    ensures Basename(a + "/" + b) == b
    ensures Head(a + "/" + b) == a + "/"
    decreases |b|
  {
    var p := a + "/" + b;
    if |b| == 0 {
      assert p == a + "/";
    } else {
      assert p[..|p| - 1] == a + "/" + b[..|b| - 1];
      SplitLastComponent(a, b[..|b| - 1]);
      assert b == b[..|b| - 1] + [b[|b| - 1]];
    }
  }
}
