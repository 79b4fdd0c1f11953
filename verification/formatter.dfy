/** `format_repo_counts`: one line `Repo: {name} Number of commits: {count}`
    per pair, joined with "\n" and no trailing newline.  The model also
    gives the inverse reading of that text, to show the rendering loses
    nothing when no name contains a newline. */
module Formatter {
  import opened Wrappers
  import opened Responses

  const LinePrefix: string := "Repo: "
  const CountLabel: string := " Number of commits: "
  const Newline: char := '\n'

  // ---------------------------------------------------------------------
  // Decimal numerals, as Python's `str` writes a non-negative `int`.

  predicate IsDigit(c: char) {
    '0' <= c <= '9'
  }

  predicate AllDigits(s: string) {
    forall i :: 0 <= i < |s| ==> IsDigit(s[i])
  }

  function DigitChar(d: nat): (c: char)
    requires d < 10
    ensures IsDigit(c)
  {
    ('0' as int + d) as char
  }

  function DigitValue(c: char): (d: nat)
    requires IsDigit(c)
    ensures d < 10
  {
    c as int - '0' as int
  }

  /** The decimal numeral of n: digits only, no leading zero. */
  function NatToString(n: nat): (s: string)
    ensures |s| >= 1
    ensures AllDigits(s)
    ensures s[0] == '0' ==> n == 0 && s == "0"
    decreases n
  {
    if n < 10 then [DigitChar(n)]
    else NatToString(n / 10) + [DigitChar(n % 10)]
  }

  /** The value of a string of digits, most significant first. */
  function DigitsValue(s: string): nat
    requires AllDigits(s)
    decreases |s|
  {
    if |s| == 0 then 0
    else DigitsValue(s[..|s| - 1]) * 10 + DigitValue(s[|s| - 1])
  }

  /** Reading a numeral back gives the number written. */
  lemma {:induction false} NatToStringRoundTrip(n: nat)
    ensures DigitsValue(NatToString(n)) == n
    decreases n
  {
    if n >= 10 {
      var s := NatToString(n);
      assert s[..|s| - 1] == NatToString(n / 10);
      NatToStringRoundTrip(n / 10);
    }
  }

  // ---------------------------------------------------------------------
  // "\n".join and its inverse str.split("\n").

  /** `"\n".join(lines)`. */
  function Join(lines: seq<string>): (s: string)
    ensures |lines| == 0 ==> s == ""
    ensures |lines| > 0 ==> |s| >= |lines[0]|
  {
    if |lines| == 0 then ""
    else if |lines| == 1 then lines[0]
    else lines[0] + [Newline] + Join(lines[1..])
  }

  /** Index of the first newline in s, or |s| when there is none. */
  function NewlineIndex(s: string): (i: nat)
    ensures i <= |s|
    ensures forall j :: 0 <= j < i ==> s[j] != Newline
    ensures i < |s| ==> s[i] == Newline
  {
    if |s| == 0 || s[0] == Newline then 0 else 1 + NewlineIndex(s[1..])
  }

  /** `s.split("\n")`: the pieces between newlines; always at least one. */
  function Split(s: string): (parts: seq<string>)
    ensures |parts| >= 1
    decreases |s|
  {
    var i := NewlineIndex(s);
    if i == |s| then [s] else [s[..i]] + Split(s[i + 1..])
  }

  predicate NoNewline(s: string) {
    forall i :: 0 <= i < |s| ==> s[i] != Newline
  }

  lemma {:induction false} NewlineIndexAfter(a: string, b: string)
    requires NoNewline(a)
    ensures NewlineIndex(a + [Newline] + b) == |a|
    decreases |a|
  {
    if |a| > 0 {
      assert (a + [Newline] + b)[1..] == a[1..] + [Newline] + b;
      NewlineIndexAfter(a[1..], b);
    } else {
      assert (a + [Newline] + b)[0] == Newline;
    }
  }

  lemma NewlineIndexNone(a: string)
    requires NoNewline(a)
    ensures NewlineIndex(a) == |a|
  {
  }

  /** Splitting at the first newline peels off the newline-free head. */
  lemma SplitAfter(a: string, rest: string)
    requires NoNewline(a)
    ensures Split(a + [Newline] + rest) == [a] + Split(rest)
  {
    var s := a + [Newline] + rest;
    NewlineIndexAfter(a, rest);
    assert s[..|a|] == a;
    assert s[|a| + 1..] == rest;
  }

  /** Joining one more newline-free line in front adds it in front of the
      split. */
  lemma SplitJoinStep(head: string, tail: seq<string>)
    requires NoNewline(head) && |tail| >= 1
    ensures Split(Join([head] + tail)) == [head] + Split(Join(tail))
  {
    var lines := [head] + tail;
    assert lines[0] == head && lines[1..] == tail;
    SplitAfter(head, Join(tail));
  }

  /** Splitting joined lines that contain no newline gives the lines back. */
  lemma {:induction false} SplitJoin(lines: seq<string>)
    requires |lines| >= 1
    requires forall i :: 0 <= i < |lines| ==> NoNewline(lines[i])
    ensures Split(Join(lines)) == lines
    decreases |lines|
  {
    if |lines| == 1 {
      NewlineIndexNone(lines[0]);
    } else {
      var tail := lines[1..];
      assert forall i :: 0 <= i < |tail| ==> tail[i] == lines[i + 1];
      SplitJoin(tail);
      assert lines == [lines[0]] + tail;
      SplitJoinStep(lines[0], tail);
    }
  }

  // ---------------------------------------------------------------------
  // The report.

  /** `f"Repo: {name} Number of commits: {count}"`. */
  function RenderLine(p: Pair): (line: string)
    ensures |line| > |LinePrefix| + |p.0| + |CountLabel|
    ensures line[..|LinePrefix|] == LinePrefix
    ensures IsDigit(line[|line| - 1])
  {
    LinePrefix + p.0 + CountLabel + NatToString(p.1)
  }

  /** The rendered line of each pair, in order. */
  function RenderLines(pairs: seq<Pair>): (lines: seq<string>)
    ensures |lines| == |pairs|
    ensures forall i :: 0 <= i < |pairs| ==> lines[i] == RenderLine(pairs[i])
  {
    if |pairs| == 0 then [] else [RenderLine(pairs[0])] + RenderLines(pairs[1..])
  }

  /** `format_repo_counts`: empty exactly for no pairs, and never ending in
      a newline, since every line ends in a digit. */
  function FormatRepoCounts(pairs: seq<Pair>): (s: string)
    ensures s == "" <==> |pairs| == 0
    ensures s != "" ==> IsDigit(s[|s| - 1])
  {
    JoinEndsInLastLine(RenderLines(pairs));
    Join(RenderLines(pairs))
  }

  lemma {:induction false} JoinEndsInLastLine(lines: seq<string>)
    requires forall i :: 0 <= i < |lines| ==> |lines[i]| > 0 && IsDigit(lines[i][|lines[i]| - 1])
    ensures Join(lines) != "" <==> |lines| > 0
    ensures Join(lines) != "" ==> IsDigit(Join(lines)[|Join(lines)| - 1])
    decreases |lines|
  {
    if |lines| > 1 {
      JoinEndsInLastLine(lines[1..]);
    }
  }

  /** Reads one line back into its pair: the count is the run of digits at
      the end, written without a leading zero, the name everything between
      the prefix and the count label. */
  function ParseLine(line: string): Option<Pair> {
    if |line| < |LinePrefix| || line[..|LinePrefix|] != LinePrefix then None
    else
      var rest := line[|LinePrefix|..];
      var d := DigitSuffixLength(rest);
      var body := rest[..|rest| - d];
      if d == 0 || (d > 1 && rest[|rest| - d] == '0') then None
      else if |body| < |CountLabel| || body[|body| - |CountLabel|..] != CountLabel then None
      else Some((body[..|body| - |CountLabel|], DigitsValue(rest[|rest| - d..])))
  }

  /** A numeral with no leading zero other than "0" itself is worth at least
      1 when it has more than one digit. */
  lemma {:induction false} LeadingDigitPositive(s: string)
    requires |s| >= 1 && AllDigits(s) && s[0] != '0'
    ensures DigitsValue(s) >= 1
    decreases |s|
  {
    if |s| > 1 {
      LeadingDigitPositive(s[..|s| - 1]);
    } else {
      assert DigitsValue(s) == DigitsValue(s[..0]) * 10 + DigitValue(s[0]);
    }
  }

  /** Writing back the value of a numeral with no leading zero gives the
      same numeral. */
  lemma {:induction false} DigitsValueRoundTrip(s: string)
    requires |s| >= 1 && AllDigits(s)
    requires |s| > 1 ==> s[0] != '0'
    ensures NatToString(DigitsValue(s)) == s
    decreases |s|
  {
    var last := s[|s| - 1];
    if |s| == 1 {
      assert DigitsValue(s) == DigitsValue(s[..0]) * 10 + DigitValue(last);
      assert DigitChar(DigitValue(last)) == last;
    } else {
      var init := s[..|s| - 1];
      assert |init| > 1 ==> init[0] != '0';
      LeadingDigitPositive(init);
      DigitsValueRoundTrip(init);
      var v := DigitsValue(s);
      assert v == DigitsValue(init) * 10 + DigitValue(last);
      assert v / 10 == DigitsValue(init) && v % 10 == DigitValue(last);
      assert DigitChar(DigitValue(last)) == last;
      assert s == init + [last];
    }
  }

  /** Whatever line reads back as a pair is exactly that pair's rendering:
      the reader accepts no text the renderer does not write. */
  lemma ParseLineIsExact(line: string)
    ensures ParseLine(line).Some? ==> RenderLine(ParseLine(line).value) == line
  {
    if ParseLine(line).Some? {
      var rest := line[|LinePrefix|..];
      var d := DigitSuffixLength(rest);
      var body := rest[..|rest| - d];
      var digits := rest[|rest| - d..];
      var name := body[..|body| - |CountLabel|];
      assert ParseLine(line).value == (name, DigitsValue(digits));
      RenderOfParts(line, rest, body, digits, name);
    }
  }

  /** A line cut into prefix, name, count label and canonical numeral is the
      rendering of that name and the numeral's value. */
  lemma RenderOfParts(line: string, rest: string, body: string, digits: string, name: string)
    requires |line| >= |LinePrefix| && line[..|LinePrefix|] == LinePrefix && rest == line[|LinePrefix|..]
    requires |digits| <= |rest| && body == rest[..|rest| - |digits|] && digits == rest[|rest| - |digits|..]
    requires |body| >= |CountLabel| && body[|body| - |CountLabel|..] == CountLabel
    requires name == body[..|body| - |CountLabel|]
    requires |digits| >= 1 && AllDigits(digits) && (|digits| > 1 ==> digits[0] != '0')
    ensures RenderLine((name, DigitsValue(digits))) == line
  {
    Rejoin(line, |LinePrefix|);
    assert line == LinePrefix + rest;
    Rejoin(rest, |rest| - |digits|);
    assert rest == body + digits;
    Rejoin(body, |body| - |CountLabel|);
    assert body == name + CountLabel;
    DigitsValueRoundTrip(digits);
    var r := RenderLine((name, DigitsValue(digits)));
    assert r == LinePrefix + name + CountLabel + digits;
    Regroup(LinePrefix, name, CountLabel, digits);
  }

  lemma Regroup(a: string, b: string, c: string, d: string)
    ensures a + b + c + d == a + ((b + c) + d)
  {
  }

  lemma Rejoin(s: string, i: nat)
    requires i <= |s|
    ensures s == s[..i] + s[i..]
  {
  }

  /** Length of the longest all-digit suffix of s. */
  function DigitSuffixLength(s: string): (d: nat)
    ensures d <= |s|
    ensures AllDigits(s[|s| - d..])
    decreases |s|
  {
    if |s| == 0 || !IsDigit(s[|s| - 1]) then 0
    else
      var d := 1 + DigitSuffixLength(s[..|s| - 1]);
      assert s[|s| - d..] == s[..|s| - 1][|s| - d..] + [s[|s| - 1]];
      d
  }

  lemma {:induction false} DigitSuffixOf(a: string, b: string)
    requires |a| > 0 && !IsDigit(a[|a| - 1])
    requires AllDigits(b)
    ensures DigitSuffixLength(a + b) == |b|
    decreases |b|
  {
    if |b| > 0 {
      assert (a + b)[..|a + b| - 1] == a + b[..|b| - 1];
      DigitSuffixOf(a, b[..|b| - 1]);
    } else {
      assert a + b == a;
    }
  }

  /** Cutting a + b at |a| gives a and b back. */
  lemma CutAt(a: string, b: string)
    ensures (a + b)[..|a|] == a
    ensures (a + b)[|a|..] == b
  {
  }

  /** Every rendered line reads back as the pair it was rendered from. */
  lemma ParseRenderLine(p: Pair)
    ensures ParseLine(RenderLine(p)) == Some(p)
  {
    var digits := NatToString(p.1);
    var body := p.0 + CountLabel;
    var rest := body + digits;
    var line := RenderLine(p);
    assert line == LinePrefix + rest;
    CutAt(LinePrefix, rest);
    assert line[|LinePrefix|..] == rest;
    assert body[|body| - 1] == ' ';
    DigitSuffixOf(body, digits);
    CutAt(body, digits);
    assert rest[..|rest| - |digits|] == body;
    assert rest[|rest| - |digits|..] == digits;
    assert !(|digits| > 1 && rest[|rest| - |digits|] == '0');
    CutAt(p.0, CountLabel);
    NatToStringRoundTrip(p.1);
  }

  /** Reads a whole report back: "" is no pairs, otherwise every line
      must read back. */
  function ParseReport(s: string): Option<seq<Pair>> {
    if s == "" then Some([]) else ParseLines(Split(s))
  }

  function ParseLines(lines: seq<string>): Option<seq<Pair>> {
    if |lines| == 0 then Some([])
    else
      match (ParseLine(lines[0]), ParseLines(lines[1..]))
      case (Some(p), Some(ps)) => Some([p] + ps)
      case _ => None
  }

  lemma {:induction false} ParseRenderLines(pairs: seq<Pair>)
    ensures ParseLines(RenderLines(pairs)) == Some(pairs)
    decreases |pairs|
  {
    if |pairs| > 0 {
      var lines := RenderLines(pairs);
      assert lines[0] == RenderLine(pairs[0]);
      ParseRenderLine(pairs[0]);
      assert lines[1..] == RenderLines(pairs[1..]);
      ParseRenderLines(pairs[1..]);
      assert ParseLines(lines) == Some([pairs[0]] + pairs[1..]);
      assert pairs == [pairs[0]] + pairs[1..];
    }
  }

  /** A rendered line holds a newline only if its name does. */
  lemma RenderLineNoNewline(p: Pair)
    requires NoNewline(p.0)
    ensures NoNewline(RenderLine(p))
  {
  }

  /** When no name contains a newline, the report has exactly one line per
      pair, the i-th being the i-th pair's line, and reading it back gives
      the pairs: no pair is lost, merged or reordered. */
  lemma FormatRoundTrip(pairs: seq<Pair>)
    requires forall i :: 0 <= i < |pairs| ==> NoNewline(pairs[i].0)
    ensures |pairs| > 0 ==> Split(FormatRepoCounts(pairs)) == RenderLines(pairs)
    ensures ParseReport(FormatRepoCounts(pairs)) == Some(pairs)
  {
    if |pairs| > 0 {
      var lines := RenderLines(pairs);
      forall i | 0 <= i < |lines| ensures NoNewline(lines[i]) {
        RenderLineNoNewline(pairs[i]);
      }
      SplitJoin(lines);
      ParseRenderLines(pairs);
    }
  }
}
