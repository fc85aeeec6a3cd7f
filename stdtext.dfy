/** The pieces of Rust's standard library that the front end relies on for text:
    `i64` and `str::parse::<i64>`, `to_string` on integers, `str::lines`, and the
    right-aligned padding of `format!("{:>w$}")`. Strings are ASCII, so a byte
    offset and a character index coincide. */
module StdText {
  import opened Wrappers

  const I64_MIN: int := -0x8000_0000_0000_0000
  const I64_MAX: int := 0x7FFF_FFFF_FFFF_FFFF

  /** Rust's `i64`. */
  type I64 = x: int | I64_MIN <= x <= I64_MAX

  predicate IsDigit(c: char) {
    '0' <= c <= '9'
  }

  predicate IsDigits(s: string) {
    forall i :: 0 <= i < |s| ==> IsDigit(s[i])
  }

  function Pow10(n: nat): (p: nat)
    ensures p >= 1
  {
    if n == 0 then 1 else 10 * Pow10(n - 1)
  }

  /** The value of a string of decimal digits, most significant digit first. */
  function DigitsValue(s: string): (v: nat)
    requires IsDigits(s)
    ensures v < Pow10(|s|)
  {
    if s == [] then 0
    else
      var init := s[..|s| - 1];
      assert IsDigits(init);
      DigitsValue(init) * 10 + (s[|s| - 1] as int - '0' as int)
  }

  /** `str::parse::<i64>`: an optional `+` or `-` followed by at least one digit,
      whose value lies in the range of `i64`. */
  function ParseI64(s: string): (r: Option<int>)
    ensures r.Some? ==> I64_MIN <= r.value <= I64_MAX
    ensures |s| > 0 && IsDigits(s) ==>
      r == if DigitsValue(s) <= I64_MAX then Some(DigitsValue(s)) else None
  {
    if |s| >= 2 && s[0] == '-' && IsDigits(s[1..]) then
      var m: int := DigitsValue(s[1..]);
      if m <= -I64_MIN then Some(-m) else None
    else if |s| >= 2 && s[0] == '+' && IsDigits(s[1..]) then
      var m := DigitsValue(s[1..]);
      if m <= I64_MAX then Some(m) else None
    else if |s| >= 1 && IsDigits(s) then
      var m := DigitsValue(s);
      if m <= I64_MAX then Some(m) else None
    else None
  }

  /** The decimal text of a natural number, without leading zeros. */
  function NatText(n: nat): (s: string)
    ensures |s| > 0 && IsDigits(s) && DigitsValue(s) == n
    ensures s[0] == '0' ==> n == 0
  {
    if n < 10 then [('0' as int + n) as char]
    else
      var s := NatText(n / 10) + [('0' as int + n % 10) as char];
      assert s[..|s| - 1] == NatText(n / 10);
      s
  }

  /** `to_string` on an integer: a minus sign for negative values, then the
      decimal text of the magnitude. Parsing the text back gives the value. */
  function IntText(n: int): (s: string)
    ensures I64_MIN <= n <= I64_MAX ==> ParseI64(s) == Some(n)
  {
    if n < 0 then
      var s := "-" + NatText(-n);
      assert s[1..] == NatText(-n);
      s
    else NatText(n)
  }

  function Spaces(k: nat): (s: string)
    ensures |s| == k && forall i :: 0 <= i < k ==> s[i] == ' '
  {
    seq(k, _ => ' ')
  }

  /** `format!("{:>w$}", s)`: `s` right-aligned in a field of width `w`. */
  function PadLeft(s: string, w: nat): (r: string)
    ensures |r| == if |s| < w then w else |s|
    ensures r[|r| - |s|..] == s
    ensures forall i :: 0 <= i < |r| - |s| ==> r[i] == ' '
  {
    if |s| < w then Spaces(w - |s|) + s else s
  }

  function CountChar(s: string, c: char): nat {
    if s == [] then 0
    else CountChar(s[..|s| - 1], c) + (if s[|s| - 1] == c then 1 else 0)
  }

  lemma {:induction false} CountCharAppend(a: string, b: string, c: char)
    ensures CountChar(a + b, c) == CountChar(a, c) + CountChar(b, c)
    decreases |b|
  {
    if b == [] {
      assert a + b == a;
    } else {
      assert (a + b)[..|a + b| - 1] == a + b[..|b| - 1];
      CountCharAppend(a, b[..|b| - 1], c);
    }
  }

  lemma {:induction false} CountCharAbsent(s: string, c: char)
    requires c !in s
    ensures CountChar(s, c) == 0
    decreases |s|
  {
    if s != [] {
      assert s[|s| - 1] in s;
      assert forall x :: x in s[..|s| - 1] ==> x in s;
      CountCharAbsent(s[..|s| - 1], c);
    }
  }

  // ---------------------------------------------------------------------------
  // str::lines

  /** The index of the first newline in `s`, or `|s|` when there is none. */
  function NewlineIndex(s: string): (k: nat)
    ensures k <= |s| && '\n' !in s[..k]
    ensures k < |s| ==> s[k] == '\n'
  {
    if s == [] || s[0] == '\n' then 0
    else
      var k := 1 + NewlineIndex(s[1..]);
      assert s[..k] == [s[0]] + s[1..][..k - 1];
      k
  }

  /** A line ended by `\r\n` loses its `\r` as well as its `\n`. */
  function StripCR(line: string): (r: string)
    ensures |r| <= |line| && r == line[..|r|]
  {
    if |line| > 0 && line[|line| - 1] == '\r' then line[..|line| - 1] else line
  }

  /** `str::lines`: the text split at each newline, the terminators dropped, and
      no empty line after a final newline. */
  function Lines(s: string): seq<string>
    decreases |s|
  {
    if s == [] then []
    else
      var k := NewlineIndex(s);
      if k == |s| then [s] else [StripCR(s[..k])] + Lines(s[k + 1..])
  }

  /** No line holds a newline, and every character of a line is a character of
      the text. */
  lemma {:induction false} LinesShape(s: string)
    ensures forall k :: 0 <= k < |Lines(s)| ==> '\n' !in Lines(s)[k]
    ensures forall k, c :: 0 <= k < |Lines(s)| && c in Lines(s)[k] ==> c in s
    decreases |s|
  {
    if s != [] {
      var k := NewlineIndex(s);
      if k < |s| {
        var line := StripCR(s[..k]);
        var rest := s[k + 1..];
        assert forall i :: 0 <= i < |line| ==> line[i] == s[i];
        assert forall c :: c in rest ==> c in s;
        LinesShape(rest);
        assert Lines(s) == [line] + Lines(rest);
      }
    }
  }

  /** `s.lines().next().unwrap_or("")`. */
  function FirstLine(s: string): (l: string)
    ensures '\n' !in l && forall c :: c in l ==> c in s
  {
    LinesShape(s);
    var ls := Lines(s);
    if ls == [] then "" else ls[0]
  }

  /** Each line followed by a newline, as `writeln!` and `push('\n')` produce. */
  function Terminated(ls: seq<string>): string {
    if ls == [] then "" else ls[0] + "\n" + Terminated(ls[1..])
  }

  lemma {:induction false} TerminatedAppend(a: seq<string>, b: seq<string>)
    ensures Terminated(a + b) == Terminated(a) + Terminated(b)
    decreases |a|
  {
    if a == [] {
      assert a + b == b;
    } else {
      assert (a + b)[1..] == a[1..] + b;
      TerminatedAppend(a[1..], b);
    }
  }

  /** Writing one more line extends the terminated text of the lines before it. */
  lemma TerminatedPrefix(ls: seq<string>, i: nat)
    requires i < |ls|
    ensures Terminated(ls[..i + 1]) == Terminated(ls[..i]) + ls[i] + "\n"
  {
    assert ls[..i + 1] == ls[..i] + [ls[i]];
    TerminatedAppend(ls[..i], [ls[i]]);
    assert [ls[i]][1..] == [];
    assert Terminated([ls[i]]) == ls[i] + "\n" + "";
    assert ls[i] + "\n" + "" == ls[i] + "\n";
  }

  /** A line that `str::lines` gives back unchanged once terminated. */
  predicate PlainLine(l: string) {
    '\n' !in l && (|l| == 0 || l[|l| - 1] != '\r')
  }

  /** `str::lines` undoes `Terminated` on lines without newlines or a final `\r`. */
  lemma {:induction false} LinesOfTerminated(ls: seq<string>)
    requires forall k :: 0 <= k < |ls| ==> PlainLine(ls[k])
    ensures Lines(Terminated(ls)) == ls
    decreases |ls|
  {
    if ls != [] {
      var l0 := ls[0];
      var rest := Terminated(ls[1..]);
      var s := Terminated(ls);
      assert s == l0 + "\n" + rest;
      var k := NewlineIndex(s);
      assert s[|l0|] == '\n';
      assert k == |l0|;
      assert s[..k] == l0;
      assert s[k + 1..] == rest;
      LinesOfTerminated(ls[1..]);
    }
  }

  lemma {:induction false} CountNewlinesTerminated(ls: seq<string>)
    requires forall k :: 0 <= k < |ls| ==> '\n' !in ls[k]
    ensures CountChar(Terminated(ls), '\n') == |ls|
    decreases |ls|
  {
    if ls != [] {
      CountCharAbsent(ls[0], '\n');
      CountCharAppend(ls[0], "\n", '\n');
      assert CountChar("\n", '\n') == 1 by {
        assert "\n"[..0] == "";
      }
      CountCharAppend(ls[0] + "\n", Terminated(ls[1..]), '\n');
      CountNewlinesTerminated(ls[1..]);
    }
  }
}
