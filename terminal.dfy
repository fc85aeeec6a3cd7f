/** What a terminal shows of a report: colour codes take no column. On that
    view, where the caret of `pprint` lands against the source excerpt above
    it. */
module Terminal {
  import opened StdText
  import opened Diagnostics

  /** The rest of a colour code after its escape character: everything up to
      and including the closing `m` is dropped. */
  function AfterCode(s: string): (r: string)
    ensures |r| <= |s|
  {
    if s == [] then [] else if s[0] == 'm' then s[1..] else AfterCode(s[1..])
  }

  /** A line as a terminal shows it: each colour code, from its escape
      character to its `m`, takes no column. */
  function Uncoloured(s: string): (r: string)
    ensures |r| <= |s|
    decreases |s|
  {
    if s == [] then []
    else if s[0] == '\U{1B}' then Uncoloured(AfterCode(s[1..]))
    else [s[0]] + Uncoloured(s[1..])
  }

  lemma {:induction false} UncolouredPlain(x: string, y: string)
    requires '\U{1B}' !in x
    ensures Uncoloured(x + y) == x + Uncoloured(y)
    decreases |x|
  {
    if x != [] {
      assert x[0] in x && (x + y)[0] == x[0];
      assert (x + y)[1..] == x[1..] + y;
      UncolouredPlain(x[1..], y);
      assert x == [x[0]] + x[1..];
    } else {
      assert x + y == y;
    }
  }

  lemma {:induction false} AfterCodeSkips(a: string, y: string)
    requires 'm' !in a
    ensures AfterCode(a + ['m'] + y) == y
    decreases |a|
  {
    if a == [] {
      assert a + ['m'] + y == ['m'] + y;
    } else {
      assert a[0] in a;
      assert (a + ['m'] + y)[1..] == a[1..] + ['m'] + y;
      AfterCodeSkips(a[1..], y);
    }
  }

  lemma UncolouredCode(c: string, y: string)
    requires c == Red || c == Blue || c == Reset
    ensures Uncoloured(c + y) == Uncoloured(y)
  {
    var a := c[1..|c| - 1];
    assert c == ['\U{1B}'] + a + ['m'];
    assert 'm' !in a;
    assert (c + y)[1..] == a + ['m'] + y;
    AfterCodeSkips(a, y);
  }

  /** The digits of a line number, right-aligned, hold no escape character. */
  lemma NumberPlain(line: nat)
    ensures '\U{1B}' !in PadLeft(NatText(line), 2)
  {
    var d := NatText(line);
    assert '\U{1B}' !in d by {
      forall i | 0 <= i < |d|
        ensures d[i] != '\U{1B}'
      {
        assert IsDigit(d[i]);
      }
    }
    if |d| < 2 {
      var pad := Spaces(2 - |d|);
      assert '\U{1B}' !in pad by {
        forall i | 0 <= i < |pad|
          ensures pad[i] != '\U{1B}'
        {
          assert pad[i] == ' ';
        }
      }
      assert PadLeft(d, 2) == pad + d;
    }
  }

  lemma Assoc(a: string, b: string, c: string)
    ensures a + b + c == a + (b + c)
  {
  }

  /** A colour code between two plain texts, and another after them, show
      as the texts alone: the shape of the numbered source line. */
  lemma CodedNumberedLine(c1: string, a: string, b: string, c2: string, d: string, e: string)
    requires c1 == Red || c1 == Blue || c1 == Reset
    requires c2 == Red || c2 == Blue || c2 == Reset
    requires '\U{1B}' !in a && '\U{1B}' !in b && '\U{1B}' !in d && '\U{1B}' !in e
    ensures Uncoloured(c1 + a + b + c2 + d + e) == a + b + d + e
  {
    Assoc(c1 + a + b + c2, d, e);
    Assoc(c1 + a + b, c2, d + e);
    Assoc(c1 + a, b, c2 + (d + e));
    Assoc(c1, a, b + (c2 + (d + e)));
    UncolouredCode(c1, a + (b + (c2 + (d + e))));
    UncolouredPlain(a, b + (c2 + (d + e)));
    UncolouredPlain(b, c2 + (d + e));
    UncolouredCode(c2, d + e);
    UncolouredPlain(d, e);
    UncolouredPlain(e, []);
    assert e + [] == e;
    Assoc(a, b, d + e);
    Assoc(a + b, d, e);
  }

  /** Plain text, then three colour codes each after a plain text: the shape
      of the caret line. */
  lemma CodedCaretLine(a: string, c1: string, b: string, c2: string, d: string, e: string, c3: string)
    requires c1 == Red || c1 == Blue || c1 == Reset
    requires c2 == Red || c2 == Blue || c2 == Reset
    requires c3 == Red || c3 == Blue || c3 == Reset
    requires '\U{1B}' !in a && '\U{1B}' !in b && '\U{1B}' !in d && '\U{1B}' !in e
    ensures Uncoloured(a + c1 + b + c2 + d + e + c3) == a + b + d + e
  {
    assert c3 == c3 + [];
    Assoc(a + c1 + b + c2 + d, e, c3);
    Assoc(a + c1 + b + c2, d, e + c3);
    Assoc(a + c1 + b, c2, d + (e + c3));
    Assoc(a + c1, b, c2 + (d + (e + c3)));
    Assoc(a, c1, b + (c2 + (d + (e + c3))));
    UncolouredPlain(a, c1 + (b + (c2 + (d + (e + c3)))));
    UncolouredCode(c1, b + (c2 + (d + (e + c3))));
    UncolouredPlain(b, c2 + (d + (e + c3)));
    UncolouredCode(c2, d + (e + c3));
    UncolouredPlain(d, e + c3);
    UncolouredPlain(e, c3);
    UncolouredCode(c3, []);
    assert e + [] == e;
    Assoc(a, b, d + e);
    Assoc(a + b, d, e);
  }

  lemma NumberedShown(line: nat, excerpt: string)
    requires '\U{1B}' !in excerpt
    ensures Uncoloured(Blue + PadLeft(NatText(line), 2) + " |" + Reset + " " + excerpt)
      == PadLeft(NatText(line), 2) + " |" + " " + excerpt
  {
    NumberPlain(line);
    CodedNumberedLine(Blue, PadLeft(NatText(line), 2), " |", Reset, " ", excerpt);
  }

  lemma CaretShown(col: nat)
    requires col >= 1
    ensures Uncoloured("   " + Blue + "| " + Red + Spaces(col - 1) + "^" + Reset) == "   " + "| " + Spaces(col - 1) + "^"
  {
    var gap := Spaces(col - 1);
    assert '\U{1B}' !in gap by {
      forall i | 0 <= i < |gap|
        ensures gap[i] != '\U{1B}'
      {
        assert gap[i] == ' ';
      }
    }
    CodedCaretLine("   ", Blue, "| ", Red, gap, "^", Reset);
  }

  /** The numbered source line and the caret line of a report, as the
      terminal shows them. */
  lemma ReportShown(msg: string, file: string, line: nat, col: nat, excerpt: string)
    requires col >= 1 && '\U{1B}' !in excerpt
    ensures |ReportLines(msg, file, line, col, excerpt)| == 5
    ensures Uncoloured(ReportLines(msg, file, line, col, excerpt)[3]) == PadLeft(NatText(line), 2) + " |" + " " + excerpt
    ensures Uncoloured(ReportLines(msg, file, line, col, excerpt)[4]) == "   " + "| " + Spaces(col - 1) + "^"
  {
    NumberedShown(line, excerpt);
    CaretShown(col);
  }

  /** A line number takes at most two columns exactly when it is below 100. */
  lemma NatTextShort(n: nat)
    ensures |NatText(n)| <= 2 <==> n < 100
  {
    if n >= 10 {
      assert NatText(n) == NatText(n / 10) + [('0' as int + n % 10) as char];
    }
    if |NatText(n)| <= 2 {
      assert Pow10(2) == 100 && Pow10(1) == 10;
    }
  }

  /** The right-aligned line number is two columns wide exactly below line 100. */
  lemma GutterWidth(line: nat)
    ensures |PadLeft(NatText(line), 2)| >= 2
    ensures |PadLeft(NatText(line), 2)| == 2 <==> line < 100
  {
    NatTextShort(line);
  }

  /** Where the excerpt's `col`-th character and the `^` sit in the two
      shown lines. */
  lemma ShownColumns(num: string, col: nat, excerpt: string)
    requires 1 <= col <= |excerpt|
    ensures var caret := "   " + "| " + Spaces(col - 1) + "^";
      |caret| == col + 5 && caret[col + 4] == '^'
    ensures var shown := num + " |" + " " + excerpt;
      |num| + 2 + col < |shown| && shown[|num| + 2 + col] == excerpt[col - 1]
  {
    var shown := num + " |" + " " + excerpt;
    assert shown == (num + " | ") + excerpt;
  }

  /** On the two shown lines: the `^` sits in the column of the excerpt's
      `col`-th character, shifted by the digits of the line number beyond two. */
  lemma ShownCaretColumn(line: nat, col: nat, excerpt: string)
    requires 1 <= col <= |excerpt|
    ensures var shown := PadLeft(NatText(line), 2) + " |" + " " + excerpt;
      var caret := "   " + "| " + Spaces(col - 1) + "^";
      var at := |caret| - 1;
      var drift := |PadLeft(NatText(line), 2)| - 2;
      && caret[at] == '^'
      && at + drift < |shown| && shown[at + drift] == excerpt[col - 1]
      && (drift == 0 <==> line < 100)
  {
    GutterWidth(line);
    ShownColumns(PadLeft(NatText(line), 2), col, excerpt);
  }

  /** The caret line shows `^` in the column of the excerpt's `col`-th
      character exactly when the line number is below 100; from line 100 on,
      the number widens the gutter and the caret lands as many columns to the
      left as the number has digits beyond two. */
  lemma CaretAligned(msg: string, file: string, line: nat, col: nat, excerpt: string)
    requires col >= 1 && col - 1 < |excerpt| && '\U{1B}' !in excerpt
    ensures var shown := Uncoloured(ReportLines(msg, file, line, col, excerpt)[3]);
      var caret := Uncoloured(ReportLines(msg, file, line, col, excerpt)[4]);
      var at := |caret| - 1;
      var drift := |PadLeft(NatText(line), 2)| - 2;
      && caret[at] == '^'
      && at + drift < |shown| && shown[at + drift] == excerpt[col - 1]
      && (drift == 0 <==> line < 100)
  {
    ReportShown(msg, file, line, col, excerpt);
    ShownCaretColumn(line, col, excerpt);
  }

}
