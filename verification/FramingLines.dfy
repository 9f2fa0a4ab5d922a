/** What a receiver makes of any length line: every integer, and a line with nothing on
    it. */
module FramingLines {
  import opened Text
  import opened Framing
  import Json
  import B = Buffer
  import C = Codec
  import D = DocumentSpec
  import R = ReaderSpec
  import T = ReaderTables
  import RE = ReaderErrors
  import RC = ReaderComplete

  /** The verdict on a length line that holds an integer, with so many bytes behind it. */
  function OnLength(limit: nat, n: int, t: string): Verdict {
    if n <= 0 || n > 2147483647 then BadLength
    else if n >= limit then TooLong
    else if |t| < n then Wait
    else Deliver(t)
  }

  lemma IntegerText(fits: R.DoubleRange, n: int)
    ensures C.ParseText(fits, DecimalInt(n) + "\r\n") ==
            if -2147483648 <= n <= 2147483647 then C.Tree(Json.Value.Int32(n))
            else if -9223372036854775808 <= n <= 9223372036854775807 then C.Tree(Json.Value.Int64(n))
            else C.Error(R.NUMBER_TOO_BIG)
  {
    var t := R.NumberText(n < 0, Decimal(if n < 0 then -n else n), None, None, R.Plain);
    T.SuffixedNumber(n, t, "");
    assert DecimalInt(n) + "" == DecimalInt(n);
    assert RC.Ends("\r\n");
    if t.Meaning(fits).Some? {
      NumberLine(fits, t);
    } else {
      NumberRefused(fits, t, "\r\n");
    }
    hide C.ParseText;
  }

  lemma NumberLine(fits: R.DoubleRange, t: R.NumberText)
    requires t.Valid() && t.Meaning(fits).Some?
    requires t.Meaning(fits).value.Int32? || t.Meaning(fits).value.Int64?
    ensures var e := t.Meaning(fits).value;
            C.ParseText(fits, t.Show() + "\r\n") ==
            C.Tree(if e.Int32? then Json.Value.Int32(e.i32) else Json.Value.Int64(e.i64))
  {
    var e := t.Meaning(fits).value;
    NumberParsed(fits, t);
    IntegerRoot(e);
    hide R.Parse, R.NumberText.Show, R.NumberText.Meaning, R.NumberText.Valid, D.Run;
  }

  lemma NumberParsed(fits: R.DoubleRange, t: R.NumberText)
    requires t.Valid() && t.Meaning(fits).Some?
    ensures R.Parse(fits, t.Show() + "\r\n") == R.Accepted([t.Meaning(fits).value])
  {
    var s := t.Show() + "\r\n";
    RC.NumberHead(t);
    assert s[0] == t.Show()[0];
    assert SkipWs(s) == s;
    RC.AtNumber(fits, s);
    RC.NumberComplete(fits, t, "\r\n");
    SkipWsOver("\r\n", "");
    assert "\r\n" + "" == "\r\n";
    hide R.ParseNumber, R.ParseValue, R.NumberText.Show, R.NumberText.Meaning, R.NumberText.Valid;
  }

  lemma IntegerRoot(e: Json.Event)
    requires e.Int32? || e.Int64?
    ensures var d := D.Run(D.FRESH, [e]);
            d.Some? && d.value.root == if e.Int32? then Json.Value.Int32(e.i32) else Json.Value.Int64(e.i64)
  {
    assert [e][1..] == [];
    assert D.Run(D.FRESH, [e]) == D.Step(D.FRESH, e);
  }

  /** Judge on a length line that reads as an integer, or as none, by definition. */
  lemma JudgeInteger(fits: R.DoubleRange, limit: nat, skipBlank: bool, s: string, i: nat, n: int)
    requires limit <= 2147483647 && B.FindCrlf(s) == Some(i) && i > 0 && i + 2 <= |s|
    requires var p := C.ParseText(fits, s[..i + 2]);
             if -2147483648 <= n <= 2147483647 then p == C.Tree(Json.Value.Int32(n))
             else p.Error? || (p.Tree? && p.root.Int64?)
    ensures Judge(fits, limit, skipBlank, s) == OnLength(limit, n, s[i + 2..])
  {
    hide B.FindCrlf, C.ParseText;
  }

  lemma IntegerLineCut(n: int, t: string)
    ensures var d := DecimalInt(n);
            var s := d + ("\r\n" + t);
            && B.FindCrlf(s) == Some(|d|) && |d| > 0 && |d| + 2 <= |s|
            && s[..|d| + 2] == d + "\r\n" && s[|d| + 2..] == t
  {
    var d := DecimalInt(n);
    assert B.NoChar(d, '\r');
    B.LineFound(d, t);
    hide DecimalInt;
  }

  /** Whatever integer a length line holds, negative, zero or of any size. */
  lemma LengthLine(fits: R.DoubleRange, limit: nat, skipBlank: bool, n: int, t: string)
    requires limit <= 2147483647
    ensures Judge(fits, limit, skipBlank, DecimalInt(n) + ("\r\n" + t)) == OnLength(limit, n, t)
  {
    IntegerText(fits, n);
    IntegerLineCut(n, t);
    JudgeInteger(fits, limit, skipBlank, DecimalInt(n) + ("\r\n" + t), |DecimalInt(n)|, n);
    hide *;
  }

  /** A line with nothing on it: the server drops the two bytes and looks at what is
      behind them when more comes; the client drops it as a bad length. */
  lemma BlankLine(fits: R.DoubleRange, limit: nat, t: string, before: seq<string>)
    ensures Judge(fits, limit, true, "\r\n" + t) == Blank
    ensures Judge(fits, limit, false, "\r\n" + t) == BadLength
    ensures Handle(fits, limit, true, Receiver("\r\n" + t, before)) == Receiver(t, before)
    ensures Handle(fits, limit, false, Receiver("\r\n" + t, before)) == Receiver(t, before)
  {
    var s := "\r\n" + t;
    B.LineFound("", t);
    assert "" + s == s;
    assert s[..2] == "\r\n" && s[2..] == t;
    RE.ValueRefused(fits, "\r\n", "");
    assert "\r\n" + "" == "\r\n";
    assert D.Run(D.FRESH, []) == Some(D.FRESH);
    assert C.ParseText(fits, "\r\n") == C.Error(R.EXPECT_VALUE);
    hide C.ParseText, R.Parse, B.FindCrlf;
  }

  /** What an integer on a length line makes each end throw: the limits are 104,857,600
      bytes at the server and 65,536 at the client. */
  lemma LengthThrows(fits: R.DoubleRange, n: int, t: string)
    ensures var line := DecimalInt(n) + ("\r\n" + t);
            && Thrown(Judge(fits, SERVER_LIMIT, true, line)) ==
               (if n <= 0 || n > 2147483647 then Some("invalid message length")
                else if n >= 104857600 then Some("message is too long") else None)
            && Thrown(Judge(fits, CLIENT_LIMIT, false, line)) ==
               (if n <= 0 || n > 2147483647 then Some("invalid message length")
                else if n >= 65536 then Some("message is too long") else None)
  {
    LengthLine(fits, SERVER_LIMIT, true, n, t);
    LengthLine(fits, CLIENT_LIMIT, false, n, t);
    hide Judge, DecimalInt;
  }
}
