/** Length-prefixed messages: the decimal length of the JSON text and its final
    CR LF, a CR LF, the text, a CR LF. */
module Framing {
  import opened Text
  import Json
  import R = ReaderSpec
  import B = Buffer
  import C = Codec
  import W = WriterSpec
  import N = RoundTrip
  import RC = ReaderComplete
  import D = Document

  const SERVER_LIMIT := 100 * 1024 * 1024
  const CLIENT_LIMIT := 65536

  /** What sendRequest and sendResponse send for a text. */
  function Frame(json: string): string {
    Decimal(|json| + 2) + ("\r\n" + (json + "\r\n"))
  }

  /** What handleMessage makes of the bytes in the buffer.  The client has no case
      for a blank line. */
  datatype Verdict =
    | Wait
    | Blank
    | BadLength
    | TooLong
    | Deliver(json: string)
    | AssertionFails

  function Judge(fits: R.DoubleRange, limit: nat, skipBlank: bool, s: string): Verdict {
    match B.FindCrlf(s)
    case None => Wait
    case Some(i) =>
      if skipBlank && i == 0 then Blank
      else match C.ParseText(fits, s[..i + 2])
           case AssertionFails => AssertionFails
           case Error(_) => BadLength
           case Tree(v) =>
             if !v.Int32? || v.i32 <= 0 then BadLength
             else if v.i32 >= limit then TooLong
             else if |s| < i + 2 + v.i32 then Wait
             else Deliver(s[i + 2..])
  }

  /** The length line of a frame reads back as the length. */
  lemma HeaderReads(fits: R.DoubleRange, n: int32)
    requires n >= 0
    ensures C.ParseText(fits, Decimal(n) + "\r\n") == C.Tree(Json.Value.Int32(n))
  {
    var v := Json.Value.Int32(n);
    C.TreeRoundTrip(fits, "", v, "\r\n");
    assert W.TreeText(v) == Decimal(n);
    assert "" + (Decimal(n) + "\r\n") == Decimal(n) + "\r\n";
  }

  /** A length of 2^31 or more reads back as an Int64, and from 2^63 on not at all. */
  lemma LongHeaderReads(fits: R.DoubleRange, n: nat)
    requires n > 0x7FFF_FFFF
    ensures C.ParseText(fits, Decimal(n) + "\r\n") ==
            if n <= 0x7FFF_FFFF_FFFF_FFFF then C.Tree(Json.Value.Int64(n)) else C.Error(R.NUMBER_TOO_BIG)
  {
    var d := Decimal(n);
    if n <= 0x7FFF_FFFF_FFFF_FFFF {
      var v := Json.Value.Int64(n);
      C.TreeRoundTrip(fits, "", v, "\r\n");
      assert W.TreeText(v) == d;
      assert "" + (d + "\r\n") == d + "\r\n";
    } else {
      HugeNumber(n);
      NumberRefused(fits, N.NumberOf(n), "\r\n");
    }
  }

  lemma HugeNumber(n: nat)
    ensures var t := N.NumberOf(n);
            t.Valid() && t.Show() == Decimal(n) && !t.IsDouble() && t.Integer() == n
  {
    DecimalLeading(n);
    DecimalValue(n);
    N.PlainText(N.NumberOf(n));
    assert "" + Decimal(n) == Decimal(n);
  }

  lemma NumberRefused(fits: R.DoubleRange, t: R.NumberText, r: string)
    requires t.Valid() && t.Meaning(fits).None? && RC.Ends(r)
    ensures C.ParseText(fits, t.Show() + r) == C.Error(R.NUMBER_TOO_BIG)
  {
    var s := t.Show() + r;
    RC.NumberHead(t);
    assert s[0] == t.Show()[0];
    assert SkipWs(s) == s;
    RC.AtNumber(fits, s);
    RC.ScanNumberComplete(t, r);
    hide R.ScanNumber, R.ParseValue;
  }

  lemma DigitsNoCr(s: string)
    requires AllDigits(s)
    ensures B.NoChar(s, '\r')
  {
  }

  predicate InLimit(json: string, limit: nat) {
    limit <= 0x7FFF_FFFF && |json| + 2 < limit
  }

  /** Judge on a length line that reads as n, by definition. */
  lemma JudgeLength(fits: R.DoubleRange, limit: nat, skipBlank: bool, s: string, i: nat, n: int32)
    requires B.FindCrlf(s) == Some(i) && i > 0 && i + 2 <= |s|
    requires C.ParseText(fits, s[..i + 2]) == C.Tree(Json.Value.Int32(n)) && 0 < n < limit
    ensures Judge(fits, limit, skipBlank, s) == if |s| < i + 2 + n then Wait else Deliver(s[i + 2..])
  {
  }

  lemma LengthLineCut(n: nat, t: string)
    ensures var d := Decimal(n);
            var s := d + ("\r\n" + t);
            && B.FindCrlf(s) == Some(|d|) && |d| > 0 && |d| + 2 <= |s| && |s| == |d| + 2 + |t|
            && s[..|d| + 2] == d + "\r\n" && s[|d| + 2..] == t
  {
    var d := Decimal(n);
    DigitsNoCr(d);
    B.LineFound(d, t);
  }

  lemma JudgeDecimal(fits: R.DoubleRange, limit: nat, skipBlank: bool, s: string, i: nat, n: int32)
    requires B.FindCrlf(s) == Some(i) && i > 0 && i + 2 <= |s| && 0 < n < limit
    requires s[..i + 2] == Decimal(n) + "\r\n"
    ensures Judge(fits, limit, skipBlank, s) == if |s| < i + 2 + n then Wait else Deliver(s[i + 2..])
  {
    HeaderReads(fits, n);
    JudgeLength(fits, limit, skipBlank, s, i, n);
  }

  /** The beginning of a frame that holds the whole length line. */
  lemma JudgeBehindHeader(fits: R.DoubleRange, limit: nat, skipBlank: bool, json: string, s: string, t: string)
    requires InLimit(json, limit) && s == Decimal(|json| + 2) + ("\r\n" + t)
    ensures Judge(fits, limit, skipBlank, s) == if |t| < |json| + 2 then Wait else Deliver(t)
  {
    var n := |json| + 2;
    LengthLineCut(n, t);
    JudgeDecimal(fits, limit, skipBlank, s, |Decimal(n)|, n);
  }

  /** The beginning of a frame without the whole length line. */
  lemma JudgeShort(fits: R.DoubleRange, limit: nat, skipBlank: bool, d: string, body: string, k: nat)
    requires AllDigits(d) && k < |d| + 2
    ensures Judge(fits, limit, skipBlank, (d + ("\r\n" + body))[..k]) == Wait
  {
    var f := d + ("\r\n" + body);
    if B.FindCrlf(f[..k]).Some? {
      B.FindCrlfStable(f[..k], f[k..]);
      assert f[..k] + f[k..] == f;
      DigitsNoCr(d);
      B.LineFound(d, body);
    }
  }

  /** No proper beginning of a frame delivers anything. */
  lemma PrefixWaits(fits: R.DoubleRange, limit: nat, skipBlank: bool, json: string, k: nat)
    requires InLimit(json, limit) && k < |Frame(json)|
    ensures Judge(fits, limit, skipBlank, Frame(json)[..k]) == Wait
  {
    var d := Decimal(|json| + 2);
    var body := json + "\r\n";
    var s := Frame(json)[..k];
    if k >= |d| + 2 {
      var t := body[..k - |d| - 2];
      assert s == d + ("\r\n" + t);
      JudgeBehindHeader(fits, limit, skipBlank, json, s, t);
    } else {
      JudgeShort(fits, limit, skipBlank, d, body, k);
    }
  }

  lemma WholeDelivers(fits: R.DoubleRange, limit: nat, skipBlank: bool, json: string)
    requires InLimit(json, limit)
    ensures Judge(fits, limit, skipBlank, Frame(json)) == Deliver(json + "\r\n")
  {
    JudgeBehindHeader(fits, limit, skipBlank, json, Frame(json), json + "\r\n");
  }

  /** Whatever follows a frame in the buffer goes to the handler with it, so a frame is
      handed on as it was sent exactly if it is alone. */
  lemma FrameTakesAll(fits: R.DoubleRange, limit: nat, skipBlank: bool, json: string, more: string)
    requires InLimit(json, limit)
    ensures Judge(fits, limit, skipBlank, Frame(json) + more) == Deliver((json + "\r\n") + more)
    ensures Judge(fits, limit, skipBlank, Frame(json) + more) == Deliver(json + "\r\n") <==> more == ""
  {
    var d, body := Decimal(|json| + 2), json + "\r\n";
    var t := body + more;
    assert Frame(json) + more == d + ("\r\n" + t);
    JudgeBehindHeader(fits, limit, skipBlank, json, Frame(json) + more, t);
    assert |t| == |body| + |more| && body + "" == body;
  }

  // -------------------------------------------------------- over the limit

  /** The verdict on a length that is not below the limit. */
  function Refusal(n: nat): Verdict { if n <= 0x7FFF_FFFF then TooLong else BadLength }

  /** Judge on a length line that is refused, by definition. */
  lemma JudgeRefused(fits: R.DoubleRange, limit: nat, skipBlank: bool, s: string, i: nat, n: nat)
    requires B.FindCrlf(s) == Some(i) && i > 0 && i + 2 <= |s| && limit <= n && n > 0
    requires C.ParseText(fits, s[..i + 2]) ==
             if n <= 0x7FFF_FFFF then C.Tree(Json.Value.Int32(n))
             else if n <= 0x7FFF_FFFF_FFFF_FFFF then C.Tree(Json.Value.Int64(n)) else C.Error(R.NUMBER_TOO_BIG)
    ensures Judge(fits, limit, skipBlank, s) == Refusal(n)
  {
  }

  /** The beginning of a frame over the limit, once it holds the whole length line. */
  lemma JudgeOverLimit(fits: R.DoubleRange, limit: nat, skipBlank: bool, json: string, s: string, t: string)
    requires limit <= |json| + 2 && s == Decimal(|json| + 2) + ("\r\n" + t)
    ensures Judge(fits, limit, skipBlank, s) == Refusal(|json| + 2)
  {
    var n := |json| + 2;
    LengthLineCut(n, t);
    if n <= 0x7FFF_FFFF {
      HeaderReads(fits, n);
    } else {
      LongHeaderReads(fits, n);
    }
    JudgeRefused(fits, limit, skipBlank, s, |Decimal(n)|, n);
    hide *;
  }

  /** The bytes of a frame and whatever follows it. */
  function Stream(json: string, more: string): string { Frame(json) + more }

  lemma StreamCut(json: string, more: string)
    ensures Stream(json, more) == Decimal(|json| + 2) + ("\r\n" + ((json + "\r\n") + more))
  {
    var d, body := Decimal(|json| + 2), json + "\r\n";
    Glue(d, "\r\n" + body, more);
    Glue("\r\n", body, more);
    hide Decimal;
  }

  lemma StreamAlone(json: string)
    ensures Stream(json, "") == Frame(json)
  {
    hide Frame;
  }

  /** Every beginning of a frame over the limit and what follows it waits for the
      length line, and with the length line it is refused. */
  lemma PrefixRefused(fits: R.DoubleRange, limit: nat, skipBlank: bool, json: string, more: string, k: nat)
    requires limit <= |json| + 2 && k <= |Stream(json, more)|
    ensures Judge(fits, limit, skipBlank, Stream(json, more)[..k]) ==
            if k < |Decimal(|json| + 2)| + 2 then Wait else Refusal(|json| + 2)
  {
    var d := Decimal(|json| + 2);
    var body := (json + "\r\n") + more;
    StreamCut(json, more);
    var f := Stream(json, more);
    hide Frame, Stream, Decimal, Judge;
    var s := f[..k];
    if k >= |d| + 2 {
      var t := body[..k - |d| - 2];
      assert s == d + ("\r\n" + t);
      JudgeOverLimit(fits, limit, skipBlank, json, s, t);
    } else {
      JudgeShort(fits, limit, skipBlank, d, body, k);
    }
  }

  /** A whole frame is handed on exactly if its length is below the limit. */
  lemma DeliveredIff(fits: R.DoubleRange, limit: nat, skipBlank: bool, json: string)
    requires limit <= 0x7FFF_FFFF
    ensures Judge(fits, limit, skipBlank, Frame(json)) ==
            if |json| + 2 < limit then Deliver(json + "\r\n") else Refusal(|json| + 2)
  {
    if |json| + 2 < limit {
      WholeDelivers(fits, limit, skipBlank, json);
    } else {
      JudgeOverLimit(fits, limit, skipBlank, json, Frame(json), json + "\r\n");
    }
  }

  // -------------------------------------------------------------- receiving

  /** A receiver: the bytes in its buffer and what it has handed on. */
  datatype Receiver = Receiver(buffer: string, delivered: seq<string>)

  /** A call of handleMessage with the bytes that have come.  A delivered message
      takes the whole buffer with it, so the loop ends there. */
  function Handle(fits: R.DoubleRange, limit: nat, skipBlank: bool, r: Receiver): Receiver {
    match Judge(fits, limit, skipBlank, r.buffer)
    case Deliver(json) => Receiver([], r.delivered + [json])
    case Blank => Receiver(B.Retrieved(r.buffer, 2), r.delivered)
    case BadLength =>
      if skipBlank then r else Receiver(B.Retrieved(r.buffer, B.FindCrlf(r.buffer).value + 2), r.delivered)
    case _ => r
  }

  function Receive(fits: R.DoubleRange, limit: nat, skipBlank: bool, r: Receiver, bytes: string): Receiver {
    Handle(fits, limit, skipBlank, r.(buffer := r.buffer + bytes))
  }

  function ReceiveAll(fits: R.DoubleRange, limit: nat, skipBlank: bool, r: Receiver, chunks: seq<string>): Receiver
    decreases |chunks|
  {
    if chunks == [] then r
    else ReceiveAll(fits, limit, skipBlank, Receive(fits, limit, skipBlank, r, chunks[0]), chunks[1..])
  }

  /** The first of some chunks that continue f from k on. */
  lemma ChunkCut(f: string, k: nat, chunks: seq<string>)
    requires chunks != [] && k + |Concat(chunks)| <= |f|
    requires Concat(chunks) == f[k..k + |Concat(chunks)|]
    ensures var m := k + |chunks[0]|;
            && m + |Concat(chunks[1..])| == k + |Concat(chunks)| && f[..k] + chunks[0] == f[..m]
            && Concat(chunks[1..]) == f[m..m + |Concat(chunks[1..])|]
  {
    var m := k + |chunks[0]|;
    var all := Concat(chunks);
    assert all[..|chunks[0]|] == chunks[0] && all[|chunks[0]|..] == Concat(chunks[1..]);
    assert f[k..k + |all|][..|chunks[0]|] == f[k..m];
    assert f[k..k + |all|][|chunks[0]|..] == f[m..k + |all|];
  }

  /** A frame in any chunks, from any point of it on: as long as bytes are missing
      they stay in the buffer and nothing is handed on; the last byte hands on the
      text with its CR LF, once, and empties the buffer. */
  lemma {:induction false} FrameDelivered(fits: R.DoubleRange, limit: nat, skipBlank: bool, json: string,
                                          before: seq<string>, k: nat, chunks: seq<string>)
    requires InLimit(json, limit) && k < |Frame(json)|
    requires k + |Concat(chunks)| <= |Frame(json)|
    requires Concat(chunks) == Frame(json)[k..k + |Concat(chunks)|]
    requires forall i :: 0 <= i < |chunks| ==> chunks[i] != []
    ensures ReceiveAll(fits, limit, skipBlank, Receiver(Frame(json)[..k], before), chunks) ==
            if k + |Concat(chunks)| < |Frame(json)| then
              Receiver(Frame(json)[..k + |Concat(chunks)|], before)
            else Receiver([], before + [json + "\r\n"])
    decreases |chunks|
  {
    hide Frame, Judge;
    var f := Frame(json);
    if chunks != [] {
      var m := k + |chunks[0]|;
      ChunkCut(f, k, chunks);
      if m < |f| {
        PrefixWaits(fits, limit, skipBlank, json, m);
        FrameDelivered(fits, limit, skipBlank, json, before, m, chunks[1..]);
      } else {
        assert f[..m] == f;
        WholeDelivers(fits, limit, skipBlank, json);
        NoEmptyChunks(chunks[1..]);
      }
    }
  }

  /** A frame over the limit and whatever follows it, in any chunks, at the server, and
      at the client too if the length is an int32: nothing is ever handed on, and all the
      bytes stay in the buffer. */
  lemma {:induction false} FrameStuck(fits: R.DoubleRange, limit: nat, skipBlank: bool, json: string, more: string,
                                      before: seq<string>, k: nat, chunks: seq<string>)
    requires limit <= |json| + 2 && (skipBlank || |json| + 2 <= 0x7FFF_FFFF)
    requires k + |Concat(chunks)| <= |Stream(json, more)|
    requires Concat(chunks) == Stream(json, more)[k..k + |Concat(chunks)|]
    ensures ReceiveAll(fits, limit, skipBlank, Receiver(Stream(json, more)[..k], before), chunks) ==
            Receiver(Stream(json, more)[..k + |Concat(chunks)|], before)
    decreases |chunks|
  {
    hide Frame, Stream, Judge;
    var f := Stream(json, more);
    if chunks != [] {
      var m := k + |chunks[0]|;
      ChunkCut(f, k, chunks);
      PrefixRefused(fits, limit, skipBlank, json, more, m);
      FrameStuck(fits, limit, skipBlank, json, more, before, m, chunks[1..]);
    }
  }

  /** What the client does with the text itself, once the length line is dropped: it
      takes it for a length line, and drops it too. */
  lemma {:induction false} TextDropped(fits: R.DoubleRange, limit: nat, json: string,
                                       before: seq<string>, k: nat, chunks: seq<string>)
    requires B.NoChar(json, '\r') && Judge(fits, limit, false, json + "\r\n") == BadLength
    requires k + |Concat(chunks)| == |json + "\r\n"| && Concat(chunks) == (json + "\r\n")[k..]
    requires forall i :: 0 <= i < |chunks| ==> chunks[i] != []
    ensures ReceiveAll(fits, limit, false, Receiver((json + "\r\n")[..k], before), chunks).delivered == before
    decreases |chunks|
  {
    hide Judge;
    var f := json + "\r\n";
    if chunks != [] {
      var m := k + |chunks[0]|;
      ChunkCut(f, k, chunks);
      if m < |f| {
        TextWaits(fits, limit, json, m);
        TextDropped(fits, limit, json, before, m, chunks[1..]);
      } else {
        assert f[..m] == f;
        NoEmptyChunks(chunks[1..]);
      }
    }
  }

  lemma TextWaits(fits: R.DoubleRange, limit: nat, json: string, m: nat)
    requires B.NoChar(json, '\r') && m < |json| + 2
    ensures Judge(fits, limit, false, (json + "\r\n")[..m]) == Wait
  {
    var s := (json + "\r\n")[..m];
    if B.FindCrlf(s).Some? {
      B.FindCrlfFirst(s, B.FindCrlf(s).value);
    }
  }

  /** A frame whose length is no int32, at the client: nothing of it is handed on. */
  lemma {:induction false} FrameDropped(fits: R.DoubleRange, limit: nat, json: string,
                                        before: seq<string>, k: nat, chunks: seq<string>)
    requires |json| + 2 > 0x7FFF_FFFF && limit <= 0x7FFF_FFFF
    requires B.NoChar(json, '\r') && Judge(fits, limit, false, json + "\r\n") == BadLength
    requires k < |Decimal(|json| + 2)| + 2 && k + |Concat(chunks)| == |Frame(json)|
    requires Concat(chunks) == Frame(json)[k..k + |Concat(chunks)|]
    requires forall i :: 0 <= i < |chunks| ==> chunks[i] != []
    ensures ReceiveAll(fits, limit, false, Receiver(Frame(json)[..k], before), chunks).delivered == before
    decreases |chunks|
  {
    FrameLength(json);
    StreamAlone(json);
    hide Frame, Stream, Judge, Decimal, Handle, B.NoChar;
    var f, m := Frame(json), k + |chunks[0]|;
    ChunkCut(f, k, chunks);
    PrefixRefused(fits, limit, false, json, "", m);
    if m < |Decimal(|json| + 2)| + 2 {
      HandleWaits(fits, limit, false, Receiver(f[..m], before));
      FrameDropped(fits, limit, json, before, m, chunks[1..]);
    } else {
      HeaderDropped(fits, limit, json, before, m);
      FrameEnd(json, m);
      TextDropped(fits, limit, json, before, m - |Decimal(|json| + 2)| - 2, chunks[1..]);
    }
  }

  lemma FrameLength(json: string)
    ensures |Frame(json)| == |Decimal(|json| + 2)| + 2 + |json| + 2
  {
  }

  lemma HandleWaits(fits: R.DoubleRange, limit: nat, skipBlank: bool, r: Receiver)
    requires Judge(fits, limit, skipBlank, r.buffer) == Wait
    ensures Handle(fits, limit, skipBlank, r) == r
  {
  }

  lemma FrameEnd(json: string, m: nat)
    requires |Decimal(|json| + 2)| + 2 <= m <= |Frame(json)|
    ensures var j := m - |Decimal(|json| + 2)| - 2;
            j + |Frame(json)[m..|Frame(json)|]| == |json + "\r\n"|
            && Frame(json)[m..|Frame(json)|] == (json + "\r\n")[j..]
  {
    var h := |Decimal(|json| + 2)| + 2;
    assert Frame(json)[h..] == json + "\r\n";
    assert Frame(json)[m..|Frame(json)|] == Frame(json)[h..][m - h..];
  }

  lemma BadLineDropped(fits: R.DoubleRange, limit: nat, s: string, i: nat, before: seq<string>)
    requires B.FindCrlf(s) == Some(i) && i + 2 <= |s| && Judge(fits, limit, false, s) == BadLength
    ensures Handle(fits, limit, false, Receiver(s, before)) == Receiver(s[i + 2..], before)
  {
    hide Judge, B.FindCrlf;
  }

  lemma HeaderDropped(fits: R.DoubleRange, limit: nat, json: string, before: seq<string>, m: nat)
    requires |Decimal(|json| + 2)| + 2 <= m <= |Frame(json)|
    requires Judge(fits, limit, false, Frame(json)[..m]) == BadLength
    ensures Handle(fits, limit, false, Receiver(Frame(json)[..m], before)) ==
            Receiver((json + "\r\n")[..m - |Decimal(|json| + 2)| - 2], before)
  {
    var d, body := Decimal(|json| + 2), json + "\r\n";
    var s, t := Frame(json)[..m], body[..m - |d| - 2];
    assert s == d + ("\r\n" + t);
    LengthLineCut(|json| + 2, t);
    BadLineDropped(fits, limit, s, |d|, before);
    hide *;
  }

  /** A frame in any chunks is handed on, once and as it was sent, exactly if its length
      is below the limit; otherwise nothing is handed on.  (The client would hand
      something on only if it could take the text itself for a length line.) */
  lemma FrameArrivesIff(fits: R.DoubleRange, limit: nat, skipBlank: bool, json: string, chunks: seq<string>)
    requires limit <= 0x7FFF_FFFF
    requires Concat(chunks) == Frame(json) && forall i :: 0 <= i < |chunks| ==> chunks[i] != []
    requires skipBlank || (B.NoChar(json, '\r') && Judge(fits, limit, false, json + "\r\n") == BadLength)
    ensures ReceiveAll(fits, limit, skipBlank, Receiver([], []), chunks).delivered ==
            if |json| + 2 < limit then [json + "\r\n"] else []
  {
    var f := Frame(json);
    assert f[..0] == [] && f[0..|f|] == f;
    if |json| + 2 < limit {
      FrameDelivered(fits, limit, skipBlank, json, [], 0, chunks);
    } else if skipBlank || |json| + 2 <= 0x7FFF_FFFF {
      StreamAlone(json);
      FrameStuck(fits, limit, skipBlank, json, "", [], 0, chunks);
    } else {
      FrameDropped(fits, limit, json, [], 0, chunks);
    }
  }

  lemma {:induction false} NoEmptyChunks(chunks: seq<string>)
    requires forall i :: 0 <= i < |chunks| ==> chunks[i] != []
    ensures |Concat(chunks)| >= |chunks|
  {
    if chunks != [] {
      NoEmptyChunks(chunks[1..]);
    }
  }

  // ------------------------------------------------------------- as written

  function Thrown(v: Verdict): Option<string> {
    match v
    case BadLength => Some("invalid message length")
    case TooLong => Some("message is too long")
    case _ => None
  }

  /** The length that a length line holds; None for a line that is no positive
      32-bit integer. */
  method ReadLength(fits: R.DoubleRange, text: string) returns (n: Option<nat>)
    requires !C.ParseText(fits, text).AssertionFails?
    ensures var p := C.ParseText(fits, text);
            n == if p.Tree? && p.root.Int32? && p.root.i32 > 0 then Some(p.root.i32) else None
  {
    var header := new D.Document();
    var err := header.Parse(fits, text);
    if err.Some? || !header.root.Int32? || header.root.i32 <= 0 {
      return None;
    }
    return Some(header.root.i32);
  }

  /** handleMessage of the server; what it hands on and what it throws. */
  method ServerHandleMessage(fits: R.DoubleRange, buffer: B.Buffer)
    returns (delivered: seq<string>, thrown: Option<string>)
    requires buffer.Valid()
    requires !Judge(fits, SERVER_LIMIT, true, buffer.Contents()).AssertionFails?
    modifies buffer
    ensures buffer.Valid()
    ensures Receiver(buffer.Contents(), delivered) ==
            Handle(fits, SERVER_LIMIT, true, Receiver(old(buffer.Contents()), []))
    ensures thrown == Thrown(Judge(fits, SERVER_LIMIT, true, old(buffer.Contents())))
  {
    hide B.FindCrlf, C.ParseText;
    delivered, thrown := [], None;
    ghost var s := buffer.Contents();
    ghost var verdict := Judge(fits, SERVER_LIMIT, true, s);
    while true
      invariant buffer.Valid() && thrown.None?
      invariant if delivered == [] then buffer.Contents() == s
                else verdict.Deliver? && delivered == [verdict.json] && buffer.Contents() == []
      decreases delivered == []
    {
      var crlf := buffer.FindCRLF();
      if crlf.None? {
        break;
      }
      if crlf.value == 0 {
        buffer.Retrieve(2);
        break;
      }
      var headerLen := crlf.value + 2;
      var text := buffer.Peek(headerLen);
      var length := ReadLength(fits, text);
      if length.None? {
        thrown := Some("invalid message length");
        return;
      }
      if length.value >= SERVER_LIMIT {
        thrown := Some("message is too long");
        return;
      }
      if buffer.ReadableBytes() < headerLen + length.value {
        break;
      }
      buffer.Retrieve(headerLen);
      var json := buffer.RetrieveAsString();
      delivered := delivered + [json];
    }
  }

  /** handleMessage of the client, which drops a bad length line. */
  method ClientHandleMessage(fits: R.DoubleRange, buffer: B.Buffer)
    returns (delivered: seq<string>, thrown: Option<string>)
    requires buffer.Valid()
    requires !Judge(fits, CLIENT_LIMIT, false, buffer.Contents()).AssertionFails?
    modifies buffer
    ensures buffer.Valid()
    ensures Receiver(buffer.Contents(), delivered) ==
            Handle(fits, CLIENT_LIMIT, false, Receiver(old(buffer.Contents()), []))
    ensures thrown == Thrown(Judge(fits, CLIENT_LIMIT, false, old(buffer.Contents())))
  {
    hide B.FindCrlf, C.ParseText;
    delivered, thrown := [], None;
    ghost var s := buffer.Contents();
    ghost var verdict := Judge(fits, CLIENT_LIMIT, false, s);
    while true
      invariant buffer.Valid() && thrown.None?
      invariant if delivered == [] then buffer.Contents() == s
                else verdict.Deliver? && delivered == [verdict.json] && buffer.Contents() == []
      decreases delivered == []
    {
      var crlf := buffer.FindCRLF();
      if crlf.None? {
        break;
      }
      var headerLen := crlf.value + 2;
      var text := buffer.Peek(headerLen);
      var length := ReadLength(fits, text);
      if length.None? {
        buffer.Retrieve(headerLen);
        thrown := Some("invalid message length");
        return;
      }
      if length.value >= CLIENT_LIMIT {
        thrown := Some("message is too long");
        return;
      }
      if buffer.ReadableBytes() < headerLen + length.value {
        break;
      }
      buffer.Retrieve(headerLen);
      var json := buffer.RetrieveAsString();
      delivered := delivered + [json];
    }
  }
}
