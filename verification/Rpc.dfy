/** Calls from one end to the other: trees, texts and frames together. */
module Rpc {
  import opened Text
  import opened Json
  import opened RpcSpec
  import opened RoundTrip
  import R = ReaderSpec
  import B = Builder
  import Buffer
  import C = Codec
  import WS = WriterSpec
  import F = Framing
  import W = Writer

  // ------------------------------------------------------------------ texts

  /** handleRequest: what the server does with a text that was delivered. */
  datatype Dispatch =
    | Single(outcome: Checked<Call>)
    | Notification(verdict: Checked<()>)
    | Batch(dispatched: Dispatched)
    | Refused(message: string)
    | AssertionFails

  function HandleRequestText(fits: R.DoubleRange, reg: Registry, json: string): Dispatch {
    match C.ParseText(fits, json)
    case AssertionFails => Dispatch.AssertionFails
    case Error(_) => Refused("parse failed")
    case Tree(Object(ms)) =>
      if Find(ms, "id").None? then Notification(ValidateNotify(ms)) else Single(HandleRequest(reg, ms))
    case Tree(Array(es)) => Batch(DispatchBatch(reg, es))
    case Tree(_) => Refused("request should be json object or array")
  }

  /** What the client made of a text: its state, the callbacks it called and the
      exception that ended it. */
  datatype Answer<Cb> = Answer(client: Client<Cb>, calls: seq<Invocation<Cb>>, thrown: Option<string>)

  function HandleOne<Cb>(c: Client<Cb>, response: Value): Answer<Cb> {
    match HandleResponse(c, response)
    case Failed(m) => Answer(c, [], Some(m))
    case Fine((call, d)) => Answer(d, if call.Some? then [call.value] else [], None)
  }

  /** The responses of a batch, one after another up to the first bad one. */
  function HandleEach<Cb>(c: Client<Cb>, es: seq<Value>): Answer<Cb>
    decreases |es|
  {
    if es == [] then Answer(c, [], None)
    else
      var a := HandleOne(c, es[0]);
      if a.thrown.Some? then a
      else
        var b := HandleEach(a.client, es[1..]);
        Answer(b.client, a.calls + b.calls, b.thrown)
  }

  /** handleResponse. */
  function HandleResponseTree<Cb>(c: Client<Cb>, p: C.Outcome): Answer<Cb> {
    match p
    case Tree(Object(ms)) => HandleOne(c, Value.Object(ms))
    case Tree(Array(es)) =>
      if es == [] then Answer(c, [], Some("batcj response is empty")) else HandleEach(c, es)
    case Tree(_) => Answer(c, [], Some("response should be json object or array"))
    case _ => Answer(c, [], Some("response parse error"))
  }

  function HandleResponseText<Cb>(fits: R.DoubleRange, c: Client<Cb>, json: string): Answer<Cb> {
    HandleResponseTree(c, C.ParseText(fits, json))
  }

  // -------------------------------------------------------------- the client

  class RpcClient<Cb(==)> {
    var id: int64
    var callbacks: map<int, Cb>

    ghost function State(): Client<Cb>
      reads this
    {
      Client(id, callbacks)
    }

    constructor ()
      ensures State() == Client(0, map[])
    {
      id, callbacks := 0, map[];
    }

    /** sendCall and sendRequest; the message is what goes to the connection.  The
        first precondition is the assertion of addMember. */
    method SendCall(call: seq<Member>, cb: Cb) returns (message: string)
      requires Find(call, "id").None? && id < 0x7FFF_FFFF_FFFF_FFFF
      modifies this
      ensures State() == Registered(old(State()), cb)
      ensures message == F.Frame(WS.TreeText(Value.Object(WithId(call, old(id)))))
    {
      var request := Value.Object(call + [Member("id", Value.Int64(id))]);
      callbacks := callbacks[id as int := cb];
      id := id + 1;
      message := SendTree(request);
    }

    /** handleSingleResponse: the callback that is called, or the exception. */
    method HandleSingleResponse(response: Value)
      returns (call: Option<Invocation<Cb>>, thrown: Option<string>)
      modifies this
      ensures HandleOne(old(State()), response) ==
              Answer(State(), if call.Some? then [call.value] else [], thrown)
    {
      call, thrown := None, None;
      match ValidateResponse(response) {
        case Failed(m) =>
          thrown := Some(m);
        case Fine(key) =>
          if key !in callbacks {
            return;
          }
          var result := Find(response.members, "result");
          if result.Some? {
            call := Some(Invocation(callbacks[key], result.value, false));
          } else {
            var error := Find(response.members, "error");
            call := Some(Invocation(callbacks[key], error.value, true));
          }
          callbacks := callbacks - {key as int};
      }
    }

    /** handleResponse on a tree that was read. */
    method HandleResponse(response: Value) returns (calls: seq<Invocation<Cb>>, thrown: Option<string>)
      modifies this
      ensures HandleResponseTree(old(State()), C.Tree(response)) == Answer(State(), calls, thrown)
    {
      hide HandleOne;
      calls, thrown := [], None;
      match response {
        case Object(_) =>
          var call;
          call, thrown := HandleSingleResponse(response);
          if call.Some? {
            calls := [call.value];
          }
        case Array(es) =>
          if es == [] {
            thrown := Some("batcj response is empty");
            return;
          }
          ghost var c := State();
          ghost var i := 0;
          var todo := es;
          while todo != [] && thrown.None?
            invariant thrown.None? ==>
                        var b := HandleEach(State(), todo);
                        HandleEach(c, es) == Answer(b.client, calls + b.calls, b.thrown)
            invariant thrown.Some? ==> HandleEach(c, es) == Answer(State(), calls, thrown)
            decreases |todo|
          {
            ghost var b := HandleEach(State(), todo);
            ghost var a := HandleOne(State(), todo[0]);
            ghost var before := calls;
            var call;
            call, thrown := HandleSingleResponse(todo[0]);
            if call.Some? {
              calls := calls + [call.value];
            }
            assert calls == before + a.calls;
            if thrown.None? {
              Glue(before, a.calls, HandleEach(a.client, todo[1..]).calls);
            }
            todo := todo[1..];
          }
          assert calls + [] == calls;
        case _ =>
          thrown := Some("response should be json object or array");
      }
    }
  }

  /** sendRequest and sendResponse: the frame of a tree's text. */
  method SendTree(v: Value) returns (message: string)
    ensures message == F.Frame(WS.TreeText(v))
  {
    var writer := new W.Writer();
    W.WriteTo(v, writer);
    assert writer.os == WS.TreeText(v) by {
      WS.WriteTree(v);
      WS.TreePrints(WS.BLANK, v);
    }
    message := Decimal(|writer.os| + 2) + ("\r\n" + (writer.os + "\r\n"));
  }

  // -------------------------------------------------------- trees to be sent

  predicate Sendable(v: Value) { Writable(v) && B.DistinctKeys(v) }

  lemma RequestSendable(ms: seq<Member>, id: int64)
    requires Sendable(Value.Object(ms)) && Find(ms, "id").None?
    ensures Sendable(Value.Object(WithId(ms, id)))
  {
    FindHas(ms, "id");
    var r := WithId(ms, id);
    assert PlainKey("id");
    assert forall i :: 0 <= i < |ms| ==> r[i] == ms[i];
  }

  lemma PlainNames()
    ensures PlainKey("jsonrpc") && PlainKey("id") && PlainKey("result")
  {
  }

  lemma ResponseSendable(request: seq<Member>, id: Value, result: Value)
    requires Find(request, "id") == Some(id) && Sendable(id) && Sendable(result)
    ensures Sendable(Response(request, result))
  {
    PlainNames();
    var a, b := Member("jsonrpc", Str("2.0")), Member("id", id);
    var c := Member("result", result);
    assert Response(request, result) == Value.Object([a, b, c]);
    ThreeSendable(a, b, c);
    hide *;
  }

  lemma ThreeSendable(a: Member, b: Member, c: Member)
    requires PlainKey(a.key) && PlainKey(b.key) && PlainKey(c.key)
    requires Sendable(a.value) && Sendable(b.value) && Sendable(c.value)
    requires a.key != b.key && a.key != c.key && b.key != c.key
    ensures Sendable(Value.Object([a, b, c]))
  {
    hide PlainKey;
  }

  // ------------------------------------------------------ texts hold no CR

  lemma CharNoCr(c: char)
    ensures Buffer.NoChar(WS.CharText(c), '\r')
  {
    if c as int < 0x20 {
      HexDigitOf(c as int / 16);
      HexDigitOf(c as int % 16);
    }
  }

  lemma {:induction false} CharsNoCr(s: string)
    ensures Buffer.NoChar(WS.CharsText(s), '\r')
  {
    if s != [] {
      CharNoCr(s[0]);
      CharsNoCr(s[1..]);
    }
  }

  lemma ScalarNoCr(v: Value)
    requires Writable(v) && !v.Array? && !v.Object?
    ensures Buffer.NoChar(WS.TreeText(v), '\r')
  {
    if v.String? {
      CharsNoCr(v.s);
    }
  }

  /** The text of a tree has no CR, so it holds no end of a line. */
  lemma {:induction false} TextNoCr(v: Value)
    requires Writable(v)
    ensures Buffer.NoChar(WS.TreeText(v), '\r')
    decreases v, 1
  {
    match v
    case Array(es) => ElementsNoCr(es);
    case Object(ms) => MembersNoCr(ms);
    case _ => ScalarNoCr(v);
  }

  lemma {:induction false} ElementsNoCr(es: seq<Value>)
    requires forall i :: 0 <= i < |es| ==> Writable(es[i])
    ensures Buffer.NoChar(WS.ElementsText(es), '\r')
    decreases es, 0
  {
    hide Writable;
    if es != [] {
      TextNoCr(es[0]);
      ElementsNoCr(es[1..]);
    }
  }

  lemma {:induction false} MembersNoCr(ms: seq<Member>)
    requires forall i :: 0 <= i < |ms| ==> PlainKey(ms[i].key) && Writable(ms[i].value)
    ensures Buffer.NoChar(WS.MembersText(ms), '\r')
    decreases ms, 0
  {
    hide Writable;
    if ms != [] {
      TextNoCr(ms[0].value);
      MembersNoCr(ms[1..]);
    }
  }

  // --------------------------------------------------------------- end to end

  /** A text that is no positive integer is no length line. */
  lemma NoLengthLine(fits: R.DoubleRange, limit: nat, json: string, v: Value)
    requires Buffer.NoChar(json, '\r') && C.ParseText(fits, json + "\r\n") == C.Tree(v) && !v.Int32?
    ensures F.Judge(fits, limit, false, json + "\r\n") == F.BadLength
  {
    Buffer.LineFound(json, "");
    assert json + ("\r\n" + "") == json + "\r\n";
    assert (json + "\r\n")[..|json| + 2] == json + "\r\n";
  }

  /** A sendable tree crosses the connection exactly if its text is within the limit:
      then its frame, in any chunks, hands on one text, and that text reads as the
      normalised tree; otherwise nothing is handed on. */
  lemma TreeCrosses(fits: R.DoubleRange, limit: nat, skipBlank: bool, v: Value, chunks: seq<string>)
    requires Sendable(v) && limit <= 0x7FFF_FFFF && (skipBlank || !Normal(v).Int32?)
    requires Concat(chunks) == F.Frame(WS.TreeText(v))
    requires forall i :: 0 <= i < |chunks| ==> chunks[i] != []
    ensures var text := WS.TreeText(v) + "\r\n";
            && F.ReceiveAll(fits, limit, skipBlank, F.Receiver([], []), chunks).delivered ==
               (if F.InLimit(WS.TreeText(v), limit) then [text] else [])
            && C.ParseText(fits, text) == C.Tree(Normal(v))
  {
    var text := WS.TreeText(v);
    C.TreeRoundTrip(fits, "", v, "\r\n");
    assert "" + (text + "\r\n") == text + "\r\n";
    hide *;
    if !skipBlank {
      TextNoCr(v);
      NoLengthLine(fits, limit, text, Normal(v));
    }
    F.FrameArrivesIff(fits, limit, skipBlank, text, chunks);
    InLimitIff(text, limit);
  }

  lemma InLimitIff(json: string, limit: nat)
    requires limit <= 0x7FFF_FFFF
    ensures F.InLimit(json, limit) <==> |json| + 2 < limit
  {
  }

  /** The response to the call ms with this id, as it arrived. */
  function Reply(ms: seq<Member>, id: int64, result: Value): Value
    requires Find(ms, "id").None?
  {
    ArrivedFinds(ms, id, "id");
    Response(Arrived(ms, id), result)
  }

  /** The text that sendCall sends for a call. */
  function RequestText(ms: seq<Member>, id: int64): string {
    WS.TreeText(Value.Object(WithId(ms, id)))
  }

  function ReplyText(ms: seq<Member>, id: int64, result: Value): string
    requires Find(ms, "id").None?
  {
    WS.TreeText(Reply(ms, id, result))
  }

  /** The frame of a text, cut into some chunks. */
  predicate Chunked(chunks: seq<string>, text: string) {
    Concat(chunks) == F.Frame(text) && forall i :: 0 <= i < |chunks| ==> chunks[i] != []
  }

  /** What the server, and the client, hands on from these chunks. */
  function AtServer(fits: R.DoubleRange, chunks: seq<string>): seq<string> {
    F.ReceiveAll(fits, F.SERVER_LIMIT, true, F.Receiver([], []), chunks).delivered
  }

  function AtClient(fits: R.DoubleRange, chunks: seq<string>): seq<string> {
    F.ReceiveAll(fits, F.CLIENT_LIMIT, false, F.Receiver([], []), chunks).delivered
  }

  /** A stub-shaped call in any chunks.  It is handed on if its text is within the
      limit; then the server calls the procedure with the normalised request exactly
      if no argument is an Int64 that fits an int32. */
  lemma CallArrives(fits: R.DoubleRange, reg: Registry, id: int64, ms: seq<Member>,
                    service: string, verb: string, chunks: seq<string>)
    requires StubShaped(reg, ms, service, verb) && Sendable(Value.Object(ms))
    requires Chunked(chunks, RequestText(ms, id))
    ensures var texts := AtServer(fits, chunks);
            if F.InLimit(RequestText(ms, id), F.SERVER_LIMIT) then
              |texts| == 1 && HandleRequestText(fits, reg, texts[0]) ==
              Single(if NoneNarrows(ms, reg[service][verb]) then Fine(Call(service, verb, Arrived(ms, id)))
                     else Failed("params name or type mismatch"))
            else texts == []
  {
    var v := Value.Object(WithId(ms, id));
    RequestSendable(ms, id);
    TreeCrosses(fits, F.SERVER_LIMIT, true, v, chunks);
    CallAccepted(reg, ms, id, service, verb);
    ArrivedFinds(ms, id, "id");
    assert Normal(v) == Value.Object(Arrived(ms, id));
    ArrivedAsObject(fits, reg, WS.TreeText(v) + "\r\n", Arrived(ms, id));
    hide HandleRequestText, HandleRequest, ParamsMatch, NoneNarrows, Find, F.ReceiveAll, F.InLimit;
  }

  lemma ArrivedAsObject(fits: R.DoubleRange, reg: Registry, text: string, ms: seq<Member>)
    requires C.ParseText(fits, text) == C.Tree(Value.Object(ms)) && Find(ms, "id").Some?
    ensures HandleRequestText(fits, reg, text) == Single(HandleRequest(reg, ms))
  {
  }

  /** The procedure's answer in any chunks.  It is handed on if its text is within the
      limit; then it calls that call's callback, once, with the normalised result, and
      no other, exactly if the id is an int32, and is refused otherwise.  The client
      may have sent more calls and got other answers in between. */
  lemma AnswerArrives<Cb>(fits: R.DoubleRange, c: Client<Cb>, ms: seq<Member>, id: int64,
                          result: Value, chunks: seq<string>)
    requires Find(ms, "id").None? && id in c.callbacks && Sendable(result)
    requires Chunked(chunks, ReplyText(ms, id, result))
    ensures var texts := AtClient(fits, chunks);
            if F.InLimit(ReplyText(ms, id, result), F.CLIENT_LIMIT) then
              |texts| == 1 && HandleResponseText(fits, c, texts[0]) ==
              if InInt32(id) then
                Answer(c.(callbacks := c.callbacks - {id as int}),
                       [Invocation(c.callbacks[id], Normal(result), false)], None)
              else Answer(c, [], Some("bad type of at least one field"))
            else texts == []
  {
    var v := Reply(ms, id, result);
    ArrivedFinds(ms, id, "id");
    ResponseSendable(Arrived(ms, id), Normal(Value.Int64(id)), result);
    TreeCrosses(fits, F.CLIENT_LIMIT, false, v, chunks);
    ResponseReaches(c, Arrived(ms, id), id, result);
    ReplyAsObject(fits, c, WS.TreeText(v) + "\r\n", Normal(v));
    hide HandleResponseText, HandleResponse, Find, F.ReceiveAll, F.InLimit;
  }

  lemma ReplyAsObject<Cb>(fits: R.DoubleRange, c: Client<Cb>, text: string, v: Value)
    requires C.ParseText(fits, text) == C.Tree(v) && v.Object?
    ensures HandleResponseText(fits, c, text) == HandleOne(c, v)
  {
  }

  /** The server was handed one text, and makes this call of it. */
  ghost predicate Calls(fits: R.DoubleRange, reg: Registry, texts: seq<string>, call: Call) {
    |texts| == 1 && HandleRequestText(fits, reg, texts[0]) == Single(Fine(call))
  }

  /** The client was handed one text, and makes this of it. */
  ghost predicate Answers<Cb>(fits: R.DoubleRange, c: Client<Cb>, texts: seq<string>, a: Answer<Cb>) {
    |texts| == 1 && HandleResponseText(fits, c, texts[0]) == a
  }

  /** The two ways together, for the call that sendCall has just registered: exactly
      when the procedure is called, and exactly when its answer reaches the callback. */
  lemma EndToEnd<Cb>(fits: R.DoubleRange, reg: Registry, c: Client<Cb>, cb: Cb, ms: seq<Member>,
                     service: string, verb: string, result: Value,
                     there: seq<string>, back: seq<string>)
    requires StubShaped(reg, ms, service, verb)
    requires Sendable(Value.Object(ms)) && Sendable(result) && c.id < 0x7FFF_FFFF_FFFF_FFFF
    requires Chunked(there, RequestText(ms, c.id)) && Chunked(back, ReplyText(ms, c.id, result))
    ensures Calls(fits, reg, AtServer(fits, there), Call(service, verb, Arrived(ms, c.id))) <==>
            F.InLimit(RequestText(ms, c.id), F.SERVER_LIMIT) && NoneNarrows(ms, reg[service][verb])
    ensures Answers(fits, Registered(c, cb), AtClient(fits, back),
                    Answer(Client(c.id + 1, c.callbacks - {c.id as int}),
                           [Invocation(cb, Normal(result), false)], None)) <==>
            F.InLimit(ReplyText(ms, c.id, result), F.CLIENT_LIMIT) && InInt32(c.id)
  {
    hide HandleRequestText, HandleResponseText, ParamsMatch, NoneNarrows, Find, F.InLimit,
      AtServer, AtClient, RequestText, ReplyText, Chunked;
    var d := Registered(c, cb);
    CallArrives(fits, reg, c.id, ms, service, verb, there);
    AnswerArrives(fits, d, ms, c.id, result, back);
    assert d.callbacks - {c.id as int} == c.callbacks - {c.id as int};
  }

  // -------------------------------------------------------------- many calls

  /** What happens at a client: it sends a call, or a response comes. */
  datatype Act<Cb> = Sends(callback: Cb) | Gets(response: Value)

  /** The client after some acts, and the ids of the calls whose callbacks were
      called. */
  function Run<Cb>(c: Client<Cb>, acts: seq<Act<Cb>>): (Client<Cb>, seq<int>)
    requires c.id + |acts| < 0x8000_0000_0000_0000
    decreases |acts|
  {
    if acts == [] then (c, [])
    else match acts[0]
         case Sends(cb) => Run(Registered(c, cb), acts[1..])
         case Gets(response) =>
           var a := HandleOne(c, response);
           var (d, ids) := Run(a.client, acts[1..]);
           (d, if a.calls == [] then ids else [ValidateResponse(response).value] + ids)
  }

  /** The calls that wait for an answer are the calls sent, less those answered. */
  ghost predicate Waiting<Cb>(c: Client<Cb>, answered: set<int>) {
    forall k :: k in c.callbacks <==> 0 <= k < c.id && k !in answered
  }

  predicate Distinct(ids: seq<int>) { forall i, j :: 0 <= i < j < |ids| ==> ids[i] != ids[j] }

  /** A response calls no callback, and nothing changes, or it calls and forgets the one
      of its id. */
  lemma OneAnswer<Cb>(c: Client<Cb>, response: Value)
    ensures var a := HandleOne(c, response);
            if a.calls == [] then a.client == c
            else
              && ValidateResponse(response).Fine? && ValidateResponse(response).value in c.callbacks
              && a.client == c.(callbacks := c.callbacks - {ValidateResponse(response).value as int})
  {
    hide ValidateResponse, Find;
  }

  lemma {:induction false} RunOnce<Cb>(c: Client<Cb>, answered: set<int>, acts: seq<Act<Cb>>)
    requires c.id + |acts| < 0x8000_0000_0000_0000
    requires 0 <= c.id && Waiting(c, answered) && forall k :: k in answered ==> k < c.id
    ensures var (d, ids) := Run(c, acts);
            && Distinct(ids) && (forall k :: k in ids ==> 0 <= k < d.id && k !in answered)
            && (forall k :: k in answered ==> k < d.id) && 0 <= d.id
            && Waiting(d, answered + (set k | k in ids))
    decreases |acts|
  {
    if acts != [] {
      match acts[0]
      case Sends(cb) =>
        RunOnce(Registered(c, cb), answered, acts[1..]);
      case Gets(response) =>
        OneAnswer(c, response);
        hide HandleOne, ValidateResponse;
        var a := HandleOne(c, response);
        if a.calls == [] {
          RunOnce(c, answered, acts[1..]);
          assert a.client == c;
        } else {
          var k: int := ValidateResponse(response).value;
          assert k in c.callbacks && a.client == c.(callbacks := c.callbacks - {k});
          RunOnce(a.client, answered + {k}, acts[1..]);
          var ids := Run(a.client, acts[1..]).1;
          assert (answered + {k}) + (set j | j in ids) == answered + (set j | j in [k] + ids);
        }
    }
  }

  /** Over any run, in whatever order responses come, a callback is called at most
      once, only after its call was sent, and the callbacks still held are those of
      the calls that have no answer yet. */
  lemma CallbacksOnce<Cb>(acts: seq<Act<Cb>>)
    requires |acts| < 0x8000_0000_0000_0000
    ensures var (d, ids) := Run(Client(0, map[]), acts);
            Distinct(ids) && Waiting(d, set k | k in ids) && forall k :: k in ids ==> 0 <= k < d.id
  {
    var ids := Run(Client<Cb>.Client(0, map[]), acts).1;
    RunOnce(Client<Cb>.Client(0, map[]), {}, acts);
    assert {} + (set k | k in ids) == set k | k in ids;
  }
}
