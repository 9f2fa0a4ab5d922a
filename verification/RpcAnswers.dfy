/** What responses do at the client: with a result or with an error, alone, in a batch
    and as a text. */
module RpcAnswers {
  import opened Text
  import opened Json
  import opened RoundTrip
  import opened RpcSpec
  import opened RpcChecks
  import opened Rpc
  import C = Codec
  import F = Framing
  import R = ReaderSpec
  import WS = WriterSpec

  // -------------------------------------------------------------- one response

  predicate Has(v: Value, k: string) { v.Object? && Find(v.members, k).Some? }

  predicate HasTyped(v: Value, k: string, kind: ValueType) { v.Object? && HasType(v.members, k, {kind}) }

  /** The conditions on a response, in the order in which the client tests them. */
  function ResponseChecks(v: Value): seq<Check> {
    [(SizeOf(v) == 3, "response should have 3 field"),
     (v.Object?, "assertion type_ == TYPE_OBJECT"),
     (Has(v, "id"), "missing at least one field"),
     (HasTyped(v, "id", Int32Type), "bad type of at least one field"),
     (Has(v, "jsonrpc"), "missing at least one field"),
     (HasTyped(v, "jsonrpc", StringType), "bad type of at least one field"),
     (Has(v, "jsonrpc") && Find(v.members, "jsonrpc") == Some(Str("2.0")), "unkonwn json rpc version"),
     (Has(v, "result") || Has(v, "error"), "missing at least one field"),
     (Has(v, "result") || HasTyped(v, "error", ObjectType), "bad type of at least one field")]
  }

  /** A response is refused with the message of the first condition it does not meet. */
  lemma ResponseRefusedBecause(v: Value)
    ensures match FirstFailed(ResponseChecks(v))
            case Some(m) => ValidateResponse(v) == Failed(m)
            case None => HasTyped(v, "id", Int32Type) && ValidateResponse(v) == Fine(Find(v.members, "id").value.i32)
  {
    var c := ResponseChecks(v);
    hide FirstFailed, Find, SizeOf;
    var k := if !c[0].0 then 0 else if !c[1].0 then 1 else if !c[2].0 then 2 else if !c[3].0 then 3
             else if !c[4].0 then 4 else if !c[5].0 then 5 else if !c[6].0 then 6 else if !c[7].0 then 7
             else if !c[8].0 then 8 else 9;
    FirstIs(c, k);
  }

  /** A valid response with this id: three members, in any order. */
  ghost predicate Responds(v: Value, id: int32) {
    && v.Object? && |v.members| == 3
    && Find(v.members, "id") == Some(Value.Int32(id)) && Find(v.members, "jsonrpc") == Some(Str("2.0"))
    && (Has(v, "result") || HasTyped(v, "error", ObjectType))
  }

  lemma RespondsIff(v: Value, id: int32)
    ensures ValidateResponse(v) == Fine(id) <==> Responds(v, id)
  {
    hide Find;
  }

  /** What the callback is to be given: the result, if there is one, and if not the
      error, marked as one. */
  function Outcome<Cb>(cb: Cb, v: Value): Invocation<Cb>
    requires Has(v, "result") || Has(v, "error")
  {
    if Has(v, "result") then Invocation(cb, Find(v.members, "result").value, false)
    else Invocation(cb, Find(v.members, "error").value, true)
  }

  /** The client without the callback of a call that was answered. */
  function Without<Cb>(c: Client<Cb>, id: int): Client<Cb> { Client(c.id, c.callbacks - {id}) }

  /** Exactly which responses call a callback, which one, and with what. */
  lemma CalledIff<Cb>(c: Client<Cb>, v: Value, call: Invocation<Cb>, d: Client<Cb>)
    ensures HandleResponse(c, v) == Fine((Some(call), d)) <==>
            exists id: int32 :: Responds(v, id) && id in c.callbacks
                                && call == Outcome(c.callbacks[id], v) && d == Without(c, id)
  {
    forall id: int32 ensures ValidateResponse(v) == Fine(id) <==> Responds(v, id) {
      RespondsIff(v, id);
    }
    if HandleResponse(c, v) == Fine((Some(call), d)) {
      var id := ValidateResponse(v).value;
      assert Responds(v, id);
    }
    hide ValidateResponse, Find;
  }

  /** An error response to a call under way, its members in any order: its callback is
      called with the error, marked as one, and is gone; no other is. */
  lemma ErrorReaches<Cb>(c: Client<Cb>, v: Value, id: int32, error: seq<Member>)
    requires v.Object? && |v.members| == 3 && Find(v.members, "jsonrpc") == Some(Str("2.0"))
    requires Find(v.members, "id") == Some(Value.Int32(id)) && id in c.callbacks
    requires Find(v.members, "error") == Some(Value.Object(error))
    ensures HandleResponse(c, v) ==
            Fine((Some(Invocation(c.callbacks[id], Value.Object(error), true)), Without(c, id)))
  {
    NoResult(v);
    RespondsIff(v, id);
    hide ValidateResponse, Find;
  }

  lemma FourKeys(ms: seq<Member>)
    requires Find(ms, "jsonrpc").Some? && Find(ms, "id").Some?
    requires Find(ms, "error").Some? && Find(ms, "result").Some?
    ensures |ms| >= 4
  {
    var i := FindAt(ms, "jsonrpc");
    var j := FindAt(ms, "id");
    var k := FindAt(ms, "error");
    var l := FindAt(ms, "result");
    hide Find;
    FourIndices(ms, i, j, k, l);
  }

  lemma FourIndices(ms: seq<Member>, i: nat, j: nat, k: nat, l: nat)
    requires i < |ms| && j < |ms| && k < |ms| && l < |ms|
    requires |ms[i].key| == 7 && |ms[j].key| == 2 && |ms[k].key| == 5 && |ms[l].key| == 6
    ensures |ms| >= 4
  {
    DistinctIndices(ms, {i, j, k, l});
    assert |{i, j, k, l}| == 4;
  }

  /** Three members leave no room for a result beside the error. */
  lemma NoResult(v: Value)
    requires v.Object? && |v.members| == 3
    requires Find(v.members, "jsonrpc").Some? && Find(v.members, "id").Some? && Find(v.members, "error").Some?
    ensures Find(v.members, "result") == None
  {
    if Find(v.members, "result").Some? {
      FourKeys(v.members);
    }
  }

  // ------------------------------------------------------------------ batches

  /** The ids are those of the responses, each but once, and these callbacks wait for
      them. */
  ghost predicate AllRespond<Cb>(c: Client<Cb>, es: seq<Value>, ids: seq<int32>, cbs: seq<Cb>) {
    && |ids| == |es| == |cbs|
    && (forall i :: 0 <= i < |es| ==>
          Responds(es[i], ids[i]) && ids[i] as int in c.callbacks && c.callbacks[ids[i] as int] == cbs[i])
    && forall i, j :: 0 <= i < j < |ids| ==> ids[i] != ids[j]
  }

  /** What the callbacks are to be given, in order. */
  function Outcomes<Cb>(cbs: seq<Cb>, es: seq<Value>): seq<Invocation<Cb>>
    requires |cbs| == |es| && forall i :: 0 <= i < |es| ==> Has(es[i], "result") || Has(es[i], "error")
  {
    if es == [] then [] else [Outcome(cbs[0], es[0])] + Outcomes(cbs[1..], es[1..])
  }

  function IdSet(ids: seq<int32>): set<int> { set i | 0 <= i < |ids| :: ids[i] as int }

  lemma WithoutEach<Cb>(callbacks: map<int, Cb>, ids: seq<int32>)
    ensures ids == [] ==> callbacks - IdSet(ids) == callbacks
    ensures ids != [] ==> (callbacks - {ids[0] as int}) - IdSet(ids[1..]) == callbacks - IdSet(ids)
  {
    if ids != [] {
      forall k: int ensures k in IdSet(ids) <==> k == ids[0] || k in IdSet(ids[1..]) {
        if k in IdSet(ids) {
          var i :| 0 <= i < |ids| && ids[i] == k;
          assert i > 0 ==> ids[1..][i - 1] == k;
        }
        if k in IdSet(ids[1..]) {
          var i :| 0 <= i < |ids[1..]| && ids[1..][i] == k;
          assert ids[i + 1] == k;
        }
      }
    }
  }

  lemma AllHave<Cb>(c: Client<Cb>, es: seq<Value>, ids: seq<int32>, cbs: seq<Cb>)
    requires AllRespond(c, es, ids, cbs)
    ensures |cbs| == |es| && forall i :: 0 <= i < |es| ==> Has(es[i], "result") || Has(es[i], "error")
  {
    hide Find;
  }

  lemma RestRespond<Cb>(c: Client<Cb>, es: seq<Value>, ids: seq<int32>, cbs: seq<Cb>)
    requires AllRespond(c, es, ids, cbs) && es != []
    ensures AllRespond(Without(c, ids[0]), es[1..], ids[1..], cbs[1..])
    ensures Responds(es[0], ids[0]) && ids[0] as int in c.callbacks && c.callbacks[ids[0] as int] == cbs[0]
  {
    hide Responds;
  }

  lemma FirstAnswer<Cb>(c: Client<Cb>, v: Value, id: int32, cb: Cb)
    requires Responds(v, id) && id as int in c.callbacks && c.callbacks[id as int] == cb
    ensures HandleResponse(c, v) == Fine((Some(Outcome(cb, v)), Without(c, id)))
  {
    CalledIff(c, v, Outcome(cb, v), Without(c, id));
  }

  /** Results and errors in a batch call their callbacks in order, up to the first
      response that is refused, which ends it. */
  lemma {:induction false} BatchAnswers<Cb>(c: Client<Cb>, es: seq<Value>, ids: seq<int32>, cbs: seq<Cb>,
                                                  bad: seq<Value>)
    requires AllRespond(c, es, ids, cbs)
    requires bad != [] ==> HandleResponse(c, bad[0]).Failed?
    ensures (AllHave(c, es, ids, cbs);
             HandleEach(c, es + bad) ==
             Answer(Client(c.id, c.callbacks - IdSet(ids)), Outcomes(cbs, es),
                    if bad == [] then None else Some(HandleResponse(c, bad[0]).message)))
    decreases |es|
  {
    AllHave(c, es, ids, cbs);
    if es == [] {
      assert es + bad == bad;
    } else {
      assert (es + bad)[0] == es[0] && (es + bad)[1..] == es[1..] + bad;
      RestRespond(c, es, ids, cbs);
      FirstAnswer(c, es[0], ids[0], cbs[0]);
      if bad != [] {
        FailsAlways(c, Without(c, ids[0]), bad[0]);
      }
      BatchAnswers(Without(c, ids[0]), es[1..], ids[1..], cbs[1..], bad);
    }
    WithoutEach(c.callbacks, ids);
    hide HandleResponse, Responds, Outcome, IdSet, AllRespond, Has;
  }

  /** Whether a response is refused does not depend on the calls under way. */
  lemma FailsAlways<Cb>(c: Client<Cb>, d: Client<Cb>, v: Value)
    requires HandleResponse(c, v).Failed?
    ensures HandleResponse(d, v).Failed? && HandleResponse(d, v).message == HandleResponse(c, v).message
  {
    hide ValidateResponse, Find;
  }

  // -------------------------------------------------------------------- texts

  /** What a tree is to the server: a request, a notification, which is refused, a batch,
      or none of these. */
  function AsRequest(reg: Registry, v: Value): Dispatch {
    if v.Object? then
      if Find(v.members, "id").None? then Notification(Failed("missing at least one filed"))
      else Single(HandleRequest(reg, v.members))
    else if v.Array? then
      Batch(if v.elems == [] then Dispatched([], Some("batch request is empty")) else DispatchEach(reg, v.elems))
    else Refused("request should be json object or array")
  }

  /** And to the client: one response, a batch of them, or an exception. */
  function AsResponse<Cb>(c: Client<Cb>, v: Value): Answer<Cb> {
    if v.Object? then HandleOne(c, v)
    else if !v.Array? then Answer(c, [], Some("response should be json object or array"))
    else if v.elems == [] then Answer(c, [], Some("batcj response is empty"))
    else HandleEach(c, v.elems)
  }

  lemma TextRead<Cb>(fits: R.DoubleRange, reg: Registry, c: Client<Cb>, text: string, v: Value)
    requires C.ParseText(fits, text) == C.Tree(v)
    ensures HandleRequestText(fits, reg, text) == AsRequest(reg, v)
    ensures HandleResponseText(fits, c, text) == AsResponse(c, v)
  {
    if v.Object? {
      NotificationsFail(v.members);
    }
    hide C.ParseText, Find, HandleRequest, DispatchEach, ValidateNotify, HandleOne, HandleEach;
  }

  /** A text that is no JSON is refused at either end. */
  lemma BadTextRefused<Cb>(fits: R.DoubleRange, reg: Registry, c: Client<Cb>, text: string)
    requires C.ParseText(fits, text).Error?
    ensures HandleRequestText(fits, reg, text) == Refused("parse failed")
    ensures HandleResponseText(fits, c, text) == Answer(c, [], Some("response parse error"))
  {
    hide C.ParseText;
  }

  /** The text of a tree does what the normalised tree does, at either end. */
  lemma TreeTextRead<Cb>(fits: R.DoubleRange, reg: Registry, c: Client<Cb>, v: Value)
    requires Sendable(v)
    ensures var text := WS.TreeText(v) + "\r\n";
            && HandleRequestText(fits, reg, text) == AsRequest(reg, Normal(v))
            && HandleResponseText(fits, c, text) == AsResponse(c, Normal(v))
  {
    var text := WS.TreeText(v) + "\r\n";
    C.TreeRoundTrip(fits, "", v, "\r\n");
    assert "" + text == text;
    hide *;
    TextRead(fits, reg, c, text, Normal(v));
  }

  /** The text of a response that the server sends, in any chunks: it is handed on if it
      is within the limit, and then does what the normalised tree does. */
  lemma ResponseArrives<Cb>(fits: R.DoubleRange, c: Client<Cb>, v: Value, chunks: seq<string>)
    requires Sendable(v) && v.Object? && Chunked(chunks, WS.TreeText(v))
    ensures var texts := AtClient(fits, chunks);
            if F.InLimit(WS.TreeText(v), F.CLIENT_LIMIT) then
              |texts| == 1 && HandleResponseText(fits, c, texts[0]) == HandleOne(c, Normal(v))
            else texts == []
  {
    TreeCrosses(fits, F.CLIENT_LIMIT, false, v, chunks);
    ReplyAsObject(fits, c, WS.TreeText(v) + "\r\n", Normal(v));
    hide HandleOne, HandleResponseText, F.InLimit, F.ReceiveAll, Sendable;
  }

  /** An error response in any chunks reaches its callback, marked as an error. */
  lemma ErrorArrives<Cb>(fits: R.DoubleRange, c: Client<Cb>, v: Value, id: int32, error: seq<Member>,
                         chunks: seq<string>)
    requires Sendable(v) && v.Object? && |v.members| == 3 && id in c.callbacks
    requires Find(v.members, "jsonrpc") == Some(Str("2.0")) && Find(v.members, "id") == Some(Value.Int32(id))
    requires Find(v.members, "error") == Some(Value.Object(error))
    requires Chunked(chunks, WS.TreeText(v)) && F.InLimit(WS.TreeText(v), F.CLIENT_LIMIT)
    ensures Answers(fits, c, AtClient(fits, chunks),
                    Answer(Without(c, id),
                           [Invocation(c.callbacks[id], Value.Object(NormalMembers(error)), true)], None))
  {
    ResponseArrives(fits, c, v, chunks);
    FindNormal(v.members, "jsonrpc");
    FindNormal(v.members, "id");
    FindNormal(v.members, "error");
    assert Normal(v) == Value.Object(NormalMembers(v.members));
    ErrorReaches(c, Normal(v), id, NormalMembers(error));
    hide HandleResponse, HandleResponseText, F.InLimit, Sendable, Find, AtClient, Chunked;
  }
}
