/** JSON-RPC 2.0 as the client and server apply it to trees. */
module RpcSpec {
  import opened Text
  import opened Json
  import opened RoundTrip
  import B = Builder

  datatype ValueType = NullType | BoolType | Int32Type | Int64Type | DoubleType | StringType | ArrayType | ObjectType

  function TypeOf(v: Value): ValueType {
    match v
    case Null => NullType
    case Bool(_) => BoolType
    case Int32(_) => Int32Type
    case Int64(_) => Int64Type
    case Double(_) => DoubleType
    case String(_) => StringType
    case Array(_) => ArrayType
    case Object(_) => ObjectType
  }

  /** findMember: the value under the first member with the key. */
  function Find(ms: seq<Member>, k: string): Option<Value> {
    if ms == [] then None
    else if ms[0].key == k then Some(ms[0].value)
    else Find(ms[1..], k)
  }

  function SizeOf(v: Value): nat {
    match v
    case Array(es) => |es|
    case Object(ms) => |ms|
    case _ => 1
  }

  function Str(s: string): Value { Value.String(s) }

  // ----------------------------------------------------------------- server

  /** A registered procedure: the names and types of its parameters. */
  datatype Param = Param(name: string, kind: ValueType)
  type Procedure = seq<Param>
  type Service = map<string, Procedure>
  type Registry = map<string, Service>

  datatype Checked<+T> = Fine(value: T) | Failed(message: string)

  /** findValue: a member of one of the given types. */
  function FindValue(ms: seq<Member>, k: string, kinds: set<ValueType>): Checked<Value> {
    match Find(ms, k)
    case None => Failed("missing at least one filed")
    case Some(v) => if TypeOf(v) in kinds then Fine(v) else Failed("bad type ")
  }

  function ValidateRequest(ms: seq<Member>): Checked<()> {
    match FindValue(ms, "id", {StringType, Int32Type, Int64Type})
    case Failed(m) => Failed(m)
    case Fine(_) =>
      match FindValue(ms, "jsonrpc", {StringType})
      case Failed(m) => Failed(m)
      case Fine(version) =>
        if version != Str("2.0") then Failed("jsonrpc version is unknown")
        else match FindValue(ms, "method", {StringType})
             case Failed(m) => Failed(m)
             case Fine(verb) =>
               if verb == Str("rpc.") then Failed("method name is internal used")
               else if |ms| != 3 + (if Find(ms, "params").Some? then 1 else 0) then
                 Failed("unexpected field")
               else Fine(())
  }

  /** Procedure::validateGeneric. */
  function ParamsMatch(ms: seq<Member>, p: Procedure): bool {
    match Find(ms, "params")
    case None => p == []
    case Some(params) =>
      if SizeOf(params) == 0 || SizeOf(params) != |p| then false
      else match params
           case Array(es) => forall i :: 0 <= i < |p| ==> TypeOf(es[i]) == p[i].kind
           case Object(vs) =>
             forall i :: 0 <= i < |p| ==>
               Find(vs, p[i].name).Some? && TypeOf(Find(vs, p[i].name).value) == p[i].kind
           case _ => false
  }

  /** The call that a request makes: which procedure, with which request. */
  datatype Call = Call(service: string, verb: string, request: seq<Member>)

  /** handleSingleRequest up to the user's procedure. */
  function HandleRequest(reg: Registry, ms: seq<Member>): Checked<Call> {
    match ValidateRequest(ms)
    case Failed(m) => Failed(m)
    case Fine(_) =>
      var name := Find(ms, "method").value.s;
      var dot := IndexOf(name, '.');
      if dot == |name| then Failed("missing service Name in method")
      else if name[..dot] !in reg then Failed("serviceName not found")
      else if name[dot + 1..] == "" then Failed("missing method name in method")
      else if name[dot + 1..] !in reg[name[..dot]] then Failed("method not found")
      else if !ParamsMatch(ms, reg[name[..dot]][name[dot + 1..]]) then
        Failed("params name or type mismatch")
      else Fine(Call(name[..dot], name[dot + 1..], ms))
  }

  /** validateNotify, to which handleSingleNotify passes a request without an id. */
  function ValidateNotify(ms: seq<Member>): Checked<()> {
    match FindValue(ms, "id", {StringType, Int32Type, Int64Type})
    case Failed(m) => Failed(m)
    case Fine(_) =>
      match FindValue(ms, "jsonrpc", {StringType})
      case Failed(m) => Failed(m)
      case Fine(version) =>
        if version != Str("2.0") then Failed("jsonrpc version is unknown")
        else match FindValue(ms, "method", {StringType})
             case Failed(m) => Failed(m)
             case Fine(verb) =>
               if verb == Str("rpc.") then Failed("method name is internal used")
               else if |ms| != 2 + (if Find(ms, "params").Some? then 1 else 0) then
                 Failed("unexpected field")
               else Fine(())
  }

  /** What a batch led to: the calls made, and the exception that ended it. */
  datatype Dispatched = Dispatched(calls: seq<Call>, thrown: Option<string>)

  /** The loop of handleBatchRequests. */
  function DispatchEach(reg: Registry, es: seq<Value>): Dispatched
    decreases |es|
  {
    if es == [] then Dispatched([], None)
    else if !es[0].Object? then Dispatched([], Some("request json is bad"))
    else
      var ms := es[0].members;
      if Find(ms, "id").None? then
        match ValidateNotify(ms)
        case Failed(m) => Dispatched([], Some(m))
        case Fine(_) => DispatchEach(reg, es[1..])
      else
        match HandleRequest(reg, ms)
        case Failed(m) => Dispatched([], Some(m))
        case Fine(call) =>
          var rest := DispatchEach(reg, es[1..]);
          Dispatched([call] + rest.calls, rest.thrown)
  }

  function DispatchBatch(reg: Registry, es: seq<Value>): Dispatched {
    if es == [] then Dispatched([], Some("batch request is empty")) else DispatchEach(reg, es)
  }

  /** UserDoneCallback: the response that carries the request's id back. */
  function Response(request: seq<Member>, result: Value): Value
    requires Find(request, "id").Some?
  {
    Value.Object([Member("jsonrpc", Str("2.0")), Member("id", Find(request, "id").value),
                  Member("result", result)])
  }

  // ----------------------------------------------------------------- client

  /** The client: the next id and the callbacks of calls under way. */
  datatype Client<C> = Client(id: int64, callbacks: map<int, C>)

  /** The request that sendCall sends for a call. */
  function WithId(ms: seq<Member>, id: int64): seq<Member> {
    ms + [Member("id", Value.Int64(id))]
  }

  function Registered<C>(c: Client<C>, cb: C): Client<C>
    requires c.id < 0x7FFF_FFFF_FFFF_FFFF
  {
    Client(c.id + 1, c.callbacks[c.id as int := cb])
  }

  function FindTyped(ms: seq<Member>, k: string, kind: ValueType): Checked<Value> {
    match Find(ms, k)
    case None => Failed("missing at least one field")
    case Some(v) => if TypeOf(v) == kind then Fine(v) else Failed("bad type of at least one field")
  }

  /** validateResponse, with the id.  Three elements of an array get past the size
      check and fail the assertion of findMember; that is shown as one more error. */
  function ValidateResponse(response: Value): Checked<int32> {
    if SizeOf(response) != 3 then Failed("response should have 3 field")
    else if !response.Object? then Failed("assertion type_ == TYPE_OBJECT")
    else
      var ms := response.members;
      match FindTyped(ms, "id", Int32Type)
      case Failed(m) => Failed(m)
      case Fine(id) =>
        match FindTyped(ms, "jsonrpc", StringType)
        case Failed(m) => Failed(m)
        case Fine(version) =>
          if version != Str("2.0") then Failed("unkonwn json rpc version")
          else if Find(ms, "result").Some? then Fine(id.i32)
          else match FindTyped(ms, "error", ObjectType)
               case Failed(m) => Failed(m)
               case Fine(_) => Fine(id.i32)
  }

  /** A callback that is to be called, with its value. */
  datatype Invocation<C> = Invocation(callback: C, value: Value, isError: bool)

  /** handleSingleResponse: which callback is called, if any, and the callbacks
      that are left. */
  function HandleResponse<C>(c: Client<C>, response: Value): Checked<(Option<Invocation<C>>, Client<C>)> {
    match ValidateResponse(response)
    case Failed(m) => Failed(m)
    case Fine(id) =>
      if id !in c.callbacks then Fine((None, c))
      else
        var result := Find(response.members, "result");
        var call :=
          if result.Some? then Invocation(c.callbacks[id], result.value, false)
          else Invocation(c.callbacks[id], Find(response.members, "error").value, true);
        Fine((Some(call), c.(callbacks := c.callbacks - {id as int})))
  }

  // ------------------------------------------------ requests on their way

  lemma {:induction false} FindNormal(ms: seq<Member>, k: string)
    ensures Find(NormalMembers(ms), k) ==
            match Find(ms, k) { case None => None case Some(v) => Some(Normal(v)) }
  {
    if ms != [] {
      var ns := NormalMembers(ms);
      assert ns[0] == Member(ms[0].key, Normal(ms[0].value)) && ns[1..] == NormalMembers(ms[1..]);
      FindNormal(ms[1..], k);
    }
  }

  lemma {:induction false} FindAppended(ms: seq<Member>, m: Member, k: string)
    ensures Find(ms + [m], k) ==
            if Find(ms, k).Some? then Find(ms, k) else if m.key == k then Some(m.value) else None
  {
    if ms == [] {
      assert ms + [m] == [m];
      assert [m][1..] == [];
    } else {
      FindAppended(ms[1..], m, k);
      assert (ms + [m])[1..] == ms[1..] + [m];
    }
  }

  lemma {:induction false} FindHas(ms: seq<Member>, k: string)
    ensures Find(ms, k).Some? <==> B.HasKey(ms, k)
  {
    if ms != [] {
      FindHas(ms[1..], k);
      assert forall i :: 1 <= i < |ms| ==> ms[i] == ms[1..][i - 1];
      if B.HasKey(ms[1..], k) {
        var i :| 0 <= i < |ms[1..]| && ms[1..][i].key == k;
        assert ms[i + 1].key == k;
      }
    }
  }

  /** A call shaped as a generated stub shapes it, whatever its params: a method
      "service.method" of the registry. */
  ghost predicate CallShaped(reg: Registry, ms: seq<Member>, service: string, verb: string) {
    && Find(ms, "jsonrpc") == Some(Str("2.0"))
    && Find(ms, "method") == Some(Str(service + ("." + verb)))
    && Find(ms, "id").None?
    && |ms| == 2 + (if Find(ms, "params").Some? then 1 else 0)
    && IndexOf(service, '.') == |service| && verb != ""
    && service in reg && verb in reg[service]
  }

  /** A stub's call whose params match the declaration as they are sent. */
  ghost predicate StubShaped(reg: Registry, ms: seq<Member>, service: string, verb: string) {
    CallShaped(reg, ms, service, verb) && ParamsMatch(ms, reg[service][verb])
  }

  /** An integer that is sent as an Int64 and read as an Int32. */
  predicate Narrows(v: Value) { v.Int64? && InInt32(v.i64) }

  /** No argument of the procedure, by position or by name, narrows on its way. */
  predicate NoneNarrows(ms: seq<Member>, p: Procedure)
    requires ParamsMatch(ms, p)
  {
    match Find(ms, "params")
    case Some(Array(es)) => forall i :: 0 <= i < |p| ==> !Narrows(es[i])
    case Some(Object(vs)) => forall i :: 0 <= i < |p| ==> !Narrows(Find(vs, p[i].name).value)
    case _ => true
  }

  lemma {:induction false} DotFound(a: string, b: string)
    requires IndexOf(a, '.') == |a|
    ensures IndexOf(a + ("." + b), '.') == |a|
    ensures (a + ("." + b))[..|a|] == a && (a + ("." + b))[|a| + 1..] == b
  {
    if a != [] {
      DotFound(a[1..], b);
      assert (a + ("." + b))[1..] == a[1..] + ("." + b);
    }
  }

  /** The request as it arrives: the call's members, normalised, and its id. */
  function Arrived(ms: seq<Member>, id: int64): seq<Member> { NormalMembers(WithId(ms, id)) }

  lemma ArrivedFinds(ms: seq<Member>, id: int64, k: string)
    requires Find(ms, "id").None?
    ensures Find(Arrived(ms, id), k) ==
            if k == "id" then Some(Normal(Value.Int64(id)))
            else match Find(ms, k) { case None => None case Some(v) => Some(Normal(v)) }
  {
    FindNormal(WithId(ms, id), k);
    FindAppended(ms, Member("id", Value.Int64(id)), k);
  }

  lemma ParamsArrive(ms: seq<Member>, id: int64, p: Procedure)
    requires Find(ms, "id").None?
    ensures ParamsMatch(Arrived(ms, id), p) == ParamsMatch(NormalMembers(ms), p)
  {
    ArrivedFinds(ms, id, "params");
    FindNormal(ms, "params");
  }

  lemma {:induction false} NormalAt(es: seq<Value>, i: nat)
    requires i < |es|
    ensures NormalAll(es)[i] == Normal(es[i])
  {
    if i > 0 {
      NormalAt(es[1..], i - 1);
    }
  }

  lemma TypeKept(v: Value)
    ensures TypeOf(Normal(v)) == TypeOf(v) <==> !Narrows(v)
  {
  }

  lemma ArrayKept(ms: seq<Member>, p: Procedure, es: seq<Value>)
    requires ParamsMatch(ms, p) && Find(ms, "params") == Some(Value.Array(es))
    ensures ParamsMatch(NormalMembers(ms), p) <==> NoneNarrows(ms, p)
  {
    FindNormal(ms, "params");
    forall i | 0 <= i < |p| ensures TypeOf(NormalAll(es)[i]) == p[i].kind <==> !Narrows(es[i]) {
      NormalAt(es, i);
      TypeKept(es[i]);
    }
  }

  lemma ObjectKept(ms: seq<Member>, p: Procedure, vs: seq<Member>)
    requires ParamsMatch(ms, p) && Find(ms, "params") == Some(Value.Object(vs))
    ensures ParamsMatch(NormalMembers(ms), p) <==> NoneNarrows(ms, p)
  {
    FindNormal(ms, "params");
    forall i | 0 <= i < |p|
      ensures Find(NormalMembers(vs), p[i].name).Some?
      ensures TypeOf(Find(NormalMembers(vs), p[i].name).value) == p[i].kind
              <==> !Narrows(Find(vs, p[i].name).value)
    {
      FindNormal(vs, p[i].name);
      TypeKept(Find(vs, p[i].name).value);
    }
  }

  /** Params that match as sent match as they arrive exactly if no argument is an
      Int64 that fits an int32: such a one arrives as an Int32. */
  lemma MatchKept(ms: seq<Member>, p: Procedure)
    requires ParamsMatch(ms, p)
    ensures ParamsMatch(NormalMembers(ms), p) <==> NoneNarrows(ms, p)
  {
    match Find(ms, "params")
    case None => FindNormal(ms, "params");
    case Some(Array(es)) => ArrayKept(ms, p, es);
    case Some(Object(vs)) => ObjectKept(ms, p, vs);
    case _ => assert false;
  }

  /** A call for any params: the server calls the procedure exactly if the params
      match as they arrive. */
  lemma ShapedAccepted(reg: Registry, ms: seq<Member>, id: int64, service: string, verb: string)
    requires CallShaped(reg, ms, service, verb)
    ensures HandleRequest(reg, Arrived(ms, id)) ==
            if ParamsMatch(NormalMembers(ms), reg[service][verb]) then
              Fine(Call(service, verb, Arrived(ms, id)))
            else Failed("params name or type mismatch")
  {
    var rs := Arrived(ms, id);
    ArrivedFinds(ms, id, "id");
    ArrivedFinds(ms, id, "jsonrpc");
    ArrivedFinds(ms, id, "method");
    ArrivedFinds(ms, id, "params");
    DotFound(service, verb);
    ParamsArrive(ms, id, reg[service][verb]);
    assert |rs| == |ms| + 1;
    NotInternal(service, verb);
    assert ValidateRequest(rs) == Fine(());
    hide ParamsMatch, ValidateRequest;
  }

  /** The server accepts a stub's call and calls its procedure exactly if none of the
      arguments is an Int64 that fits an int32. */
  lemma CallAccepted(reg: Registry, ms: seq<Member>, id: int64, service: string, verb: string)
    requires StubShaped(reg, ms, service, verb)
    ensures HandleRequest(reg, Arrived(ms, id)) ==
            if NoneNarrows(ms, reg[service][verb]) then Fine(Call(service, verb, Arrived(ms, id)))
            else Failed("params name or type mismatch")
  {
    hide ParamsMatch, NoneNarrows, HandleRequest;
    ShapedAccepted(reg, ms, id, service, verb);
    MatchKept(ms, reg[service][verb]);
  }

  // -------------------------------------------------- calls of generated stubs

  /** What a generated stub hands to sendCall. */
  function StubCall(service: string, verb: string, arguments: seq<Member>): seq<Member> {
    [Member("jsonrpc", Str("2.0")), Member("method", Str(service + ("." + verb))),
     Member("params", Value.Object(arguments))]
  }

  /** One argument of the declared type for each parameter, as a stub takes them. */
  predicate Declared(arguments: seq<Member>, p: Procedure) {
    && |arguments| == |p|
    && (forall i :: 0 <= i < |p| ==> arguments[i].key == p[i].name && TypeOf(arguments[i].value) == p[i].kind)
    && forall i, j :: 0 <= i < j < |p| ==> p[i].name != p[j].name
  }

  predicate AnyNarrows(arguments: seq<Member>) {
    exists i :: 0 <= i < |arguments| && Narrows(arguments[i].value)
  }

  lemma StubFinds(service: string, verb: string, arguments: seq<Member>)
    ensures var ms := StubCall(service, verb, arguments);
            && Find(ms, "jsonrpc") == Some(Str("2.0"))
            && Find(ms, "method") == Some(Str(service + ("." + verb)))
            && Find(ms, "params") == Some(Value.Object(arguments)) && Find(ms, "id") == None
  {
    var a, b := Member("jsonrpc", Str("2.0")), Member("method", Str(service + ("." + verb)));
    var c := Member("params", Value.Object(arguments));
    assert StubCall(service, verb, arguments) == [a, b] + [c] && [a, b] == [a] + [b];
    FindAppended([a], b, "method");
    FindAppended([a], b, "params");
    FindAppended([a], b, "id");
    FindAppended([a, b], c, "jsonrpc");
    FindAppended([a, b], c, "method");
    FindAppended([a, b], c, "params");
    FindAppended([a, b], c, "id");
  }

  lemma {:induction false} FindOwn(vs: seq<Member>, i: nat)
    requires i < |vs| && forall j, k :: 0 <= j < k < |vs| ==> vs[j].key != vs[k].key
    ensures Find(vs, vs[i].key) == Some(vs[i].value)
  {
    if i > 0 {
      assert vs[0].key != vs[i].key;
      FindOwn(vs[1..], i - 1);
    }
  }

  /** Declared arguments match as sent, unless there are none. */
  lemma DeclaredMatch(ms: seq<Member>, vs: seq<Member>, p: Procedure)
    requires Find(ms, "params") == Some(Value.Object(vs)) && Declared(vs, p)
    ensures ParamsMatch(ms, p) <==> p != []
    ensures p != [] ==> (NoneNarrows(ms, p) <==> !AnyNarrows(vs))
  {
    forall i | 0 <= i < |p| ensures Find(vs, p[i].name) == Some(vs[i].value) {
      FindOwn(vs, i);
    }
    hide Find, Narrows;
  }

  /** The server calls the procedure of a stub's call exactly if the procedure has a
      parameter and none of the arguments is an Int64 that fits an int32. */
  lemma StubAccepted(reg: Registry, id: int64, service: string, verb: string, vs: seq<Member>)
    requires IndexOf(service, '.') == |service| && verb != "" && service in reg && verb in reg[service]
    requires Declared(vs, reg[service][verb])
    ensures var ms := StubCall(service, verb, vs);
            HandleRequest(reg, Arrived(ms, id)) ==
            if vs != [] && !AnyNarrows(vs) then
              Fine(Call(service, verb, Arrived(ms, id)))
            else Failed("params name or type mismatch")
  {
    var ms := StubCall(service, verb, vs);
    var p := reg[service][verb];
    StubFinds(service, verb, vs);
    DeclaredMatch(ms, vs, p);
    if vs == [] {
      EmptyMismatch(ms, p);
    }
    hide ParamsMatch, NoneNarrows, AnyNarrows, HandleRequest, Find;
    if p == [] {
      ShapedAccepted(reg, ms, id, service, verb);
    } else {
      CallAccepted(reg, ms, id, service, verb);
    }
  }

  lemma EmptyMismatch(ms: seq<Member>, p: Procedure)
    requires Find(ms, "params") == Some(Value.Object([]))
    ensures !ParamsMatch(NormalMembers(ms), p)
  {
    FindNormal(ms, "params");
  }

  /** So a procedure with one int64_t parameter refuses every small argument. */
  lemma SmallInt64Refused(reg: Registry, id: int64, service: string, verb: string, x: string, n: int32)
    requires IndexOf(service, '.') == |service| && verb != "" && service in reg && verb in reg[service]
    requires reg[service][verb] == [Param(x, Int64Type)]
    ensures HandleRequest(reg, Arrived(StubCall(service, verb, [Member(x, Value.Int64(n))]), id))
            == Failed("params name or type mismatch")
  {
    var vs := [Member(x, Value.Int64(n))];
    OneDeclared(x, n);
    hide *;
    StubAccepted(reg, id, service, verb, vs);
  }

  lemma OneDeclared(x: string, n: int32)
    ensures var vs := [Member(x, Value.Int64(n))];
            Declared(vs, [Param(x, Int64Type)]) && AnyNarrows(vs)
  {
    assert Narrows([Member(x, Value.Int64(n))][0].value);
  }

  /** And a procedure without parameters refuses every call, because the stub always
      adds params and the server wants none or some that are not empty. */
  lemma EmptyParamsRefused(reg: Registry, id: int64, service: string, verb: string)
    requires IndexOf(service, '.') == |service| && verb != "" && service in reg && verb in reg[service]
    requires reg[service][verb] == []
    ensures HandleRequest(reg, Arrived(StubCall(service, verb, []), id))
            == Failed("params name or type mismatch")
  {
    hide HandleRequest;
    StubAccepted(reg, id, service, verb, []);
  }

  lemma NotInternal(service: string, verb: string)
    requires IndexOf(service, '.') == |service| && verb != ""
    ensures service + ("." + verb) != "rpc."
  {
    DotFound(service, verb);
    DotFound("rpc", "");
    assert "rpc" + ("." + "") == "rpc.";
  }

  lemma ResponseFinds(request: seq<Member>, result: Value)
    requires Find(request, "id").Some?
    ensures var ms := Response(request, result).members;
            Find(ms, "jsonrpc") == Some(Str("2.0")) && Find(ms, "id") == Find(request, "id")
            && Find(ms, "result") == Some(result)
  {
    var a, b := Member("jsonrpc", Str("2.0")), Member("id", Find(request, "id").value);
    var c := Member("result", result);
    var ms := Response(request, result).members;
    assert ms == [a, b] + [c] && [a, b] == [a] + [b];
    FindAppended([a], b, "result");
    FindAppended([a, b], c, "result");
  }

  /** validateResponse on three members, by definition. */
  lemma ValidatesObject(ns: seq<Member>, id: Value)
    requires |ns| == 3 && Find(ns, "jsonrpc") == Some(Str("2.0")) && Find(ns, "id") == Some(id)
    requires Find(ns, "result").Some?
    ensures ValidateResponse(Value.Object(ns)) ==
            if id.Int32? then Fine(id.i32) else Failed("bad type of at least one field")
  {
    hide Find;
  }

  /** The response, as it arrives, is valid exactly if its id arrives as an Int32. */
  lemma ResponseValidIff(request: seq<Member>, result: Value)
    requires Find(request, "id").Some?
    ensures var id := Normal(Find(request, "id").value);
            ValidateResponse(Normal(Response(request, result))) ==
            if id.Int32? then Fine(id.i32) else Failed("bad type of at least one field")
  {
    var ms := Response(request, result).members;
    var ns := NormalMembers(ms);
    assert Normal(Response(request, result)) == Value.Object(ns) && |ns| == 3;
    ResponseFinds(request, result);
    FindNormal(ms, "id");
    FindNormal(ms, "jsonrpc");
    FindNormal(ms, "result");
    hide Find, Response, ValidateResponse;
    assert Normal(Str("2.0")) == Str("2.0");
    ValidatesObject(ns, Normal(Find(request, "id").value));
  }

  /** The response to a call under way reaches the callback of its id with the
      normalised result, and all other callbacks stay, exactly if the id is an int32;
      with any other id it is refused. */
  lemma ResponseReaches<C>(c: Client<C>, request: seq<Member>, id: int64, result: Value)
    requires Find(request, "id") == Some(Normal(Value.Int64(id))) && id in c.callbacks
    ensures HandleResponse(c, Normal(Response(request, result))) ==
            if InInt32(id) then
              Fine((Some(Invocation(c.callbacks[id], Normal(result), false)),
                    c.(callbacks := c.callbacks - {id as int})))
            else Failed("bad type of at least one field")
  {
    var ms := Response(request, result).members;
    assert Normal(Response(request, result)) == Value.Object(NormalMembers(ms));
    ResponseFinds(request, result);
    ResponseValidIff(request, result);
    FindNormal(ms, "result");
    hide ValidateResponse, Find;
  }

  lemma {:induction false} FindAt(ms: seq<Member>, k: string) returns (i: nat)
    requires Find(ms, k).Some?
    ensures i < |ms| && ms[i].key == k
  {
    if ms[0].key == k {
      i := 0;
    } else {
      var j := FindAt(ms[1..], k);
      i := j + 1;
    }
  }

  /** No notification is ever accepted: an id is demanded of what was told to be a
      notification by having none, and with an id there is a field too many. */
  lemma NotificationsFail(ms: seq<Member>)
    ensures ValidateNotify(ms).Failed?
    ensures Find(ms, "id").None? ==> ValidateNotify(ms) == Failed("missing at least one filed")
  {
    if Find(ms, "id").Some? && Find(ms, "jsonrpc").Some? && Find(ms, "method").Some? {
      var i := FindAt(ms, "id");
      var j := FindAt(ms, "jsonrpc");
      var k := FindAt(ms, "method");
      DistinctIndices(ms, {i, j, k});
      assert |{i, j, k}| == 3;
      if Find(ms, "params").Some? {
        var l := FindAt(ms, "params");
        DistinctIndices(ms, {i, j, k, l});
        assert |{i, j, k, l}| == 4;
      }
    }
  }

  /** A request that a batch gets past. */
  predicate Accepts(reg: Registry, v: Value) {
    v.Object? && Find(v.members, "id").Some? && HandleRequest(reg, v.members).Fine?
  }

  function CallOf(reg: Registry, v: Value): Call
    requires Accepts(reg, v)
  {
    HandleRequest(reg, v.members).value
  }

  /** A batch makes the calls of its requests in order, up to the first bad one, which
      ends it; calls that were made by then stay made. */
  lemma {:induction false} BatchStopsAtFirstBad(reg: Registry, es: seq<Value>, k: nat)
    requires k <= |es| && forall i :: 0 <= i < k ==> Accepts(reg, es[i])
    requires k < |es| ==> !Accepts(reg, es[k])
    ensures var d := DispatchEach(reg, es);
            && |d.calls| == k && (forall i :: 0 <= i < k ==> d.calls[i] == CallOf(reg, es[i]))
            && (d.thrown.None? <==> k == |es|)
    decreases |es|
  {
    hide HandleRequest, ValidateNotify, Find;
    if es != [] {
      if k > 0 {
        assert Accepts(reg, es[0]);
        BatchStopsAtFirstBad(reg, es[1..], k - 1);
        assert forall i :: 1 <= i < k ==> es[1..][i - 1] == es[i];
      } else if es[0].Object? && Find(es[0].members, "id").None? {
        NotificationsFail(es[0].members);
      }
    }
  }

  lemma {:induction false} DistinctIndices(ms: seq<Member>, s: set<nat>)
    requires forall i :: i in s ==> i < |ms|
    ensures |s| <= |ms|
  {
    if ms == [] {
      assert s == {};
    } else {
      var n := |ms| - 1;
      DistinctIndices(ms[..n], s - {n});
    }
  }
}
