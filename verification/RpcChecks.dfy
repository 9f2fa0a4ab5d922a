/** Which requests the server accepts and what a response does at the client, stated
    over members, lists of types and tables of conditions. */
module RpcChecks {
  import opened Text
  import opened Json
  import opened RpcSpec

  /** The first member with the key. */
  predicate FirstAt(ms: seq<Member>, i: nat, k: string) {
    i < |ms| && ms[i].key == k && forall j :: 0 <= j < i ==> ms[j].key != k
  }

  lemma {:induction false} FindFirst(ms: seq<Member>, k: string) returns (i: nat)
    ensures Find(ms, k) == None ==> forall j :: 0 <= j < |ms| ==> ms[j].key != k
    ensures Find(ms, k).Some? ==> FirstAt(ms, i, k) && ms[i].value == Find(ms, k).value
  {
    if ms == [] || ms[0].key == k {
      i := 0;
    } else {
      var j := FindFirst(ms[1..], k);
      i := j + 1;
    }
  }

  lemma FirstFound(ms: seq<Member>, i: nat, k: string)
    requires FirstAt(ms, i, k)
    ensures Find(ms, k) == Some(ms[i].value)
  {
    var j := FindFirst(ms, k);
  }

  // ------------------------------------------------------------------ params

  function TypesOf(es: seq<Value>): (r: seq<ValueType>)
    ensures |r| == |es| && forall i :: 0 <= i < |es| ==> r[i] == TypeOf(es[i])
  {
    seq(|es|, i requires 0 <= i < |es| => TypeOf(es[i]))
  }

  function Kinds(p: Procedure): (r: seq<ValueType>)
    ensures |r| == |p| && forall i :: 0 <= i < |p| ==> r[i] == p[i].kind
  {
    seq(|p|, i requires 0 <= i < |p| => p[i].kind)
  }

  /** A member with that name, the first one, of that type. */
  ghost predicate Offers(vs: seq<Member>, q: Param) {
    exists i: nat :: FirstAt(vs, i, q.name) && TypeOf(vs[i].value) == q.kind
  }

  /** What validateGeneric lets through: no params for a procedure without parameters;
      as many arguments as parameters, at least one, each of its type, by position or
      by name; nothing else. */
  ghost predicate ParamsFit(ms: seq<Member>, p: Procedure) {
    match Find(ms, "params")
    case None => p == []
    case Some(Array(es)) => es != [] && TypesOf(es) == Kinds(p)
    case Some(Object(vs)) => vs != [] && |vs| == |p| && forall q <- p :: Offers(vs, q)
    case Some(_) => false
  }

  lemma OffersIff(vs: seq<Member>, q: Param)
    ensures Offers(vs, q) <==> Find(vs, q.name).Some? && TypeOf(Find(vs, q.name).value) == q.kind
  {
    var i := FindFirst(vs, q.name);
    forall j: nat | FirstAt(vs, j, q.name) ensures Find(vs, q.name) == Some(vs[j].value) {
      FirstFound(vs, j, q.name);
    }
  }

  lemma MatchIff(ms: seq<Member>, p: Procedure)
    ensures ParamsMatch(ms, p) <==> ParamsFit(ms, p)
  {
    match Find(ms, "params")
    case Some(Object(vs)) =>
      forall i | 0 <= i < |p|
        ensures Offers(vs, p[i]) <==> Find(vs, p[i].name).Some? && TypeOf(Find(vs, p[i].name).value) == p[i].kind
      {
        OffersIff(vs, p[i]);
      }
      hide Offers, Find;
    case _ =>
  }

  /** One argument more than the parameters is never let through. */
  lemma OneMoreRefused(ms: seq<Member>, more: seq<Member>, p: Procedure, es: seq<Value>, v: Value)
    requires Find(ms, "params") == Some(Value.Array(es)) && ParamsMatch(ms, p)
    requires Find(more, "params") == Some(Value.Array(es + [v]))
    ensures !ParamsMatch(more, p)
  {
    MatchIff(ms, p);
    MatchIff(more, p);
    assert |TypesOf(es + [v])| == |Kinds(p)| + 1;
  }

  function Named(vs: seq<Member>): set<(string, ValueType)> {
    set i | 0 <= i < |vs| :: (vs[i].key, TypeOf(vs[i].value))
  }

  function Declares(p: Procedure): set<(string, ValueType)> {
    set i | 0 <= i < |p| :: (p[i].name, p[i].kind)
  }

  predicate DistinctNames(vs: seq<Member>) { forall i, j :: 0 <= i < j < |vs| ==> vs[i].key != vs[j].key }

  predicate DistinctParams(p: Procedure) { forall i, j :: 0 <= i < j < |p| ==> p[i].name != p[j].name }

  lemma {:induction false} NamedSize(vs: seq<Member>)
    requires DistinctNames(vs)
    ensures |Named(vs)| == |vs|
  {
    if vs == [] {
      assert Named(vs) == {};
    } else {
      var n := |vs| - 1;
      var last := (vs[n].key, TypeOf(vs[n].value));
      NamedSize(vs[..n]);
      assert Named(vs) == Named(vs[..n]) + {last};
      assert last !in Named(vs[..n]);
    }
  }

  lemma {:induction false} DeclaresSize(p: Procedure)
    requires DistinctParams(p)
    ensures |Declares(p)| == |p|
  {
    if p == [] {
      assert Declares(p) == {};
    } else {
      var n := |p| - 1;
      var last := (p[n].name, p[n].kind);
      DeclaresSize(p[..n]);
      assert Declares(p) == Declares(p[..n]) + {last};
      assert last !in Declares(p[..n]);
    }
  }

  lemma SubsetFull<T>(a: set<T>, b: set<T>)
    requires a <= b && |a| == |b|
    ensures a == b
  {
    assert b == a + (b - a);
  }

  lemma OffersNamed(vs: seq<Member>, q: Param)
    requires DistinctNames(vs)
    ensures Offers(vs, q) <==> (q.name, q.kind) in Named(vs)
  {
    forall i: nat | i < |vs| && vs[i].key == q.name ensures FirstAt(vs, i, q.name) {
    }
  }

  /** With names that are distinct, as a document's are, arguments by name are let
      through exactly if they are the declared names with the declared types. */
  lemma NamedIff(ms: seq<Member>, vs: seq<Member>, p: Procedure)
    requires Find(ms, "params") == Some(Value.Object(vs)) && DistinctNames(vs) && DistinctParams(p)
    ensures ParamsMatch(ms, p) <==> vs != [] && Named(vs) == Declares(p)
  {
    MatchIff(ms, p);
    NamedSize(vs);
    DeclaresSize(p);
    forall q | q in p ensures Offers(vs, q) <==> (q.name, q.kind) in Named(vs) {
      OffersNamed(vs, q);
    }
    if ParamsMatch(ms, p) {
      assert Declares(p) <= Named(vs);
      SubsetFull(Declares(p), Named(vs));
    } else if Named(vs) == Declares(p) && vs != [] {
      forall q <- p ensures Offers(vs, q) {
        assert (q.name, q.kind) in Declares(p);
      }
    }
    hide Offers, Find, ParamsMatch;
  }

  // ---------------------------------------------------------------- requests

  predicate Dotless(s: string) { forall i :: 0 <= i < |s| ==> s[i] != '.' }

  lemma {:induction false} DotIndex(s: string)
    ensures var i := IndexOf(s, '.'); Dotless(s[..i]) && (i < |s| ==> s[i] == '.')
    ensures Dotless(s) <==> IndexOf(s, '.') == |s|
    decreases |s|
  {
    if s != [] && s[0] != '.' {
      DotIndex(s[1..]);
      var i := IndexOf(s, '.');
      assert s[..i] == [s[0]] + s[1..][..i - 1];
      assert s == [s[0]] + s[1..];
    }
  }

  /** A request that calls this procedure: an id that is a string or an integer, the
      version, the method "service.verb" of the registry, arguments that fit, and no
      member besides. */
  ghost predicate Calls(reg: Registry, ms: seq<Member>, service: string, verb: string) {
    && Find(ms, "id").Some? && TypeOf(Find(ms, "id").value) in {StringType, Int32Type, Int64Type}
    && Find(ms, "jsonrpc") == Some(Str("2.0"))
    && Find(ms, "method") == Some(Str(service + ("." + verb)))
    && |ms| == (if Find(ms, "params").Some? then 4 else 3)
    && Dotless(service) && verb != "" && service in reg && verb in reg[service]
    && ParamsFit(ms, reg[service][verb])
  }

  lemma Splits(name: string, service: string, verb: string)
    requires Dotless(service) && name == service + ("." + verb)
    ensures IndexOf(name, '.') == |service| && name[..|service|] == service && name[|service| + 1..] == verb
  {
    DotIndex(service);
    DotFound(service, verb);
  }

  lemma CallsAccepted(reg: Registry, ms: seq<Member>, service: string, verb: string)
    requires Calls(reg, ms, service, verb)
    ensures HandleRequest(reg, ms) == Fine(Call(service, verb, ms))
  {
    DotIndex(service);
    Splits(service + ("." + verb), service, verb);
    NotInternal(service, verb);
    MatchIff(ms, reg[service][verb]);
    hide ParamsMatch, ParamsFit, Find, IndexOf;
  }

  lemma AcceptedCalls(reg: Registry, ms: seq<Member>)
    requires HandleRequest(reg, ms).Fine?
    ensures var c := HandleRequest(reg, ms).value;
            c.request == ms && Calls(reg, ms, c.service, c.verb)
  {
    hide ParamsMatch, ParamsFit, Find, IndexOf;
    var name := Find(ms, "method").value.s;
    DotIndex(name);
    var dot := IndexOf(name, '.');
    JoinsAtDot(name, dot);
    MatchIff(ms, reg[name[..dot]][name[dot + 1..]]);
  }

  lemma JoinsAtDot(name: string, dot: nat)
    requires dot < |name| && name[dot] == '.'
    ensures name == name[..dot] + ("." + name[dot + 1..])
  {
  }

  /** The server makes a call exactly for the requests that call a procedure of the
      registry, and makes that call. */
  lemma AcceptedIff(reg: Registry, ms: seq<Member>, call: Call)
    ensures HandleRequest(reg, ms) == Fine(call) <==>
            call.request == ms && Calls(reg, ms, call.service, call.verb)
  {
    if HandleRequest(reg, ms) == Fine(call) {
      AcceptedCalls(reg, ms);
    }
    if call.request == ms && Calls(reg, ms, call.service, call.verb) {
      CallsAccepted(reg, ms, call.service, call.verb);
    }
    hide HandleRequest, Calls;
  }

  /** A condition and the message for a request that does not meet it. */
  type Check = (bool, string)

  /** The message of the first condition that is not met. */
  function FirstFailed(checks: seq<Check>): Option<string> {
    if checks == [] then None
    else if !checks[0].0 then Some(checks[0].1)
    else FirstFailed(checks[1..])
  }

  predicate HasType(ms: seq<Member>, k: string, kinds: set<ValueType>) {
    Find(ms, k).Some? && TypeOf(Find(ms, k).value) in kinds
  }

  function MethodOf(ms: seq<Member>): string {
    if HasType(ms, "method", {StringType}) then Find(ms, "method").value.s else ""
  }

  /** The text in front of the first dot, and the text behind it. */
  function ServiceOf(name: string): string { name[..IndexOf(name, '.')] }

  function VerbOf(name: string): string {
    if IndexOf(name, '.') < |name| then name[IndexOf(name, '.') + 1..] else ""
  }

  predicate Registered(reg: Registry, service: string, verb: string) {
    service in reg && verb in reg[service]
  }

  /** The conditions of validateRequest, in the order in which they are tested. */
  function HeadChecks(ms: seq<Member>): seq<Check> {
    [(Find(ms, "id").Some?, "missing at least one filed"),
     (HasType(ms, "id", {StringType, Int32Type, Int64Type}), "bad type "),
     (Find(ms, "jsonrpc").Some?, "missing at least one filed"),
     (HasType(ms, "jsonrpc", {StringType}), "bad type "),
     (Find(ms, "jsonrpc") == Some(Str("2.0")), "jsonrpc version is unknown"),
     (Find(ms, "method").Some?, "missing at least one filed"),
     (HasType(ms, "method", {StringType}), "bad type "),
     (MethodOf(ms) != "rpc.", "method name is internal used"),
     (|ms| == (if Find(ms, "params").Some? then 4 else 3), "unexpected field")]
  }

  /** And those on the procedure and its arguments. */
  ghost function CallChecks(reg: Registry, ms: seq<Member>, name: string): seq<Check> {
    [(!Dotless(name), "missing service Name in method"),
     (ServiceOf(name) in reg, "serviceName not found"),
     (VerbOf(name) != "", "missing method name in method"),
     (Registered(reg, ServiceOf(name), VerbOf(name)), "method not found"),
     (Registered(reg, ServiceOf(name), VerbOf(name)) && ParamsFit(ms, reg[ServiceOf(name)][VerbOf(name)]),
      "params name or type mismatch")]
  }

  lemma FirstSkips(checks: seq<Check>, k: nat)
    requires k <= |checks| && forall i :: 0 <= i < k ==> checks[i].0
    ensures FirstFailed(checks) == FirstFailed(checks[k..])
    decreases k
  {
    if k > 0 {
      FirstSkips(checks[1..], k - 1);
      assert checks[1..][k - 1..] == checks[k..];
    } else {
      assert checks[0..] == checks;
    }
  }

  lemma {:induction false} FirstOfBoth(a: seq<Check>, b: seq<Check>)
    ensures FirstFailed(a + b) == if FirstFailed(a).Some? then FirstFailed(a) else FirstFailed(b)
  {
    if a == [] {
      assert a + b == b;
    } else {
      FirstOfBoth(a[1..], b);
      assert (a + b)[1..] == a[1..] + b;
    }
  }

  lemma HeadFails(ms: seq<Member>)
    ensures ValidateRequest(ms) ==
            match FirstFailed(HeadChecks(ms)) case Some(m) => Failed(m) case None => Fine(())
  {
    var c := HeadChecks(ms);
    hide FirstFailed, Find;
    var k := if !c[0].0 then 0 else if !c[1].0 then 1 else if !c[2].0 then 2 else if !c[3].0 then 3
             else if !c[4].0 then 4 else if !c[5].0 then 5 else if !c[6].0 then 6 else if !c[7].0 then 7
             else if !c[8].0 then 8 else 9;
    FirstIs(c, k);
  }

  /** The message of the check at k, if those in front of it are met. */
  lemma FirstIs(checks: seq<Check>, k: nat)
    requires k <= |checks| && forall i :: 0 <= i < k ==> checks[i].0
    requires k < |checks| ==> !checks[k].0
    ensures FirstFailed(checks) == if k < |checks| then Some(checks[k].1) else None
  {
    FirstSkips(checks, k);
  }

  lemma CallFails(reg: Registry, ms: seq<Member>)
    requires ValidateRequest(ms).Fine?
    ensures HasType(ms, "method", {StringType})
    ensures HandleRequest(reg, ms) ==
            match FirstFailed(CallChecks(reg, ms, MethodOf(ms)))
            case Some(m) => Failed(m)
            case None => Fine(Call(ServiceOf(MethodOf(ms)), VerbOf(MethodOf(ms)), ms))
  {
    var name := MethodOf(ms);
    DotIndex(name);
    hide FirstFailed, Find, IndexOf, Dotless, ParamsMatch, ParamsFit;
    var c := CallChecks(reg, ms, name);
    if c[3].0 {
      MatchIff(ms, reg[ServiceOf(name)][VerbOf(name)]);
    }
    var k := if !c[0].0 then 0 else if !c[1].0 then 1 else if !c[2].0 then 2 else if !c[3].0 then 3
             else if !c[4].0 then 4 else 5;
    FirstIs(c, k);
  }

  /** A request is refused with the message of the first condition it does not meet. */
  lemma RefusedBecause(reg: Registry, ms: seq<Member>)
    ensures HandleRequest(reg, ms) ==
            match FirstFailed(HeadChecks(ms) + CallChecks(reg, ms, MethodOf(ms)))
            case Some(m) => Failed(m)
            case None => Fine(Call(ServiceOf(MethodOf(ms)), VerbOf(MethodOf(ms)), ms))
  {
    HeadFails(ms);
    FirstOfBoth(HeadChecks(ms), CallChecks(reg, ms, MethodOf(ms)));
    hide HeadChecks, CallChecks, FirstFailed, ValidateRequest, Find;
    if ValidateRequest(ms).Fine? {
      CallFails(reg, ms);
    }
  }

  // ----------------------------------------------------------------- batches

  /** Why a batch ends at an element. */
  function WhyBad(reg: Registry, v: Value): string
    requires !Accepts(reg, v)
  {
    if !v.Object? then "request json is bad"
    else if Find(v.members, "id").None? then "missing at least one filed"
    else HandleRequest(reg, v.members).message
  }

  /** A batch makes the calls of its requests in order, and the first element that is no
      request, is a notification or is refused ends it with its own message. */
  lemma {:induction false} BatchThrows(reg: Registry, es: seq<Value>, k: nat)
    requires k <= |es| && forall i :: 0 <= i < k ==> Accepts(reg, es[i])
    requires k < |es| ==> !Accepts(reg, es[k])
    ensures DispatchEach(reg, es).thrown == if k == |es| then None else Some(WhyBad(reg, es[k]))
    decreases |es|
  {
    hide HandleRequest, ValidateNotify, Find;
    if es != [] {
      if k > 0 {
        assert Accepts(reg, es[0]);
        BatchThrows(reg, es[1..], k - 1);
      } else if es[0].Object? && Find(es[0].members, "id").None? {
        NotificationsFail(es[0].members);
      }
    }
  }
}
