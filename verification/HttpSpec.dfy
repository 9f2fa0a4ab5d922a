/** The resumable HTTP request parser, as a function of the bytes in its buffer. */
module HttpSpec {
  import opened Text
  import B = Buffer

  datatype Method = Get | Post | Head | Put | Delete | Invalid
  datatype Version = Http10 | Http11 | Unknown
  datatype Part = RequestLine | Headers | Body | End

  datatype Request = Request(
    verb: Method, version: Version, path: string, query: string, headers: map<string, string>)

  const BLANK := Request(Invalid, Unknown, "", "", map[])

  /** The parser's state and the bytes it has not consumed. */
  datatype Context = Context(part: Part, request: Request, buffer: string)

  lemma {:induction false} IndexOfFirst(s: string, c: char)
    ensures var i := IndexOf(s, c);
            (i < |s| ==> s[i] == c) && forall j :: 0 <= j < i ==> s[j] != c
  {
    if s != [] && s[0] != c {
      IndexOfFirst(s[1..], c);
      var i := IndexOf(s[1..], c);
      assert forall j :: 1 <= j <= i ==> s[j] == s[1..][j - 1];
    }
  }

  function MethodOf(s: string): Method {
    if s == "GET" then Get
    else if s == "POST" then Post
    else if s == "HEAD" then Head
    else if s == "PUT" then Put
    else if s == "DELETE" then Delete
    else Invalid
  }

  /** isspace in the C locale. */
  predicate IsSpace(c: char) {
    c == ' ' || c == '\t' || c == '\n' || c == 0x0B as char || c == 0x0C as char || c == '\r'
  }

  function TrimFront(s: string): (r: string)
    ensures |r| <= |s|
  {
    if s != [] && IsSpace(s[0]) then TrimFront(s[1..]) else s
  }

  function TrimBack(s: string): (r: string)
    ensures |r| <= |s|
  {
    if s != [] && IsSpace(s[|s| - 1]) then TrimBack(s[..|s| - 1]) else s
  }

  /** The end of the target: the second space, or the length of the line. */
  function TargetEnd(line: string, begin: nat): (e: nat)
    requires begin <= |line|
    ensures begin <= e <= |line|
  {
    begin + IndexOf(line[begin..], ' ')
  }

  /** A method that is known holds no question mark. */
  lemma VerbHasNoQuestion(verb: string)
    requires !MethodOf(verb).Invalid?
    ensures B.NoChar(verb, '?')
  {
  }

  /** So the first question mark in front of the target's end is inside the target. */
  lemma QuestionInTarget(line: string, space: nat, end: nat)
    requires space == IndexOf(line, ' ') && space < end <= |line|
    requires B.NoChar(line[..space], '?')
    ensures space < IndexOf(line[..end], '?')
  {
    IndexOfFirst(line, ' ');
    IndexOfFirst(line[..end], '?');
    assert forall j :: 0 <= j < space ==> line[..end][j] == line[..space][j];
    assert line[..end][space] == ' ';
  }

  function VersionOf(s: string): Version {
    if |s| == 8 && s[..7] == "HTTP/1." then
      if s[7] == '1' then Http11 else if s[7] == '0' then Http10 else Unknown
    else Unknown
  }

  function WithVersion(r: Request, v: Version): (Request, bool) {
    if v.Unknown? then (r, false) else (r.(version := v), true)
  }

  /** A target without a question mark leaves the query as it was. */
  function WithTarget(r: Request, path: string, query: string): Request {
    r.(path := path, query := if query == "" then r.query else query)
  }

  function OnCuts(r: Request, line: string, begin: nat, question: nat, end: nat): (Request, bool)
    requires begin <= question <= end < |line|
  {
    WithVersion(WithTarget(r, line[begin..question], line[question..end]), VersionOf(line[end + 1..]))
  }

  /** The part of a request line behind the method. */
  function OnTarget(r: Request, line: string, space: nat): (Request, bool)
    requires space == IndexOf(line, ' ') && space < |line| && B.NoChar(line[..space], '?')
  {
    var begin := space + 1;
    var end := TargetEnd(line, begin);
    if end == |line| then (r, false)
    else
      QuestionInTarget(line, space, end);
      var question := IndexOf(line[..end], '?');
      OnCuts(r, line, begin, question, end)
  }

  /** partOnRequestLine: the verdict, and the request, which a bad line may have
      changed in part. */
  function OnRequestLine(r: Request, line: string): (Request, bool) {
    var space := IndexOf(line, ' ');
    if space == |line| then (r, false)
    else
      var r1 := r.(verb := MethodOf(line[..space]));
      if r1.verb.Invalid? then (r1, false)
      else
        VerbHasNoQuestion(line[..space]);
        OnTarget(r1, line, space)
  }

  function AddHeader(r: Request, line: string, colon: nat): Request
    requires colon < |line|
  {
    r.(headers := r.headers[line[..colon] := TrimBack(TrimFront(line[colon + 1..]))])
  }

  predicate Waiting(c: Context) { c.part.RequestLine? || c.part.Headers? }

  /** One turn of parseRequst's loop: a line is missing, the parser is done, or
      it goes on. */
  datatype Turn = NeedMore | Done(ok: bool, context: Context) | Next(context: Context)

  function OnLine(c: Context, line: string, rest: string): (t: Turn)
    requires Waiting(c)
    ensures t.Next? ==> Waiting(t.context) && t.context.buffer == rest
  {
    if c.part.RequestLine? then
      var (r, ok) := OnRequestLine(c.request, line);
      if ok then Next(Context(Headers, r, rest)) else Done(false, c.(request := r))
    else
      var colon := IndexOf(line, ':');
      if colon < |line| then Next(Context(Headers, AddHeader(c.request, line, colon), rest))
      else Done(true, Context(End, c.request, rest))
  }

  function TakeLine(c: Context): (t: Turn)
    requires Waiting(c)
    ensures t.Next? ==> Waiting(t.context) && |t.context.buffer| < |c.buffer|
  {
    match B.FindCrlf(c.buffer)
    case None => NeedMore
    case Some(i) => OnLine(c, c.buffer[..i], c.buffer[i + 2..])
  }

  /** parseRequst: the verdict and the state it leaves. */
  function Parse(c: Context): (bool, Context)
    requires Waiting(c)
    decreases |c.buffer|
  {
    match TakeLine(c)
    case NeedMore => (true, c)
    case Done(ok, d) => (ok, d)
    case Next(d) => Parse(d)
  }

  /** One turn of the loop in any phase.  In the body and end phases nothing happens, and
      the loop goes on. */
  function AnyTurn(c: Context): Turn {
    if Waiting(c) then TakeLine(c) else Next(c)
  }

  /** What the loop returns within n turns, if it returns. */
  function Turns(c: Context, n: nat): Option<(bool, Context)>
    decreases n
  {
    if n == 0 then None
    else match AnyTurn(c)
         case NeedMore => Some((true, c))
         case Done(ok, d) => Some((ok, d))
         case Next(d) => Turns(d, n - 1)
  }

  lemma {:induction false} Spins(c: Context, n: nat)
    requires !Waiting(c)
    ensures Turns(c, n).None?
  {
    if n > 0 {
      Spins(c, n - 1);
    }
  }

  lemma {:induction false} Returns(c: Context) returns (n: nat)
    requires Waiting(c)
    ensures Turns(c, n) == Some(Parse(c))
    decreases |c.buffer|
  {
    hide TakeLine;
    n := 1;
    if TakeLine(c).Next? {
      var m := Returns(TakeLine(c).context);
      n := m + 1;
    }
  }

  ghost predicate Terminates(c: Context) { exists n: nat :: Turns(c, n).Some? }

  /** parseRequst returns if and only if it is called in the request line or header phase,
      and then with the verdict and state of Parse. */
  lemma TerminatesIff(c: Context)
    ensures Terminates(c) <==> Waiting(c)
    ensures Waiting(c) ==> exists n: nat :: Turns(c, n) == Some(Parse(c))
  {
    if Waiting(c) {
      var n := Returns(c);
    } else {
      forall n: nat ensures Turns(c, n).None? {
        Spins(c, n);
      }
    }
  }

  function WithMore(c: Context, more: string): Context { c.(buffer := c.buffer + more) }

  /** A turn that found a line is the same with more bytes behind. */
  lemma TurnMore(c: Context, more: string)
    requires Waiting(c) && !TakeLine(c).NeedMore?
    ensures TakeLine(WithMore(c, more)) == match TakeLine(c)
            case Done(ok, d) => Done(ok, WithMore(d, more))
            case Next(d) => Next(WithMore(d, more))
            case NeedMore => NeedMore
  {
    hide OnRequestLine, IndexOf;
    var i := B.FindCrlf(c.buffer).value;
    B.FindCrlfStable(c.buffer, more);
    var d := WithMore(c, more);
    assert d.buffer[..i] == c.buffer[..i] && d.buffer[i + 2..] == c.buffer[i + 2..] + more;
  }

  /** Nothing more is parsed once a line was bad or the headers have ended. */
  predicate Stopped(r: (bool, Context)) { !r.0 || !Waiting(r.1) }

  /** Parsing with more bytes behind is parsing, and then going on with them. */
  lemma {:induction false} ParseMore(c: Context, more: string)
    requires Waiting(c)
    ensures var r := Parse(c);
            Parse(WithMore(c, more)) ==
            if Stopped(r) then (r.0, WithMore(r.1, more)) else Parse(WithMore(r.1, more))
    decreases |c.buffer|
  {
    var t := TakeLine(c);
    if !t.NeedMore? {
      TurnMore(c, more);
      if t.Next? {
        ParseMore(t.context, more);
      }
    }
  }

  /** Bytes arrive: they are parsed, unless the parser has stopped. */
  function Feed(s: (bool, Context), bytes: string): (bool, Context) {
    if Stopped(s) then (s.0, WithMore(s.1, bytes)) else Parse(WithMore(s.1, bytes))
  }

  function FeedAll(s: (bool, Context), chunks: seq<string>): (bool, Context)
    decreases |chunks|
  {
    if chunks == [] then s else FeedAll(Feed(s, chunks[0]), chunks[1..])
  }

  lemma FeedTwice(s: (bool, Context), a: string, b: string)
    ensures Feed(Feed(s, a), b) == Feed(s, a + b)
  {
    Glue(s.1.buffer, a, b);
    if !Stopped(s) {
      ParseMore(WithMore(s.1, a), b);
    }
  }

  /** However a request is split into chunks, the verdict, the phase, every field
      of the request and the bytes left over are those of feeding it whole. */
  lemma {:induction false} ChunkInvariance(s: (bool, Context), first: string, chunks: seq<string>)
    ensures FeedAll(s, [first] + chunks) == Feed(s, first + Concat(chunks))
    decreases |chunks|
  {
    assert ([first] + chunks)[1..] == chunks;
    if chunks == [] {
      Glue(first, [], []);
    } else {
      FeedTwice(s, first, chunks[0]);
      var joined := first + chunks[0];
      ChunkInvariance(s, joined, chunks[1..]);
      assert ([joined] + chunks[1..])[1..] == chunks[1..];
      Glue(first, chunks[0], Concat(chunks[1..]));
    }
  }

  // ------------------------------------------------------- a request's text

  datatype Header = Header(name: string, pad: string, value: string)

  predicate AllSpace(s: string) { forall i :: 0 <= i < |s| ==> IsSpace(s[i]) }

  /** A header that can be written on a line: the value is trimmed. */
  predicate Writable(h: Header) {
    && B.NoChar(h.name, ':') && B.NoChar(h.name, '\r')
    && B.NoChar(h.pad, '\r') && AllSpace(h.pad)
    && B.NoChar(h.value, '\r')
    && (h.value != [] ==> !IsSpace(h.value[0]) && !IsSpace(h.value[|h.value| - 1]))
  }

  function VerbText(m: Method): string
    requires !m.Invalid?
  {
    match m case Get => "GET" case Post => "POST" case Head => "HEAD" case Put => "PUT" case Delete => "DELETE"
  }

  function VersionText(v: Version): string
    requires !v.Unknown?
  {
    if v.Http11? then "HTTP/1.1" else "HTTP/1.0"
  }

  function HeaderLine(h: Header): string { h.name + (":" + (h.pad + h.value)) }

  function HeaderText(hs: seq<Header>): string {
    if hs == [] then "\r\n" else HeaderLine(hs[0]) + ("\r\n" + HeaderText(hs[1..]))
  }

  function HeaderMap(m: map<string, string>, hs: seq<Header>): map<string, string>
    decreases |hs|
  {
    if hs == [] then m else HeaderMap(m[hs[0].name := hs[0].value], hs[1..])
  }

  lemma {:induction false} IndexOfOver(s: string, c: char, r: string)
    requires B.NoChar(s, c)
    ensures IndexOf(s + ([c] + r), c) == |s|
  {
    if s != [] {
      IndexOfOver(s[1..], c, r);
      assert (s + ([c] + r))[1..] == s[1..] + ([c] + r);
    }
  }

  lemma {:induction false} IndexOfNone(s: string, c: char)
    requires B.NoChar(s, c)
    ensures IndexOf(s, c) == |s|
  {
    if s != [] {
      IndexOfNone(s[1..], c);
    }
  }

  lemma {:induction false} TrimPad(pad: string, v: string)
    requires AllSpace(pad) && (v != [] ==> !IsSpace(v[0]))
    ensures TrimFront(pad + v) == v
  {
    if pad == [] {
      assert pad + v == v;
    } else {
      TrimPad(pad[1..], v);
      assert (pad + v)[1..] == pad[1..] + v;
    }
  }

  /** The next line, up to its CR LF. */
  lemma LineTaken(c: Context, line: string, rest: string)
    requires Waiting(c) && B.NoChar(line, '\r') && c.buffer == line + ("\r\n" + rest)
    ensures TakeLine(c) == OnLine(c, line, rest)
  {
    hide OnLine;
    B.LineFound(line, rest);
  }

  lemma HeaderParses(c: Context, h: Header, rest: string)
    requires c.part.Headers? && Writable(h) && c.buffer == HeaderLine(h) + ("\r\n" + rest)
    ensures Parse(c) ==
            Parse(Context(Headers, c.request.(headers := c.request.headers[h.name := h.value]), rest))
  {
    var line := HeaderLine(h);
    LineTaken(c, line, rest);
    IndexOfOver(h.name, ':', h.pad + h.value);
    assert line[..|h.name|] == h.name && line[|h.name| + 1..] == h.pad + h.value;
    TrimPad(h.pad, h.value);
  }

  lemma {:induction false} HeadersParse(r: Request, hs: seq<Header>, rest: string)
    requires forall i :: 0 <= i < |hs| ==> Writable(hs[i])
    ensures Parse(Context(Headers, r, HeaderText(hs) + rest)) ==
            (true, Context(End, r.(headers := HeaderMap(r.headers, hs)), rest))
    decreases |hs|
  {
    var c := Context(Headers, r, HeaderText(hs) + rest);
    if hs == [] {
      assert "" + ("\r\n" + rest) == c.buffer;
      LineTaken(c, "", rest);
    } else {
      var tail := HeaderText(hs[1..]);
      Glue(HeaderLine(hs[0]), "\r\n" + tail, rest);
      Glue("\r\n", tail, rest);
      HeaderParses(c, hs[0], tail + rest);
      HeadersParse(r.(headers := r.headers[hs[0].name := hs[0].value]), hs[1..], rest);
    }
  }

  predicate PlainPath(p: string) { B.NoChar(p, ' ') && B.NoChar(p, '?') && B.NoChar(p, '\r') }

  /** Empty, or a question mark and what is asked. */
  predicate PlainQuery(q: string) {
    q == "" || (q[0] == '?' && B.NoChar(q, ' ') && B.NoChar(q, '\r'))
  }

  function RequestLineText(m: Method, path: string, query: string, v: Version): string
    requires !m.Invalid? && !v.Unknown?
  {
    VerbText(m) + (" " + ((path + query) + (" " + VersionText(v))))
  }

  lemma VerbParses(m: Method, v: Version)
    requires !m.Invalid? && !v.Unknown?
    ensures MethodOf(VerbText(m)) == m && B.NoChar(VerbText(m), ' ') && B.NoChar(VerbText(m), '?')
    ensures B.NoChar(VerbText(m), '\r')
    ensures VersionOf(VersionText(v)) == v && B.NoChar(VersionText(v), '\r')
  {
  }

  /** The pieces of a request line, cut where the parser cuts. */
  lemma LineCuts(verb: string, target: string, version: string)
    requires B.NoChar(verb, ' ') && B.NoChar(target, ' ')
    ensures var line := verb + (" " + (target + (" " + version)));
            var begin := |verb| + 1;
            var end := begin + |target|;
            && IndexOf(line, ' ') == |verb| && |verb| < |line| && line[..|verb|] == verb
            && begin <= |line| && TargetEnd(line, begin) == end && end < |line|
            && line[begin..end] == target && line[..end] == (verb + " ") + target
            && line[end + 1..] == version
  {
    var tail := target + (" " + version);
    var line := verb + (" " + tail);
    IndexOfOver(verb, ' ', tail);
    assert line[|verb| + 1..] == tail;
    IndexOfOver(target, ' ', version);
  }

  /** Where the query of a target begins. */
  lemma QuestionFound(front: string, path: string, query: string)
    requires B.NoChar(front, '?') && B.NoChar(path, '?') && (query == "" || query[0] == '?')
    ensures IndexOf(front + (path + query), '?') == |front| + |path|
  {
    var s := front + path;
    Glue(front, path, query);
    if query == "" {
      assert s + query == s;
      IndexOfNone(s, '?');
    } else {
      assert query == ['?'] + query[1..];
      IndexOfOver(s, '?', query[1..]);
    }
  }

  /** OnTarget on a line that is cut well, by definition. */
  lemma GoodTarget(r: Request, line: string, space: nat, question: nat, end: nat)
    requires space < question <= end < |line|
    requires space == IndexOf(line, ' ') && B.NoChar(line[..space], '?')
    requires TargetEnd(line, space + 1) == end && IndexOf(line[..end], '?') == question
    ensures OnTarget(r, line, space) == OnCuts(r, line, space + 1, question, end)
  {
  }

  lemma TargetParses(r: Request, line: string, space: nat, path: string, query: string, version: string)
    requires space + 1 + |path| + |query| < |line|
    requires space == IndexOf(line, ' ') && B.NoChar(line[..space], '?')
    requires var begin := space + 1;
             var end := begin + |path| + |query|;
             && TargetEnd(line, begin) == end && IndexOf(line[..end], '?') == begin + |path|
             && line[begin..end] == path + query && line[end + 1..] == version
    ensures OnTarget(r, line, space) == WithVersion(WithTarget(r, path, query), VersionOf(version))
  {
    hide *;
    CutsParse(r, line, space + 1, path, query, version);
    GoodTarget(r, line, space, space + 1 + |path|, space + 1 + |path| + |query|);
  }

  lemma CutsParse(r: Request, line: string, begin: nat, path: string, query: string, version: string)
    requires begin + |path| + |query| < |line|
    requires var end := begin + |path| + |query|;
             line[begin..end] == path + query && line[end + 1..] == version
    ensures OnCuts(r, line, begin, begin + |path|, begin + |path| + |query|) ==
            WithVersion(WithTarget(r, path, query), VersionOf(version))
  {
    TargetCuts(line, begin, path, query);
  }

  lemma RequestLineParses(r: Request, m: Method, path: string, query: string, v: Version)
    requires !m.Invalid? && !v.Unknown? && PlainPath(path) && PlainQuery(query)
    ensures OnRequestLine(r, RequestLineText(m, path, query, v)) ==
            (Request(m, v, path, if query == "" then r.query else query, r.headers), true)
  {
    VerbParses(m, v);
    LineParses(r, VerbText(m), path, query, VersionText(v), m, v);
  }

  lemma LineParses(r: Request, verb: string, path: string, query: string, version: string, m: Method, v: Version)
    requires MethodOf(verb) == m && !m.Invalid? && VersionOf(version) == v && !v.Unknown?
    requires B.NoChar(verb, ' ') && B.NoChar(verb, '?')
    requires B.NoChar(path, ' ') && B.NoChar(path, '?')
    requires query == "" || (query[0] == '?' && B.NoChar(query, ' '))
    ensures OnRequestLine(r, verb + (" " + ((path + query) + (" " + version)))) ==
            (Request(m, v, path, if query == "" then r.query else query, r.headers), true)
  {
    hide IndexOf, OnTarget, TargetEnd;
    var line := verb + (" " + ((path + query) + (" " + version)));
    LineCuts(verb, path + query, version);
    QuestionFound(verb + " ", path, query);
    TargetParses(r.(verb := m), line, |verb|, path, query, version);
  }

  lemma TargetCuts(line: string, begin: nat, path: string, query: string)
    requires begin + |path + query| <= |line| && line[begin..begin + |path + query|] == path + query
    ensures line[begin..begin + |path|] == path
    ensures line[begin + |path|..begin + |path + query|] == query
  {
    var t := path + query;
    assert line[begin..begin + |path|] == t[..|path|];
    assert line[begin + |path|..begin + |t|] == t[|path|..];
  }

  /** A request's text, in whatever chunks it arrives, yields its method, path,
      query, version and headers, and leaves the bytes behind it. */
  lemma RequestRoundTrip(m: Method, path: string, query: string, v: Version,
                         hs: seq<Header>, rest: string)
    requires !m.Invalid? && !v.Unknown? && PlainPath(path) && PlainQuery(query)
    requires forall i :: 0 <= i < |hs| ==> Writable(hs[i])
    ensures var text := RequestLineText(m, path, query, v) + ("\r\n" + (HeaderText(hs) + rest));
            Feed((true, Context(RequestLine, BLANK, "")), text) ==
            (true, Context(End, Request(m, v, path, query, HeaderMap(map[], hs)), rest))
  {
    var line := RequestLineText(m, path, query, v);
    var tail := HeaderText(hs) + rest;
    LinePlain(m, path, query, v);
    RequestLineParses(BLANK, m, path, query, v);
    FirstLine(line, tail, Request(m, v, path, query, map[]));
    HeadersParse(Request(m, v, path, query, map[]), hs, rest);
  }

  lemma FirstLine(line: string, tail: string, r: Request)
    requires B.NoChar(line, '\r') && OnRequestLine(BLANK, line) == (r, true)
    ensures Feed((true, Context(RequestLine, BLANK, "")), line + ("\r\n" + tail))
            == Parse(Context(Headers, r, tail))
  {
    var text := line + ("\r\n" + tail);
    var c := Context(RequestLine, BLANK, text);
    assert "" + text == text;
    LineTaken(c, line, tail);
    hide OnRequestLine, TakeLine;
  }

  lemma LinePlain(m: Method, path: string, query: string, v: Version)
    requires !m.Invalid? && !v.Unknown? && PlainPath(path) && PlainQuery(query)
    ensures B.NoChar(RequestLineText(m, path, query, v), '\r')
  {
    VerbParses(m, v);
  }
}
