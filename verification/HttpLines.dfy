/** Which lines of a request are good, what a bad one leaves, and what is trimmed off a
    header's value, stated over tables and shapes of lines. */
module HttpLines {
  import opened Text
  import opened HttpSpec
  import B = Buffer

  const METHODS: seq<(string, Method)> := [("GET", Get), ("POST", Post), ("HEAD", Head), ("PUT", Put),
                                           ("DELETE", Delete)]

  const VERSIONS: seq<(string, Version)> := [("HTTP/1.0", Http10), ("HTTP/1.1", Http11)]

  /** The methods are those of the table. */
  lemma MethodExactly(s: string, m: Method)
    requires !m.Invalid?
    ensures MethodOf(s) == m <==> exists k :: 0 <= k < |METHODS| && METHODS[k] == (s, m)
  {
    var t := METHODS;
    assert t[0] == ("GET", Get) && t[1] == ("POST", Post) && t[2] == ("HEAD", Head);
    assert t[3] == ("PUT", Put) && t[4] == ("DELETE", Delete);
  }

  lemma VersionExactly(s: string, v: Version)
    requires !v.Unknown?
    ensures VersionOf(s) == v <==> exists k :: 0 <= k < |VERSIONS| && VERSIONS[k] == (s, v)
  {
    var t := VERSIONS;
    assert t[0] == ("HTTP/1.0", Http10) && t[1] == ("HTTP/1.1", Http11);
    assert "HTTP/1." + ['0'] == t[0].0 && "HTTP/1." + ['1'] == t[1].0;
    if VersionOf(s) == v {
      assert s == s[..7] + [s[7]];
      assert t[if v.Http10? then 0 else 1] == (s, v);
    }
    assert t[0].0[..7] == "HTTP/1." && t[1].0[..7] == "HTTP/1.";
  }

  /** The pieces of a good request line. */
  datatype Line = Line(verb: string, path: string, query: string, version: string) {
    function Show(): string { verb + (" " + ((path + query) + (" " + version))) }

    /** The target holds no space, and the query is what begins with its first question
        mark. */
    predicate Cut() {
      && B.NoChar(path, ' ') && B.NoChar(path, '?')
      && (query == "" || (query[0] == '?' && B.NoChar(query, ' ')))
    }

    predicate Good() { !MethodOf(verb).Invalid? && Cut() && !VersionOf(version).Unknown? }
  }

  lemma VerbPlain(verb: string)
    requires !MethodOf(verb).Invalid?
    ensures B.NoChar(verb, ' ') && B.NoChar(verb, '?')
  {
  }

  lemma GoodParses(r: Request, l: Line)
    requires l.Good()
    ensures OnRequestLine(r, l.Show()) ==
            (Request(MethodOf(l.verb), VersionOf(l.version), l.path, if l.query == "" then r.query else l.query,
                     r.headers), true)
  {
    VerbPlain(l.verb);
    LineParses(r, l.verb, l.path, l.query, l.version, MethodOf(l.verb), VersionOf(l.version));
  }

  /** How a line is cut at two spaces and the first question mark between them. */
  lemma CutUp(line: string, space: nat, end: nat) returns (l: Line)
    requires space < end < |line| && line[space] == ' ' && line[end] == ' '
    requires B.NoChar(line[space + 1..end], ' ')
    ensures l.Show() == line && l.Cut() && l.verb == line[..space] && l.version == line[end + 1..]
  {
    var target := line[space + 1..end];
    var q := IndexOf(target, '?');
    IndexOfFirst(target, '?');
    l := Line(line[..space], target[..q], target[q..], line[end + 1..]);
    assert l.path + l.query == target;
    Pieces(line, space, end);
    hide IndexOf;
  }

  lemma Pieces(line: string, space: nat, end: nat)
    requires space < end < |line| && line[space] == ' ' && line[end] == ' '
    ensures line == line[..space] + (" " + (line[space + 1..end] + (" " + line[end + 1..])))
  {
    var back := line[end..];
    assert back == " " + line[end + 1..];
    assert line[space + 1..] == line[space + 1..end] + back;
    assert line[space..] == " " + line[space + 1..];
    assert line == line[..space] + line[space..];
  }

  lemma AcceptedCuts(r: Request, line: string) returns (l: Line)
    requires OnRequestLine(r, line).1
    ensures l.Good() && l.Show() == line
  {
    var space := IndexOf(line, ' ');
    IndexOfFirst(line, ' ');
    VerbHasNoQuestion(line[..space]);
    var end := TargetEnd(line, space + 1);
    EndIsSpace(line, space + 1);
    hide IndexOf, MethodOf, VersionOf, TargetEnd;
    l := CutUp(line, space, end);
  }

  lemma EndIsSpace(line: string, begin: nat)
    requires begin <= |line|
    ensures var end := TargetEnd(line, begin);
            B.NoChar(line[begin..end], ' ') && (end < |line| ==> line[end] == ' ')
  {
    var tail := line[begin..];
    IndexOfFirst(tail, ' ');
    var i := IndexOf(tail, ' ');
    assert i < |tail| ==> tail[i] == line[begin + i];
    assert forall j :: 0 <= j < i ==> line[begin..begin + i][j] == tail[j];
  }

  /** A request line is accepted exactly if it is a method of the table, a target and a
      version of the table, with a space between them. */
  lemma AcceptedIff(r: Request, line: string)
    ensures OnRequestLine(r, line).1 <==> exists l: Line :: l.Good() && l.Show() == line
  {
    if OnRequestLine(r, line).1 {
      var l := AcceptedCuts(r, line);
    }
    forall l: Line | l.Good() && l.Show() == line ensures OnRequestLine(r, line).1 {
      GoodParses(r, l);
    }
    hide OnRequestLine, Line.Good, Line.Show;
  }

  // --------------------------------------------------------------- bad lines

  /** A line without a space leaves the request as it was; one with an unknown method
      leaves that; one without a second space has set the method. */
  lemma BadFront(r: Request, verb: string, rest: string)
    requires B.NoChar(verb, ' ')
    ensures OnRequestLine(r, verb) == (r, false)
    ensures MethodOf(verb).Invalid? ==> OnRequestLine(r, verb + (" " + rest)) == (r.(verb := Invalid), false)
    ensures !MethodOf(verb).Invalid? && B.NoChar(rest, ' ') ==>
              OnRequestLine(r, verb + (" " + rest)) == (r.(verb := MethodOf(verb)), false)
  {
    IndexOfNone(verb, ' ');
    IndexOfOver(verb, ' ', rest);
    var line := verb + (" " + rest);
    assert line[..|verb|] == verb && line[|verb| + 1..] == rest;
    if B.NoChar(rest, ' ') {
      IndexOfNone(rest, ' ');
    }
    hide IndexOf, MethodOf;
  }

  /** And one with an unknown version has set the method, the path and the query. */
  lemma BadVersion(r: Request, l: Line)
    requires !MethodOf(l.verb).Invalid? && l.Cut() && VersionOf(l.version).Unknown?
    ensures OnRequestLine(r, l.Show()) ==
            (r.(verb := MethodOf(l.verb), path := l.path, query := if l.query == "" then r.query else l.query), false)
  {
    VerbPlain(l.verb);
    hide IndexOf, OnTarget, TargetEnd, MethodOf, VersionOf;
    LineCuts(l.verb, l.path + l.query, l.version);
    QuestionFound(l.verb + " ", l.path, l.query);
    TargetParses(r.(verb := MethodOf(l.verb)), l.Show(), |l.verb|, l.path, l.query, l.version);
  }

  /** A bad request line stops the parser with all its bytes left, whatever follows. */
  lemma BadLineStops(r: Request, line: string, rest: string, more: string)
    requires B.NoChar(line, '\r') && !OnRequestLine(r, line).1
    ensures var text := line + ("\r\n" + rest);
            var s := Feed((true, Context(RequestLine, r, "")), text);
            && s == (false, Context(RequestLine, OnRequestLine(r, line).0, text))
            && Feed(s, more) == (false, Context(RequestLine, OnRequestLine(r, line).0, text + more))
  {
    var text := line + ("\r\n" + rest);
    var c := Context(RequestLine, r, text);
    assert "" + text == text;
    LineTaken(c, line, rest);
    hide OnRequestLine, TakeLine;
  }

  // ----------------------------------------------------------------- headers

  /** The six codes of white space in the C locale. */
  lemma SpaceExactly(c: char)
    ensures IsSpace(c) <==> c as int in {0x20, 0x09, 0x0A, 0x0B, 0x0C, 0x0D}
  {
  }

  lemma {:induction false} TrimTail(v: string, back: string)
    requires AllSpace(back) && (v != [] ==> !IsSpace(v[|v| - 1]))
    ensures TrimBack(v + back) == v
    decreases |back|
  {
    if back == [] {
      assert v + back == v;
    } else {
      var n := |back| - 1;
      assert (v + back)[..|v + back| - 1] == v + back[..n];
      TrimTail(v, back[..n]);
    }
  }

  lemma AllSpaceTrims(s: string)
    requires AllSpace(s)
    ensures TrimFront(s) == ""
  {
    TrimPad(s, "");
    assert s + "" == s;
  }

  /** The value of a header is what is left without the white space on both sides; a name
      may not hold a colon, a value may. */
  lemma HeaderTrims(r: Request, name: string, front: string, v: string, back: string)
    requires B.NoChar(name, ':') && AllSpace(front) && AllSpace(back)
    requires v != [] ==> !IsSpace(v[0]) && !IsSpace(v[|v| - 1])
    ensures var line := name + (":" + (front + (v + back)));
            && IndexOf(line, ':') == |name|
            && AddHeader(r, line, |name|) == r.(headers := r.headers[name := v])
  {
    var line := name + (":" + (front + (v + back)));
    IndexOfOver(name, ':', front + (v + back));
    assert line[..|name|] == name && line[|name| + 1..] == front + (v + back);
    if v == [] {
      assert v + back == back;
      AllSpaceTrims(front + back);
    } else {
      assert (v + back)[0] == v[0];
      TrimPad(front, v + back);
      TrimTail(v, back);
    }
  }

  /** Any line without a colon ends the headers, and so does the empty one. */
  lemma ColonlessEnds(r: Request, line: string, rest: string)
    requires B.NoChar(line, ':') && B.NoChar(line, '\r')
    ensures Parse(Context(Headers, r, line + ("\r\n" + rest))) == (true, Context(End, r, rest))
  {
    var c := Context(Headers, r, line + ("\r\n" + rest));
    LineTaken(c, line, rest);
    IndexOfNone(line, ':');
    hide TakeLine, IndexOf;
  }
}
