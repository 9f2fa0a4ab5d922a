/** The HTTP request and its parser as they are written, over the byte buffer. */
module HttpContext {
  import opened Text
  import opened HttpSpec
  import B = Buffer

  class HttpRequest {
    var verb: Method
    var version: Version
    var path: string
    var query: string
    var headers: map<string, string>

    ghost function State(): Request
      reads this
    {
      Request(verb, version, path, query, headers)
    }

    constructor ()
      ensures State() == BLANK
    {
      verb, version, path, query, headers := Invalid, Unknown, "", "", map[];
    }

    method SetMethod(s: string) returns (ok: bool)
      modifies this
      ensures State() == old(State()).(verb := MethodOf(s)) && ok == !MethodOf(s).Invalid?
    {
      if s == "GET" {
        verb := Get;
      } else if s == "POST" {
        verb := Post;
      } else if s == "HEAD" {
        verb := Head;
      } else if s == "PUT" {
        verb := Put;
      } else if s == "DELETE" {
        verb := Delete;
      } else {
        verb := Invalid;
      }
      ok := verb != Invalid;
    }

    method SetPath(s: string)
      modifies this
      ensures State() == old(State()).(path := s)
    {
      path := s;
    }

    method SetQuery(s: string)
      modifies this
      ensures State() == old(State()).(query := s)
    {
      query := s;
    }

    method SetVersion(v: Version)
      modifies this
      ensures State() == old(State()).(version := v)
    {
      version := v;
    }

    method AddHeader(line: string, colon: nat)
      requires colon < |line|
      modifies this
      ensures State() == HttpSpec.AddHeader(old(State()), line, colon)
    {
      var name := line[..colon];
      var at := colon + 1;
      while at < |line| && IsSpace(line[at])
        invariant at <= |line| && TrimFront(line[at..]) == TrimFront(line[colon + 1..])
      {
        assert line[at..][1..] == line[at + 1..];
        at := at + 1;
      }
      var value := line[at..];
      while value != [] && IsSpace(value[|value| - 1])
        invariant TrimBack(value) == TrimBack(line[at..])
        decreases |value|
      {
        value := value[..|value| - 1];
      }
      headers := headers[name := value];
    }
  }

  lemma VersionCases(s: string)
    ensures |s| != 8 || s[..7] != "HTTP/1." ==> VersionOf(s).Unknown?
  {
  }

  class HttpContext {
    const request: HttpRequest
    var part: Part

    constructor ()
      ensures fresh(request) && request.State() == BLANK && part == RequestLine
    {
      request := new HttpRequest();
      part := RequestLine;
    }

    method PartOnRequestLine(line: string) returns (succeed: bool)
      modifies request
      ensures (request.State(), succeed) == OnRequestLine(old(request.State()), line)
    {
      hide IndexOf, TargetEnd, MethodOf;
      succeed := false;
      var space := IndexOf(line, ' ');
      if space != |line| {
        var known := request.SetMethod(line[..space]);
        if known {
          var begin := space + 1;
          var end := TargetEnd(line, begin);
          if end != |line| {
            VerbHasNoQuestion(line[..space]);
            QuestionInTarget(line, space, end);
            var question := IndexOf(line[..end], '?');
            if question != end {
              request.SetPath(line[begin..question]);
              request.SetQuery(line[question..end]);
            } else {
              request.SetPath(line[begin..end]);
            }
            begin := end + 1;
            succeed := |line| - begin == 8 && line[begin..|line| - 1] == "HTTP/1.";
            VersionCases(line[begin..]);
            if succeed {
              assert line[begin..][..7] == line[begin..|line| - 1];
              if line[|line| - 1] == '1' {
                request.SetVersion(Http11);
              } else if line[|line| - 1] == '0' {
                request.SetVersion(Http10);
              } else {
                succeed := false;
              }
            }
          }
        }
      }
    }

    /** Its precondition leaves out the phases in which the loop does not end
        (HttpSpec.TerminatesIff). */
    method ParseRequest(buf: B.Buffer) returns (right: bool)
      requires buf.Valid() && (part == RequestLine || part == Headers)
      modifies this, request, buf
      ensures buf.Valid()
      ensures (right, Context(part, request.State(), buf.Contents())) ==
              Parse(Context(old(part), old(request.State()), old(buf.Contents())))
    {
      ghost var whole := Parse(Context(part, request.State(), buf.Contents()));
      right := true;
      var more := true;
      while more
        invariant buf.Valid()
        invariant more ==> right && (part == RequestLine || part == Headers)
        invariant more ==> Parse(Context(part, request.State(), buf.Contents())) == whole
        invariant !more ==> (right, Context(part, request.State(), buf.Contents())) == whole
        decreases more, |buf.Contents()|
      {
        right, more := TakeOneLine(buf);
      }
    }

    /** One turn of the loop of parseRequst. */
    method TakeOneLine(buf: B.Buffer) returns (right: bool, more: bool)
      requires buf.Valid() && (part == RequestLine || part == Headers)
      modifies this, request, buf
      ensures buf.Valid()
      ensures var c := Context(old(part), old(request.State()), old(buf.Contents()));
              var d := Context(part, request.State(), buf.Contents());
              match TakeLine(c)
              case NeedMore => right && !more && d == c
              case Done(ok, e) => right == ok && !more && d == e
              case Next(e) => right && more && d == e && |d.buffer| < |c.buffer|
    {
      hide OnRequestLine, IndexOf, B.FindCrlf;
      right := true;
      more := true;
      var crlf := buf.FindCRLF();
      if crlf.None? {
        more := false;
        return;
      }
      ghost var bytes := buf.Contents();
      var i := crlf.value;
      var line := buf.Peek(i);
      assert B.Retrieved(bytes, i + 2) == bytes[i + 2..];
      if part == RequestLine {
        right := PartOnRequestLine(line);
        if right {
          buf.Retrieve(i + 2);
          part := Headers;
        } else {
          more := false;
        }
      } else {
        var colon := IndexOf(line, ':');
        if colon != |line| {
          request.AddHeader(line, colon);
        } else {
          part := End;
          more := false;
        }
        buf.Retrieve(i + 2);
      }
    }
  }
}
