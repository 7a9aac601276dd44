/**
 * The WSGI entry point of passenger_wsgi.py: it runs the analyzer's `main`
 * with its printed output captured, cuts that output into CGI-style
 * headers and a body at the first blank line, and answers with an HTML
 * error page when the analyzer cannot be imported or when `main` raises.
 */
module Wsgi {
  import opened Wrappers
  import opened Collections
  import opened Strings

  // ---------------------------------------------------------- splitlines

  /** The characters Python's `str.splitlines` breaks at (`\r\n` counts as one break). */
  predicate LineBreak(c: char) {
    c == '\n' || c == '\r' || c == '\U{000B}' || c == '\U{000C}'
    || ('\U{001C}' <= c <= '\U{001E}') || c == '\U{0085}' || c == '\U{2028}' || c == '\U{2029}'
  }

  /** `str.splitlines()`: the lines without their breaks; a final break opens no extra line. */
  function SplitLines(s: string): (lines: seq<string>)
    ensures forall i :: 0 <= i < |lines| ==> forall j :: 0 <= j < |lines[i]| ==> !LineBreak(lines[i][j])
    ensures s == "" <==> lines == []
    decreases |s|
  {
    if |s| == 0 then []
    else
      match FirstWhere(s, LineBreak)
      case None => [s]
      case Some(i) =>
        var width := if s[i] == '\r' && i + 1 < |s| && s[i + 1] == '\n' then 2 else 1;
        [s[..i]] + SplitLines(s[i + width..])
  }

  /** Lines joined with `\n` split back into the same lines, when the last one is not empty. */
  lemma {:induction false} SplitLinesJoin(lines: seq<string>)
    requires |lines| > 0 && lines[|lines| - 1] != ""
    requires forall i :: 0 <= i < |lines| ==> forall j :: 0 <= j < |lines[i]| ==> !LineBreak(lines[i][j])
    ensures SplitLines(Join(lines, "\n")) == lines
    decreases |lines|
  {
    if |lines| == 1 {
      assert Join(lines, "\n") == lines[0];
    } else {
      var first := lines[0];
      var rest := Join(lines[1..], "\n");
      var s := first + "\n" + rest;
      assert Join(lines, "\n") == s;
      assert s[|first|] == '\n';
      assert forall j :: 0 <= j < |first| ==> s[j] == first[j];
      FirstWhereAt(s, LineBreak, |first|);
      assert s[..|first|] == first;
      assert s[|first| + 1..] == rest;
      SplitLinesJoin(lines[1..]);
      HeadSplit(lines);
    }
  }

  // ------------------------------------------------------------- headers

  type Header = (string, string)

  /** The content type the page is served with unless the analyzer's output names its own headers. */
  const DefaultHeaders: seq<Header> := [("Content-Type", "text/html; charset=utf-8")]

  /** A header line: what precedes the first `:` and what follows it, both stripped; no header without a `:`. */
  function HeaderOf(line: string): (h: Option<Header>)
    ensures h.Some? <==> Contains(line, ":")
  {
    match SplitOnce(line, ":")
    case None => None
    case Some((key, value)) => Some((PyStrip(key), PyStrip(value)))
  }

  /** The headers of the lines, in order. */
  function HeadersOf(lines: seq<string>): seq<Header>
    decreases |lines|
  {
    if |lines| == 0 then []
    else
      var h := HeaderOf(lines[|lines| - 1]);
      HeadersOf(lines[..|lines| - 1]) + (if h.Some? then [h.value] else [])
  }

  /** The loop of lines 60-64 over the header part. */
  method ParseHeaders(headerPart: string) returns (headers: seq<Header>)
    ensures headers == HeadersOf(SplitLines(headerPart))
  {
    var lines := SplitLines(headerPart);
    headers := [];
    for i := 0 to |lines|
      invariant headers == HeadersOf(lines[..i])
    {
      assert lines[..i + 1][..i] == lines[..i];
      match SplitOnce(lines[i], ":")
      case None =>
      case Some((key, value)) =>
        headers := headers + [(PyStrip(key), PyStrip(value))];
    }
    assert lines[..|lines|] == lines;
  }

  /** A header name and value as a script prints them: no `:` in the name, nothing stripped at either end, no line break. */
  predicate PrintableHeader(h: Header) {
    && ':' !in h.0
    && PyStrip(h.0) == h.0 && PyStrip(h.1) == h.1
    && (forall j :: 0 <= j < |h.0| ==> !LineBreak(h.0[j]))
    && (forall j :: 0 <= j < |h.1| ==> !LineBreak(h.1[j]))
  }

  /** `Name: value`, the form CGI scripts print. */
  function HeaderLine(h: Header): string {
    h.0 + ": " + h.1
  }

  /** The headers printed one per line. */
  function HeaderLines(hs: seq<Header>): (r: seq<string>)
    ensures |r| == |hs| && forall i :: 0 <= i < |hs| ==> r[i] == HeaderLine(hs[i])
    decreases |hs|
  {
    if |hs| == 0 then [] else HeaderLines(hs[..|hs| - 1]) + [HeaderLine(hs[|hs| - 1])]
  }

  /** Stripping a space in front of a stripped value gives the value. */
  lemma StripSpaced(v: string)
    requires PyStrip(v) == v
    ensures PyStrip(" " + v) == v
  {
    var s := " " + v;
    assert s[1..] == v;
    if v == "" {
      assert TrimLeft(s, PySpace) == "";
    } else {
      TrimEnds(v, PySpace);
      assert !PySpace(v[0]);
      assert TrimLeft(v, PySpace) == v;
      assert TrimLeft(s, PySpace) == v;
      assert TrimRight(v, PySpace) == v;
    }
  }

  /** One printed header line reads back as the header. */
  lemma HeaderLineRoundTrip(h: Header)
    requires PrintableHeader(h)
    ensures HeaderOf(HeaderLine(h)) == Some(h)
  {
    assert h.0 + ": " + h.1 == h.0 + ":" + (" " + h.1);
    SplitOnceAt(h.0, ":", " " + h.1);
    StripSpaced(h.1);
  }

  /** Headers printed one per line read back as the same headers. */
  lemma {:induction false} HeadersRoundTrip(hs: seq<Header>)
    requires |hs| > 0 && forall i :: 0 <= i < |hs| ==> PrintableHeader(hs[i])
    ensures HeadersOf(SplitLines(Join(HeaderLines(hs), "\n"))) == hs
  {
    var lines := HeaderLines(hs);
    forall i | 0 <= i < |lines| ensures forall j :: 0 <= j < |lines[i]| ==> !LineBreak(lines[i][j]) {
      HeaderLineNoBreak(hs[i]);
    }
    HeaderLineNoBreak(hs[|hs| - 1]);
    SplitLinesJoin(lines);
    HeadersOfLines(hs);
  }

  lemma {:induction false} HeadersOfLines(hs: seq<Header>)
    requires forall i :: 0 <= i < |hs| ==> PrintableHeader(hs[i])
    ensures HeadersOf(HeaderLines(hs)) == hs
    decreases |hs|
  {
    if |hs| > 0 {
      var n := |hs| - 1;
      assert HeaderLines(hs) == HeaderLines(hs[..n]) + [HeaderLine(hs[n])];
      HeadersOfLines(hs[..n]);
      HeaderLineRoundTrip(hs[n]);
      HeadersOfSnoc(HeaderLines(hs[..n]), HeaderLine(hs[n]), hs[n]);
      LastSplit(hs);
    }
  }

  lemma HeadersOfSnoc(lines: seq<string>, l: string, h: Header)
    requires HeaderOf(l) == Some(h)
    ensures HeadersOf(lines + [l]) == HeadersOf(lines) + [h]
  {
    assert (lines + [l])[..|lines|] == lines;
  }

  // ----------------------------------------------------------- responses

  /** What the application passes to `start_response`, and the body it returns (before UTF-8 encoding). */
  datatype Response = Response(status: string, headers: seq<Header>, body: string)

  const Ok200: string := "200 OK"
  const Error500: string := "500 Internal Server Error"

  /** Lines 58-68: the output cut at its first blank line, or all body with the default headers. */
  function SplitOutput(output: string): (r: (seq<Header>, string))
    ensures !Contains(output, "\n\n") ==> r == (DefaultHeaders, output)
  {
    match SplitOnce(output, "\n\n")
    case None => (DefaultHeaders, output)
    case Some((headerPart, body)) => (HeadersOf(SplitLines(headerPart)), body)
  }

  /** A script that prints its headers, a blank line and a body is served with exactly those headers and that body. */
  lemma SplitOutputRoundTrip(hs: seq<Header>, body: string)
    requires |hs| > 0 && forall i :: 0 <= i < |hs| ==> PrintableHeader(hs[i])
    ensures SplitOutput(Join(HeaderLines(hs), "\n") + "\n\n" + body) == (hs, body)
  {
    var lines := HeaderLines(hs);
    var head := Join(lines, "\n");
    forall i | 0 <= i < |lines| ensures |lines[i]| > 0 && '\n' !in lines[i] {
      HeaderLineNoBreak(hs[i]);
    }
    SmoothJoin(lines);
    SplitOutputAt(head, body);
    HeadersRoundTrip(hs);
  }

  /** Output whose header part holds no blank line is cut just after that part. */
  lemma SplitOutputAt(head: string, body: string)
    requires Smooth(head)
    ensures SplitOutput(head + "\n\n" + body) == (HeadersOf(SplitLines(head)), body)
  {
    FirstBlankLine(head, body);
    var s := head + "\n\n" + body;
    assert s[..|head|] == head && s[|head| + 2..] == body;
  }

  lemma HeaderLineNoBreak(h: Header)
    requires PrintableHeader(h)
    ensures |HeaderLine(h)| > 0 && '\n' !in HeaderLine(h) && forall j :: 0 <= j < |HeaderLine(h)| ==> !LineBreak(HeaderLine(h)[j])
  {
    var l := HeaderLine(h);
    forall j | 0 <= j < |l| ensures !LineBreak(l[j]) {
      if j < |h.0| {
        assert l[j] == h.0[j];
      } else if j >= |h.0| + 2 {
        assert l[j] == h.1[j - |h.0| - 2];
      }
    }
  }

  /** Text that neither starts nor ends with a line break and holds no blank line. */
  predicate Smooth(s: string) {
    |s| > 0 && s[0] != '\n' && s[|s| - 1] != '\n'
    && forall j :: 0 <= j < |s| - 1 ==> s[j] == '\n' ==> s[j + 1] != '\n'
  }

  lemma {:induction false} SmoothJoin(lines: seq<string>)
    requires |lines| > 0 && forall i :: 0 <= i < |lines| ==> |lines[i]| > 0 && '\n' !in lines[i]
    ensures Smooth(Join(lines, "\n"))
    decreases |lines|
  {
    if |lines| > 1 {
      var first := lines[0];
      SmoothJoin(lines[1..]);
      var rest := Join(lines[1..], "\n");
      var s := first + "\n" + rest;
      assert Join(lines, "\n") == s;
      assert forall j :: 0 <= j < |first| ==> s[j] == first[j];
      forall j | |first| <= j < |s| - 1 && s[j] == '\n' ensures s[j + 1] != '\n' {
        if j == |first| {
          assert s[j + 1] == rest[0];
        } else {
          assert s[j] == rest[j - |first| - 1] && s[j + 1] == rest[j - |first|];
        }
      }
      assert s[|s| - 1] == rest[|rest| - 1];
    }
  }

  /** The first blank line of `head + "\n\n" + body` is the one after `head`, when `head` is smooth. */
  lemma FirstBlankLine(head: string, body: string)
    requires Smooth(head)
    ensures IndexOf(head + "\n\n" + body, "\n\n") == Some(|head|)
  {
    var s := head + "\n\n" + body;
    assert s[|head|..][..2] == "\n\n";
    forall j | 0 <= j < |head| ensures !IsPrefix("\n\n", s[j..]) {
      assert s[j] == head[j];
      if j + 1 < |head| {
        assert s[j + 1] == head[j + 1];
      } else {
        assert s[j + 1] == '\n';
      }
    }
    IndexOfAt(s, "\n\n", |head|);
  }

  /** `traceback.format_exc()` shown inside `<pre>` on the import-failure page: `<` becomes `&lt;`. */
  function ImportFailurePage(trace: string): string {
    "<html><body><h1>Error Crítico al Cargar Módulo</h1>" + "<p>No se pudo importar 'analyzer.py'.</p>"
    + "<pre>" + ReplaceAll(trace, "<", "&lt;") + "</pre>" + "</body></html>"
  }

  /** Line 73 as written: line breaks become `<br>` and spaces `&nbsp;`, but `<` is left as it is. */
  function TracebackHtml(trace: string): string {
    ReplaceAll(ReplaceAll(trace, "\n", "<br>"), " ", "&nbsp;")
  }

  function MainFailurePage(tb: string): string {
    "<html><body>" + "<h1>Error en la Aplicación (analyzer.py)</h1>" + "<p>La función main() falló.</p>"
    + "<pre>" + tb + "</pre>" + "</body></html>"
  }

  /** Whether the analyzer module could be imported when the server started. */
  datatype Startup = Ready | ImportFailed(trace: string)

  /** What the analyzer's `main` did: printed its output, or raised with this traceback. */
  datatype MainRun = Printed(output: string) | Raised(trace: string)

  /** `application(environ, start_response)`, given the startup state and what `main` does on this request. */
  function Application(startup: Startup, run: MainRun): (r: Response)
    ensures startup.ImportFailed? ==> r == Response(Error500, DefaultHeaders, ImportFailurePage(startup.trace))
    ensures startup.Ready? && run.Raised? ==> r == Response(Error500, DefaultHeaders, MainFailurePage(TracebackHtml(run.trace)))
    ensures startup.Ready? && run.Printed? ==> r == Response(Ok200, SplitOutput(run.output).0, SplitOutput(run.output).1)
  {
    match startup
    case ImportFailed(trace) => Response(Error500, DefaultHeaders, ImportFailurePage(trace))
    case Ready =>
      match run
      case Raised(trace) => Response(Error500, DefaultHeaders, MainFailurePage(TracebackHtml(trace)))
      case Printed(output) =>
        var (headers, body) := SplitOutput(output);
        Response(Ok200, headers, body)
  }

  /** When `main` prints header lines, a blank line and a body, the response carries those headers and that body. */
  lemma ApplicationRoundTrip(hs: seq<Header>, body: string)
    requires |hs| > 0 && forall i :: 0 <= i < |hs| ==> PrintableHeader(hs[i])
    ensures Application(Ready, Printed(Join(HeaderLines(hs), "\n") + "\n\n" + body)) == Response(Ok200, hs, body)
  {
    SplitOutputRoundTrip(hs, body);
  }

  /** When `main` raises, every `<` of its traceback reaches the error page unescaped. */
  lemma ApplicationShowsTraceback(trace: string)
    ensures Application(Ready, Raised(trace)).body == MainFailurePage(TracebackHtml(trace))
    ensures Occurrences(TracebackHtml(trace), '<') == Occurrences(trace, '<') + Occurrences(trace, '\n')
  {
    TracebackKeepsTags(trace);
  }

  /** Replacing `c` by a text without `d` leaves the count of `d` as it was. */
  lemma {:induction false} ReplaceKeepsCount(s: string, c: char, rep: string, d: char)
    requires c != d && d !in rep
    ensures Occurrences(ReplaceAll(s, [c], rep), d) == Occurrences(s, d)
    decreases |s|
  {
    if |s| > 0 {
      ReplaceKeepsCount(s[1..], c, rep, d);
      var tail := ReplaceAll(s[1..], [c], rep);
      if s[0] == c {
        assert IsPrefix([c], s);
        OccurrencesAppend(rep, tail, d);
      } else {
        assert !IsPrefix([c], s);
        OccurrencesAppend([s[0]], tail, d);
      }
    }
  }

  /** Replacing `c` by a text with one `d`: each `c` adds one `d`. */
  lemma {:induction false} ReplaceAddsCount(s: string, c: char, rep: string, d: char)
    requires c != d && Occurrences(rep, d) == 1
    ensures Occurrences(ReplaceAll(s, [c], rep), d) == Occurrences(s, d) + Occurrences(s, c)
    decreases |s|
  {
    if |s| > 0 {
      ReplaceAddsCount(s[1..], c, rep, d);
      var tail := ReplaceAll(s[1..], [c], rep);
      if s[0] == c {
        assert IsPrefix([c], s);
        OccurrencesAppend(rep, tail, d);
      } else {
        assert !IsPrefix([c], s);
        OccurrencesAppend([s[0]], tail, d);
      }
    }
  }

  /** Replacing every `c` by a text without `c` leaves no `c`. */
  lemma {:induction false} ReplaceRemoves(s: string, c: char, rep: string)
    requires c !in rep
    ensures Occurrences(ReplaceAll(s, [c], rep), c) == 0
    decreases |s|
  {
    if |s| > 0 {
      ReplaceRemoves(s[1..], c, rep);
      var tail := ReplaceAll(s[1..], [c], rep);
      if s[0] == c {
        assert IsPrefix([c], s);
        OccurrencesAppend(rep, tail, c);
      } else {
        assert !IsPrefix([c], s);
        OccurrencesAppend([s[0]], tail, c);
      }
    }
  }

  /** On the import-failure page, no `<` of the traceback survives to open a tag. */
  lemma ImportFailureEscaped(trace: string)
    ensures '<' !in ReplaceAll(trace, "<", "&lt;")
  {
    ReplaceRemoves(trace, '<', "&lt;");
  }

  /** Line 73 as written: each `<` of the traceback reaches the page as is, beside the `<br>` of each line break. */
  lemma TracebackKeepsTags(trace: string)
    ensures Occurrences(TracebackHtml(trace), '<') == Occurrences(trace, '<') + Occurrences(trace, '\n')
  {
    var broken := ReplaceAll(trace, "\n", "<br>");
    assert "<br>" == "<" + "br>";
    OccurrencesAppend("<", "br>", '<');
    assert Occurrences("<br>", '<') == 1;
    assert '<' !in "&nbsp;";
    ReplaceAddsCount(trace, '\n', "<br>", '<');
    ReplaceKeepsCount(broken, ' ', "&nbsp;", '<');
  }

  /** A frame named `<...>` keeps its `<`, which the browser reads as the start of a tag. */
  lemma AngleFrameShown(name: string)
    requires '<' !in name && '\n' !in name
    ensures Occurrences(TracebackHtml("<" + name), '<') == 1
  {
    TracebackKeepsTags("<" + name);
    OccurrencesAppend("<", name, '<');
    OccurrencesAppend("<", name, '\n');
  }

  /** The frame of a list comprehension, `<listcomp>`, reaches the page with its `<` unescaped. */
  lemma ComprehensionFrameShown()
    ensures Occurrences(TracebackHtml("<listcomp>"), '<') == 1
  {
    assert "<listcomp>" == "<" + "listcomp>";
    AngleFrameShown("listcomp>");
  }

  // ------------------------------------------- as line 73 evidently intends

  /** The traceback as line 73 evidently intends it: `<` escaped first, as the import-failure page does. */
  function EscapedTraceback(trace: string): string {
    TracebackHtml(ReplaceAll(trace, "<", "&lt;"))
  }

  /** With `<` escaped first, the only `<` in the page's traceback are the `<br>` of its line breaks. */
  lemma EscapedTracebackTags(trace: string)
    ensures Occurrences(EscapedTraceback(trace), '<') == Occurrences(trace, '\n')
  {
    var e := ReplaceAll(trace, "<", "&lt;");
    ReplaceRemoves(trace, '<', "&lt;");
    assert '\n' !in "&lt;";
    ReplaceKeepsCount(trace, '<', "&lt;", '\n');
    TracebackKeepsTags(e);
  }

  // ------------------------------------------------------------ environ

  /** Lines 41-44: the CGI variables the analyzer reads, from the WSGI environ or their defaults. */
  function CgiVariables(environ: map<string, string>): (env: map<string, string>)
    ensures env.Keys == {"REQUEST_METHOD", "QUERY_STRING", "CONTENT_TYPE", "CONTENT_LENGTH"}
    ensures forall k :: k in env ==> env[k] == (if k in environ then environ[k] else CgiDefault(k))
  {
    map k | k in {"REQUEST_METHOD", "QUERY_STRING", "CONTENT_TYPE", "CONTENT_LENGTH"}
      :: if k in environ then environ[k] else CgiDefault(k)
  }

  /** A GET with no query string and no body, unless the server says otherwise. */
  function CgiDefault(k: string): string {
    if k == "REQUEST_METHOD" then "GET" else if k == "CONTENT_LENGTH" then "0" else ""
  }
}
