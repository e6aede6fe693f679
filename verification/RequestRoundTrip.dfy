/** Printing a request in any spelling and parsing it back, however the printed bytes are cut into reads. */
module RequestRoundTrip {
  import opened Options
  import opened CStrings
  import opened RequestMachine
  import opened RequestGrammar

  /** A header line: a known name in any case, any blanks behind its colon, and a value; or any other line. */
  datatype Header =
    | HostIs(name: string, gap: string, value: string)
    | ConnectionIs(name: string, gap: string, value: string)
    | LengthIs(name: string, gap: string, n: nat)
    | Plain(text: string)

  function NamedLine(name: string, gap: string, value: string): string { name + ":" + (gap + value) }

  function PrintHeader(h: Header): string {
    match h
    case HostIs(name, gap, value) => NamedLine(name, gap, value)
    case ConnectionIs(name, gap, value) => NamedLine(name, gap, value)
    case LengthIs(name, gap, n) => NamedLine(name, gap, Decimal(n))
    case Plain(text) => text
  }

  function Meaning(h: Header): Field {
    match h
    case HostIs(_, _, value) => Host(value)
    case ConnectionIs(_, _, value) => Connection(Same(value, "keep-alive"))
    case LengthIs(_, _, n) => ContentLength(n)
    case Plain(_) => Other
  }

  /** Text that survives as one line and as one C string. */
  ghost predicate OneLine(s: string) { NUL !in s && Unbroken(s) }

  /** The name of a header line: what stands before its first colon. */
  function NameOf(text: string): Option<string> {
    var i := Find(text, {':'});
    if i == |text| then None else Some(text[..i])
  }

  predicate KnownName(name: string) {
    Same(name, "Connection") || Same(name, "Content-Length") || Same(name, "Host")
  }

  /** A header that the parser does not know: it has no colon, or another name before it. */
  predicate OtherName(text: string) { NameOf(text).Some? ==> !KnownName(NameOf(text).value) }

  ghost predicate GoodValue(gap: string, value: string) {
    Blanks(gap) && OneLine(value) && (value == "" || !IsBlank(value[0]))
  }

  ghost predicate GoodHeader(h: Header) {
    match h
    case HostIs(name, gap, value) => Same(name, "Host") && GoodValue(gap, value)
    case ConnectionIs(name, gap, value) => Same(name, "Connection") && GoodValue(gap, value)
    case LengthIs(name, gap, _) => Same(name, "Content-Length") && Blanks(gap)
    case Plain(text) => OneLine(text) && text != "" && OtherName(text)
  }

  function HostOf(headers: seq<Header>): Option<string> {
    if headers == [] then None else
    match headers[|headers| - 1]
    case HostIs(_, _, value) => Some(value)
    case _ => HostOf(headers[..|headers| - 1])
  }

  function LengthOf(headers: seq<Header>): nat {
    if headers == [] then 0 else
    match headers[|headers| - 1]
    case LengthIs(_, _, n) => n
    case _ => LengthOf(headers[..|headers| - 1])
  }

  predicate KeepsAlive(headers: seq<Header>) {
    exists i :: 0 <= i < |headers| && headers[i].ConnectionIs? && Same(headers[i].value, "keep-alive")
  }

  function Printed(headers: seq<Header>): seq<string> {
    seq(|headers|, i requires 0 <= i < |headers| => PrintHeader(headers[i]))
  }

  /** What stands in front of the path of a target. */
  datatype Origin = Bare | At(scheme: string, host: string)

  datatype Line = Line(verb: string, sep1: char, origin: Origin, path: string, sep2: char, version: string)

  function UrlOf(l: Line): string {
    match l.origin
    case Bare => l.path
    case At(scheme, host) => scheme + host + l.path
  }

  function PrintLine(l: Line): string { l.verb + [l.sep1] + UrlOf(l) + [l.sep2] + l.version }

  /** Free of blanks and control characters. */
  ghost predicate Visible(s: string) { forall k :: 0 <= k < |s| ==> s[k] > ' ' }

  ghost predicate GoodLine(l: Line) {
    && Same(l.verb, "GET") && IsBlank(l.sep1) && IsBlank(l.sep2) && Same(l.version, "HTTP/1.1")
    && l.path != "" && l.path[0] == '/' && Visible(l.path)
    && (l.origin.At? ==>
          && Same(l.origin.scheme, "http://") && Visible(l.origin.host)
          && forall k :: 0 <= k < |l.origin.host| ==> l.origin.host[k] != '/')
  }

  function Print(l: Line, headers: seq<Header>, body: string): string {
    Render(Message(PrintLine(l), Printed(headers), "", body))
  }

  // ---- one header ----

  /** Another spelling of visible text is visible. */
  lemma SameVisible(a: string, b: string)
    requires Same(a, b) && Visible(b)
    ensures Visible(a) && OneLine(a)
  {
    forall k | 0 <= k < |a| ensures a[k] > ' ' {
      assert SameLetter(a[k], b[k]);
    }
  }

  lemma BlanksOneLine(s: string)
    requires Blanks(s)
    ensures OneLine(s)
  {
  }

  lemma OneLineJoin(a: string, b: string)
    requires OneLine(a) && OneLine(b)
    ensures OneLine(a + b)
  {
  }

  lemma OneLineDecimal(n: nat)
    ensures OneLine(Decimal(n)) && !IsBlank(Decimal(n)[0])
  {
    var s := Decimal(n);
    assert forall k :: 0 <= k < |s| ==> IsDigit(s[k]);
  }

  /** A line starts with a name and a colon exactly when what stands before its first colon is that name in any case. */
  lemma StartsWithName(text: string, name: string)
    requires ':' !in name
    ensures StartsFold(text, name + ":") <==> NameOf(text).Some? && Same(NameOf(text).value, name)
  {
    hide Find, StartsFold;
    var i, p := Find(text, {':'}), name + ":";
    PrefixFoldIff(text, p);
    if StartsFold(text, p) {
      assert forall k :: 0 <= k < |p| ==> SameLetter(text[..|p|][k], p[k]);
      assert forall k :: 0 <= k < |name| ==> p[k] == name[k];
      assert text[|name|] == ':';
    }
  }

  lemma NamesOf(text: string)
    ensures StartsFold(text, "connection:") <==> NameOf(text).Some? && Same(NameOf(text).value, "Connection")
    ensures StartsFold(text, "Content-Length:") <==> NameOf(text).Some? && Same(NameOf(text).value, "Content-Length")
    ensures StartsFold(text, "Host:") <==> NameOf(text).Some? && Same(NameOf(text).value, "Host")
  {
    hide StartsFold, NameOf;
    StartsWithName(text, "connection");
    StartsWithName(text, "Content-Length");
    StartsWithName(text, "Host");
    assert "connection" + ":" == "connection:" && "Host" + ":" == "Host:";
    assert "Content-Length" + ":" == "Content-Length:";
    assert SameLetter('C', 'c') && forall name :: Same(name, "connection") <==> Same(name, "Connection");
  }

  /** The parser passes over exactly the header lines of another name. */
  lemma OtherIff(text: string)
    ensures ParseField(text) == Other <==> OtherName(text)
  {
    hide StartsFold, FieldValue, Atol, EqFold, NameOf, Same;
    NamesOf(text);
  }

  /** What the parser takes for the name and for the value of a line with a colon. */
  lemma NameAndValue(name: string, gap: string, value: string)
    requires ':' !in name && Blanks(gap) && (value == "" || !IsBlank(value[0]))
    ensures var text := NamedLine(name, gap, value);
      NameOf(text) == Some(name) && FieldValue(text, |name| + 1) == value
  {
    hide Find, Span;
    var text := NamedLine(name, gap, value);
    assert text == name + [':'] + (gap + value);
    FindSplit(name, ':', gap + value, {':'});
    assert text[..|name|] == name && text[|name| + 1..] == gap + value;
    BlankSet();
    SpanSplit(gap, value, BLANK);
    assert (gap + value)[|gap|..] == value;
  }

  /** What a header line with a colon means, for every name, any blanks and every value. */
  lemma NamedField(name: string, gap: string, value: string)
    requires ':' !in name && Blanks(gap) && (value == "" || !IsBlank(value[0]))
    ensures ParseField(NamedLine(name, gap, value)) ==
      if Same(name, "Connection") then Connection(Same(value, "keep-alive"))
      else if Same(name, "Content-Length") then ContentLength(Atol(value))
      else if Same(name, "Host") then Host(value)
      else Other
  {
    hide StartsFold, FieldValue, Atol, EqFold, NameOf;
    NameAndValue(name, gap, value);
    NamesOf(NamedLine(name, gap, value));
    FoldIff(value, "keep-alive");
  }

  lemma NoColon(name: string, word: string)
    requires Same(name, word) && ':' !in word
    ensures ':' !in name
  {
    forall k | 0 <= k < |name| ensures name[k] != ':' {
      assert SameLetter(name[k], word[k]) && word[k] in word;
    }
  }

  /** What a printed header reads back as. */
  lemma MeaningBack(h: Header)
    requires GoodHeader(h)
    ensures ParseField(PrintHeader(h)) == Meaning(h)
  {
    hide ParseField, Decimal, OtherName, OneLine, Atol, NamedLine;
    match h
    case HostIs(name, gap, value) =>
      NoColon(name, "Host");
      NamedField(name, gap, value);
    case ConnectionIs(name, gap, value) =>
      NoColon(name, "Connection");
      NamedField(name, gap, value);
    case LengthIs(name, gap, n) =>
      NoColon(name, "Content-Length");
      OneLineDecimal(n);
      AtolOfDecimal(n);
      NamedField(name, gap, Decimal(n));
    case Plain(text) => OtherIff(text);
  }

  lemma NamedOneLine(name: string, word: string, gap: string, value: string)
    requires Same(name, word) && Visible(word) && Blanks(gap) && OneLine(value)
    ensures OneLine(NamedLine(name, gap, value)) && NamedLine(name, gap, value) != ""
  {
    hide Same;
    SameVisible(name, word);
    BlanksOneLine(gap);
    hide OneLine;
    assert OneLine(":") by { ColonOneLine(); }
    OneLineJoin(gap, value);
    OneLineJoin(name, ":");
    OneLineJoin(name + ":", gap + value);
  }

  lemma ColonOneLine()
    ensures OneLine(":")
  {
  }

  lemma HeaderBack(h: Header)
    requires GoodHeader(h)
    ensures OneLine(PrintHeader(h)) && PrintHeader(h) != "" && ParseField(PrintHeader(h)) == Meaning(h)
  {
    hide ParseField, Decimal, OtherName, OneLine, Same, NamedLine;
    MeaningBack(h);
    match h
    case HostIs(name, gap, value) => NamedOneLine(name, "Host", gap, value);
    case ConnectionIs(name, gap, value) => NamedOneLine(name, "Connection", gap, value);
    case LengthIs(name, gap, n) =>
      OneLineDecimal(n);
      NamedOneLine(name, "Content-Length", gap, Decimal(n));
    case Plain(_) =>
  }

  // ---- the header list ----

  lemma {:induction false} HeadersBack(headers: seq<Header>)
    requires forall h :: h in headers ==> GoodHeader(h)
    ensures var fields := Texts(Printed(headers));
      && LastLength(fields, 0) == LengthOf(headers) && LastHost(fields, None) == HostOf(headers)
      && (KeepAlive(fields) <==> KeepsAlive(headers))
  {
    hide PrintHeader, ParseField, Same, GoodHeader;
    if headers != [] {
      var h, front := headers[|headers| - 1], headers[..|headers| - 1];
      var fields := Texts(Printed(headers));
      HeaderBack(h);
      CutIs(PrintHeader(h), |PrintHeader(h)|);
      assert PrintHeader(h)[..|PrintHeader(h)|] == PrintHeader(h);
      HeadersBack(front);
      assert fields == Texts(Printed(front)) + [PrintHeader(h)];
      assert fields[..|front|] == Texts(Printed(front));
      assert headers == front + [h];
      KeepAliveSnoc(Texts(Printed(front)), PrintHeader(h));
      KeepsAliveSnoc(front, h);
    }
  }

  lemma KeepAliveSnoc(front: seq<string>, last: string)
    ensures KeepAlive(front + [last]) <==> KeepAlive(front) || ParseField(last) == Connection(true)
  {
    hide ParseField;
    var all := front + [last];
    assert all[|front|] == last;
    if KeepAlive(front) {
      var i :| 0 <= i < |front| && ParseField(front[i]) == Connection(true);
      assert all[i] == front[i];
    }
  }

  lemma KeepsAliveSnoc(front: seq<Header>, last: Header)
    ensures KeepsAlive(front + [last]) <==> KeepsAlive(front) || Meaning(last) == Connection(true)
  {
    hide Same;
    var all := front + [last];
    assert all[|front|] == last;
    if KeepsAlive(front) {
      var i :| 0 <= i < |front| && front[i].ConnectionIs? && Same(front[i].value, "keep-alive");
      assert all[i] == front[i];
    }
  }

  // ---- the request line ----

  lemma VisibleUrl(l: Line)
    requires GoodLine(l)
    ensures Visible(UrlOf(l)) && HasPath(UrlOf(l), l.path)
  {
    hide Same;
    if l.origin.At? {
      SameVisible(l.origin.scheme, "http://");
      assert Absolute(UrlOf(l), l.origin.scheme, l.origin.host, l.path);
    }
  }

  lemma RequestLineBack(l: Line)
    requires GoodLine(l)
    ensures OneLine(PrintLine(l))
    ensures ParseRequestLine(Cut(PrintLine(l))) == Request(true, Some(l.path), Some(l.version))
  {
    hide ParseRequestLine, Same, UrlOf, HasPath;
    var line := PrintLine(l);
    VisibleUrl(l);
    SameVisible(l.verb, "GET");
    SameVisible(l.version, "HTTP/1.1");
    VisibleOneLine(l);
    CutIs(line, |line|);
    assert line[..|line|] == line;
    assert IsGetLine(line, l.verb, l.sep1, UrlOf(l), l.sep2, l.version, l.path);
    GetLineParses(line, l.verb, l.sep1, UrlOf(l), l.sep2, l.version, l.path);
  }

  lemma VisibleOneLine(l: Line)
    requires IsBlank(l.sep1) && IsBlank(l.sep2) && Visible(l.verb) && Visible(UrlOf(l)) && Visible(l.version)
    ensures OneLine(PrintLine(l))
  {
    hide UrlOf;
    var line := PrintLine(l);
    assert forall k :: 0 <= k < |line| ==> line[k] > ' ' || IsBlank(line[k]);
  }

  // ---- the whole request ----

  lemma PrintedWellFormed(l: Line, headers: seq<Header>, body: string)
    requires GoodLine(l) && (forall h :: h in headers ==> GoodHeader(h)) && |body| == LengthOf(headers)
    ensures WellFormed(Message(PrintLine(l), Printed(headers), "", body))
  {
    hide ParseRequestLine, PrintHeader, PrintLine, LastLength, GoodHeader, GoodLine;
    RequestLineBack(l);
    HeadersBack(headers);
    forall f | f in Printed(headers) ensures Unbroken(f) && Cut(f) != "" {
      var i :| 0 <= i < |headers| && f == PrintHeader(headers[i]);
      assert headers[i] in headers;
      HeaderBack(headers[i]);
      CutIs(f, |f|);
      assert f[..|f|] == f;
    }
  }

  /**
   Printing any GET request with good headers and a body of the announced length, then reading it in any pieces,
   possibly with more bytes behind it, gives back the path, version, host, linger flag, length and body.
   */
  lemma RoundTrip(l: Line, headers: seq<Header>, body: string, rest: string, chunks: seq<string>)
    requires GoodLine(l) && (forall h :: h in headers ==> GoodHeader(h)) && |body| == LengthOf(headers)
    requires chunks != [] && Concat(chunks) == Print(l, headers, body) + rest
    ensures var (code, p) := Feed("", INIT, chunks);
      && code == GetRequest && p.url == Some(l.path) && p.version == Some(l.version)
      && p.host == HostOf(headers) && p.linger == KeepsAlive(headers) && p.length == |body|
      && p.start + p.length <= |Concat(chunks)| && Concat(chunks)[p.start..p.start + p.length] == body
  {
    hide ParseRequestLine, PrintLine, Grammar, Feed, LastLength, LastHost, KeepAlive, Texts, Printed;
    hide HostOf, LengthOf, KeepsAlive, GoodLine, GoodHeader;
    var m := Message(PrintLine(l), Printed(headers), "", body);
    var s := Concat(chunks);
    FeedIsGrammar(chunks);
    PrintedWellFormed(l, headers, body);
    RequestLineBack(l);
    HeadersBack(headers);
    assert IsRequest(s, m, rest);
    Accepted(s, m, rest);
    MessageLines(s, m, rest);
  }
}
