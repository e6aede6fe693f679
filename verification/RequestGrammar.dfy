/**
 The requests that the machine accepts, without cursors or states: cut the bytes into CRLF lines, read the
 first as a request line, the next ones up to a blank line as header fields, and count the body (sections 3,
 5 and 6.3 of RFC 9112, narrowed to GET and HTTP/1.1).
 */
module RequestGrammar {
  import opened Options
  import opened CStrings
  import opened RequestMachine

  const CRLF := "\r\n"

  // ---- lines ----

  /** The complete lines at the start of `s`, without their CRLF. */
  function Lines(s: string): seq<string> {
    var i := ScanEnd(s, 0);
    if StatusAt(s, i) == LineOk then [s[..i]] + Lines(s[i + 2..]) else []
  }

  function Join(lines: seq<string>): string {
    if lines == [] then "" else lines[0] + CRLF + Join(lines[1..])
  }

  ghost predicate Unbroken(line: string) { forall k :: 0 <= k < |line| ==> line[k] !in BREAK }

  function Texts(lines: seq<string>): (r: seq<string>)
    ensures |r| == |lines| && forall i :: 0 <= i < |r| ==> r[i] == Cut(lines[i])
  {
    seq(|lines|, i requires 0 <= i < |lines| => Cut(lines[i]))
  }

  /** The index of the first line that reads as blank. */
  function BlankLine(lines: seq<string>): (k: nat)
    ensures k <= |lines| && (forall i :: 0 <= i < k ==> Cut(lines[i]) != "")
    ensures k < |lines| ==> Cut(lines[k]) == ""
  {
    if lines == [] || Cut(lines[0]) == "" then 0 else 1 + BlankLine(lines[1..])
  }

  // ---- header fields ----

  /** The last Content-Length wins. */
  function LastLength(fields: seq<string>, default: nat): nat {
    if fields == [] then default else
    match ParseField(fields[|fields| - 1])
    case ContentLength(n) => n
    case _ => LastLength(fields[..|fields| - 1], default)
  }

  /** The last Host wins. */
  function LastHost(fields: seq<string>, default: Option<string>): Option<string> {
    if fields == [] then default else
    match ParseField(fields[|fields| - 1])
    case Host(name) => Some(name)
    case _ => LastHost(fields[..|fields| - 1], default)
  }

  /** One keep-alive suffices. */
  predicate KeepAlive(fields: seq<string>) {
    exists i :: 0 <= i < |fields| && ParseField(fields[i]) == Connection(true)
  }

  // ---- the grammar ----

  function Fields(p: Parse, fields: seq<string>): Parse {
    p.(host := LastHost(fields, p.host), linger := p.linger || KeepAlive(fields),
       length := LastLength(fields, p.length))
  }

  /** The header block is still open at `end`. */
  function Unfinished(s: string, q: Parse, end: nat): (Code, Parse)
    requires end <= |s|
  {
    (NoRequest, q.(phase := Header, start := end, checked := ScanEnd(s, end)))
  }

  /** The header block ends at `end`, and the body is counted. */
  function Body(s: string, q: Parse, end: nat): (Code, Parse) {
    (if end + q.length <= |s| then GetRequest else NoRequest,
     q.(phase := if q.length == 0 then Header else Content, start := end, checked := end))
  }

  /** The header block and body behind offset `pos`, of which `lines` are the complete lines. */
  function Block(s: string, p: Parse, pos: nat, lines: seq<string>): (Code, Parse)
    requires pos + |Join(lines)| <= |s|
  {
    var k := BlankLine(lines);
    BlockAt(s, Fields(p, Texts(lines[..k])), pos, lines, k)
  }

  /** The same, when `q` holds the fields and line `k` is the blank one. */
  function BlockAt(s: string, q: Parse, pos: nat, lines: seq<string>, k: nat): (Code, Parse)
    requires pos + |Join(lines)| <= |s| && k <= |lines|
  {
    if k == |lines| then Unfinished(s, q, pos + |Join(lines)|) else Body(s, q, pos + |Join(lines[..k + 1])|)
  }

  function Grammar(s: string): (Code, Parse)
  {
    LinesArePrefix(s);
    var lines := Lines(s);
    if lines == [] then (NoRequest, INIT.(checked := ScanEnd(s, 0))) else
    var r := ParseRequestLine(Cut(lines[0]));
    var pos := |lines[0]| + 2;
    var p := INIT.(start := pos, checked := pos, url := r.url, version := r.version);
    if r.ok then Block(s, p.(phase := Header), pos, lines[1..]) else (BadRequest, p)
  }

  /** The lines found, joined again, are a prefix of the bytes, and none of them holds CR or LF. */
  lemma {:induction false} LinesArePrefix(s: string)
    ensures Join(Lines(s)) <= s
    ensures forall l :: l in Lines(s) ==> Unbroken(l)
  {
    hide Find;
    var i := ScanEnd(s, 0);
    if StatusAt(s, i) == LineOk {
      LinesArePrefix(s[i + 2..]);
      assert s == s[..i] + CRLF + s[i + 2..];
      assert Lines(s)[1..] == Lines(s[i + 2..]);
    }
  }

  lemma ScanShift(s: string, pos: nat)
    requires pos <= |s|
    ensures ScanEnd(s, pos) == pos + ScanEnd(s[pos..], 0)
    ensures StatusAt(s, ScanEnd(s, pos)) == StatusAt(s[pos..], ScanEnd(s[pos..], 0))
  {
    assert s[pos..][0..] == s[pos..];
  }

  lemma LinesStep(s: string)
    ensures var i := ScanEnd(s, 0);
      Lines(s) == if StatusAt(s, i) == LineOk then [s[..i]] + Lines(s[i + 2..]) else []
  {
    hide ScanEnd, StatusAt;
  }

  lemma LinesAt(s: string, pos: nat)
    requires pos <= |s|
    ensures var i := ScanEnd(s, pos);
      Lines(s[pos..]) == if StatusAt(s, i) == LineOk then [s[pos..i]] + Lines(s[i + 2..]) else []
  {
    hide ScanEnd, StatusAt, Lines;
    ScanShift(s, pos);
    var i, tail := ScanEnd(s, pos), s[pos..];
    LinesStep(tail);
    if StatusAt(s, i) == LineOk {
      assert tail[..i - pos] == s[pos..i] && tail[i - pos + 2..] == s[i + 2..];
    }
  }

  lemma FirstLine(line: string, t: string)
    requires Unbroken(line)
    ensures Lines(line + CRLF + t) == [line] + Lines(t)
  {
    hide Find;
    var s := line + CRLF + t;
    assert s[|line|] == '\r' && s[|line| + 1] == '\n';
    var i := ScanEnd(s, 0);
    assert s[..i] == line && s[i + 2..] == t;
  }

  /** Conversely, joining lines without CR and LF and cutting them again gives them back. */
  lemma {:induction false} LinesOfJoin(lines: seq<string>, t: string)
    requires forall l :: l in lines ==> Unbroken(l)
    ensures Lines(Join(lines) + t) == lines + Lines(t)
  {
    hide Lines;
    if lines == [] {
      assert Join(lines) + t == t;
    } else {
      assert Join(lines) + t == lines[0] + CRLF + (Join(lines[1..]) + t);
      FirstLine(lines[0], Join(lines[1..]) + t);
      LinesOfJoin(lines[1..], t);
    }
  }

  lemma {:induction false} JoinAppend(a: seq<string>, b: seq<string>)
    ensures Join(a + b) == Join(a) + Join(b)
  {
    if a == [] {
      assert a + b == b;
    } else {
      assert (a + b)[1..] == a[1..] + b;
      JoinAppend(a[1..], b);
    }
  }

  // ---- the machine computes the grammar ----

  lemma FieldsCons(p: Parse, f: string, rest: seq<string>)
    ensures Fields(ApplyField(p, f), rest) == Fields(p, [f] + rest)
  {
    hide ParseField;
    LastCons(f, rest, p.length, p.host);
    assert KeepAlive([f] + rest) <==> ParseField(f) == Connection(true) || KeepAlive(rest) by {
      assert ([f] + rest)[0] == f && ([f] + rest)[1..] == rest;
      if KeepAlive(rest) {
        var i :| 0 <= i < |rest| && ParseField(rest[i]) == Connection(true);
        assert ([f] + rest)[i + 1] == rest[i];
      }
    }
  }

  lemma {:induction false} LastCons(f: string, rest: seq<string>, n: nat, h: Option<string>)
    ensures LastLength([f] + rest, n) == LastLength(rest, if ParseField(f).ContentLength? then ParseField(f).n else n)
    ensures LastHost([f] + rest, h) == LastHost(rest, if ParseField(f).Host? then Some(ParseField(f).name) else h)
  {
    hide ParseField;
    var all := [f] + rest;
    if rest == [] {
      assert all == [f] && all[..0] == [];
    } else {
      assert all[|all| - 1] == rest[|rest| - 1] && all[..|all| - 1] == [f] + rest[..|rest| - 1];
      LastCons(f, rest[..|rest| - 1], n, h);
    }
  }

  lemma {:induction false} HeaderRun(s: string, p: Parse)
    requires p.start == p.checked <= |s| && p.phase == Header
    ensures p.checked + |Join(Lines(s[p.checked..]))| <= |s|
    ensures Run(s, p) == Block(s, p, p.checked, Lines(s[p.checked..]))
    decreases |s| - p.checked
  {
    hide Run, Find, Cut, ParseField, ScanEnd, StatusAt, Lines, Fields, Block, Join, BlankLine, Texts;
    RunIterates(s, p);
    var pos := p.checked;
    var lines := Lines(s[pos..]);
    LinesArePrefix(s[pos..]);
    LinesAt(s, pos);
    var i := ScanEnd(s, pos);
    if StatusAt(s, i) == LineOk {
      var text := Cut(s[pos..i]);
      var q := Interpret(p, text, i + 2).1;
      if text != "" {
        HeaderRun(s, q);
        BlockCons(s, p, pos, lines);
      } else {
        RunIterates(s, q);
        BlankFirst(s, p, pos, lines);
      }
    } else {
      NoLine(s, p, pos);
    }
  }

  lemma NoLine(s: string, p: Parse, pos: nat)
    requires pos <= |s| && p.phase == Header && p.start == pos
    ensures Join([]) == "" && Block(s, p, pos, []) == (NoRequest, p.(checked := ScanEnd(s, pos)))
  {
    assert Texts([]) == [];
  }

  lemma BlankFirst(s: string, p: Parse, pos: nat, lines: seq<string>)
    requires lines != [] && Cut(lines[0]) == "" && pos + |Join(lines)| <= |s|
    ensures var next := pos + |lines[0]| + 2;
      Block(s, p, pos, lines)
      == (if next + p.length <= |s| then GetRequest else NoRequest,
          p.(phase := if p.length == 0 then Header else Content, start := next, checked := next))
  {
    hide Find, Cut, ParseField;
    assert BlankLine(lines) == 0 && Texts(lines[..0]) == [];
    assert Join(lines[..1]) == lines[0] + CRLF + Join([]);
  }

  /** A field line at the front of the block is applied and passed over. */
  lemma BlockCons(s: string, p: Parse, pos: nat, lines: seq<string>)
    requires lines != [] && Cut(lines[0]) != "" && pos + |Join(lines)| <= |s| && p.phase == Header
    ensures var next := pos + |lines[0]| + 2;
      Block(s, p, pos, lines)
      == Block(s, ApplyField(p.(start := next, checked := next), Cut(lines[0])), next, lines[1..])
  {
    hide Cut, ApplyField, Fields, BlankLine, Texts, Join, BlockAt;
    var k, tail, next := BlankLine(lines), lines[1..], pos + |lines[0]| + 2;
    BlankCons(lines);
    FieldsCons(p, Cut(lines[0]), Texts(tail[..k - 1]));
    FieldsIgnoreCursors(p, next, Cut(lines[0]), Texts(tail[..k - 1]));
    BlockAtCons(s, Fields(p, Texts(lines[..k])), pos, lines, k);
  }

  lemma BlockAtCons(s: string, q: Parse, pos: nat, lines: seq<string>, k: nat)
    requires lines != [] && pos + |Join(lines)| <= |s| && 0 < k <= |lines|
    ensures var next := pos + |lines[0]| + 2;
      next + |Join(lines[1..])| <= |s|
      && BlockAt(s, q, pos, lines, k) == BlockAt(s, q.(start := next, checked := next), next, lines[1..], k - 1)
  {
    hide Join, ScanEnd;
    JoinCons(lines);
    if k < |lines| {
      JoinCons(lines[..k + 1]);
      assert lines[..k + 1][1..] == lines[1..][..k];
    }
  }

  lemma BlankCons(lines: seq<string>)
    requires lines != [] && Cut(lines[0]) != ""
    ensures var k := BlankLine(lines);
      k == 1 + BlankLine(lines[1..]) && Texts(lines[..k]) == [Cut(lines[0])] + Texts(lines[1..][..k - 1])
  {
    hide Cut;
  }

  lemma FieldsIgnoreCursors(p: Parse, next: nat, text: string, rest: seq<string>)
    ensures var q := Fields(ApplyField(p.(start := next, checked := next), text), rest);
      var r := Fields(ApplyField(p, text), rest);
      q == r.(start := next, checked := next)
  {
    hide ParseField, LastLength, LastHost, KeepAlive;
  }

  lemma JoinCons(lines: seq<string>)
    requires lines != []
    ensures |Join(lines)| == |lines[0]| + 2 + |Join(lines[1..])|
  {
  }

  /** One call on the whole stream computes the grammar: verdict, fields and cursors. */
  lemma MachineIsGrammar(s: string)
    ensures Run(s, INIT) == Grammar(s)
  {
    hide Cut, ParseField, ParseRequestLine, ScanEnd, StatusAt, Lines, Block;
    LinesAt(s, 0);
    assert s[0..] == s;
    var i := ScanEnd(s, 0);
    if StatusAt(s, i) == LineOk {
      LinesArePrefix(s);
      var q := Interpret(INIT, Cut(s[0..i]), i + 2).1;
      if ParseRequestLine(Cut(s[0..i])).ok {
        HeaderRun(s, q);
      }
    }
  }

  /** Any cut into reads computes the grammar of the whole stream. */
  lemma FeedIsGrammar(chunks: seq<string>)
    requires chunks != []
    ensures Feed("", INIT, chunks) == Grammar(Concat(chunks))
  {
    SplitInvisible("", INIT, chunks);
    assert "" + Concat(chunks) == Concat(chunks);
    MachineIsGrammar(Concat(chunks));
  }

  /** A call that continues without verdict on more bytes gives the grammar of all of them. */
  lemma ContinueGrammar(s: string, t: string)
    ensures Grammar(s).0 == NoRequest ==> Grammar(s).1.checked <= |s| && Run(s + t, Grammar(s).1) == Grammar(s + t)
    ensures Grammar(s).0 != NoRequest ==> Grammar(s + t) == Grammar(s)
  {
    hide Run, Grammar;
    MachineIsGrammar(s);
    MachineIsGrammar(s + t);
    Resume(s, t, INIT);
  }

  lemma NothingReceived()
    ensures Grammar("") == (NoRequest, INIT)
  {
    MachineIsGrammar("");
  }

  // ---- the accepted language ----

  datatype Message = Message(requestLine: string, fields: seq<string>, blank: string, body: string)

  function Render(m: Message): string {
    Join([m.requestLine] + m.fields + [m.blank]) + m.body
  }

  ghost predicate WellFormed(m: Message) {
    && Unbroken(m.requestLine) && ParseRequestLine(Cut(m.requestLine)).ok
    && (forall f :: f in m.fields ==> Unbroken(f) && Cut(f) != "")
    && Unbroken(m.blank) && Cut(m.blank) == ""
    && |m.body| == LastLength(Texts(m.fields), 0)
  }

  ghost predicate IsRequest(s: string, m: Message, rest: string) {
    WellFormed(m) && s == Render(m) + rest
  }

  /** What the parse of a complete message must hold. */
  ghost predicate Holds(p: Parse, m: Message) {
    var r := ParseRequestLine(Cut(m.requestLine));
    var fields := Texts(m.fields);
    && p.url == r.url && p.version == r.version
    && p.host == LastHost(fields, None) && p.linger == KeepAlive(fields)
    && p.length == |m.body| && p.start == p.checked == |Render(m)| - |m.body|
  }

  lemma {:induction false} BlankLineOf(fields: seq<string>, blank: string, more: seq<string>)
    requires (forall f :: f in fields ==> Cut(f) != "") && Cut(blank) == ""
    ensures BlankLine(fields + [blank] + more) == |fields|
  {
    hide Cut;
    var all := fields + [blank] + more;
    if fields != [] {
      assert all[1..] == fields[1..] + [blank] + more;
      BlankLineOf(fields[1..], blank, more);
    }
  }

  /** The lines of a stream that starts with a message are those of the message, then those of its body and the rest. */
  lemma MessageLines(s: string, m: Message, rest: string)
    requires IsRequest(s, m, rest)
    ensures var n, end := |m.fields|, |Render(m)| - |m.body|;
      && Lines(s) == [m.requestLine] + (m.fields + [m.blank] + Lines(m.body + rest))
      && BlankLine(Lines(s)[1..]) == n && Lines(s)[1..][..n] == m.fields && Lines(s)[1..][n] == m.blank
      && |m.requestLine| + 2 + |Join(Lines(s)[1..][..n + 1])| == end
      && end + |m.body| <= |s| && s[end..end + |m.body|] == m.body
  {
    hide Lines, Cut, ParseRequestLine, LastLength;
    var tail := m.fields + [m.blank];
    var lines, more := [m.requestLine] + tail, Lines(m.body + rest);
    assert lines == [m.requestLine] + m.fields + [m.blank];
    assert s == Join(lines) + (m.body + rest);
    LinesOfJoin(lines, m.body + rest);
    assert Lines(s) == [m.requestLine] + (tail + more) && Lines(s)[1..] == tail + more;
    BlankLineOf(m.fields, m.blank, more);
    assert (tail + more)[..|m.fields|] == m.fields && (tail + more)[..|m.fields| + 1] == tail;
    JoinCons(lines);
    assert lines[1..] == tail;
  }

  /** Every well-formed message is accepted, whatever follows it, and its parts can be read off the lines. */
  lemma Accepted(s: string, m: Message, rest: string)
    requires IsRequest(s, m, rest)
    ensures Grammar(s).0 == GetRequest && Holds(Grammar(s).1, m)
    ensures Extract(s) == m
  {
    hide Lines, Cut, ParseRequestLine, LastLength, LastHost, KeepAlive, Texts, Render, BlankLine, Join, Unfinished;
    MessageLines(s, m, rest);
    LinesArePrefix(s);
  }

  /** The only message that can start the stream. */
  function Extract(s: string): Message {
    LinesArePrefix(s);
    var lines := Lines(s);
    if lines == [] then Message("", [], "", "") else
    var tail := lines[1..];
    var k := BlankLine(tail);
    if k == |tail| then Message(lines[0], tail, "", "") else
    var end := |lines[0]| + 2 + |Join(tail[..k + 1])|;
    var n := LastLength(Texts(tail[..k]), 0);
    Message(lines[0], tail[..k], tail[k], if end + n <= |s| then s[end..end + n] else "")
  }

  /** The stream is accepted exactly when it starts with a well-formed message, and that message is unique. */
  lemma AcceptedIff(s: string)
    ensures Run(s, INIT).0 == GetRequest <==> exists m, rest :: IsRequest(s, m, rest)
    ensures forall m, rest :: IsRequest(s, m, rest) ==> m == Extract(s) && Holds(Run(s, INIT).1, m)
  {
    MachineIsGrammar(s);
    forall m, rest | IsRequest(s, m, rest)
      ensures Grammar(s).0 == GetRequest && m == Extract(s) && Holds(Grammar(s).1, m)
    {
      Accepted(s, m, rest);
    }
    if Grammar(s).0 == GetRequest {
      AcceptedStarts(s);
    }
  }

  lemma AcceptedStarts(s: string)
    requires Grammar(s).0 == GetRequest
    ensures exists rest :: IsRequest(s, Extract(s), rest)
  {
    hide Lines, Cut, ParseRequestLine, LastLength, LastHost, KeepAlive, Texts, BlankLine, Join, ScanEnd;
    LinesArePrefix(s);
    var lines, m := Lines(s), Extract(s);
    var tail := lines[1..];
    var k := BlankLine(tail);
    var head := [lines[0]] + tail[..k + 1];
    assert lines == head + tail[k + 1..];
    assert [m.requestLine] + m.fields + [m.blank] == head;
    JoinAppend(head, tail[k + 1..]);
    JoinCons(head);
    assert head[1..] == tail[..k + 1];
    assert s == Render(m) + s[|Join(head)| + |m.body|..];
    MessageWellFormed(lines, m, k);
    assert IsRequest(s, m, s[|Join(head)| + |m.body|..]);
  }

  lemma MessageWellFormed(lines: seq<string>, m: Message, k: nat)
    requires (forall l :: l in lines ==> Unbroken(l)) && k + 1 < |lines| && k == BlankLine(lines[1..])
    requires ParseRequestLine(Cut(lines[0])).ok && |m.body| == LastLength(Texts(m.fields), 0)
    requires m.requestLine == lines[0] && m.fields == lines[1..][..k] && m.blank == lines[1..][k]
    ensures WellFormed(m)
  {
    hide Cut, ParseRequestLine, LastLength, Texts;
    forall f | f in m.fields ensures Unbroken(f) && Cut(f) != "" {
      var i :| 0 <= i < k && f == lines[1..][i];
      assert f == lines[i + 1];
    }
    assert lines[k + 1] in lines && lines[0] in lines;
  }

  // ---- the request line ----

  ghost predicate SplitsAs(text: string, verb: string, sep1: char, url: string, sep2: char, version: string) {
    && text == verb + [sep1] + url + [sep2] + version && IsBlank(sep1) && IsBlank(sep2)
    && (forall k :: 0 <= k < |verb| ==> !IsBlank(verb[k]))
    && (forall k :: 0 <= k < |url| ==> !IsBlank(url[k]))
  }

  /** A target behind "http://" in any case: an authority without slash, then the path. */
  ghost predicate Absolute(url: string, scheme: string, host: string, path: string) {
    url == scheme + host + path && Same(scheme, "http://") && forall k :: 0 <= k < |host| ==> host[k] != '/'
  }

  /** The path of a target: the target itself, or what follows scheme and authority. */
  ghost predicate HasPath(url: string, path: string) {
    path != "" && path[0] == '/' && (url == path || exists scheme, host :: Absolute(url, scheme, host, path))
  }

  ghost predicate IsGetLine(
    text: string, verb: string, sep1: char, url: string, sep2: char, version: string, path: string)
  {
    && SplitsAs(text, verb, sep1, url, sep2, version)
    && Same(verb, "GET") && Same(version, "HTTP/1.1") && HasPath(url, path)
  }

  lemma FindSplit(a: string, c: char, b: string, cs: set<char>)
    requires c in cs && forall k :: 0 <= k < |a| ==> a[k] !in cs
    ensures Find(a + [c] + b, cs) == |a|
  {
    hide Find;
    var s := a + [c] + b;
    var i := Find(s, cs);
    assert s[|a|] == c;
  }

  /** Behind the scheme the path starts at the first slash, if there is one. */
  lemma AbsoluteTarget(url: string, scheme: string, host: string, path: string)
    requires Absolute(url, scheme, host, path) && path != "" && path[0] == '/'
    ensures Target(url) == Some(path)
  {
    hide Find;
    PrefixFoldIff(url, "http://");
    assert url[..7] == scheme && url[7..] == host + path && path == ['/'] + path[1..];
    assert host + path == host + ['/'] + path[1..];
    FindSplit(host, '/', path[1..], {'/'});
    assert (host + path)[|host|..] == path;
  }

  lemma PlainTarget(url: string)
    requires url != "" && url[0] == '/'
    ensures Target(url) == Some(url)
  {
    PrefixFoldIff(url, "http://");
    assert StartsFold(url, "http://") ==> SameLetter(url[..7][0], "http://"[0]);
  }

  /** What the target handling computes: the path, when the target has one. */
  lemma TargetIff(url: string, path: string)
    ensures IsPath(Target(url)) && Target(url).value == path <==> HasPath(url, path)
  {
    hide Find, StartsFold;
    if HasPath(url, path) {
      if url == path {
        PlainTarget(url);
      } else {
        var scheme, host :| Absolute(url, scheme, host, path);
        AbsoluteTarget(url, scheme, host, path);
      }
    }
    if IsPath(Target(url)) && Target(url).value == path && StartsFold(url, "http://") {
      PrefixFoldIff(url, "http://");
      var rest := url[7..];
      var k := Find(rest, {'/'});
      assert url == url[..7] + rest[..k] + rest[k..];
      assert Absolute(url, url[..7], rest[..k], path);
    }
  }

  lemma BlankSet()
    ensures forall c :: c in BLANK <==> IsBlank(c)
  {
  }

  lemma GetLineParses(
      text: string, verb: string, sep1: char, url: string, sep2: char, version: string, path: string)
    requires IsGetLine(text, verb, sep1, url, sep2, version, path)
    ensures ParseRequestLine(text) == Request(true, Some(path), Some(version))
  {
    hide Find, EqFold, Target, HasPath;
    BlankSet();
    FoldIff(verb, "get");
    assert Same(verb, "get");
    FoldIff(version, "HTTP/1.1");
    TargetIff(url, path);
    var rest := url + [sep2] + version;
    assert text == verb + [sep1] + rest;
    FindSplit(verb, sep1, rest, BLANK);
    FindSplit(url, sep2, version, BLANK);
    assert text[..|verb|] == verb && text[|verb| + 1..] == rest;
    assert rest[..|url|] == url && rest[|url| + 1..] == version;
  }

  /** A target with the scheme and no later slash is bad, whatever the rest of the line. */
  lemma NoPathIsBad(text: string, verb: string, sep1: char, scheme: string, host: string, sep2: char, version: string)
    requires SplitsAs(text, verb, sep1, scheme + host, sep2, version) && Same(scheme, "http://")
    requires forall k :: 0 <= k < |host| ==> host[k] != '/'
    ensures !ParseRequestLine(text).ok
  {
    hide Find, EqFold, StartsFold;
    BlankSet();
    var url := scheme + host;
    var rest := url + [sep2] + version;
    assert text == verb + [sep1] + rest;
    FindSplit(verb, sep1, rest, BLANK);
    FindSplit(url, sep2, version, BLANK);
    assert text[|verb| + 1..] == rest && rest[..|url|] == url;
    PrefixFoldIff(url, "http://");
    assert url[..7] == scheme && url[7..] == host;
  }

  /**
   A line is a good request line exactly when it is GET in any case, one blank or tab, a target with a path, one blank
   or tab, HTTP/1.1 in any case. The url is then that path. Other targets, such as one with the scheme and no later
   slash, are bad.
   */
  lemma RequestLineIff(text: string)
    ensures ParseRequestLine(text).ok <==>
      exists verb, sep1, url, sep2, version, path :: IsGetLine(text, verb, sep1, url, sep2, version, path)
    ensures forall verb, sep1, url, sep2, version, path :: IsGetLine(text, verb, sep1, url, sep2, version, path) ==>
      ParseRequestLine(text) == Request(true, Some(path), Some(version))
  {
    hide Find, EqFold, Target, IsGetLine;
    forall verb, sep1, url, sep2, version, path | IsGetLine(text, verb, sep1, url, sep2, version, path)
      ensures ParseRequestLine(text) == Request(true, Some(path), Some(version))
    {
      GetLineParses(text, verb, sep1, url, sep2, version, path);
    }
    if ParseRequestLine(text).ok {
      ParsedIsGetLine(text);
    }
  }

  lemma ParsedIsGetLine(text: string)
    requires ParseRequestLine(text).ok
    ensures exists verb, sep1, url, sep2, version, path :: IsGetLine(text, verb, sep1, url, sep2, version, path)
  {
    hide ParseRequestLine, Target, IsPath, HasPath, SplitsAs, Same;
    var verb, sep1, url, sep2, version := PartsOf(text);
    var path := PathOf(url);
    assert IsGetLine(text, verb, sep1, url, sep2, version, path);
  }

  /** The parts into which the parser cuts a good line. */
  lemma PartsOf(text: string) returns (verb: string, sep1: char, url: string, sep2: char, version: string)
    requires ParseRequestLine(text).ok
    ensures SplitsAs(text, verb, sep1, url, sep2, version)
    ensures Same(verb, "GET") && Same(version, "HTTP/1.1") && IsPath(Target(url))
  {
    hide Find, EqFold, Target, IsPath, SplitsAs, Same;
    var i := Find(text, BLANK);
    var rest := text[i + 1..];
    var j := Find(rest, BLANK);
    verb, sep1, url, sep2, version := text[..i], text[i], rest[..j], rest[j], rest[j + 1..];
    FoldIff(verb, "get");
    SameGet(verb);
    FoldIff(version, "HTTP/1.1");
    CutIsSplit(text, i, j);
  }

  lemma SameGet(verb: string)
    ensures Same(verb, "get") <==> Same(verb, "GET")
  {
  }

  lemma CutIsSplit(text: string, i: nat, j: nat)
    requires i == Find(text, BLANK) < |text| && j == Find(text[i + 1..], BLANK) < |text[i + 1..]|
    ensures var rest := text[i + 1..]; SplitsAs(text, text[..i], text[i], rest[..j], rest[j], rest[j + 1..])
  {
    hide Find;
    BlankSet();
    var rest := text[i + 1..];
    assert rest == rest[..j] + [rest[j]] + rest[j + 1..];
    assert text == text[..i] + [text[i]] + rest;
  }

  lemma PathOf(url: string) returns (path: string)
    requires IsPath(Target(url))
    ensures HasPath(url, path)
  {
    path := Target(url).value;
    TargetIff(url, path);
  }
}
