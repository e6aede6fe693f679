/**
 The two-level request machine of http_connection.cpp on values: lines are found by a scan that resumes at
 the checked cursor, and the main state decides what a line means. The machine is the intended one. It departs
 from the text where an ordinary byte continues the scan (line 339) and running out of bytes leaves the line open
 (line 341), a blank line is recognised by comparison (line 259), a request line without blank is bad (line 212),
 and no line is looked for once the body is expected (lines 154 and 196). Modules RequestMachineAsWritten and
 RequestDepartures prove what the text as it stands does instead.
 */
module RequestMachine {
  import opened Options
  import opened CStrings

  const BREAK := {'\r', '\n'}

  datatype Code = NoRequest | GetRequest | BadRequest
  datatype Phase = RequestLine | Header | Content
  datatype LineStatus = LineOk | LineBad | LineOpen

  /** What a connection remembers between two reads, apart from the bytes themselves. */
  datatype Parse = Parse(
    phase: Phase, start: nat, checked: nat,
    url: Option<string>, version: Option<string>, host: Option<string>, linger: bool, length: nat)

  const INIT := Parse(RequestLine, 0, 0, None, None, None, false, 0)

  // ---- lines ----

  /** Where a scan that starts at `from` stops: the first CR or LF, or the end. */
  function ScanEnd(s: string, from: nat): (i: nat)
    requires from <= |s|
    ensures from <= i <= |s|
    ensures forall k :: from <= k < i ==> s[k] !in BREAK
    ensures i < |s| ==> s[i] in BREAK
  {
    from + Find(s[from..], BREAK)
  }

  function StatusAt(s: string, i: nat): (r: LineStatus)
    requires i <= |s|
    ensures r == LineOk ==> i + 2 <= |s|
  {
    if i == |s| then LineOpen
    else if s[i] == '\r' then
      if i + 1 == |s| then LineOpen else if s[i + 1] == '\n' then LineOk else LineBad
    else LineBad
  }

  // ---- what a line means ----

  datatype Request = Request(ok: bool, url: Option<string>, version: Option<string>)

  /** The path of a target: what follows the authority when the target starts with a scheme. */
  function Target(url: string): Option<string> {
    if StartsFold(url, "http://") then
      var rest := url[7..];
      var k := Find(rest, {'/'});
      if k == |rest| then None else Some(rest[k..])
    else Some(url)
  }

  predicate IsPath(target: Option<string>) {
    target.Some? && target.value != "" && target.value[0] == '/'
  }

  function ParseRequestLine(text: string): Request {
    var i := Find(text, BLANK);
    if i == |text| then Request(false, None, None) else
    var rest := text[i + 1..];
    if !EqFold(text[..i], "get") then Request(false, Some(rest), None) else
    var j := Find(rest, BLANK);
    if j == |rest| then Request(false, Some(rest), None) else
    var url, version := rest[..j], rest[j + 1..];
    if !EqFold(version, "HTTP/1.1") then Request(false, Some(url), Some(version)) else
    Request(IsPath(Target(url)), Target(url), Some(version))
  }

  datatype Field = Connection(keepAlive: bool) | ContentLength(n: nat) | Host(name: string) | Other

  /** The value of a header field whose name and colon take `n` characters. */
  function FieldValue(text: string, n: nat): string
    requires n <= |text|
  {
    text[n + Span(text[n..], BLANK)..]
  }

  function ParseField(text: string): Field {
    if StartsFold(text, "connection:") then Connection(EqFold(FieldValue(text, 11), "keep-alive"))
    else if StartsFold(text, "Content-Length:") then ContentLength(Atol(FieldValue(text, 15)))
    else if StartsFold(text, "Host:") then Host(FieldValue(text, 5))
    else Other
  }

  function ApplyField(p: Parse, text: string): Parse {
    match ParseField(text)
    case Connection(keepAlive) => p.(linger := p.linger || keepAlive)
    case ContentLength(n) => p.(length := n)
    case Host(name) => p.(host := Some(name))
    case Other => p
  }

  /** Consume one line outside the body; `next` is the offset behind its CRLF. */
  function Interpret(p: Parse, text: string, next: nat): (r: (Code, Parse))
    ensures r.1.start == r.1.checked == next
  {
    var q := p.(start := next, checked := next);
    if p.phase == RequestLine then
      var r := ParseRequestLine(text);
      if r.ok then (NoRequest, q.(url := r.url, version := r.version, phase := Header))
      else (BadRequest, q.(url := r.url, version := r.version))
    else if text != "" then (NoRequest, ApplyField(q, text))
    else if q.length != 0 then (NoRequest, q.(phase := Content))
    else (GetRequest, q)
  }

  /** One turn of the loop in `process_read`: the code when the call returns, and the state. */
  function Iterate(s: string, p: Parse): (r: (Option<Code>, Parse))
    requires p.start <= p.checked <= |s|
    ensures p.checked <= r.1.checked <= |s| && r.1.start <= r.1.checked
    ensures r.0 == None ==> p.phase != Content && p.checked < r.1.checked
  {
    if p.phase == Content then
      (Some(if p.checked + p.length <= |s| then GetRequest else NoRequest), p.(start := p.checked))
    else
      var i := ScanEnd(s, p.checked);
      if StatusAt(s, i) != LineOk then (Some(NoRequest), p.(checked := i)) else
      var (code, q) := Interpret(p, Cut(s[p.start..i]), i + 2);
      (if code != NoRequest then Some(code) else None, q)
  }

  /** One call of `process_read` when the bytes received so far are `s`: the loop turns until the call returns. */
  function Run(s: string, p: Parse): (r: (Code, Parse))
    requires p.start <= p.checked <= |s|
    ensures p.checked <= r.1.checked <= |s| && r.1.start <= r.1.checked
    decreases |s| - p.checked
  {
    var (code, q) := Iterate(s, p);
    if code.Some? then (code.value, q) else Run(s, q)
  }

  lemma RunIterates(s: string, p: Parse)
    requires p.start <= p.checked <= |s|
    ensures var (code, q) := Iterate(s, p); Run(s, p) == if code.Some? then (code.value, q) else Run(s, q)
  {
    hide Iterate;
  }

  // ---- the cut into reads cannot be observed ----

  lemma ScanExtends(s: string, t: string, from: nat)
    requires from <= |s|
    ensures var i := ScanEnd(s, from);
      && (i < |s| ==> ScanEnd(s + t, from) == i)
      && (StatusAt(s, i) == LineOk ==> StatusAt(s + t, i) == LineOk)
    ensures forall m :: from <= m <= ScanEnd(s, from) ==> ScanEnd(s + t, m) == ScanEnd(s + t, from)
  {
    hide Find;
    var i := ScanEnd(s, from);
    assert forall k :: from <= k < i ==> (s + t)[k] == s[k];
    assert i < |s| ==> (s + t)[i] == s[i];
  }

  lemma InterpretIgnoresCursors(p: Parse, start: nat, checked: nat, text: string, next: nat)
    ensures Interpret(p.(start := start, checked := checked), text, next) == Interpret(p, text, next)
  {
  }

  /** When no line is complete, only the checked cursor moves, and the next call takes up the scan there. */
  lemma ResumeLine(s: string, t: string, p: Parse)
    requires p.start <= p.checked <= |s| && p.phase != Content
    requires StatusAt(s, ScanEnd(s, p.checked)) != LineOk
    ensures Run(s, p) == (NoRequest, p.(checked := ScanEnd(s, p.checked)))
    ensures Run(s + t, Run(s, p).1) == Run(s + t, p)
  {
    hide Run, Interpret, Cut, Find, ScanEnd, StatusAt;
    var i := ScanEnd(s, p.checked);
    ScanExtends(s, t, p.checked);
    var j := ScanEnd(s + t, i);
    assert j == ScanEnd(s + t, p.checked);
    RunIterates(s, p);
    RunIterates(s + t, p);
    RunIterates(s + t, p.(checked := i));
    InterpretIgnoresCursors(p, p.start, i, Cut((s + t)[p.start..j]), j + 2);
  }

  /** A turn that finds a line, or the whole body, is the same whatever follows; otherwise no line was complete. */
  lemma IterateExtends(s: string, t: string, p: Parse)
    requires p.start <= p.checked <= |s|
    ensures Iterate(s, p).0 != Some(NoRequest) ==> Iterate(s + t, p) == Iterate(s, p)
    ensures Iterate(s, p).0 == Some(NoRequest) ==>
      if p.phase == Content then Iterate(s, p).1 == p.(start := p.checked)
      else StatusAt(s, ScanEnd(s, p.checked)) != LineOk
  {
    hide Interpret, Cut, Find, ScanEnd, StatusAt;
    var i := ScanEnd(s, p.checked);
    ScanExtends(s, t, p.checked);
    if StatusAt(s, i) == LineOk {
      assert p.phase != Content ==> (s + t)[p.start..i] == s[p.start..i];
    }
  }

  lemma BodyIgnoresStart(s: string, p: Parse)
    requires p.start <= p.checked <= |s| && p.phase == Content
    ensures Iterate(s, p.(start := p.checked)) == Iterate(s, p)
  {
  }

  /**
   A verdict reached on a prefix is unchanged by any extension; without a verdict, continuing where the call
   on the prefix stopped gives what a call on the whole stream gives.
   */
  lemma {:induction false} Resume(s: string, t: string, p: Parse)
    requires p.start <= p.checked <= |s|
    ensures Run(s, p).0 != NoRequest ==> Run(s + t, p) == Run(s, p)
    ensures Run(s, p).0 == NoRequest ==> Run(s + t, Run(s, p).1) == Run(s + t, p)
    decreases |s| - p.checked, if p.phase == Content then 0 else 1
  {
    hide Run, Iterate, ScanEnd, StatusAt;
    IterateExtends(s, t, p);
    RunIterates(s, p);
    RunIterates(s + t, p);
    if Iterate(s, p).0 == None {
      Resume(s, t, Iterate(s, p).1);
    } else if Iterate(s, p).0 == Some(NoRequest) {
      if p.phase == Content {
        RunIterates(s + t, p.(start := p.checked));
        BodyIgnoresStart(s + t, p);
      } else {
        ResumeLine(s, t, p);
      }
    }
  }

  function Concat(chunks: seq<string>): string {
    if chunks == [] then "" else chunks[0] + Concat(chunks[1..])
  }

  lemma {:induction false} ConcatSplit(chunks: seq<string>, n: nat)
    requires n <= |chunks|
    ensures Concat(chunks) == Concat(chunks[..n]) + Concat(chunks[n..])
  {
    if n > 0 {
      ConcatSplit(chunks[1..], n - 1);
      assert chunks[..n][1..] == chunks[1..][..n - 1] && chunks[n..] == chunks[1..][n - 1..];
    }
  }

  lemma ConcatNext(chunks: seq<string>, n: nat)
    requires n < |chunks|
    ensures Concat(chunks[..n + 1]) == Concat(chunks[..n]) + chunks[n]
  {
    ConcatSplit(chunks[..n + 1], n);
    assert chunks[..n + 1][..n] == chunks[..n] && chunks[..n + 1][n..] == [chunks[n]];
    assert Concat([chunks[n]]) == chunks[n];
  }

  /** Read the chunks one by one behind the bytes `s`, calling `process_read` after each until it gives a verdict. */
  function Feed(s: string, p: Parse, chunks: seq<string>): (Code, Parse)
    requires p.start <= p.checked <= |s|
    decreases |chunks|
  {
    if chunks == [] then (NoRequest, p) else
    var (code, q) := Run(s + chunks[0], p);
    if code != NoRequest then (code, q) else Feed(s + chunks[0], q, chunks[1..])
  }

  /** Splitting does not matter: any cut into reads gives the verdict, fields and cursors of a single read. */
  lemma {:induction false} SplitInvisible(s: string, p: Parse, chunks: seq<string>)
    requires p.start <= p.checked <= |s| && chunks != []
    ensures Feed(s, p, chunks) == Run(s + Concat(chunks), p)
    decreases |chunks|
  {
    var s', rest := s + chunks[0], Concat(chunks[1..]);
    assert s + Concat(chunks) == s' + rest;
    Resume(s', rest, p);
    if chunks[1..] == [] {
      assert s' + rest == s';
    } else if Run(s', p).0 == NoRequest {
      SplitInvisible(s', Run(s', p).1, chunks[1..]);
    }
  }

  // ---- cursors ----

  /** The scanned part of the current line holds neither CR nor LF. */
  ghost predicate Scanned(s: string, p: Parse) {
    p.start <= p.checked <= |s| && forall k :: p.start <= k < p.checked ==> s[k] !in BREAK
  }

  lemma {:induction false} RunKeepsScanned(s: string, p: Parse)
    requires Scanned(s, p)
    ensures Scanned(s, Run(s, p).1)
    decreases |s| - p.checked, if p.phase == Content then 0 else 1
  {
    hide Interpret, Cut, Find, ScanEnd, StatusAt;
    if p.phase != Content {
      var i := ScanEnd(s, p.checked);
      if StatusAt(s, i) == LineOk {
        var (code, q) := Interpret(p, Cut(s[p.start..i]), i + 2);
        if code == NoRequest { RunKeepsScanned(s, q); }
      }
    }
  }

  /** A break that is not CRLF at the checked cursor: the line is bad. */
  predicate Stuck(s: string, p: Parse) {
    p.phase != Content && p.checked <= |s| && ScanEnd(s, p.checked) == p.checked && StatusAt(s, p.checked) == LineBad
  }

  /** After a bad line every later call returns without verdict and moves no cursor, whatever arrives. */
  lemma BadLineIsFinal(s: string, p: Parse, t: string)
    requires p.start <= p.checked && Stuck(s, p)
    ensures Run(s + t, p) == (NoRequest, p) && Stuck(s + t, p)
  {
    ScanExtends(s, t, p.checked);
  }

  /** Why a call returns without verdict: the body is short, the line is open at the end of the bytes, or it is bad. */
  lemma {:induction false} NoVerdictMeans(s: string, p: Parse)
    requires p.start <= p.checked <= |s| && Run(s, p).0 == NoRequest
    ensures var q := Run(s, p).1;
      || (q.phase == Content && |s| < q.checked + q.length)
      || (q.phase != Content && ScanEnd(s, q.checked) == q.checked
          && (q.checked == |s| || (q.checked + 1 == |s| && s[q.checked] == '\r')))
      || Stuck(s, q)
    decreases |s| - p.checked, if p.phase == Content then 0 else 1
  {
    hide Run, Interpret, Cut, Find, ScanEnd;
    RunIterates(s, p);
    if p.phase != Content {
      var i := ScanEnd(s, p.checked);
      if StatusAt(s, i) == LineOk {
        NoVerdictMeans(s, Interpret(p, Cut(s[p.start..i]), i + 2).1);
      } else {
        assert s + "" == s;
        ScanExtends(s, "", p.checked);
      }
    }
  }
}
