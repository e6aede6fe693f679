/**
 Two statements of the request machine, each taken as it stands while the rest is as intended. Line 154 of
 http_connection.cpp looks for a line before the body is counted, and again after line 196 gave up; line 259
 assigns where it should compare, so every header line reads as an unknown one.
 */
module RequestDepartures {
  import opened CStrings
  import opened RequestMachine
  import opened RequestGrammar
  import opened RequestRoundTrip

  datatype Departures = Departures(bodyScanned: bool, blankAssigned: bool)

  /** `parse_headers` or `parse_request_line` on a line, as `Interpret`, unless the header test is the assignment. */
  function Consume(d: Departures, p: Parse, text: string, next: nat): (r: (Code, Parse))
    ensures r.1.start == r.1.checked == next
  {
    if d.blankAssigned && p.phase == Header then (NoRequest, p.(start := next, checked := next))
    else Interpret(p, text, next)
  }

  /** One call of `process_read`. */
  function RunWith(d: Departures, s: string, p: Parse): (r: (Code, Parse))
    requires p.start <= p.checked <= |s|
    ensures p.checked <= r.1.checked <= |s| && r.1.start <= r.1.checked
    decreases |s| - p.checked, if p.phase == Content then 0 else 1
  {
    if p.phase == Content && !d.bodyScanned then
      (if p.checked + p.length <= |s| then GetRequest else NoRequest, p.(start := p.checked))
    else
      var i := ScanEnd(s, p.checked);
      if StatusAt(s, i) != LineOk then (NoRequest, p.(checked := i))
      else if p.phase == Content then
        var q := p.(start := i + 2, checked := i + 2);
        if q.checked + q.length <= |s| then (GetRequest, q) else RunWith(d, s, q)
      else
        var (code, q) := Consume(d, p, Cut(s[p.start..i]), i + 2);
        if code != NoRequest then (code, q) else RunWith(d, s, q)
  }

  /** The bytes from `at` on start with a complete line, and behind it come at least `length` bytes. */
  predicate LineThenBody(s: string, at: nat, length: nat) {
    at <= |s| && var i := ScanEnd(s, at); StatusAt(s, i) == LineOk && i + 2 + length <= |s|
  }

  lemma {:induction false} ShortBody(d: Departures, s: string, p: Parse)
    requires p.start <= p.checked <= |s| < p.checked + p.length && p.phase == Content
    ensures RunWith(d, s, p).0 == NoRequest
    decreases |s| - p.checked
  {
    hide ScanEnd, StatusAt, Interpret, Cut, Consume;
    var i := ScanEnd(s, p.checked);
    if d.bodyScanned && StatusAt(s, i) == LineOk {
      ShortBody(d, s, p.(start := i + 2, checked := i + 2));
    }
  }

  lemma AfterLine(p: Parse, text: string, next: nat)
    requires p.phase != Content
    ensures var (code, q) := Interpret(p, text, next);
      && (p.phase == RequestLine ==> code != GetRequest && (code == NoRequest ==> q.phase == Header))
      && (p.phase == Header ==> code != BadRequest && q.phase != RequestLine)
      && (code == GetRequest ==> q.phase != Content)
  {
  }

  /** The header block ends in a body or a request, never in a syntax error. */
  lemma {:induction false} HeadersNeverBad(s: string, p: Parse)
    requires p.start <= p.checked <= |s| && p.phase != RequestLine
    ensures Run(s, p).0 != BadRequest
    decreases |s| - p.checked, if p.phase == Content then 0 else 1
  {
    hide ScanEnd, StatusAt, Cut, Interpret;
    if p.phase == Header {
      var i := ScanEnd(s, p.checked);
      if StatusAt(s, i) == LineOk {
        var (code, q) := Interpret(p, Cut(s[p.start..i]), i + 2);
        AfterLine(p, Cut(s[p.start..i]), i + 2);
        if code == NoRequest { HeadersNeverBad(s, q); }
      }
    }
  }

  lemma {:induction false} HeadersNeverEnd(d: Departures, s: string, p: Parse)
    requires p.start <= p.checked <= |s| && p.phase == Header && d.blankAssigned
    ensures RunWith(d, s, p).0 == NoRequest
    decreases |s| - p.checked
  {
    hide ScanEnd, StatusAt, Cut;
    var i := ScanEnd(s, p.checked);
    if StatusAt(s, i) == LineOk {
      HeadersNeverEnd(d, s, p.(start := i + 2, checked := i + 2));
    }
  }

  lemma {:induction false} ContentStays(d: Departures, s: string, p: Parse)
    requires p.start <= p.checked <= |s| && p.phase == Content
    ensures RunWith(d, s, p).1.phase == Content && RunWith(d, s, p).0 != BadRequest
    ensures RunWith(d, s, p).1.length == p.length
    decreases |s| - p.checked
  {
    hide ScanEnd, StatusAt, Interpret, Cut, Consume;
    var i := ScanEnd(s, p.checked);
    if d.bodyScanned && StatusAt(s, i) == LineOk {
      ContentStays(d, s, p.(start := i + 2, checked := i + 2));
    }
  }

  lemma LineStep(d: Departures, s: string, p: Parse)
    requires p.start <= p.checked <= |s| && p.phase != Content
    ensures var i := ScanEnd(s, p.checked);
      RunWith(d, s, p) ==
        if StatusAt(s, i) != LineOk then (NoRequest, p.(checked := i))
        else
          var (code, q) := Consume(d, p, Cut(s[p.start..i]), i + 2);
          if code != NoRequest then (code, q) else RunWith(d, s, q)
  {
    hide ScanEnd, StatusAt, Interpret, Cut, Consume;
  }

  lemma ContentAccepts(d: Departures, s: string, p: Parse)
    requires p.start <= p.checked <= |s| && p.phase == Content && !d.blankAssigned
    ensures RunWith(d, s, p).0 != BadRequest && Run(s, p).1 == p.(start := p.checked) && Run(s, p).0 != BadRequest
    ensures RunWith(d, s, p).1.phase == Content
    ensures RunWith(d, s, p).0 == GetRequest <==>
      Run(s, p).0 == GetRequest && (d.bodyScanned ==> LineThenBody(s, p.checked, p.length))
  {
    hide ScanEnd, StatusAt, Interpret, Cut, Consume, LineThenBody;
    ContentStays(d, s, p);
    if d.bodyScanned {
      BodyIff(d, s, p);
      LongEnough(s, p.checked, p.length);
    }
  }

  /**
   What each departure costs, for every stream. Bad requests are found all the same. With the assignment no
   request is ever accepted. With the scan of the body a request without body is accepted as intended, and one
   with a body exactly when its bytes start with a complete line that leaves the announced length behind it.
   */
  lemma {:induction false} AcceptsIff(d: Departures, s: string, p: Parse)
    requires p.start <= p.checked <= |s| && (d.blankAssigned ==> p.phase != Content)
    ensures RunWith(d, s, p).0 == BadRequest <==> Run(s, p).0 == BadRequest
    ensures RunWith(d, s, p).0 == GetRequest <==>
      && Run(s, p).0 == GetRequest && !d.blankAssigned
      && (d.bodyScanned && Run(s, p).1.phase == Content ==>
            LineThenBody(s, Run(s, p).1.checked, Run(s, p).1.length))
    ensures RunWith(d, s, p).0 == GetRequest ==> RunWith(d, s, p).1.phase == Run(s, p).1.phase
    decreases |s| - p.checked, if p.phase == Content then 0 else 1
  {
    hide Run, RunWith, ScanEnd, StatusAt, Cut, Interpret, LineThenBody;
    var i := ScanEnd(s, p.checked);
    RunIterates(s, p);
    if p.phase == Content {
      ContentAccepts(d, s, p);
    } else if StatusAt(s, i) != LineOk {
      LineStep(d, s, p);
    } else {
      LineStep(d, s, p);
      var text := Cut(s[p.start..i]);
      var (code, q) := Interpret(p, text, i + 2);
      AfterLine(p, text, i + 2);
      if d.blankAssigned && p.phase == Header {
        HeadersNeverBad(s, p);
        HeadersNeverEnd(d, s, p);
      } else if code == NoRequest {
        AcceptsIff(d, s, q);
      }
    }
  }

  lemma ScannedStep(d: Departures, s: string, p: Parse)
    requires p.start <= p.checked <= |s| && p.phase == Content && d.bodyScanned
    ensures var i := ScanEnd(s, p.checked);
      RunWith(d, s, p) ==
        if StatusAt(s, i) != LineOk then (NoRequest, p.(checked := i))
        else if i + 2 + p.length <= |s| then (GetRequest, p.(start := i + 2, checked := i + 2))
        else RunWith(d, s, p.(start := i + 2, checked := i + 2))
  {
    hide ScanEnd, StatusAt, Interpret, Cut, Consume;
  }

  lemma LongEnough(s: string, at: nat, length: nat)
    ensures LineThenBody(s, at, length) ==> at + length <= |s|
  {
  }

  lemma BodyIff(d: Departures, s: string, p: Parse)
    requires p.start <= p.checked <= |s| && p.phase == Content && d.bodyScanned
    ensures RunWith(d, s, p).0 == if LineThenBody(s, p.checked, p.length) then GetRequest else NoRequest
  {
    hide ScanEnd, StatusAt, RunWith;
    var i := ScanEnd(s, p.checked);
    ScannedStep(d, s, p);
    if StatusAt(s, i) == LineOk && i + 2 + p.length > |s| {
      ShortBody(d, s, p.(start := i + 2, checked := i + 2));
    }
  }

  // ---- the cut into reads ----

  /** Read the chunks one by one behind the bytes `s`, calling `process_read` after each until it gives a verdict. */
  function FeedWith(d: Departures, s: string, p: Parse, chunks: seq<string>): (Code, Parse)
    requires p.start <= p.checked <= |s|
    decreases |chunks|
  {
    if chunks == [] then (NoRequest, p) else
    var (code, q) := RunWith(d, s + chunks[0], p);
    if code != NoRequest then (code, q) else FeedWith(d, s + chunks[0], q, chunks[1..])
  }

  /** What the departure may lose: `r` is `w`, or gives no verdict where `w` accepts a request with a body. */
  predicate MayMiss(r: (Code, Parse), w: (Code, Parse)) {
    if r.0 == w.0 then r == w || r.0 == NoRequest || r.1.phase == w.1.phase == Content
    else r.0 == NoRequest && w.0 == GetRequest && w.1.phase == Content
  }

  lemma ConsumeIgnoresCursors(d: Departures, p: Parse, checked: nat, text: string, next: nat)
    ensures Consume(d, p.(checked := checked), text, next) == Consume(d, p, text, next)
  {
    InterpretIgnoresCursors(p, p.start, checked, text, next);
  }

  /** When no line is complete the next call takes up the scan where this one stopped. */
  lemma OpenResume(d: Departures, s: string, t: string, p: Parse)
    requires p.start <= p.checked <= |s| && (p.phase == Content ==> d.bodyScanned)
    requires StatusAt(s, ScanEnd(s, p.checked)) != LineOk
    ensures RunWith(d, s, p) == (NoRequest, p.(checked := ScanEnd(s, p.checked)))
    ensures RunWith(d, s + t, RunWith(d, s, p).1) == RunWith(d, s + t, p)
  {
    hide RunWith, Consume, Interpret, Cut, ScanEnd, StatusAt;
    var i := ScanEnd(s, p.checked);
    ScanExtends(s, t, p.checked);
    var q := p.(checked := i);
    var j := ScanEnd(s + t, i);
    assert j == ScanEnd(s + t, p.checked);
    if p.phase == Content {
      ScannedStep(d, s, p);
      ScannedStep(d, s + t, p);
      ScannedStep(d, s + t, q);
    } else {
      LineStep(d, s, p);
      LineStep(d, s + t, p);
      LineStep(d, s + t, q);
      ConsumeIgnoresCursors(d, p, i, Cut((s + t)[p.start..j]), j + 2);
    }
  }

  /** A complete line in the body that leaves too few bytes behind it is lost for the next call. */
  lemma {:induction false} ScannedResume(d: Departures, s: string, t: string, p: Parse)
    requires p.start <= p.checked <= |s| && p.phase == Content && d.bodyScanned
    ensures RunWith(d, s, p).0 != NoRequest ==> RunWith(d, s + t, p) == RunWith(d, s, p)
    ensures RunWith(d, s, p).0 == NoRequest ==> MayMiss(RunWith(d, s + t, RunWith(d, s, p).1), RunWith(d, s + t, p))
    decreases |s| - p.checked
  {
    hide ScanEnd, StatusAt, RunWith;
    var i := ScanEnd(s, p.checked);
    ScannedStep(d, s, p);
    ScannedStep(d, s + t, p);
    ScanExtends(s, t, p.checked);
    ContentStays(d, s + t, p);
    if StatusAt(s, i) != LineOk {
      OpenResume(d, s, t, p);
    } else if i + 2 + p.length > |s| {
      var q := p.(start := i + 2, checked := i + 2);
      if i + 2 + p.length > |s + t| {
        ScannedResume(d, s, t, q);
      } else {
        ShortBody(d, s, q);
        ContentStays(d, s, q);
        ContentStays(d, s + t, RunWith(d, s, q).1);
      }
    }
  }

  lemma CountedResume(d: Departures, s: string, t: string, p: Parse)
    requires p.start <= p.checked <= |s| && p.phase == Content && !d.bodyScanned
    ensures RunWith(d, s, p).0 != NoRequest ==> RunWith(d, s + t, p) == RunWith(d, s, p)
    ensures RunWith(d, s, p).0 == NoRequest ==> RunWith(d, s + t, RunWith(d, s, p).1) == RunWith(d, s + t, p)
  {
    hide ScanEnd, StatusAt, Interpret, Cut, Consume;
  }

  /** A verdict reached on a prefix stays; without one the next call gives what one call gives, or misses a body. */
  lemma {:induction false} ResumeWith(d: Departures, s: string, t: string, p: Parse)
    requires p.start <= p.checked <= |s|
    ensures RunWith(d, s, p).0 != NoRequest ==> RunWith(d, s + t, p) == RunWith(d, s, p)
    ensures RunWith(d, s, p).0 == NoRequest ==>
      var r, w := RunWith(d, s + t, RunWith(d, s, p).1), RunWith(d, s + t, p);
      if d.bodyScanned then MayMiss(r, w) else r == w
    decreases |s| - p.checked, if p.phase == Content then 0 else 1
  {
    hide RunWith, Consume, Interpret, Cut, Find, ScanEnd, StatusAt, MayMiss;
    var i := ScanEnd(s, p.checked);
    ScanExtends(s, t, p.checked);
    if p.phase == Content {
      if d.bodyScanned {
        ScannedResume(d, s, t, p);
      } else {
        CountedResume(d, s, t, p);
      }
    } else if StatusAt(s, i) == LineOk {
      assert (s + t)[p.start..i] == s[p.start..i];
      LineStep(d, s, p);
      LineStep(d, s + t, p);
      var (code, q) := Consume(d, p, Cut(s[p.start..i]), i + 2);
      if code == NoRequest {
        ResumeWith(d, s, t, q);
      }
    } else {
      OpenResume(d, s, t, p);
      Misses(RunWith(d, s + t, p));
    }
  }

  lemma Misses(w: (Code, Parse))
    ensures MayMiss(w, w)
  {
  }

  /** Any cut gives what one read gives, or misses a body. */
  lemma {:induction false} CutMayMiss(d: Departures, s: string, p: Parse, chunks: seq<string>)
    requires p.start <= p.checked <= |s| && chunks != []
    ensures var r, w := FeedWith(d, s, p, chunks), RunWith(d, s + Concat(chunks), p);
      if d.bodyScanned then MayMiss(r, w) else r == w
    decreases |chunks|
  {
    hide RunWith;
    var s', rest := s + chunks[0], Concat(chunks[1..]);
    assert s + Concat(chunks) == s' + rest;
    ResumeWith(d, s', rest, p);
    if chunks[1..] == [] {
      assert s' + rest == s';
    } else if RunWith(d, s', p).0 == NoRequest {
      CutMayMiss(d, s', RunWith(d, s', p).1, chunks[1..]);
    }
  }

  /** The stream byte by byte. */
  function Bytes(s: string): seq<string> {
    seq(|s|, i requires 0 <= i < |s| => [s[i]])
  }

  lemma BytesTail(s: string)
    requires s != ""
    ensures Bytes(s)[0] == s[..1] && Bytes(s)[1..] == Bytes(s[1..])
  {
  }

  lemma {:induction false} ConcatBytes(s: string)
    ensures Concat(Bytes(s)) == s
  {
    if s != "" {
      BytesTail(s);
      ConcatBytes(s[1..]);
    }
  }

  /** No complete line waits, and a body still expected is not empty. */
  ghost predicate Waits(s: string, p: Parse) {
    && p.start <= p.checked <= |s| && StatusAt(s, ScanEnd(s, p.checked)) != LineOk
    && (p.phase == Content ==> p.length > 0)
  }

  /** At the end of the bytes there is nothing to scan. */
  lemma AtEnd(d: Departures, s: string, p: Parse)
    requires p.start == p.checked == |s| && (p.phase == Content ==> d.bodyScanned)
    ensures RunWith(d, s, p) == (NoRequest, p) && StatusAt(s, ScanEnd(s, |s|)) != LineOk
  {
    hide Find, Interpret, Consume;
  }

  /** One more byte completes at most a line that ends with it, so no body of a request is there yet. */
  lemma ByteWaits(d: Departures, s: string, c: char, p: Parse)
    requires d.bodyScanned && Waits(s, p)
    ensures var (code, q) := RunWith(d, s + [c], p);
      if code == NoRequest then Waits(s + [c], q) else q.phase != Content
  {
    hide Find, Cut, Interpret, ScanEnd, StatusAt;
    var s' := s + [c];
    var i := ScanEnd(s', p.checked);
    LineEndsLast(s, c, p.checked);
    if StatusAt(s', i) != LineOk {
      OpenResume(d, s', "", p);
      ScanExtends(s', "", p.checked);
      assert s' + "" == s';
    } else if p.phase == Content {
      AtEnd(d, s', p.(start := i + 2, checked := i + 2));
      ScannedStep(d, s', p);
    } else {
      var (code, q) := Consume(d, p, Cut(s'[p.start..i]), i + 2);
      BodyExpected(d, p, Cut(s'[p.start..i]), i + 2);
      AtEnd(d, s', q);
    }
  }

  lemma LineEndsLast(s: string, c: char, from: nat)
    requires from <= |s| && StatusAt(s, ScanEnd(s, from)) != LineOk
    ensures var i := ScanEnd(s + [c], from); StatusAt(s + [c], i) == LineOk ==> i + 2 == |s| + 1
  {
    hide Find;
    ScanExtends(s, [c], from);
  }

  lemma BodyExpected(d: Departures, p: Parse, text: string, next: nat)
    requires p.phase != Content
    ensures var (code, q) := Consume(d, p, text, next);
      q.phase == Content ==> code == NoRequest && q.length > 0
  {
    hide ParseRequestLine, ParseField;
  }

  /** Read byte by byte no request with a body is ever accepted. */
  lemma {:induction false} BytesMissBodies(d: Departures, s: string, p: Parse, t: string)
    requires d.bodyScanned && Waits(s, p)
    ensures FeedWith(d, s, p, Bytes(t)).0 != NoRequest ==> FeedWith(d, s, p, Bytes(t)).1.phase != Content
    decreases |t|
  {
    hide RunWith, Waits;
    assert p.start <= p.checked <= |s| by { WaitsCursors(s, p); }
    if t != "" {
      BytesTail(t);
      ByteWaits(d, s, t[0], p);
      assert t[..1] == [t[0]];
      var (code, q) := RunWith(d, s + [t[0]], p);
      if code == NoRequest {
        BytesMissBodies(d, s + [t[0]], q, t[1..]);
      }
    }
  }

  lemma WaitsCursors(s: string, p: Parse)
    requires Waits(s, p)
    ensures p.start <= p.checked <= |s|
  {
  }

  /** One read of the stream accepts a request with a body. */
  predicate TakesBody(d: Departures, s: string) {
    RunWith(d, s, INIT).0 == GetRequest && RunWith(d, s, INIT).1.phase == Content
  }

  /** The stream starts with a request with a body, whose bytes start with a line that leaves the announced length. */
  ghost predicate BodyFits(s: string) {
    exists m, rest :: IsRequest(s, m, rest) && m.body != "" && LineThenBody(s, |Render(m)| - |m.body|, |m.body|)
  }

  lemma RenderBody(m: Message)
    ensures |Render(m)| >= |m.body|
  {
  }

  /** The body is expected exactly when its length is announced. */
  lemma BodyPhase(s: string)
    ensures var (code, p) := Grammar(s); code == GetRequest ==> (p.phase == Content <==> p.length > 0)
  {
    hide Lines, Cut, ParseRequestLine, LastLength, LastHost, KeepAlive, Texts, BlankLine, Join, ScanEnd;
  }

  /** Which streams one read accepts as a request with a body when the body is scanned. */
  lemma TakesBodyIff(d: Departures, s: string)
    requires d.bodyScanned
    ensures TakesBody(d, s) <==> !d.blankAssigned && BodyFits(s)
  {
    hide Run, RunWith, Grammar, LineThenBody, IsRequest, Render, Extract;
    AcceptsIff(d, s, INIT);
    AcceptedIff(s);
    MachineIsGrammar(s);
    BodyPhase(s);
    var p := Run(s, INIT).1;
    forall m, rest | IsRequest(s, m, rest)
      ensures Holds(p, m) && p.length == |m.body| && p.checked == |Render(m)| - |m.body|
    {
      RenderBody(m);
      HoldsMeans(p, m);
    }
  }

  lemma HoldsMeans(p: Parse, m: Message)
    requires Holds(p, m)
    ensures p.length == |m.body| && p.checked == |Render(m)| - |m.body|
  {
  }

  /**
   The cut into reads cannot be observed exactly when line 154 is as intended, or line 259 is not, or the stream does
   not start with a request whose body starts with a line that leaves the announced length behind it. Then every cut
   gives the verdict of one read, and otherwise the cut into single bytes does not.
   */
  lemma CutInvisibleIff(d: Departures, s: string)
    ensures (forall chunks :: chunks != [] && Concat(chunks) == s ==>
        FeedWith(d, "", INIT, chunks).0 == RunWith(d, s, INIT).0)
      <==> !(d.bodyScanned && !d.blankAssigned && BodyFits(s))
    ensures d.bodyScanned && !d.blankAssigned && BodyFits(s) ==> FeedWith(d, "", INIT, Bytes(s)).0 == NoRequest
  {
    hide RunWith, FeedWith, Concat, BodyFits;
    forall chunks | chunks != [] && Concat(chunks) == s
      ensures var r, w := FeedWith(d, "", INIT, chunks), RunWith(d, s, INIT);
        if d.bodyScanned then MayMiss(r, w) else r == w
    {
      CutMayMiss(d, "", INIT, chunks);
      assert "" + Concat(chunks) == s;
    }
    if d.bodyScanned {
      TakesBodyIff(d, s);
      if TakesBody(d, s) {
        ConcatBytes(s);
        EmptyWaits();
        NothingYet(d);
        BytesMissBodies(d, "", INIT, s);
        assert Bytes(s) != [];
      }
    }
  }

  lemma EmptyWaits()
    ensures Waits("", INIT)
  {
  }

  lemma NothingYet(d: Departures)
    ensures RunWith(d, "", INIT).0 == NoRequest
  {
  }

  /** A message whose body is CR, with LF and one byte behind it: one read accepts it, reading byte by byte does not. */
  lemma MissedBody(d: Departures, m: Message)
    requires d == Departures(true, false) && WellFormed(m) && m.body == "\r"
    ensures var s := Render(m) + "\nx";
      && Run(s, INIT).0 == RunWith(d, s, INIT).0 == GetRequest
      && FeedWith(d, "", INIT, Bytes(s)).0 == NoRequest
  {
    hide Run, RunWith, FeedWith, WellFormed, Render, Grammar, Lines, BlankLine, Join, Cut, ParseRequestLine, Concat;
    hide Bytes, LastLength, LastHost, KeepAlive, Texts, Extract, LineThenBody, Find, ScanEnd, StatusAt;
    var s := Render(m) + "\nx";
    MachineIsGrammar(s);
    Accepted(s, m, "\nx");
    MessageLines(s, m, "\nx");
    var at := |Render(m)| - 1;
    assert s[at] == s[at..at + 1][0] == '\r' && s[at + 1] == '\n';
    LineHere(s, at);
    AcceptsIff(d, s, INIT);
    assert BodyFits(s) by { assert IsRequest(s, m, "\nx"); }
    CutInvisibleIff(d, s);
  }

  lemma LineHere(s: string, at: nat)
    requires at + 3 == |s| && s[at] == '\r' && s[at + 1] == '\n'
    ensures LineThenBody(s, at, 1)
  {
    hide Find;
    assert ScanEnd(s, at) == at;
  }

  /** Real bytes: any GET request with a body of one byte. */
  lemma SplitShows(d: Departures, l: Line)
    requires d == Departures(true, false) && GoodLine(l)
    ensures var s := Print(l, [LengthIs("Content-Length", " ", 1)], "\r") + "\nx";
      && Run(s, INIT).0 == RunWith(d, s, INIT).0 == GetRequest
      && FeedWith(d, "", INIT, Bytes(s)).0 == NoRequest
  {
    hide Run, RunWith, FeedWith, GoodLine, PrintLine, WellFormed, Render;
    var headers := [LengthIs("Content-Length", " ", 1)];
    PrintedWellFormed(l, headers, "\r");
    MissedBody(d, Message(PrintLine(l), Printed(headers), "", "\r"));
  }
}
