/**
 The request machine as its text stands. `parse_line` leaves its loop after one ordinary byte with LINE_OPEN
 (line 339) and reports LINE_OK when it runs out of bytes (line 341), and `parse_request_line` writes through
 the result of `strpbrk` without looking at it (line 215). On a connection that `init` prepared this decides
 every call: no request is ever parsed.
 */
module RequestMachineAsWritten {
  import opened CStrings
  import opened RequestMachine
  import opened RequestGrammar
  import opened RequestRoundTrip

  /** `Parses` stands for the part of the machine behind a request line with a blank in it. */
  datatype Outcome = Returns(code: Code) | NullDereference | Parses(text: string)

  /** `parse_line`: the status, the checked cursor, and where the line ends when there is one. */
  function ParseLine(s: string, checked: nat): (LineStatus, nat, nat) {
    if checked >= |s| then (LineOk, checked, |s|)
    else if s[checked] == '\r' then
      if checked + 1 == |s| then (LineOpen, checked, 0)
      else if s[checked + 1] == '\n' then (LineOk, checked + 2, checked)
      else (LineBad, checked, 0)
    else if s[checked] == '\n' then
      if checked > 1 && s[checked - 1] == '\r' then (LineOk, checked + 1, checked - 1) else (LineBad, checked, 0)
    else (LineOpen, checked, 0)
  }

  /** `process_read` while the request line is expected and the line starts the buffer. */
  function ProcessRead(s: string, checked: nat): (Outcome, nat) {
    var (status, next, end) := ParseLine(s, checked);
    if status != LineOk then (Returns(NoRequest), next) else
    var text := if end <= |s| then Cut(s[..end]) else "";
    if Find(text, BLANK) == |text| then (NullDereference, next) else (Parses(text), next)
  }

  /** The calls made while the chunks arrive; a call that returns without verdict leaves its cursor to the next. */
  function Feed(s: string, checked: nat, chunks: seq<string>): Outcome
    decreases |chunks|
  {
    if chunks == [] then Returns(NoRequest) else
    var (outcome, next) := ProcessRead(s + chunks[0], checked);
    if outcome == Returns(NoRequest) then Feed(s + chunks[0], next, chunks[1..]) else outcome
  }

  predicate Crashes(s: string) { s == "" || CRLF <= s }

  /** No stream, however cut into reads, gets a verdict: the calls return NO_REQUEST or write through null. */
  lemma {:induction false} NeverAnswers(s: string, chunks: seq<string>)
    ensures Feed(s, 0, chunks) == Returns(NoRequest) || Feed(s, 0, chunks) == NullDereference
    ensures Feed(s, 0, chunks) == NullDereference <==>
      exists n :: 0 < n <= |chunks| && Crashes(s + Concat(chunks[..n]))
    decreases |chunks|
  {
    if chunks != [] {
      var s' := s + chunks[0];
      FirstCall(s');
      assert chunks[..1] == [chunks[0]] && Concat([chunks[0]]) == chunks[0] + Concat([]) == chunks[0];
      NeverAnswers(s', chunks[1..]);
      forall n | 0 < n <= |chunks| ensures s + Concat(chunks[..n]) == s' + Concat(chunks[1..][..n - 1]) {
        assert chunks[..n][1..] == chunks[1..][..n - 1];
      }
      if n :| 0 < n <= |chunks[1..]| && Crashes(s' + Concat(chunks[1..][..n])) {
        assert Crashes(s + Concat(chunks[..n + 1]));
      }
      assert Crashes(s') ==> Crashes(s + Concat(chunks[..1]));
      assert !Crashes(s') ==> forall n :: 1 < n <= |chunks| && Crashes(s + Concat(chunks[..n])) ==>
        0 < n - 1 <= |chunks[1..]| && Crashes(s' + Concat(chunks[1..][..n - 1]));
    }
  }

  lemma FirstCall(s: string)
    ensures ProcessRead(s, 0) ==
      if Crashes(s) then (NullDereference, if s == "" then 0 else 2) else (Returns(NoRequest), 0)
  {
    assert s[..0] == "";
    assert CRLF <= s <==> |s| >= 2 && s[0] == '\r' && s[1] == '\n';
  }

  /** The intended machine finds a request bad exactly by its first complete line. */
  lemma BadIff(s: string)
    ensures Run(s, INIT).0 == BadRequest <==> Lines(s) != [] && !ParseRequestLine(Cut(Lines(s)[0])).ok
  {
    hide Run, Lines, Cut, ParseRequestLine, Join, BlankLine, Texts, ScanEnd, Fields;
    MachineIsGrammar(s);
    LinesArePrefix(s);
  }

  ghost predicate StartsWithRequest(s: string) { exists m, rest :: IsRequest(s, m, rest) }

  ghost predicate IsGet(line: string) {
    exists verb, sep1, url, sep2, version, path :: IsGetLine(line, verb, sep1, url, sep2, version, path)
  }

  /**
   A first call agrees with the intended machine exactly on bytes that are not empty, do not start with CRLF, do not
   start with a well-formed request, and whose first line, if it is complete, is a GET line.
   */
  lemma AgreesIff(s: string)
    ensures ProcessRead(s, 0).0 == Returns(Run(s, INIT).0)
      <==> !Crashes(s) && !StartsWithRequest(s) && (Lines(s) == [] || IsGet(Cut(Lines(s)[0])))
  {
    hide Run, Lines, Cut, IsRequest, IsGetLine, ParseRequestLine, Crashes, ProcessRead;
    FirstCall(s);
    AcceptedIff(s);
    BadIff(s);
    if Lines(s) != [] {
      RequestLineIff(Cut(Lines(s)[0]));
    }
  }

  /** Every printed request, such as "GET / HTTP/1.1" alone, is answered as intended and ignored as written. */
  lemma RequestsIgnored(l: Line, headers: seq<Header>, body: string, chunks: seq<string>)
    requires GoodLine(l) && (forall h :: h in headers ==> GoodHeader(h)) && |body| == LengthOf(headers)
    requires chunks != [] && chunks[0] != "" && Concat(chunks) == Print(l, headers, body)
    ensures RequestMachine.Feed("", INIT, chunks).0 == GetRequest
    ensures Feed("", 0, chunks) == Returns(NoRequest)
  {
    hide RequestMachine.Feed, GoodHeader, GoodLine, LengthOf, ParseLine, Concat, KeepsAlive;
    var s := Print(l, headers, body);
    assert s + "" == s;
    RoundTrip(l, headers, body, "", chunks);
    NeverAnswers("", chunks);
    StartsWithG(l, headers, body);
    FirstByte(chunks);
    forall n | 0 < n <= |chunks| ensures !Crashes("" + Concat(chunks[..n])) {
      FirstByte(chunks[..n]);
      assert "" + Concat(chunks[..n]) == Concat(chunks[..n]);
    }
  }

  lemma FirstByte(chunks: seq<string>)
    requires chunks != [] && chunks[0] != ""
    ensures Concat(chunks) != "" && Concat(chunks)[0] == chunks[0][0]
  {
  }

  lemma StartsWithG(l: Line, headers: seq<Header>, body: string)
    requires GoodLine(l)
    ensures Print(l, headers, body) != "" && SameLetter(Print(l, headers, body)[0], 'G')
  {
    assert PrintLine(l)[0] == l.verb[0];
  }
}
