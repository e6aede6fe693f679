/**
 The connection object of http_connection.cpp: one read buffer, three cursors, and pointers into the buffer
 for the parsed strings. Lines and tokens are cut in place by writing NULs. A ghost copy of the bytes received
 ties every method to the machine on values of module RequestMachine.
 */
module HttpConnections {
  import opened Options
  import opened CStrings
  import opened RequestMachine
  import opened RequestGrammar

  datatype Received = Bytes(data: string) | WouldBlock | Failed

  /** A non-blocking stream socket: the bytes that wait to be read, and whether the peer closed or the stream broke. */
  class Socket {
    var pending: string
    const closed: bool
    const broken: bool

    constructor (pending: string, closed: bool, broken: bool)
      ensures this.pending == pending && this.closed == closed && this.broken == broken
    {
      this.pending, this.closed, this.broken := pending, closed, broken;
    }

    /**
     `recv` for at most `n` bytes. It may return fewer than are waiting; asking for none returns none, or, when
     nothing waits, it may report that it would block.
     */
    method Recv(n: nat) returns (r: Received)
      modifies this
      ensures broken ==> r == Failed
      ensures !broken && n > 0 && old(pending) == "" ==> r == if closed then Bytes("") else WouldBlock
      ensures !broken && n == 0 ==> r == Bytes("") || (r == WouldBlock && old(pending) == "" && !closed)
      ensures !broken && n > 0 && old(pending) != "" ==> r.Bytes? && 0 < |r.data| <= n
      ensures old(pending) == (if r.Bytes? then r.data else "") + pending
    {
      if broken {
        return Failed;
      } else if n == 0 {
        var blocks: bool := *;
        return if blocks && pending == "" && !closed then WouldBlock else Bytes("");
      } else if pending == "" {
        return if closed then Bytes("") else WouldBlock;
      }
      var k: nat :| 0 < k <= n && k <= |pending|;
      r := Bytes(pending[..k]);
      pending := pending[k..];
    }
  }

  /** A request-line separator: a blank of the first line with at most one blank before it. */
  ghost predicate Separator(s: string, k: nat) {
    && k < |s| && s[k] in BLANK && (forall j :: 0 <= j < k ==> s[j] !in BREAK)
    && exists m :: 0 <= m <= k && OnlyBlank(s, k, m)
  }

  /** No blank stands before `k`, except perhaps at `m`. */
  ghost predicate OnlyBlank(s: string, k: nat, m: nat)
    requires k <= |s|
  {
    forall j :: 0 <= j < k && j != m ==> s[j] !in BLANK
  }

  lemma SeparatorExtends(s: string, t: string, k: nat)
    requires Separator(s, k)
    ensures Separator(s + t, k)
  {
    var m :| 0 <= m <= k && OnlyBlank(s, k, m);
    assert OnlyBlank(s + t, k, m);
  }

  class HttpConnection {
    const readBuf: array<char>
    var readIdx: nat
    var checkedIdx: nat
    var startLine: nat
    var checkState: Phase
    var url: int
    var version: int
    var host: int
    var linger: bool
    var contentLength: nat
    ghost var received: string

    /** One cell of the array is never filled: line 300 writes a NUL behind a body that ends with the buffer. */
    ghost function Capacity(): int { readBuf.Length - 1 }

    function CStr(at: nat): string
      requires at <= readBuf.Length
      reads readBuf
    {
      Cut(readBuf[at..])
    }

    ghost function Pointed(at: int): Option<string>
      reads readBuf
    {
      if 0 <= at <= readBuf.Length then Some(CStr(at)) else None
    }

    /** What the object remembers, with its pointers replaced by the strings they point to. */
    ghost function View(): Parse
      reads this, readBuf
    {
      Parse(checkState, startLine, checkedIdx, Pointed(url), Pointed(version), Pointed(host), linger, contentLength)
    }

    ghost predicate Before(at: int, end: nat) { at == -1 || 0 <= at < end }

    ghost predicate Cursors()
      reads this`startLine, this`checkedIdx, this`readIdx, this`received
    {
      && startLine <= checkedIdx <= readIdx <= Capacity() && |received| == readIdx
      && forall k :: startLine <= k < checkedIdx ==> received[k] !in BREAK
    }

    /** Consumed cells differ from the bytes received only where a line break or a separator became NUL. */
    ghost predicate ConsumedKept()
      reads this`startLine, this`received, readBuf
      requires startLine <= |received| && |received| < readBuf.Length
    {
      forall k :: 0 <= k < startLine ==>
        readBuf[k] == received[k] || (readBuf[k] == NUL && (received[k] in BREAK || Separator(received, k)))
    }

    /** Every string pointed to ends before the current line. */
    ghost predicate Sound()
      reads this, readBuf
    {
      && Cursors() && ConsumedKept()
      && (startLine > 0 ==> readBuf[startLine - 1] == NUL)
      && Before(url, startLine) && Before(version, startLine) && Before(host, startLine)
    }

    ghost predicate Untouched(from: nat, to: nat)
      reads this`received, readBuf
      requires to <= |received| < readBuf.Length
    {
      forall k :: from <= k < to ==> readBuf[k] == received[k]
    }

    /** The state between two calls: the bytes of the current line and those behind it are untouched. */
    ghost predicate Valid()
      reads this, readBuf
    {
      && Sound() && Untouched(startLine, readIdx)
      && (checkState == RequestLine ==> startLine == 0 && url == version == host == -1)
      && (checkState == Content ==> startLine == checkedIdx)
    }

    /** The state after a complete line was found with its CRLF at `i`. */
    ghost predicate LineAt(i: nat)
      reads this, readBuf
    {
      && startLine <= i && checkedIdx == i + 2 <= readIdx <= Capacity() && |received| == readIdx
      && (forall k :: startLine <= k < i ==> received[k] !in BREAK)
      && received[i] == '\r' && received[i + 1] == '\n' && readBuf[i] == NUL && readBuf[i + 1] == NUL
      && ConsumedKept() && Untouched(startLine, i) && Untouched(i + 2, readIdx)
      && Before(url, startLine) && Before(version, startLine) && Before(host, startLine)
    }

    lemma HasRoom()
      requires Valid()
      ensures |received| <= Capacity()
    {
    }

    /** `init`: an empty buffer and the first state. */
    constructor (capacity: nat)
      ensures Valid() && View() == INIT && received == "" && Capacity() == capacity
      ensures fresh(readBuf)
    {
      readBuf := new char[capacity + 1](_ => NUL);
      readIdx, checkedIdx, startLine := 0, 0, 0;
      checkState := RequestLine;
      url, version, host := -1, -1, -1;
      linger, contentLength := false, 0;
      received := "";
    }

    /**
     Read until the socket would block. The call succeeds when the stream is open and whole and all that waits leaves
     a cell free, and fails when it does not fit or the buffer is full already. When it fills the buffer exactly, the
     kernel's answer to a request for no bytes decides. (Line 105 asks for the whole buffer size; here it asks for
     the space left, as intended. Module ReadsAsWritten treats the text.)
     */
    method Read(sock: Socket) returns (ok: bool)
      requires Valid()
      modifies this`readIdx, this`received, readBuf, sock
      ensures Valid() && View() == old(View())
      ensures !sock.broken && !sock.closed && old(readIdx) + |old(sock.pending)| < Capacity() ==> ok
      ensures ok ==>
        && !sock.broken && !sock.closed
        && old(readIdx) < Capacity() && old(readIdx) + |old(sock.pending)| <= Capacity()
      ensures ok || (!sock.broken && old(readIdx) < Capacity() && old(readIdx) + |old(sock.pending)| <= Capacity()) ==>
        received == old(received) + old(sock.pending) && sock.pending == ""
      ensures received + sock.pending == old(received) + old(sock.pending)
      ensures old(received) <= received
    {
      hide CStr, ConsumedKept, Untouched;
      if readIdx >= readBuf.Length - 1 {
        return false;
      }
      while true
        invariant Valid() && View() == old(View())
        invariant received + sock.pending == old(received) + old(sock.pending) && old(received) <= received
        invariant old(readIdx) < Capacity()
        decreases |sock.pending|
      {
        var r := sock.Recv(readBuf.Length - 1 - readIdx);
        if r == WouldBlock {
          break;
        } else if r == Failed || |r.data| == 0 {
          return false;
        }
        Store(r.data);
      }
      return true;
    }

    /** The effect of `recv` on the buffer and the cursor. */
    method Store(data: string)
      requires Valid() && readIdx + |data| <= Capacity()
      modifies this`readIdx, this`received, readBuf
      ensures Valid() && View() == old(View()) && received == old(received) + data
    {
      hide Separator, Cut;
      ghost var was := readBuf[..];
      forall i | 0 <= i < |data| {
        readBuf[readIdx + i] := data[i];
      }
      readIdx := readIdx + |data|;
      received := received + data;
      StringsKept(was, readBuf[..]);
      forall k | 0 <= k < startLine && Separator(old(received), k) ensures Separator(received, k) {
        SeparatorExtends(old(received), data, k);
      }
    }

    /** Strings that end before the current line do not depend on the buffer from there on. */
    lemma StringsKept(was: string, now: string)
      requires |was| == |now| && startLine <= |was| && was[..startLine] == now[..startLine]
      requires startLine > 0 ==> was[startLine - 1] == NUL
      ensures forall at :: 0 <= at < startLine ==> Cut(was[at..]) == Cut(now[at..])
    {
      forall at | 0 <= at < startLine ensures Cut(was[at..]) == Cut(now[at..]) {
        var end := startLine - 1;
        assert was[at..][..end - at] == was[..startLine][at..end] == now[..startLine][at..end] == now[at..][..end - at];
        assert was[end] == was[..startLine][end] == now[..startLine][end];
        CutLocal(was[at..], now[at..], end - at);
      }
    }

    /** Replace the CRLF at the checked cursor and step over it. */
    method EndLine()
      requires Valid() && checkState != Content && checkedIdx + 1 < readIdx
      requires received[checkedIdx] == '\r' && received[checkedIdx + 1] == '\n'
      modifies this`checkedIdx, readBuf
      ensures LineAt(old(checkedIdx)) && View() == old(View()).(checked := old(checkedIdx) + 2)
    {
      hide Cut, Separator;
      ghost var was := readBuf[..];
      readBuf[checkedIdx] := NUL;
      checkedIdx := checkedIdx + 1;
      readBuf[checkedIdx] := NUL;
      checkedIdx := checkedIdx + 1;
      StringsKept(was, readBuf[..]);
    }

    /** Look for the end of the current line from the checked cursor on; a complete line has its CRLF replaced. */
    method ParseLine() returns (status: LineStatus)
      requires Valid() && checkState != Content
      modifies this`checkedIdx, readBuf
      ensures var i := ScanEnd(received, old(checkedIdx));
        && status == StatusAt(received, i)
        && if status == LineOk then LineAt(i) && View() == old(View()).(checked := i + 2)
           else Valid() && View() == old(View()).(checked := i) && unchanged(readBuf)
    {
      hide Find, CStr, Pointed, Separator, ScanEnd;
      ghost var end := ScanEnd(received, checkedIdx);
      while checkedIdx < readIdx
        invariant old(checkedIdx) <= checkedIdx <= end && unchanged(readBuf)
      {
        var temp := readBuf[checkedIdx];
        if temp == '\r' {
          if readIdx == checkedIdx + 1 {
            return LineOpen;
          } else if readBuf[checkedIdx + 1] == '\n' {
            EndLine();
            return LineOk;
          }
          return LineBad;
        } else if temp == '\n' {
          if checkedIdx > 1 && readBuf[checkedIdx - 1] == '\r' {
            // A CR stops the scan and is never passed over, so no LF is met with a CR before it.
            assert false;
          }
          return LineBad;
        }
        checkedIdx := checkedIdx + 1;
      }
      return LineOpen;
    }

    /** `get_line`, and the start of the next line. */
    method GetLine(ghost i: nat) returns (text: nat)
      requires LineAt(i)
      modifies this`startLine
      ensures Sound() && Untouched(startLine, readIdx)
      ensures text == old(startLine) && startLine == checkedIdx == i + 2
      ensures text + |Cut(received[text..i])| <= i && Reads(text, Cut(received[text..i]))
      ensures View() == old(View()).(start := i + 2)
    {
      text := startLine;
      startLine := checkedIdx;
      hide Separator, CStr, Pointed, Reads;
      assert readBuf[text..i] == received[text..i];
      CutReads(text, i - text);
    }

    lemma CutReads(at: nat, n: nat)
      requires at + n < readBuf.Length && readBuf[at + n] == NUL
      ensures |Cut(readBuf[at..at + n])| <= n && Reads(at, Cut(readBuf[at..at + n]))
    {
      var b := readBuf[at..];
      assert b[..n] == readBuf[at..at + n];
      CutPrefix(b, n);
      assert b[..|Cut(b)|] == readBuf[at..at + |Cut(b)|];
    }

    /** `w` stands at offset `at`, free of NUL, with a NUL behind it. */
    ghost predicate Reads(at: nat, w: string)
      reads readBuf
    {
      at + |w| < readBuf.Length && readBuf[at..at + |w|] == w && readBuf[at + |w|] == NUL && NUL !in w
    }

    lemma ReadsCStr(at: nat, w: string)
      requires Reads(at, w)
      ensures at + |w| < readBuf.Length && CStr(at) == w && Pointed(at) == Some(w)
    {
      assert readBuf[..][at..] == readBuf[at..];
      ReadsAs(readBuf[..], at, w);
    }

    lemma NullPointer()
      ensures Pointed(-1) == None
    {
    }

    lemma ReadsTail(at: nat, w: string, k: nat)
      requires Reads(at, w) && k <= |w|
      ensures Reads(at + k, w[k..])
    {
      assert readBuf[at + k..at + |w|] == readBuf[at..at + |w|][k..];
    }

    /** Write the NUL that ends a token of the first line. */
    method EndToken(at: nat, ghost w: string, k: nat)
      requires Sound() && Untouched(startLine, readIdx)
      requires Reads(at, w) && k < |w| && at + |w| < startLine && Separator(received, at + k)
      modifies readBuf
      ensures Sound() && Untouched(startLine, readIdx)
      ensures Reads(at, w[..k]) && Reads(at + k + 1, w[k + 1..])
    {
      hide Separator, Cut;
      assert readBuf[at..at + |w|][..k] == readBuf[at..at + k];
      assert readBuf[at..at + |w|][k + 1..] == readBuf[at + k + 1..at + |w|];
      readBuf[at + k] := NUL;
    }

    /** The last part of `parse_request_line`: skip a scheme and an authority, and insist on a path. */
    method ParseTarget(ghost target: string) returns (ok: bool)
      requires Sound() && 0 <= url && Reads(url, target) && url + |target| < startLine
      modifies this`url
      ensures Sound() && Pointed(url) == Target(target) && ok == IsPath(Target(target))
    {
      hide CStr, Pointed, Reads, StartsFold, Find, ConsumedKept;
      ReadsCStr(url, target);
      if StartsFold(CStr(url), "http://") {
        var at := url + 7;
        ReadsTail(url, target, 7);
        ReadsCStr(at, target[7..]);
        var k := Find(CStr(at), {'/'});
        if k == |CStr(at)| {
          url := -1;
          NullPointer();
          return false;
        }
        url := at + k;
        ReadsTail(at, target[7..], k);
        ReadsCStr(url, target[7..][k..]);
      }
      return CStr(url) != "" && CStr(url)[0] == '/';
    }

    /**
     `parse_request_line` on the line `t` at the start of the buffer: method, target and version are cut apart in
     place, and the pointers end at the strings that the machine on values computes.
     */
    method ParseRequestLine(ghost t: string) returns (code: Code)
      requires Sound() && Untouched(startLine, readIdx) && checkState == RequestLine && startLine == checkedIdx
      requires url == version == host == -1
      requires Reads(0, t) && |t| + 1 < startLine && t <= received && Unbroken(t)
      modifies this`url, this`version, this`checkState, readBuf
      ensures Sound() && Untouched(startLine, readIdx)
      ensures startLine == old(startLine) && (code, View()) == Interpret(old(View()), t, startLine)
    {
      hide CStr, Reads, Find, EqFold, Target, IsPath, ConsumedKept, Separator, ApplyField;
      ReadsCStr(0, t);
      var i := Find(CStr(0), BLANK);
      if i == |CStr(0)| {
        return BadRequest;
      }
      FirstSeparator(received, t, i);
      EndToken(0, t, i);
      url := i + 1;
      ghost var rest := t[i + 1..];
      ReadsCStr(0, t[..i]);
      ReadsCStr(i + 1, rest);
      if !EqFold(CStr(0), "get") {
        return BadRequest;
      }
      var good := ParseVersion(t, i, rest);
      if !good {
        return BadRequest;
      }
      checkState := Header;
      return NoRequest;
    }

    /** The middle part of `parse_request_line`: cut the target from the version, and compare the version. */
    method ParseVersion(ghost t: string, ghost i: nat, ghost rest: string) returns (ok: bool)
      requires Sound() && Untouched(startLine, readIdx)
      requires t <= received && Unbroken(t) && i == Find(t, BLANK) < |t| && |t| + 1 < startLine
      requires rest == t[i + 1..] && url == i + 1 && version == host == -1 && Reads(url, rest)
      modifies this`url, this`version, readBuf
      ensures Sound() && Untouched(startLine, readIdx)
      ensures var j := Find(rest, BLANK);
        if j == |rest| then !ok && Pointed(url) == Some(rest) && version == -1
        else
          var target, word := rest[..j], rest[j + 1..];
          && Pointed(version) == Some(word)
          && (if !EqFold(word, "HTTP/1.1") then !ok && Pointed(url) == Some(target)
              else ok == IsPath(Target(target)) && Pointed(url) == Target(target))
    {
      hide CStr, Pointed, Reads, Find, EqFold, Target, IsPath, ConsumedKept, Cursors, Untouched, Separator;
      NullPointer();
      ReadsCStr(url, rest);
      var j := Find(CStr(url), BLANK);
      if j == |CStr(url)| {
        return false;
      }
      SecondSeparator(received, t, i, j);
      EndToken(url, rest, j);
      version := url + j + 1;
      ReadsCStr(url, rest[..j]);
      ReadsCStr(version, rest[j + 1..]);
      if !EqFold(CStr(version), "HTTP/1.1") {
        return false;
      }
      ok := ParseTarget(rest[..j]);
    }

    /** Step over a field name and the blanks behind it. */
    method FieldAt(text: nat, ghost t: string, n: nat) returns (at: nat)
      requires Reads(text, t) && n <= |t|
      ensures Reads(at, FieldValue(t, n)) && CStr(at) == FieldValue(t, n) && at + |FieldValue(t, n)| == text + |t|
    {
      hide CStr, Span, Reads;
      ReadsTail(text, t, n);
      ReadsCStr(text + n, t[n..]);
      var k := Span(CStr(text + n), BLANK);
      at := text + n + k;
      ReadsTail(text + n, t[n..], k);
      assert t[n..][k..] == FieldValue(t, n);
      ReadsCStr(at, FieldValue(t, n));
    }

    /** `parse_headers` on the line `t` at offset `text`. */
    method ParseHeaders(text: nat, ghost t: string) returns (code: Code)
      requires Sound() && Untouched(startLine, readIdx) && checkState == Header && startLine == checkedIdx
      requires Reads(text, t) && text + |t| < startLine
      modifies this`checkState, this`linger, this`contentLength, this`host
      ensures Sound() && Untouched(startLine, readIdx) && startLine == old(startLine)
      ensures (code, View()) == Interpret(old(View()), t, startLine)
    {
      hide CStr, EqFold, StartsFold, Atol, FieldValue, ConsumedKept, Cursors;
      ReadsCStr(text, t);
      assert readBuf[text] == NUL <==> t == "" by {
        assert t != "" ==> t[0] == readBuf[text..text + |t|][0];
      }
      if readBuf[text] == NUL {
        if contentLength != 0 {
          checkState := Content;
          return NoRequest;
        }
        return GetRequest;
      } else if StartsFold(CStr(text), "connection:") {
        var at := FieldAt(text, t, 11);
        if EqFold(CStr(at), "keep-alive") {
          linger := true;
        }
      } else if StartsFold(CStr(text), "Content-Length:") {
        var at := FieldAt(text, t, 15);
        contentLength := Atol(CStr(at));
      } else if StartsFold(CStr(text), "Host:") {
        host := FieldAt(text, t, 5);
        ReadsCStr(host, FieldValue(t, 5));
      }
      return NoRequest;
    }

    /**
     `parse_content`: the body at offset `text` is only counted, and ended with a NUL. The NUL goes into the spare cell
     only behind a body that ends with a full buffer.
     */
    method ParseContent(text: nat) returns (code: Code)
      requires Valid() && checkState == Content && text == startLine
      modifies readBuf
      ensures Sound() && View() == old(View())
      ensures code == if checkedIdx + contentLength <= readIdx then GetRequest else NoRequest
      ensures if code == NoRequest then Valid() else Answered(code)
      ensures code == GetRequest && text + contentLength == Capacity() ==> readIdx == Capacity()
      ensures readBuf[..] ==
        if code == GetRequest then old(readBuf[..])[text + contentLength := NUL] else old(readBuf[..])
    {
      hide Separator, Cut;
      ghost var was := readBuf[..];
      if readIdx >= contentLength + checkedIdx {
        readBuf[text + contentLength] := NUL;
        StringsKept(was, readBuf[..]);
        return GetRequest;
      }
      return NoRequest;
    }

    /** What holds of the buffer after a verdict: behind the consumed lines only the cell after the body may differ. */
    ghost predicate Answered(code: Code)
      reads this, readBuf
    {
      && Sound()
      && (forall k :: startLine <= k < readIdx && (checkState == Content ==> k != startLine + contentLength) ==>
            readBuf[k] == received[k])
      && (code == GetRequest && checkState == Content ==>
            startLine + contentLength <= readIdx && readBuf[startLine + contentLength] == NUL)
    }

    /** The body of the loop in `process_read` outside the request body: find a line and interpret it. */
    method ProcessLine() returns (status: LineStatus, code: Code)
      requires Valid() && checkState != Content
      modifies this`checkedIdx, this`startLine, this`checkState, this`url, this`version, this`host, this`linger,
        this`contentLength, readBuf
      ensures var i := ScanEnd(received, old(checkedIdx));
        && status == StatusAt(received, i)
        && if status != LineOk then code == NoRequest && Valid() && View() == old(View()).(checked := i)
           else
             && (code, View()) == Interpret(old(View()), Cut(received[old(startLine)..i]), i + 2)
             && if code == NoRequest then Valid() else Answered(code)
    {
      hide ScanEnd, StatusAt, Cut, Interpret, ConsumedKept, Untouched, Reads, LineAt, Answered, CStr, Pointed;
      ghost var before := View();
      ghost var i := ScanEnd(received, checkedIdx);
      status := ParseLine();
      if status != LineOk {
        return status, NoRequest;
      }
      LineFacts(i);
      var text := GetLine(i);
      ghost var t := Cut(received[text..i]);
      InterpretIgnoresCursors(before, i + 2, i + 2, t, i + 2);
      if checkState == RequestLine {
        FirstLineText(received, i);
        code := ParseRequestLine(t);
      } else {
        code := ParseHeaders(text, t);
      }
      InterpretPhase(before, t, i + 2);
      LineDone(code);
    }

    lemma LineFacts(i: nat)
      requires LineAt(i)
      ensures startLine <= i && i + 2 == checkedIdx <= |received|
      ensures forall k :: startLine <= k < i ==> received[k] !in BREAK
    {
    }

    lemma LineDone(code: Code)
      requires Sound() && Untouched(startLine, readIdx) && startLine == checkedIdx
      requires (code == NoRequest ==> checkState != RequestLine) && (code != NoRequest ==> checkState != Content)
      ensures if code == NoRequest then Valid() else Answered(code)
    {
      hide ConsumedKept;
    }

    lemma InterpretPhase(p: Parse, t: string, next: nat)
      requires p.phase != Content
      ensures var (code, q) := Interpret(p, t, next);
        && (code == NoRequest ==> q.phase != RequestLine)
        && (code != NoRequest ==> q.phase != Content)
    {
    }

    /** `process_read` computes what the machine on values computes from the bytes received so far. */
    method ProcessRead() returns (code: Code)
      requires Valid()
      modifies this`checkedIdx, this`startLine, this`checkState, this`url, this`version, this`host, this`linger,
        this`contentLength, readBuf
      ensures (code, View()) == Run(received, old(View()))
      ensures if code == NoRequest then Valid() else Answered(code)
    {
      hide Run, ScanEnd, StatusAt, Cut, Interpret, Untouched, Answered, ConsumedKept, CStr, Pointed;
      while checkState != Content
        invariant Valid() && Run(received, View()) == Run(received, old(View()))
        decreases readIdx - checkedIdx
      {
        RunIterates(received, View());
        var status;
        status, code := ProcessLine();
        if status != LineOk || code != NoRequest {
          return;
        }
      }
      RunIterates(received, View());
      code := ParseContent(startLine);
    }
  }

  /** The stream of the first `n` deliveries. */
  function Stream(deliveries: seq<string>, n: nat): string
    requires n <= |deliveries|
  {
    Concat(deliveries[..n])
  }

  lemma StreamNext(deliveries: seq<string>, n: nat)
    requires n < |deliveries|
    ensures Stream(deliveries, n + 1) == Stream(deliveries, n) + deliveries[n]
  {
    ConcatNext(deliveries, n);
  }

  lemma StreamEnds(deliveries: seq<string>)
    ensures Stream(deliveries, 0) == "" && Stream(deliveries, |deliveries|) == Concat(deliveries)
  {
    assert deliveries[..|deliveries|] == deliveries;
  }

  /** The first `n` deliveries deserve no verdict yet. */
  ghost predicate Unanswered(deliveries: seq<string>, n: nat)
    requires n <= |deliveries|
  {
    Grammar(Stream(deliveries, n)).0 == NoRequest
  }

  lemma UnansweredBefore(deliveries: seq<string>, m: nat, n: nat)
    requires m <= n <= |deliveries| && Unanswered(deliveries, n)
    ensures Unanswered(deliveries, m)
  {
    hide Grammar, Concat;
    ConcatSplit(deliveries[..n], m);
    assert deliveries[..n][..m] == deliveries[..m];
    ContinueGrammar(Concat(deliveries[..m]), Concat(deliveries[..n][m..]));
  }

  /** One delivery: read it all, and process what was received. */
  method Deliver(conn: HttpConnection, data: string) returns (ok: bool, code: Code)
    requires conn.Valid() && Grammar(conn.received) == (NoRequest, conn.View())
    modifies conn, conn.readBuf
    ensures ok ==> conn.received == old(conn.received) + data && |conn.received| <= conn.Capacity()
    ensures ok ==> (code, conn.View()) == Grammar(conn.received) && (code == NoRequest ==> conn.Valid())
    ensures !ok ==> |old(conn.received)| + |data| >= conn.Capacity()
  {
    hide Grammar, Run;
    ContinueGrammar(conn.received, data);
    code := NoRequest;
    var sock := new Socket(data, false, false);
    ok := conn.Read(sock);
    if ok {
      code := conn.ProcessRead();
    }
  }

  /**
   The life of one connection up to its verdict, as the event loop and a worker drive it: whenever bytes are
   delivered, read them all and call `process_read`. Whatever the deliveries are, the verdict, the strings and the
   cursors are those of the grammar on the whole stream, unless a read fails. A read fails only when the stream
   reaches the capacity before it deserves a verdict, and always when it exceeds it.
   */
  method Serve(conn: HttpConnection, deliveries: seq<string>) returns (ok: bool, code: Code)
    requires conn.Valid() && conn.View() == INIT && conn.received == ""
    modifies conn, conn.readBuf
    ensures ok ==> (code, conn.View()) == Grammar(Concat(deliveries))
    ensures !ok ==> exists n ::
      0 <= n < |deliveries| && Unanswered(deliveries, n) && |Stream(deliveries, n + 1)| >= conn.Capacity()
    ensures ok ==> forall n ::
      0 <= n < |deliveries| && Unanswered(deliveries, n) ==> |Stream(deliveries, n + 1)| <= conn.Capacity()
  {
    hide Grammar, Run, Stream, Unanswered, HttpConnection.Valid, HttpConnection.View;
    conn.HasRoom();
    ok, code := true, NoRequest;
    var n := 0;
    NothingReceived();
    StreamEnds(deliveries);
    while n < |deliveries|
      invariant n <= |deliveries| && code == NoRequest && conn.Valid()
      invariant conn.received == Stream(deliveries, n) && (code, conn.View()) == Grammar(conn.received)
      invariant forall k :: 0 <= k <= n ==> |Stream(deliveries, k)| <= conn.Capacity()
    {
      StreamNext(deliveries, n);
      NotYet(deliveries, n);
      ok, code := Deliver(conn, deliveries[n]);
      n := n + 1;
      if !ok {
        return;
      } else if code != NoRequest {
        NotYet(deliveries, n);
        Answer(deliveries, n);
        return;
      }
    }
    ok := true;
  }

  lemma NotYet(deliveries: seq<string>, n: nat)
    requires n <= |deliveries|
    ensures Unanswered(deliveries, n) <==> Grammar(Stream(deliveries, n)).0 == NoRequest
  {
  }

  /** A verdict on the first `n` deliveries is that of all of them, and no later prefix is without one. */
  lemma Answer(deliveries: seq<string>, n: nat)
    requires n <= |deliveries| && !Unanswered(deliveries, n)
    ensures Grammar(Concat(deliveries)) == Grammar(Stream(deliveries, n))
    ensures forall k :: n <= k <= |deliveries| ==> !Unanswered(deliveries, k)
  {
    hide Grammar, Concat;
    ConcatSplit(deliveries, n);
    ContinueGrammar(Concat(deliveries[..n]), Concat(deliveries[n..]));
    forall k | n <= k <= |deliveries| ensures !Unanswered(deliveries, k) {
      if Unanswered(deliveries, k) {
        UnansweredBefore(deliveries, n, k);
      }
    }
  }

  lemma FirstLineText(s: string, i: nat)
    requires i <= |s| && forall k :: 0 <= k < i ==> s[k] !in BREAK
    ensures Cut(s[0..i]) <= s && Unbroken(Cut(s[0..i]))
  {
    assert s[0..i] <= s;
  }

  lemma FirstSeparator(s: string, t: string, i: nat)
    requires t <= s && Unbroken(t) && i == Find(t, BLANK) < |t|
    ensures Separator(s, i)
  {
    hide Find;
    assert OnlyBlank(s, i, i);
  }

  lemma SecondSeparator(s: string, t: string, i: nat, j: nat)
    requires t <= s && Unbroken(t) && i == Find(t, BLANK) < |t| && j == Find(t[i + 1..], BLANK) < |t[i + 1..]|
    ensures Separator(s, i + 1 + j)
  {
    hide Find;
    assert forall k :: i < k < |t| ==> t[k] == t[i + 1..][k - i - 1];
    assert OnlyBlank(s, i + 1 + j, i);
  }
}
