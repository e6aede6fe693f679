/** What the two epoll servers do with one reported client, on a socket whose reads do not block. */
module EchoLoops {
  type Bytes = seq<int>

  class Stream {
    var pending: Bytes
    var echoed: Bytes

    constructor (pending: Bytes)
      ensures this.pending == pending && echoed == []
    {
      this.pending, echoed := pending, [];
    }

    /** `read` into a buffer of `size` bytes; nothing is returned when nothing is left. */
    method Read(size: nat) returns (data: Bytes)
      requires size > 0
      modifies this`pending
      ensures data + pending == old(pending) && |data| == if |old(pending)| < size then |old(pending)| else size
    {
      var n := if |pending| < size then |pending| else size;
      data, pending := pending[..n], pending[n..];
    }

    method Write(data: Bytes)
      modifies this`echoed
      ensures echoed == old(echoed) + data
    {
      echoed := echoed + data;
    }
  }

  /** epoll_ET.c: read and echo until a read returns nothing. All that was pending is echoed. */
  method Drain(sock: Stream, size: nat)
    requires size > 0
    modifies sock
    ensures sock.pending == [] && sock.echoed == old(sock.echoed) + old(sock.pending)
  {
    var data := sock.Read(size);
    while |data| > 0
      invariant sock.echoed + data + sock.pending == old(sock.echoed) + old(sock.pending)
      invariant data == [] ==> sock.pending == []
      decreases |data| + |sock.pending|
    {
      sock.Write(data);
      data := sock.Read(size);
    }
  }

  /** epoll_LT.c, echoing the bytes read: one read for one report. The rest stays pending and is reported again. */
  method Serve(sock: Stream, size: nat) returns (closed: bool)
    requires size > 0
    modifies sock
    ensures closed <==> old(sock.pending) == []
    ensures sock.echoed + sock.pending == old(sock.echoed) + old(sock.pending)
    ensures |sock.pending| == if |old(sock.pending)| < size then 0 else |old(sock.pending)| - size
  {
    var data := sock.Read(size);
    closed := data == [];
    if !closed {
      sock.Write(data);
    }
  }

  /** Level-triggered reports until nothing is pending echo what one edge-triggered drain echoes. */
  method ServeAll(sock: Stream, size: nat)
    requires size > 0
    modifies sock
    ensures sock.pending == [] && sock.echoed == old(sock.echoed) + old(sock.pending)
  {
    while sock.pending != []
      invariant sock.echoed + sock.pending == old(sock.echoed) + old(sock.pending)
      decreases |sock.pending|
    {
      var _ := Serve(sock, size);
    }
  }

  // ---- line 102 of epoll_LT.c as written ----

  /** `strlen`, or the length of the buffer when it holds no NUL. */
  function Strlen(buf: Bytes): (n: nat)
    ensures n <= |buf| && (forall i :: 0 <= i < n ==> buf[i] != 0) && (n < |buf| ==> buf[n] == 0)
  {
    if buf == [] || buf[0] == 0 then 0 else 1 + Strlen(buf[1..])
  }

  function Zeros(n: nat): Bytes { seq(n, _ => 0) }

  datatype Written = Defined(bytes: Bytes) | OverRead

  /** What `write(curfd, buf, strlen(buf) + 1)` sends after `data` was read into a zeroed buffer of `size` bytes. */
  function WriteAsWritten(data: Bytes, size: nat): Written
    requires |data| <= size
  {
    var buf := data + Zeros(size - |data|);
    var n := Strlen(buf);
    if n == size then OverRead else Defined(buf[..n + 1])
  }

  /** As written a chunk is echoed as it came exactly when its last byte, and no other, is NUL. */
  lemma EchoedIff(data: Bytes, size: nat)
    requires 0 < |data| <= size
    ensures WriteAsWritten(data, size) == Defined(data) <==>
      data[|data| - 1] == 0 && forall i :: 0 <= i < |data| - 1 ==> data[i] != 0
  {
    var buf := data + Zeros(size - |data|);
    var n := Strlen(buf);
    assert forall i :: 0 <= i < |data| ==> buf[i] == data[i];
    if n + 1 == |data| {
      assert buf[..n + 1] == data;
    }
  }

  /** In particular a full chunk of text is read beyond its end, and a shorter one gains a NUL. */
  lemma TextIsNotEchoed(data: Bytes, size: nat)
    requires 0 < |data| <= size && forall i :: 0 <= i < |data| ==> data[i] != 0
    ensures WriteAsWritten(data, size) == if |data| == size then OverRead else Defined(data + [0])
  {
    var buf := data + Zeros(size - |data|);
    var n := Strlen(buf);
    assert forall i :: 0 <= i < |data| ==> buf[i] == data[i];
    assert |data| < size ==> buf[|data|] == Zeros(size - |data|)[0];
    if n < size {
      assert buf[..n + 1] == data + [0];
    }
  }
}
