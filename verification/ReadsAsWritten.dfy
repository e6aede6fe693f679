/**
 Line 105 of http_connection.cpp as it stands: `recv` is asked for the whole buffer size, wherever in the buffer the
 bytes go. The text looks at the fill of the buffer only before its loop.
 */
module ReadsAsWritten {
  import opened HttpConnections

  datatype Outcome = Returns(ok: bool) | WritesOutside

  class Buffer {
    const cells: array<char>
    var readIdx: nat

    constructor (size: nat)
      ensures cells.Length == size && readIdx == 0 && fresh(cells)
    {
      cells := new char[size](_ => '\0');
      readIdx := 0;
    }

    /**
     A call writes outside the buffer exactly when the stream is whole, the buffer is not full at first, and what
     waits does not fit. Otherwise it takes everything that waits, and a buffer filled to the brim is a success.
     */
    method Read(sock: Socket) returns (r: Outcome)
      requires readIdx <= cells.Length
      modifies this, cells, sock
      ensures r == WritesOutside <==>
        !sock.broken && old(readIdx) < cells.Length && old(readIdx) + |old(sock.pending)| > cells.Length
      ensures r == Returns(true) <==>
        && !sock.broken && !sock.closed && old(readIdx) < cells.Length
        && old(readIdx) + |old(sock.pending)| <= cells.Length
      ensures readIdx <= cells.Length
      ensures r == Returns(true) ==> cells[..readIdx] == old(cells[..readIdx]) + old(sock.pending)
    {
      r := Returns(false);
      if readIdx >= cells.Length {
        return;
      }
      while true
        invariant old(readIdx) <= readIdx <= cells.Length && r == Returns(false)
        invariant cells[..readIdx] + sock.pending == old(cells[..readIdx]) + old(sock.pending)
        invariant sock.broken ==> unchanged(sock)
        decreases |sock.pending|
      {
        var data := sock.Recv(cells.Length);
        if data == WouldBlock {
          return Returns(true);
        } else if data == Failed || |data.data| == 0 {
          return Returns(false);
        } else if readIdx + |data.data| > cells.Length {
          return WritesOutside;
        }
        Store(data.data);
      }
    }

    method Store(data: string)
      requires readIdx + |data| <= cells.Length
      modifies this, cells
      ensures readIdx == old(readIdx) + |data| && cells[..readIdx] == old(cells[..readIdx]) + data
    {
      forall i | 0 <= i < |data| {
        cells[readIdx + i] := data[i];
      }
      readIdx := readIdx + |data|;
    }
  }

  /** An input for every buffer size: one byte more than the buffer holds, all of it waiting at the first call. */
  method OneByteTooMany(size: nat) returns (r: Outcome)
    requires size > 0
    ensures r == WritesOutside
  {
    var buf := new Buffer(size);
    var sock := new Socket(seq(size + 1, _ => 'x'), false, false);
    r := buf.Read(sock);
  }
}
