/**
 The ring buffer behind a pipe, against the byte stream it stands for.
 */
module PipeRing {
  import opened Basics
  import D = Descriptors

  const PIPE_BUF_SIZE: nat := 4096

  // The n bytes from position r on, wrapping round.
  function Window(buf: seq<byte>, r: nat, n: nat): (s: seq<byte>)
    requires |buf| == PIPE_BUF_SIZE
    ensures |s| == n
  {
    seq(n, i requires 0 <= i < n => buf[(r + i) % PIPE_BUF_SIZE])
  }

  // Taking the first byte advances the window.
  lemma WindowTail(buf: seq<byte>, r: nat, n: nat)
    requires |buf| == PIPE_BUF_SIZE && r < PIPE_BUF_SIZE && n > 0
    ensures Window(buf, r, n) == [buf[r]] + Window(buf, (r + 1) % PIPE_BUF_SIZE, n - 1)
  {
    forall i | 1 <= i < n
      ensures Window(buf, r, n)[i] == Window(buf, (r + 1) % PIPE_BUF_SIZE, n - 1)[i - 1]
    {
      assert (r + i) % PIPE_BUF_SIZE == ((r + 1) % PIPE_BUF_SIZE + (i - 1)) % PIPE_BUF_SIZE;
    }
  }

  // Storing at the write position appends, as long as the ring is not full.
  lemma WindowPush(buf: seq<byte>, r: nat, n: nat, x: byte)
    requires |buf| == PIPE_BUF_SIZE && r < PIPE_BUF_SIZE && n < PIPE_BUF_SIZE
    ensures Window(buf[(r + n) % PIPE_BUF_SIZE := x], r, n + 1) == Window(buf, r, n) + [x]
  {
    var buf' := buf[(r + n) % PIPE_BUF_SIZE := x];
    forall i | 0 <= i < n ensures Window(buf', r, n + 1)[i] == Window(buf, r, n)[i] {
      assert (r + i) % PIPE_BUF_SIZE != (r + n) % PIPE_BUF_SIZE;
    }
  }

  lemma NextPos(r: nat, n: nat)
    requires r < PIPE_BUF_SIZE && n > 0
    ensures ((r + 1) % PIPE_BUF_SIZE + (n - 1)) % PIPE_BUF_SIZE == (r + n) % PIPE_BUF_SIZE
  {}

  lemma AdvancePos(r: nat, n: nat)
    ensures ((r + n) % PIPE_BUF_SIZE + 1) % PIPE_BUF_SIZE == (r + (n + 1)) % PIPE_BUF_SIZE
  {}

  lemma Assoc(a: seq<byte>, b: seq<byte>, c: seq<byte>)
    ensures (a + b) + c == a + (b + c)
  {}

  class Pipe {
    const buffer: array<byte>
    var readPos: nat
    var writePos: nat
    var count: nat
    var writeEndOpen: bool
    var readEndOpen: bool
    // Everything ever accepted from writers and handed to readers.
    ghost var accepted: seq<byte>
    ghost var delivered: seq<byte>
    // How often the buffer was released.
    ghost var freed: nat

    constructor ()
      ensures Valid() && fresh(buffer) && accepted == delivered == [] && Flags() == D.Pipe(true, true, 0)
    {
      buffer := new byte[PIPE_BUF_SIZE](_ => 0);
      readPos, writePos, count := 0, 0, 0;
      writeEndOpen, readEndOpen := true, true;
      accepted, delivered := [], [];
      freed := 0;
    }

    // The pipe as the descriptor tables see it.
    ghost function Flags(): D.Pipe
      reads this
    {
      D.Pipe(readEndOpen, writeEndOpen, freed)
    }

    // Bytes come out in the order they went in, none lost and none made up.
    ghost predicate Valid()
      reads this, buffer
    {
      && buffer.Length == PIPE_BUF_SIZE
      && count <= PIPE_BUF_SIZE && readPos < PIPE_BUF_SIZE
      && writePos == (readPos + count) % PIPE_BUF_SIZE
      && delivered + Window(buffer[..], readPos, count) == accepted
    }

    ghost function Contents(): seq<byte>
      requires Valid()
      reads this, buffer
    {
      Window(buffer[..], readPos, count)
    }

    // Takes up to `size` bytes; 0 for an empty pipe, whether or not writers remain.
    method Read(size: nat) returns (out: seq<byte>)
      requires Valid()
      modifies this`readPos, this`count, this`delivered
      ensures Valid()
      ensures var n := if size < old(count) then size else old(count);
              out == old(Contents())[..n] && Contents() == old(Contents())[n..]
      ensures delivered == old(delivered) + out
    {
      hide Window;
      out := [];
      if size == 0 || count == 0 { return; }
      var toRead := if size < count then size else count;
      for i := 0 to toRead
        invariant Valid() && |out| == i && count == old(count) - i
        invariant out + Contents() == old(Contents())
        invariant delivered == old(delivered) + out
      {
        var x := TakeByte();
        Assoc(out, [x], Contents());
        Assoc(old(delivered), out, [x]);
        out := out + [x];
      }
    }

    method TakeByte() returns (x: byte)
      requires Valid() && count > 0
      modifies this`readPos, this`count, this`delivered
      ensures Valid() && count == old(count) - 1
      ensures [x] + Contents() == old(Contents()) && delivered == old(delivered) + [x]
    {
      hide Window;
      WindowTail(buffer[..], readPos, count);
      NextPos(readPos, count);
      Assoc(delivered, [buffer[readPos]], Window(buffer[..], (readPos + 1) % PIPE_BUF_SIZE, count - 1));
      x := buffer[readPos];
      delivered := delivered + [x];
      readPos := (readPos + 1) % PIPE_BUF_SIZE;
      count := count - 1;
    }

    // Stores as much of `data` as fits; -1 when nobody can read it any more.
    method Write(data: seq<byte>) returns (r: int)
      requires Valid()
      modifies this`writePos, this`count, this`accepted, buffer
      ensures Valid()
      ensures r == (if data == [] then 0 else if !readEndOpen then -1
                    else if |data| < 4096 - old(count) then |data| else 4096 - old(count))
      ensures var n := if r < 0 then 0 else r;
              accepted == old(accepted) + data[..n] && Contents() == old(Contents()) + data[..n]
    {
      hide Window;
      if data == [] { return 0; }
      if !readEndOpen { return -1; }
      var space := PIPE_BUF_SIZE - count;
      var toWrite := if |data| < space then |data| else space;
      for i := 0 to toWrite
        invariant Valid() && count == old(count) + i
        invariant accepted == old(accepted) + data[..i]
        invariant Contents() == old(Contents()) + data[..i]
      {
        Assoc(old(Contents()), data[..i], [data[i]]);
        Assoc(old(accepted), data[..i], [data[i]]);
        assert data[..i] + [data[i]] == data[..i + 1];
        PutByte(data[i]);
      }
      r := toWrite;
    }

    method PutByte(x: byte)
      requires Valid() && count < PIPE_BUF_SIZE
      modifies this`writePos, this`count, this`accepted, buffer
      ensures Valid() && count == old(count) + 1
      ensures accepted == old(accepted) + [x] && Contents() == old(Contents()) + [x]
    {
      hide Window;
      AdvancePos(readPos, count);
      Assoc(delivered, Contents(), [x]);
      WindowPush(buffer[..], readPos, count, x);
      ghost var was, w := buffer[..], writePos;
      buffer[writePos] := x;
      assert buffer[..] == was[w := x];
      accepted := accepted + [x];
      writePos := (writePos + 1) % PIPE_BUF_SIZE;
      count := count + 1;
    }

    // pipe_close of one end: what closing the node does to the tables' view of the pipe. Says
    // whether the buffer is released.
    method Close(reader: bool) returns (released: bool)
      requires Valid()
      modifies this`readEndOpen, this`writeEndOpen, this`freed
      ensures Valid() && Contents() == old(Contents())
      ensures [Flags()] == D.CloseNode([old(Flags())], if reader then D.PipeRead(0) else D.PipeWrite(0))
      ensures readEndOpen == (old(readEndOpen) && !reader) && writeEndOpen == (old(writeEndOpen) && reader)
      ensures released == (!readEndOpen && !writeEndOpen)
    {
      if reader { readEndOpen := false; } else { writeEndOpen := false; }
      released := !readEndOpen && !writeEndOpen;
      if released { freed := freed + 1; }
    }

    method CanRead() returns (ready: bool)
      requires Valid()
      ensures ready <==> Contents() != [] || !writeEndOpen
    {
      ready := count > 0 || !writeEndOpen;
      hide Window;
    }

    method CanWrite() returns (ready: bool)
      requires Valid()
      ensures ready <==> readEndOpen && |Contents()| < PIPE_BUF_SIZE
    {
      ready := readEndOpen && count < PIPE_BUF_SIZE;
      hide Window;
    }

    // A read by a descriptor in some state of some run, once it need not wait: no bytes, the end
    // of file, exactly when the pipe is empty and no process holds a write descriptor for it.
    method ReadInRun(size: nat, ghost states: seq<D.State>, ghost ops: seq<D.Op>, ghost i: nat, ghost q: nat)
      returns (ready: bool, out: seq<byte>)
      requires Valid() && size > 0
      requires D.IsRun(states, ops) && i < |states| && q < |states[i].pipes| && states[i].pipes[q] == Flags()
      modifies this`readPos, this`count, this`delivered
      ensures Valid() && Flags() == old(Flags())
      ensures !ready <==> old(Contents()) == [] && D.HoldsEnd(states[i], D.PipeWrite(q))
      ensures ready ==> (out == [] <==> old(Contents()) == [] && !D.HoldsEnd(states[i], D.PipeWrite(q)))
    {
      D.PipeEndsInEveryRun(states, ops, i, q);
      hide *;
      out := [];
      ready := CanRead();
      if ready { out := Read(size); }
    }
  }
}
