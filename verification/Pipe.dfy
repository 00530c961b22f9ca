/**
  pipe.c: the ring buffer and its 32-bit counters, against the byte stream of PipeSpec.
 */
module Pipe {
  import opened PipeSpec

  const UINT: int := 0x1_0000_0000

  // The counters tell an empty pipe, a full pipe and the next slot although they wrap.
  lemma Counters(r: nat, w: nat)
    requires r <= w <= r + PIPESIZE
    ensures r % UINT == w % UINT <==> r == w
    ensures w % UINT == (r % UINT + PIPESIZE) % UINT <==> w == r + PIPESIZE
    ensures w % UINT % PIPESIZE == w % PIPESIZE && r % UINT % PIPESIZE == r % PIPESIZE
    ensures (w % UINT + 1) % UINT == (w + 1) % UINT && (r % UINT + 1) % UINT == (r + 1) % UINT
  {
    Ahead(r, w - r);
    Ahead(r, PIPESIZE);
    Ahead(w, 1);
    Ahead(r, 1);
    Slots(w);
    Slots(r);
  }

  // A counter n further on, for a small n.
  lemma Ahead(r: nat, n: nat)
    requires n <= PIPESIZE
    ensures (r + n) % UINT == (r % UINT + n) % UINT
    ensures (r % UINT + n) % UINT == if r % UINT + n < UINT then r % UINT + n else r % UINT + n - UINT
  {
    var q, m := r / UINT, r % UINT;
    if m + n < UINT {
      Remainder(q, m + n);
    } else {
      Remainder(q + 1, m + n - UINT);
      Remainder(1, m + n - UINT);
    }
  }

  lemma Remainder(q: nat, m: nat)
    requires m < UINT
    ensures (q * UINT + m) % UINT == m
  {
  }

  // 512 divides 2^32.
  lemma Slots(w: nat)
    ensures w % UINT % PIPESIZE == w % PIPESIZE
  {
    var q, m := w / UINT, w % UINT;
    var k := q * 0x80_0000 + m / PIPESIZE;
    assert w == k * PIPESIZE + m % PIPESIZE;
  }

  class Ring {
    const data: array<int>
    var nread: int
    var nwrite: int
    var readopen: bool
    var writeopen: bool
    var onRead: set<int>     // processes asleep on &nread
    var onWrite: set<int>    // processes asleep on &nwrite
    ghost var put: seq<int>
    ghost var got: seq<int>

    ghost function Abs(): State
      reads this
    {
      State(put, got, readopen, writeopen, onRead, onWrite)
    }

    // The bytes in flight sit in their slots.
    ghost predicate Valid()
      reads this, data
    {
      && data.Length == PIPESIZE
      && Stream(Abs())
      && nread == |got| % UINT && nwrite == |put| % UINT
      && forall k :: |got| <= k < |put| ==> data[k % PIPESIZE] == put[k]
    }

    constructor ()
      ensures Valid() && Abs() == Init && fresh(data)
    {
      data := new int[PIPESIZE];
      nread, nwrite, readopen, writeopen := 0, 0, true, true;
      onRead, onWrite := {}, {};
      put, got := [], [];
    }

    // One byte into the ring.
    method Push(b: int)
      requires Valid() && InFlight(Abs()) < PIPESIZE
      modifies this`nwrite, this`put, data
      ensures Valid() && put == old(put) + [b]
    {
      Counters(|got|, |put|);
      SlotsApart(|got|, |put|);
      data[nwrite % PIPESIZE] := b;
      nwrite := (nwrite + 1) % UINT;
      put := put + [b];
    }

    // One byte out of it.
    method Pop() returns (b: int)
      requires Valid() && InFlight(Abs()) > 0
      modifies this`nread, this`got
      ensures Valid() && b == put[|old(got)|] && got == old(got) + [b]
    {
      Counters(|got|, |put|);
      b := data[nread % PIPESIZE];
      nread := (nread + 1) % UINT;
      got := got + [b];
      assert put[..|got|] == put[..|old(got)|] + [b];
    }

    // The copying loop of pipewrite, up to where it finds the pipe full.
    method Fill(bytes: seq<int>) returns (n: nat)
      requires Valid()
      modifies this`nwrite, this`put, data
      ensures Valid() && n <= |bytes| && put == old(put) + bytes[..n]
      ensures n == Min(|bytes|, PIPESIZE - (|old(put)| - |got|))
    {
      n := 0;
      while n < |bytes|
        invariant 0 <= n <= |bytes| && Valid() && put == old(put) + bytes[..n]
      {
        Counters(|got|, |put|);
        if nwrite == (nread + PIPESIZE) % UINT {
          return;
        }
        Push(bytes[n]);
        assert bytes[..n + 1] == bytes[..n] + [bytes[n]];
        n := n + 1;
      }
    }

    // pipewrite from where it has the lock, with bytes still to write, to where it lets go of it.
    method Pipewrite(pid: int, bytes: seq<int>, killed: bool) returns (fate: Fate, n: nat)
      requires Valid()
      modifies this, data
      ensures Valid()
      ensures Abs() == WriteStep(old(Abs()), pid, bytes, killed)
      ensures fate == WriteFate(old(Abs()), bytes, killed) && n == Fits(old(Abs()), |bytes|)
      // it puts in what there is room for
      ensures var room := PIPESIZE - (|old(put)| - |old(got)|);
              && n == (if |bytes| <= room then |bytes| else room)
              && put == old(put) + bytes[..n] && got == old(got)
              && readopen == old(readopen) && writeopen == old(writeopen)
              && (fate.Done? <==> |bytes| <= room)
              && (fate.Failed? <==> |bytes| > room && (!readopen || killed))
      // and wakes the readers, except when it fails
      ensures onRead == (if fate.Failed? then old(onRead) else {})
      ensures onWrite == (if fate.Asleep? then old(onWrite) + {pid} else old(onWrite))
    {
      n := Fill(bytes);
      if n < |bytes| {
        if !readopen || killed {
          return Failed, n;
        }
        onRead := {};
        onWrite := onWrite + {pid};
        return Asleep, n;
      }
      onRead := {};
      return Done, n;
    }

    // The copying loop of piperead.
    method Take(n: nat) returns (bytes: seq<int>)
      requires Valid()
      modifies this`nread, this`got
      ensures Valid() && got == old(got) + bytes
      ensures bytes == put[|old(got)|..|old(got)| + Min(n, |put| - |old(got)|)]
    {
      ghost var start := |got|;
      bytes := [];
      while |bytes| < n
        invariant Valid() && |got| == start + |bytes| && |bytes| <= n
        invariant got == old(got) + bytes && bytes == put[start..|got|]
        decreases n - |bytes|
      {
        Counters(|got|, |put|);
        if nread == nwrite {
          break;
        }
        var b := Pop();
        bytes := bytes + [b];
      }
    }

    // piperead from where it has the lock to where it lets go of it.
    method Piperead(pid: int, n: nat, killed: bool) returns (fate: Fate, bytes: seq<int>)
      requires Valid()
      modifies this
      ensures Valid()
      ensures Abs() == ReadStep(old(Abs()), pid, n, killed)
      ensures fate == ReadFate(old(Abs()), killed) && bytes == Taken(old(Abs()), n, killed)
      // it has something to return if there are bytes or there can be no more
      ensures fate.Done? <==> |old(put)| > |old(got)| || !old(writeopen)
      ensures fate.Failed? <==> !fate.Done? && killed
      ensures put == old(put) && readopen == old(readopen) && writeopen == old(writeopen)
      ensures var left := |old(put)| - |old(got)|;
              && got == old(got) + bytes && got == put[..|got|]
              && |bytes| == (if !fate.Done? then 0 else if n <= left then n else left)
      ensures onRead == (if fate.Asleep? then old(onRead) + {pid} else old(onRead))
      ensures onWrite == (if fate.Done? then {} else old(onWrite))
    {
      Counters(|got|, |put|);
      if nread == nwrite && writeopen {
        if killed {
          return Failed, [];
        }
        onRead := onRead + {pid};
        return Asleep, [];
      }
      bytes := Take(n);
      onWrite := {};
      return Done, bytes;
    }

    // Close an end; freed is that this was the last, and the pipe is given back.
    method Pipeclose(writable: bool) returns (freed: bool)
      requires Valid()
      modifies this`readopen, this`writeopen, this`onRead, this`onWrite
      ensures Valid() && Abs() == CloseStep(old(Abs()), writable)
      ensures freed <==> !readopen && !writeopen
      ensures writeopen == (if writable then false else old(writeopen))
      ensures readopen == (if writable then old(readopen) else false)
      ensures onRead == (if writable then {} else old(onRead)) && onWrite == (if writable then old(onWrite) else {})
    {
      if writable {
        writeopen := false;
        onRead := {};
      } else {
        readopen := false;
        onWrite := {};
      }
      freed := !readopen && !writeopen;
    }
  }

  // The bytes in flight do not use the next slot.
  lemma SlotsApart(r: nat, w: nat)
    requires r <= w < r + PIPESIZE
    ensures forall k :: r <= k < w ==> k % PIPESIZE != w % PIPESIZE
  {
  }
}
