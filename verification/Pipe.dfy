/** pipe.c: a ring of 512 bytes with 32-bit counters that wrap around, and the
    blocking protocol of its readers and writers. */
module Pipe {
  import opened Blocks

  const PIPESIZE := 512
  const WRAP := 0x1_0000_0000

  /** Bytes in the pipe, by the counters alone. */
  function Occupied(nread: uint, nwrite: uint): nat {
    (nwrite as int - nread as int) % WRAP
  }

  /** 512 divides 2^32, so a wrapped counter names the same ring slot. */
  lemma SlotOfWrapped(x: nat)
    ensures x % WRAP % PIPESIZE == x % PIPESIZE
  {
    assert x == x / WRAP * WRAP + x % WRAP;
    assert x == (x / WRAP * 0x80_0000) * PIPESIZE + x % WRAP;
    SameSlot(x % WRAP, x / WRAP * 0x80_0000);
  }

  lemma SameSlot(y: nat, k: nat)
    ensures (k * PIPESIZE + y) % PIPESIZE == y % PIPESIZE
  {
    if k > 0 {
      SameSlot(y, k - 1);
      assert k * PIPESIZE + y == ((k - 1) * PIPESIZE + y) + PIPESIZE;
    }
  }

  /** Slots less than PIPESIZE apart are different. */
  lemma DistinctSlots(a: nat, b: nat)
    requires a < b < a + PIPESIZE
    ensures a % PIPESIZE != b % PIPESIZE
  {
  }

  /** n bytes of the ring from counter value r on. */
  ghost function Queue(data: seq<byte>, r: nat, n: nat): (q: seq<byte>)
    requires |data| == PIPESIZE
    ensures |q| == n && forall k :: 0 <= k < n ==> q[k] == data[(r + k) % PIPESIZE]
  {
    seq<byte>(n, k requires 0 <= k => data[(r + k) % PIPESIZE])
  }

  lemma OccupiedIs(nread: uint, nwrite: uint)
    ensures nwrite == (nread + Occupied(nread, nwrite)) % WRAP
    ensures Occupied(nread, nwrite) == 0 <==> nread == nwrite
  {
  }

  /** The code's test for a full ring, nwrite == nread + PIPESIZE on wrapped counters, is exact. */
  lemma FullTest(nread: uint, nwrite: uint)
    requires Occupied(nread, nwrite) <= PIPESIZE
    ensures Occupied(nread, nwrite) == PIPESIZE <==> nwrite == (nread + PIPESIZE) % WRAP
  {
  }

  lemma Advance(nread: uint, nwrite: uint)
    ensures Occupied(nread, nwrite) < PIPESIZE ==>
              Occupied(nread, (nwrite + 1) % WRAP) == Occupied(nread, nwrite) + 1
  {
  }

  lemma Retreat(nread: uint, nwrite: uint)
    ensures nread != nwrite ==> Occupied((nread + 1) % WRAP, nwrite) == Occupied(nread, nwrite) - 1
  {
  }

  lemma QueuePut(data: seq<byte>, nread: uint, nwrite: uint, b: byte)
    requires |data| == PIPESIZE && Occupied(nread, nwrite) < PIPESIZE
    ensures var n := Occupied(nread, nwrite);
            Queue(data[nwrite % PIPESIZE := b], nread, n + 1) == Queue(data, nread, n) + [b]
  {
    hide Occupied;
    var n := Occupied(nread, nwrite);
    OccupiedIs(nread, nwrite);
    SlotOfWrapped(nread + n);
    var q, q' := Queue(data, nread, n) + [b], Queue(data[nwrite % PIPESIZE := b], nread, n + 1);
    forall i | 0 <= i < n + 1
      ensures q'[i] == q[i]
    {
      if i < n {
        DistinctSlots(nread + i, nread + n);
      }
    }
  }

  lemma QueueTake(data: seq<byte>, nread: uint, n: nat)
    requires |data| == PIPESIZE && n > 0
    ensures Queue(data, (nread + 1) % WRAP, n - 1) == Queue(data, nread, n)[1..]
    ensures Queue(data, nread, n)[0] == data[nread % PIPESIZE]
  {
    var q, q' := Queue(data, nread, n)[1..], Queue(data, (nread + 1) % WRAP, n - 1);
    forall i | 0 <= i < n - 1
      ensures q'[i] == q[i]
    {
      NextSlot(nread, i);
    }
  }

  lemma NextSlot(r: uint, i: nat)
    ensures ((r + 1) % WRAP + i) % PIPESIZE == (r + 1 + i) % PIPESIZE
  {
    if r + 1 == WRAP {
      SameSlot(i, 0x80_0000);
    }
  }

  lemma QueueLength(data: seq<byte>, r: nat, n: nat)
    requires |data| == PIPESIZE
    ensures |Queue(data, r, n)| == n
  {
  }

  /** How many bytes of src a queue has room for. */
  function Room(q: seq<byte>, src: seq<byte>): nat {
    if |q| > PIPESIZE then 0 else if |src| <= PIPESIZE - |q| then |src| else PIPESIZE - |q|
  }

  /** How many of n wanted bytes a queue supplies. */
  function Supply(q: seq<byte>, n: int): nat {
    if n <= 0 then 0 else if n < |q| then n else |q|
  }

  datatype Verdict = Done | Failed | Sleeps

  /** What a process does between taking p->lock and giving it up: the bytes it
      moves, whether it wakes the other side, and how it goes on. */
  datatype Turn = Turn(moved: nat, wakes: bool, verdict: Verdict)

  function WriterTurn(q: seq<byte>, readopen: bool, killed: bool, rest: seq<byte>): Turn {
    var k := Room(q, rest);
    if k == |rest| then Turn(k, true, Done)
    else if !readopen || killed then Turn(k, false, Failed)
    else Turn(k, true, Sleeps)
  }

  function ReaderTurn(q: seq<byte>, writeopen: bool, killed: bool, n: int): Turn {
    if q == [] && writeopen then Turn(0, false, if killed then Failed else Sleeps)
    else Turn(Supply(q, n), true, Done)
  }

  class Pipe {
    const data: array<byte>
    var nread: uint
    var nwrite: uint
    var readopen: bool
    var writeopen: bool

    ghost predicate Valid()
      reads this
    {
      data.Length == PIPESIZE && Occupied(nread, nwrite) <= PIPESIZE
    }

    /** The bytes waiting to be read, oldest first. */
    ghost function Contents(): (q: seq<byte>)
      requires Valid()
      reads this, data
    {
      Queue(data[..], nread, Occupied(nread, nwrite))
    }

    /** pipealloc: an empty ring. */
    constructor ()
      ensures Valid() && fresh(data) && Contents() == [] && readopen && writeopen
    {
      data := new byte[PIPESIZE](_ => 0);
      nread, nwrite := 0, 0;
      readopen, writeopen := true, true;
    }

    /** pipewrite's copying: bytes go in until all are in or the ring is full.
        The test for full compares wrapped counters. */
    method Put(src: seq<byte>) returns (k: nat)
      requires Valid()
      modifies this`nwrite, data
      ensures Valid() && k <= |src|
      ensures Contents() == old(Contents()) + src[..k]
      ensures k == Room(old(Contents()), src)
    {
      hide Occupied, Queue;
      k := 0;
      assert src[..0] == [];
      FullTest(nread, nwrite);
      while k < |src| && nwrite != (nread + PIPESIZE) % WRAP
        invariant 0 <= k <= |src| && Valid()
        invariant Contents() == old(Contents()) + src[..k]
        invariant nwrite == (nread + PIPESIZE) % WRAP <==> Occupied(nread, nwrite) == PIPESIZE
      {
        PutByte(src[k]);
        assert src[..k + 1] == src[..k] + [src[k]];
        k := k + 1;
        FullTest(nread, nwrite);
      }
      QueueLength(data[..], nread, Occupied(nread, nwrite));
    }

    method PutByte(b: byte)
      requires Valid() && Occupied(nread, nwrite) < PIPESIZE
      modifies this`nwrite, data
      ensures Valid() && Contents() == old(Contents()) + [b]
    {
      hide Occupied, Queue;
      QueuePut(data[..], nread, nwrite, b);
      Advance(nread, nwrite);
      ghost var before := data[..];
      data[nwrite % PIPESIZE] := b;
      assert data[..] == before[nwrite % PIPESIZE := b];
      nwrite := (nwrite + 1) % WRAP;
    }

    /** piperead's copying: at most n bytes, as many as there are. */
    method Take(n: int) returns (dst: seq<byte>)
      requires Valid()
      modifies this`nread
      ensures Valid() && old(Contents()) == dst + Contents()
      ensures |dst| == Supply(old(Contents()), n)
    {
      hide Occupied, Queue;
      dst := [];
      while |dst| < n && nread != nwrite
        invariant Valid() && (|dst| <= n || dst == [])
        invariant old(Contents()) == dst + Contents()
        decreases n - |dst|
      {
        ghost var before := Contents();
        var b := TakeByte();
        assert dst + before == dst + [b] + Contents();
        dst := dst + [b];
      }
      OccupiedIs(nread, nwrite);
      QueueLength(data[..], nread, Occupied(nread, nwrite));
    }

    method TakeByte() returns (b: byte)
      requires Valid() && nread != nwrite
      modifies this`nread
      ensures Valid() && old(Contents()) == [b] + Contents()
    {
      hide Occupied, Queue;
      OccupiedIs(nread, nwrite);
      Retreat(nread, nwrite);
      QueueTake(data[..], nread, Occupied(nread, nwrite));
      QueueLength(data[..], nread, Occupied(nread, nwrite));
      b := data[nread % PIPESIZE];
      nread := (nread + 1) % WRAP;
    }

    /** pipewrite up to its return or its next sleep. */
    method WriteTurn(rest: seq<byte>, killed: bool) returns (t: Turn)
      requires Valid()
      modifies this`nwrite, data
      ensures Valid() && t == WriterTurn(old(Contents()), readopen, killed, rest)
      ensures Contents() == old(Contents()) + rest[..t.moved]
      ensures t.moved < |rest| ==> |Contents()| == PIPESIZE
      ensures t.verdict == Done <==> Contents() == old(Contents()) + rest
      ensures t.verdict == Failed <==> t.moved < |rest| && (!readopen || killed)
      ensures t.wakes <==> t.verdict == Done || t.verdict == Sleeps
    {
      hide Occupied, Queue;
      var k := Put(rest);
      QueueLength(data[..], nread, Occupied(nread, nwrite));
      assert rest[..|rest|] == rest;
      if k == |rest| {
        t := Turn(k, true, Done);
      } else if !readopen || killed {
        t := Turn(k, false, Failed);
      } else {
        t := Turn(k, true, Sleeps);
      }
    }

    /** piperead up to its return or its next sleep. */
    method ReadTurn(n: int, killed: bool) returns (t: Turn, dst: seq<byte>)
      requires Valid()
      modifies this`nread
      ensures Valid() && t == ReaderTurn(old(Contents()), writeopen, killed, n)
      ensures |dst| == t.moved && old(Contents()) == dst + Contents()
      ensures t.verdict == Failed <==> old(Contents()) == [] && writeopen && killed
      ensures t.verdict == Sleeps <==> old(Contents()) == [] && writeopen && !killed
      ensures t.verdict == Done ==> |dst| == if n < 0 then 0 else if n < |old(Contents())| then n else |old(Contents())|
      ensures t.wakes <==> t.verdict == Done
    {
      hide Occupied, Queue;
      OccupiedIs(nread, nwrite);
      QueueLength(data[..], nread, Occupied(nread, nwrite));
      dst := [];
      if nread == nwrite && writeopen {
        t := Turn(0, false, if killed then Failed else Sleeps);
      } else {
        dst := Take(n);
        t := Turn(|dst|, true, Done);
      }
    }
  }
}
