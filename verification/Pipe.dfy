/**
 The pipe of fs/pipe.c. A segment runs from acquiring the pipe's lock to releasing it, in
 sleep or at the end; sleep puts the caller on a wait channel before the lock is free again.
 */
module Pipe {
  import opened Common

  const PIPESIZE: nat := 512

  /** What the pipe is for: bytes on their way, open ends, and who sleeps on &nread and &nwrite. */
  datatype Queue = Queue(bytes: seq<char>, readopen: bool, writeopen: bool, readers: set<nat>, writers: set<nat>)

  /** How a segment ends: the call returns, or fails, or the caller is asleep with `rest` still to write. */
  datatype Outcome = Done | Failed | Asleep(rest: seq<char>)

  // ---------- the segments, on the queue ----------

  /** pipewrite of `rest`, from its start or after waking up. */
  function WriteQueue(q: Queue, rest: seq<char>, me: nat, killed: bool): (Queue, Outcome)
    requires |q.bytes| <= PIPESIZE
  {
    var room := PIPESIZE - |q.bytes|;
    if |rest| <= room then (q.(bytes := q.bytes + rest, readers := {}), Done)
    else
      var full := q.(bytes := q.bytes + rest[..room]);
      if !q.readopen || killed then (full, Failed)
      else (full.(readers := {}, writers := q.writers + {me}), Asleep(rest[room..]))
  }

  /** piperead of up to `n` bytes. */
  function ReadQueue(q: Queue, n: nat, me: nat, killed: bool): (Queue, Outcome, seq<char>)
  {
    if q.bytes == [] && q.writeopen then
      if killed then (q, Failed, []) else (q.(readers := q.readers + {me}), Asleep([]), [])
    else
      var k := if n <= |q.bytes| then n else |q.bytes|;
      (q.(bytes := q.bytes[k..], writers := {}), Done, q.bytes[..k])
  }

  function CloseQueue(q: Queue, writable: bool): Queue
  {
    if writable then q.(writeopen := false, readers := {}) else q.(readopen := false, writers := {})
  }

  // ---------- the ring with its wrapping counters ----------

  class Ring {
    const data: array<char>
    var nread: nat      // both counters wrap at 2^32
    var nwrite: nat
    var readopen: bool
    var writeopen: bool
    var readers: set<nat>
    var writers: set<nat>

    ghost var put: seq<char>   // all bytes ever written
    ghost var got: seq<char>   // all bytes ever read

    /** The unread bytes are the written ones after the read ones, each at its index modulo PIPESIZE. */
    ghost predicate Valid()
      reads this, data
    {
      && data.Length == PIPESIZE
      && |got| <= |put| <= |got| + PIPESIZE && got <= put
      && nread == |got| % UINT && nwrite == |put| % UINT
      && forall j :: |got| <= j < |put| ==> data[j % PIPESIZE] == put[j]
    }

    ghost function Model(): Queue
      requires Valid()
      reads this, data
    {
      Queue(put[|got|..], readopen, writeopen, readers, writers)
    }

    constructor ()
      ensures Valid() && Model() == Queue([], true, true, {}, {}) && fresh(data)
    {
      data := new char[PIPESIZE](_ => '\0');
      nread, nwrite, readopen, writeopen := 0, 0, true, true;
      readers, writers, put, got := {}, {}, [], [];
    }

    /** p->nwrite == p->nread + PIPESIZE in 32-bit arithmetic. */
    predicate Full()
      reads this
    {
      nwrite == (nread + PIPESIZE) % UINT
    }

    lemma FullMeansFull()
      requires Valid()
      ensures Full() <==> |put| == |got| + PIPESIZE
      ensures nread == nwrite <==> |put| == |got|
    {
    }

    /** p->data[p->nwrite++ % PIPESIZE] = c. */
    method PutByte(c: char)
      requires Valid() && |put| < |got| + PIPESIZE
      modifies data, this`nwrite, this`put
      ensures Valid() && put == old(put) + [c]
    {
      Wrapped(|put|);
      data[nwrite % PIPESIZE] := c;
      nwrite := (nwrite + 1) % UINT;
      put := put + [c];
      forall j | |got| <= j < |put| ensures data[j % PIPESIZE] == put[j] {
        Slots(|old(put)|, j);
      }
    }

    /** p->data[p->nread++ % PIPESIZE]. */
    method GetByte() returns (c: char)
      requires Valid() && |got| < |put|
      modifies this`nread, this`got
      ensures Valid() && got == old(got) + [c] && c == put[|old(got)|]
    {
      Wrapped(|got|);
      c := data[nread % PIPESIZE];
      nread := (nread + 1) % UINT;
      got := got + [c];
    }

    /**
     One locked segment of pipewrite; `addr` is what the caller still has to write. It writes all of it
     exactly when there is room; else it fills the pipe, and sleeps with the rest, or leaves.
     */
    method Write(addr: seq<char>, me: nat, killed: bool) returns (r: Outcome)
      requires Valid()
      modifies this, data
      ensures Valid() && got == old(got) && readopen == old(readopen) && writeopen == old(writeopen)
      ensures r.Done? <==> |old(put)| + |addr| <= |got| + PIPESIZE
      ensures r.Done? ==> put == old(put) + addr && readers == {} && writers == old(writers)
      ensures !r.Done? ==> |put| == |got| + PIPESIZE && put == old(put) + addr[..|put| - |old(put)|]
      ensures r.Failed? ==> (!readopen || killed) && readers == old(readers) && writers == old(writers)
      ensures r.Asleep? ==> readopen && !killed && readers == {} && writers == old(writers) + {me}
      ensures r.Asleep? ==> put + r.rest == old(put) + addr && r.rest != []
      ensures (Model(), r) == WriteQueue(old(Model()), addr, me, killed)
    {
      ghost var q := Model();
      var i := 0;
      while i < |addr|
        invariant 0 <= i <= |addr|
        invariant Valid() && got == old(got) && put == old(put) + addr[..i]
        invariant readopen == q.readopen && writeopen == q.writeopen && readers == q.readers && writers == q.writers
      {
        FullMeansFull();
        if Full() {
          assert put[|got|..] == q.bytes + addr[..i];
          if !readopen || killed {
            return Failed;
          }
          readers := {};
          writers := writers + {me};
          return Asleep(addr[i..]);
        }
        PutByte(addr[i]);
        i := i + 1;
      }
      assert addr[..i] == addr && put[|got|..] == q.bytes + addr;
      readers := {};
      r := Done;
    }

    /** The copy loop of piperead. */
    method ReadBytes(n: nat) returns (addr: seq<char>)
      requires Valid()
      modifies this`nread, this`got
      ensures Valid() && got == old(got) + addr
      ensures |addr| == if n <= |put| - |old(got)| then n else |put| - |old(got)|
    {
      addr := [];
      FullMeansFull();
      while |addr| < n && nread != nwrite
        invariant |addr| <= n && Valid() && got == old(got) + addr
        invariant nread == nwrite <==> |put| == |got|
        decreases n - |addr|
      {
        var c := GetByte();
        addr := addr + [c];
        FullMeansFull();
      }
    }

    /** One locked segment of piperead. */
    method Read(n: nat, me: nat, killed: bool) returns (r: Outcome, addr: seq<char>)
      requires Valid()
      modifies this
      ensures Valid() && put == old(put) && got == old(got) + addr && readopen == old(readopen) && writeopen == old(writeopen)
      ensures r.Done? <==> |old(got)| < |put| || !writeopen
      ensures r.Done? ==> |addr| == Min(n, |put| - |old(got)|) && writers == {} && readers == old(readers)
      ensures !r.Done? ==> addr == [] && writers == old(writers) && (r.Failed? <==> killed)
      ensures r.Failed? ==> readers == old(readers)
      ensures r.Asleep? ==> readers == old(readers) + {me}
      ensures (Model(), r, addr) == ReadQueue(old(Model()), n, me, killed)
    {
      FullMeansFull();
      addr := [];
      if nread == nwrite && writeopen {
        if killed {
          return Failed, [];
        }
        readers := readers + {me};
        return Asleep([]), [];
      }
      ghost var q := Model();
      addr := ReadBytes(n);
      assert addr == q.bytes[..|addr|] && put[|got|..] == q.bytes[|addr|..];
      writers := {};
      r := Done;
    }

    /** pipeclose; the caller frees the pipe when `last`. */
    method Close(writable: bool) returns (last: bool)
      requires Valid()
      modifies this
      ensures Valid() && put == old(put) && got == old(got)
      ensures writable ==> !writeopen && readopen == old(readopen) && readers == {} && writers == old(writers)
      ensures !writable ==> !readopen && writeopen == old(writeopen) && writers == {} && readers == old(readers)
      ensures Model() == CloseQueue(old(Model()), writable)
      ensures last <==> !readopen && !writeopen
    {
      if writable {
        writeopen := false;
        readers := {};
      } else {
        readopen := false;
        writers := {};
      }
      last := !readopen && !writeopen;
    }
  }

  /** A counter that wraps still finds its slot, and counts on. */
  lemma Wrapped(n: nat)
    ensures n % UINT % PIPESIZE == n % PIPESIZE && (n % UINT + 1) % UINT == (n + 1) % UINT
  {
  }

  /** Bytes less than PIPESIZE apart are in different slots. */
  lemma Slots(i: nat, j: nat)
    requires i - PIPESIZE < j < i + PIPESIZE
    ensures i % PIPESIZE == j % PIPESIZE <==> i == j
  {
  }

  // ---------- every run ----------

  datatype Op =
    | Write(me: nat, bytes: seq<char>, killed: bool)   // pipewrite starts, or goes on after sleeping
    | Read(me: nat, n: nat, killed: bool)
    | Close(writable: bool)
    | Interrupt(pid: nat)                              // kill makes a sleeper runnable

  /** A run so far: the pipe, what went in, and what came out. */
  datatype State = State(q: Queue, put: seq<char>, got: seq<char>)

  function Do(s: State, op: Op): (s': State)
    requires |s.q.bytes| <= PIPESIZE
    ensures |s'.q.bytes| <= PIPESIZE
  {
    match op
    case Write(me, bytes, killed) =>
      var q' := WriteQueue(s.q, bytes, me, killed).0;
      State(q', s.put + q'.bytes[|s.q.bytes|..], s.got)
    case Read(me, n, killed) =>
      var r := ReadQueue(s.q, n, me, killed);
      State(r.0, s.put, s.got + r.2)
    case Close(writable) => s.(q := CloseQueue(s.q, writable))
    case Interrupt(pid) => s.(q := s.q.(readers := s.q.readers - {pid}, writers := s.q.writers - {pid}))
  }

  function After(ops: seq<Op>): (s: State)
    ensures |s.q.bytes| <= PIPESIZE
  {
    if ops == [] then State(Queue([], true, true, {}, {}), [], [])
    else Do(After(ops[..|ops| - 1]), ops[|ops| - 1])
  }

  /** What was read is a prefix of what was written, and the pipe holds the rest in order. */
  lemma {:induction false} Fifo(ops: seq<Op>)
    ensures After(ops).put == After(ops).got + After(ops).q.bytes
  {
    hide Do;
    if ops != [] {
      Fifo(ops[..|ops| - 1]);
      StepFifo(After(ops[..|ops| - 1]), ops[|ops| - 1]);
    }
  }

  lemma StepFifo(s: State, op: Op)
    requires |s.q.bytes| <= PIPESIZE && s.put == s.got + s.q.bytes
    ensures Do(s, op).put == Do(s, op).got + Do(s, op).q.bytes
  {
    hide WriteQueue, ReadQueue;
    match op
    case Write(me, bytes, killed) =>
      WriteExtends(s.q, bytes, me, killed);
      var b := WriteQueue(s.q, bytes, me, killed).0.bytes;
      assert s.got + b == s.got + s.q.bytes + b[|s.q.bytes|..];
    case Read(me, n, killed) =>
      ReadSplits(s.q, n, me, killed);
      var r := ReadQueue(s.q, n, me, killed);
      assert s.got + r.2 + r.0.bytes == s.got + (r.2 + r.0.bytes);
    case Close(writable) =>
    case Interrupt(pid) =>
  }

  lemma WriteExtends(q: Queue, rest: seq<char>, me: nat, killed: bool)
    requires |q.bytes| <= PIPESIZE
    ensures q.bytes <= WriteQueue(q, rest, me, killed).0.bytes
  {
  }

  lemma ReadSplits(q: Queue, n: nat, me: nat, killed: bool)
    ensures var r := ReadQueue(q, n, me, killed); r.2 + r.0.bytes == q.bytes
  {
  }

  // ---------- what is written is what was asked for ----------

  /** A segment takes as many bytes as fit, from the front, and keeps the others for later. */
  lemma WriteTakes(q: Queue, rest: seq<char>, me: nat, killed: bool)
    requires |q.bytes| <= PIPESIZE
    ensures var k, r := Min(|rest|, PIPESIZE - |q.bytes|), WriteQueue(q, rest, me, killed);
            && r.0.bytes == q.bytes + rest[..k] && (r.1.Done? <==> k == |rest|)
            && (r.1.Asleep? ==> rest[..k] + r.1.rest == rest) && (r.1.Failed? <==> k < |rest| && (killed || !q.readopen))
  {
    assert rest[..|rest|] == rest;
  }

  lemma ReadTakes(q: Queue, n: nat, me: nat, killed: bool)
    ensures var r := ReadQueue(q, n, me, killed);
            && r.2 == q.bytes[..|r.2|] && r.0.bytes == q.bytes[|r.2|..]
            && |r.2| == (if r.1.Done? then Min(n, |q.bytes|) else 0)
            && (r.1.Done? <==> q.bytes != [] || !q.writeopen)
  {
  }

  /** What the write operations of a run put into the pipe: of each, the bytes that fit. */
  function Sent(ops: seq<Op>): seq<char>
  {
    if ops == [] then []
    else
      var prev, op := ops[..|ops| - 1], ops[|ops| - 1];
      Sent(prev) + if op.Write? then op.bytes[..Min(|op.bytes|, PIPESIZE - |After(prev).q.bytes|)] else []
  }

  lemma {:induction false} PutIsSent(ops: seq<Op>)
    ensures After(ops).put == Sent(ops)
  {
    if ops != [] {
      var prev, op := ops[..|ops| - 1], ops[|ops| - 1];
      PutIsSent(prev);
      if op.Write? {
        hide WriteQueue;
        WriteTakes(After(prev).q, op.bytes, op.me, op.killed);
      }
    }
  }

  /** The part of that which process `w` wrote. */
  function SentBy(ops: seq<Op>, w: nat): seq<char>
  {
    if ops == [] then []
    else
      var prev, op := ops[..|ops| - 1], ops[|ops| - 1];
      SentBy(prev, w) + if op.Write? && op.me == w then op.bytes[..Min(|op.bytes|, PIPESIZE - |After(prev).q.bytes|)] else []
  }

  /** What it still has to write, when it sleeps in pipewrite. */
  function Owed(ops: seq<Op>, w: nat): seq<char>
  {
    if ops == [] then []
    else
      var prev, op := ops[..|ops| - 1], ops[|ops| - 1];
      if !op.Write? || op.me != w then Owed(prev, w)
      else match WriteQueue(After(prev).q, op.bytes, w, op.killed).1 case Asleep(rest) => rest case _ => []
  }

  /** What its calls of pipewrite were given; a segment that goes on with an earlier call adds nothing. */
  function Asked(ops: seq<Op>, w: nat): seq<char>
  {
    if ops == [] then []
    else
      var prev, op := ops[..|ops| - 1], ops[|ops| - 1];
      Asked(prev, w) + if op.Write? && op.me == w && Owed(prev, w) == [] then op.bytes else []
  }

  /** A process that wakes up in pipewrite goes on where it stopped, and no call of it fails. */
  ghost predicate Orderly(ops: seq<Op>, w: nat)
  {
    forall k {:trigger ops[k]} :: 0 <= k < |ops| && ops[k].Write? && ops[k].me == w ==>
      && (Owed(ops[..k], w) == [] || ops[k].bytes == Owed(ops[..k], w))
      && !WriteQueue(After(ops[..k]).q, ops[k].bytes, w, ops[k].killed).1.Failed?
  }

  lemma OrderlyBefore(ops: seq<Op>, w: nat)
    requires Orderly(ops, w) && ops != []
    ensures Orderly(ops[..|ops| - 1], w)
  {
    hide Owed, WriteQueue, After;
    var prev := ops[..|ops| - 1];
    forall k | 0 <= k < |prev| ensures prev[..k] == ops[..k] && prev[k] == ops[k] {
    }
  }

  /** One segment of it: the bytes that fit, and the bytes it then owes, are the bytes it had. */
  lemma OwesTheRest(ops: seq<Op>, w: nat)
    requires Orderly(ops, w) && ops != [] && ops[|ops| - 1].Write? && ops[|ops| - 1].me == w
    ensures var prev, bytes := ops[..|ops| - 1], ops[|ops| - 1].bytes;
            && bytes[..Min(|bytes|, PIPESIZE - |After(prev).q.bytes|)] + Owed(ops, w) == bytes
            && (Owed(prev, w) == [] || bytes == Owed(prev, w))
  {
    hide WriteQueue, After;
    var op := ops[|ops| - 1];
    WriteTakes(After(ops[..|ops| - 1]).q, op.bytes, w, op.killed);
    assert op.bytes + [] == op.bytes;
  }

  /** Whoever else writes meanwhile, and however often it sleeps: what it wrote and what it still owes is what it was given. */
  lemma {:induction false} WholeCalls(ops: seq<Op>, w: nat)
    requires Orderly(ops, w)
    ensures SentBy(ops, w) + Owed(ops, w) == Asked(ops, w)
  {
    hide Orderly, After, WriteQueue;
    if ops != [] {
      var prev, op := ops[..|ops| - 1], ops[|ops| - 1];
      OrderlyBefore(ops, w);
      WholeCalls(prev, w);
      if op.Write? && op.me == w {
        OwesTheRest(ops, w);
        assert SentBy(ops, w) + Owed(ops, w) == SentBy(prev, w) + op.bytes;
      }
    }
  }

  /** A sleeping reader has nothing to read and may still get something; a sleeping writer has no room and a reader to wait for. */
  ghost predicate SleepSound(q: Queue)
  {
    && (q.readers != {} ==> q.bytes == [] && q.writeopen)
    && (q.writers != {} ==> |q.bytes| == PIPESIZE && q.readopen)
  }

  /**
   pipewrite leaves early, killed or with no reader left, after filling the pipe under the eyes
   of a sleeping reader, and wakes nobody.
   */
  predicate LosesWakeup(q: Queue, op: Op)
  {
    op.Write? && q.readers != {} && (op.killed || !q.readopen) && |op.bytes| > PIPESIZE
  }

  /** Exactly those segments break the soundness of sleeping. */
  lemma StepSound(s: State, op: Op)
    requires |s.q.bytes| <= PIPESIZE && SleepSound(s.q)
    ensures SleepSound(Do(s, op).q) <==> !LosesWakeup(s.q, op)
  {
  }

  lemma {:induction false} RunSound(ops: seq<Op>)
    requires forall k :: 0 <= k < |ops| ==> !LosesWakeup(After(ops[..k]).q, ops[k])
    ensures SleepSound(After(ops).q)
    ensures After(ops).q.readers == {} || After(ops).q.writers == {}
  {
    if ops != [] {
      var before := ops[..|ops| - 1];
      forall k | 0 <= k < |before| ensures !LosesWakeup(After(before[..k]).q, before[k]) {
        assert before[..k] == ops[..k];
      }
      RunSound(before);
      StepSound(After(before), ops[|ops| - 1]);
    }
  }

  /** The lost wakeup happens: a reader sleeps on a full pipe. */
  lemma LostWakeup(reader: nat, writer: nat, bytes: seq<char>)
    requires reader != writer && |bytes| > PIPESIZE
    ensures var q := After([Read(reader, 1, false), Write(writer, bytes, true)]).q;
            reader in q.readers && |q.bytes| == PIPESIZE
  {
    var first := [Read(reader, 1, false)];
    assert first[..0] == [];
    assert After(first).q == Queue([], true, true, {reader}, {});
    assert (first + [Write(writer, bytes, true)])[..1] == first;
  }
}
