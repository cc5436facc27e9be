/** The ring buffer behind pipes (src/device/ioqueue.c) as a FIFO queue of 63 bytes, and pipe_read and
    pipe_write on it (src/shell/pipe.c). */
module RingBuffers {
  import opened Results
  import opened Bytes
  import opened Sequences

  const BUFSIZE: nat := 64

  type Tid = nat

  function NextPos(pos: nat): nat {
    (pos + 1) % BUFSIZE
  }

  /** ioq_length. */
  function Length(head: nat, tail: nat): (n: nat)
    requires head < BUFSIZE && tail < BUFSIZE
  {
    if head >= tail then head - tail else BUFSIZE - (tail - head)
  }

  /** n bytes from tail on, around the end of the buffer. */
  ghost function Held(buf: seq<Byte>, tail: nat, n: nat): (s: seq<Byte>)
    requires |buf| == BUFSIZE
    ensures |s| == n && forall i :: 0 <= i < n ==> s[i] == buf[(tail + i) % BUFSIZE]
  {
    seq(n, i requires 0 <= i < n => buf[(tail + i) % BUFSIZE])
  }

  // ---------------------------------------------------------------------------------------
  // Who waits.

  datatype Op = Put(byte: Byte) | Get

  /** Where a thread is that is on its way to wait. Queued: asleep for the lock. Called: woken for it, about to try
      again. Sleeping: it has the lock and sleeps as the producer or consumer. Woken: it has been woken from that,
      and still has the lock. Interrupts are off all the way, so a thread stops at no other place. */
  datatype Place = Queued(op: Op) | Called(op: Op) | Sleeping(op: Op) | Woken(op: Op)

  datatype Sync = Sync(producer: Option<Tid>, consumer: Option<Tid>, holder: Option<Tid>, waiters: seq<Tid>,
    at: map<Tid, Place>)

  /** Who has the lock is the one who waits, or was woken from waiting; the slots name who sleeps; the lock's list
      holds who is queued; and a free lock with waiters has somebody on the way. */
  ghost predicate SyncOk(s: Sync) {
    && (forall t :: t in s.at && (s.at[t].Sleeping? || s.at[t].Woken?) ==> s.holder == Some(t))
    && (forall t :: s.holder == Some(t) ==> t in s.at && (s.at[t].Sleeping? || s.at[t].Woken?))
    && (forall t :: s.consumer == Some(t) <==> t in s.at && s.at[t].Sleeping? && s.at[t].op.Get?)
    && (forall t :: s.producer == Some(t) <==> t in s.at && s.at[t].Sleeping? && s.at[t].op.Put?)
    && NoRepeat(s.waiters) && (forall t :: t in s.waiters <==> t in s.at && s.at[t].Queued?)
    && (s.holder.None? && s.waiters != [] ==> exists t :: IsCalled(s, t))
  }

  ghost predicate IsCalled(s: Sync, t: Tid) {
    t in s.at && s.at[t].Called?
  }

  /** lock_acquire and ioq_wait: asleep for the lock, or with the lock as the one who waits. */
  function Waits(s: Sync, t: Tid, op: Op): Sync {
    if s.holder.Some? then s.(waiters := s.waiters + [t], at := s.at[t := Queued(op)])
    else s.(holder := Some(t), at := s.at[t := Sleeping(op)],
            producer := if op.Put? then Some(t) else s.producer, consumer := if op.Get? then Some(t) else s.consumer)
  }

  /** lock_release by the holder: the first in the list is woken. */
  function Frees(s: Sync, t: Tid): Sync {
    var at := s.at - {t};
    if s.waiters != [] && s.waiters[0] in at then
      s.(holder := None, waiters := s.waiters[1..], at := at[s.waiters[0] := Called(at[s.waiters[0]].op)])
    else s.(holder := None, at := at)
  }

  /** wakeup of the producer or of the consumer, if one waits. */
  function WakesProducer(s: Sync): Sync {
    if s.producer.Some? && s.producer.value in s.at then
      s.(producer := None, at := s.at[s.producer.value := Woken(s.at[s.producer.value].op)])
    else s
  }

  function WakesConsumer(s: Sync): Sync {
    if s.consumer.Some? && s.consumer.value in s.at then
      s.(consumer := None, at := s.at[s.consumer.value := Woken(s.at[s.consumer.value].op)])
    else s
  }

  /** Nobody waits while the lock is free: the ASSERT in ioq_wait holds. */
  lemma WaitsKeeps(s: Sync, t: Tid, op: Op)
    requires SyncOk(s) && (t in s.at ==> s.at[t].Called?)
    ensures SyncOk(Waits(s, t, op)) && (s.holder.None? ==> s.producer.None? && s.consumer.None?)
    ensures s.holder.Some? ==> Waits(s, t, op).waiters == s.waiters + [t]
  {
    if s.producer.Some? {
      assert s.holder == Some(s.producer.value);
    }
    if s.consumer.Some? {
      assert s.holder == Some(s.consumer.value);
    }
    if s.holder.Some? {
      QueuesUp(s, t, op);
    }
  }

  lemma QueuesUp(s: Sync, t: Tid, op: Op)
    requires SyncOk(s) && s.holder.Some? && (t in s.at ==> s.at[t].Called?)
    ensures SyncOk(Waits(s, t, op))
  {
    assert t !in s.waiters;
  }

  lemma FreesKeeps(s: Sync, t: Tid)
    requires SyncOk(s) && t in s.at && s.at[t].Woken?
    ensures SyncOk(Frees(s, t)) && t !in Frees(s, t).at && s.holder == Some(t)
    ensures s.waiters != [] ==>
              && Frees(s, t).waiters == s.waiters[1..] && IsCalled(Frees(s, t), s.waiters[0])
              && forall u :: u in Frees(s, t).at && u != s.waiters[0] ==> u in s.at && Frees(s, t).at[u] == s.at[u]
  {
    var n := Frees(s, t);
    if s.waiters != [] {
      var u := s.waiters[0];
      assert u in s.waiters && s.waiters == [u] + s.waiters[1..];
      assert forall i :: 0 <= i < |n.waiters| ==> n.waiters[i] == s.waiters[i + 1];
      assert IsCalled(n, u);
    }
  }

  lemma WakesKeeps(s: Sync)
    requires SyncOk(s)
    ensures SyncOk(WakesProducer(s)) && SyncOk(WakesConsumer(s))
    ensures WakesProducer(s).at.Keys == s.at.Keys && WakesConsumer(s).at.Keys == s.at.Keys
    ensures WakesProducer(s).producer.None? && WakesConsumer(s).consumer.None?
  {
  }

  /** What a turn comes to: a byte is taken or stored, or the thread goes to sleep. */
  datatype Step = Took(byte: Byte) | Stored | Sleeps

  class IoQueue {
    const buf: array<Byte>
    var head: nat               // where the next byte is put
    var tail: nat               // where the next byte is taken
    var producer: Option<Tid>   // who waits for space
    var consumer: Option<Tid>   // who waits for a byte
    var holder: Option<Tid>     // of the lock
    var waiters: seq<Tid>       // for the lock
    var at: map<Tid, Place>

    /** ioqueue_init. */
    constructor ()
      ensures Valid() && Contents() == [] && fresh(buf) && Now() == Sync(None, None, None, [], map[])
    {
      buf := new Byte[BUFSIZE](_ => 0);
      head, tail, producer, consumer, holder, waiters, at := 0, 0, None, None, None, [], map[];
    }

    ghost function Contents(): (s: seq<Byte>)
      requires buf.Length == BUFSIZE && head < BUFSIZE && tail < BUFSIZE
      reads this, buf
    {
      Held(buf[..], tail, Length(head, tail))
    }

    function Now(): Sync
      reads this
    {
      Sync(producer, consumer, holder, waiters, at)
    }

    ghost predicate Valid()
      reads this, buf
    {
      && buf.Length == BUFSIZE && head < BUFSIZE && tail < BUFSIZE
      && |Contents()| <= BUFSIZE - 1 && SyncOk(Now())
    }

    method Empty() returns (r: bool)
      requires Valid()
      ensures r <==> Contents() == []
    {
      return head == tail;
    }

    method Full() returns (r: bool)
      requires Valid()
      ensures r <==> |Contents()| == 63
    {
      return NextPos(head) == tail;
    }

    method IoqLength() returns (n: nat)
      requires Valid()
      ensures n == |Contents()|
    {
      return Length(head, tail);
    }

    /** lock_acquire and ioq_wait. The ASSERT that nobody waits on that side already cannot fire. */
    method Wait(t: Tid, op: Op) returns (ok: bool)
      requires Valid() && (t in at ==> at[t].Called?)
      modifies this
      ensures ok && Valid() && Contents() == old(Contents()) && Now() == Waits(old(Now()), t, op)
    {
      hide SyncOk, Length;
      WaitsKeeps(Now(), t, op);
      if holder.Some? {
        waiters, at := waiters + [t], at[t := Queued(op)];
        return true;
      }
      holder := Some(t);
      if op.Get? {
        if consumer.Some? {
          return false;
        }
        consumer := Some(t);
      } else {
        if producer.Some? {
          return false;
        }
        producer := Some(t);
      }
      at := at[t := Sleeping(op)];
      return true;
    }

    /** One turn of ioq_getchar: it takes the oldest byte and wakes the producer, if one waits; or it waits, exactly
        on an empty queue. */
    method GetChar(t: Tid) returns (r: Step)
      requires Valid() && t !in at
      modifies this
      ensures Valid() && !r.Stored?
      ensures r.Took? <==> old(Contents()) != []
      ensures r.Took? ==> old(Contents()) == [r.byte] + Contents() && Now() == WakesProducer(old(Now()))
      ensures r.Sleeps? ==> Contents() == old(Contents()) && Now() == Waits(old(Now()), t, Get)
    {
      hide SyncOk;
      var empty := Empty();
      if empty {
        var ok := Wait(t, Get);
        return Sleeps;
      }
      var byte := buf[tail];
      TakeOne(buf[..], head, tail);
      WakesKeeps(Now());
      tail := NextPos(tail);
      if producer.Some? && producer.value in at {
        producer, at := None, at[producer.value := Woken(at[producer.value].op)];
      }
      return Took(byte);
    }

    /** One turn of ioq_putchar: it stores the byte behind the others and wakes the consumer, if one waits; or it
        waits, exactly on a queue of 63. */
    method PutChar(t: Tid, byte: Byte) returns (r: Step)
      requires Valid() && t !in at
      modifies this, buf
      ensures Valid() && !r.Took?
      ensures r.Stored? <==> |old(Contents())| < 63
      ensures r.Stored? ==> Contents() == old(Contents()) + [byte] && Now() == WakesConsumer(old(Now()))
      ensures r.Sleeps? ==> Contents() == old(Contents()) && Now() == Waits(old(Now()), t, Put(byte))
    {
      hide SyncOk;
      var full := Full();
      if full {
        var ok := Wait(t, Put(byte));
        return Sleeps;
      }
      ghost var was := buf[..];
      PutOne(was, head, tail, byte);
      WakesKeeps(Now());
      buf[head] := byte;
      assert buf[..] == was[head := byte];
      head := NextPos(head);
      if consumer.Some? && consumer.value in at {
        consumer, at := None, at[consumer.value := Woken(at[consumer.value].op)];
      }
      return Stored;
    }

    /** A thread that was woken goes on: for the lock, it tries again, and with the lock it waits, whatever is in the
        queue by now; from waiting, it releases the lock and looks at the queue again. */
    method GoOn(t: Tid) returns (r: Step)
      requires Valid() && t in at && (at[t].Called? || at[t].Woken?)
      modifies this, buf
      ensures Valid()
      ensures old(at)[t].Called? ==>
              r.Sleeps? && Contents() == old(Contents()) && Now() == Waits(old(Now()), t, old(at)[t].op)
      ensures old(at)[t].Woken? && old(at)[t].op.Get? ==>
                && !r.Stored? && (r.Took? <==> old(Contents()) != [])
                && (r.Took? ==>
                   old(Contents()) == [r.byte] + Contents() && Now() == WakesProducer(Frees(old(Now()), t)))
                && (r.Sleeps? ==> Contents() == old(Contents()) && Now() == Waits(Frees(old(Now()), t), t, Get))
      ensures old(at)[t].Woken? && old(at)[t].op.Put? ==>
                && !r.Took? && (r.Stored? <==> |old(Contents())| < BUFSIZE - 1)
                && (r.Stored? ==>
                   Contents() == old(Contents()) + [old(at)[t].op.byte] && Now() == WakesConsumer(Frees(old(Now()), t)))
                && (r.Sleeps? ==>
                   Contents() == old(Contents()) && Now() == Waits(Frees(old(Now()), t), t, old(at)[t].op))
    {
      hide SyncOk, Length;
      var op := at[t].op;
      if at[t].Called? {
        var ok := Wait(t, op);
        return Sleeps;
      }
      FreesKeeps(Now(), t);
      holder, at := None, at - {t};
      if waiters != [] && waiters[0] in at {
        at, waiters := at[waiters[0] := Called(at[waiters[0]].op)], waiters[1..];
      }
      match op {
        case Get => r := GetChar(t);
        case Put(byte) => r := PutChar(t, byte);
      }
    }

    /** pipe_read: what is there, but not more than asked for; it never sleeps. */
    method PipeRead(me: Tid, count: nat) returns (ok: bool, data: seq<Byte>)
      requires Valid() && me !in at
      modifies this
      ensures Valid() && ok && me !in at
      ensures |data| == if |old(Contents())| > count then count else |old(Contents())|
      ensures old(Contents()) == data + Contents()
    {
      hide Held, Length, SyncOk;
      var length := IoqLength();
      var size := if length > count then count else length;
      data := [];
      while |data| < size
        invariant Valid() && me !in at && |data| <= size && old(Contents()) == data + Contents()
        decreases size - |data|
      {
        WakesKeeps(Now());
        var got := GetChar(me);
        if !got.Took? {
          return false, data;
        }
        Shift(data, got.byte, Contents());
        data := data + [got.byte];
      }
      return true, data;
    }

    /** pipe_write: it counts 64 places where 63 are usable, so it goes to sleep exactly if asked to store
        more bytes than fit, after those that fit. */
    method PipeWrite(me: Tid, data: seq<Byte>) returns (written: Option<nat>)
      requires Valid() && me !in at
      modifies this, buf
      ensures Valid()
      ensures written.Some? <==> |old(Contents())| + |data| <= 63
      ensures written.Some? ==> written.value == |data| && Contents() == old(Contents()) + data && me !in at
      ensures written.None? ==>
                && Contents() == old(Contents()) + data[..63 - |old(Contents())|]
                && me in at && (at[me].Queued? || at[me].Sleeping?)
    {
      hide Held, Length, SyncOk;
      var length := IoqLength();
      var left := BUFSIZE - length;
      var size := if left > |data| then |data| else left;
      var k := 0;
      while k < size
        invariant Valid() && me !in at && 0 <= k <= size && Contents() == old(Contents()) + data[..k]
        decreases size - k
      {
        WakesKeeps(Now());
        var put := PutChar(me, data[k]);
        if put.Sleeps? {
          return None;
        }
        OneMoreTaken(old(Contents()), data, k);
        k := k + 1;
      }
      return Some(k);
    }
  }

  lemma Around(tail: nat, i: nat)
    requires tail < BUFSIZE
    ensures (NextPos(tail) + i) % BUFSIZE == (tail + (i + 1)) % BUFSIZE
  {
  }

  /** Taking from a queue that is not empty leaves the others. */
  lemma TakeOne(buf: seq<Byte>, head: nat, tail: nat)
    requires |buf| == BUFSIZE && head < BUFSIZE && tail < BUFSIZE && head != tail
    ensures Length(head, NextPos(tail)) + 1 == Length(head, tail)
    ensures Held(buf, tail, Length(head, tail)) == [buf[tail]] + Held(buf, NextPos(tail), Length(head, NextPos(tail)))
  {
    hide Length, NextPos;
    LessByOne(head, tail);
    var n := Length(head, NextPos(tail));
    var s, r := Held(buf, tail, n + 1), Held(buf, NextPos(tail), n);
    forall i | 0 <= i < n + 1 ensures s[i] == ([buf[tail]] + r)[i] {
      if i > 0 {
        Around(tail, i - 1);
      }
    }
  }

  lemma LessByOne(head: nat, tail: nat)
    requires head < BUFSIZE && tail < BUFSIZE && head != tail
    ensures NextPos(tail) < BUFSIZE && Length(head, NextPos(tail)) + 1 == Length(head, tail)
  {
  }

  /** Storing in a queue that is not full appends. */
  lemma PutOne(buf: seq<Byte>, head: nat, tail: nat, byte: Byte)
    requires |buf| == BUFSIZE && head < BUFSIZE && tail < BUFSIZE && NextPos(head) != tail
    ensures Length(NextPos(head), tail) == Length(head, tail) + 1
    ensures Held(buf[head := byte], tail, Length(NextPos(head), tail)) == Held(buf, tail, Length(head, tail)) + [byte]
  {
    var n := Length(head, tail);
    var s, r := Held(buf[head := byte], tail, n + 1), Held(buf, tail, n);
    forall i | 0 <= i < n + 1 ensures s[i] == (r + [byte])[i] {
      PlaceOf(head, tail, i);
    }
  }

  lemma PlaceOf(head: nat, tail: nat, i: nat)
    requires head < BUFSIZE && tail < BUFSIZE && i <= Length(head, tail)
    ensures (tail + i) % BUFSIZE == head <==> i == Length(head, tail)
  {
  }

  lemma Shift(a: seq<Byte>, x: Byte, b: seq<Byte>)
    ensures a + ([x] + b) == a + [x] + b
  {
  }

  lemma OneMoreTaken(a: seq<Byte>, data: seq<Byte>, k: nat)
    requires k < |data|
    ensures a + data[..k] + [data[k]] == a + data[..k + 1]
  {
    assert data[..k + 1] == data[..k] + [data[k]];
  }
}
