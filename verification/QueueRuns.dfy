/** Whole runs of the ring buffer by any number of readers and writers (src/device/ioqueue.c): order of the
    bytes, and when nobody sleeps for good. */
module QueueRuns {
  import opened Results
  import opened Bytes
  import opened RingBuffers

  /** The bytes stored, and who is on the way to wait. */
  datatype Queue = Queue(bytes: seq<Byte>, sync: Sync)

  /** A thread begins ioq_putchar or ioq_getchar, or goes on with it after it was woken. */
  datatype Turn = Begin(t: Tid, op: Op) | Go(t: Tid)

  /** Threads that are asleep have no turn, and a thread in a call begins no other. */
  predicate MayTurn(s: Sync, turn: Turn) {
    match turn
    case Begin(t, _) => t !in s.at
    case Go(t) => t in s.at && (s.at[t].Called? || s.at[t].Woken?)
  }

  /** The loop condition of ioq_getchar or ioq_putchar. */
  predicate MustWait(bytes: seq<Byte>, op: Op) {
    if op.Get? then bytes == [] else |bytes| >= BUFSIZE - 1
  }

  /** From the loop condition on: to wait, or to take or store the byte and wake the other side. */
  function Attempt(q: Queue, t: Tid, op: Op): Queue {
    if MustWait(q.bytes, op) then q.(sync := Waits(q.sync, t, op))
    else if op.Get? then Queue(q.bytes[1..], WakesProducer(q.sync))
    else Queue(q.bytes + [op.byte], WakesConsumer(q.sync))
  }

  /** One turn, if the thread may take it. */
  function Turned(q: Queue, turn: Turn): Queue {
    if !MayTurn(q.sync, turn) then q
    else
      match turn
      case Begin(t, op) => Attempt(q, t, op)
      case Go(t) =>
        var op := q.sync.at[t].op;
        if q.sync.at[t].Called? then q.(sync := Waits(q.sync, t, op)) else Attempt(q.(sync := Frees(q.sync, t)), t, op)
  }

  function Run(q: Queue, turns: seq<Turn>): Queue
    decreases |turns|
  {
    if turns == [] then q else Run(Turned(q, turns[0]), turns[1..])
  }

  ghost function Shown(q: IoQueue): Queue
    requires q.Valid()
    reads q, q.buf
  {
    Queue(q.Contents(), q.Now())
  }

  /** One turn: what it puts or takes, if anything. */
  method Take(q: IoQueue, turn: Turn) returns (put: seq<Byte>, got: seq<Byte>)
    requires q.Valid() && MayTurn(q.Now(), turn)
    modifies q, q.buf
    ensures q.Valid() && old(q.Contents()) + put == got + q.Contents()
    ensures Shown(q) == Turned(old(Shown(q)), turn)
  {
    hide Held, Length, SyncOk, Waits, Frees, WakesProducer, WakesConsumer;
    var op := if turn.Begin? then turn.op else q.at[turn.t].op;
    var r;
    if turn.Go? {
      r := q.GoOn(turn.t);
    } else if op.Get? {
      r := q.GetChar(turn.t);
    } else {
      r := q.PutChar(turn.t, op.byte);
    }
    put := if r.Stored? then [op.byte] else [];
    got := if r.Took? then [r.byte] else [];
  }

  /** Any run of turns of any threads, readers and writers, as many as there are: bytes come out in the order in
      which they went in, none is lost and none comes twice; no ASSERT fires. */
  method Serve(q: IoQueue, turns: seq<Turn>) returns (put: seq<Byte>, got: seq<Byte>)
    requires q.Valid()
    modifies q, q.buf
    ensures q.Valid() && old(q.Contents()) + put == got + q.Contents()
    ensures Shown(q) == Run(old(Shown(q)), turns)
  {
    hide Held, Length, SyncOk, Turned;
    put, got := [], [];
    var k := 0;
    assert turns[0..] == turns;
    while k < |turns|
      invariant 0 <= k <= |turns| && q.Valid() && old(q.Contents()) + put == got + q.Contents()
      invariant Run(Shown(q), turns[k..]) == Run(old(Shown(q)), turns)
    {
      assert turns[k..][0] == turns[k] && turns[k..][1..] == turns[k + 1..];
      NoTurn(Shown(q), turns[k]);
      if MayTurn(q.Now(), turns[k]) {
        ghost var before := q.Contents();
        var p, g := Take(q, turns[k]);
        Chain(old(q.Contents()), put, got, before, p, g, q.Contents());
        put, got := put + p, got + g;
      }
      k := k + 1;
    }
    assert turns[k..] == [];
  }

  lemma NoTurn(q: Queue, turn: Turn)
    ensures !MayTurn(q.sync, turn) ==> Turned(q, turn) == q
  {
  }

  lemma Chain(a: seq<Byte>, put: seq<Byte>, got: seq<Byte>, b: seq<Byte>, p: seq<Byte>, g: seq<Byte>, c: seq<Byte>)
    requires a + put == got + b && b + p == g + c
    ensures a + (put + p) == got + g + c
  {
    assert a + (put + p) == a + put + p;
    assert got + b + p == got + (b + p);
    assert got + (g + c) == got + g + c;
  }

  // ---------------------------------------------------------------------------------------
  // Nobody sleeps for good.

  ghost predicate Ok(q: Queue) {
    SyncOk(q.sync) && |q.bytes| <= BUFSIZE - 1
  }

  /** Nobody is behind the lock, and who sleeps, sleeps for what is not there. */
  ghost predicate Alone(q: Queue) {
    && q.sync.waiters == []
    && (forall t :: t in q.sync.at ==> q.sync.at[t].Sleeping? || q.sync.at[t].Woken?)
    && (forall t :: t in q.sync.at && q.sync.at[t].Sleeping? ==> MustWait(q.bytes, q.sync.at[t].op))
  }

  /** At most one thread is on the way to wait, so no two are asleep. */
  lemma OneInside(q: Queue, t: Tid, u: Tid)
    requires Ok(q) && Alone(q) && t in q.sync.at && u in q.sync.at
    ensures t == u
  {
  }

  /** The sleeper does not sleep for good: the next call on the other side, whoever makes it, has not to wait and wakes
      the sleeper, who then finds what it needs. */
  lemma OtherSideWakes(q: Queue, t: Tid, u: Tid, op: Op)
    requires Ok(q) && Alone(q) && t in q.sync.at && q.sync.at[t].Sleeping? && op.Get? != q.sync.at[t].op.Get? && u != t
    ensures var n := Turned(q, Begin(u, op));
            && MayTurn(q.sync, Begin(u, op)) && Alone(n) && u !in n.sync.at
            && MayTurn(n.sync, Go(t)) && t !in Turned(n, Go(t)).sync.at
  {
    OneInsideAll(q, t);
  }

  lemma OneInsideAll(q: Queue, t: Tid)
    requires Ok(q) && Alone(q) && t in q.sync.at
    ensures forall u :: u in q.sync.at ==> u == t
  {
    forall u | u in q.sync.at ensures u == t {
      OneInside(q, t, u);
    }
  }

  /** A call that has to wait finds the lock free. */
  predicate FindsLockFree(q: Queue, turn: Turn) {
    turn.Begin? && MayTurn(q.sync, turn) && MustWait(q.bytes, turn.op) ==> q.sync.holder.None?
  }

  lemma TurnedOk(q: Queue, turn: Turn)
    requires Ok(q)
    ensures Ok(Turned(q, turn))
  {
    hide SyncOk, Waits, Frees, WakesProducer, WakesConsumer;
    if MayTurn(q.sync, turn) {
      match turn {
        case Begin(t, op) => AttemptOk(q, t, op);
        case Go(t) =>
          if q.sync.at[t].Called? {
            WaitsKeeps(q.sync, t, q.sync.at[t].op);
          } else {
            FreesKeeps(q.sync, t);
            AttemptOk(q.(sync := Frees(q.sync, t)), t, q.sync.at[t].op);
          }
      }
    }
  }

  lemma AttemptOk(q: Queue, t: Tid, op: Op)
    requires Ok(q) && t !in q.sync.at
    ensures Ok(Attempt(q, t, op))
  {
    hide SyncOk, Waits, WakesProducer, WakesConsumer;
    WaitsKeeps(q.sync, t, op);
    WakesKeeps(q.sync);
  }

  /** One turn: it stays so iff the call finds the lock free, should it have to wait. */
  lemma TurnAlone(q: Queue, turn: Turn)
    requires Ok(q) && Alone(q)
    ensures Alone(Turned(q, turn)) <==> FindsLockFree(q, turn)
  {
  }

  ghost predicate AllAlone(q: Queue, turns: seq<Turn>)
    decreases |turns|
  {
    Alone(q) && (turns != [] ==> AllAlone(Turned(q, turns[0]), turns[1..]))
  }

  ghost predicate AllFindFree(q: Queue, turns: seq<Turn>)
    decreases |turns|
  {
    turns != [] ==> FindsLockFree(q, turns[0]) && AllFindFree(Turned(q, turns[0]), turns[1..])
  }

  /** Over a whole run nobody gets behind the lock, no two threads are asleep and nobody sleeps for what is there, iff
      every call that has to wait finds the lock free. */
  lemma {:induction false} AloneInRun(q: Queue, turns: seq<Turn>)
    requires Ok(q) && Alone(q)
    ensures AllAlone(q, turns) <==> AllFindFree(q, turns)
    decreases |turns|
  {
    hide Ok, Alone, FindsLockFree, Turned;
    if turns != [] {
      TurnAlone(q, turns[0]);
      if FindsLockFree(q, turns[0]) {
        TurnedOk(q, turns[0]);
        AloneInRun(Turned(q, turns[0]), turns[1..]);
      } else {
        NotAlone(Turned(q, turns[0]), turns[1..]);
      }
    }
  }

  lemma NotAlone(q: Queue, turns: seq<Turn>)
    requires !Alone(q)
    ensures !AllAlone(q, turns)
  {
  }

  /** One reader and one writer can both sleep for good, on an empty queue: the reader waits; the writer wakes it,
      fills the queue and queues for the lock that the reader still has; the reader goes on, takes everything and
      waits again, before the writer has the lock. */
  method BothAsleep() returns (q: IoQueue)
    ensures fresh(q) && q.Valid() && q.Contents() == []
    ensures q.at == map[0 := Sleeping(Get), 1 := Queued(Put(7))]
    ensures !Alone(Shown(q))
    ensures forall t :: !MayTurn(q.Now(), Go(t))
  {
    hide Held, Length, SyncOk;
    q := new IoQueue();
    var r := q.GetChar(0);
    Fill(q);
    r := q.PutChar(1, 7);
    r := q.GoOn(0);
    Drain(q);
    r := q.GetChar(0);
    r := q.GoOn(1);
  }

  /** 63 bytes of thread 1; the first wakes the reader. */
  method Fill(q: IoQueue)
    requires q.Valid() && q.Contents() == [] && q.Now() == Sync(None, Some(0), Some(0), [], map[0 := Sleeping(Get)])
    modifies q, q.buf
    ensures q.Valid() && |q.Contents()| == BUFSIZE - 1 && q.Now() == Sync(None, None, Some(0), [], map[0 := Woken(Get)])
  {
    hide Held, Length, SyncOk;
    var r := q.PutChar(1, 7);
    var k := 1;
    while k < BUFSIZE - 1
      invariant 1 <= k <= BUFSIZE - 1 && q.Valid() && |q.Contents()| == k
      invariant q.Now() == Sync(None, None, Some(0), [], map[0 := Woken(Get)])
    {
      r := q.PutChar(1, 7);
      k := k + 1;
    }
  }

  /** Thread 0 takes what is there. */
  method Drain(q: IoQueue)
    requires q.Valid() && q.Now() == Sync(None, None, None, [], map[1 := Called(Put(7))])
    modifies q
    ensures q.Valid() && q.Contents() == [] && q.Now() == old(q.Now())
  {
    hide Held, Length, SyncOk;
    var n := q.IoqLength();
    while n > 0
      invariant q.Valid() && |q.Contents()| == n && q.Now() == old(q.Now())
    {
      var r := q.GetChar(0);
      n := n - 1;
    }
  }
}
