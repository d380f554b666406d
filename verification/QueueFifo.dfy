/** The queue refines a bounded first-in first-out queue, with the two winning compare-exchanges
    as linearization points, and its "false" returns have an exact meaning. */
module QueueFifo {
  import opened Slots
  import opened QueueMachine
  import opened QueueInvariant

  // ----- the specification: an atomic queue and, per thread, one call in progress -----

  datatype Response<+T> = Accepted | Refused(item: T) | Got(item: T) | Nothing

  datatype Status<+T> =
    | Quiet
    | PendingEnqueue(item: T)
    | PendingDequeue
    | Committed(response: Response<T>)   // took effect, not yet returned
    | Returned(response: Response<T>)

  datatype Fifo<+T> = Fifo(queue: seq<T>, status: map<Tid, Status<T>>)

  /** One atomic step of thread t on a queue of the given capacity.  A call takes effect once,
      between its start and its return, and returns what taking effect gave it.  Refusing needs
      a reason: the queue is full (empty), or another thread's opposite call took effect and has
      not returned. */
  ghost predicate FifoStep<T>(f: Fifo<T>, f': Fifo<T>, t: Tid, capacity: nat) {
    && t in f.status && t in f'.status && f'.status == f.status[t := f'.status[t]]
    && var x, y := f.status[t], f'.status[t];
      || f' == f
      || ((x.Quiet? || x.Returned?) && (y.PendingEnqueue? || y.PendingDequeue?) && f'.queue == f.queue)
      || (x.PendingEnqueue? && y == Committed(Accepted) && |f.queue| < capacity && f'.queue == f.queue + [x.item])
      || (x.PendingDequeue? && f.queue != [] && y == Committed(Got(f.queue[0])) && f'.queue == f.queue[1..])
      || (x.PendingEnqueue? && y == Returned(Refused(x.item)) && f'.queue == f.queue
          && (|f.queue| == capacity || exists u :: u != t && u in f.status && f.status[u].Committed? && f.status[u].response.Got?))
      || (x.PendingDequeue? && y == Returned(Nothing) && f'.queue == f.queue
          && (f.queue == [] || exists u :: u != t && u in f.status && f.status[u] == Committed(Accepted)))
      || (x.Committed? && y == Returned(x.response) && f'.queue == f.queue)
  }

  // ----- the abstraction -----

  function Items<T>(put: seq<Ticket<T>>): (r: seq<T>)
    ensures |r| == |put|
  {
    seq(|put|, i requires 0 <= i < |put| => put[i].item)
  }

  function StatusOf<T>(pc: Pc<T>, put: seq<Ticket<T>>): Status<T> {
    match pc
    case Idle => Quiet
    case EnqLoadPos(item) => PendingEnqueue(item)
    case EnqLoadSeq(item, _) => PendingEnqueue(item)
    case EnqCas(item, _) => PendingEnqueue(item)
    case EnqMove(_, _) => Committed(Accepted)
    case EnqPublish(_) => Committed(Accepted)
    case EnqReturn(ok, left) => if ok || left.None? then Returned(Accepted) else Returned(Refused(left.value))
    case DeqLoadPos => PendingDequeue
    case DeqLoadSeq(_) => PendingDequeue
    case DeqCas(_) => PendingDequeue
    case DeqMove(pos) => if pos < |put| then Committed(Got(put[pos].item)) else Committed(Nothing)
    case DeqRelease(_, got) => if got.Some? then Committed(Got(got.value)) else Committed(Nothing)
    case DeqReturn(ok, got) => if ok && got.Some? then Returned(Got(got.value)) else Returned(Nothing)
  }

  function Abs<T>(s: State<T>): Fifo<T>
    requires s.dequeuePos <= |s.put|
  {
    Fifo(Items(s.put)[s.dequeuePos..], map t | t in s.threads :: StatusOf(s.threads[t], s.put))
  }

  // ----- what "false" means -----

  /** Enqueue sees a sequence behind its position exactly when its position is current and either
      N tickets are outstanding or the consumer of the ticket one lap back is still in flight. */
  lemma EnqueueRefusal<T>(s: State<T>, t: Tid)
    requires Inv(s) && t in s.threads && s.threads[t].EnqLoadSeq?
    ensures var n, e, pos := |s.sequences|, s.enqueuePos, s.threads[t].pos;
      s.sequences[Slot(pos, n)] < pos <==>
        pos == e >= n
        && (s.dequeuePos == e - n || (s.dequeuePos > e - n && ConsumerAt(s.threads[s.taken[e - n]], e - n)))
  {
    var n, e, pos := |s.sequences|, s.enqueuePos, s.threads[t].pos;
    assert ThreadOk(s, t);
    if pos < e {
      TakenEnqueueTicket(s, pos);
    } else {
      NextEnqueueCell(s);
      if e >= n && s.dequeuePos == e - n { NextDequeueCell(s); }
      if e >= n && s.dequeuePos > e - n && ConsumerAt(s.threads[s.taken[e - n]], e - n) {
        assert ThreadOk(s, s.taken[e - n]);
      }
      assert e >= n ==> Slot(e, n) == Slot(e - n, n);
    }
  }

  /** Dequeue's counterpart: its position is current and either the queue is empty or the producer
      of that ticket is still in flight. */
  lemma DequeueRefusal<T>(s: State<T>, t: Tid)
    requires Inv(s) && t in s.threads && s.threads[t].DeqLoadSeq?
    ensures var n, d, pos := |s.sequences|, s.dequeuePos, s.threads[t].pos;
      s.sequences[Slot(pos, n)] < pos + 1 <==>
        pos == d && (d == s.enqueuePos || (d < s.enqueuePos && ProducerAt(s.threads[s.put[d].owner], d)))
  {
    var n, d, pos := |s.sequences|, s.dequeuePos, s.threads[t].pos;
    assert ThreadOk(s, t);
    if pos < d {
      TakenDequeueTicket(s, pos);
    } else {
      NextDequeueCell(s);
      if d < s.enqueuePos && ProducerAt(s.threads[s.put[d].owner], d) {
        assert ThreadOk(s, s.put[d].owner);
      }
    }
  }

  /** A cell never falls behind a ticket that was handed out. */
  lemma TakenEnqueueTicket<T>(s: State<T>, p: nat)
    requires Inv(s) && p < s.enqueuePos
    ensures s.sequences[Slot(p, |s.sequences|)] >= p
  {
    var n, q := |s.sequences|, s.sequences[Slot(p, |s.sequences|)];
    assert CellOk(s, Slot(p, n));
    if q < p {
      if FreeCell(s, Slot(p, n), q) {
        SameCellSameTicket(q, p, n);
      } else {
        SameCellSameTicket(q - 1, p, n);
      }
    }
  }

  lemma TakenDequeueTicket<T>(s: State<T>, p: nat)
    requires Inv(s) && p < s.dequeuePos
    ensures s.sequences[Slot(p, |s.sequences|)] > p
  {
    var n, q := |s.sequences|, s.sequences[Slot(p, |s.sequences|)];
    assert CellOk(s, Slot(p, n));
    TakenEnqueueTicket(s, p);
    if q == p {
      if p >= 1 { NextTicketNextCell(p - 1, n); }
    }
  }

  /** With no other call in progress, "false" is exactly "full" and exactly "empty". */
  lemma QuietRefusal<T>(s: State<T>, t: Tid)
    requires Inv(s) && t in s.threads
    requires forall u :: u in s.threads && u != t ==> Resting(s.threads[u])
    ensures s.threads[t].EnqLoadSeq? ==>
      (TickStep(s, t, false).threads[t].EnqReturn? <==>
        s.threads[t].pos == s.enqueuePos && |Abs(s).queue| == |s.sequences|)
    ensures s.threads[t].DeqLoadSeq? ==>
      (TickStep(s, t, false).threads[t].DeqReturn? <==>
        s.threads[t].pos == s.dequeuePos && Abs(s).queue == [])
  {
    if s.threads[t].EnqLoadSeq? { EnqueueRefusal(s, t); }
    if s.threads[t].DeqLoadSeq? { DequeueRefusal(s, t); }
  }

  /** A cell's sequence number only moves p, p + 1, p + N. */
  lemma SequenceCycle<T>(s: State<T>, t: Tid, a: Action<T>, c: nat)
    requires Inv(s) && c < |s.sequences|
    ensures var n, q, q' := |s.sequences|, s.sequences[c], Next(s, t, a).sequences[c];
      || q' == q
      || (q' == q + 1 && Slot(q, n) == c)
      || (q >= 1 && q' == q - 1 + n && Slot(q - 1, n) == c)
  {
    if t in s.threads {
      assert ThreadOk(s, t);
    }
  }

  // ----- refinement -----

  lemma StatusStable<T>(s: State<T>, u: Tid, put': seq<Ticket<T>>)
    requires Inv(s) && u in s.threads && s.put <= put'
    ensures StatusOf(s.threads[u], put') == StatusOf(s.threads[u], s.put)
  {
    assert ThreadOk(s, u);
  }

  /** Only thread t's status moves. */
  lemma OthersStable<T>(s: State<T>, s': State<T>, t: Tid)
    requires Inv(s) && t in s.threads && s.put <= s'.put && s'.dequeuePos <= |s'.put|
    requires t in s'.threads && s'.threads == s.threads[t := s'.threads[t]]
    ensures Abs(s').status == Abs(s).status[t := StatusOf(s'.threads[t], s'.put)]
  {
    forall u | u in s.threads && u != t
      ensures Abs(s').status[u] == Abs(s).status[u]
    {
      StatusStable(s, u, s'.put);
    }
  }

  lemma RefineEnqueueWin<T>(s: State<T>, t: Tid)
    requires Inv(s) && t in s.threads && s.threads[t].EnqCas? && s.threads[t].pos == s.enqueuePos
    ensures FifoStep(Abs(s), Abs(TickStep(s, t, false)), t, |s.sequences|)
  {
    var s' := TickStep(s, t, false);
    assert ThreadOk(s, t);
    NextEnqueueCell(s);
    OthersStable(s, s', t);
    assert Abs(s').queue == Abs(s).queue + [s.threads[t].item];
  }

  lemma RefineDequeueWin<T>(s: State<T>, t: Tid)
    requires Inv(s) && t in s.threads && s.threads[t].DeqCas? && s.threads[t].pos == s.dequeuePos
    ensures TickStep(s, t, false).dequeuePos <= |s.put|
    ensures FifoStep(Abs(s), Abs(TickStep(s, t, false)), t, |s.sequences|)
  {
    var s' := TickStep(s, t, false);
    assert ThreadOk(s, t);
    NextDequeueCell(s);
    OthersStable(s, s', t);
    assert Abs(s').queue == Abs(s).queue[1..];
  }

  /** Loading a sequence number touches t's program counter only; a refusal shows in its status. */
  lemma LoadStatus<T>(s: State<T>, t: Tid, weak: bool)
    requires Inv(s) && t in s.threads && (s.threads[t].EnqLoadSeq? || s.threads[t].DeqLoadSeq?)
    ensures var s' := TickStep(s, t, weak); var q := s.sequences[Slot(s.threads[t].pos, |s.sequences|)];
      && s'.put == s.put && s'.dequeuePos == s.dequeuePos && t in s'.threads
      && s'.threads == s.threads[t := s'.threads[t]]
      && var x, y := StatusOf(s.threads[t], s.put), StatusOf(s'.threads[t], s.put);
         if s.threads[t].EnqLoadSeq? then
           x == PendingEnqueue(s.threads[t].item) && (if q < s.threads[t].pos then y == Returned(Refused(x.item)) else y == x)
         else
           x == PendingDequeue && (if q < s.threads[t].pos + 1 then y == Returned(Nothing) else y == x)
  {
  }

  lemma ConsumerStatus<T>(s: State<T>, p: nat)
    requires Inv(s) && p < |s.taken| && ConsumerAt(s.threads[s.taken[p]], p)
    ensures var x := StatusOf(s.threads[s.taken[p]], s.put); x.Committed? && x.response.Got?
  {
    assert ThreadOk(s, s.taken[p]);
  }

  lemma ProducerStatus<T>(s: State<T>, p: nat)
    requires Inv(s) && p < |s.put| && ProducerAt(s.threads[s.put[p].owner], p)
    ensures StatusOf(s.threads[s.put[p].owner], s.put) == Committed(Accepted)
  {
  }

  lemma RefineEnqueueLoad<T>(s: State<T>, t: Tid, weak: bool)
    requires Inv(s) && t in s.threads && s.threads[t].EnqLoadSeq?
    ensures FifoStep(Abs(s), Abs(TickStep(s, t, weak)), t, |s.sequences|)
  {
    hide TickStep, StatusOf;
    var s' := TickStep(s, t, weak);
    var e := s.threads[t].pos - |s.sequences|;
    LoadStatus(s, t, weak);
    OthersStable(s, s', t);
    EnqueueRefusal(s, t);
    assert Abs(s').queue == Abs(s).queue;
    if s.sequences[Slot(s.threads[t].pos, |s.sequences|)] >= s.threads[t].pos {
      assert Abs(s').status == Abs(s).status;
    } else if s.dequeuePos > e {
      ConsumerStatus(s, e);
      assert Abs(s).status[s.taken[e]].Committed?;
    } else {
      assert |Abs(s).queue| == |s.sequences|;
    }
  }

  lemma RefineDequeueLoad<T>(s: State<T>, t: Tid, weak: bool)
    requires Inv(s) && t in s.threads && s.threads[t].DeqLoadSeq?
    ensures FifoStep(Abs(s), Abs(TickStep(s, t, weak)), t, |s.sequences|)
  {
    hide TickStep, StatusOf;
    var s' := TickStep(s, t, weak);
    var d := s.threads[t].pos;
    LoadStatus(s, t, weak);
    OthersStable(s, s', t);
    DequeueRefusal(s, t);
    assert Abs(s').queue == Abs(s).queue;
    if s.sequences[Slot(d, |s.sequences|)] >= d + 1 {
      assert Abs(s').status == Abs(s).status;
    } else if d < s.enqueuePos {
      ProducerStatus(s, d);
      assert Abs(s).status[s.put[d].owner] == Committed(Accepted);
    } else {
      assert Abs(s).queue == [];
    }
  }

  lemma SilentStatus<T>(s: State<T>, t: Tid, weak: bool)
    requires Inv(s) && t in s.threads && !s.threads[t].EnqLoadSeq? && !s.threads[t].DeqLoadSeq?
    requires s.threads[t].EnqCas? ==> s.threads[t].pos != s.enqueuePos || weak
    requires s.threads[t].DeqCas? ==> s.threads[t].pos != s.dequeuePos || weak
    ensures var s' := TickStep(s, t, weak);
      && s'.put == s.put && s'.dequeuePos == s.dequeuePos && t in s'.threads
      && s'.threads == s.threads[t := s'.threads[t]]
      && var x, y := StatusOf(s.threads[t], s.put), StatusOf(s'.threads[t], s.put);
         y == x || (x.Committed? && y == Returned(x.response))
  {
    assert ThreadOk(s, t);
  }

  /** Every other step returns from a call that took effect, or is invisible. */
  lemma RefineSilent<T>(s: State<T>, t: Tid, weak: bool)
    requires Inv(s) && t in s.threads && !s.threads[t].EnqLoadSeq? && !s.threads[t].DeqLoadSeq?
    requires s.threads[t].EnqCas? ==> s.threads[t].pos != s.enqueuePos || weak
    requires s.threads[t].DeqCas? ==> s.threads[t].pos != s.dequeuePos || weak
    ensures TickStep(s, t, weak).dequeuePos <= |s.put| == |TickStep(s, t, weak).put|
    ensures FifoStep(Abs(s), Abs(TickStep(s, t, weak)), t, |s.sequences|)
  {
    hide TickStep, StatusOf;
    var s' := TickStep(s, t, weak);
    SilentStatus(s, t, weak);
    OthersStable(s, s', t);
    assert Abs(s').queue == Abs(s).queue;
    if StatusOf(s'.threads[t], s.put) == StatusOf(s.threads[t], s.put) {
      assert Abs(s').status == Abs(s).status;
    }
  }

  /** Every step of the machine is a step of the specification. */
  lemma StepRefines<T>(s: State<T>, t: Tid, a: Action<T>)
    requires Inv(s) && t in s.threads
    ensures Next(s, t, a).dequeuePos <= |Next(s, t, a).put|
    ensures FifoStep(Abs(s), Abs(Next(s, t, a)), t, |s.sequences|)
  {
    StepInv(s, t, a);
    assert Next(s, t, a).dequeuePos <= |Next(s, t, a).put|;
    hide Inv, TickStep;
    match a
    case StartEnqueue(_) => OthersStable(s, Next(s, t, a), t);
    case StartDequeue => OthersStable(s, Next(s, t, a), t);
    case Tick(weak) =>
      hide FifoStep, StatusOf;
      var pc := s.threads[t];
      if pc.EnqLoadSeq? { RefineEnqueueLoad(s, t, weak); }
      else if pc.DeqLoadSeq? { RefineDequeueLoad(s, t, weak); }
      else if pc.EnqCas? && pc.pos == s.enqueuePos && !weak { RefineEnqueueWin(s, t); }
      else if pc.DeqCas? && pc.pos == s.dequeuePos && !weak { RefineDequeueWin(s, t); }
      else { RefineSilent(s, t, weak); }
  }

  lemma {:induction false} RunSplit<T>(s: State<T>, a: seq<Event<T>>, b: seq<Event<T>>)
    requires Shaped(s)
    ensures Run(s, a + b) == Run(Run(s, a), b)
    decreases |a|
  {
    if a == [] {
      assert a + b == b;
    } else {
      assert (a + b)[1..] == a[1..] + b;
      RunSplit(Next(s, a[0].t, a[0].a), a[1..], b);
    }
  }

  /** Linearizability: along every schedule of existing threads, step k of the machine is a step
      of the atomic queue taken by the same thread. */
  lemma RunRefines<T>(n: nat, tids: set<Tid>, schedule: seq<Event<T>>, k: nat)
    requires n >= 2 && k < |schedule| && schedule[k].t in tids
    ensures var s, s' := Run(Init(n, tids), schedule[..k]), Run(Init(n, tids), schedule[..k + 1]);
      && s.dequeuePos <= |s.put| && s'.dequeuePos <= |s'.put|
      && FifoStep(Abs(s), Abs(s'), schedule[k].t, n)
  {
    var s0 := Init<T>(n, tids);
    InitInv<T>(n, tids);
    RunInv(s0, schedule[..k]);
    var s := Run(s0, schedule[..k]);
    assert schedule[..k + 1] == schedule[..k] + [schedule[k]];
    RunSplit(s0, schedule[..k], [schedule[k]]);
    StepRefines(s, schedule[k].t, schedule[k].a);
    assert Run(s, [schedule[k]]) == Next(s, schedule[k].t, schedule[k].a);
  }
}
