/** Progress of the asynchronous logger: the worker delivers what is published, and a refused caller
    gets its message into the queue as soon as neither reason for the refusal holds. */
module LoggerProgress {
  import opened Wrappers
  import opened Slots
  import opened QueueMachine
  import opened QueueInvariant
  import opened QueueFifo
  import opened AsyncLogger

  // ----- steps of one thread -----

  function Solo(t: Tid, n: nat): (r: seq<LogEvent>)
    ensures |r| == n && forall i :: 0 <= i < n ==> r[i] == LogEvent(t, Step(false))
  {
    seq(n, i => LogEvent(t, Step(false)))
  }

  /** The logger after n steps of thread t alone. */
  function Alone(l: Logger, t: Tid, n: nat): (r: Logger)
    requires Shaped(l.q)
    ensures Shaped(r.q)
  {
    LogRun(l, Solo(t, n))
  }

  lemma AloneStep(l: Logger, t: Tid, n: nat)
    requires Shaped(l.q)
    ensures Shaped(LogNext(l, t, Step(false)).q)
    ensures Alone(l, t, 0) == l && Alone(l, t, n + 1) == Alone(LogNext(l, t, Step(false)), t, n)
  {
    hide LogNext;
    LogNextGrows(l, t, Step(false));
    assert Solo(t, n + 1)[1..] == Solo(t, n);
  }

  lemma {:induction false} AloneTwice(l: Logger, t: Tid, m: nat, n: nat)
    requires Shaped(l.q)
    ensures Alone(Alone(l, t, m), t, n) == Alone(l, t, m + n)
    decreases m
  {
    hide LogNext, Alone;
    AloneStep(l, t, 0);
    if m > 0 {
      AloneStep(l, t, m - 1);
      AloneStep(l, t, m - 1 + n);
      AloneTwice(LogNext(l, t, Step(false)), t, m - 1, n);
    }
  }

  /** Only thread t has moved: neither the tickets nor anybody else changed. */
  predicate OnlyMoved(l: Logger, r: Logger, t: Tid) {
    && r.worker == l.worker && r.calls == l.calls && t in l.q.threads && t in r.q.threads
    && r.q.threads == l.q.threads[t := r.q.threads[t]] && |r.q.sequences| == |l.q.sequences|
  }

  lemma OnlyMovedOn(l: Logger, m: Logger, r: Logger, t: Tid)
    requires OnlyMoved(l, m, t) && OnlyMoved(m, r, t)
    ensures OnlyMoved(l, r, t)
  {
  }

  // ----- the worker -----

  /** The next message to deliver has a ticket that the worker holds or that is published. */
  predicate Ready(l: Logger)
    requires Shaped(l.q)
  {
    var k := |l.sink|;
    k < |l.q.put|
    && (l.q.dequeuePos == k + 1 || (l.q.dequeuePos == k && l.q.sequences[Slot(k, |l.q.sequences|)] == k + 1))
  }

  /** How many steps the worker still needs for it. */
  function WorkerDistance(q: State<AsyncMsg>, w: Tid): nat
    requires w in q.threads
  {
    match q.threads[w]
    case DeqReturn(ok, got) => if ok && got.Some? then 1 else 7
    case DeqRelease(_, _) => 2
    case DeqMove(_) => 3
    case DeqCas(pos) => if pos == q.dequeuePos then 4 else 6
    case DeqLoadSeq(pos) => if pos == q.dequeuePos then 5 else 7
    case DeqLoadPos => 6
    case _ => 7
  }

  lemma WorkerCloser(l: Logger)
    requires LogInv(l) && !l.exited && Ready(l) && WorkerDistance(l.q, l.worker) > 1
    ensures var r := LogNext(l, l.worker, Step(false));
      && LogInv(r) && !r.exited && r.sink == l.sink && r.q.put == l.q.put && Ready(r) && OnlyMoved(l, r, l.worker)
      && WorkerDistance(r.q, l.worker) == WorkerDistance(l.q, l.worker) - 1
  {
    LogStepKeeps(l, l.worker, Step(false));
    assert ThreadOk(l.q, l.worker);
    var pc := l.q.threads[l.worker];
    if pc.DeqLoadSeq? && pc.pos < l.q.dequeuePos { TakenDequeueTicket(l.q, pc.pos); }
    hide LogInv, Inv, Window, ThreadOk, CellOk, ProducersOk, Slot, Messages, NoOff;
    CloserMove(l);
  }

  lemma CloserMove(l: Logger)
    requires Shaped(l.q) && l.worker in l.q.threads && l.worker in l.calls && !l.exited && Ready(l)
    requires WorkerDistance(l.q, l.worker) > 1
    requires WorkerAt(l.q.threads[l.worker], l.exited, l.sink, l.q.dequeuePos, l.q.put)
    requires var pc := l.q.threads[l.worker];
      && (pc.Idle? || DequeueSide(pc))
      && (pc.DeqLoadSeq? ==> pc.pos <= l.q.dequeuePos)
      && (pc.DeqLoadSeq? && pc.pos < l.q.dequeuePos ==> l.q.sequences[Slot(pc.pos, |l.q.sequences|)] > pc.pos)
      && (pc.DeqCas? ==> pc.pos <= l.q.dequeuePos)
      && (pc.DeqRelease? ==> pc.got.Some?) && (pc.DeqReturn? && pc.ok ==> pc.got.Some?)
    ensures var r := LogNext(l, l.worker, Step(false));
      && !r.exited && r.sink == l.sink && r.q.put == l.q.put && Shaped(r.q) && Ready(r) && OnlyMoved(l, r, l.worker)
      && WorkerDistance(r.q, l.worker) == WorkerDistance(l.q, l.worker) - 1
  {
    hide Slot, Messages, NoOff;
  }

  lemma HandMove(l: Logger)
    requires Shaped(l.q) && l.worker in l.q.threads && l.worker in l.calls && !l.exited
    requires WorkerDistance(l.q, l.worker) == 1
    requires WorkerAt(l.q.threads[l.worker], l.exited, l.sink, l.q.dequeuePos, l.q.put)
    ensures |l.sink| < |l.q.put|
    ensures var r := LogNext(l, l.worker, Step(false)); var next := l.q.put[|l.sink|].item;
      && r.q.put == l.q.put && OnlyMoved(l, r, l.worker)
      && if next.level.Off? then r.exited && r.sink == l.sink else !r.exited && r.sink == l.sink + [FillLogMsg(next)]
  {
    hide Messages, NoOff;
  }

  lemma WorkerHandsOver(l: Logger)
    requires LogInv(l) && !l.exited && Ready(l) && WorkerDistance(l.q, l.worker) == 1
    ensures var r := LogNext(l, l.worker, Step(false)); var next := l.q.put[|l.sink|].item;
      && LogInv(r) && r.q.put == l.q.put && OnlyMoved(l, r, l.worker)
      && if next.level.Off? then r.exited && r.sink == l.sink else !r.exited && r.sink == l.sink + [FillLogMsg(next)]
  {
    LogStepKeeps(l, l.worker, Step(false));
    hide LogNext, OnlyMoved, WorkerAt, ThreadOk, CellOk;
    HandMove(l);
  }

  /** Left alone for WorkerDistance steps, at most seven, the worker hands the next message to the
      sinks, or exits if it is `off`. */
  lemma {:induction false} WorkerDelivers(l: Logger)
    requires LogInv(l) && !l.exited && Ready(l)
    ensures 1 <= WorkerDistance(l.q, l.worker) <= 7
    ensures var r := Alone(l, l.worker, WorkerDistance(l.q, l.worker)); var next := l.q.put[|l.sink|].item;
      && LogInv(r) && r.q.put == l.q.put && OnlyMoved(l, r, l.worker)
      && if next.level.Off? then r.exited && r.sink == l.sink else !r.exited && r.sink == l.sink + [FillLogMsg(next)]
    decreases WorkerDistance(l.q, l.worker)
  {
    var d := WorkerDistance(l.q, l.worker);
    hide LogInv, LogNext, Alone, WorkerDistance, Ready, OnlyMoved;
    DistanceRange(l.q, l.worker);
    AloneStep(l, l.worker, d - 1);
    var next := LogNext(l, l.worker, Step(false));
    if d > 1 {
      WorkerCloser(l);
      WorkerStays(l, next);
      WorkerDelivers(next);
      OnlyMovedOn(l, next, Alone(next, l.worker, d - 1), l.worker);
    } else {
      WorkerHandsOver(l);
      AloneStep(next, l.worker, 0);
    }
  }

  lemma DistanceRange(q: State<AsyncMsg>, w: Tid)
    requires w in q.threads
    ensures 1 <= WorkerDistance(q, w) <= 7
  {
  }

  lemma WorkerStays(l: Logger, r: Logger)
    requires OnlyMoved(l, r, l.worker)
    ensures r.worker == l.worker
  {
  }

  /** No thread is between winning a ticket and publishing it. */
  predicate AllPublished(l: Logger) {
    forall t :: t in l.q.threads ==> !l.q.threads[t].EnqMove? && !l.q.threads[t].EnqPublish?
  }

  lemma PublishedIsReady(l: Logger)
    requires LogInv(l) && !l.exited && AllPublished(l) && |l.sink| < |l.q.put|
    ensures Ready(l)
  {
    NextDequeueCell(l.q);
  }

  /** The first ticket with an `off`, or the number of tickets. */
  function FirstOff(put: seq<Ticket<AsyncMsg>>): (k: nat)
    ensures k <= |put| && NoOff(put[..k]) && (k < |put| ==> put[k].item.level.Off?)
  {
    if put == [] || put[0].item.level.Off? then 0
    else
      var k := FirstOff(put[1..]);
      assert put[..k + 1] == [put[0]] + put[1..][..k];
      k + 1
  }

  lemma {:induction false} FirstOffAt(put: seq<Ticket<AsyncMsg>>, k: nat)
    requires k < |put| && NoOff(put[..k]) && put[k].item.level.Off?
    ensures FirstOff(put) == k
    decreases k
  {
    if k > 0 {
      assert put[..k][0] == put[0] && put[1..][..k - 1] == put[..k][1..];
      FirstOffAt(put[1..], k - 1);
    }
  }

  lemma AllPublishedStays(l: Logger, r: Logger)
    requires AllPublished(l) && OnlyMoved(l, r, l.worker) && LogInv(r)
    ensures AllPublished(r)
  {
  }

  lemma SinkSoFar(l: Logger)
    requires LogInv(l)
    ensures var k := |l.sink|; k <= |l.q.put| && l.sink == Messages(l.q.put[..k]) && NoOff(l.q.put[..k])
  {
  }

  /** What draining ends with. */
  ghost predicate Drained(l: Logger, r: Logger) {
    var f := FirstOff(l.q.put);
    && LogInv(r) && r.q.put == l.q.put && OnlyMoved(l, r, l.worker)
    && r.sink == Messages(l.q.put[..f]) && (r.exited <==> f < |l.q.put|)
  }

  lemma NothingLeft(l: Logger)
    requires LogInv(l) && !l.exited && |l.sink| == |l.q.put|
    ensures Drained(l, l)
  {
    SinkSoFar(l);
    hide LogInv, Messages, NoOff, FirstOff;
    StayedPut(l);
    AllDelivered(l.q.put);
  }

  lemma OffIsNext(l: Logger)
    requires LogInv(l) && !l.exited && AllPublished(l) && |l.sink| < |l.q.put| && l.q.put[|l.sink|].item.level.Off?
    ensures Drained(l, Alone(l, l.worker, WorkerDistance(l.q, l.worker)))
  {
    SinkSoFar(l);
    PublishedIsReady(l);
    hide LogInv, Alone, WorkerDistance, Ready, AllPublished, Messages, NoOff, FirstOff, OnlyMoved;
    WorkerDelivers(l);
    FirstOffAt(l.q.put, |l.sink|);
  }

  lemma DrainedOn(l: Logger, m: Logger, r: Logger)
    requires OnlyMoved(l, m, l.worker) && m.q.put == l.q.put && Drained(m, r)
    ensures Drained(l, r)
  {
    hide LogInv, Messages, FirstOff, OnlyMoved;
    WorkerStays(l, m);
    OnlyMovedOn(l, m, r, l.worker);
  }

  /** When no producer is in the middle of a call, finitely many steps of the worker deliver every
      ticket before the first `off`, and make it exit if there is one. */
  lemma {:induction false} WorkerDrains(l: Logger) returns (n: nat)
    requires LogInv(l) && !l.exited && AllPublished(l)
    ensures n <= 7 * (|l.q.put| - |l.sink|) && Drained(l, Alone(l, l.worker, n))
    decreases |l.q.put| - |l.sink|
  {
    SinkSoFar(l);
    var k := |l.sink|;
    hide LogInv, Alone, WorkerDistance, Ready, AllPublished, Messages, NoOff, OnlyMoved, LogNext, Drained;
    n := 0;
    if k == |l.q.put| {
      AloneStep(l, l.worker, 0);
      NothingLeft(l);
    } else {
      PublishedIsReady(l);
      WorkerDelivers(l);
      n := WorkerDistance(l.q, l.worker);
      if l.q.put[k].item.level.Off? {
        OffIsNext(l);
      } else {
        var r := Alone(l, l.worker, n);
        AllPublishedStays(l, r);
        WorkerStays(l, r);
        var more := WorkerDrains(r);
        AloneTwice(l, l.worker, n, more);
        DrainedOn(l, r, Alone(r, l.worker, more));
        n := n + more;
      }
    }
  }

  lemma StayedPut(l: Logger)
    requires LogInv(l)
    ensures OnlyMoved(l, l, l.worker)
  {
  }

  lemma AllDelivered(put: seq<Ticket<AsyncMsg>>)
    requires NoOff(put[..|put|])
    ensures FirstOff(put) == |put|
  {
    assert put[..|put|] == put;
  }

  // ----- a caller -----

  /** Neither reason for a refusal holds: not a full lap is out, and the consumer one lap back is done. */
  predicate Room(q: State<AsyncMsg>)
    requires Window(q)
  {
    var n, e := |q.sequences|, q.enqueuePos;
    e >= n ==> q.dequeuePos > e - n && !ConsumerAt(q.threads[q.taken[e - n]], e - n)
  }

  lemma RoomIsFree(q: State<AsyncMsg>)
    requires Inv(q) && Room(q)
    ensures q.sequences[Slot(q.enqueuePos, |q.sequences|)] == q.enqueuePos
  {
    NextEnqueueCell(q);
  }

  /** How many of its own steps a caller without a ticket still needs for one. */
  function CallerDistance(q: State<AsyncMsg>, t: Tid): nat
    requires t in q.threads
  {
    match q.threads[t]
    case EnqCas(_, pos) => if pos == q.enqueuePos then 1 else 3
    case EnqLoadSeq(_, pos) => if pos == q.enqueuePos then 2 else 4
    case EnqLoadPos(_) => 3
    case _ => 4
  }

  /** A call of thread t that has no ticket yet for its message: refused, or on its way. */
  predicate Calling(pc: Pc<AsyncMsg>, item: AsyncMsg) {
    match pc
    case EnqLoadPos(x) => x == item
    case EnqLoadSeq(x, _) => x == item
    case EnqCas(x, _) => x == item
    case EnqReturn(ok, left) => !ok && left == Some(item)
    case _ => false
  }

  lemma CallerMove(l: Logger, t: Tid, item: AsyncMsg)
    requires Shaped(l.q) && t in l.q.threads && t in l.calls && t != l.worker && Calling(l.q.threads[t], item)
    requires var pc := l.q.threads[t];
      && (pc.EnqLoadSeq? || pc.EnqCas? ==> pc.pos <= l.q.enqueuePos)
      && (pc.EnqLoadSeq? ==> l.q.sequences[Slot(pc.pos, |l.q.sequences|)] >= pc.pos)
      && (pc.EnqLoadSeq? && pc.pos == l.q.enqueuePos ==> l.q.sequences[Slot(pc.pos, |l.q.sequences|)] == pc.pos)
    ensures var r := LogNext(l, t, Step(false)); var d := CallerDistance(l.q, t);
      && OnlyMoved(l, r, t) && r.sink == l.sink && r.exited == l.exited && d >= 1
      && r.q.dequeuePos == l.q.dequeuePos && r.q.taken == l.q.taken
      && if d == 1 then
           r.q.put == l.q.put + [Ticket(t, item)] && r.q.threads[t] == EnqMove(item, l.q.enqueuePos)
         else
           r.q.put == l.q.put && r.q.enqueuePos == l.q.enqueuePos && Calling(r.q.threads[t], item) && CallerDistance(r.q, t) == d - 1
  {
    hide Slot;
  }

  lemma CallerStep(l: Logger, t: Tid, item: AsyncMsg)
    requires LogInv(l) && t in l.q.threads && t != l.worker && Calling(l.q.threads[t], item) && Room(l.q)
    ensures var r := LogNext(l, t, Step(false)); var d := CallerDistance(l.q, t);
      && LogInv(r) && OnlyMoved(l, r, t) && r.sink == l.sink && r.exited == l.exited && d >= 1
      && if d == 1 then
           r.q.put == l.q.put + [Ticket(t, item)] && r.q.threads[t] == EnqMove(item, l.q.enqueuePos)
         else
           r.q.put == l.q.put && Calling(r.q.threads[t], item) && CallerDistance(r.q, t) == d - 1 && Room(r.q)
  {
    LogStepKeeps(l, t, Step(false));
    assert ThreadOk(l.q, t);
    RoomIsFree(l.q);
    var pc := l.q.threads[t];
    if pc.EnqLoadSeq? && pc.pos < l.q.enqueuePos { TakenEnqueueTicket(l.q, pc.pos); }
    hide Slot, CellOk, ThreadOk, LogNext, ProducersOk, WorkerAt;
    CallerMove(l, t, item);
    if CallerDistance(l.q, t) > 1 { RoomStays(l, LogNext(l, t, Step(false)), t, item); }
  }

  lemma RoomStays(l: Logger, r: Logger, t: Tid, item: AsyncMsg)
    requires Window(l.q) && Window(r.q) && Room(l.q) && OnlyMoved(l, r, t) && r.q.enqueuePos == l.q.enqueuePos
    requires r.q.dequeuePos == l.q.dequeuePos && r.q.taken == l.q.taken && Calling(r.q.threads[t], item)
    ensures Room(r.q)
  {
  }

  /** Left alone for CallerDistance steps, at most four, a caller that was refused, or has not tried
      yet, wins the next ticket for its own message. */
  lemma {:induction false} CallerWins(l: Logger, t: Tid, item: AsyncMsg)
    requires LogInv(l) && t in l.q.threads && t != l.worker && Calling(l.q.threads[t], item) && Room(l.q)
    ensures 1 <= CallerDistance(l.q, t) <= 4
    ensures var r := Alone(l, t, CallerDistance(l.q, t));
      && LogInv(r) && OnlyMoved(l, r, t) && r.sink == l.sink && r.exited == l.exited
      && r.q.put == l.q.put + [Ticket(t, item)] && r.q.threads[t] == EnqMove(item, |l.q.put|)
    decreases CallerDistance(l.q, t)
  {
    TicketsSoFar(l);
    hide LogInv, LogNext, Alone, Room, OnlyMoved, Calling, CallerDistance, Window;
    var d := CallerDistance(l.q, t);
    CallerRange(l.q, t);
    CallerStep(l, t, item);
    AloneStep(l, t, d - 1);
    var next := LogNext(l, t, Step(false));
    if d > 1 {
      MovedThere(l, next, t);
      TicketsSoFar(next);
      CallerWins(next, t, item);
      OnlyMovedOn(l, next, Alone(next, t, d - 1), t);
    } else {
      AloneStep(next, t, 0);
    }
  }

  lemma CallerRange(q: State<AsyncMsg>, t: Tid)
    requires t in q.threads
    ensures 1 <= CallerDistance(q, t) <= 4
  {
  }

  lemma TicketsSoFar(l: Logger)
    requires LogInv(l)
    ensures Shaped(l.q) && Window(l.q) && l.q.enqueuePos == |l.q.put|
  {
  }

  lemma MovedThere(l: Logger, r: Logger, t: Tid)
    requires OnlyMoved(l, r, t)
    ensures t in r.q.threads && r.worker == l.worker
  {
  }

  /** Two more steps and its call has returned with success. */
  lemma CallerPublishes(l: Logger, t: Tid)
    requires LogInv(l) && t in l.q.threads && t != l.worker && l.q.threads[t].EnqMove?
    ensures var r := Alone(l, t, 2);
      && LogInv(r) && OnlyMoved(l, r, t) && r.sink == l.sink && r.exited == l.exited
      && r.q.put == l.q.put && r.q.threads[t] == EnqReturn(true, None)
  {
    var a := LogNext(l, t, Step(false));
    hide LogInv, LogNext, Alone, OnlyMoved, LogRun, Solo, Window;
    PublishStep(l, t);
    MovedThere(l, a, t);
    PublishStep(a, t);
    OnlyMovedOn(l, a, LogNext(a, t, Step(false)), t);
    TicketsSoFar(l);
    TwoAlone(l, t);
  }

  lemma TwoAlone(l: Logger, t: Tid)
    requires Shaped(l.q)
    ensures Shaped(LogNext(l, t, Step(false)).q)
    ensures Alone(l, t, 2) == LogNext(LogNext(l, t, Step(false)), t, Step(false))
  {
    hide LogNext, Alone, Shaped;
    var one: nat := 1;
    AloneStep(l, t, one);
    var a := LogNext(l, t, Step(false));
    AloneStep(a, t, one - 1);
    AloneStep(LogNext(a, t, Step(false)), t, one - 1);
  }

  lemma PublishStep(l: Logger, t: Tid)
    requires LogInv(l) && t in l.q.threads && t != l.worker
    requires l.q.threads[t].EnqMove? || l.q.threads[t].EnqPublish?
    ensures var r := LogNext(l, t, Step(false));
      && LogInv(r) && OnlyMoved(l, r, t) && r.sink == l.sink && r.exited == l.exited && r.q.put == l.q.put
      && if l.q.threads[t].EnqMove? then r.q.threads[t].EnqPublish? else r.q.threads[t] == EnqReturn(true, None)
  {
    LogStepKeeps(l, t, Step(false));
    hide LogNext, OnlyMoved;
    PublishMove(l, t);
  }

  lemma PublishMove(l: Logger, t: Tid)
    requires Shaped(l.q) && t in l.q.threads && t in l.calls && t != l.worker
    requires l.q.threads[t].EnqMove? || l.q.threads[t].EnqPublish?
    ensures var r := LogNext(l, t, Step(false));
      && OnlyMoved(l, r, t) && r.sink == l.sink && r.exited == l.exited && r.q.put == l.q.put
      && if l.q.threads[t].EnqMove? then r.q.threads[t].EnqPublish? else r.q.threads[t] == EnqReturn(true, None)
  {
    hide Slot;
  }

  // ----- a whole call -----

  /** Nobody but the worker is in the middle of a call. */
  predicate AllResting(l: Logger) {
    forall t :: t in l.q.threads && t != l.worker ==> l.q.threads[t].Idle? || (l.q.threads[t].EnqReturn? && l.q.threads[t].ok)
  }

  lemma DrainedHasRoom(l: Logger)
    requires LogInv(l) && !l.exited && AllResting(l) && |l.sink| == |l.q.put|
    ensures Room(l.q)
  {
  }

  lemma {:induction false} LogRunSplit(l: Logger, a: seq<LogEvent>, b: seq<LogEvent>)
    requires Shaped(l.q)
    ensures LogRun(l, a + b) == LogRun(LogRun(l, a), b)
    decreases |a|
  {
    hide LogNext;
    if a == [] {
      assert a + b == b;
    } else {
      assert (a + b)[1..] == a[1..] + b;
      LogNextGrows(l, a[0].t, a[0].a);
      LogRunSplit(LogNext(l, a[0].t, a[0].a), a[1..], b);
    }
  }

  lemma RestingPublished(l: Logger)
    requires LogInv(l) && AllResting(l)
    ensures AllPublished(l)
  {
  }

  lemma RestingStays(l: Logger, r: Logger)
    requires AllResting(l) && OnlyMoved(l, r, l.worker)
    ensures AllResting(r)
  {
  }

  lemma StartMove(l: Logger, t: Tid, msg: LogMsg)
    requires Shaped(l.q) && t in l.q.threads && t in l.calls && t != l.worker
    requires l.q.threads[t].Idle? || (l.q.threads[t].EnqReturn? && l.q.threads[t].ok)
    ensures LogNext(l, t, Log(msg)) == l.(
      q := l.q.(threads := l.q.threads[t := EnqLoadPos(ToAsync(msg))]), calls := l.calls[t := l.calls[t] + [msg]])
  {
  }

  /** The call begins. */
  lemma CallStarted(l: Logger, t: Tid, msg: LogMsg)
    requires LogInv(l) && AllResting(l) && Room(l.q) && t in l.q.threads && t != l.worker
    ensures var r := LogNext(l, t, Log(msg));
      && LogInv(r) && r == l.(q := l.q.(threads := l.q.threads[t := EnqLoadPos(ToAsync(msg))]), calls := l.calls[t := l.calls[t] + [msg]])
      && Room(r.q) && CallerDistance(r.q, t) == 3
  {
    LogStepKeeps(l, t, Log(msg));
    hide LogNext, ToAsync, CellOk, ThreadOk, WorkerAt;
    StartMove(l, t, msg);
    hide Window;
    RoomStarted(l.q, LogNext(l, t, Log(msg)).q, t);
  }

  lemma RoomStarted(q: State<AsyncMsg>, r: State<AsyncMsg>, t: Tid)
    requires Window(q) && Window(r) && Room(q) && t in q.threads && t in r.threads && !DequeueSide(r.threads[t])
    requires r == q.(threads := q.threads[t := r.threads[t]])
    ensures Room(r)
  {
  }

  lemma RestingAgain(l: Logger, s: Logger, r: Logger, t: Tid)
    requires AllResting(l) && t in l.q.threads && t in s.q.threads && s.worker == l.worker
    requires s.q.threads == l.q.threads[t := s.q.threads[t]]
    requires OnlyMoved(s, r, t) && r.q.threads[t] == EnqReturn(true, None)
    ensures AllResting(r) && r.worker == l.worker && r.calls == s.calls
  {
  }

  lemma OneMessageMore(put: seq<Ticket<AsyncMsg>>, t: Tid, msg: LogMsg)
    requires NoOff(put)
    ensures var more := put + [Ticket(t, ToAsync(msg))]; var f := FirstOff(more);
      && Messages(more[..f]) == Messages(put) + (if msg.level.Off? then [] else [msg])
      && (f < |more| <==> msg.level.Off?)
  {
    var more := put + [Ticket(t, ToAsync(msg))];
    if msg.level.Off? {
      assert more[..|put|] == put;
      FirstOffAt(more, |put|);
    } else {
      assert more[..|more|] == more;
      AllDelivered(more);
    }
  }

  /** The caller's part: from the beginning of the call to its return. */
  lemma CallReturns(l: Logger, t: Tid, msg: LogMsg)
    requires LogInv(l) && AllResting(l) && Room(l.q) && t in l.q.threads && t != l.worker
    ensures Shaped(LogNext(l, t, Log(msg)).q)
    ensures var r := Alone(LogNext(l, t, Log(msg)), t, 5);
      && LogInv(r) && AllResting(r) && r.worker == l.worker && r.sink == l.sink && r.exited == l.exited
      && r.q.put == l.q.put + [Ticket(t, ToAsync(msg))] && r.calls == l.calls[t := l.calls[t] + [msg]]
  {
    var s := LogNext(l, t, Log(msg));
    CallStarted(l, t, msg);
    hide LogNext, Alone, Room, CallerDistance, LogInv, ToAsync, AllResting, OnlyMoved, Window;
    TicketsSoFar(s);
    CallerWins(s, t, ToAsync(msg));
    var won := Alone(s, t, 3);
    MovedThere(s, won, t);
    CallerPublishes(won, t);
    AloneTwice(s, t, 3, 2);
    OnlyMovedOn(s, won, Alone(won, t, 2), t);
    MovedThere(won, Alone(won, t, 2), t);
    RestingAgain(l, s, Alone(won, t, 2), t);
  }

  lemma SoloOf(l: Logger, t: Tid, n: nat)
    requires Shaped(l.q)
    ensures LogRun(l, Solo(t, n)) == Alone(l, t, n)
  {
  }

  lemma OneEvent(l: Logger, e: LogEvent)
    requires Shaped(l.q)
    ensures LogRun(l, [e]) == LogNext(l, e.t, e.a)
  {
    hide LogNext;
    LogNextGrows(l, e.t, e.a);
    assert [e][1..] == [];
    assert LogRun(LogNext(l, e.t, e.a), []) == LogNext(l, e.t, e.a);
  }

  /** The schedule of a whole delivery. */
  lemma InTurn(l: Logger, t: Tid, msg: LogMsg, n1: nat, n2: nat)
    requires Shaped(l.q)
    ensures Shaped(LogNext(Alone(l, l.worker, n1), t, Log(msg)).q)
    ensures LogRun(l, Solo(l.worker, n1) + ([LogEvent(t, Log(msg))] + (Solo(t, 5) + Solo(l.worker, n2))))
      == Alone(Alone(LogNext(Alone(l, l.worker, n1), t, Log(msg)), t, 5), l.worker, n2)
  {
    AloneStep(l, l.worker, 0);
    hide LogNext, Alone, Solo;
    var w := l.worker;
    var a := Alone(l, w, n1);
    LogNextGrows(a, t, Log(msg));
    var b := LogNext(a, t, Log(msg));
    SoloOf(l, l.worker, n1);
    LogRunSplit(l, Solo(l.worker, n1), [LogEvent(t, Log(msg))] + (Solo(t, 5) + Solo(l.worker, n2)));
    LogRunSplit(a, [LogEvent(t, Log(msg))], Solo(t, 5) + Solo(l.worker, n2));
    OneEvent(a, LogEvent(t, Log(msg)));
    LogRunSplit(b, Solo(t, 5), Solo(l.worker, n2));
    SoloOf(b, t, 5);
    SoloOf(Alone(b, t, 5), l.worker, n2);
  }

  /** Nothing stands in the way of a message: from any state at rest, a schedule of the worker's and
      the caller's steps alone delivers everything put before and then the message, or makes the
      worker exit if it is `off`. */
  lemma CallIsDelivered(l: Logger, t: Tid, msg: LogMsg) returns (schedule: seq<LogEvent>)
    requires LogInv(l) && !l.exited && AllResting(l) && NoOff(l.q.put) && t in l.q.threads && t != l.worker
    ensures forall i :: 0 <= i < |schedule| ==> schedule[i].t == t || schedule[i].t == l.worker
    ensures var r := LogRun(l, schedule);
      && r.q.put == l.q.put + [Ticket(t, ToAsync(msg))] && r.calls == l.calls[t := l.calls[t] + [msg]]
      && r.sink == Messages(l.q.put) + (if msg.level.Off? then [] else [msg]) && (r.exited <==> msg.level.Off?)
  {
    hide LogNext, Alone, LogInv, AllResting, AllPublished, Room, Messages, NoOff;
    TicketsSoFar(l);
    RestingPublished(l);
    var n1 := WorkerDrains(l);
    var a := Alone(l, l.worker, n1);
    AllPut(l.q.put);
    RestingStays(l, a);
    DrainedHasRoom(a);
    CallReturns(a, t, msg);
    var b := Alone(LogNext(a, t, Log(msg)), t, 5);
    RestingPublished(b);
    var n2 := WorkerDrains(b);
    OneMessageMore(l.q.put, t, msg);
    InTurn(l, t, msg, n1, n2);
    schedule := Solo(l.worker, n1) + ([LogEvent(t, Log(msg))] + (Solo(t, 5) + Solo(l.worker, n2)));
  }

  lemma AllPut(put: seq<Ticket<AsyncMsg>>)
    requires NoOff(put)
    ensures FirstOff(put) == |put| && put[..|put|] == put
    ensures |Messages(put)| == |put|
  {
    assert put[..|put|] == put;
    AllDelivered(put);
  }
}
