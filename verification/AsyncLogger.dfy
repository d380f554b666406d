/** The asynchronous logger on top of the queue: any number of threads call `log`, retrying until
    the queue accepts (the block_retry policy), and one worker thread takes messages out and
    hands them to the sinks until it meets a message of level `off`. */
module AsyncLogger {
  import opened Wrappers
  import opened QueueMachine
  import opened QueueInvariant

  datatype Level = Trace | Debug | Info | Notice | Warning | Error | Critical | Alert | Emerg | Off

  datatype LogMsg = LogMsg(loggerName: string, level: Level, time: int, threadId: nat, raw: string)

  /** What travels through the queue. */
  datatype AsyncMsg = AsyncMsg(loggerName: string, level: Level, time: int, threadId: nat, txt: string)

  function ToAsync(m: LogMsg): AsyncMsg {
    AsyncMsg(m.loggerName, m.level, m.time, m.threadId, m.raw)
  }

  function FillLogMsg(m: AsyncMsg): LogMsg {
    LogMsg(m.loggerName, m.level, m.time, m.threadId, m.txt)
  }

  /** `calls` is history: the messages of every `log` call a thread has begun, in order. */
  datatype Logger = Logger(
    q: State<AsyncMsg>,
    worker: Tid,
    exited: bool,
    sink: seq<LogMsg>,
    calls: map<Tid, seq<LogMsg>>)

  datatype LogAction = Log(msg: LogMsg) | Step(weakFailure: bool)

  function InitLogger(n: nat, tids: set<Tid>, worker: Tid): Logger {
    Logger(Init(n, tids), worker, false, [], map t | t in tids :: [])
  }

  /** One step of thread t.  A producer begins a call, retries a refused one with the message the
      refusal left in place, or steps inside enqueue.  The worker steps inside dequeue, or handles
      what dequeue returned. */
  function LogNext(l: Logger, t: Tid, a: LogAction): Logger
    requires Shaped(l.q)
  {
    if t !in l.q.threads || t !in l.calls then l
    else if t == l.worker then
      if a.Log? || l.exited then l else WorkerStep(l, a.weakFailure)
    else
      var pc := l.q.threads[t];
      match a
      case Log(msg) =>
        if pc.Idle? || (pc.EnqReturn? && pc.ok) then
          l.(q := Next(l.q, t, StartEnqueue(ToAsync(msg))), calls := l.calls[t := l.calls[t] + [msg]])
        else l
      case Step(weak) =>
        if pc.EnqReturn? && !pc.ok && pc.left.Some? then
          l.(q := Next(l.q, t, StartEnqueue(pc.left.value)))
        else l.(q := Next(l.q, t, Tick(weak)))
  }

  function WorkerStep(l: Logger, weak: bool): Logger
    requires Shaped(l.q) && l.worker in l.q.threads
  {
    match l.q.threads[l.worker]
    case Idle => l.(q := Next(l.q, l.worker, StartDequeue))
    case DeqReturn(ok, got) =>
      if !ok || got.None? then l.(q := Next(l.q, l.worker, StartDequeue))
      else if got.value.level.Off? then l.(exited := true)
      else l.(q := Next(l.q, l.worker, StartDequeue), sink := l.sink + [FillLogMsg(got.value)])
    case _ => l.(q := Next(l.q, l.worker, Tick(weak)))
  }

  // ----- the invariant -----

  predicate DequeueSide(pc: Pc<AsyncMsg>) {
    pc.DeqLoadPos? || pc.DeqLoadSeq? || pc.DeqCas? || pc.DeqMove? || pc.DeqRelease? || pc.DeqReturn?
  }

  function Logged(items: seq<AsyncMsg>): (r: seq<LogMsg>)
    ensures |r| == |items| && forall i :: 0 <= i < |items| ==> r[i] == FillLogMsg(items[i])
  {
    seq(|items|, i requires 0 <= i < |items| => FillLogMsg(items[i]))
  }

  /** The messages of thread t among the tickets, in ticket order. */
  function By(put: seq<Ticket<AsyncMsg>>, t: Tid): seq<LogMsg> {
    Logged(PutBy(put, t))
  }

  function Messages(put: seq<Ticket<AsyncMsg>>): (r: seq<LogMsg>)
    ensures |r| == |put|
  {
    seq(|put|, i requires 0 <= i < |put| => FillLogMsg(put[i].item))
  }

  predicate NoOff(put: seq<Ticket<AsyncMsg>>) {
    forall i :: 0 <= i < |put| ==> !put[i].item.level.Off?
  }

  /** The message of a call that has begun but holds no ticket yet. */
  function Waiting(pc: Pc<AsyncMsg>): seq<LogMsg> {
    match pc
    case EnqLoadPos(item) => [FillLogMsg(item)]
    case EnqLoadSeq(item, _) => [FillLogMsg(item)]
    case EnqCas(item, _) => [FillLogMsg(item)]
    case EnqReturn(ok, left) => if !ok && left.Some? then [FillLogMsg(left.value)] else []
    case _ => []
  }

  /** Where the worker is, compared with what it delivered. */
  predicate WorkerAt(pc: Pc<AsyncMsg>, exited: bool, sink: seq<LogMsg>, taken: nat, put: seq<Ticket<AsyncMsg>>) {
    var k := |sink|;
    && k <= taken <= |put|
    && sink == Messages(put[..k]) && NoOff(put[..k])
    && (if pc.DeqMove? || pc.DeqRelease? then
          !exited && pc.pos == k && taken == k + 1
        else if pc.DeqReturn? && pc.ok then
          taken == k + 1 && pc.got == Some(put[k].item) && (exited ==> put[k].item.level.Off?)
        else
          !exited && taken == k)
  }

  /** Every message a producer began to log holds a ticket, except the one it is still trying
      to put. */
  ghost predicate ProducersOk(l: Logger) {
    && l.calls.Keys == l.q.threads.Keys
    && forall t :: t in l.q.threads && t != l.worker ==>
         !DequeueSide(l.q.threads[t]) && l.calls[t] == By(l.q.put, t) + Waiting(l.q.threads[t])
  }

  ghost predicate LogInv(l: Logger) {
    && Inv(l.q) && l.worker in l.q.threads
    && (l.q.threads[l.worker].Idle? || DequeueSide(l.q.threads[l.worker]))
    && ProducersOk(l)
    && WorkerAt(l.q.threads[l.worker], l.exited, l.sink, l.q.dequeuePos, l.q.put)
  }

  lemma InitLogInv(n: nat, tids: set<Tid>, worker: Tid)
    requires n >= 2 && worker in tids
    ensures LogInv(InitLogger(n, tids, worker))
  {
    InitInv<AsyncMsg>(n, tids);
  }

  lemma ByAppend(put: seq<Ticket<AsyncMsg>>, x: Ticket<AsyncMsg>, t: Tid)
    ensures By(put + [x], t) == By(put, t) + (if x.owner == t then [FillLogMsg(x.item)] else [])
  {
    PutMore(put, x, t);
    hide PutBy;
  }

  /** What one queue step of the worker changes. */
  lemma DequeueSideStep(q: State<AsyncMsg>, w: Tid, a: Action<AsyncMsg>)
    requires Shaped(q) && w in q.threads && (q.threads[w].Idle? || DequeueSide(q.threads[w]))
    requires (a.StartDequeue? && Resting(q.threads[w])) || a.Tick?
    ensures var q' := Next(q, w, a); var pc, pc' := q.threads[w], q'.threads[w];
      && q'.put == q.put && q'.threads == q.threads[w := pc'] && (pc'.Idle? || DequeueSide(pc'))
      && (if pc'.DeqMove? then pc == DeqCas(pc'.pos) && q.dequeuePos == pc'.pos && q'.dequeuePos == pc'.pos + 1
          else q'.dequeuePos == q.dequeuePos)
      && (pc'.DeqRelease? ==> pc == DeqMove(pc'.pos))
      && (pc'.DeqReturn? && pc'.ok ==> pc == pc' || (pc.DeqRelease? && pc.got == pc'.got))
      && (pc.DeqMove? ==> pc'.DeqRelease?) && (pc.DeqRelease? ==> pc'.DeqReturn? && pc'.ok)
      && (pc.DeqReturn? && pc.ok && a.Tick? ==> pc' == pc)
  {
  }

  /** What one queue step of a producer changes. */
  lemma EnqueueSideStep(q: State<AsyncMsg>, t: Tid, a: Action<AsyncMsg>)
    requires Shaped(q) && t in q.threads && !DequeueSide(q.threads[t])
    requires (a.StartEnqueue? && Resting(q.threads[t])) || a.Tick?
    ensures var q' := Next(q, t, a); var pc, pc' := q.threads[t], q'.threads[t];
      && q'.dequeuePos == q.dequeuePos && q'.threads == q.threads[t := pc'] && !DequeueSide(pc')
      && (if q'.put == q.put then Waiting(pc') == (if a.Tick? then Waiting(pc) else [FillLogMsg(a.item)])
          else pc.EnqCas? && q'.put == q.put + [Ticket(t, pc.item)] && Waiting(pc') == [])
  {
  }

  lemma WorkerStepInv(l: Logger, weak: bool)
    requires Inv(l.q) && l.worker in l.q.threads
    ensures Inv(WorkerStep(l, weak).q)
  {
    StepInv(l.q, l.worker, StartDequeue);
    StepInv(l.q, l.worker, Tick(weak));
  }

  /** What the worker knows about the queue. */
  predicate WorkerTicket(q: State<AsyncMsg>, w: Tid)
    requires w in q.threads
  {
    var pc := q.threads[w];
    && q.dequeuePos <= |q.put|
    && (pc.DeqRelease? ==> pc.pos < |q.put| && pc.got == Some(q.put[pc.pos].item))
    && (pc == DeqCas(q.dequeuePos) ==> q.dequeuePos < |q.put|)
  }

  lemma WorkerHoldsTicket(q: State<AsyncMsg>, w: Tid)
    requires Inv(q) && w in q.threads
    ensures WorkerTicket(q, w)
  {
    assert ThreadOk(q, w);
    NextDequeueCell(q);
  }

  /** A delivered message extends the delivered prefix. */
  lemma Delivered(sink: seq<LogMsg>, put: seq<Ticket<AsyncMsg>>)
    requires |sink| < |put| && sink == Messages(put[..|sink|]) && NoOff(put[..|sink|])
    requires !put[|sink|].item.level.Off?
    ensures var s := sink + [FillLogMsg(put[|sink|].item)]; s == Messages(put[..|s|]) && NoOff(put[..|s|])
  {
  }

  lemma WorkerAdvances(l: Logger, weak: bool)
    requires Shaped(l.q) && l.worker in l.q.threads && !l.exited
    requires l.q.threads[l.worker].Idle? || DequeueSide(l.q.threads[l.worker])
    requires WorkerAt(l.q.threads[l.worker], l.exited, l.sink, l.q.dequeuePos, l.q.put)
    requires WorkerTicket(l.q, l.worker)
    ensures var l' := WorkerStep(l, weak);
      && l'.q.threads.Keys == l.q.threads.Keys
      && (l'.q.threads[l.worker].Idle? || DequeueSide(l'.q.threads[l.worker]))
      && WorkerAt(l'.q.threads[l.worker], l'.exited, l'.sink, l'.q.dequeuePos, l'.q.put)
  {
    var pc := l.q.threads[l.worker];
    if pc.DeqReturn? && pc.ok && pc.got.Some? && !pc.got.value.level.Off? {
      Delivered(l.sink, l.q.put);
    }
    DequeueSideStep(l.q, l.worker, if Resting(pc) then StartDequeue else Tick(weak));
  }

  lemma WorkerLeavesProducers(l: Logger, weak: bool)
    requires Shaped(l.q) && l.worker in l.q.threads && ProducersOk(l)
    requires l.q.threads[l.worker].Idle? || DequeueSide(l.q.threads[l.worker])
    ensures ProducersOk(WorkerStep(l, weak))
  {
    var pc := l.q.threads[l.worker];
    DequeueSideStep(l.q, l.worker, if Resting(pc) then StartDequeue else Tick(weak));
  }

  /** The worker's steps. */
  lemma WorkerKeeps(l: Logger, weak: bool)
    requires LogInv(l) && !l.exited
    ensures LogInv(WorkerStep(l, weak))
  {
    WorkerStepInv(l, weak);
    WorkerHoldsTicket(l.q, l.worker);
    WorkerAdvances(l, weak);
    WorkerLeavesProducers(l, weak);
  }

  /** New tickets do not disturb what was delivered. */
  lemma WorkerAtGrows(pc: Pc<AsyncMsg>, exited: bool, sink: seq<LogMsg>, taken: nat,
                      put: seq<Ticket<AsyncMsg>>, put': seq<Ticket<AsyncMsg>>)
    requires WorkerAt(pc, exited, sink, taken, put) && put <= put'
    ensures WorkerAt(pc, exited, sink, taken, put')
  {
    assert put'[..|sink|] == put[..|sink|];
  }

  /** Nothing changes for the producers other than t. */
  predicate OthersUntouched(l: Logger, l': Logger, t: Tid) {
    && l'.worker == l.worker && t in l.q.threads && t != l.worker
    && l'.q.threads.Keys == l.q.threads.Keys == l.calls.Keys == l'.calls.Keys
    && forall u :: u in l.q.threads && u != t ==> l'.q.threads[u] == l.q.threads[u] && l'.calls[u] == l.calls[u]
  }

  lemma ProducersSame(l: Logger, l': Logger, t: Tid)
    requires ProducersOk(l) && OthersUntouched(l, l', t) && l'.q.put == l.q.put
    requires !DequeueSide(l'.q.threads[t]) && l'.calls[t] == By(l.q.put, t) + Waiting(l'.q.threads[t])
    ensures ProducersOk(l')
  {
  }

  lemma ProducersTicket(l: Logger, l': Logger, t: Tid, item: AsyncMsg)
    requires ProducersOk(l) && OthersUntouched(l, l', t) && l'.q.put == l.q.put + [Ticket(t, item)]
    requires !DequeueSide(l'.q.threads[t]) && l'.calls[t] == l.calls[t]
    requires Waiting(l.q.threads[t]) == [FillLogMsg(item)] && Waiting(l'.q.threads[t]) == []
    ensures ProducersOk(l')
  {
    forall u | u in l.q.threads && u != l.worker
      ensures !DequeueSide(l'.q.threads[u]) && l'.calls[u] == By(l'.q.put, u) + Waiting(l'.q.threads[u])
    {
      ByAppend(l.q.put, Ticket(t, item), u);
      assert By(l.q.put, u) + [] == By(l.q.put, u);
      if u == t { assert By(l'.q.put, u) + [] == By(l'.q.put, u); }
    }
  }

  /** A producer's queue step, once its effect on calls is known. */
  predicate ProducerMove(l: Logger, l': Logger, t: Tid, a: Action<AsyncMsg>)
    requires Shaped(l.q)
  {
    && t in l.q.threads && t != l.worker && l.calls.Keys == l.q.threads.Keys
    && ((a.StartEnqueue? && Resting(l.q.threads[t])) || a.Tick?)
    && l' == l.(q := Next(l.q, t, a), calls := l'.calls) && l'.calls.Keys == l.calls.Keys
    && (forall u :: u in l.calls && u != t ==> l'.calls[u] == l.calls[u])
    && l'.calls[t] == if a.Tick? then l.calls[t] else By(l.q.put, t) + [FillLogMsg(a.item)]
  }

  lemma ProducerMoveKeeps(l: Logger, l': Logger, t: Tid, a: Action<AsyncMsg>)
    requires Shaped(l.q) && ProducersOk(l) && ProducerMove(l, l', t, a)
    ensures ProducersOk(l') && l'.q.dequeuePos == l.q.dequeuePos && l.q.put <= l'.q.put
    ensures l.worker in l.q.threads ==> l'.q.threads[l.worker] == l.q.threads[l.worker]
  {
    EnqueueSideStep(l.q, t, a);
    if l'.q.put == l.q.put { ProducersSame(l, l', t); } else { ProducersTicket(l, l', t, l.q.threads[t].item); }
  }

  lemma ProducerQueueStep(l: Logger, l': Logger, t: Tid, a: Action<AsyncMsg>)
    requires LogInv(l) && ProducerMove(l, l', t, a)
    ensures LogInv(l')
  {
    StepInv(l.q, t, a);
    NextGrows(l.q, t, a);
    ProducerMoveKeeps(l, l', t, a);
    WorkerAtGrows(l.q.threads[l.worker], l.exited, l.sink, l.q.dequeuePos, l.q.put, l'.q.put);
  }

  lemma ProducerKeeps(l: Logger, t: Tid, a: LogAction)
    requires LogInv(l) && t in l.q.threads && t != l.worker
    ensures LogInv(LogNext(l, t, a))
  {
    var l' := LogNext(l, t, a);
    var pc := l.q.threads[t];
    match a
    case Log(msg) =>
      if pc.Idle? || (pc.EnqReturn? && pc.ok) {
        ProducerQueueStep(l, l', t, StartEnqueue(ToAsync(msg)));
      }
    case Step(weak) =>
      if pc.EnqReturn? && !pc.ok && pc.left.Some? {
        ProducerQueueStep(l, l', t, StartEnqueue(pc.left.value));
      } else {
        ProducerQueueStep(l, l', t, Tick(weak));
      }
  }

  lemma LogStepKeeps(l: Logger, t: Tid, a: LogAction)
    requires LogInv(l)
    ensures LogInv(LogNext(l, t, a))
  {
    if t in l.q.threads {
      if t != l.worker {
        ProducerKeeps(l, t, a);
      } else if a.Step? && !l.exited {
        WorkerKeeps(l, a.weakFailure);
      }
    }
  }

  lemma LogNextGrows(l: Logger, t: Tid, a: LogAction)
    requires Shaped(l.q)
    ensures var r := LogNext(l, t, a);
      Shaped(r.q) && r.q.threads.Keys == l.q.threads.Keys && r.worker == l.worker && l.q.put <= r.q.put
  {
    if t in l.q.threads {
      NextGrows(l.q, t, StartDequeue);
      NextGrows(l.q, t, Tick(a.Step? && a.weakFailure));
      if a.Log? { NextGrows(l.q, t, StartEnqueue(ToAsync(a.msg))); }
      var pc := l.q.threads[t];
      if pc.EnqReturn? && pc.left.Some? { NextGrows(l.q, t, StartEnqueue(pc.left.value)); }
    }
  }

  datatype LogEvent = LogEvent(t: Tid, a: LogAction)

  function LogRun(l: Logger, schedule: seq<LogEvent>): (r: Logger)
    requires Shaped(l.q)
    ensures Shaped(r.q) && r.q.threads.Keys == l.q.threads.Keys && r.worker == l.worker && l.q.put <= r.q.put
    decreases |schedule|
  {
    if schedule == [] then l
    else
      LogNextGrows(l, schedule[0].t, schedule[0].a);
      LogRun(LogNext(l, schedule[0].t, schedule[0].a), schedule[1..])
  }

  lemma {:induction false} LogRunKeeps(l: Logger, schedule: seq<LogEvent>)
    requires LogInv(l)
    ensures LogInv(LogRun(l, schedule))
    decreases |schedule|
  {
    if schedule != [] {
      LogStepKeeps(l, schedule[0].t, schedule[0].a);
      LogRunKeeps(LogNext(l, schedule[0].t, schedule[0].a), schedule[1..]);
    }
  }

  // ----- what the sinks receive -----

  lemma ByPrefix(put: seq<Ticket<AsyncMsg>>, k: nat, t: Tid)
    requires k <= |put|
    ensures By(put[..k], t) <= By(put, t)
  {
    PutByPrefix(put, k, t);
    hide PutBy;
  }

  /** At every moment of every run the sinks have received the tickets' messages up to some point
      before the first `off`: in queue order, none twice, none skipped; and what they received
      from one thread is a prefix of the messages that thread logged, in its order. */
  lemma SinkIsOrderedPrefix(n: nat, tids: set<Tid>, worker: Tid, schedule: seq<LogEvent>, t: Tid)
    requires n >= 2 && worker in tids && t in tids && t != worker
    ensures var l := LogRun(InitLogger(n, tids, worker), schedule); var k := |l.sink|;
      && k <= |l.q.put| && l.sink == Messages(l.q.put[..k]) && NoOff(l.q.put[..k])
      && (l.exited ==> k < |l.q.put| && l.q.put[k].item.level.Off?)
      && t in l.calls && By(l.q.put[..k], t) <= l.calls[t]
  {
    InitLogInv(n, tids, worker);
    var l0 := InitLogger(n, tids, worker);
    LogRunKeeps(l0, schedule);
    var l := LogRun(l0, schedule);
    assert ThreadOk(l.q, worker);
    ByPrefix(l.q.put, |l.sink|, t);
  }

  lemma OffComesLater(put: seq<Ticket<AsyncMsg>>, put': seq<Ticket<AsyncMsg>>, k: nat)
    requires NoOff(put) && put <= put' && k < |put'| && put'[k].item.level.Off?
    ensures |put| <= k
  {
  }

  /** Shutdown.  If at some moment no `off` holds a ticket, then whenever the worker has exited
      later on, the sinks have received every ticket of that moment; in particular every call that
      had returned by then, each thread's in its own order. */
  lemma ShutdownDelivers(l: Logger, schedule: seq<LogEvent>, t: Tid)
    requires LogInv(l) && NoOff(l.q.put) && LogRun(l, schedule).exited
    requires t in l.q.threads && t != l.worker && Waiting(l.q.threads[t]) == []
    ensures var r := LogRun(l, schedule); var k := |r.sink|;
      && Messages(l.q.put) <= r.sink
      && k <= |r.q.put| && l.calls[t] <= By(r.q.put[..k], t)
  {
    LogRunKeeps(l, schedule);
    var r := LogRun(l, schedule);
    var k := |r.sink|;
    assert ThreadOk(r.q, r.worker);
    assert r.q.put[k].item.level.Off?;
    OffComesLater(l.q.put, r.q.put, k);
    assert r.q.put[..k][..|l.q.put|] == l.q.put;
    ByPrefix(r.q.put[..k], |l.q.put|, t);
    assert l.calls[t] == By(l.q.put, t);
  }
}
