/** The bounded multi-producer multi-consumer queue as a state machine.

    A step is one access to shared memory by one thread: loading a position, loading a cell's
    sequence number, one compare-exchange (which may fail spuriously), moving an item in or out
    of a cell, or storing a sequence number.  Positions are unbounded ticket numbers here;
    QueueWrap relates this machine to 64-bit counters and mask indexing. */
module QueueMachine {
  import opened Wrappers
  import opened Slots

  type Tid = nat

  /** Where a thread is inside enqueue or dequeue, with the locals it still needs. */
  datatype Pc<+T> =
    | Idle
    | EnqLoadPos(item: T)
    | EnqLoadSeq(item: T, pos: nat)
    | EnqCas(item: T, pos: nat)
    | EnqMove(item: T, pos: nat)        // won ticket pos, the item is not yet in the cell
    | EnqPublish(pos: nat)              // the item is in the cell, its sequence is not stored
    | EnqReturn(ok: bool, left: Option<T>)
    | DeqLoadPos
    | DeqLoadSeq(pos: nat)
    | DeqCas(pos: nat)
    | DeqMove(pos: nat)                 // won ticket pos, the item is still in the cell
    | DeqRelease(pos: nat, got: Option<T>)
    | DeqReturn(ok: bool, got: Option<T>)

  datatype Ticket<+T> = Ticket(owner: Tid, item: T)

  /** `put` and `taken` are history that no step reads: the enqueue and dequeue tickets handed
      out so far, in order. */
  datatype State<+T> = State(
    enqueuePos: nat,
    dequeuePos: nat,
    sequences: seq<nat>,
    cells: seq<Option<T>>,
    threads: map<Tid, Pc<T>>,
    put: seq<Ticket<T>>,
    taken: seq<Tid>)

  datatype Action<+T> = StartEnqueue(item: T) | StartDequeue | Tick(weakFailure: bool)

  function Init<T>(n: nat, tids: set<Tid>): State<T> {
    State(0, 0, seq(n, i => i), seq(n, i => None), map t | t in tids :: Idle, [], [])
  }

  predicate Shaped<T>(s: State<T>) {
    |s.sequences| == |s.cells| >= 2
  }

  predicate Resting<T>(pc: Pc<T>) {
    pc.Idle? || pc.EnqReturn? || pc.DeqReturn?
  }

  function At<T>(s: State<T>, t: Tid, pc: Pc<T>): State<T> {
    s.(threads := s.threads[t := pc])
  }

  /** One step of thread t. */
  function Next<T>(s: State<T>, t: Tid, a: Action<T>): State<T>
    requires Shaped(s)
  {
    if t !in s.threads then s else
    match a
    case StartEnqueue(item) => if Resting(s.threads[t]) then At(s, t, EnqLoadPos(item)) else s
    case StartDequeue => if Resting(s.threads[t]) then At(s, t, DeqLoadPos) else s
    case Tick(weak) => TickStep(s, t, weak)
  }

  function TickStep<T>(s: State<T>, t: Tid, weak: bool): State<T>
    requires Shaped(s) && t in s.threads
  {
    var n := |s.sequences|;
    match s.threads[t]
    case Idle => s
    case EnqReturn(_, _) => s
    case DeqReturn(_, _) => s
    case EnqLoadPos(item) => At(s, t, EnqLoadSeq(item, s.enqueuePos))
    case EnqLoadSeq(item, pos) =>
      var q := s.sequences[Slot(pos, n)];
      if q == pos then At(s, t, EnqCas(item, pos))
      else if q < pos then At(s, t, EnqReturn(false, Some(item)))
      else At(s, t, EnqLoadPos(item))
    case EnqCas(item, pos) =>
      if s.enqueuePos == pos && !weak then
        At(s, t, EnqMove(item, pos)).(enqueuePos := pos + 1, put := s.put + [Ticket(t, item)])
      else At(s, t, EnqLoadSeq(item, s.enqueuePos))
    case EnqMove(item, pos) =>
      At(s, t, EnqPublish(pos)).(cells := s.cells[Slot(pos, n) := Some(item)])
    case EnqPublish(pos) =>
      At(s, t, EnqReturn(true, None)).(sequences := s.sequences[Slot(pos, n) := pos + 1])
    case DeqLoadPos => At(s, t, DeqLoadSeq(s.dequeuePos))
    case DeqLoadSeq(pos) =>
      var q := s.sequences[Slot(pos, n)];
      if q == pos + 1 then At(s, t, DeqCas(pos))
      else if q < pos + 1 then At(s, t, DeqReturn(false, None))
      else At(s, t, DeqLoadPos)
    case DeqCas(pos) =>
      if s.dequeuePos == pos && !weak then
        At(s, t, DeqMove(pos)).(dequeuePos := pos + 1, taken := s.taken + [t])
      else At(s, t, DeqLoadSeq(s.dequeuePos))
    case DeqMove(pos) =>
      At(s, t, DeqRelease(pos, s.cells[Slot(pos, n)])).(cells := s.cells[Slot(pos, n) := None])
    case DeqRelease(pos, got) =>
      At(s, t, DeqReturn(true, got)).(sequences := s.sequences[Slot(pos, n) := pos + n])
  }

  /** Steps keep the capacity and the set of threads; handed-out tickets are never taken back. */
  lemma NextGrows<T>(s: State<T>, t: Tid, a: Action<T>)
    requires Shaped(s)
    ensures var r := Next(s, t, a);
      && Shaped(r) && |r.sequences| == |s.sequences| && r.threads.Keys == s.threads.Keys
      && s.put <= r.put && s.taken <= r.taken
  {
  }

  datatype Event<+T> = Event(t: Tid, a: Action<T>)

  /** The state after a whole schedule: any interleaving of any number of threads. */
  function Run<T>(s: State<T>, schedule: seq<Event<T>>): (r: State<T>)
    requires Shaped(s)
    ensures Shaped(r) && |r.sequences| == |s.sequences| && r.threads.Keys == s.threads.Keys
    ensures s.put <= r.put && s.taken <= r.taken
    decreases |schedule|
  {
    if schedule == [] then s
    else
      NextGrows(s, schedule[0].t, schedule[0].a);
      Run(Next(s, schedule[0].t, schedule[0].a), schedule[1..])
  }

  // ----- history by thread -----

  /** The items thread t put, in ticket order. */
  function PutBy<T>(put: seq<Ticket<T>>, t: Tid): seq<T> {
    if put == [] then []
    else
      var last := put[|put| - 1];
      PutBy(put[..|put| - 1], t) + (if last.owner == t then [last.item] else [])
  }

  lemma PutMore<T>(put: seq<Ticket<T>>, x: Ticket<T>, t: Tid)
    ensures PutBy(put + [x], t) == PutBy(put, t) + (if x.owner == t then [x.item] else [])
  {
    assert (put + [x])[..|put|] == put;
  }

  lemma {:induction false} PutByPrefix<T>(put: seq<Ticket<T>>, k: nat, t: Tid)
    requires k <= |put|
    ensures PutBy(put[..k], t) <= PutBy(put, t)
    decreases |put|
  {
    if k < |put| {
      PutByPrefix(put[..|put| - 1], k, t);
      assert put[..|put| - 1][..k] == put[..k];
    } else {
      assert put[..k] == put;
    }
  }
}
