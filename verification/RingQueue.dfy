/** The queue object: its loops work in place on the cells and the two positions, other threads
    interfere between any two accesses, and every call is a run of the state machine. */
module RingQueue {
  import opened Wrappers
  import opened Slots
  import opened Bits
  import opened QueueMachine
  import opened QueueInvariant
  import QueueFifo

  // ----- whose steps a run consists of -----

  function Own<T>(trace: seq<Event<T>>, t: Tid): seq<Action<T>> {
    if trace == [] then []
    else
      var e := trace[|trace| - 1];
      Own(trace[..|trace| - 1], t) + (if e.t == t then [e.a] else [])
  }

  function Foreign<T>(trace: seq<Event<T>>, t: Tid): seq<Event<T>> {
    if trace == [] then []
    else
      var e := trace[|trace| - 1];
      Foreign(trace[..|trace| - 1], t) + (if e.t != t then [e] else [])
  }

  /** One call: its start and then only steps. */
  predicate OneCall<T(==)>(own: seq<Action<T>>, start: Action<T>) {
    own != [] && own[0] == start && forall i :: 1 <= i < |own| ==> own[i].Tick?
  }

  /** The run from s to s' along `trace` consists of one call of t and of the given steps of others. */
  ghost predicate Called<T(!new)>(s: State<T>, s': State<T>, t: Tid, start: Action<T>, others: seq<Event<T>>, trace: seq<Event<T>>)
    requires Shaped(s)
  {
    s' == Run(s, trace) && OneCall(Own(trace, t), start) && Foreign(trace, t) == others
  }

  lemma CallBegins<T(!new)>(s: State<T>, t: Tid, start: Action<T>)
    requires Shaped(s) && !start.Tick?
    ensures Called(s, Next(s, t, start), t, start, [], [Event(t, start)])
  {
    var e := Event(t, start);
    assert [e][1..] == [] && [e][..0] == [];
    NextGrows(s, t, start);
    assert Run(Next(s, t, start), []) == Next(s, t, start);
  }

  lemma CallGoesOn<T(!new)>(s: State<T>, s': State<T>, t: Tid, start: Action<T>, others: seq<Event<T>>, trace: seq<Event<T>>, e: Event<T>)
    requires Shaped(s) && Shaped(s') && Called(s, s', t, start, others, trace) && (e.t == t ==> e.a.Tick?)
    ensures Called(s, Next(s', e.t, e.a), t, start, if e.t == t then others else others + [e], trace + [e])
  {
    assert (trace + [e])[..|trace|] == trace;
    QueueFifo.RunSplit(s, trace, [e]);
    assert [e][1..] == [];
    NextGrows(s', e.t, e.a);
    assert Run(Next(s', e.t, e.a), []) == Next(s', e.t, e.a);
  }

  // ----- what a call does to the history -----

  /** The items of the tickets thread t took, in ticket order. */
  function TakenBy<T>(taken: seq<Tid>, put: seq<Ticket<T>>, t: Tid): seq<T>
    requires |taken| <= |put|
  {
    if taken == [] then []
    else
      var p := |taken| - 1;
      TakenBy(taken[..p], put, t) + (if taken[p] == t then [put[p].item] else [])
  }

  lemma {:induction false} TakenInLonger<T(!new)>(taken: seq<Tid>, put: seq<Ticket<T>>, put': seq<Ticket<T>>, t: Tid)
    requires |taken| <= |put| && put <= put'
    ensures TakenBy(taken, put', t) == TakenBy(taken, put, t)
  {
    if taken != [] { TakenInLonger(taken[..|taken| - 1], put, put', t); }
  }

  lemma TakenMore<T(!new)>(taken: seq<Tid>, put: seq<Ticket<T>>, u: Tid, t: Tid)
    requires |taken| < |put|
    ensures TakenBy(taken + [u], put, t) == TakenBy(taken, put, t) + (if u == t then [put[|taken|].item] else [])
  {
    assert (taken + [u])[..|taken|] == taken;
  }

  /** Equal but for the history. */
  predicate SameMemory<T(==)>(s: State<T>, r: State<T>) {
    && s.enqueuePos == r.enqueuePos && s.dequeuePos == r.dequeuePos && s.threads == r.threads
    && s.sequences == r.sequences && s.cells == r.cells
  }

  lemma EnqueueUnread<T(!new)>(s: State<T>, r: State<T>, u: Tid, weak: bool)
    requires Shaped(s) && SameMemory(s, r) && u in s.threads
    requires var pc := s.threads[u]; pc.EnqLoadPos? || pc.EnqLoadSeq? || pc.EnqCas? || pc.EnqMove? || pc.EnqPublish?
    ensures SameMemory(TickStep(s, u, weak), TickStep(r, u, weak))
  {
    hide Slot;
  }

  lemma DequeueUnread<T(!new)>(s: State<T>, r: State<T>, u: Tid, weak: bool)
    requires Shaped(s) && SameMemory(s, r) && u in s.threads
    requires var pc := s.threads[u]; pc.DeqLoadPos? || pc.DeqLoadSeq? || pc.DeqCas? || pc.DeqMove? || pc.DeqRelease?
    ensures SameMemory(TickStep(s, u, weak), TickStep(r, u, weak))
  {
    hide Slot;
  }

  lemma RestingUnread<T(!new)>(s: State<T>, r: State<T>, u: Tid, weak: bool)
    requires Shaped(s) && SameMemory(s, r) && u in s.threads && Resting(s.threads[u])
    ensures SameMemory(TickStep(s, u, weak), TickStep(r, u, weak))
  {
  }

  /** No step reads the history. */
  lemma HistoryUnread<T(!new)>(s: State<T>, r: State<T>, u: Tid, a: Action<T>)
    requires Shaped(s) && SameMemory(s, r)
    ensures SameMemory(Next(s, u, a), Next(r, u, a))
  {
    hide TickStep;
    if u in s.threads && a.Tick? {
      var pc, weak := s.threads[u], a.weakFailure;
      if Resting(pc) { RestingUnread(s, r, u, weak); }
      else if pc.EnqLoadPos? || pc.EnqLoadSeq? || pc.EnqCas? || pc.EnqMove? || pc.EnqPublish? { EnqueueUnread(s, r, u, weak); }
      else { DequeueUnread(s, r, u, weak); }
    }
  }

  /** Every step changes the history by at most one ticket, the thread's own. */
  lemma HistoryStep<T(!new)>(s: State<T>, u: Tid, a: Action<T>)
    requires Shaped(s)
    ensures var r := Next(s, u, a);
      && (r.put == s.put || (exists item :: r.put == s.put + [Ticket(u, item)]))
      && (r.taken == s.taken || r.taken == s.taken + [u])
  {
  }

  /** What others may have changed between s and r: nothing of t's, and no position went back. */
  ghost predicate Undisturbed<T(!new)>(s: State<T>, r: State<T>, t: Tid) {
    && t in s.threads && t in r.threads && r.threads[t] == s.threads[t]
    && r.enqueuePos >= s.enqueuePos && r.dequeuePos >= s.dequeuePos
    && s.put <= r.put && |s.taken| <= |s.put| && |r.taken| <= |r.put|
    && PutBy(r.put, t) == PutBy(s.put, t) && TakenBy(r.taken, r.put, t) == TakenBy(s.taken, s.put, t)
  }

  lemma NothingDisturbed<T(!new)>(s: State<T>, t: Tid)
    requires Inv(s) && t in s.threads
    ensures Undisturbed(s, s, t)
  {
  }

  lemma UndisturbedAgain<T(!new)>(s: State<T>, r: State<T>, q: State<T>, t: Tid)
    requires Undisturbed(s, r, t) && Undisturbed(r, q, t)
    ensures Undisturbed(s, q, t)
  {
    hide PutBy, TakenBy;
  }

  /** Steps of others neither put nor take for t. */
  lemma ForeignHistory<T(!new)>(s: State<T>, u: Tid, a: Action<T>, t: Tid)
    requires Shaped(s) && Inv(s) && u != t && t in s.threads
    ensures Undisturbed(s, Next(s, u, a), t)
  {
    var r := Next(s, u, a);
    StepInv(s, u, a);
    HistoryStep(s, u, a);
    ForeignStep(s, Event(u, a), t);
    assert |s.taken| <= |s.put| && |r.taken| <= |r.put|;
    hide Next, Inv;
    if r.put != s.put { PutMore(s.put, r.put[|s.put|], t); }
    TakenInLonger(s.taken, s.put, r.put, t);
    if r.taken != s.taken { TakenMore(s.taken, r.put, u, t); }
  }

  // ----- the object -----

  class MpmcQueue<T(==,!new)> {
    const sequences: array<nat>
    const cells: array<Option<T>>
    var enqueuePos: nat
    var dequeuePos: nat
    var threads: map<Tid, Pc<T>>      // where every thread is in the code
    ghost var put: seq<Ticket<T>>     // the history that no step reads
    ghost var taken: seq<Tid>

    ghost function Now(): (s: State<T>)
      reads this, sequences, cells
    {
      State(enqueuePos, dequeuePos, sequences[..], cells[..], threads, put, taken)
    }

    ghost predicate Valid()
      reads this, sequences, cells
    {
      Shaped(Now()) && Inv(Now())
    }

    constructor (size: nat, tids: set<Tid>)
      requires AcceptedSize(size)
      ensures fresh(sequences) && fresh(cells) && Now() == Init(size, tids) && Valid()
    {
      sequences := new nat[size];
      cells := new Option<T>[size](i => None);
      enqueuePos, dequeuePos := 0, 0;
      threads := map t | t in tids :: Idle;
      put, taken := [], [];
      new;
      for i := 0 to size
        invariant threads == (map t | t in tids :: Idle) && put == [] && taken == [] && enqueuePos == dequeuePos == 0
        invariant forall c :: 0 <= c < i ==> sequences[c] == c
        invariant forall c :: 0 <= c < size ==> cells[c] == None
      {
        sequences[i] := i;
      }
      assert sequences[..] == Init<T>(size, tids).sequences;
      assert cells[..] == Init<T>(size, tids).cells;
      InitInv<T>(size, tids);
    }

    /** The queue object, or none where the original refuses the size. */
    static method Create(size: nat, tids: set<Tid>) returns (q: Option<MpmcQueue<T>>)
      ensures q.Some? <==> exists k: nat :: k >= 1 && size == Pow2(k)
      ensures q.Some? ==> fresh(q.value) && q.value.Now() == Init(size, tids) && q.value.Valid()
    {
      AcceptedSizes(size);
      if !(size >= 2 && And(size, size - 1) == 0) { return None; }
      var queue := new MpmcQueue(size, tids);
      return Some(queue);
    }

    /** The memory and the threads alone. */
    function Memory(): (s: State<T>)
      reads this, sequences, cells
    {
      State(enqueuePos, dequeuePos, sequences[..], cells[..], threads, [], [])
    }

    /** One step of a thread whose code is not at hand, in place. */
    method Foreign(e: Event<T>)
      requires Shaped(Now())
      modifies this, sequences, cells
      ensures Now() == Next(old(Now()), e.t, e.a)
    {
      ghost var full := Next(Now(), e.t, e.a);
      HistoryUnread(Now(), Memory(), e.t, e.a);
      NextGrows(Memory(), e.t, e.a);
      var next := Next(Memory(), e.t, e.a);
      hide Next;
      enqueuePos, dequeuePos, threads := next.enqueuePos, next.dequeuePos, next.threads;
      put, taken := full.put, full.taken;
      forall c | 0 <= c < sequences.Length { sequences[c] := next.sequences[c]; }
      forall c | 0 <= c < cells.Length { cells[c] := next.cells[c]; }
      assert sequences[..] == next.sequences && cells[..] == next.cells;
    }

    // ----- the single accesses -----

    method LoadEnqueuePos(t: Tid) returns (pos: nat)
      requires Valid() && t in threads && threads[t].EnqLoadPos?
      modifies this`threads
      ensures Valid() && Now() == Next(old(Now()), t, Tick(false)) && t in threads
      ensures pos == enqueuePos && threads[t] == EnqLoadSeq(old(threads[t].item), pos)
    {
      StepInv(Now(), t, Tick(false));
      hide Inv;
      pos := enqueuePos;
      threads := threads[t := EnqLoadSeq(threads[t].item, pos)];
    }

    /** Loads the cell's sequence number; what the caller sees decides where it goes. */
    method LoadForEnqueue(t: Tid, pos: nat) returns (sequence: nat)
      requires Valid() && t in threads && threads[t].EnqLoadSeq? && threads[t].pos == pos
      modifies this`threads
      ensures Valid() && Now() == Next(old(Now()), t, Tick(false)) && t in threads
      ensures var item := old(threads[t].item);
        threads[t] == if sequence == pos then EnqCas(item, pos)
                      else if sequence < pos then EnqReturn(false, Some(item)) else EnqLoadPos(item)
      ensures sequence > pos ==> pos < enqueuePos
    {
      StepInv(Now(), t, Tick(false));
      NextEnqueueCell(Now());
      assert ThreadOk(Now(), t);
      hide Inv;
      sequence := sequences[Slot(pos, sequences.Length)];
      var item := threads[t].item;
      threads := threads[t := if sequence == pos then EnqCas(item, pos)
                              else if sequence < pos then EnqReturn(false, Some(item)) else EnqLoadPos(item)];
    }

    /** compare_exchange_weak: on failure the caller's position becomes the current one. */
    method ExchangeEnqueuePos(t: Tid, pos: nat, weak: bool) returns (won: bool, current: nat)
      requires Valid() && t in threads && threads[t].EnqCas? && threads[t].pos == pos
      modifies this`enqueuePos, this`threads, this`put
      ensures Valid() && Now() == Next(old(Now()), t, Tick(weak)) && t in threads
      ensures won == (old(enqueuePos) == pos && !weak)
      ensures var item := old(threads[t].item);
        threads[t] == if won then EnqMove(item, pos) else EnqLoadSeq(item, current)
      ensures !won ==> current == enqueuePos == old(enqueuePos) && (pos < current || weak)
      ensures put == (if won then old(put) + [Ticket(t, old(threads[t].item))] else old(put))
    {
      StepInv(Now(), t, Tick(weak));
      assert ThreadOk(Now(), t);
      hide Inv;
      var item := threads[t].item;
      if enqueuePos == pos && !weak {
        enqueuePos := pos + 1;
        won, current, threads := true, pos, threads[t := EnqMove(item, pos)];
        put := put + [Ticket(t, item)];
      } else {
        won, current, threads := false, enqueuePos, threads[t := EnqLoadSeq(item, enqueuePos)];
      }
    }

    method StoreItem(t: Tid, pos: nat, item: T)
      requires Valid() && t in threads && threads[t] == EnqMove(item, pos)
      modifies cells, this`threads
      ensures Valid() && Now() == Next(old(Now()), t, Tick(false)) && t in threads && threads[t] == EnqPublish(pos)
    {
      StepInv(Now(), t, Tick(false));
      hide Inv;
      cells[Slot(pos, cells.Length)] := Some(item);
      threads := threads[t := EnqPublish(pos)];
    }

    method PublishCell(t: Tid, pos: nat)
      requires Valid() && t in threads && threads[t] == EnqPublish(pos)
      modifies sequences, this`threads
      ensures Valid() && Now() == Next(old(Now()), t, Tick(false)) && t in threads && threads[t] == EnqReturn(true, None)
    {
      StepInv(Now(), t, Tick(false));
      hide Inv;
      sequences[Slot(pos, sequences.Length)] := pos + 1;
      threads := threads[t := EnqReturn(true, None)];
    }

    method ReleaseCell(t: Tid, pos: nat, ghost item: Option<T>)
      requires Valid() && t in threads && threads[t] == DeqRelease(pos, item)
      modifies sequences, this`threads
      ensures Valid() && Now() == Next(old(Now()), t, Tick(false)) && t in threads && threads[t] == DeqReturn(true, item)
    {
      StepInv(Now(), t, Tick(false));
      hide Inv;
      sequences[Slot(pos, sequences.Length)] := pos + sequences.Length;
      threads := threads[t := DeqReturn(true, threads[t].got)];
    }

    method LoadDequeuePos(t: Tid) returns (pos: nat)
      requires Valid() && t in threads && threads[t].DeqLoadPos?
      modifies this`threads
      ensures Valid() && Now() == Next(old(Now()), t, Tick(false)) && t in threads
      ensures pos == dequeuePos && threads[t] == DeqLoadSeq(pos)
    {
      StepInv(Now(), t, Tick(false));
      hide Inv;
      pos := dequeuePos;
      threads := threads[t := DeqLoadSeq(pos)];
    }

    method LoadForDequeue(t: Tid, pos: nat) returns (sequence: nat)
      requires Valid() && t in threads && threads[t] == DeqLoadSeq(pos)
      modifies this`threads
      ensures Valid() && Now() == Next(old(Now()), t, Tick(false)) && t in threads
      ensures threads[t] == if sequence == pos + 1 then DeqCas(pos)
                            else if sequence < pos + 1 then DeqReturn(false, None) else DeqLoadPos
      ensures sequence > pos + 1 ==> pos < dequeuePos
    {
      StepInv(Now(), t, Tick(false));
      NextDequeueCell(Now());
      assert ThreadOk(Now(), t);
      hide Inv;
      sequence := sequences[Slot(pos, sequences.Length)];
      threads := threads[t := if sequence == pos + 1 then DeqCas(pos)
                              else if sequence < pos + 1 then DeqReturn(false, None) else DeqLoadPos];
    }

    method ExchangeDequeuePos(t: Tid, pos: nat, weak: bool) returns (won: bool, current: nat)
      requires Valid() && t in threads && threads[t] == DeqCas(pos)
      modifies this`dequeuePos, this`threads, this`taken
      ensures Valid() && Now() == Next(old(Now()), t, Tick(weak)) && t in threads
      ensures won == (old(dequeuePos) == pos && !weak)
      ensures threads[t] == if won then DeqMove(pos) else DeqLoadSeq(current)
      ensures !won ==> current == dequeuePos == old(dequeuePos) && (pos < current || weak)
      ensures taken == (if won then old(taken) + [t] else old(taken))
      ensures won ==> pos == |old(taken)| < |put|
    {
      StepInv(Now(), t, Tick(weak));
      assert ThreadOk(Now(), t);
      hide Inv;
      if dequeuePos == pos && !weak {
        dequeuePos := pos + 1;
        won, current, threads := true, pos, threads[t := DeqMove(pos)];
        taken := taken + [t];
      } else {
        won, current, threads := false, dequeuePos, threads[t := DeqLoadSeq(dequeuePos)];
      }
    }

    method TakeItem(t: Tid, pos: nat) returns (item: Option<T>)
      requires Valid() && t in threads && threads[t] == DeqMove(pos)
      modifies cells, this`threads
      ensures Valid() && Now() == Next(old(Now()), t, Tick(false)) && t in threads
      ensures threads[t] == DeqRelease(pos, item) && pos < |put| && item == Some(put[pos].item)
    {
      StepInv(Now(), t, Tick(false));
      assert ThreadOk(Now(), t);
      hide Inv;
      item := cells[Slot(pos, cells.Length)];
      cells[Slot(pos, cells.Length)] := None;
      threads := threads[t := DeqRelease(pos, item)];
    }

    /** Before an access of thread t: any number of the others' next steps happens. */
    method Others(t: Tid, script: seq<Event<T>>, at: nat, ghost from: State<T>, ghost start: Action<T>, ghost trace: seq<Event<T>>)
      returns (next: nat, ghost longer: seq<Event<T>>)
      requires Valid() && t in threads && at <= |script| && forall e :: e in script ==> e.t != t
      requires Shaped(from) && Called(from, Now(), t, start, script[..at], trace)
      modifies this, sequences, cells
      ensures Valid() && at <= next <= |script|
      ensures Called(from, Now(), t, start, script[..next], longer)
      ensures next == at ==> enqueuePos == old(enqueuePos) && dequeuePos == old(dequeuePos)
      ensures Undisturbed(old(Now()), Now(), t)
    {
      hide Inv, Called, Next, Undisturbed;
      next, longer := at, trace;
      NothingDisturbed(Now(), t);
      while next < |script|
        invariant at <= next <= |script| && Valid()
        invariant Called(from, Now(), t, start, script[..next], longer)
        invariant next == at ==> enqueuePos == old(enqueuePos) && dequeuePos == old(dequeuePos)
        invariant Undisturbed(old(Now()), Now(), t)
      {
        if * { break; }
        var e := script[next];
        assert e in script;
        InScript(old(Now()), Now(), t);
        StepInv(Now(), e.t, e.a);
        NextGrows(Now(), e.t, e.a);
        ForeignHistory(Now(), e.t, e.a, t);
        UndisturbedAgain(old(Now()), Now(), Next(Now(), e.t, e.a), t);
        CallGoesOn(from, Now(), t, start, script[..next], longer, e);
        assert script[..next + 1] == script[..next] + [e];
        Foreign(e);
        next, longer := next + 1, longer + [e];
      }
    }

    /** The loop body of enqueue. */
    method AttemptEnqueue(t: Tid, pos: nat, ghost item: T, script: seq<Event<T>>, at: nat, chances: nat,
                          ghost from: State<T>, ghost start: Action<T>, ghost trace: seq<Event<T>>)
      returns (outcome: Outcome, at': nat, chances': nat, ghost trace': seq<Event<T>>)
      requires Valid() && t in threads && threads[t] == EnqLoadSeq(item, pos)
      requires at <= |script| && forall e :: e in script ==> e.t != t
      requires Shaped(from) && Called(from, Now(), t, start, script[..at], trace)
      modifies this, sequences, cells
      ensures Valid() && at <= at' <= |script| && chances' <= chances && t in threads
      ensures Called(from, Now(), t, start, script[..at'], trace')
      ensures threads[t] == match outcome
        case Won => EnqMove(item, pos)
        case Refused => EnqReturn(false, Some(item))
        case Retry(next) => EnqLoadSeq(item, next)
      ensures outcome.Retry? && at' == at && chances' == chances ==> old(pos < enqueuePos) && outcome.pos == enqueuePos
      ensures PutBy(put, t) == if outcome.Won? then old(PutBy(put, t)) + [item] else old(PutBy(put, t))
    {
      hide Inv, Called, Next, PutBy, TakenBy;
      at', chances', trace' := at, chances, trace;
      at', trace' := Others(t, script, at', from, start, trace');
      CallTicks(from, Now(), t, start, script[..at'], trace', false);
      var sequence := LoadForEnqueue(t, pos);
      trace' := trace' + [Event(t, Tick(false))];
      if sequence == pos {
        at', trace' := Others(t, script, at', from, start, trace');
        var weak := false;
        if * { weak := chances' > 0; }
        if weak { chances' := chances' - 1; }
        CallTicks(from, Now(), t, start, script[..at'], trace', weak);
        PutMore(put, Ticket(t, item), t);
        var won, current := ExchangeEnqueuePos(t, pos, weak);
        trace' := trace' + [Event(t, Tick(weak))];
        outcome := if won then Won else Retry(current);
      } else if sequence < pos {
        outcome := Refused;
      } else {
        at', trace' := Others(t, script, at', from, start, trace');
        CallTicks(from, Now(), t, start, script[..at'], trace', false);
        var current := LoadEnqueuePos(t);
        trace' := trace' + [Event(t, Tick(false))];
        outcome := Retry(current);
      }
    }

    /** Behind the loop of enqueue: the item into the cell, then its sequence number. */
    method Deliver(t: Tid, pos: nat, item: T, script: seq<Event<T>>, at: nat,
                   ghost from: State<T>, ghost start: Action<T>, ghost trace: seq<Event<T>>)
      returns (at': nat, ghost trace': seq<Event<T>>)
      requires Valid() && t in threads && threads[t] == EnqMove(item, pos)
      requires at <= |script| && forall e :: e in script ==> e.t != t
      requires Shaped(from) && Called(from, Now(), t, start, script[..at], trace)
      modifies this, sequences, cells
      ensures Valid() && at <= at' <= |script| && t in threads && threads[t] == EnqReturn(true, None)
      ensures Called(from, Now(), t, start, script[..at'], trace')
      ensures PutBy(put, t) == old(PutBy(put, t))
    {
      hide Inv, Called, Next, PutBy, TakenBy;
      at', trace' := Others(t, script, at, from, start, trace);
      CallTicks(from, Now(), t, start, script[..at'], trace', false);
      StoreItem(t, pos, item);
      trace' := trace' + [Event(t, Tick(false))];
      at', trace' := Others(t, script, at', from, start, trace');
      CallTicks(from, Now(), t, start, script[..at'], trace', false);
      PublishCell(t, pos);
      trace' := trace' + [Event(t, Tick(false))];
    }

    /** Thread t enters enqueue or dequeue. */
    method Enter(t: Tid, ghost start: Action<T>, first: Pc<T>) returns (ghost trace: seq<Event<T>>)
      requires Valid() && t in threads && Resting(threads[t]) && !start.Tick?
      requires first == if start.StartEnqueue? then EnqLoadPos(start.item) else DeqLoadPos
      modifies this`threads
      ensures Valid() && Shaped(old(Now())) && t in threads && threads[t] == first
      ensures Called(old(Now()), Now(), t, start, [], trace)
    {
      hide Inv, Called, Next;
      ShapedWhenValid(Now());
      CallStarts(Now(), t, start);
      CallBegins(Now(), t, start);
      threads, trace := threads[t := first], [Event(t, start)];
    }

    /** enqueue: false leaves the item with the caller.  `spurious` bounds the exchanges that fail
        for no reason. */
    method Enqueue(t: Tid, data: T, script: seq<Event<T>>, spurious: nat)
      returns (ok: bool, left: Option<T>, at: nat, ghost trace: seq<Event<T>>)
      requires Valid() && t in threads && Resting(threads[t]) && forall e :: e in script ==> e.t != t
      modifies this, sequences, cells
      ensures Valid() && at <= |script| && Shaped(old(Now()))
      ensures Called(old(Now()), Now(), t, StartEnqueue(data), script[..at], trace)
      ensures t in threads && threads[t] == EnqReturn(ok, left) && left == if ok then None else Some(data)
      ensures PutBy(put, t) == if ok then old(PutBy(put, t)) + [data] else old(PutBy(put, t))
    {
      hide Inv, Called, Next, Resting, PutBy, TakenBy;
      ghost var from, start := Now(), StartEnqueue(data);
      trace := Enter(t, start, EnqLoadPos(data));
      at := 0;
      at, trace := Others(t, script, at, from, start, trace);
      CallTicks(from, Now(), t, start, script[..at], trace, false);
      var pos: nat := LoadEnqueuePos(t);
      trace := trace + [Event(t, Tick(false))];
      var chances := spurious;
      while true
        invariant Valid() && at <= |script| && t in threads && threads[t] == EnqLoadSeq(data, pos)
        invariant Called(from, Now(), t, start, script[..at], trace) && PutBy(put, t) == PutBy(from.put, t)
        decreases |script| - at + chances, pos < enqueuePos
      {
        var outcome: Outcome;
        outcome, at, chances, trace := AttemptEnqueue(t, pos, data, script, at, chances, from, start, trace);
        match outcome
        case Won => break;
        case Refused => return false, Some(data), at, trace;
        case Retry(next) => pos := next;
      }
      at, trace := Deliver(t, pos, data, script, at, from, start, trace);
      return true, None, at, trace;
    }

    /** The loop body of dequeue. */
    method AttemptDequeue(t: Tid, pos: nat, script: seq<Event<T>>, at: nat, chances: nat,
                          ghost from: State<T>, ghost start: Action<T>, ghost trace: seq<Event<T>>)
      returns (outcome: Outcome, at': nat, chances': nat, ghost trace': seq<Event<T>>)
      requires Valid() && t in threads && threads[t] == DeqLoadSeq(pos)
      requires at <= |script| && forall e :: e in script ==> e.t != t
      requires Shaped(from) && Called(from, Now(), t, start, script[..at], trace)
      modifies this, sequences, cells
      ensures Valid() && at <= at' <= |script| && chances' <= chances && t in threads
      ensures Called(from, Now(), t, start, script[..at'], trace')
      ensures threads[t] == match outcome
        case Won => DeqMove(pos)
        case Refused => DeqReturn(false, None)
        case Retry(next) => DeqLoadSeq(next)
      ensures outcome.Retry? && at' == at && chances' == chances ==> old(pos < dequeuePos) && outcome.pos == dequeuePos
      ensures |old(taken)| <= |old(put)| && |taken| <= |put| && (outcome.Won? ==> pos < |put|)
      ensures TakenBy(taken, put, t)
        == if outcome.Won? then old(TakenBy(taken, put, t)) + [put[pos].item] else old(TakenBy(taken, put, t))
    {
      hide Inv, Called, Next, PutBy, TakenBy;
      at', chances', trace' := at, chances, trace;
      at', trace' := Others(t, script, at', from, start, trace');
      CallTicks(from, Now(), t, start, script[..at'], trace', false);
      var sequence := LoadForDequeue(t, pos);
      trace' := trace' + [Event(t, Tick(false))];
      if sequence == pos + 1 {
        at', trace' := Others(t, script, at', from, start, trace');
        var weak := false;
        if * { weak := chances' > 0; }
        if weak { chances' := chances' - 1; }
        CallTicks(from, Now(), t, start, script[..at'], trace', weak);
        if |taken| < |put| { TakenMore(taken, put, t, t); }
        var won, current := ExchangeDequeuePos(t, pos, weak);
        trace' := trace' + [Event(t, Tick(weak))];
        outcome := if won then Won else Retry(current);
      } else if sequence < pos + 1 {
        outcome := Refused;
      } else {
        at', trace' := Others(t, script, at', from, start, trace');
        CallTicks(from, Now(), t, start, script[..at'], trace', false);
        var current := LoadDequeuePos(t);
        trace' := trace' + [Event(t, Tick(false))];
        outcome := Retry(current);
      }
    }

    /** Behind the loop of dequeue: the item out of the cell. */
    method Collect(t: Tid, pos: nat, script: seq<Event<T>>, at: nat,
                   ghost from: State<T>, ghost start: Action<T>, ghost trace: seq<Event<T>>)
      returns (item: Option<T>, at': nat, ghost trace': seq<Event<T>>)
      requires Valid() && t in threads && threads[t] == DeqMove(pos)
      requires at <= |script| && forall e :: e in script ==> e.t != t
      requires Shaped(from) && Called(from, Now(), t, start, script[..at], trace)
      modifies this, sequences, cells
      ensures Valid() && at <= at' <= |script| && t in threads
      ensures threads[t] == DeqRelease(pos, item) && pos < |old(put)| && item == Some(old(put)[pos].item)
      ensures Called(from, Now(), t, start, script[..at'], trace')
      ensures |old(taken)| <= |old(put)| && |taken| <= |put| && TakenBy(taken, put, t) == old(TakenBy(taken, put, t))
    {
      assert ThreadOk(Now(), t);
      hide Inv, Called, Next, PutBy, TakenBy;
      at', trace' := Others(t, script, at, from, start, trace);
      CallTicks(from, Now(), t, start, script[..at'], trace', false);
      item := TakeItem(t, pos);
      trace' := trace' + [Event(t, Tick(false))];
    }

    /** Last, the sequence number of the next lap. */
    method Release(t: Tid, pos: nat, ghost item: Option<T>, script: seq<Event<T>>, at: nat,
                   ghost from: State<T>, ghost start: Action<T>, ghost trace: seq<Event<T>>)
      returns (at': nat, ghost trace': seq<Event<T>>)
      requires Valid() && t in threads && threads[t] == DeqRelease(pos, item)
      requires at <= |script| && forall e :: e in script ==> e.t != t
      requires Shaped(from) && Called(from, Now(), t, start, script[..at], trace)
      modifies this, sequences, cells
      ensures Valid() && at <= at' <= |script| && t in threads && threads[t] == DeqReturn(true, item)
      ensures Called(from, Now(), t, start, script[..at'], trace')
      ensures |old(taken)| <= |old(put)| && |taken| <= |put| && TakenBy(taken, put, t) == old(TakenBy(taken, put, t))
    {
      hide Inv, Called, Next, PutBy, TakenBy;
      at', trace' := Others(t, script, at, from, start, trace);
      CallTicks(from, Now(), t, start, script[..at'], trace', false);
      ReleaseCell(t, pos, item);
      trace' := trace' + [Event(t, Tick(false))];
    }

    /** dequeue */
    method Dequeue(t: Tid, script: seq<Event<T>>, spurious: nat)
      returns (ok: bool, data: Option<T>, at: nat, ghost trace: seq<Event<T>>)
      requires Valid() && t in threads && Resting(threads[t]) && forall e :: e in script ==> e.t != t
      modifies this, sequences, cells
      ensures Valid() && at <= |script| && Shaped(old(Now()))
      ensures Called(old(Now()), Now(), t, StartDequeue, script[..at], trace)
      ensures t in threads && threads[t] == DeqReturn(ok, data) && (ok <==> data.Some?)
      ensures |old(taken)| <= |old(put)| && |taken| <= |put|
      ensures TakenBy(taken, put, t)
        == if ok then old(TakenBy(taken, put, t)) + [data.value] else old(TakenBy(taken, put, t))
    {
      hide Inv, Called, Next, Resting, PutBy, TakenBy;
      ghost var from, start := Now(), StartDequeue;
      trace := Enter(t, start, DeqLoadPos);
      at := 0;
      at, trace := Others(t, script, at, from, start, trace);
      CallTicks(from, Now(), t, start, script[..at], trace, false);
      var pos: nat := LoadDequeuePos(t);
      trace := trace + [Event(t, Tick(false))];
      var chances := spurious;
      while true
        invariant Valid() && at <= |script| && t in threads && threads[t] == DeqLoadSeq(pos)
        invariant Called(from, Now(), t, start, script[..at], trace)
        invariant |from.taken| <= |from.put| && |taken| <= |put| && TakenBy(taken, put, t) == TakenBy(from.taken, from.put, t)
        decreases |script| - at + chances, pos < dequeuePos
      {
        var outcome: Outcome;
        outcome, at, chances, trace := AttemptDequeue(t, pos, script, at, chances, from, start, trace);
        match outcome
        case Won => break;
        case Refused => return false, None, at, trace;
        case Retry(next) => pos := next;
      }
      data, at, trace := Collect(t, pos, script, at, from, start, trace);
      at, trace := Release(t, pos, data, script, at, from, start, trace);
      return true, data, at, trace;
    }
  }

  /** How one round of either loop ends. */
  datatype Outcome = Won | Refused | Retry(pos: nat)

  lemma InScript<T(!new)>(s: State<T>, r: State<T>, t: Tid)
    requires Undisturbed(s, r, t)
    ensures t in r.threads
  {
  }

  lemma ShapedWhenValid<T(!new)>(s: State<T>)
    requires Inv(s)
    ensures Shaped(s)
  {
  }

  /** A step of another thread leaves t where it is, and no position goes back. */
  lemma ForeignStep<T>(s: State<T>, e: Event<T>, t: Tid)
    requires Shaped(s) && e.t != t && t in s.threads
    ensures var r := Next(s, e.t, e.a);
      t in r.threads && r.threads[t] == s.threads[t] && r.enqueuePos >= s.enqueuePos && r.dequeuePos >= s.dequeuePos
  {
  }

  lemma CallStarts<T>(s: State<T>, t: Tid, start: Action<T>)
    requires Shaped(s) && t in s.threads && Resting(s.threads[t]) && !start.Tick?
    ensures Next(s, t, start) == At(s, t, if start.StartEnqueue? then EnqLoadPos(start.item) else DeqLoadPos)
    ensures Inv(s) ==> Inv(Next(s, t, start))
  {
    if Inv(s) { StepInv(s, t, start); }
  }

  lemma CallTicks<T(!new)>(s: State<T>, s': State<T>, t: Tid, start: Action<T>, others: seq<Event<T>>, trace: seq<Event<T>>, weak: bool)
    requires Shaped(s) && Shaped(s') && Called(s, s', t, start, others, trace)
    ensures Called(s, Next(s', t, Tick(weak)), t, start, others, trace + [Event(t, Tick(weak))])
  {
    CallGoesOn(s, s', t, start, others, trace, Event(t, Tick(weak)));
  }
}
