/** What every interleaving of the queue's steps keeps. */
module QueueInvariant {
  import opened Wrappers
  import opened Slots
  import opened QueueMachine

  predicate ProducerAt<T>(pc: Pc<T>, p: nat) {
    (pc.EnqMove? || pc.EnqPublish?) && pc.pos == p
  }

  predicate ConsumerAt<T>(pc: Pc<T>, p: nat) {
    (pc.DeqMove? || pc.DeqRelease?) && pc.pos == p
  }

  ghost predicate Window<T>(s: State<T>) {
    && Shaped(s)
    && s.enqueuePos == |s.put| && s.dequeuePos == |s.taken|
    && s.dequeuePos <= s.enqueuePos <= s.dequeuePos + |s.sequences|
    && (forall p :: 0 <= p < |s.put| ==> s.put[p].owner in s.threads)
    && (forall p :: 0 <= p < |s.taken| ==> s.taken[p] in s.threads)
  }

  /** Cell c carries sequence q == p, "free for ticket p". */
  ghost predicate FreeCell<T>(s: State<T>, c: nat, q: nat)
    requires Window(s)
  {
    && Slot(q, |s.sequences|) == c
    && s.dequeuePos <= q < s.dequeuePos + |s.sequences|
    && (q < s.enqueuePos ==> ProducerAt(s.threads[s.put[q].owner], q))
  }

  /** Cell c carries sequence q == p + 1, "holds the item of ticket p". */
  ghost predicate FullCell<T>(s: State<T>, c: nat, q: nat)
    requires Window(s) && c < |s.sequences|
  {
    && q >= 1 && Slot(q - 1, |s.sequences|) == c
    && q - 1 < s.enqueuePos <= q - 1 + |s.sequences|
    && (q - 1 >= s.dequeuePos ==> s.cells[c] == Some(s.put[q - 1].item))
    && (q - 1 < s.dequeuePos ==> ConsumerAt(s.threads[s.taken[q - 1]], q - 1))
  }

  ghost predicate CellOk<T>(s: State<T>, c: nat)
    requires Window(s) && c < |s.sequences|
  {
    FreeCell(s, c, s.sequences[c]) || FullCell(s, c, s.sequences[c])
  }

  ghost predicate ThreadOk<T>(s: State<T>, t: Tid)
    requires Window(s) && t in s.threads
  {
    var n := |s.sequences|;
    match s.threads[t]
    case EnqLoadSeq(_, pos) => pos <= s.enqueuePos
    case EnqCas(_, pos) => pos <= s.enqueuePos && s.sequences[Slot(pos, n)] >= pos
    case EnqMove(item, pos) =>
      && pos < s.enqueuePos && s.put[pos] == Ticket(t, item) && s.sequences[Slot(pos, n)] == pos
    case EnqPublish(pos) =>
      && pos < s.enqueuePos && s.put[pos].owner == t && s.sequences[Slot(pos, n)] == pos
      && s.cells[Slot(pos, n)] == Some(s.put[pos].item)
    case DeqLoadSeq(pos) => pos <= s.dequeuePos
    case DeqCas(pos) => pos <= s.dequeuePos && s.sequences[Slot(pos, n)] >= pos + 1
    case DeqMove(pos) =>
      && pos < s.dequeuePos && s.taken[pos] == t && s.sequences[Slot(pos, n)] == pos + 1
      && s.cells[Slot(pos, n)] == Some(s.put[pos].item)
    case DeqRelease(pos, got) =>
      && pos < s.dequeuePos && s.taken[pos] == t && s.sequences[Slot(pos, n)] == pos + 1
      && got == Some(s.put[pos].item)
    case EnqReturn(ok, left) => ok || left.Some?
    case DeqReturn(ok, got) => ok ==> got.Some?
    case _ => true
  }

  ghost predicate Inv<T>(s: State<T>) {
    && Window(s)
    && (forall c :: 0 <= c < |s.sequences| ==> CellOk(s, c))
    && (forall t :: t in s.threads ==> ThreadOk(s, t))
  }

  lemma InitInv<T>(n: nat, tids: set<Tid>)
    requires n >= 2
    ensures Inv(Init<T>(n, tids))
  {
    var s := Init<T>(n, tids);
    forall c | 0 <= c < n ensures CellOk(s, c) {
      assert FreeCell(s, c, s.sequences[c]);
    }
  }

  /** The cell of the next enqueue ticket is either free for it, or still belongs to the
      ticket one lap earlier. */
  lemma NextEnqueueCell<T>(s: State<T>)
    requires Inv(s)
    ensures var n, e := |s.sequences|, s.enqueuePos; var q := s.sequences[Slot(e, n)];
      || (q == e && FreeCell(s, Slot(e, n), e) && e < s.dequeuePos + n)
      || (e >= n && q == e - n && s.dequeuePos == q && FreeCell(s, Slot(e, n), q))
      || (e >= n && q == e - n + 1 && FullCell(s, Slot(e, n), q))
  {
    var n, e := |s.sequences|, s.enqueuePos;
    var c := Slot(e, n);
    var q := s.sequences[c];
    assert CellOk(s, c);
    if FreeCell(s, c, q) {
      if q >= e {
        SameCellSameTicket(e, q, n);
      } else {
        assert e >= n;
        SameCellSameTicket(e - n, q, n);
      }
    } else {
      if e == q - 1 + n {
      } else {
        SameCellSameTicket(q - 1, e, n);
      }
    }
  }

  lemma NextDequeueCell<T>(s: State<T>)
    requires Inv(s)
    ensures var n, d := |s.sequences|, s.dequeuePos; var q := s.sequences[Slot(d, n)];
      || (q == d + 1 && d < s.enqueuePos && FullCell(s, Slot(d, n), q))
      || (q == d && FreeCell(s, Slot(d, n), q))
      || (d >= n && q == d - n + 1 && d == s.enqueuePos && FullCell(s, Slot(d, n), q))
  {
    var n, d := |s.sequences|, s.dequeuePos;
    var c := Slot(d, n);
    var q := s.sequences[c];
    assert CellOk(s, c);
    if FreeCell(s, c, q) {
      SameCellSameTicket(d, q, n);
    } else if q - 1 >= d {
      SameCellSameTicket(d, q - 1, n);
    } else if q - 1 + n == d {
    } else {
      SameCellSameTicket(q - 1, d, n);
    }
  }

  predicate Owning<T>(pc: Pc<T>) {
    pc.EnqMove? || pc.EnqPublish? || pc.DeqMove? || pc.DeqRelease?
  }

  /** What all steps of thread t have in common. */
  ghost predicate Grows<T>(s: State<T>, s': State<T>, t: Tid)
    requires Window(s)
  {
    && Window(s') && |s'.sequences| == |s.sequences|
    && s.put <= s'.put && s.taken <= s'.taken
    && s'.threads.Keys == s.threads.Keys && t in s.threads
    && (forall u :: u in s.threads && u != t ==> s'.threads[u] == s.threads[u])
    && (forall c :: 0 <= c < |s.sequences| ==> s'.sequences[c] >= s.sequences[c])
  }

  /** Thread u keeps its invariant while t steps, if t leaves the cell that u owns alone. */
  lemma ThreadKept<T>(s: State<T>, s': State<T>, t: Tid, u: Tid)
    requires Inv(s) && Grows(s, s', t) && u in s.threads && u != t
    requires Owning(s.threads[u]) ==>
      var c := Slot(s.threads[u].pos, |s.sequences|);
      s'.sequences[c] == s.sequences[c] && s'.cells[c] == s.cells[c]
    ensures ThreadOk(s', u)
  {
    assert ThreadOk(s, u);
  }

  ghost predicate LeavesCell<T>(s: State<T>, s': State<T>, t: Tid, c: nat)
    requires Window(s) && Grows(s, s', t) && c < |s.sequences|
  {
    && s'.sequences[c] == s.sequences[c] && s'.cells[c] == s.cells[c]
    && (Owning(s.threads[t]) ==> Slot(s.threads[t].pos, |s.sequences|) != c)
    && (s'.enqueuePos != s.enqueuePos ==> Slot(s.enqueuePos, |s.sequences|) != c && s'.enqueuePos == s.enqueuePos + 1)
    && (s'.dequeuePos != s.dequeuePos ==> Slot(s.dequeuePos, |s.sequences|) != c && s'.dequeuePos == s.dequeuePos + 1)
  }

  lemma FreeKept<T>(s: State<T>, s': State<T>, t: Tid, c: nat)
    requires Window(s) && Grows(s, s', t) && c < |s.sequences| && LeavesCell(s, s', t, c)
    requires FreeCell(s, c, s.sequences[c])
    ensures FreeCell(s', c, s'.sequences[c])
  {
  }

  lemma FullKept<T>(s: State<T>, s': State<T>, t: Tid, c: nat)
    requires Window(s) && Grows(s, s', t) && c < |s.sequences| && LeavesCell(s, s', t, c)
    requires FullCell(s, c, s.sequences[c])
    ensures FullCell(s', c, s'.sequences[c])
  {
    var n, q := |s.sequences|, s.sequences[c];
    assert Slot(q - 1 + n, n) == Slot(q - 1, n);
  }

  /** A cell that t neither writes nor owns stays consistent, unless t just took its ticket. */
  lemma CellKept<T>(s: State<T>, s': State<T>, t: Tid, c: nat)
    requires Inv(s) && Grows(s, s', t) && c < |s.sequences| && LeavesCell(s, s', t, c)
    ensures CellOk(s', c)
  {
    assert CellOk(s, c);
    if FreeCell(s, c, s.sequences[c]) {
      FreeKept(s, s', t, c);
    } else {
      FullKept(s, s', t, c);
    }
  }

  /** Steps that change nothing but the program counter of a thread that owns no ticket. */
  lemma LocalStep<T>(s: State<T>, t: Tid, pc: Pc<T>)
    requires Inv(s) && t in s.threads && !Owning(s.threads[t]) && !Owning(pc)
    requires ThreadOk(At(s, t, pc), t)
    ensures Inv(At(s, t, pc))
  {
    var s' := At(s, t, pc);
    forall c | 0 <= c < |s.sequences| ensures CellOk(s', c) { CellKept(s, s', t, c); }
    forall u | u in s'.threads ensures ThreadOk(s', u) {
      if u != t { ThreadKept(s, s', t, u); }
    }
  }

  /** Slot ownership.  From the winning compare-exchange to the sequence store a thread is the
      only one that may touch its cell: no two owners, producer or consumer, share a cell. */
  lemma OwnersApart<T>(s: State<T>, t: Tid, u: Tid)
    requires Inv(s) && t in s.threads && u in s.threads && t != u
    requires Owning(s.threads[t]) && Owning(s.threads[u])
    ensures Slot(s.threads[t].pos, |s.sequences|) != Slot(s.threads[u].pos, |s.sequences|)
  {
    assert ThreadOk(s, t) && ThreadOk(s, u);
    NextTicketNextCell(s.threads[t].pos, |s.sequences|);
    NextTicketNextCell(s.threads[u].pos, |s.sequences|);
  }

  /** The cell of an owned ticket, seen from its owner. */
  lemma OwnedCell<T>(s: State<T>, t: Tid)
    requires Inv(s) && t in s.threads && Owning(s.threads[t])
    ensures var p := s.threads[t].pos; var c := Slot(p, |s.sequences|);
      if s.threads[t].EnqMove? || s.threads[t].EnqPublish? then FreeCell(s, c, p) && s.sequences[c] == p
      else FullCell(s, c, p + 1) && s.sequences[c] == p + 1
  {
    var n, p := |s.sequences|, s.threads[t].pos;
    assert ThreadOk(s, t);
    assert CellOk(s, Slot(p, n));
    NextTicketNextCell(p, n);
    if p >= 1 { NextTicketNextCell(p - 1, n); }
  }

  /** A step of an owner on its own cell: everything but that cell and that thread is kept. */
  lemma OwnerStep<T>(s: State<T>, s': State<T>, t: Tid)
    requires Inv(s) && Grows(s, s', t) && Owning(s.threads[t])
    requires s'.enqueuePos == s.enqueuePos && s'.dequeuePos == s.dequeuePos
    requires var o := Slot(s.threads[t].pos, |s.sequences|);
      forall c :: 0 <= c < |s.sequences| && c != o ==> s'.sequences[c] == s.sequences[c] && s'.cells[c] == s.cells[c]
    requires CellOk(s', Slot(s.threads[t].pos, |s.sequences|)) && ThreadOk(s', t)
    ensures Inv(s')
  {
    forall c | 0 <= c < |s.sequences| ensures CellOk(s', c) {
      if c != Slot(s.threads[t].pos, |s.sequences|) { CellKept(s, s', t, c); }
    }
    forall u | u in s'.threads ensures ThreadOk(s', u) {
      if u != t {
        if Owning(s.threads[u]) { OwnersApart(s, t, u); }
        ThreadKept(s, s', t, u);
      }
    }
  }

  /** The winning compare-exchange of enqueue. */
  lemma EnqueueWin<T>(s: State<T>, t: Tid)
    requires Inv(s) && t in s.threads && s.threads[t].EnqCas? && s.threads[t].pos == s.enqueuePos
    ensures Inv(TickStep(s, t, false))
  {
    var s' := TickStep(s, t, false);
    var n, e := |s.sequences|, s.enqueuePos;
    assert ThreadOk(s, t);
    NextEnqueueCell(s);
    assert Window(s');
    forall c | 0 <= c < n ensures CellOk(s', c) {
      if c == Slot(e, n) {
        assert FreeCell(s', c, e);
      } else {
        CellKept(s, s', t, c);
      }
    }
    forall u | u in s'.threads ensures ThreadOk(s', u) {
      if u != t { ThreadKept(s, s', t, u); }
    }
  }

  /** Moving the item into the cell. */
  lemma EnqueueMove<T>(s: State<T>, t: Tid)
    requires Inv(s) && t in s.threads && s.threads[t].EnqMove?
    ensures Inv(TickStep(s, t, false))
  {
    var s' := TickStep(s, t, false);
    var p := s.threads[t].pos;
    OwnedCell(s, t);
    assert ThreadOk(s, t);
    assert FreeCell(s', Slot(p, |s.sequences|), p);
    OwnerStep(s, s', t);
  }

  /** Storing pos + 1: the ticket becomes visible to consumers. */
  lemma EnqueuePublish<T>(s: State<T>, t: Tid)
    requires Inv(s) && t in s.threads && s.threads[t].EnqPublish?
    ensures Inv(TickStep(s, t, false))
  {
    var s' := TickStep(s, t, false);
    var p := s.threads[t].pos;
    OwnedCell(s, t);
    assert ThreadOk(s, t);
    assert FullCell(s', Slot(p, |s.sequences|), p + 1);
    OwnerStep(s, s', t);
  }

  /** The winning compare-exchange of dequeue. */
  lemma DequeueWin<T>(s: State<T>, t: Tid)
    requires Inv(s) && t in s.threads && s.threads[t].DeqCas? && s.threads[t].pos == s.dequeuePos
    ensures Inv(TickStep(s, t, false))
  {
    var s' := TickStep(s, t, false);
    var n, d := |s.sequences|, s.dequeuePos;
    assert ThreadOk(s, t);
    NextDequeueCell(s);
    assert Window(s');
    forall c | 0 <= c < n ensures CellOk(s', c) {
      if c == Slot(d, n) {
        assert FullCell(s', c, d + 1);
      } else {
        CellKept(s, s', t, c);
      }
    }
    forall u | u in s'.threads ensures ThreadOk(s', u) {
      if u != t { ThreadKept(s, s', t, u); }
    }
  }

  /** Moving the item out of the cell. */
  lemma DequeueMove<T>(s: State<T>, t: Tid)
    requires Inv(s) && t in s.threads && s.threads[t].DeqMove?
    ensures Inv(TickStep(s, t, false))
  {
    var s' := TickStep(s, t, false);
    var p := s.threads[t].pos;
    OwnedCell(s, t);
    assert ThreadOk(s, t);
    assert FullCell(s', Slot(p, |s.sequences|), p + 1);
    OwnerStep(s, s', t);
  }

  /** Storing pos + N: the cell is free for the ticket one lap later. */
  lemma DequeueRelease<T>(s: State<T>, t: Tid)
    requires Inv(s) && t in s.threads && s.threads[t].DeqRelease?
    ensures Inv(TickStep(s, t, false))
  {
    var s' := TickStep(s, t, false);
    var n, p := |s.sequences|, s.threads[t].pos;
    OwnedCell(s, t);
    assert ThreadOk(s, t);
    assert Slot(p + n, n) == Slot(p, n);
    assert FreeCell(s', Slot(p, n), p + n);
    OwnerStep(s, s', t);
  }

  /** Loads and failed compare-exchanges. */
  lemma LoadStep<T>(s: State<T>, t: Tid, weak: bool)
    requires Inv(s) && t in s.threads
    requires match s.threads[t]
      case EnqLoadPos(_) => true
      case EnqLoadSeq(_, _) => true
      case EnqCas(_, pos) => pos != s.enqueuePos || weak
      case DeqLoadPos => true
      case DeqLoadSeq(_) => true
      case DeqCas(pos) => pos != s.dequeuePos || weak
      case _ => false
    ensures Inv(TickStep(s, t, weak))
  {
    var pc := TickStep(s, t, weak).threads[t];
    assert ThreadOk(s, t);
    assert TickStep(s, t, weak) == At(s, t, pc);
    LocalStep(s, t, pc);
  }

  lemma TickInv<T>(s: State<T>, t: Tid, weak: bool)
    requires Inv(s) && t in s.threads
    ensures Inv(TickStep(s, t, weak))
  {
    match s.threads[t]
    case EnqLoadPos(_) => LoadStep(s, t, weak);
    case EnqLoadSeq(_, _) => LoadStep(s, t, weak);
    case EnqCas(_, pos) => if pos == s.enqueuePos && !weak { EnqueueWin(s, t); } else { LoadStep(s, t, weak); }
    case EnqMove(_, _) => EnqueueMove(s, t);
    case EnqPublish(_) => EnqueuePublish(s, t);
    case DeqLoadPos => LoadStep(s, t, weak);
    case DeqLoadSeq(_) => LoadStep(s, t, weak);
    case DeqCas(pos) => if pos == s.dequeuePos && !weak { DequeueWin(s, t); } else { LoadStep(s, t, weak); }
    case DeqMove(_) => DequeueMove(s, t);
    case DeqRelease(_, _) => DequeueRelease(s, t);
    case Idle =>
    case EnqReturn(_, _) =>
    case DeqReturn(_, _) =>
  }

  /** Every step of every thread keeps the invariant. */
  lemma StepInv<T>(s: State<T>, t: Tid, a: Action<T>)
    requires Inv(s)
    ensures Inv(Next(s, t, a))
  {
    if t in s.threads {
      match a
      case StartEnqueue(item) => if Resting(s.threads[t]) { LocalStep(s, t, EnqLoadPos(item)); }
      case StartDequeue => if Resting(s.threads[t]) { LocalStep(s, t, DeqLoadPos); }
      case Tick(weak) => TickInv(s, t, weak);
    }
  }

  lemma {:induction false} RunInv<T>(s: State<T>, schedule: seq<Event<T>>)
    requires Inv(s)
    ensures Inv(Run(s, schedule))
    decreases |schedule|
  {
    if schedule != [] {
      StepInv(s, schedule[0].t, schedule[0].a);
      RunInv(Next(s, schedule[0].t, schedule[0].a), schedule[1..]);
    }
  }

  lemma TicketFacts<T>(s: State<T>, t: Tid)
    requires Inv(s) && t in s.threads
    ensures Window(s)
    ensures var x := s.threads[t];
      && (x.DeqRelease? ==> x.pos < |s.taken| && s.taken[x.pos] == t && x.got == Some(s.put[x.pos].item))
      && (x.EnqMove? || x.EnqPublish? ==> x.pos < |s.put| && s.put[x.pos].owner == t)
  {
    assert ThreadOk(s, t);
  }

  /** In every state that any interleaving reaches: positions stay within one lap, a consumer takes
      at ticket p exactly the item put at ticket p and no two consumers (or producers) have the
      same ticket, and no two threads may touch the same cell. */
  lemma EveryInterleaving<T>(n: nat, tids: set<Tid>, schedule: seq<Event<T>>, t: Tid, u: Tid)
    requires n >= 2 && t in tids && u in tids && t != u
    ensures var s := Run(Init<T>(n, tids), schedule);
      && s.dequeuePos <= s.enqueuePos <= s.dequeuePos + n && s.enqueuePos == |s.put| && s.dequeuePos == |s.taken|
      && t in s.threads && u in s.threads
      && var x, y := s.threads[t], s.threads[u];
         && (x.DeqRelease? ==> x.pos < |s.taken| <= |s.put| && s.taken[x.pos] == t && x.got == Some(s.put[x.pos].item))
         && (x.EnqMove? || x.EnqPublish? ==> x.pos < |s.put| && s.put[x.pos].owner == t)
         && (Owning(x) && Owning(y) ==> Slot(x.pos, n) != Slot(y.pos, n))
  {
    InitInv<T>(n, tids);
    RunInv(Init<T>(n, tids), schedule);
    hide Inv;
    var s := Run(Init<T>(n, tids), schedule);
    TicketFacts(s, t);
    hide Init, Run, Owning;
    if Owning(s.threads[t]) && Owning(s.threads[u]) { OwnersApart(s, t, u); }
  }
}
