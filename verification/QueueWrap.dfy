/** The queue as compiled: 64-bit counters that wrap, cells indexed by masking, and a signed
    difference deciding the branch.  It takes the same branches as QueueMachine. */
module QueueWrap {
  import opened Wrappers
  import opened Slots
  import opened Bits
  import opened QueueMachine
  import opened QueueInvariant

  const WORD: nat := 0x1_0000_0000_0000_0000
  const QUARTER: nat := 0x4000_0000_0000_0000

  function W(x: nat): (r: nat)
    ensures r < WORD
  {
    x % WORD
  }

  /** (intptr_t)seq - (intptr_t)pos in two's complement. */
  function Dif(q: nat, pos: nat): int
    requires q < WORD && pos < WORD
  {
    var d := if q >= pos then q - pos else q - pos + WORD;
    if d < WORD / 2 then d else d - WORD
  }

  predicate Masked<T>(s: State<T>, mask: nat) {
    && |s.sequences| == |s.cells| == mask + 1
    && (forall c :: 0 <= c < |s.sequences| ==> s.sequences[c] < WORD)
  }

  function NextW<T>(s: State<T>, mask: nat, t: Tid, a: Action<T>): State<T>
    requires Masked(s, mask)
  {
    if t !in s.threads then s else
    match a
    case StartEnqueue(item) => if Resting(s.threads[t]) then At(s, t, EnqLoadPos(item)) else s
    case StartDequeue => if Resting(s.threads[t]) then At(s, t, DeqLoadPos) else s
    case Tick(weak) => TickW(s, mask, t, weak)
  }

  function TickW<T>(s: State<T>, mask: nat, t: Tid, weak: bool): State<T>
    requires Masked(s, mask) && t in s.threads
  {
    match s.threads[t]
    case Idle => s
    case EnqReturn(_, _) => s
    case DeqReturn(_, _) => s
    case EnqLoadPos(item) => At(s, t, EnqLoadSeq(item, s.enqueuePos))
    case EnqLoadSeq(item, pos) =>
      var dif := Dif(s.sequences[And(pos, mask)], W(pos));
      if dif == 0 then At(s, t, EnqCas(item, pos))
      else if dif < 0 then At(s, t, EnqReturn(false, Some(item)))
      else At(s, t, EnqLoadPos(item))
    case EnqCas(item, pos) =>
      if s.enqueuePos == pos && !weak then
        At(s, t, EnqMove(item, pos)).(enqueuePos := W(pos + 1), put := s.put + [Ticket(t, item)])
      else At(s, t, EnqLoadSeq(item, s.enqueuePos))
    case EnqMove(item, pos) =>
      At(s, t, EnqPublish(pos)).(cells := s.cells[And(pos, mask) := Some(item)])
    case EnqPublish(pos) =>
      At(s, t, EnqReturn(true, None)).(sequences := s.sequences[And(pos, mask) := W(pos + 1)])
    case DeqLoadPos => At(s, t, DeqLoadSeq(s.dequeuePos))
    case DeqLoadSeq(pos) =>
      var dif := Dif(s.sequences[And(pos, mask)], W(pos + 1));
      if dif == 0 then At(s, t, DeqCas(pos))
      else if dif < 0 then At(s, t, DeqReturn(false, None))
      else At(s, t, DeqLoadPos)
    case DeqCas(pos) =>
      if s.dequeuePos == pos && !weak then
        At(s, t, DeqMove(pos)).(dequeuePos := W(pos + 1), taken := s.taken + [t])
      else At(s, t, DeqLoadSeq(s.dequeuePos))
    case DeqMove(pos) =>
      At(s, t, DeqRelease(pos, s.cells[And(pos, mask)])).(cells := s.cells[And(pos, mask) := None])
    case DeqRelease(pos, got) =>
      At(s, t, DeqReturn(true, got)).(sequences := s.sequences[And(pos, mask) := W(pos + mask + 1)])
  }

  // ----- the machine seen through 64-bit words -----

  function WrapPc<T>(pc: Pc<T>): Pc<T> {
    match pc
    case EnqLoadSeq(item, pos) => EnqLoadSeq(item, W(pos))
    case EnqCas(item, pos) => EnqCas(item, W(pos))
    case EnqMove(item, pos) => EnqMove(item, W(pos))
    case EnqPublish(pos) => EnqPublish(W(pos))
    case DeqLoadSeq(pos) => DeqLoadSeq(W(pos))
    case DeqCas(pos) => DeqCas(W(pos))
    case DeqMove(pos) => DeqMove(W(pos))
    case DeqRelease(pos, got) => DeqRelease(W(pos), got)
    case _ => pc
  }

  function WrapAll(q: seq<nat>): (r: seq<nat>)
    ensures |r| == |q| && forall i :: 0 <= i < |q| ==> r[i] == W(q[i])
  {
    seq(|q|, i requires 0 <= i < |q| => W(q[i]))
  }

  function Wrap<T>(s: State<T>): State<T> {
    State(W(s.enqueuePos), W(s.dequeuePos), WrapAll(s.sequences), s.cells,
          map t | t in s.threads :: WrapPc(s.threads[t]), s.put, s.taken)
  }

  /** No thread sleeps between loading a position and using it while 2^62 tickets go by. */
  predicate NoLag<T>(s: State<T>) {
    forall t :: t in s.threads ==>
      match s.threads[t]
      case EnqLoadSeq(_, pos) => s.enqueuePos < pos + QUARTER
      case EnqCas(_, pos) => s.enqueuePos < pos + QUARTER
      case DeqLoadSeq(pos) => s.dequeuePos < pos + QUARTER
      case DeqCas(pos) => s.dequeuePos < pos + QUARTER
      case _ => true
  }

  lemma MaskOfWrapped(p: nat, k: nat)
    requires k <= 62
    ensures And(W(p), Pow2(k) - 1) == Slot(p, Pow2(k))
  {
    MaskIsSlot(W(p), k);
    var laps := p / WORD;
    assert p == W(p) + WORD * laps;
    WordIsPow2();
    WholeWords(W(p), k, laps);
  }

  lemma WholeWords(w: nat, k: nat, laps: nat)
    requires k <= 62
    ensures w + Pow2(64) * laps >= 0
    ensures Slot(w + Pow2(64) * laps, Pow2(k)) == Slot(w, Pow2(k))
  {
    Pow2Add(k, 64 - k);
    MulAssociates(Pow2(k), Pow2(64 - k), laps);
    assert Pow2(64 - k) * laps >= 0;
    SlotOfLap(w, Pow2(k), Pow2(64 - k) * laps);
  }

  lemma WordIsPow2()
    ensures Pow2(64) == WORD && Pow2(62) == QUARTER
  {
    assert Pow2(4) == 16;
    Pow2Add(4, 4);
    Pow2Add(8, 8);
    Pow2Add(16, 16);
    assert Pow2(32) == 0x1_0000_0000;
    Pow2Add(32, 32);
    assert Pow2(64) == 4 * Pow2(62);
  }

  /** The signed difference of wrapped numbers has the sign of the true difference. */
  lemma DifIsTrue(q: nat, p: nat)
    requires -(WORD / 2) <= q - p < WORD / 2
    ensures Dif(W(q), W(p)) == q - p
  {
    assert q == W(q) + WORD * (q / WORD) && p == W(p) + WORD * (p / WORD);
    assert -1 <= q / WORD - p / WORD <= 1;
  }

  lemma WrappedEqual(p: nat, q: nat)
    requires p <= q < p + WORD
    ensures W(p) == W(q) <==> p == q
  {
    assert q == W(q) + WORD * (q / WORD) && p == W(p) + WORD * (p / WORD);
  }

  lemma WrapSum(p: nat, d: nat)
    ensures W(W(p) + d) == W(p + d)
  {
    assert p == W(p) + WORD * (p / WORD);
  }

  lemma WrapAt<T>(s: State<T>, t: Tid, pc: Pc<T>)
    requires t in s.threads
    ensures Wrap(At(s, t, pc)).threads == Wrap(s).threads[t := WrapPc(pc)]
  {
  }

  predicate Near(q: nat, pos: nat) {
    pos <= q + QUARTER && q < pos + 2 * QUARTER
  }

  /** The loaded sequence is near the position it was loaded for. */
  lemma LoadedNear<T>(s: State<T>, k: nat, pos: nat)
    requires Inv(s) && |s.sequences| == Pow2(k) && k <= 62
    requires pos <= s.enqueuePos < pos + QUARTER || pos <= s.dequeuePos < pos + QUARTER
    ensures Near(s.sequences[Slot(pos, |s.sequences|)], pos)
  {
    Pow2Monotone(k, 62);
    WordIsPow2();
    var n, q := |s.sequences|, s.sequences[Slot(pos, |s.sequences|)];
    assert CellOk(s, Slot(pos, n));
    if pos > s.dequeuePos { assert FreeCell(s, Slot(pos, n), q) || FullCell(s, Slot(pos, n), q); }
  }

  /** The branch on the signed difference of words is the branch on the true difference. */
  lemma BranchWraps(q: nat, pos: nat)
    requires Near(q, pos)
    ensures Dif(W(q), W(W(pos))) == q - pos && Dif(W(q), W(W(pos) + 1)) == q - (pos + 1)
  {
    DifIsTrue(q, pos);
    DifIsTrue(q, pos + 1);
    WrapSum(pos, 0);
    WrapSum(pos, 1);
  }

  lemma EnqueueLoadWraps<T>(s: State<T>, k: nat, t: Tid, weak: bool)
    requires Shaped(s) && |s.sequences| == Pow2(k) && k <= 62
    requires t in s.threads && s.threads[t].EnqLoadSeq?
    requires Near(s.sequences[Slot(s.threads[t].pos, Pow2(k))], s.threads[t].pos)
    ensures TickW(Wrap(s), Pow2(k) - 1, t, weak) == Wrap(TickStep(s, t, weak))
  {
    hide Slot, Pow2, W, And, Near;
    var pos := s.threads[t].pos;
    MaskOfWrapped(pos, k);
    BranchWraps(s.sequences[Slot(pos, Pow2(k))], pos);
    WrapAt(s, t, TickStep(s, t, weak).threads[t]);
  }

  lemma DequeueLoadWraps<T>(s: State<T>, k: nat, t: Tid, weak: bool)
    requires Shaped(s) && |s.sequences| == Pow2(k) && k <= 62
    requires t in s.threads && s.threads[t].DeqLoadSeq?
    requires Near(s.sequences[Slot(s.threads[t].pos, Pow2(k))], s.threads[t].pos)
    ensures TickW(Wrap(s), Pow2(k) - 1, t, weak) == Wrap(TickStep(s, t, weak))
  {
    hide Slot, Pow2, W, And, Near;
    var pos := s.threads[t].pos;
    MaskOfWrapped(pos, k);
    BranchWraps(s.sequences[Slot(pos, Pow2(k))], pos);
    WrapAt(s, t, TickStep(s, t, weak).threads[t]);
  }

  lemma CasWraps<T>(s: State<T>, mask: nat, t: Tid, weak: bool)
    requires Shaped(s) && |s.sequences| == mask + 1
    requires t in s.threads
    requires match s.threads[t]
      case EnqCas(_, pos) => pos <= s.enqueuePos < pos + QUARTER
      case DeqCas(pos) => pos <= s.dequeuePos < pos + QUARTER
      case _ => false
    ensures TickW(Wrap(s), mask, t, weak) == Wrap(TickStep(s, t, weak))
  {
    WrappedEqual(s.threads[t].pos, if s.threads[t].EnqCas? then s.enqueuePos else s.dequeuePos);
    WrapSum(s.threads[t].pos, 1);
    WrapAt(s, t, TickStep(s, t, weak).threads[t]);
  }

  lemma ProducerWraps<T>(s: State<T>, k: nat, t: Tid, weak: bool)
    requires Shaped(s) && |s.sequences| == Pow2(k) && k <= 62
    requires t in s.threads && (s.threads[t].EnqMove? || s.threads[t].EnqPublish?)
    ensures TickW(Wrap(s), Pow2(k) - 1, t, weak) == Wrap(TickStep(s, t, weak))
  {
    hide Slot, Pow2, W, And;
    var pos := s.threads[t].pos;
    MaskOfWrapped(pos, k);
    WrapSum(pos, 1);
    WrapAt(s, t, TickStep(s, t, weak).threads[t]);
    WrapUpdate(s.sequences, Slot(pos, Pow2(k)), pos + 1);
  }

  lemma ConsumerWraps<T>(s: State<T>, k: nat, t: Tid, weak: bool)
    requires Shaped(s) && |s.sequences| == Pow2(k) && k <= 62
    requires t in s.threads && (s.threads[t].DeqMove? || s.threads[t].DeqRelease?)
    ensures TickW(Wrap(s), Pow2(k) - 1, t, weak) == Wrap(TickStep(s, t, weak))
  {
    hide Slot, Pow2, W, And;
    var pos := s.threads[t].pos;
    MaskOfWrapped(pos, k);
    WrapSum(pos, Pow2(k));
    WrapAt(s, t, TickStep(s, t, weak).threads[t]);
    WrapUpdate(s.sequences, Slot(pos, Pow2(k)), pos + Pow2(k));
  }

  lemma WrapUpdate(q: seq<nat>, c: nat, x: nat)
    requires c < |q|
    ensures WrapAll(q[c := x]) == WrapAll(q)[c := W(x)]
  {
  }

  lemma TickWraps<T>(s: State<T>, k: nat, t: Tid, weak: bool)
    requires Inv(s) && |s.sequences| == Pow2(k) && k <= 62 && NoLag(s) && t in s.threads
    ensures TickW(Wrap(s), Pow2(k) - 1, t, weak) == Wrap(TickStep(s, t, weak))
  {
    assert ThreadOk(s, t);
    match s.threads[t]
    case EnqLoadSeq(_, pos) => LoadedNear(s, k, pos); EnqueueLoadWraps(s, k, t, weak);
    case DeqLoadSeq(pos) => LoadedNear(s, k, pos); DequeueLoadWraps(s, k, t, weak);
    case EnqCas(_, _) => CasWraps(s, Pow2(k) - 1, t, weak);
    case DeqCas(_) => CasWraps(s, Pow2(k) - 1, t, weak);
    case EnqMove(_, _) => ProducerWraps(s, k, t, weak);
    case EnqPublish(_) => ProducerWraps(s, k, t, weak);
    case DeqMove(_) => ConsumerWraps(s, k, t, weak);
    case DeqRelease(_, _) => ConsumerWraps(s, k, t, weak);
    case EnqLoadPos(item) => WrapAt(s, t, EnqLoadSeq(item, s.enqueuePos));
    case DeqLoadPos => WrapAt(s, t, DeqLoadSeq(s.dequeuePos));
    case _ =>
  }

  /** The compiled queue takes exactly the ideal queue's step. */
  lemma StepWraps<T>(s: State<T>, k: nat, t: Tid, a: Action<T>)
    requires Inv(s) && |s.sequences| == Pow2(k) && k <= 62 && NoLag(s)
    ensures NextW(Wrap(s), Pow2(k) - 1, t, a) == Wrap(Next(s, t, a))
  {
    hide TickW, TickStep, NoLag, Pow2;
    if t in s.threads {
      match a
      case StartEnqueue(item) => WrapAt(s, t, EnqLoadPos(item));
      case StartDequeue => WrapAt(s, t, DeqLoadPos);
      case Tick(weak) => TickWraps(s, k, t, weak);
    }
  }

  function RunW<T>(s: State<T>, mask: nat, schedule: seq<Event<T>>): State<T>
    requires Masked(s, mask)
    decreases |schedule|
  {
    if schedule == [] then s
    else RunW(NextW(s, mask, schedule[0].t, schedule[0].a), mask, schedule[1..])
  }

  /** Along every schedule in which no thread lags by 2^62 tickets, the compiled queue and the
      ideal queue stay in step, for every accepted size up to 2^62. */
  lemma {:induction false} RunWraps<T>(s: State<T>, k: nat, schedule: seq<Event<T>>)
    requires Inv(s) && |s.sequences| == Pow2(k) && k <= 62
    requires forall i :: 0 <= i <= |schedule| ==> NoLag(Run(s, schedule[..i]))
    ensures RunW(Wrap(s), Pow2(k) - 1, schedule) == Wrap(Run(s, schedule))
    decreases |schedule|
  {
    if schedule != [] {
      var s' := Next(s, schedule[0].t, schedule[0].a);
      assert Run(s, schedule[..0]) == s;
      StepWraps(s, k, schedule[0].t, schedule[0].a);
      StepInv(s, schedule[0].t, schedule[0].a);
      forall i | 0 <= i <= |schedule[1..]| ensures NoLag(Run(s', schedule[1..][..i])) {
        assert schedule[..i + 1][1..] == schedule[1..][..i];
        assert Run(s, schedule[..i + 1]) == Run(s', schedule[1..][..i]);
      }
      RunWraps(s', k, schedule[1..]);
    }
  }
}
