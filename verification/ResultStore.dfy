/** Stored results: tickets are handed out, results saved under them by workers, and fetched in one
    piece or in chunks bounded by the caller's output size. */
module ResultStore {
  import opened Numerals

  datatype Entry = Entry(message: string, wait: bool)

  /** `next` is an unsigned 32-bit counter. */
  datatype Store = Store(stored: map<nat, Entry>, next: nat)

  const WORD_32: nat := 0x1_0000_0000
  const FIRST_ID: nat := 100   // 1 is reserved
  const EMPTY: Store := Store(map[], FIRST_ID)

  datatype Event =
    | Submit                                          // an asynchronous call: a ticket for later
    | Sync(message: string, outputSize: nat)          // a synchronous call that produced message
    | Save(id: nat, message: string)
    | SaveAll(ids: seq<nat>, message: string)
    | GetSingle(id: nat, outputSize: nat)
    | GetMulti(id: nat, outputSize: nat)

  datatype Reply =
    | Ticket(id: nat)
    | Direct(text: string)
    | Payload(text: string)
    | Waiting
    | TooLong
    | Blank
    | Silence

  /** What the caller reads. */
  function Wire(reply: Reply): string {
    match reply
    case Ticket(id) => "[2,\"" + Decimal(id) + "\"]"
    case Direct(text) => text
    case Payload(text) => text
    case Waiting => "[3]"
    case TooLong => "[5]"
    case _ => ""
  }

  function SaveEach(stored: map<nat, Entry>, ids: seq<nat>, message: string): map<nat, Entry>
    decreases |ids|
  {
    if ids == [] then stored else SaveEach(stored[ids[0] := Entry(message, false)], ids[1..], message)
  }

  function Allocate(s: Store, entry: Entry): (Store, Reply) {
    (Store(s.stored[s.next := entry], (s.next + 1) % WORD_32), Ticket(s.next))
  }

  function Apply(s: Store, e: Event): (Store, Reply) {
    match e
    case Submit =>
      // wait is set on whatever entry is already there
      Allocate(s, Entry(if s.next in s.stored then s.stored[s.next].message else "", true))
    case Sync(message, outputSize) =>
      if |message| <= outputSize then (s, Direct(message)) else Allocate(s, Entry(message, false))
    case Save(id, message) => (s.(stored := s.stored[id := Entry(message, false)]), Silence)
    case SaveAll(ids, message) => (s.(stored := SaveEach(s.stored, ids, message)), Silence)
    case GetSingle(id, outputSize) =>
      if id !in s.stored then (s, Blank)
      else if s.stored[id].wait then (s, Waiting)
      else if |s.stored[id].message| > outputSize then (s, TooLong)
      else (s.(stored := s.stored - {id}), Payload(s.stored[id].message))
    case GetMulti(id, outputSize) =>
      if id !in s.stored then (s, Blank)
      else if s.stored[id].wait then (s, Waiting)
      else
        var m := s.stored[id].message;
        if m == "" then (s.(stored := s.stored - {id}), Blank)
        else if |m| > outputSize then (s.(stored := s.stored[id := Entry(m[outputSize..], false)]), Payload(m[..outputSize]))
        else (s.(stored := s.stored[id := Entry("", false)]), Payload(m))
  }

  // ----- runs -----

  /** The store after a run of events, in the order in which the mutex let them in. */
  function After(events: seq<Event>): Store {
    if events == [] then EMPTY else Apply(After(events[..|events| - 1]), events[|events| - 1]).0
  }

  /** Tickets handed out so far. */
  function Tickets(events: seq<Event>): seq<nat> {
    if events == [] then []
    else
      var before := events[..|events| - 1];
      var reply := Apply(After(before), events[|events| - 1]).1;
      Tickets(before) + (if reply.Ticket? then [reply.id] else [])
  }

  /** Payloads delivered for one id, joined. */
  function Delivered(events: seq<Event>, id: nat): string {
    if events == [] then ""
    else
      var before, e := events[..|events| - 1], events[|events| - 1];
      var reply := Apply(After(before), e).1;
      Delivered(before, id) + (if reply.Payload? && e.id == id then reply.text else "")
  }

  function Copies(ids: seq<nat>, id: nat, message: string): seq<string> {
    if ids == [] then [] else (if ids[0] == id then [message] else []) + Copies(ids[1..], id, message)
  }

  /** What one event saves under an id. */
  function SavedBy(s: Store, e: Event, id: nat): seq<string> {
    match e
    case Save(i, message) => if i == id then [message] else []
    case SaveAll(ids, message) => Copies(ids, id, message)
    case Sync(message, outputSize) => if |message| > outputSize && s.next == id then [message] else []
    case _ => []
  }

  /** Every message saved under an id, in order. */
  function Saves(events: seq<Event>, id: nat): seq<string> {
    if events == [] then []
    else
      var before := events[..|events| - 1];
      Saves(before, id) + SavedBy(After(before), events[|events| - 1], id)
  }

  /** Workers save under tickets they were given, or under ids below the first ticket. */
  predicate KnownIds(e: Event, tickets: nat) {
    match e
    case Save(id, _) => id < FIRST_ID + tickets
    case SaveAll(ids, _) => forall i :: 0 <= i < |ids| ==> ids[i] < FIRST_ID + tickets
    case _ => true
  }

  predicate KnownRun(events: seq<Event>) {
    events == []
    || (KnownRun(events[..|events| - 1]) && KnownIds(events[|events| - 1], |Tickets(events[..|events| - 1])|))
  }

  // ----- tickets -----

  /** The counter counts the tickets, and a ticket is the counter's value. */
  lemma CounterStep(s: Store, e: Event)
    ensures var (s', reply) := Apply(s, e);
      if reply.Ticket? then reply.id == s.next && s'.next == (s.next + 1) % WORD_32 else s'.next == s.next
  {
  }

  lemma CountOn(n: nat)
    ensures (n % WORD_32 + 1) % WORD_32 == (n + 1) % WORD_32
  {
  }

  /** The k-th ticket is 100 + k, as a 32-bit number. */
  lemma {:induction false} TicketNumbers(events: seq<Event>)
    ensures After(events).next == (100 + |Tickets(events)|) % 4294967296
    ensures forall k :: 0 <= k < |Tickets(events)| ==> Tickets(events)[k] == (100 + k) % 4294967296
  {
    hide Apply;
    if events != [] {
      var before := events[..|events| - 1];
      TicketNumbers(before);
      CounterStep(After(before), events[|events| - 1]);
      CountOn(FIRST_ID + |Tickets(before)|);
    }
  }

  /** Tickets are distinct, and never the reserved 1, until 2^32 - 100 have been handed out. */
  lemma TicketsFresh(events: seq<Event>, j: nat, k: nat)
    requires j < |Tickets(events)| <= 4294967196 && k < |Tickets(events)|
    ensures Tickets(events)[k] != 1 && (Tickets(events)[j] == Tickets(events)[k] <==> j == k)
  {
    hide Tickets;
    TicketNumbers(events);
  }

  /** Exactly which tickets collide: those a multiple of 2^32 apart. */
  lemma TicketsCollide(events: seq<Event>, j: nat, k: nat)
    requires j < k < |Tickets(events)|
    ensures Tickets(events)[j] == Tickets(events)[k] <==> (k - j) % 4294967296 == 0
  {
    hide Tickets;
    TicketNumbers(events);
    SameRemainder(FIRST_ID + j, FIRST_ID + k);
  }

  lemma SameRemainder(a: nat, b: nat)
    requires a <= b
    ensures a % WORD_32 == b % WORD_32 <==> (b - a) % WORD_32 == 0
  {
  }

  // ----- conservation -----

  /** What the store holds for an id, given what was saved and delivered. */
  predicate Accounted(s: Store, id: nat, saves: seq<string>, delivered: string) {
    && (saves == [] ==> delivered == "" && (id in s.stored ==> s.stored[id] == Entry("", true)))
    && (|saves| == 1 ==>
         if id in s.stored then !s.stored[id].wait && delivered + s.stored[id].message == saves[0]
         else delivered == saves[0])
  }

  predicate Untouched(s: Store, id: nat, saves: seq<string>) {
    id !in s.stored && saves == []
  }

  lemma {:induction false} SaveEachAt(stored: map<nat, Entry>, ids: seq<nat>, message: string, id: nat)
    ensures var r := SaveEach(stored, ids, message); var c := Copies(ids, id, message);
      if c == [] then (id in r <==> id in stored) && (id in r ==> r[id] == stored[id])
      else c[|c| - 1] == message && id in r && r[id] == Entry(message, false)
    ensures id !in ids ==> Copies(ids, id, message) == []
    decreases |ids|
  {
    if ids != [] {
      SaveEachAt(stored[ids[0] := Entry(message, false)], ids[1..], message, id);
    }
  }

  /** One event keeps the account of an id that is not being handed out by it. */
  lemma EventAccounts(s: Store, e: Event, id: nat, saves: seq<string>, delivered: string)
    requires Accounted(s, id, saves, delivered)
    requires Apply(s, e).1.Ticket? && s.next == id ==> Untouched(s, id, saves) && delivered == ""
    ensures var (s', reply) := Apply(s, e);
      Accounted(s', id, saves + SavedBy(s, e, id), delivered + (if reply.Payload? && e.id == id then reply.text else ""))
  {
    if e.SaveAll? { SaveEachAt(s.stored, e.ids, e.message, id); }
    if e.GetMulti? && e.id == id && id in s.stored {
      var m := s.stored[id].message;
      if |m| > e.outputSize { assert delivered + m == (delivered + m[..e.outputSize]) + m[e.outputSize..]; }
    }
  }

  lemma EventUntouched(s: Store, e: Event, id: nat, tickets: nat)
    requires id >= FIRST_ID + tickets && KnownIds(e, tickets) && Untouched(s, id, [])
    requires Apply(s, e).1.Ticket? ==> s.next != id
    ensures Untouched(Apply(s, e).0, id, SavedBy(s, e, id))
    ensures Apply(s, e).1.Payload? ==> e.id != id
  {
    if e.SaveAll? { SaveEachAt(s.stored, e.ids, e.message, id); }
  }

  /** An id that was not handed out yet is not stored and has nothing saved or delivered. */
  lemma {:induction false} FutureIds(events: seq<Event>, id: nat)
    requires KnownRun(events) && |Tickets(events)| <= WORD_32 - FIRST_ID && id >= FIRST_ID + |Tickets(events)|
    ensures Untouched(After(events), id, Saves(events, id)) && Delivered(events, id) == ""
  {
    hide Apply, SavedBy, KnownIds;
    if events != [] {
      var before, e := events[..|events| - 1], events[|events| - 1];
      FutureIds(before, id);
      TicketNumbers(before);
      EventUntouched(After(before), e, id, |Tickets(before)|);
    }
  }

  /** Conservation, for every interleaving of callers and workers over any number of ids: of a
      message saved once, what was delivered followed by what is still stored is the message, and
      when the entry is gone all of it was delivered; before the save nothing is delivered. */
  lemma {:induction false} Conservation(events: seq<Event>, id: nat)
    requires KnownRun(events) && |Tickets(events)| <= WORD_32 - FIRST_ID
    ensures Accounted(After(events), id, Saves(events, id), Delivered(events, id))
  {
    if events != [] {
      var before, e := events[..|events| - 1], events[|events| - 1];
      Conservation(before, id);
      TicketNumbers(before);
      if Apply(After(before), e).1.Ticket? && After(before).next == id {
        FutureIds(before, id);
      }
      EventAccounts(After(before), e, id, Saves(before, id), Delivered(before, id));
    }
  }

  // ----- what the caller reads -----

  /** No answer of the store is longer than the caller's buffer; a result in one piece is the whole
      of it, and a chunk fills the buffer unless it is all that is left. */
  lemma ChunkFits(s: Store, e: Event)
    requires Apply(s, e).1.Payload? || Apply(s, e).1.Direct?
    ensures var text := Wire(Apply(s, e).1);
      && |text| <= e.outputSize
      && (e.GetSingle? || e.GetMulti? ==> e.id in s.stored && !s.stored[e.id].wait && text <= s.stored[e.id].message)
      && (e.GetSingle? ==> text == s.stored[e.id].message)
      && (e.GetMulti? && |text| < e.outputSize ==> text == s.stored[e.id].message)
  {
  }

  /** The other answers to a poll leave the store alone and have words of their own: nothing for an
      unknown id, [3] while the result is waited for, [5] for one that does not fit in one piece. */
  lemma ControlReplies(s: Store, e: Event)
    requires e.GetSingle? || e.GetMulti?
    ensures var (s', reply) := Apply(s, e);
      && (e.id !in s.stored ==> Wire(reply) == "" && s' == s)
      && (e.id in s.stored && s.stored[e.id].wait ==> Wire(reply) == "[3]" && s' == s)
      && (e.id in s.stored && !s.stored[e.id].wait ==>
           && (e.GetSingle? && |s.stored[e.id].message| > e.outputSize ==> Wire(reply) == "[5]" && s' == s)
           && (e.GetSingle? && |s.stored[e.id].message| <= e.outputSize ==> reply.Payload? && e.id !in s'.stored)
           && (e.GetMulti? ==> (reply.Payload? <==> s.stored[e.id].message != "") && (e.id !in s'.stored <==> s.stored[e.id].message == "")))
  {
  }

  lemma TicketText(id: nat) returns (digits: string)
    ensures Wire(Ticket(id)) == "[2,\"" + digits + "\"]"
    ensures digits != "" && AllDigits(digits) && Value(digits, 10) == id
  {
    digits := Decimal(id);
    DecimalDigits(id);
    NumeralReadsBack(id, 10, false);
  }

  /** A synchronous call whose result fits is answered with the result and leaves the store alone;
      otherwise the answer names the number under which exactly this result is now stored, ready. */
  lemma SyncAnswer(s: Store, message: string, outputSize: nat) returns (digits: string)
    ensures |message| <= outputSize ==> Wire(Apply(s, Sync(message, outputSize)).1) == message && Apply(s, Sync(message, outputSize)).0 == s
    ensures |message| > outputSize ==>
      && Wire(Apply(s, Sync(message, outputSize)).1) == "[2,\"" + digits + "\"]"
      && digits != "" && AllDigits(digits)
      && Apply(s, Sync(message, outputSize)).0.stored == s.stored[Value(digits, 10) := Entry(message, false)]
  {
    assert Wire(Direct(message)) == message;
    digits := TicketText(s.next);
    hide Wire, AllDigits, Value;
  }

  /** An asynchronous call is answered with the number under which a result is now waited for. */
  lemma SubmitAnswer(s: Store) returns (digits: string)
    ensures Wire(Apply(s, Submit).1) == "[2,\"" + digits + "\"]"
    ensures digits != "" && AllDigits(digits) && Value(digits, 10) == s.next
    ensures var (stored, key) := (Apply(s, Submit).0.stored, Value(digits, 10));
      && key in stored && stored[key].wait
      && forall id :: id != key ==> (id in stored <==> id in s.stored) && (id in stored ==> stored[id] == s.stored[id])
  {
    digits := TicketText(s.next);
    hide Wire, AllDigits, Value;
  }

  // ----- the extension object -----

  class Ext {
    var storedResults: map<nat, Entry>
    var uniqueIdCounter: nat

    constructor ()
      ensures State() == EMPTY
    {
      storedResults := map[];
      uniqueIdCounter := FIRST_ID;
    }

    function State(): Store
      reads this
    {
      Store(storedResults, uniqueIdCounter)
    }

    /** Something happened to the store as the event says, and `output` is what was answered. */
    twostate predicate Did(e: Event, output: string)
      reads this
    {
      State() == Apply(old(State()), e).0 && output == Wire(Apply(old(State()), e).1)
    }

    method NextId() returns (id: nat)
      modifies this`uniqueIdCounter
      ensures id == old(uniqueIdCounter) && uniqueIdCounter == (id + 1) % WORD_32
    {
      id := uniqueIdCounter;
      uniqueIdCounter := (uniqueIdCounter + 1) % WORD_32;
    }

    method SubmitAsync() returns (output: string)
      modifies this
      ensures Did(Submit, output)
    {
      var id := NextId();
      if id !in storedResults { storedResults := storedResults[id := Entry("", true)]; }
      storedResults := storedResults[id := storedResults[id].(wait := true)];
      output := "[2,\"" + Decimal(id) + "\"]";
    }

    method SaveNewResult(message: string) returns (id: nat)
      modifies this
      ensures (State(), Ticket(id)) == Allocate(old(State()), Entry(message, false))
    {
      id := NextId();
      storedResults := storedResults[id := Entry(message, true)];
      storedResults := storedResults[id := storedResults[id].(wait := false)];
      assert storedResults == old(storedResults)[id := Entry(message, false)];
    }

    method SyncCall(message: string, outputSize: nat) returns (output: string)
      modifies this
      ensures Did(Sync(message, outputSize), output)
    {
      if |message| <= outputSize {
        output := message;
      } else {
        var id := SaveNewResult(message);
        output := "[2,\"" + Decimal(id) + "\"]";
      }
    }

    method SaveResult(id: nat, message: string)
      modifies this
      ensures State() == Apply(old(State()), Save(id, message)).0
    {
      storedResults := storedResults[id := Entry(message, true)];
      storedResults := storedResults[id := storedResults[id].(wait := false)];
    }

    method SaveResults(ids: seq<nat>, message: string)
      modifies this
      ensures State() == Apply(old(State()), SaveAll(ids, message)).0
    {
      for k := 0 to |ids|
        invariant uniqueIdCounter == old(uniqueIdCounter)
        invariant SaveEach(storedResults, ids[k..], message) == SaveEach(old(storedResults), ids, message)
      {
        ghost var before := storedResults;
        storedResults := storedResults[ids[k] := Entry(message, true)];
        storedResults := storedResults[ids[k] := storedResults[ids[k]].(wait := false)];
        assert storedResults == before[ids[k] := Entry(message, false)];
        assert ids[k..][1..] == ids[k + 1..];
      }
    }

    method GetSinglePartResult(id: nat, outputSize: nat) returns (output: string)
      modifies this
      ensures Did(GetSingle(id, outputSize), output)
    {
      if id !in storedResults {
        output := "";
      } else if storedResults[id].wait {
        output := "[3]";
      } else if |storedResults[id].message| > outputSize {
        output := "[5]";
      } else {
        output := storedResults[id].message;
        storedResults := storedResults - {id};
      }
    }

    method GetMultiPartResult(id: nat, outputSize: nat) returns (output: string)
      modifies this
      ensures Did(GetMulti(id, outputSize), output)
    {
      if id !in storedResults {
        output := "";
      } else if storedResults[id].wait {
        output := "[3]";
      } else if storedResults[id].message == "" {
        storedResults := storedResults - {id};
        output := "";
      } else if |storedResults[id].message| > outputSize {
        output := storedResults[id].message[..outputSize];
        storedResults := storedResults[id := storedResults[id].(message := storedResults[id].message[outputSize..])];
      } else {
        output := storedResults[id].message;
        storedResults := storedResults[id := storedResults[id].(message := "")];
      }
    }
  }
}
