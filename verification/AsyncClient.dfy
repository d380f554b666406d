/** The polling client on the other side of the result store. */
module AsyncClient {
  import opened Wrappers
  import opened ResultStore
  import Numerals
  import G = SqfGrammar
  import R = SqfRoundTrip

  // ----- the protocol between one client and everybody else -----

  /** Between two calls: polling for a first answer, collecting chunks, or finished. */
  datatype Client = Polling | Collecting(text: string) | Done(result: string)

  function Request(c: Client, key: nat, outputSize: nat): Event {
    if c.Polling? then GetSingle(key, outputSize) else GetMulti(key, outputSize)
  }

  function React(c: Client, answer: string): Client {
    match c
    case Polling => if answer == "[5]" then Collecting("") else if answer == "[3]" then Polling else Done(answer)
    case Collecting(text) => if answer == "" then Done(text) else Collecting(text + answer)
    case Done(_) => c
  }

  datatype System = System(store: Store, client: Client)

  function Poll(sys: System, key: nat, outputSize: nat): System {
    if sys.client.Done? then sys
    else
      var (store, reply) := Apply(sys.store, Request(sys.client, key, outputSize));
      System(store, React(sys.client, Wire(reply)))
  }

  /** Somebody else's event leaves the key alone: a ticket for another call, another id's result,
      another client's polls. */
  predicate LeavesKey(s: Store, e: Event, key: nat) {
    match e
    case Submit => s.next != key
    case Sync(_, _) => s.next != key
    case Save(id, _) => id != key
    case SaveAll(ids, _) => key !in ids
    case GetSingle(id, _) => id != key
    case GetMulti(id, _) => id != key
  }

  lemma OthersLeaveKey(s: Store, e: Event, key: nat)
    requires LeavesKey(s, e, key)
    ensures var s' := Apply(s, e).0;
      (key in s'.stored <==> key in s.stored) && (key in s.stored ==> s'.stored[key] == s.stored[key])
  {
    if e.SaveAll? { SaveEachAt(s.stored, e.ids, e.message, key); }
  }

  /** The messages that come through: the store's two control words do not when they fit into the
      caller's buffer, and without a buffer only the empty message does. */
  predicate Transferable(m: string, outputSize: nat) {
    (m == "" || outputSize >= 1) && (outputSize < 3 || (m != "[3]" && m != "[5]"))
  }

  function Outcome(m: string, outputSize: nat): string {
    if Transferable(m, outputSize) then m else ""
  }

  predicate WaitingFor(sys: System, key: nat) {
    sys.client.Polling? && key in sys.store.stored && sys.store.stored[key].wait
  }

  /** From the save on. */
  predicate Transferring(sys: System, key: nat, m: string, outputSize: nat) {
    match sys.client
    case Polling =>
      if key in sys.store.stored then sys.store.stored[key] == Entry(m, false)
      else Outcome(m, outputSize) == ""
    case Collecting(text) =>
      if key in sys.store.stored then
        && !sys.store.stored[key].wait && text + sys.store.stored[key].message == m
        && Outcome(m, outputSize) == (if outputSize == 0 then "" else m)
        && (outputSize == 0 ==> text == "" && m != "")
      else text == "" && Outcome(m, outputSize) == ""
    case Done(result) => result == Outcome(m, outputSize)
  }

  /** Polls that are still needed at most. */
  function Remaining(sys: System, key: nat): nat {
    match sys.client
    case Polling => if key in sys.store.stored then |sys.store.stored[key].message| + 2 else 1
    case Collecting(_) => if key in sys.store.stored then |sys.store.stored[key].message| + 1 else 1
    case Done(_) => 0
  }

  lemma ControlWords()
    ensures "[3]" != "[5]" && |"[3]"| == 3 && |"[5]"| == 3
  {
    assert "[3]"[1] != "[5]"[1];
  }

  lemma FirstAnswer(sys: System, key: nat, m: string, outputSize: nat)
    requires Transferring(sys, key, m, outputSize) && sys.client.Polling?
    ensures var sys' := Poll(sys, key, outputSize);
      Transferring(sys', key, m, outputSize) && Remaining(sys', key) < Remaining(sys, key)
  {
    ControlWords();
    if key in sys.store.stored && |m| > outputSize { assert "" + m == m; }
  }

  lemma NextChunk(sys: System, key: nat, m: string, outputSize: nat)
    requires Transferring(sys, key, m, outputSize) && sys.client.Collecting?
    ensures var sys' := Poll(sys, key, outputSize);
      Transferring(sys', key, m, outputSize) && Remaining(sys', key) < Remaining(sys, key)
  {
    if key in sys.store.stored {
      var text, rest := sys.client.text, sys.store.stored[key].message;
      if rest == "" {
        assert text + rest == text;
      } else if |rest| > outputSize {
        assert (text + rest[..outputSize]) + rest[outputSize..] == text + rest;
      } else {
        assert (text + rest) + "" == text + rest;
      }
    }
  }

  lemma PollTransfers(sys: System, key: nat, m: string, outputSize: nat)
    requires Transferring(sys, key, m, outputSize)
    ensures var sys' := Poll(sys, key, outputSize);
      && Transferring(sys', key, m, outputSize)
      && (!sys.client.Done? ==> Remaining(sys', key) < Remaining(sys, key))
  {
    if sys.client.Polling? { FirstAnswer(sys, key, m, outputSize); }
    else if sys.client.Collecting? { NextChunk(sys, key, m, outputSize); }
  }

  // ----- every interleaving -----

  datatype Turn = Mine | Other(e: Event)

  function Turns(sys: System, key: nat, outputSize: nat, turns: seq<Turn>): System
    decreases |turns|
  {
    if turns == [] then sys
    else Turns(TurnStep(sys, key, outputSize, turns[0]), key, outputSize, turns[1..])
  }

  function TurnStep(sys: System, key: nat, outputSize: nat, turn: Turn): System {
    match turn
    case Mine => Poll(sys, key, outputSize)
    case Other(e) => sys.(store := Apply(sys.store, e).0)
  }

  /** Nobody else touches the key. */
  predicate Private(sys: System, key: nat, outputSize: nat, turns: seq<Turn>)
    decreases |turns|
  {
    turns == []
    || ((turns[0].Other? ==> LeavesKey(sys.store, turns[0].e, key))
        && Private(TurnStep(sys, key, outputSize, turns[0]), key, outputSize, turns[1..]))
  }

  function MyTurns(turns: seq<Turn>): nat {
    if turns == [] then 0 else (if turns[0].Mine? then 1 else 0) + MyTurns(turns[1..])
  }

  /** While the result is missing the client keeps polling. */
  lemma {:induction false} WaitsForSave(sys: System, key: nat, outputSize: nat, turns: seq<Turn>)
    requires WaitingFor(sys, key) && Private(sys, key, outputSize, turns)
    ensures WaitingFor(Turns(sys, key, outputSize, turns), key)
    decreases |turns|
  {
    if turns != [] {
      ControlWords();
      if turns[0].Other? { OthersLeaveKey(sys.store, turns[0].e, key); }
      WaitsForSave(TurnStep(sys, key, outputSize, turns[0]), key, outputSize, turns[1..]);
    }
  }

  lemma {:induction false} KeepsTransferring(sys: System, key: nat, m: string, outputSize: nat, turns: seq<Turn>)
    requires Transferring(sys, key, m, outputSize) && Private(sys, key, outputSize, turns)
    ensures var r := Turns(sys, key, outputSize, turns);
      Transferring(r, key, m, outputSize) && (r.client.Done? || Remaining(r, key) + MyTurns(turns) <= Remaining(sys, key))
    decreases |turns|
  {
    hide Transferring, Poll;
    if turns != [] {
      var sys' := TurnStep(sys, key, outputSize, turns[0]);
      match turns[0]
      case Mine =>
        PollTransfers(sys, key, m, outputSize);
        KeepsTransferring(sys', key, m, outputSize, turns[1..]);
        if sys.client.Done? { StaysDone(sys', key, outputSize, turns[1..]); PollDone(sys, key, outputSize); }
      case Other(e) =>
        OtherTransfers(sys, key, m, outputSize, e);
        KeepsTransferring(sys', key, m, outputSize, turns[1..]);
    }
  }

  lemma PollDone(sys: System, key: nat, outputSize: nat)
    requires sys.client.Done?
    ensures Poll(sys, key, outputSize) == sys
  {
  }

  lemma {:induction false} StaysDone(sys: System, key: nat, outputSize: nat, turns: seq<Turn>)
    ensures sys.client.Done? ==> Turns(sys, key, outputSize, turns).client == sys.client
    decreases |turns|
  {
    if turns != [] { StaysDone(TurnStep(sys, key, outputSize, turns[0]), key, outputSize, turns[1..]); }
  }

  lemma OtherTransfers(sys: System, key: nat, m: string, outputSize: nat, e: Event)
    requires Transferring(sys, key, m, outputSize) && LeavesKey(sys.store, e, key)
    ensures var sys' := TurnStep(sys, key, outputSize, Other(e));
      Transferring(sys', key, m, outputSize) && Remaining(sys', key) == Remaining(sys, key)
  {
    hide Apply, LeavesKey;
    OthersLeaveKey(sys.store, e, key);
  }

  /** Whatever others do before and after the worker saves m under the client's key: the client is
      not finished before the save, and |m| + 2 of its own polls after it, it is finished, with m
      exactly when m is transferable and with nothing otherwise. */
  lemma ClientResult(sys: System, key: nat, m: string, outputSize: nat, before: seq<Turn>, after: seq<Turn>)
    requires WaitingFor(sys, key) && Private(sys, key, outputSize, before)
    requires Private(Saved(sys, key, m, outputSize, before), key, outputSize, after)
    requires MyTurns(after) >= |m| + 2
    ensures !Turns(sys, key, outputSize, before).client.Done?
    ensures var r := Turns(Saved(sys, key, m, outputSize, before), key, outputSize, after).client;
      r.Done? && (r.result == m <==> Transferable(m, outputSize)) && (r.result != m ==> r.result == "")
  {
    WaitsForSave(sys, key, outputSize, before);
    var saved := Saved(sys, key, m, outputSize, before);
    SavedTransfers(Turns(sys, key, outputSize, before), key, m, outputSize);
    KeepsTransferring(saved, key, m, outputSize, after);
    hide Turns, Saved;
    var r := Turns(saved, key, outputSize, after);
    assert r.client.Done? || Remaining(r, key) == 0;
    ControlWords();
  }

  function Saved(sys: System, key: nat, m: string, outputSize: nat, before: seq<Turn>): System {
    TurnStep(Turns(sys, key, outputSize, before), key, outputSize, Other(Save(key, m)))
  }

  lemma SavedTransfers(sys: System, key: nat, m: string, outputSize: nat)
    requires WaitingFor(sys, key)
    ensures var sys' := TurnStep(sys, key, outputSize, Other(Save(key, m)));
      Transferring(sys', key, m, outputSize) && sys'.client.Polling? && Remaining(sys', key) == |m| + 2
  {
  }

  // ----- from the ticket's text on -----

  /** The client compiles the answer as SQF and takes the second element of the array it gets. */
  function KeyOf(text: string): Option<nat> {
    var (values, rest) := G.ParseAll(text);
    if rest == "" && |values| == 1 && values[0].Arr? && |values[0].items| > 1 && values[0].items[1].Str?
       && values[0].items[1].text != "" && Numerals.AllDigits(values[0].items[1].text)
    then Some(Numerals.Value(values[0].items[1].text, 10))
    else None
  }

  lemma KeyIsRead(digits: string)
    requires digits != "" && Numerals.AllDigits(digits)
    ensures KeyOf("[2,\"" + digits + "\"]") == Some(Numerals.Value(digits, 10))
  {
    R.PairIsRead(2, digits);
    TicketSpelled(digits);
    hide Numerals.Value;
  }

  lemma TicketSpelled(digits: string)
    ensures "[" + [('0' as int + 2) as char] + ",\"" + digits + "\"]" == "[2,\"" + digits + "\"]"
  {
    assert "[" + ['2'] + ",\"" == "[2,\"";
  }

  /** From the text of an asynchronous call on: whatever others do before and after the worker's
      save, the client that polls under the key it reads from that text ends with the message. */
  lemma AsyncCall(s: Store, m: string, outputSize: nat, before: seq<Turn>, after: seq<Turn>)
    ensures KeyOf(Wire(Apply(s, Submit).1)).Some?
    ensures var (s', reply) := Apply(s, Submit);
      var key := KeyOf(Wire(reply)).value;
      var saved := Saved(System(s', Polling), key, m, outputSize, before);
      Private(System(s', Polling), key, outputSize, before) && Private(saved, key, outputSize, after) && MyTurns(after) >= |m| + 2 ==>
        var end := Turns(saved, key, outputSize, after).client;
        end.Done? && (end.result == m <==> Transferable(m, outputSize)) && (end.result != m ==> end.result == "")
  {
    var digits := SubmitAnswer(s);
    KeyIsRead(digits);
    hide KeyOf, Numerals.Value, Wire, Transferable, Turns, Saved, Private, MyTurns;
    var (s', reply) := Apply(s, Submit);
    var key := KeyOf(Wire(reply)).value;
    assert s'.stored[key].wait && key in s'.stored;
    if Private(System(s', Polling), key, outputSize, before) && MyTurns(after) >= |m| + 2
       && Private(Saved(System(s', Polling), key, m, outputSize, before), key, outputSize, after) {
      ClientResult(System(s', Polling), key, m, outputSize, before, after);
    }
  }

  /** From the text of a synchronous call on: a result that fits is the text; a longer one is
      collected under the key in the text, by any client with a buffer at all. */
  lemma SyncCall(s: Store, m: string, outputSize: nat, turns: seq<Turn>)
    ensures |m| <= outputSize ==> Wire(Apply(s, Sync(m, outputSize)).1) == m
    ensures |m| > outputSize ==> KeyOf(Wire(Apply(s, Sync(m, outputSize)).1)).Some?
    ensures var (s', reply) := Apply(s, Sync(m, outputSize));
      |m| > outputSize ==>
        var key := KeyOf(Wire(reply)).value;
        Private(System(s', Polling), key, outputSize, turns) && MyTurns(turns) >= |m| + 2 ==>
          var end := Turns(System(s', Polling), key, outputSize, turns).client;
          end.Done? && end.result == (if outputSize == 0 then "" else m)
  {
    var digits := SyncAnswer(s, m, outputSize);
    if |m| > outputSize {
      KeyIsRead(digits);
      var (s', reply) := Apply(s, Sync(m, outputSize));
      hide KeyOf, Numerals.Value, Wire, Turns, Private, MyTurns, Apply;
      var key := KeyOf(Wire(reply)).value;
      assert s'.stored[key] == Entry(m, false);
      if Private(System(s', Polling), key, outputSize, turns) && MyTurns(turns) >= |m| + 2 {
        KeepsTransferring(System(s', Polling), key, m, outputSize, turns);
        ControlWords();
      }
    }
  }

  // ----- the client's loops -----

  /** Events of others that name no key of this client. */
  predicate Elsewhere(e: Event, key: nat) {
    match e
    case Save(id, _) => id != key
    case SaveAll(ids, _) => key !in ids
    case GetSingle(id, _) => id != key
    case GetMulti(id, _) => id != key
    case _ => true
  }

  /** What others will do: somewhere among it the worker saves m under the key. */
  predicate Script(script: seq<Event>, key: nat, m: string, save: nat) {
    save < |script| && forall i :: 0 <= i < |script| ==> if i == save then script[i] == Save(key, m) else Elsewhere(script[i], key)
  }

  /** The key was handed out, and the events still to come cannot hand it out again. */
  predicate KeyTaken(s: Store, key: nat, events: nat) {
    events > 0 ==> key < s.next && s.next + events <= WORD_32
  }

  method Happen(ext: Ext, e: Event)
    modifies ext
    ensures ext.State() == Apply(old(ext.State()), e).0
  {
    match e
    case Submit => var _ := ext.SubmitAsync();
    case Sync(message, outputSize) => var _ := ext.SyncCall(message, outputSize);
    case Save(id, message) => ext.SaveResult(id, message);
    case SaveAll(ids, message) => ext.SaveResults(ids, message);
    case GetSingle(id, outputSize) => var _ := ext.GetSinglePartResult(id, outputSize);
    case GetMulti(id, outputSize) => var _ := ext.GetMultiPartResult(id, outputSize);
  }

  /** Where the client stands when script[..at] has happened. */
  ghost predicate OnTrack(s: Store, c: Client, key: nat, m: string, outputSize: nat, save: nat, at: nat) {
    if at <= save then c.Polling? && WaitingFor(System(s, c), key) else Transferring(System(s, c), key, m, outputSize)
  }

  lemma ScriptStep(s: Store, c: Client, key: nat, m: string, outputSize: nat, script: seq<Event>, save: nat, at: nat)
    requires Script(script, key, m, save) && at < |script|
    requires KeyTaken(s, key, |script| - at) && OnTrack(s, c, key, m, outputSize, save, at)
    ensures var s' := Apply(s, script[at]).0;
      && KeyTaken(s', key, |script| - at - 1) && OnTrack(s', c, key, m, outputSize, save, at + 1)
      && (at > save ==> Remaining(System(s', c), key) == Remaining(System(s, c), key))
  {
    hide Transferring;
    if at == save {
      SavedTransfers(System(s, c), key, m, outputSize);
    } else {
      OthersLeaveKey(s, script[at], key);
      if at > save { OtherTransfers(System(s, c), key, m, outputSize, script[at]); }
    }
  }

  /** While the client is between two calls, any number of events happens, at least one if any is left. */
  method Others(ext: Ext, ghost c: Client, key: nat, ghost m: string, outputSize: nat,
                script: seq<Event>, ghost save: nat, at: nat)
    returns (next: nat)
    requires Script(script, key, m, save) && at <= |script|
    requires KeyTaken(ext.State(), key, |script| - at) && OnTrack(ext.State(), c, key, m, outputSize, save, at)
    modifies ext
    ensures at <= next <= |script| && (at < |script| ==> at < next)
    ensures KeyTaken(ext.State(), key, |script| - next) && OnTrack(ext.State(), c, key, m, outputSize, save, next)
    ensures at > save ==> Remaining(System(ext.State(), c), key) == old(Remaining(System(ext.State(), c), key))
  {
    hide OnTrack, KeyTaken, Remaining;
    next := at;
    while next < |script|
      invariant at <= next <= |script|
      invariant KeyTaken(ext.State(), key, |script| - next) && OnTrack(ext.State(), c, key, m, outputSize, save, next)
      invariant at > save ==> Remaining(System(ext.State(), c), key) == old(Remaining(System(ext.State(), c), key))
    {
      ScriptStep(ext.State(), c, key, m, outputSize, script, save, next);
      Happen(ext, script[next]);
      next := next + 1;
      if * { break; }
    }
  }

  /** The client's script, from the ticket on: result in hand when its loops end, and they end. */
  method Fetch(ext: Ext, key: nat, ghost m: string, outputSize: nat, script: seq<Event>, ghost save: nat) returns (queryResult: string)
    requires Script(script, key, m, save) && KeyTaken(ext.State(), key, |script|)
    requires WaitingFor(System(ext.State(), Polling), key)
    modifies ext
    ensures queryResult == m <==> Transferable(m, outputSize)
    ensures queryResult != m ==> queryResult == ""
  {
    hide Transferring;
    ControlWords();
    queryResult := "";
    var loop, at := true, 0;
    while loop
      invariant at <= |script| && KeyTaken(ext.State(), key, |script| - at)
      invariant if loop then OnTrack(ext.State(), Polling, key, m, outputSize, save, at) else queryResult == Outcome(m, outputSize)
      decreases loop, if at <= save then save + 1 - at else 0, Remaining(System(ext.State(), Polling), key)
    {
      at := Others(ext, Polling, key, m, outputSize, script, save, at);
      if at > save { PollTransfers(System(ext.State(), Polling), key, m, outputSize); }
      queryResult := ext.GetSinglePartResult(key, outputSize);
      if queryResult == "[5]" {
        queryResult := "";
        while true
          invariant save < at <= |script| && KeyTaken(ext.State(), key, |script| - at) && loop
          invariant Transferring(System(ext.State(), Collecting(queryResult)), key, m, outputSize)
          decreases Remaining(System(ext.State(), Collecting(queryResult)), key)
        {
          at := Others(ext, Collecting(queryResult), key, m, outputSize, script, save, at);
          PollTransfers(System(ext.State(), Collecting(queryResult)), key, m, outputSize);
          var pipe := ext.GetMultiPartResult(key, outputSize);
          if pipe == "" {
            loop := false;
            DoneResult(System(ext.State(), Done(queryResult)), key, m, outputSize);
            break;
          }
          queryResult := queryResult + pipe;
        }
      } else if queryResult != "[3]" {
        loop := false;
        DoneResult(System(ext.State(), Done(queryResult)), key, m, outputSize);
      }
    }
  }

  /** The whole of the client: an asynchronous call, the key out of its answer, and the loops. */
  method CallAsync(ext: Ext, ghost m: string, outputSize: nat, script: seq<Event>, ghost save: nat) returns (queryResult: string)
    requires Script(script, ext.uniqueIdCounter, m, save)
    requires ext.uniqueIdCounter + 1 + |script| <= WORD_32
    modifies ext
    ensures queryResult == m <==> Transferable(m, outputSize)
    ensures queryResult != m ==> queryResult == ""
  {
    var text := ext.SubmitAsync();
    ghost var digits := SubmitAnswer(old(ext.State()));
    KeyIsRead(digits);
    hide KeyOf, Numerals.Value, Wire, Transferable, Script;
    queryResult := Fetch(ext, KeyOf(text).value, m, outputSize, script, save);
  }

  lemma DoneResult(sys: System, key: nat, m: string, outputSize: nat)
    requires Transferring(sys, key, m, outputSize) && sys.client.Done?
    ensures sys.client.result == Outcome(m, outputSize)
  {
  }
}
