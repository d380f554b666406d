/** Reassembly of messages that a remote-console server splits over several datagrams. */
module RconReassembly {
  // ----- datagrams -----

  /** Counts and indexes are read through a signed character. */
  datatype Packet =
    | Command(number: nat, text: string)
    | Fragment(number: nat, count: int, index: int, text: string)

  function Signed(c: char): int {
    if c as int < 128 then c as int else c as int - 256
  }

  function Extract(buffer: seq<char>, received: nat, pos: nat): string
    requires received <= |buffer|
  {
    if pos < received then buffer[pos..received] else ""
  }

  function Decode(buffer: seq<char>, received: nat): Packet
    requires received <= |buffer| && |buffer| >= 12
  {
    if !(buffer[9] == '\0' && received > 9) then Command(buffer[8] as int, Extract(buffer, received, 9))
    else Fragment(buffer[8] as int, Signed(buffer[10]), Signed(buffer[11]), Extract(buffer, received, 12))
  }

  predicate IsByte(n: nat) {
    n < 256
  }

  /** The datagram of one fragment, behind its eight bytes of header. */
  function Datagram(header: string, number: nat, count: nat, index: nat, text: string): string
    requires |header| == 8 && IsByte(number) && IsByte(count) && IsByte(index)
  {
    header + [number as char, '\0', count as char, index as char] + text
  }

  function SignedByte(n: nat): int {
    if n < 128 then n else n - 256
  }

  /** A fragment survives the wire whatever the buffer held behind it. */
  lemma DatagramDecodes(header: string, number: nat, count: nat, index: nat, text: string, stale: string)
    requires |header| == 8 && IsByte(number) && IsByte(count) && IsByte(index)
    ensures var d := Datagram(header, number, count, index, text);
      Decode(d + stale, |d|) == Fragment(number, SignedByte(count), SignedByte(index), text)
  {
    var d := Datagram(header, number, count, index, text);
    assert (d + stale)[12..|d|] == text;
  }

  // ----- the cache -----

  /** How many fragments came, and their texts by index. */
  datatype Entry = Entry(first: int, parts: map<int, string>)

  type Cache = map<nat, Entry>

  function PartAt(parts: map<int, string>, i: int): string {
    if i in parts then parts[i] else ""
  }

  /** The texts of indexes 0 to n - 1, joined. */
  function Assembled(parts: map<int, string>, n: nat): string {
    if n == 0 then "" else Assembled(parts, n - 1) + PartAt(parts, n - 1)
  }

  datatype Message = Message(number: nat, text: string)

  /** One datagram: the new cache, and the message it completes, if any. */
  function Receive(cache: Cache, p: Packet): (Cache, seq<Message>) {
    match p
    case Command(number, text) => (cache, [Message(number, text)])
    case Fragment(number, count, index, text) =>
      if number !in cache then (cache[number := Entry(1, map[index := text])], [])
      else
        var entry := Entry(cache[number].first + 1, cache[number].parts[index := text]);
        if entry.first == count then
          (cache - {number}, [Message(number, Assembled(entry.parts, if count > 0 then count else 0))])
        else (cache[number := entry], [])
  }

  function ReceiveAll(cache: Cache, packets: seq<Packet>): (Cache, seq<Message>)
    decreases |packets|
  {
    if packets == [] then (cache, [])
    else
      var (next, messages) := Receive(cache, packets[0]);
      var (end, more) := ReceiveAll(next, packets[1..]);
      (end, messages + more)
  }

  class Rcon {
    const recvBuffer: array<char>
    var msgCache: Cache
    var processed: seq<Message>   // the messages handed on, in order

    constructor (recvBuffer: array<char>)
      ensures this.recvBuffer == recvBuffer && msgCache == map[] && processed == []
    {
      this.recvBuffer := recvBuffer;
      msgCache, processed := map[], [];
    }

    method ExtractData(bytesReceived: nat, pos: nat) returns (result: string)
      requires bytesReceived <= recvBuffer.Length
      ensures result == Extract(recvBuffer[..], bytesReceived, pos)
    {
      result := "";
      var i := pos;
      while i < bytesReceived
        invariant pos <= i && (i <= bytesReceived || i == pos)
        invariant result == if pos < i then recvBuffer[pos..i] else ""
      {
        result := result + [recvBuffer[i]];
        i := i + 1;
      }
    }

    method ProcessMessage(number: nat, text: string)
      modifies this`processed
      ensures processed == old(processed) + [Message(number, text)]
    {
      processed := processed + [Message(number, text)];
    }

    method ServerResponse(bytesReceived: nat)
      requires bytesReceived <= recvBuffer.Length && recvBuffer.Length >= 12
      modifies this
      ensures var (cache, messages) := Receive(old(msgCache), Decode(recvBuffer[..], bytesReceived));
        msgCache == cache && processed == old(processed) + messages
    {
      var sequenceNum := recvBuffer[8] as int;
      if !(recvBuffer[9] == '\0' && bytesReceived > 9) {
        var result := ExtractData(bytesReceived, 9);
        ProcessMessage(sequenceNum, result);
      } else {
        var numPackets, packetNum := Signed(recvBuffer[10]), Signed(recvBuffer[11]);
        var partial := ExtractData(bytesReceived, 12);
        if sequenceNum !in msgCache {
          msgCache := msgCache[sequenceNum := Entry(1, map[])];
          msgCache := msgCache[sequenceNum := Entry(1, map[packetNum := partial])];
        } else {
          var entry := msgCache[sequenceNum];
          entry := Entry(entry.first + 1, entry.parts[packetNum := partial]);
          if entry.first == numPackets {
            var result, i := "", 0;
            while i < numPackets
              invariant 0 <= i && (i <= numPackets || i == 0) && result == Assembled(entry.parts, i)
            {
              result := result + PartAt(entry.parts, i);
              i := i + 1;
            }
            ProcessMessage(sequenceNum, result);
            msgCache := msgCache - {sequenceNum};
          } else {
            msgCache := msgCache[sequenceNum := entry];
          }
        }
      }
    }
  }

  /** An answer in one datagram: whatever the buffer held behind it, its text is handed on under its
      number at once, and the fragments collected so far stay as they are. */
  lemma CommandHandedOn(cache: Cache, header: string, number: nat, text: string, stale: string)
    requires |header| == 8 && IsByte(number) && |header| + 1 + |text| + |stale| >= 12
    requires text == "" || text[0] != '\0'
    ensures var d := header + [number as char] + text;
      Receive(cache, Decode(d + stale, |d|)) == (cache, [Message(number, text)])
  {
    var d := header + [number as char] + text;
    assert (d + stale)[8] == number as char;
    if text == "" {
      assert |d| == 9;
    } else {
      assert (d + stale)[9] == text[0] && (d + stale)[9..|d|] == text;
    }
  }

  // ----- sequence numbers do not disturb each other -----

  function Only(packets: seq<Packet>, q: nat): seq<Packet> {
    if packets == [] then [] else (if packets[0].number == q then [packets[0]] else []) + Only(packets[1..], q)
  }

  function MessagesOf(messages: seq<Message>, q: nat): seq<string> {
    if messages == [] then []
    else (if messages[0].number == q then [messages[0].text] else []) + MessagesOf(messages[1..], q)
  }

  predicate Agree(a: Cache, b: Cache, q: nat) {
    (q in a <==> q in b) && (q in a ==> a[q] == b[q])
  }

  lemma {:induction false} MessagesAppend(a: seq<Message>, b: seq<Message>, q: nat)
    ensures MessagesOf(a + b, q) == MessagesOf(a, q) + MessagesOf(b, q)
  {
    if a == [] {
      assert a + b == b;
    } else {
      assert (a + b)[1..] == a[1..] + b;
      MessagesAppend(a[1..], b, q);
    }
  }

  lemma ReceiveOther(a: Cache, p: Packet, q: nat)
    requires p.number != q
    ensures Agree(Receive(a, p).0, a, q) && MessagesOf(Receive(a, p).1, q) == []
  {
  }

  lemma ReceiveSame(a: Cache, b: Cache, p: Packet)
    requires Agree(a, b, p.number)
    ensures Agree(Receive(a, p).0, Receive(b, p).0, p.number) && Receive(a, p).1 == Receive(b, p).1
  {
  }

  /** What happens to one sequence number depends on its own packets only. */
  lemma {:induction false} Independent(a: Cache, b: Cache, packets: seq<Packet>, q: nat)
    requires Agree(a, b, q)
    ensures var r, s := ReceiveAll(a, packets), ReceiveAll(b, Only(packets, q));
      Agree(r.0, s.0, q) && MessagesOf(r.1, q) == MessagesOf(s.1, q)
    decreases |packets|
  {
    hide Receive;
    if packets != [] {
      var p := packets[0];
      var (next, messages) := Receive(a, p);
      MessagesAppend(messages, ReceiveAll(next, packets[1..]).1, q);
      if p.number == q {
        ReceiveSame(a, b, p);
        Independent(next, Receive(b, p).0, packets[1..], q);
        assert Only(packets, q)[1..] == Only(packets[1..], q);
        MessagesAppend(messages, ReceiveAll(Receive(b, p).0, Only(packets[1..], q)).1, q);
      } else {
        ReceiveOther(a, p, q);
        Independent(next, b, packets[1..], q);
        assert Only(packets, q) == Only(packets[1..], q);
      }
    }
  }

  // ----- a message in fragments -----

  function Concat(texts: seq<string>): string {
    if texts == [] then "" else Concat(texts[..|texts| - 1]) + texts[|texts| - 1]
  }

  /** The fragments of a message in some order of arrival. */
  function Fragments(q: nat, texts: seq<string>, order: seq<nat>): (r: seq<Packet>)
    requires forall k :: 0 <= k < |order| ==> order[k] < |texts|
    ensures |r| == |order|
  {
    seq(|order|, k requires 0 <= k < |order| =>
      Fragment(q, SignedByte(|texts|), SignedByte(order[k]), texts[order[k]]))
  }

  /** Every fragment arrives once. */
  predicate Arrivals(n: nat, order: seq<nat>) {
    && |order| == n && (forall k :: 0 <= k < n ==> order[k] < n)
    && forall i :: 0 <= i < n ==> i in order
  }

  predicate Collected(parts: map<int, string>, texts: seq<string>, order: seq<nat>, k: nat)
    requires k <= |order| && forall j :: 0 <= j < |order| ==> order[j] < |texts|
  {
    forall j :: 0 <= j < k ==> SignedByte(order[j]) in parts && parts[SignedByte(order[j])] == texts[order[j]]
  }

  /** With k fragments received, the entry holds them and is not complete. */
  predicate Partly(cache: Cache, q: nat, texts: seq<string>, order: seq<nat>, k: nat)
    requires k <= |order| && forall j :: 0 <= j < |order| ==> order[j] < |texts|
  {
    if k == 0 then q !in cache
    else q in cache && cache[q].first == k && Collected(cache[q].parts, texts, order, k)
  }

  lemma SignedInjective(i: nat, j: nat)
    requires IsByte(i) && IsByte(j) && SignedByte(i) == SignedByte(j)
    ensures i == j
  {
  }

  lemma {:induction false} AssembledInOrder(parts: map<int, string>, texts: seq<string>, order: seq<nat>, n: nat)
    requires Arrivals(|texts|, order) && |texts| <= 127 && n <= |texts| && Collected(parts, texts, order, |order|)
    ensures Assembled(parts, n) == Concat(texts[..n])
  {
    if n > 0 {
      AssembledInOrder(parts, texts, order, n - 1);
      var last: nat := n - 1;
      assert last in order;
      var j :| 0 <= j < |order| && order[j] == last;
      assert SignedByte(order[j]) == n - 1;
      assert texts[..n][..n - 1] == texts[..n - 1];
    }
  }

  lemma CollectedMore(parts: map<int, string>, texts: seq<string>, order: seq<nat>, k: nat)
    requires k < |order| == |texts| < 256 && Arrivals(|texts|, order) && Collected(parts, texts, order, k)
    ensures Collected(parts[SignedByte(order[k]) := texts[order[k]]], texts, order, k + 1)
  {
    var more := parts[SignedByte(order[k]) := texts[order[k]]];
    forall j | 0 <= j < k + 1
      ensures SignedByte(order[j]) in more && more[SignedByte(order[j])] == texts[order[j]]
    {
      if SignedByte(order[j]) == SignedByte(order[k]) { SignedInjective(order[j], order[k]); }
    }
  }

  lemma OneMore(cache: Cache, q: nat, texts: seq<string>, order: seq<nat>, k: nat)
    requires k < |order| == |texts| < 256 && Arrivals(|texts|, order) && Partly(cache, q, texts, order, k)
    ensures var (next, messages) := Receive(cache, Fragments(q, texts, order)[k]);
      if 0 < k == |texts| - 1 && |texts| <= 127 then q !in next && messages == [Message(q, Concat(texts))]
      else Partly(next, q, texts, order, k + 1) && messages == []
  {
    hide Collected, Assembled, Concat;
    var p := Fragments(q, texts, order)[k];
    var parts := (if k > 0 then cache[q].parts else map[])[p.index := p.text];
    NothingCollected(texts, order);
    CollectedMore(if k > 0 then cache[q].parts else map[], texts, order, k);
    if k == |texts| - 1 && |texts| <= 127 {
      AssembledInOrder(parts, texts, order, |texts|);
      assert texts[..|texts|] == texts;
    }
  }

  lemma NothingCollected(texts: seq<string>, order: seq<nat>)
    requires forall j :: 0 <= j < |order| ==> order[j] < |texts|
    ensures Collected(map[], texts, order, 0)
  {
  }

  lemma {:induction false} FromFragment(cache: Cache, q: nat, texts: seq<string>, order: seq<nat>, k: nat)
    requires k < |order| == |texts| < 256 && Arrivals(|texts|, order) && Partly(cache, q, texts, order, k)
    ensures var (end, messages) := ReceiveAll(cache, Fragments(q, texts, order)[k..]);
      if 2 <= |texts| <= 127 then q !in end && messages == [Message(q, Concat(texts))]
      else q in end && messages == []
    decreases |order| - k
  {
    hide Receive, Concat;
    var fragments := Fragments(q, texts, order);
    OneMore(cache, q, texts, order, k);
    assert fragments[k..][0] == fragments[k] && fragments[k..][1..] == fragments[k + 1..];
    var next := Receive(cache, fragments[k]).0;
    if k + 1 < |order| {
      FromFragment(next, q, texts, order, k + 1);
    } else {
      assert fragments[k + 1..] == [];
    }
  }

  /** Fragments 0 to n - 1 of one message, each arriving once, in any order and among any packets
      of other sequence numbers, give exactly one message, their concatenation in index order, and
      leave nothing behind, exactly when 2 <= n <= 127.  A single fragment and 128 or more of them
      (their count reads as negative) give no message and stay in the cache. */
  lemma Reassembled(cache: Cache, packets: seq<Packet>, q: nat, texts: seq<string>, order: seq<nat>)
    requires 1 <= |texts| < 256 && Arrivals(|texts|, order) && q !in cache
    requires Only(packets, q) == Fragments(q, texts, order)
    ensures var (end, messages) := ReceiveAll(cache, packets);
      && (MessagesOf(messages, q) == [Concat(texts)] && q !in end <==> 2 <= |texts| <= 127)
      && (!(2 <= |texts| <= 127) ==> MessagesOf(messages, q) == [] && q in end)
  {
    hide Fragments, Concat;
    Independent(cache, cache, packets, q);
    FromFragment(cache, q, texts, order, 0);
    assert Fragments(q, texts, order)[0..] == Fragments(q, texts, order);
    assert MessagesOf([Message(q, Concat(texts))], q) == [Concat(texts)];
  }
}
