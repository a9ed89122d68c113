/**
 * MessageHistory: the bounded store that correlates mirrored messages.
 *
 * Each direction is a lookup map plus a FIFO queue of the keys saved into
 * it: Slack -> Discord maps a Slack timestamp to the Discord message that
 * mirrors it, Discord -> Slack maps a Discord message ID to the Slack
 * timestamp of its mirror. A save appends the key to the queue, evicts the
 * queue head (and its map entry) once the queue holds more than
 * MaxMsgHistory - 1 keys, then writes the map; a remove takes the first
 * queued copy of the key out of the queue and the key out of the map.
 */
module History {
  import opened Wrappers

  /** Constants.MAX_MSG_HISTORY */
  const MaxMsgHistory: nat := 1000

  /** What the store keeps of a Discord message: its ID, its displayed text and the emotes of its reactions. */
  datatype DiscordMessage = DiscordMessage(id: int, contentDisplay: string, reactions: seq<string>)

  /** One direction of the store: the lookup map and the queue of saved keys, oldest first. */
  datatype Direction<K, V> = Direction(messages: map<K, V>, history: seq<K>)

  function Empty<K, V>(): Direction<K, V> {
    Direction(map[], [])
  }

  /** The queue stays within its bound and every mapped key is still queued. */
  predicate Consistent<K, V>(d: Direction<K, V>) {
    && |d.history| <= MaxMsgHistory - 1
    && forall k :: k in d.messages ==> k in d.history
  }

  /** `Map.get`: None stands for null. */
  function Lookup<K, V>(d: Direction<K, V>, key: K): Option<V> {
    if key in d.messages then Some(d.messages[key]) else None
  }

  /** The index of the first occurrence of `x` in `q`. */
  function FirstIndex<K(==)>(q: seq<K>, x: K): (i: nat)
    requires x in q
    ensures i < |q| && q[i] == x && x !in q[..i]
  {
    if q[0] == x then 0
    else
      var i := FirstIndex(q[1..], x);
      assert q[..i + 1] == [q[0]] + q[1..][..i];
      i + 1
  }

  /** `Queue.remove(Object)`: takes out the first occurrence of `x` only, keeping the order of the rest. */
  function RemoveFirst<K(==)>(q: seq<K>, x: K): seq<K> {
    if q == [] then []
    else if q[0] == x then q[1..]
    else [q[0]] + RemoveFirst(q[1..], x)
  }

  /** A remove splices out the first occurrence and nothing else; a missing element changes nothing. */
  lemma {:induction false} RemoveFirstSplices<K>(q: seq<K>, x: K)
    ensures x !in q ==> RemoveFirst(q, x) == q
    ensures x in q ==> RemoveFirst(q, x) == q[..FirstIndex(q, x)] + q[FirstIndex(q, x) + 1..]
    decreases |q|
  {
    if q != [] && q[0] != x {
      var tail := q[1..];
      RemoveFirstSplices(tail, x);
      if x in tail {
        var f := FirstIndex(tail, x);
        assert FirstIndex(q, x) == f + 1;
        assert [q[0]] + (tail[..f] + tail[f + 1..]) == q[..f + 1] + q[f + 2..];
      } else {
        assert [q[0]] + tail == q;
      }
    }
  }

  /** `saveDiscordMessage` / `saveSlackMessage` on one direction. */
  function Save<K, V>(d: Direction<K, V>, key: K, value: V): (r: Direction<K, V>)
    ensures Lookup(r, key) == Some(value)
  {
    var queued := d.history + [key];
    if |queued| > MaxMsgHistory - 1 then
      Direction((d.messages - {queued[0]})[key := value], queued[1..])
    else
      Direction(d.messages[key := value], queued)
  }

  /** `removeDiscordMessage` / `removeSlackMessage` on one direction. */
  function Drop<K, V>(d: Direction<K, V>, key: K): (r: Direction<K, V>)
    ensures Lookup(r, key) == None
  {
    Direction(d.messages - {key}, RemoveFirst(d.history, key))
  }

  /** A remove takes out only the given key: every other lookup answers as before. */
  lemma DropKeepsOthers<K, V>(d: Direction<K, V>, key: K)
    ensures forall k :: k != key ==> Lookup(Drop(d, key), k) == Lookup(d, k)
  {
  }

  /** Below the bound a save appends the key and changes no other mapping. */
  lemma SaveAppends<K, V>(d: Direction<K, V>, key: K, value: V)
    requires |d.history| < MaxMsgHistory - 1
    ensures Save(d, key, value).history == d.history + [key]
    ensures forall k :: Lookup(Save(d, key, value), k) == (if k == key then Some(value) else Lookup(d, k))
  {
  }

  /**
   * At the bound a save evicts exactly the queue head, the oldest saved key,
   * together with its mapping, and changes no other mapping.
   */
  lemma SaveEvictsOldest<K, V>(d: Direction<K, V>, key: K, value: V)
    requires |d.history| == MaxMsgHistory - 1
    ensures Save(d, key, value).history == d.history[1..] + [key]
    ensures forall k :: Lookup(Save(d, key, value), k) == (if k == key then Some(value) else if k == d.history[0] then None else Lookup(d, k))
  {
    assert (d.history + [key])[1..] == d.history[1..] + [key];
  }

  lemma SavePreservesConsistent<K, V>(d: Direction<K, V>, key: K, value: V)
    requires Consistent(d)
    ensures Consistent(Save(d, key, value))
  {
    var r := Save(d, key, value);
    var queued := d.history + [key];
    if |queued| > MaxMsgHistory - 1 {
      forall k | k in r.messages ensures k in r.history {
        if k == key {
          assert r.history[|r.history| - 1] == key;
        } else {
          var i :| 0 <= i < |d.history| && d.history[i] == k;
          assert i != 0;
          assert r.history[i - 1] == k;
        }
      }
    }
  }

  lemma DropPreservesConsistent<K, V>(d: Direction<K, V>, key: K)
    requires Consistent(d)
    ensures Consistent(Drop(d, key))
  {
    var r := Drop(d, key);
    RemoveFirstSplices(d.history, key);
    if key in d.history {
      var f := FirstIndex(d.history, key);
      forall k | k in r.messages ensures k in r.history {
        var i :| 0 <= i < |d.history| && d.history[i] == k;
        if i < f {
          assert r.history[i] == k;
        } else {
          assert i != f;
          assert r.history[i - 1] == k;
        }
      }
    }
  }

  lemma {:induction false} DistinctKeysBound<K>(q: seq<K>)
    ensures |set k | k in q| <= |q|
  {
    if q != [] {
      DistinctKeysBound(q[1..]);
      assert (set k | k in q) == {q[0]} + set k | k in q[1..];
    }
  }

  lemma {:induction false} SubsetBound<K>(a: set<K>, b: set<K>)
    requires a <= b
    ensures |a| <= |b|
  {
    assert b == a + (b - a);
  }

  /** A consistent direction maps no more keys than it queues, and queues at most MaxMsgHistory - 1. */
  lemma ConsistentBounds<K, V>(d: Direction<K, V>)
    requires Consistent(d)
    ensures |d.messages| <= |d.history| <= MaxMsgHistory - 1
  {
    var queued := set k | k in d.history;
    DistinctKeysBound(d.history);
    assert d.messages.Keys <= queued;
    SubsetBound(d.messages.Keys, queued);
  }

  /**
   * Re-saving a key that is still queued leaves its older copy in the queue.
   * When that copy reaches the head it is evicted together with the live
   * mapping, although a newer copy of the key is still queued.
   */
  lemma ResavedKeyLostWithOlderCopy<K, V>(d: Direction<K, V>, key: K, v1: V, other: K, v2: V)
    requires |d.history| == MaxMsgHistory - 2 && d.history[0] == key && other != key
    ensures Lookup(Save(d, key, v1), key) == Some(v1)
    ensures Save(d, key, v1).history == d.history + [key]
    ensures Lookup(Save(Save(d, key, v1), other, v2), key) == None
    ensures key in Save(Save(d, key, v1), other, v2).history
  {
    var d1 := Save(d, key, v1);
    var d2 := Save(d1, other, v2);
    assert d2.history[|d2.history| - 2] == key;
  }

  /** The keys of a sequence of saved pairs. */
  function Keys<K, V>(entries: seq<(K, V)>): (ks: seq<K>)
    ensures |ks| == |entries| && forall i :: 0 <= i < |ks| ==> ks[i] == entries[i].0
  {
    if entries == [] then [] else Keys(entries[..|entries| - 1]) + [entries[|entries| - 1].0]
  }

  /** Saving the pairs one after the other, oldest first. */
  function SaveAll<K, V>(d: Direction<K, V>, entries: seq<(K, V)>): Direction<K, V>
    decreases |entries|
  {
    if entries == [] then d
    else
      var last := entries[|entries| - 1];
      Save(SaveAll(d, entries[..|entries| - 1]), last.0, last.1)
  }

  /** The index of the oldest of `n` saves that a direction still holds. */
  function Oldest(n: nat): nat {
    if n > MaxMsgHistory - 1 then n - (MaxMsgHistory - 1) else 0
  }

  /**
   * Eviction is first-in first-out: after any saves into a fresh direction,
   * the queue holds exactly the keys of the newest MaxMsgHistory - 1 saves,
   * oldest first.
   */
  lemma {:induction false} SaveAllQueuesNewest<K, V>(entries: seq<(K, V)>)
    ensures SaveAll(Empty(), entries).history == Keys(entries)[Oldest(|entries|)..]
  {
    if entries != [] {
      SaveAllQueuesNewest(entries[..|entries| - 1]);
      SaveAllQueueStep(entries);
    }
  }

  lemma SaveAllQueueStep<K, V>(entries: seq<(K, V)>)
    requires |entries| > 0
    requires var init := entries[..|entries| - 1];
      SaveAll(Empty(), init).history == Keys(init)[Oldest(|init|)..]
    ensures SaveAll(Empty(), entries).history == Keys(entries)[Oldest(|entries|)..]
  {
    var n := |entries|;
    var ks := Keys(entries[..n - 1]);
    var key := entries[n - 1].0;
    var lo := Oldest(n - 1);
    assert Keys(entries) == ks + [key];
    assert (ks + [key])[lo..] == ks[lo..] + [key];
    if n > MaxMsgHistory - 1 {
      assert Oldest(n) == lo + 1;
      assert (ks + [key])[lo + 1..] == (ks[lo..] + [key])[1..];
    }
  }

  /**
   * After saving distinct keys into a fresh direction, the newest
   * MaxMsgHistory - 1 of them are mapped to their values and every older one
   * is gone. Saving MaxMsgHistory distinct keys evicts exactly the first one.
   */
  lemma {:induction false} SaveAllKeepsNewest<K, V>(entries: seq<(K, V)>)
    requires forall i, j :: 0 <= i < j < |entries| ==> entries[i].0 != entries[j].0
    ensures forall i :: 0 <= i < |entries| ==>
      Lookup(SaveAll(Empty(), entries), entries[i].0) == (if i >= Oldest(|entries|) then Some(entries[i].1) else None)
  {
    if entries != [] {
      var init := entries[..|entries| - 1];
      SaveAllKeepsNewest(init);
      SaveAllQueuesNewest(init);
      SaveAllLookupStep(entries);
    }
  }

  lemma SaveAllLookupStep<K, V>(entries: seq<(K, V)>)
    requires |entries| > 0
    requires forall i, j :: 0 <= i < j < |entries| ==> entries[i].0 != entries[j].0
    requires var init := entries[..|entries| - 1];
      && SaveAll(Empty(), init).history == Keys(init)[Oldest(|init|)..]
      && forall i :: 0 <= i < |init| ==>
           Lookup(SaveAll(Empty(), init), init[i].0) == (if i >= Oldest(|init|) then Some(init[i].1) else None)
    ensures forall i :: 0 <= i < |entries| ==>
      Lookup(SaveAll(Empty(), entries), entries[i].0) == (if i >= Oldest(|entries|) then Some(entries[i].1) else None)
  {
    var n := |entries|;
    var init := entries[..n - 1];
    var key := entries[n - 1].0;
    var value := entries[n - 1].1;
    var d := SaveAll(Empty(), init);
    var lo := Oldest(n - 1);
    assert SaveAll(Empty(), entries) == Save(d, key, value);
    if n - 1 < MaxMsgHistory - 1 {
      SaveAppends(d, key, value);
    } else {
      SaveEvictsOldest(d, key, value);
      assert d.history[0] == Keys(init)[lo] == init[lo].0;
    }
    forall i | 0 <= i < n - 1
      ensures Lookup(SaveAll(Empty(), entries), entries[i].0) == (if i >= Oldest(n) then Some(entries[i].1) else None)
    {
      assert init[i] == entries[i];
    }
  }

  /** One operation on a direction: a save, a remove or a lookup (which changes nothing). */
  datatype Op<K, V> = SaveOp(key: K, value: V) | DropOp(key: K) | LookupOp(key: K)

  function Apply<K, V>(d: Direction<K, V>, op: Op<K, V>): Direction<K, V> {
    match op
    case SaveOp(k, v) => Save(d, k, v)
    case DropOp(k) => Drop(d, k)
    case LookupOp(_) => d
  }

  function Run<K, V>(d: Direction<K, V>, ops: seq<Op<K, V>>): Direction<K, V>
    decreases |ops|
  {
    if ops == [] then d else Run(Apply(d, ops[0]), ops[1..])
  }

  /**
   * Whatever operations follow a consistent direction (a fresh one is), it
   * stays consistent: it maps at most as many keys as it queues, and queues
   * at most MaxMsgHistory - 1 keys.
   */
  lemma {:induction false} RunStaysBounded<K, V>(d: Direction<K, V>, ops: seq<Op<K, V>>)
    requires Consistent(d)
    ensures Consistent(Run(d, ops))
    ensures |Run(d, ops).messages| <= |Run(d, ops).history| <= MaxMsgHistory - 1
    decreases |ops|
  {
    if ops != [] {
      match ops[0] {
        case SaveOp(k, v) => SavePreservesConsistent(d, k, v);
        case DropOp(k) => DropPreservesConsistent(d, k);
        case LookupOp(_) =>
      }
      RunStaysBounded(Apply(d, ops[0]), ops[1..]);
    }
    ConsistentBounds(Run(d, ops));
  }

  /** The two directions of MessageHistory.java, updated in place. */
  class MessageHistory {
    var stodMessages: map<string, DiscordMessage>
    var stodHistory: seq<string>
    var dtosMessages: map<int, string>
    var dtosHistory: seq<int>

    /** The Slack -> Discord direction, keyed by Slack timestamp. */
    function Stod(): Direction<string, DiscordMessage>
      reads this
    {
      Direction(stodMessages, stodHistory)
    }

    /** The Discord -> Slack direction, keyed by Discord message ID. */
    function Dtos(): Direction<int, string>
      reads this
    {
      Direction(dtosMessages, dtosHistory)
    }

    predicate Valid()
      reads this
    {
      Consistent(Stod()) && Consistent(Dtos())
    }

    constructor ()
      ensures Valid() && Stod() == Empty() && Dtos() == Empty()
    {
      stodMessages := map[];
      stodHistory := [];
      dtosMessages := map[];
      dtosHistory := [];
    }

    method RemoveSlackMessage(messageId: int) returns (timestamp: Option<string>)
      requires Valid()
      modifies this
      ensures Valid()
      ensures timestamp == Lookup(old(Dtos()), messageId)
      ensures Dtos() == Drop(old(Dtos()), messageId)
      ensures Stod() == old(Stod())
    {
      DropPreservesConsistent(Dtos(), messageId);
      dtosHistory := RemoveFirst(dtosHistory, messageId);
      timestamp := if messageId in dtosMessages then Some(dtosMessages[messageId]) else None;
      dtosMessages := dtosMessages - {messageId};
    }

    method RemoveDiscordMessage(timestamp: string) returns (message: Option<DiscordMessage>)
      requires Valid()
      modifies this
      ensures Valid()
      ensures message == Lookup(old(Stod()), timestamp)
      ensures Stod() == Drop(old(Stod()), timestamp)
      ensures Dtos() == old(Dtos())
    {
      DropPreservesConsistent(Stod(), timestamp);
      stodHistory := RemoveFirst(stodHistory, timestamp);
      message := if timestamp in stodMessages then Some(stodMessages[timestamp]) else None;
      stodMessages := stodMessages - {timestamp};
    }

    method GetSlackTimestamp(messageId: int) returns (timestamp: Option<string>)
      ensures timestamp.Some? <==> messageId in dtosMessages
      ensures timestamp.Some? ==> timestamp.value == dtosMessages[messageId]
    {
      timestamp := if messageId in dtosMessages then Some(dtosMessages[messageId]) else None;
    }

    method GetDiscordMessage(timestamp: string) returns (message: Option<DiscordMessage>)
      ensures message.Some? <==> timestamp in stodMessages
      ensures message.Some? ==> message.value == stodMessages[timestamp]
    {
      message := if timestamp in stodMessages then Some(stodMessages[timestamp]) else None;
    }

    method SaveDiscordMessage(timestamp: string, message: DiscordMessage)
      requires Valid()
      modifies this
      ensures Valid()
      ensures Stod() == Save(old(Stod()), timestamp, message)
      ensures Dtos() == old(Dtos())
    {
      SavePreservesConsistent(Stod(), timestamp, message);
      stodHistory := stodHistory + [timestamp];
      if |stodHistory| > MaxMsgHistory - 1 {
        stodMessages := stodMessages - {stodHistory[0]};
        stodHistory := stodHistory[1..];
      }
      stodMessages := stodMessages[timestamp := message];
    }

    method SaveSlackMessage(messageId: int, timestamp: string)
      requires Valid()
      modifies this
      ensures Valid()
      ensures Dtos() == Save(old(Dtos()), messageId, timestamp)
      ensures Stod() == old(Stod())
    {
      SavePreservesConsistent(Dtos(), messageId, timestamp);
      dtosHistory := dtosHistory + [messageId];
      if |dtosHistory| > MaxMsgHistory - 1 {
        dtosMessages := dtosMessages - {dtosHistory[0]};
        dtosHistory := dtosHistory[1..];
      }
      dtosMessages := dtosMessages[messageId := timestamp];
    }
  }
}
