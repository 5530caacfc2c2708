/** What a user of the message service sees: how each transaction changes the listing of a dialogue and the
    messages that are due. */
module Listing {
  import opened Bytes
  import opened Wire
  import opened Buckets
  import opened MessageStore
  import opened MessageService

  predicate Increasing(data: seq<Message>)
  {
    forall i, j :: 0 <= i < j < |data| ==> data[i].id < data[j].id
  }

  lemma SomeElement(a: seq<Message>)
    ensures a != [] ==> exists m :: m in a
  {
    if a != [] {
      assert a[0] in a;
    }
  }

  lemma SameLast(a: seq<Message>, b: seq<Message>)
    requires Increasing(a) && Increasing(b) && a != [] && b != [] && forall m :: m in a <==> m in b
    ensures a[|a| - 1] == b[|b| - 1]
  {
    assert a[|a| - 1] in b && b[|b| - 1] in a;
    var i :| 0 <= i < |b| && b[i] == a[|a| - 1];
    var j :| 0 <= j < |a| && a[j] == b[|b| - 1];
    assert b[i].id <= b[|b| - 1].id && a[j].id <= a[|a| - 1].id;
    assert i == |b| - 1;
  }

  lemma WithoutLast(a: seq<Message>, m: Message)
    requires Increasing(a) && a != []
    ensures a == a[..|a| - 1] + [a[|a| - 1]]
    ensures m in a[..|a| - 1] <==> m in a && m != a[|a| - 1]
  {
    var x := a[..|a| - 1];
    assert a == x + [a[|a| - 1]];
    assert a[|a| - 1] !in x;
  }

  lemma {:induction false} SameElements(a: seq<Message>, b: seq<Message>)
    requires Increasing(a) && Increasing(b) && forall m :: m in a <==> m in b
    ensures a == b
  {
    SomeElement(a);
    SomeElement(b);
    if a != [] {
      SameLast(a, b);
      var x, y := a[..|a| - 1], b[..|b| - 1];
      forall m ensures m in x <==> m in y {
        WithoutLast(a, m);
        WithoutLast(b, m);
      }
      SameElements(x, y);
      WithoutLast(a, a[|a| - 1]);
      WithoutLast(b, b[|b| - 1]);
    }
  }

  /** There is only one listing of a dialogue. */
  lemma ListingUnique(s: Store, a: seq<Message>, b: seq<Message>)
    requires InOrder(s, a) && InOrder(s, b)
    ensures a == b
  {
    SameElements(a, b);
  }

  /** Every message of the dialogue has an id that was handed out. */
  predicate Numbered(s: Store)
  {
    forall id <- s.dialogue :: id <= s.sequence && s.dialogue[id].id == id
  }

  lemma OneMoreListed(s: Store, t: Store, data: seq<Message>, m: Message)
    requires InOrder(s, data) && Numbered(s) && m.id > s.sequence && t.dialogue == s.dialogue[m.id := m]
    ensures InOrder(t, data + [m])
  {
    forall i | 0 <= i < |data| ensures data[i].id < m.id {
      assert data[i] in data;
    }
    forall x ensures x in data + [m] <==> x.id in t.dialogue && t.dialogue[x.id] == x {
      assert x in data + [m] <==> x in data || x == m;
      assert m.id !in s.dialogue;
    }
  }

  /** A message that is sent is listed last, as it was given, and is due; nothing else changes in the listing or
      becomes due. */
  lemma SendAppends(s: Store, data: seq<Message>, kind: Kind, payload: seq<byte>, ttl: int64, now: int)
    requires InOrder(s, data) && Numbered(s) && s.sequence < LAST_ID
    ensures var t, id := Sent(s, kind, payload, ttl, now), s.sequence + 1;
            && InOrder(t, data + [Message(id, kind, payload, false, true, now, ttl)])
            && Due(t) == Due(s) + {id} && Numbered(t)
            && t.sequence == id && t.received == s.received && t.pending == s.pending + {id}
  {
    var id := s.sequence + 1;
    OneMoreListed(s, Sent(s, kind, payload, ttl, now), data, Message(id, kind, payload, false, true, now, ttl));
  }

  /** A message that is received is listed last, as reached and not the client's own; the id it was sent under
      is marked, and nothing becomes due or pending. */
  lemma ReceiveAppends(s: Store, data: seq<Message>, request: uint64, kind: Kind, payload: seq<byte>,
                       ttl: int64, now: int)
    requires InOrder(s, data) && Numbered(s) && s.sequence < LAST_ID && s.sequence + 1 !in s.pending
    ensures var t, id := Received(s, request, kind, payload, ttl, now), s.sequence + 1;
            && InOrder(t, data + [Message(id, kind, payload, true, false, now, ttl)])
            && Due(t) == Due(s) && Numbered(t)
            && t.sequence == id && t.received == s.received + {request} && t.pending == s.pending
  {
    var id := s.sequence + 1;
    var m := Message(id, kind, payload, true, false, now, ttl);
    OneMoreListed(s, Received(s, request, kind, payload, ttl, now), data, m);
  }

  /** The listing with one message marked as reached. */
  function WithReached(data: seq<Message>, id: uint64): (r: seq<Message>)
    ensures |r| == |data|
    ensures forall i :: 0 <= i < |r| ==> r[i] == if data[i].id == id then data[i].(reached := true) else data[i]
  {
    seq(|data|, i requires 0 <= i < |data| => if data[i].id == id then data[i].(reached := true) else data[i])
  }

  /** An answer marks its message in the listing if it is a good one, moves nothing, and the message is not due
      any more; a deleted message does not come back. */
  lemma SettleMarks(s: Store, data: seq<Message>, id: uint64, reached: bool)
    requires InOrder(s, data) && Numbered(s)
    ensures var t := Settled(s, id, reached);
            && InOrder(t, if reached then WithReached(data, id) else data)
            && Due(t) == Due(s) - {id} && Numbered(t)
            && t.sequence == s.sequence && t.received == s.received && t.pending == s.pending - {id}
  {
    if reached {
      MarkListed(s, Settled(s, id, reached), data, id);
    }
  }

  lemma MarkListed(s: Store, t: Store, data: seq<Message>, id: uint64)
    requires InOrder(s, data) && Numbered(s)
    requires t.dialogue == if id in s.dialogue then s.dialogue[id := s.dialogue[id].(reached := true)] else s.dialogue
    ensures InOrder(t, WithReached(data, id))
  {
    var r := WithReached(data, id);
    forall i | 0 <= i < |data| ensures r[i].id == data[i].id && Lists(t, r[i]) {
      assert data[i] in data;
    }
    hide WithReached;
    forall m: Message | Lists(t, m) ensures m in r {
      var k := s.dialogue[m.id];
      assert k in data;
      var i :| 0 <= i < |data| && data[i] == k;
      assert r[i].id == m.id && Lists(t, r[i]);
    }
    assert forall m: Message :: m in r ==> Lists(t, m);
  }

  predicate Lists(s: Store, m: Message)
  {
    m.id in s.dialogue && s.dialogue[m.id] == m
  }

  /** Deleting takes exactly the given messages out of the listing and of those due; pending and received
      marks stay. */
  lemma DeleteDrops(s: Store, data: seq<Message>, ids: set<uint64>, after: seq<Message>)
    requires InOrder(s, data) && Numbered(s) && InOrder(Deleted(s, ids), after)
    ensures forall m :: m in after <==> m in data && m.id !in ids
    ensures var t := Deleted(s, ids);
            && Due(t) == Due(s) - ids && Numbered(t)
            && t.sequence == s.sequence && t.received == s.received && t.pending == s.pending
  {
  }

  /** Which worker a message gets: up to ten seconds after it was made it is sent, later it is asked about. */
  lemma WorkerByAge(s: Store, now: int, send: seq<Message>, check: seq<Message>)
    requires Classified(s, now, send, check)
    ensures forall m: Message :: m in send <==>
              m.id in s.pending && Lists(s, m) && 0 <= now - m.createdAt <= 10_000_000_000
    ensures forall m: Message :: m in check <==>
              m.id in s.pending && Lists(s, m) && !(0 <= now - m.createdAt <= 10_000_000_000)
  {
    forall m: Message | m.id in s.pending && m.id in s.dialogue && m == s.dialogue[m.id]
      ensures m in send || m in check
    {
      assert m.id in Due(s);
    }
  }
}
