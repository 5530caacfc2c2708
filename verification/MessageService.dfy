/** The transactions of internal/client/service/message.go, first as functions on the state of one
    peer, then as the service runs them on the flat store. */
module MessageStore {
  import opened Bytes
  import opened Wire
  import opened Buckets

  /** `MessageSendingPeriod`, in nanoseconds. */
  const SENDING_PERIOD: int := 10_000_000_000

  const LAST_ID: uint64 := 0xffff_ffff_ffff_ffff

  /** `Bucket.NextSequence` */
  function NextId(s: Store): uint64
  {
    Next(s.sequence)
  }

  function Sent(s: Store, kind: Kind, payload: seq<byte>, ttl: int64, now: int): Store
  {
    var id := NextId(s);
    s.(sequence := id,
       dialogue := s.dialogue[id := Message(id, kind, payload, false, true, now, ttl)],
       pending := s.pending + {id})
  }

  function Received(s: Store, request: uint64, kind: Kind, payload: seq<byte>, ttl: int64, now: int): Store
  {
    var id := NextId(s);
    s.(sequence := id,
       dialogue := s.dialogue[id := Message(id, kind, payload, true, false, now, ttl)],
       received := s.received + {request})
  }

  /** The transaction after an answer: the message, if it is still there, may be marked as reached;
      it is no longer pending. */
  function Settled(s: Store, id: uint64, reached: bool): Store
  {
    s.(dialogue := if reached && id in s.dialogue
                   then s.dialogue[id := s.dialogue[id].(reached := true)] else s.dialogue,
       pending := s.pending - {id})
  }

  /** `DelMessages` leaves pending marks alone. */
  function Deleted(s: Store, ids: set<uint64>): Store
  {
    s.(dialogue := s.dialogue - ids)
  }

  /** What the sweep of expired messages does to one of them. */
  function Expired(s: Store, id: uint64): Store
  {
    s.(dialogue := s.dialogue - {id}, pending := s.pending - {id})
  }

  /** A message too old to be sent again, or from the future: only asked about. */
  predicate Stale(m: Message, now: int)
  {
    now - m.createdAt > SENDING_PERIOD || now < m.createdAt
  }

  ghost predicate Unseen(before: DB, after: DB, p: PeerId)
  {
    forall q :: q != p ==> View(after, q) == View(before, q)
  }

  /** A transaction on one peer: that peer's state becomes `s`, the store stays well-formed, and no
      other peer's state changes. */
  ghost predicate Committed(before: DB, after: DB, p: PeerId, s: Store)
  {
    WellFormed(after) && View(after, p) == s && Unseen(before, after, p)
  }

  function Next(sequence: uint64): uint64
  {
    if sequence == LAST_ID then 0 else sequence + 1
  }

  /** The dialogue bucket after `NextSequence` and `Put`. */
  function Grown(b: Bucket, m: Message): Bucket
  {
    With(b.(sequence := m.id), m.id, Encoded(m))
  }

  /** What the buckets of a peer are after `Send`'s transaction is what `Sent` says of its state. */
  lemma SentEffect(before: DB, mid: DB, marked: DB, after: DB, p: PeerId, m: Message)
    requires WellFormed(before) && Usable(p)
    requires m.id == Next(Get(before, Suffix(DIALOGUE, p)).sequence) && !m.reached && m.initiator
    requires mid == before[Suffix(DIALOGUE, p) := Grown(Get(before, Suffix(DIALOGUE, p)), m)]
    requires marked == mid[Suffix(PENDING, p) := With(Get(mid, Suffix(PENDING, p)), m.id, Mark)]
    requires SameBut(marked, after, {DESTROY})
    ensures m.id == NextId(View(before, p))
    ensures Committed(before, after, p, Sent(View(before, p), m.kind, m.payload, m.ttl, m.createdAt))
  {
    assert WellFormedAt(before, p);
    OwnNames(p);
    hide Suffix, Ascii, Get, Messages, Ids, MessageBucket, MarkBucket, WellFormed, WellFormedAt, With, Grown,
      OnlyTouches, SameBut;
    var d, pe, r := Get(before, Suffix(DIALOGUE, p)), Get(before, Suffix(PENDING, p)), Get(before, Suffix(RECEIVED, p));
    TwoWrites(before, mid, marked, after, Suffix(DIALOGUE, p), Suffix(PENDING, p), DESTROY,
              Grown(d, m), With(pe, m.id, Mark));
    SameButNames(before, after, p, {Suffix(DIALOGUE, p), Suffix(PENDING, p), DESTROY});
    GrownIs(d, m);
    WithMark(pe, m.id);
    Transaction(before, after, p, Grown(d, m), With(pe, m.id, Mark), r);
  }

  lemma GrownIs(b: Bucket, m: Message)
    requires MessageBucket(b)
    ensures MessageBucket(Grown(b, m)) && Grown(b, m).sequence == m.id
    ensures Messages(Grown(b, m)) == Messages(b)[m.id := m]
  {
    SequenceOnly(b, m.id);
    WithMessage(b.(sequence := m.id), m.id, m);
  }

  lemma SequenceOnly(b: Bucket, n: uint64)
    ensures Messages(b.(sequence := n)) == Messages(b) && Ids(b.(sequence := n)) == Ids(b)
  {
    forall id: uint64 ensures id in Ids(b) <==> id in Ids(b.(sequence := n)) {
      InIds(b, id);
      InIds(b.(sequence := n), id);
    }
  }

  lemma ReceivedEffect(before: DB, mid: DB, marked: DB, after: DB, p: PeerId, request: uint64, m: Message)
    requires WellFormed(before) && Usable(p)
    requires m.id == Next(Get(before, Suffix(DIALOGUE, p)).sequence) && m.reached && !m.initiator
    requires mid == before[Suffix(DIALOGUE, p) := Grown(Get(before, Suffix(DIALOGUE, p)), m)]
    requires marked == mid[Suffix(RECEIVED, p) := With(Get(mid, Suffix(RECEIVED, p)), request, Mark)]
    requires SameBut(marked, after, {DESTROY})
    ensures m.id == NextId(View(before, p))
    ensures Committed(before, after, p, Received(View(before, p), request, m.kind, m.payload, m.ttl, m.createdAt))
  {
    assert WellFormedAt(before, p);
    OwnNames(p);
    hide Suffix, Ascii, Get, Messages, Ids, MessageBucket, MarkBucket, WellFormed, WellFormedAt, With, Grown,
      OnlyTouches, SameBut;
    var d, pe, r := Get(before, Suffix(DIALOGUE, p)), Get(before, Suffix(PENDING, p)), Get(before, Suffix(RECEIVED, p));
    TwoWrites(before, mid, marked, after, Suffix(DIALOGUE, p), Suffix(RECEIVED, p), DESTROY,
              Grown(d, m), With(r, request, Mark));
    SameButNames(before, after, p, {Suffix(DIALOGUE, p), Suffix(RECEIVED, p), DESTROY});
    GrownIs(d, m);
    WithMark(r, request);
    Transaction(before, after, p, Grown(d, m), pe, With(r, request, Mark));
  }

  /** The dialogue bucket with one message marked as reached, if it is there. */
  function Marked(b: Bucket, id: uint64): (r: Bucket)
    requires MessageBucket(b)
    ensures r.sequence == b.sequence
  {
    if Key(id) in b.entries then With(b, id, Encoded(b.entries[Key(id)].message.(reached := true))) else b
  }

  lemma SettledEffect(before: DB, mid: DB, after: DB, p: PeerId, id: uint64, reached: bool)
    requires WellFormed(before) && Usable(p) && MessageBucket(Get(before, Suffix(DIALOGUE, p)))
    requires if reached then mid == before[Suffix(DIALOGUE, p) := Marked(Get(before, Suffix(DIALOGUE, p)), id)]
             else mid == before
    requires after == mid[Suffix(PENDING, p) := Without(Get(before, Suffix(PENDING, p)), id)]
    ensures Committed(before, after, p, Settled(View(before, p), id, reached))
  {
    assert WellFormedAt(before, p);
    OwnNames(p);
    hide Suffix, Ascii, Get, Messages, Ids, MessageBucket, MarkBucket, WellFormed, WellFormedAt, With, Without, Marked,
      OnlyTouches, SameBut;
    var d, pe, r := Get(before, Suffix(DIALOGUE, p)), Get(before, Suffix(PENDING, p)), Get(before, Suffix(RECEIVED, p));
    var d' := if reached then Marked(d, id) else d;
    OneOrTwoWrites(before, mid, after, Suffix(DIALOGUE, p), Suffix(PENDING, p), d', reached, Without(pe, id));
    SameButNames(before, after, p, {Suffix(DIALOGUE, p), Suffix(PENDING, p)});
    WithoutId(pe, id);
    MarkedIs(d, id);
    Transaction(before, after, p, d', Without(pe, id), r);
  }

  lemma MarkedIs(b: Bucket, id: uint64)
    requires MessageBucket(b)
    ensures MessageBucket(Marked(b, id))
    ensures Messages(Marked(b, id)) ==
            if id in Messages(b) then Messages(b)[id := Messages(b)[id].(reached := true)] else Messages(b)
  {
    EntriesAreMessages(b);
    if Key(id) in b.entries {
      WithMessage(b, id, b.entries[Key(id)].message.(reached := true));
    }
    hide Messages, With;
  }

  lemma DeletedEffect(before: DB, after: DB, p: PeerId, d: Bucket, ids: set<uint64>)
    requires WellFormed(before) && Usable(p) && after == before[Suffix(DIALOGUE, p) := d]
    requires MessageBucket(d) && d.sequence == Get(before, Suffix(DIALOGUE, p)).sequence
    requires Messages(d) == Messages(Get(before, Suffix(DIALOGUE, p))) - ids
    ensures Committed(before, after, p, Deleted(View(before, p), ids))
  {
    assert WellFormedAt(before, p);
    OwnNames(p);
    hide Suffix, Ascii, Messages, Ids, MessageBucket, MarkBucket, WellFormed, WellFormedAt;
    SameButNames(before, after, p, {Suffix(DIALOGUE, p)});
    Transaction(before, after, p, d, Get(before, Suffix(PENDING, p)), Get(before, Suffix(RECEIVED, p)));
  }

  /** Nanoseconds since 1970 as Go has them. */
  function Wrap(t: int): (r: int64)
    ensures (r - t) % 0x1_0000_0000_0000_0000 == 0
  {
    (t + 0x8000_0000_0000_0000) % 0x1_0000_0000_0000_0000 - 0x8000_0000_0000_0000
  }

  /** The shared bucket of expiry times after a message was stored. */
  function WithExpiry(b: Bucket, p: PeerId, id: uint64, ttl: int64, now: int): Bucket
  {
    if ttl > 0 then With(b, ToUint64(Wrap(now + ttl)), Raw(Key(id) + p)) else b
  }

  /** A message that lives for a time has an entry under the moment it expires, from which its id and its peer
      can be read; a message that lives for ever has none, and no other entry changes. */
  lemma ExpiryIs(b: Bucket, p: PeerId, id: uint64, ttl: int64, now: int)
    requires 0 <= now && now + ttl < 0x8000_0000_0000_0000
    ensures var c := WithExpiry(b, p, id, ttl, now);
            && c.sequence == b.sequence
            && (ttl <= 0 ==> c.entries == b.entries)
            && (ttl > 0 ==>
                  && Key(now + ttl) in c.entries && c.entries[Key(now + ttl)].Raw?
                  && (var v := c.entries[Key(now + ttl)].bytes; |v| >= 8 && FromKey(v[..8]) == id && v[8..] == p)
                  && c.entries - {Key(now + ttl)} == b.entries - {Key(now + ttl)})
  {
    if ttl > 0 {
      assert ToUint64(Wrap(now + ttl)) == now + ttl;
      var v := Key(id) + p;
      assert v[..8] == Key(id) && v[8..] == p;
      assert FromKey(Key(id)) == id;
    }
  }

  lemma DestroyUntouched(before: DB, mid: DB, marked: DB, m: seq<byte>, n: seq<byte>, b: Bucket, c: Bucket)
    requires m != DESTROY && n != DESTROY && mid == before[m := b] && marked == mid[n := c]
    ensures Get(marked, DESTROY) == Get(before, DESTROY)
  {
  }

  /** The messages a round of `AsyncSend` considers. */
  function Due(s: Store): set<uint64>
  {
    set id | id in s.pending && id in s.dialogue
  }
}

module MessageService {
  import opened Bytes
  import opened Options
  import opened Wire
  import opened Buckets
  import opened MessageStore

  predicate Distinct(ms: seq<Message>)
  {
    forall i, j :: 0 <= i < j < |ms| ==> ms[i].id != ms[j].id
  }

  predicate Among(id: uint64, ms: seq<Message>)
  {
    exists m <- ms :: m.id == id
  }

  function Elements(ids: seq<uint64>): set<uint64>
  {
    set id | id in ids
  }

  function IdsOf(ms: seq<Message>): set<uint64>
  {
    set m | m in ms :: m.id
  }

  /** A round's messages: every due one, once, those still to be sent apart from those to ask about. */
  predicate Classified(s: Store, now: int, send: seq<Message>, check: seq<Message>)
  {
    && Distinct(send) && Distinct(check)
    && (forall m <- send :: m.id in Due(s) && m == s.dialogue[m.id] && !Stale(m, now))
    && (forall m <- check :: m.id in Due(s) && m == s.dialogue[m.id] && Stale(m, now))
    && (forall id <- Due(s) :: Among(id, send) || Among(id, check))
  }

  type Entries = map<seq<byte>, Value>

  predicate Indexed(d: Entries)
  {
    forall k <- d :: d[k].Encoded? && Key(d[k].message.id) == k
  }

  predicate NoRepeats(ks: seq<seq<byte>>)
  {
    forall i, j :: 0 <= i < j < |ks| ==> ks[i] != ks[j]
  }

  /** The cursor loop of `AsyncSend`. */
  method SortOut(d: Entries, ks: seq<seq<byte>>, now: int) returns (send: seq<Message>, check: seq<Message>)
    requires Indexed(d) && NoRepeats(ks)
    ensures Distinct(send) && Distinct(check)
    ensures forall m <- send :: Key(m.id) in ks && Key(m.id) in d && m == d[Key(m.id)].message && !Stale(m, now)
    ensures forall m <- check :: Key(m.id) in ks && Key(m.id) in d && m == d[Key(m.id)].message && Stale(m, now)
    ensures forall k <- ks :: k in d ==> d[k].message in send || d[k].message in check
  {
    hide Key, Stale;
    send, check := [], [];
    for i := 0 to |ks|
      invariant forall m <- send ::
                    Key(m.id) in ks[..i] && Key(m.id) in d && m == d[Key(m.id)].message && !Stale(m, now)
      invariant forall m <- check ::
                    Key(m.id) in ks[..i] && Key(m.id) in d && m == d[Key(m.id)].message && Stale(m, now)
      invariant forall k <- ks[..i] :: k in d ==> d[k].message in send || d[k].message in check
      invariant Distinct(send) && Distinct(check)
    {
      var k := ks[i];
      assert ks[..i + 1] == ks[..i] + [k] && k !in ks[..i];
      if k in d {
        if Stale(d[k].message, now) {
          check := check + [d[k].message];
        } else {
          send := send + [d[k].message];
        }
      }
    }
    assert ks[..|ks|] == ks;
  }

  lemma SortedOut(s: Store, d: Bucket, pe: Bucket, ks: seq<seq<byte>>, now: int, send: seq<Message>,
                  check: seq<Message>)
    requires s.dialogue == Messages(d) && s.pending == Ids(pe) && MessageBucket(d) && MarkBucket(pe)
    requires Distinct(send) && Distinct(check)
    requires forall k :: k in ks <==> k in pe.entries
    requires forall m <- send ::
               Key(m.id) in ks && Key(m.id) in d.entries && m == d.entries[Key(m.id)].message && !Stale(m, now)
    requires forall m <- check ::
               Key(m.id) in ks && Key(m.id) in d.entries && m == d.entries[Key(m.id)].message && Stale(m, now)
    requires forall k <- ks :: k in d.entries ==> d.entries[k].message in send || d.entries[k].message in check
    ensures Classified(s, now, send, check)
  {
    EntriesAreMessages(d);
    EntriesAreMarks(pe);
    hide Key, Stale, Messages, Ids;
    forall id <- Due(s) ensures Among(id, send) || Among(id, check) {
      var m := d.entries[Key(id)].message;
      assert m.id == id && (m in send || m in check);
    }
  }

  /** The reverse cursor loop of `GetLastMessages`, which puts each message in front of the others. */
  method Collect(d: Entries, ks: seq<seq<byte>>) returns (data: seq<Message>)
    requires Indexed(d) && forall j :: 0 <= j < |ks| ==> ks[j] in d
    ensures |data| == |ks| && forall j :: 0 <= j < |data| ==> data[j] == d[ks[j]].message
  {
    hide Key;
    data := [];
    var i := |ks|;
    while i > 0
      invariant 0 <= i <= |ks| && |data| == |ks| - i
      invariant forall j :: i <= j < |ks| ==> data[j - i] == d[ks[j]].message
    {
      i := i - 1;
      data := [d[ks[i]].message] + data;
    }
  }

  ghost predicate InOrder(s: Store, data: seq<Message>)
  {
    && (forall i, j :: 0 <= i < j < |data| ==> data[i].id < data[j].id)
    && (forall m :: m in data <==> m.id in s.dialogue && s.dialogue[m.id] == m)
  }

  lemma Collected(s: Store, b: Bucket, ks: seq<seq<byte>>, data: seq<Message>)
    requires s.dialogue == Messages(b) && MessageBucket(b) && Sorted(ks)
    requires forall k :: k in ks <==> k in b.entries
    requires |data| == |ks| && forall j :: 0 <= j < |data| ==> ks[j] in b.entries && data[j] == b.entries[ks[j]].message
    ensures InOrder(s, data)
  {
    EntriesAreMessages(b);
    hide Messages, MessageBucket, LexLess, Key;
    assert forall j :: 0 <= j < |data| ==> Key(data[j].id) == ks[j];
    CollectedSorted(ks, data);
    hide Sorted;
    forall m ensures m in data <==> m.id in s.dialogue && s.dialogue[m.id] == m {
      CollectedOne(b, ks, data, m);
    }
  }

  lemma CollectedSorted(ks: seq<seq<byte>>, data: seq<Message>)
    requires Sorted(ks) && |data| == |ks| && forall j :: 0 <= j < |data| ==> Key(data[j].id) == ks[j]
    ensures forall i, j :: 0 <= i < j < |data| ==> data[i].id < data[j].id
  {
    hide LexLess, Key;
    forall i, j | 0 <= i < j < |data| ensures data[i].id < data[j].id {
      assert LexLess(ks[i], ks[j]);
      KeyOrder(data[i].id, data[j].id);
    }
  }

  lemma CollectedOne(b: Bucket, ks: seq<seq<byte>>, data: seq<Message>, m: Message)
    requires MessageBucket(b) && forall k :: k in ks <==> k in b.entries
    requires |data| == |ks|
    requires forall j :: 0 <= j < |data| ==> ks[j] in b.entries && data[j] == b.entries[ks[j]].message
    ensures m in data <==> m.id in Messages(b) && Messages(b)[m.id] == m
  {
    EntriesAreMessages(b);
    hide Messages, MessageBucket, Key;
    if m in data {
      var j :| 0 <= j < |data| && data[j] == m;
      assert ks[j] in ks;
    }
    if m.id in Messages(b) && Messages(b)[m.id] == m {
      assert Key(m.id) in ks;
      var j :| 0 <= j < |ks| && ks[j] == Key(m.id);
      assert data[j] == m;
    }
  }

  /** What the buckets of a well-formed store say about one peer. */
  lemma Lookup(db: DB, p: PeerId)
    requires WellFormed(db)
    ensures Suffix(DIALOGUE, p) != [] && Suffix(PENDING, p) != []
    ensures Refused(Suffix(DIALOGUE, p)) <==> !Usable(p)
    ensures var name := Suffix(DIALOGUE, p);
            if name in db then
              && !Refused(name) && MessageBucket(db[name]) && Indexed(db[name].entries)
              && View(db, p).dialogue == Messages(db[name])
            else View(db, p).dialogue == map[]
    ensures var name := Suffix(PENDING, p);
            if name in db then !Refused(name) && MarkBucket(db[name]) && View(db, p).pending == Ids(db[name])
            else View(db, p).pending == {}
  {
    OwnNames(p);
    assert WellFormedAt(db, p);
    EntriesAreMessages(Get(db, Suffix(DIALOGUE, p)));
  }

  lemma NothingDue(s: Store, now: int)
    ensures s.dialogue == map[] || s.pending == {} ==> Classified(s, now, [], [])
  {
  }

  lemma NothingInOrder(s: Store)
    ensures s.dialogue == map[] ==> InOrder(s, [])
  {
  }

  lemma OrderNoRepeats(s: set<seq<byte>>)
    ensures NoRepeats(Order(s))
  {
    OrderDistinct(s);
  }

  lemma OneMore(ids: seq<uint64>, i: nat)
    requires i <= |ids|
    ensures Elements(ids[..0]) == {} && Elements(ids[..|ids|]) == Elements(ids)
    ensures i < |ids| ==> Elements(ids[..i + 1]) == Elements(ids[..i]) + {ids[i]}
  {
    assert ids[..|ids|] == ids;
    if i < |ids| {
      assert ids[..i + 1] == ids[..i] + [ids[i]];
    }
  }

  lemma OneMoreMessage(ms: seq<Message>, i: nat)
    requires i <= |ms|
    ensures IdsOf(ms[..0]) == {} && IdsOf(ms[..|ms|]) == IdsOf(ms)
    ensures i < |ms| ==> IdsOf(ms[..i + 1]) == IdsOf(ms[..i]) + {ms[i].id}
    ensures i < |ms| && Distinct(ms) ==> forall m <- ms[..i] :: m.id != ms[i].id
  {
    assert ms[..|ms|] == ms;
    if i < |ms| {
      assert ms[..i + 1] == ms[..i] + [ms[i]];
    }
  }

  lemma InIdsOf(ms: seq<Message>, id: uint64)
    ensures id in IdsOf(ms) <==> Among(id, ms)
  {
  }

  lemma PickNone(ms: seq<Message>, sending: map<PeerId, set<uint64>>, p: PeerId)
    requires p in sending
    ensures Picked(ms[..0], sending[p], []) && ms[..|ms|] == ms
    ensures sending == sending[p := sending[p] + IdsOf(ms[..0])]
  {
    assert sending[p] + IdsOf(ms[..0]) == sending[p];
  }

  /** One more message is passed over if it is busy, or claimed. */
  lemma PickOne(ms: seq<Message>, i: nat, busy: set<uint64>, claimed: seq<Message>)
    requires i < |ms| && Distinct(ms) && Picked(ms[..i], busy, claimed)
    ensures ms[i].id in busy + IdsOf(ms[..i]) <==> ms[i].id in busy
    ensures IdsOf(ms[..i + 1]) == IdsOf(ms[..i]) + {ms[i].id}
    ensures ms[i].id in busy ==> Picked(ms[..i + 1], busy, claimed)
    ensures ms[i].id !in busy ==> Picked(ms[..i + 1], busy, claimed + [ms[i]])
  {
    OneMoreMessage(ms, i);
    assert ms[..i + 1] == ms[..i] + [ms[i]];
    hide IdsOf;
    assert ms[i].id !in IdsOf(ms[..i]) by {
      InIdsOf(ms[..i], ms[i].id);
    }
  }

  /** The workers a round starts: one for every due message that has none, and for no other; which
      kind of worker depends on the age of the message. */
  ghost predicate Claimed(s: Store, busy: set<uint64>, now: int, send: seq<Message>, check: seq<Message>)
  {
    && Distinct(send) && Distinct(check)
    && (forall id :: id in Due(s) - busy <==> Among(id, send) || Among(id, check))
    && (forall m <- send :: m.id in Due(s) && m == s.dialogue[m.id] && !Stale(m, now))
    && (forall m <- check :: m.id in Due(s) && m == s.dialogue[m.id] && Stale(m, now))
  }

  /** The messages of the first list with no busy worker. */
  ghost predicate Picked(ms: seq<Message>, busy: set<uint64>, claimed: seq<Message>)
  {
    Distinct(claimed) && forall m :: m in claimed <==> m in ms && m.id !in busy
  }

  lemma PickedAmong(ms: seq<Message>, busy: set<uint64>, claimed: seq<Message>, id: uint64)
    requires Picked(ms, busy, claimed)
    ensures Among(id, claimed) <==> Among(id, ms) && id !in busy
  {
  }

  lemma ClassifiedIds(s: Store, now: int, send: seq<Message>, check: seq<Message>)
    requires Classified(s, now, send, check)
    ensures IdsOf(send) + IdsOf(check) == Due(s) && Distinct(send) && Distinct(check)
  {
    forall id ensures id in Due(s) <==> id in IdsOf(send) || id in IdsOf(check) {
      InIdsOf(send, id);
      InIdsOf(check, id);
    }
  }

  lemma ClaimedAll(s: Store, busy: set<uint64>, now: int, send: seq<Message>, check: seq<Message>,
                   claimedSend: seq<Message>, claimedCheck: seq<Message>)
    requires Classified(s, now, send, check)
    requires Picked(check, busy, claimedCheck) && Picked(send, busy + IdsOf(check), claimedSend)
    ensures Claimed(s, busy, now, claimedSend, claimedCheck)
  {
    ClassifiedIds(s, now, send, check);
    forall id ensures id in Due(s) - busy <==> Among(id, claimedSend) || Among(id, claimedCheck) {
      InIdsOf(send, id);
      InIdsOf(check, id);
      PickedAmong(check, busy, claimedCheck, id);
      PickedAmong(send, busy + IdsOf(check), claimedSend, id);
    }
  }

  class Service {
    var db: DB
    /** For each peer, the ids a worker is busy with. */
    var sending: map<PeerId, set<uint64>>

    constructor ()
      ensures WellFormed(db) && db == map[] && sending == map[]
    {
      db, sending := map[], map[];
    }

    method GetOrNewBucket(name: seq<byte>) returns (ok: bool)
      requires name != []
      modifies this`db
      ensures ok <==> !Refused(name)
      ensures ok ==> name in db && db == old(db)[name := Get(old(db), name)]
      ensures !ok ==> db == old(db)
    {
      if Refused(name) {
        return false;
      }
      if name !in db {
        db := db[name := EMPTY];
      }
      return true;
    }

    method Put(name: seq<byte>, id: uint64, v: Value)
      requires name in db
      modifies this`db
      ensures db == old(db)[name := With(old(db)[name], id, v)]
    {
      db := db[name := db[name].(entries := db[name].entries[Key(id) := v])];
    }

    method Delete(name: seq<byte>, id: uint64)
      requires name in db
      modifies this`db
      ensures db == old(db)[name := Without(old(db)[name], id)]
    {
      db := db[name := db[name].(entries := db[name].entries - {Key(id)})];
    }

    method NextSequence(name: seq<byte>) returns (id: uint64)
      requires name in db
      modifies this`db
      ensures id == Next(old(db)[name].sequence)
      ensures db == old(db)[name := old(db)[name].(sequence := id)]
    {
      id := Next(db[name].sequence);
      db := db[name := db[name].(sequence := id)];
    }

    /** How `Send`, `syncText`, `syncHash` and `syncBytes` add a message to a dialogue. */
    method AddMessage(name: seq<byte>, kind: Kind, payload: seq<byte>, incoming: bool, ttl: int64, now: int)
      returns (ok: bool, id: uint64)
      requires name != []
      modifies this`db
      ensures ok <==> !Refused(name)
      ensures !ok ==> db == old(db) && id == 0
      ensures ok ==> id == Next(Get(old(db), name).sequence)
      ensures ok ==>
                var m := Message(id, kind, payload, incoming, !incoming, now, ttl);
                db == old(db)[name := Grown(Get(old(db), name), m)]
    {
      hide Key, With;
      id := 0;
      ok := GetOrNewBucket(name);
      if !ok {
        return;
      }
      id := NextSequence(name);
      Put(name, id, Encoded(Message(id, kind, payload, incoming, !incoming, now, ttl)));
    }

    method AddMark(name: seq<byte>, id: uint64) returns (ok: bool)
      requires name != []
      modifies this`db
      ensures ok <==> !Refused(name)
      ensures !ok ==> db == old(db)
      ensures ok ==> db == old(db)[name := With(Get(old(db), name), id, Mark)]
    {
      hide Key, With;
      ok := GetOrNewBucket(name);
      if ok {
        Put(name, id, Mark);
      }
    }

    /** A note of when a message is to be deleted, in the bucket all peers share. */
    method PutDestroy(p: PeerId, id: uint64, ttl: int64, now: int)
      modifies this`db
      ensures SameBut(old(db), db, {DESTROY})
      ensures Get(db, DESTROY) == WithExpiry(Get(old(db), DESTROY), p, id, ttl, now)
    {
      if ttl > 0 {
        OwnNames(p);
        var ok := GetOrNewBucket(DESTROY);
        Put(DESTROY, ToUint64(Wrap(now + ttl)), Raw(Key(id) + p));
      }
    }

    /** `Send`: `mtype` is `None` for a type the source does not know; `stored` is the file name an image
        was kept under, if it was one and could be kept. */
    method Send(p: PeerId, mtype: Option<Kind>, content: seq<byte>, ttl: int64, now: int, stored: Option<seq<byte>>)
      returns (ok: bool, id: uint64)
      requires WellFormed(db)
      modifies this`db
      ensures ok <==> Usable(p) && mtype.Some? && (mtype == Some(ImageKind) ==> stored.Some?)
      ensures !ok ==> db == old(db)
      ensures ok ==> id == NextId(old(View(db, p)))
      ensures ok ==>
                var payload := if mtype.value == ImageKind then stored.value else content;
                Committed(old(db), db, p, Sent(old(View(db, p)), mtype.value, payload, ttl, now))
      ensures Get(db, DESTROY) ==
              if ok then WithExpiry(Get(old(db), DESTROY), p, id, ttl, now) else Get(old(db), DESTROY)
    {
      id := 0;
      if mtype.None? {
        return false, 0;
      }
      var kind, payload := mtype.value, content;
      if kind == ImageKind {
        if stored.None? {
          return false, 0;
        }
        payload := stored.value;
      }
      OwnNames(p);
      hide *;
      ok, id := AddMessage(Suffix(DIALOGUE, p), kind, payload, false, ttl, now);
      if !ok {
        return;
      }
      ghost var mid := db;
      ok := AddMark(Suffix(PENDING, p), id);
      ghost var marked := db;
      PutDestroy(p, id, ttl, now);
      DestroyUntouched(old(db), mid, marked, Suffix(DIALOGUE, p), Suffix(PENDING, p),
                       mid[Suffix(DIALOGUE, p)], marked[Suffix(PENDING, p)]);
      SentEffect(old(db), mid, marked, db, p, Message(id, kind, payload, false, true, now, ttl));
    }

    /** The transaction of `syncText`, `syncHash` and `syncBytes`: a new incoming entry, and a mark
        for the id the other side asked to have received. */
    method Receive(p: PeerId, request: uint64, kind: Kind, payload: seq<byte>, ttl: int64, now: int)
      returns (ok: bool, id: uint64)
      requires WellFormed(db)
      modifies this`db
      ensures ok <==> Usable(p)
      ensures !ok ==> db == old(db)
      ensures ok ==> id == NextId(old(View(db, p)))
      ensures ok ==> Committed(old(db), db, p, Received(old(View(db, p)), request, kind, payload, ttl, now))
      ensures Get(db, DESTROY) ==
              if ok then WithExpiry(Get(old(db), DESTROY), p, id, ttl, now) else Get(old(db), DESTROY)
    {
      id := 0;
      OwnNames(p);
      hide *;
      ok, id := AddMessage(Suffix(DIALOGUE, p), kind, payload, true, ttl, now);
      if !ok {
        return;
      }
      ghost var mid := db;
      ok := AddMark(Suffix(RECEIVED, p), request);
      ghost var marked := db;
      PutDestroy(p, id, ttl, now);
      DestroyUntouched(old(db), mid, marked, Suffix(DIALOGUE, p), Suffix(RECEIVED, p),
                       mid[Suffix(DIALOGUE, p)], marked[Suffix(RECEIVED, p)]);
      ReceivedEffect(old(db), mid, marked, db, p, request, Message(id, kind, payload, true, false, now, ttl));
    }

    /** `textExist` and `imageExist` */
    method Exists(p: PeerId, request: uint64) returns (exist: bool)
      requires WellFormed(db)
      ensures exist <==> request in View(db, p).received
    {
      OwnNames(p);
      InIds(Get(db, Suffix(RECEIVED, p)), request);
      assert WellFormedAt(db, p);
      if Refused(Suffix(RECEIVED, p)) || Suffix(RECEIVED, p) !in db {
        return false;
      }
      return Key(request) in db[Suffix(RECEIVED, p)].entries;
    }

    /** The transaction of a worker that got an answer. */
    method Settle(p: PeerId, id: uint64, reached: bool) returns (ok: bool)
      requires WellFormed(db)
      modifies this`db
      ensures ok <==> Usable(p)
      ensures !ok ==> db == old(db)
      ensures ok ==> Committed(old(db), db, p, Settled(old(View(db, p)), id, reached))
    {
      OwnNames(p);
      assert MessageBucket(Get(db, Suffix(DIALOGUE, p))) by {
        assert WellFormedAt(db, p);
      }
      if reached {
        ok := MarkReached(Suffix(DIALOGUE, p), id);
        if !ok {
          return;
        }
      }
      hide *;
      ghost var mid := db;
      ok := GetOrNewBucket(Suffix(PENDING, p));
      if !ok {
        return;
      }
      Delete(Suffix(PENDING, p), id);
      SettledEffect(old(db), mid, db, p, id, reached);
    }

    method MarkReached(name: seq<byte>, id: uint64) returns (ok: bool)
      requires name != [] && MessageBucket(Get(db, name))
      modifies this`db
      ensures ok <==> !Refused(name)
      ensures !ok ==> db == old(db)
      ensures ok ==> db == old(db)[name := Marked(Get(old(db), name), id)]
    {
      hide Key, With;
      ok := GetOrNewBucket(name);
      if ok && Key(id) in db[name].entries {
        var data := db[name].entries[Key(id)].message;
        Put(name, id, Encoded(data.(reached := true)));
      }
    }

    method DelMessages(p: PeerId, ids: seq<uint64>) returns (ok: bool)
      requires WellFormed(db)
      modifies this`db
      ensures ok <==> Usable(p)
      ensures !ok ==> db == old(db)
      ensures ok ==> Committed(old(db), db, p, Deleted(old(View(db, p)), Elements(ids)))
    {
      OwnNames(p);
      assert MessageBucket(Get(db, Suffix(DIALOGUE, p))) by {
        assert WellFormedAt(db, p);
      }
      hide *;
      ok := GetOrNewBucket(Suffix(DIALOGUE, p));
      if !ok {
        return;
      }
      DeleteAll(Suffix(DIALOGUE, p), ids);
      DeletedEffect(old(db), db, p, db[Suffix(DIALOGUE, p)], Elements(ids));
    }

    method DeleteAll(name: seq<byte>, ids: seq<uint64>)
      requires name in db && MessageBucket(db[name])
      modifies this`db
      ensures name in db && db == old(db)[name := db[name]]
      ensures MessageBucket(db[name]) && db[name].sequence == old(db)[name].sequence
      ensures Messages(db[name]) == Messages(old(db)[name]) - Elements(ids)
    {
      hide *;
      OneMore(ids, 0);
      for i := 0 to |ids|
        invariant name in db && db == old(db)[name := db[name]]
        invariant MessageBucket(db[name]) && db[name].sequence == old(db)[name].sequence
        invariant Messages(db[name]) == Messages(old(db)[name]) - Elements(ids[..i])
      {
        WithoutId(db[name], ids[i]);
        WithoutSequence(db[name], ids[i]);
        OneMore(ids, i);
        Delete(name, ids[i]);
      }
    }

    static lemma WithoutSequence(b: Bucket, id: uint64)
      ensures Without(b, id).sequence == b.sequence
    {
    }

    /** The read transaction of `AsyncSend`: every due message, once, in key order, sorted into those
        still to be sent and those only to be asked about. */
    method Classify(p: PeerId, now: int) returns (send: seq<Message>, check: seq<Message>)
      requires WellFormed(db)
      ensures Classified(View(db, p), now, send, check)
    {
      Lookup(db, p);
      var dialogue, pending := Suffix(DIALOGUE, p), Suffix(PENDING, p);
      send, check := [], [];
      NothingDue(View(db, p), now);
      hide *;
      if Refused(pending) || pending !in db || dialogue !in db {
        return;
      }
      var ks := Order(db[pending].entries.Keys);
      OrderNoRepeats(db[pending].entries.Keys);
      send, check := SortOut(db[dialogue].entries, ks, now);
      SortedOut(View(db, p), db[dialogue], db[pending], ks, now, send, check);
    }

    static function Recorder(sending: map<PeerId, set<uint64>>, p: PeerId): set<uint64>
    {
      if p in sending then sending[p] else {}
    }

    static lemma UnionAssociates(before: map<PeerId, set<uint64>>, after: map<PeerId, set<uint64>>, p: PeerId,
                                 a: set<uint64>, b: set<uint64>, c: set<uint64>)
      requires p in after && after == before[p := after[p]] && after[p] == a + b + c
      ensures after == before[p := a + (c + b)]
    {
      assert a + b + c == a + (c + b);
    }

    static lemma RecorderIs(sending: map<PeerId, set<uint64>>, p: PeerId)
      ensures Recorder(sending, p) == if p in sending then sending[p] else {}
    {
    }

    /** The claiming loop: a message with a busy worker is passed over. */
    method ClaimAll(p: PeerId, ms: seq<Message>) returns (claimed: seq<Message>)
      requires Distinct(ms) && p in sending
      modifies this`sending
      ensures p in sending && sending == old(sending)[p := old(sending)[p] + IdsOf(ms)]
      ensures Picked(ms, old(sending)[p], claimed)
    {
      claimed := [];
      ghost var before := sending;
      PickNone(ms, before, p);
      hide *;
      for i := 0 to |ms|
        invariant p in sending && sending == before[p := before[p] + IdsOf(ms[..i])]
        invariant Picked(ms[..i], before[p], claimed)
      {
        PickOne(ms, i, before[p], claimed);
        var loaded := LoadOrStore(p, ms[i].id);
        if !loaded {
          claimed := claimed + [ms[i]];
        }
        assert sending[p] == before[p] + IdsOf(ms[..i + 1]);
      }
    }

    /** `recorder.LoadOrStore` */
    method LoadOrStore(p: PeerId, id: uint64) returns (loaded: bool)
      requires p in sending
      modifies this`sending
      ensures loaded <==> id in old(sending)[p]
      ensures p in sending && sending == old(sending)[p := old(sending)[p] + {id}]
    {
      loaded := id in sending[p];
      if loaded {
        assert sending[p] + {id} == sending[p];
        assert sending[p := sending[p]] == sending;
      } else {
        sending := sending[p := sending[p] + {id}];
      }
    }

    /** `AsyncSend` with nothing running in between: one worker is started for every due message that
        has none, and for no other; which kind depends on its age. */
    method AsyncSend(p: PeerId, now: int) returns (send: seq<Message>, check: seq<Message>)
      requires WellFormed(db)
      modifies this`sending
      ensures Claimed(View(db, p), Recorder(old(sending), p), now, send, check)
      ensures sending == old(sending)[p := Recorder(old(sending), p) + Due(View(db, p))]
    {
      hide *;
      var s, c := Classify(p, now);
      ClassifiedIds(View(db, p), now, s, c);
      RecorderIs(sending, p);
      ghost var before := sending;
      if p !in sending {
        sending := sending[p := {}];
      }
      check := ClaimAll(p, c);
      send := ClaimAll(p, s);
      ClaimedAll(View(db, p), Recorder(before, p), now, s, c, send, check);
      UnionAssociates(before, sending, p, Recorder(before, p), IdsOf(c), IdsOf(s));
    }

    /** `GetLastMessages`, whose offset and limit the source does not use: the whole dialogue, in
        strictly increasing order of ids. */
    method GetLastMessages(p: PeerId) returns (ok: bool, data: seq<Message>)
      requires WellFormed(db)
      ensures ok <==> Usable(p)
      ensures InOrder(View(db, p), data)
    {
      Lookup(db, p);
      var dialogue := Suffix(DIALOGUE, p);
      ok, data := !Refused(dialogue), [];
      NothingInOrder(View(db, p));
      hide *;
      if !ok || dialogue !in db {
        return;
      }
      var ks := Order(db[dialogue].entries.Keys);
      data := Collect(db[dialogue].entries, ks);
      assert forall j :: 0 <= j < |ks| ==> ks[j] in ks;
      Collected(View(db, p), db[dialogue], ks, data);
    }
  }
}
