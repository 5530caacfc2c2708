/** The key/value store of the client: bbolt as named buckets of ordered entries, the flat bucket names
    of internal/client/service/service.go, and the per-peer view they stand for. */
module Buckets {
  import opened Bytes
  import opened Wire

  /** internal/client/service/model/message.go, with a message type for each protocol. */
  datatype Message = Message(
    id: uint64,
    kind: Kind,
    payload: seq<byte>,
    reached: bool,
    initiator: bool,
    createdAt: int,
    ttl: int64)

  /** A stored value: the empty value of a mark, an encoded message, or other bytes. */
  datatype Value = Mark | Encoded(message: Message) | Raw(bytes: seq<byte>)

  datatype Bucket = Bucket(sequence: uint64, entries: map<seq<byte>, Value>)

  /** What one transaction sees. */
  type DB = map<seq<byte>, Bucket>

  const EMPTY := Bucket(0, map[])

  function Ascii(s: string): (b: seq<byte>)
    ensures |b| == |s|
  {
    seq(|s|, i requires 0 <= i < |s| => s[i] as int % 256)
  }

  const UNDERSCORE: byte := 0x5f

  const PEERS: seq<byte> := Ascii("peers")
  const IMAGES: seq<byte> := Ascii("images")
  const PENDING: seq<byte> := Ascii("msg_pending_")
  const RECEIVED: seq<byte> := Ascii("msg_received_")
  const DIALOGUE: seq<byte> := Ascii("dialogue_")
  const DESTROY: seq<byte> := Ascii("destory_msg")

  /** `BucketKey.Suffix` */
  function Suffix(key: seq<byte>, suffix: seq<byte>): (r: seq<byte>)
    ensures key != [] ==> r != []
  {
    key + suffix
  }

  /** `GetBucket` refuses a key that still ends in the separator. */
  predicate Refused(key: seq<byte>)
    requires key != []
  {
    key[|key| - 1] == UNDERSCORE
  }

  /** A bucket that does not exist reads like an empty one. */
  function Get(db: DB, key: seq<byte>): Bucket
  {
    if key in db then db[key] else EMPTY
  }

  function Ids(b: Bucket): set<uint64>
  {
    set k | k in b.entries && |k| == 8 :: FromKey(k)
  }

  lemma InIds(b: Bucket, id: uint64)
    ensures id in Ids(b) <==> Key(id) in b.entries
  {
    if id in Ids(b) {
      var k :| k in b.entries && |k| == 8 && id == FromKey(k);
      assert Key(id) == k;
    }
    assert FromKey(Key(id)) == id;
  }

  function Messages(b: Bucket): map<uint64, Message>
  {
    map id | id in Ids(b) && (InIds(b, id); b.entries[Key(id)].Encoded?) :: (InIds(b, id); b.entries[Key(id)].message)
  }

  /** What the buckets of one peer mean. */
  datatype Store = Store(
    sequence: uint64,
    dialogue: map<uint64, Message>,
    pending: set<uint64>,
    received: set<uint64>)

  function View(db: DB, p: PeerId): Store
  {
    Store(Get(db, Suffix(DIALOGUE, p)).sequence, Messages(Get(db, Suffix(DIALOGUE, p))),
          Ids(Get(db, Suffix(PENDING, p))), Ids(Get(db, Suffix(RECEIVED, p))))
  }

  predicate MessageBucket(b: Bucket)
  {
    forall k <- b.entries :: |k| == 8 && b.entries[k].Encoded? && b.entries[k].message.id == FromKey(k)
  }

  predicate MarkBucket(b: Bucket)
  {
    forall k <- b.entries :: |k| == 8
  }

  /** A peer whose bucket keys `GetBucket` accepts. */
  predicate Usable(p: PeerId)
  {
    p != [] && p[|p| - 1] != UNDERSCORE
  }

  ghost predicate WellFormedAt(db: DB, p: PeerId)
  {
    && (!Usable(p) ==> Suffix(DIALOGUE, p) !in db && Suffix(PENDING, p) !in db && Suffix(RECEIVED, p) !in db)
    && MessageBucket(Get(db, Suffix(DIALOGUE, p)))
    && MarkBucket(Get(db, Suffix(PENDING, p)))
    && MarkBucket(Get(db, Suffix(RECEIVED, p)))
  }

  ghost predicate WellFormed(db: DB)
  {
    forall p: PeerId :: WellFormedAt(db, p)
  }

  lemma FixedNames()
    ensures PEERS == [0x70, 0x65, 0x65, 0x72, 0x73] && IMAGES == [0x69, 0x6d, 0x61, 0x67, 0x65, 0x73]
    ensures DESTROY == [0x64, 0x65, 0x73, 0x74, 0x6f, 0x72, 0x79, 0x5f, 0x6d, 0x73, 0x67]
  {
  }

  lemma PeerNames()
    ensures DIALOGUE == [0x64, 0x69, 0x61, 0x6c, 0x6f, 0x67, 0x75, 0x65, 0x5f]
    ensures PENDING == [0x6d, 0x73, 0x67, 0x5f, 0x70, 0x65, 0x6e, 0x64, 0x69, 0x6e, 0x67, 0x5f]
    ensures RECEIVED == [0x6d, 0x73, 0x67, 0x5f, 0x72, 0x65, 0x63, 0x65, 0x69, 0x76, 0x65, 0x64, 0x5f]
  {
  }

  /** A bucket name tells its kind and its peer apart from every other, and from the fixed names. */
  lemma NamesInjective(k: seq<byte>, l: seq<byte>, p: PeerId, q: PeerId)
    requires k in {DIALOGUE, PENDING, RECEIVED} && l in {DIALOGUE, PENDING, RECEIVED}
    ensures Suffix(k, p) == Suffix(l, q) <==> k == l && p == q
    ensures Suffix(k, p) !in {PEERS, IMAGES, DESTROY}
    ensures DIALOGUE != PENDING && DIALOGUE != RECEIVED && PENDING != RECEIVED
  {
    FixedNames();
    PeerNames();
    assert Suffix(k, p)[0] == k[0] && (Suffix(k, p))[1] == k[1] && (Suffix(k, p))[4] == k[4];
    assert (Suffix(l, q))[0] == l[0] && (Suffix(l, q))[4] == l[4];
    assert (Suffix(k, p))[|k|..] == p && (Suffix(l, q))[|l|..] == q;
  }

  lemma PutId(b: Bucket, id: uint64, v: Value)
    ensures var c := b.(entries := b.entries[Key(id) := v]);
            && Ids(c) == Ids(b) + {id}
            && Messages(c) == if v.Encoded? then Messages(b)[id := v.message] else Messages(b) - {id}
  {
    var c := b.(entries := b.entries[Key(id) := v]);
    forall j: uint64
      ensures Key(j) == Key(id) ==> j == id
      ensures j in Ids(c) <==> j in Ids(b) || j == id
    {
      InIds(b, j);
      InIds(c, j);
    }
  }

  lemma DeleteId(b: Bucket, id: uint64)
    ensures var c := b.(entries := b.entries - {Key(id)});
            && Ids(c) == Ids(b) - {id}
            && Messages(c) == Messages(b) - {id}
  {
    var c := b.(entries := b.entries - {Key(id)});
    forall j: uint64
      ensures Key(j) == Key(id) ==> j == id
      ensures j in Ids(c) <==> j in Ids(b) && j != id
    {
      InIds(b, j);
      InIds(c, j);
    }
  }

  /** `before` and `after` differ at most in the buckets of `p` and the bucket of expiry times. */
  ghost predicate OnlyTouches(before: DB, after: DB, p: PeerId)
  {
    forall n :: n !in {Suffix(DIALOGUE, p), Suffix(PENDING, p), Suffix(RECEIVED, p), DESTROY} ==>
      (n in after <==> n in before) && (n in after ==> after[n] == before[n])
  }

  /** A change to the buckets of one peer is not seen by any other peer. */
  lemma OthersUnchanged(before: DB, after: DB, p: PeerId)
    requires OnlyTouches(before, after, p)
    ensures forall q :: q != p ==> View(after, q) == View(before, q)
    ensures WellFormed(before) && WellFormedAt(after, p) ==> WellFormed(after)
  {
    forall q: PeerId | q != p
      ensures View(after, q) == View(before, q)
      ensures WellFormedAt(before, q) ==> WellFormedAt(after, q)
    {
      forall k | k in {DIALOGUE, PENDING, RECEIVED}
        ensures Suffix(k, q) in after <==> Suffix(k, q) in before
        ensures Get(after, Suffix(k, q)) == Get(before, Suffix(k, q))
      {
        NamesInjective(k, DIALOGUE, q, p);
        NamesInjective(k, PENDING, q, p);
        NamesInjective(k, RECEIVED, q, p);
        hide Suffix, Ascii;
      }
      hide Messages, Ids, Get, Suffix, Ascii, MessageBucket, MarkBucket, OnlyTouches;
    }
  }

  lemma OwnNames(p: PeerId)
    ensures DIALOGUE != [] && PENDING != [] && RECEIVED != [] && DESTROY != []
    ensures Suffix(DIALOGUE, p) != Suffix(PENDING, p) && Suffix(DIALOGUE, p) != Suffix(RECEIVED, p)
    ensures Suffix(PENDING, p) != Suffix(RECEIVED, p)
    ensures DESTROY !in {Suffix(DIALOGUE, p), Suffix(PENDING, p), Suffix(RECEIVED, p)}
    ensures Refused(Suffix(DIALOGUE, p)) <==> !Usable(p)
    ensures Refused(Suffix(PENDING, p)) <==> !Usable(p)
    ensures Refused(Suffix(RECEIVED, p)) <==> !Usable(p)
    ensures !Refused(DESTROY)
  {
    FixedNames();
    PeerNames();
    NamesInjective(DIALOGUE, PENDING, p, p);
    NamesInjective(DIALOGUE, RECEIVED, p, p);
    NamesInjective(PENDING, RECEIVED, p, p);
    NamesInjective(RECEIVED, RECEIVED, p, p);
  }

  ghost predicate SameBut(before: DB, after: DB, names: set<seq<byte>>)
  {
    forall n :: n !in names ==> (n in after <==> n in before) && (n in after ==> after[n] == before[n])
  }

  lemma SameButNames(before: DB, after: DB, p: PeerId, names: set<seq<byte>>)
    requires SameBut(before, after, names)
    requires names <= {Suffix(DIALOGUE, p), Suffix(PENDING, p), Suffix(RECEIVED, p), DESTROY}
    ensures OnlyTouches(before, after, p)
  {
    hide Suffix, Ascii;
  }

  /** Two buckets written, then possibly a third changed. */
  lemma TwoWrites(before: DB, mid: DB, marked: DB, after: DB, m: seq<byte>, n: seq<byte>, x: seq<byte>, b: Bucket,
                  c: Bucket)
    requires m != n && m != x && n != x
    requires mid == before[m := b] && marked == mid[n := c] && SameBut(marked, after, {x})
    ensures Get(mid, n) == Get(before, n)
    ensures Get(after, m) == b && Get(after, n) == c && SameBut(before, after, {m, n, x})
    ensures forall o :: o !in {m, n, x} ==> Get(after, o) == Get(before, o)
  {
  }

  /** One bucket written if need be, then a second. */
  lemma OneOrTwoWrites(before: DB, mid: DB, after: DB, m: seq<byte>, n: seq<byte>, b: Bucket, write: bool, c: Bucket)
    requires m != n && (if write then mid == before[m := b] else mid == before && b == Get(before, m))
    requires after == mid[n := c]
    ensures Get(after, m) == b && Get(after, n) == c && SameBut(before, after, {m, n})
    ensures forall o :: o !in {m, n} ==> Get(after, o) == Get(before, o)
  {
  }

  /** A bucket with one more entry, and one with an entry less. */
  function With(b: Bucket, id: uint64, v: Value): Bucket
  {
    b.(entries := b.entries[Key(id) := v])
  }

  function Without(b: Bucket, id: uint64): Bucket
  {
    b.(entries := b.entries - {Key(id)})
  }

  /** What a transaction that leaves a peer with these buckets amounts to. */
  lemma Transaction(before: DB, after: DB, p: PeerId, dialogue: Bucket, pending: Bucket, received: Bucket)
    requires OnlyTouches(before, after, p) && WellFormed(before) && Usable(p)
    requires Get(after, Suffix(DIALOGUE, p)) == dialogue && Get(after, Suffix(PENDING, p)) == pending
    requires Get(after, Suffix(RECEIVED, p)) == received
    requires MessageBucket(dialogue) && MarkBucket(pending) && MarkBucket(received)
    ensures WellFormed(after)
    ensures View(after, p) == Store(dialogue.sequence, Messages(dialogue), Ids(pending), Ids(received))
    ensures forall q :: q != p ==> View(after, q) == View(before, q)
  {
    hide Messages, Ids, MessageBucket, MarkBucket, OnlyTouches, WellFormed, Suffix, Ascii, Get;
    OthersUnchanged(before, after, p);
  }

  lemma WithMessage(b: Bucket, id: uint64, m: Message)
    requires MessageBucket(b) && m.id == id
    ensures MessageBucket(With(b, id, Encoded(m)))
    ensures Messages(With(b, id, Encoded(m))) == Messages(b)[id := m]
  {
    PutId(b, id, Encoded(m));
    assert FromKey(Key(id)) == id;
  }

  lemma WithMark(b: Bucket, id: uint64)
    requires MarkBucket(b)
    ensures MarkBucket(With(b, id, Mark)) && Ids(With(b, id, Mark)) == Ids(b) + {id}
  {
    PutId(b, id, Mark);
  }

  lemma WithoutId(b: Bucket, id: uint64)
    ensures MessageBucket(b) ==> MessageBucket(Without(b, id))
    ensures MarkBucket(b) ==> MarkBucket(Without(b, id))
    ensures Messages(Without(b, id)) == Messages(b) - {id} && Ids(Without(b, id)) == Ids(b) - {id}
  {
    DeleteId(b, id);
  }

  // ---- Cursors ----

  ghost predicate Sorted(ks: seq<seq<byte>>)
  {
    forall i, j :: 0 <= i < j < |ks| ==> LexLess(ks[i], ks[j])
  }

  lemma {:induction false} LexTransitive(a: seq<byte>, b: seq<byte>, c: seq<byte>)
    requires LexLess(a, b) && LexLess(b, c)
    ensures LexLess(a, c)
  {
    if a != [] && a[0] == b[0] == c[0] {
      LexTransitive(a[1..], b[1..], c[1..]);
    }
  }

  predicate Least(k: seq<byte>, s: set<seq<byte>>)
  {
    k in s && forall j :: j in s && j != k ==> LexLess(k, j)
  }

  lemma {:induction false} LeastExists(s: set<seq<byte>>)
    requires s != {}
    ensures exists k :: Least(k, s)
    ensures forall k, l :: Least(k, s) && Least(l, s) ==> k == l
    decreases |s|
  {
    forall k, l | Least(k, s) && Least(l, s) ensures k == l {
      LexTrichotomy(k, l);
    }
    var k :| k in s;
    if s == {k} {
      assert Least(k, s);
    } else {
      LeastExists(s - {k});
      var l :| Least(l, s - {k});
      LexTrichotomy(k, l);
      if LexLess(k, l) {
        forall j | j in s && j != k ensures LexLess(k, j) {
          if j != l { LexTransitive(k, l, j); }
        }
        assert Least(k, s);
      } else {
        assert Least(l, s);
      }
    }
  }

  lemma PrependSorted(k: seq<byte>, ks: seq<seq<byte>>)
    requires Sorted(ks) && forall j :: j in ks ==> LexLess(k, j)
    ensures Sorted([k] + ks)
  {
    hide LexLess;
    forall i | 0 <= i < |ks| ensures LexLess(k, ks[i]) {
      assert ks[i] in ks;
    }
  }

  /** The order in which a cursor visits the keys of a bucket. */
  function Order(s: set<seq<byte>>): (ks: seq<seq<byte>>)
    ensures Sorted(ks)
    ensures forall k :: k in ks <==> k in s
    ensures |ks| == |s|
    decreases |s|
  {
    if s == {} then []
    else
      LeastExists(s);
      var k :| Least(k, s);
      var rest := Order(s - {k});
      assert forall j :: j in rest ==> j in s - {k};
      PrependSorted(k, rest);
      [k] + rest
  }

  lemma OrderDistinct(s: set<seq<byte>>)
    ensures var ks := Order(s); forall i, j :: 0 <= i < j < |ks| ==> LexLess(ks[i], ks[j]) && ks[i] != ks[j]
  {
    var ks := Order(s);
    forall i, j | 0 <= i < j < |ks| ensures ks[i] != ks[j] {
      LexTrichotomy(ks[i], ks[j]);
    }
  }

  /** In a bucket of messages, entries and messages are the same thing. */
  lemma EntriesAreMessages(b: Bucket)
    requires MessageBucket(b)
    ensures forall id :: id in Messages(b) <==> Key(id) in b.entries
    ensures forall id <- Messages(b) :: Messages(b)[id] == b.entries[Key(id)].message && Messages(b)[id].id == id
    ensures forall k <- b.entries :: b.entries[k].Encoded? && Key(b.entries[k].message.id) == k
  {
    forall id: uint64
      ensures id in Ids(b) <==> Key(id) in b.entries
      ensures FromKey(Key(id)) == id
    {
      InIds(b, id);
    }
  }

  lemma EntriesAreMarks(b: Bucket)
    requires MarkBucket(b)
    ensures forall id :: id in Ids(b) <==> Key(id) in b.entries
    ensures forall k <- b.entries :: exists id :: k == Key(id)
  {
    forall id: uint64 ensures id in Ids(b) <==> Key(id) in b.entries {
      InIds(b, id);
    }
    forall k <- b.entries ensures exists id :: k == Key(id) {
      assert k == Key(FromKey(k));
    }
  }
}
