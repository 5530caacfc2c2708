/** What every run of two clients keeps, and what follows for their users. */
module DeliveryInvariant {
  import opened Bytes
  import opened Options
  import opened FrameFormat
  import opened Wire
  import opened Buckets
  import opened MessageStore
  import opened Delivery
  import T = TextTypes
  import I = ImageTypes

  // ---- One client ----

  /** Ids are handed out once, in order; a deleted one does not come back. */
  ghost predicate IdsInv(n: Node)
  {
    && (forall id <- n.store.dialogue :: id <= n.store.sequence && id !in n.removed)
    && (forall id <- n.sent :: id <= n.store.sequence)
    && (forall id <- n.removed :: id <= n.store.sequence)
  }

  /** What was sent, as it was at first. */
  ghost predicate SentInv(n: Node)
  {
    forall id <- n.sent ::
      var m := n.sent[id];
      m.id == id && m.initiator && !m.reached && m.createdAt <= n.now && |m.payload| + HEADROOM <= MAX_INT
  }

  /** The outgoing messages of the dialogue are those sent, but for the reached mark. */
  ghost predicate DialogueInv(n: Node)
  {
    forall id <- n.store.dialogue ::
      var m := n.store.dialogue[id];
      && m.id == id && (m.initiator <==> id in n.sent)
      && (id in n.sent ==> m.(reached := false) == n.sent[id])
  }

  /** A pending message that is still there is outgoing and not known to have arrived. */
  ghost predicate PendingInv(n: Node)
  {
    forall id <- n.store.pending :: id in n.sent && (id in n.store.dialogue ==> !n.store.dialogue[id].reached)
  }

  ghost predicate WorkerInv(n: Node, w: Worker)
  {
    && w.id in n.sent && w.data == n.sent[w.id] && w.id in n.recorder
    && (w.second ==> w.job.SendJob? && w.data.kind.ImageKind?)
    && (w.job.CheckJob? ==> w.id in n.asked)
    && (w.job.SendJob? && w.id in n.asked ==> w.id in n.late)
  }

  function Busy(workers: map<nat, Worker>): set<uint64>
  {
    set t | t in workers :: workers[t].id
  }

  /** At most one worker for a message, and the recorder knows exactly which messages have one. */
  ghost predicate WorkersInv(n: Node)
  {
    && (forall t <- n.workers :: WorkerInv(n, n.workers[t]))
    && (forall t, u :: t in n.workers && u in n.workers && n.workers[t].id == n.workers[u].id ==> t == u)
    && n.recorder == Busy(n.workers)
  }

  /** The result slots are exactly those of the waiting workers. */
  ghost predicate SlotsInv(n: Node)
  {
    && (forall s <- n.slots ::
          n.slots[s] in n.workers && n.workers[n.slots[s]].phase.Waiting? && n.workers[n.slots[s]].Place() == s)
    && (forall t <- n.workers :: n.workers[t].phase.Waiting? ==>
          n.workers[t].Place() in n.slots && n.slots[n.workers[t].Place()] == t)
  }

  /** A message that was ever asked about is too old to be sent again. */
  ghost predicate AskedInv(n: Node)
  {
    forall id <- n.asked :: id in n.sent && Stale(n.sent[id], n.now)
  }

  /** What rounds have noted is about messages sent, and whether one is too old does not change back. */
  ghost predicate GlancesInv(n: Node)
  {
    forall g <- n.glances ::
      g.data.id in n.sent && g.data == n.sent[g.data.id] && (g.job.CheckJob? ==> Stale(g.data, n.now))
  }

  /** Only about a text that was checked before it was sent again can a sending worker be misled. */
  ghost predicate MisledInv(n: Node)
  {
    forall id <- n.misled :: id in n.sent && (n.sent[id].kind.TextKind? ==> id in n.late)
  }

  /** What was made of incoming texts is in the dialogue as it was made, until it is deleted. */
  ghost predicate ArrivalsInv(n: Node)
  {
    forall r <- n.arrivals ::
      var m := n.arrivals[r];
      && r in n.store.received && m.id !in n.sent && m.id <= n.store.sequence
      && m.reached && !m.initiator && m.kind.TextKind?
      && (if m.id in n.store.dialogue then n.store.dialogue[m.id] == m else m.id in n.removed)
  }

  ghost predicate NodeInv(n: Node)
  {
    && IdsInv(n) && SentInv(n) && DialogueInv(n) && PendingInv(n) && WorkersInv(n) && SlotsInv(n)
    && AskedInv(n) && ArrivalsInv(n) && GlancesInv(n) && MisledInv(n)
  }

  // ---- One client towards the other ----

  /** An answer a worker holds is one to its question, and a positive one is true. A sending worker
      that was not late holds no answer to a check: of texts only confirmations, of images none that is
      negative but the one that asks for the bytes. */
  ghost predicate AnswerInv(late: set<uint64>, w: Worker, r: Action, other: Node)
  {
    && r.IsResponse() && r.Id() == w.id && r.Kind() == w.data.kind
    && (r.Positive() ==> w.id in other.store.received)
    && (w.job.SendJob? && w.id !in late && r.Text? ==> r.Positive())
    && (w.job.SendJob? && w.id !in late && r.Image? && !r.Positive() ==> r.image.RespSyncHash?)
    && (r.Image? && r.image.RespSyncHash? ==> |r.image.subdir| <= SUBDIR_SIZE)
  }

  ghost predicate MailInv(n: Node, other: Node)
  {
    forall t <- n.workers ::
      && (n.workers[t].phase.Answered? ==> AnswerInv(n.late, n.workers[t], n.workers[t].phase.answer, other))
      && (n.workers[t].phase.Waiting? && n.workers[t].phase.mail.Some? ==>
            AnswerInv(n.late, n.workers[t], n.workers[t].phase.mail.value, other))
  }

  ghost predicate ReachedInv(n: Node, other: Node)
  {
    forall id <- n.store.dialogue ::
      id in n.sent && n.store.dialogue[id].reached ==> id in other.store.received || id in n.misled
  }

  /** Whatever one side has marked as received the other has sent; a text was entered as it was sent. */
  ghost predicate ReceivedInv(n: Node, other: Node)
  {
    forall id <- other.store.received ::
      && id in n.sent
      && (n.sent[id].kind.TextKind? ==>
            && id in other.arrivals && other.arrivals[id].payload == n.sent[id].payload
            && other.arrivals[id].ttl == n.sent[id].ttl)
  }

  ghost predicate CrossInv(n: Node, other: Node)
  {
    MailInv(n, other) && ReachedInv(n, other) && ReceivedInv(n, other)
  }

  // ---- The network ----

  /** What one side ever says to the other: requests about messages it has sent, checks only for those
      it has started to check, and positive answers only for what it has received. */
  ghost predicate Allowed(a: Action, src: Node, dst: Node)
  {
    var id := a.Id();
    match a
    case Text(ReqSyncText(_, ttl, content)) =>
      && id in src.sent && src.sent[id].kind.TextKind?
      && content == src.sent[id].payload && ttl == ToUint64(src.sent[id].ttl)
    case Text(ReqExistence(_)) => id in src.sent && src.sent[id].kind.TextKind? && id in src.asked
    case Text(RespSyncText(_, ok)) => ok && id in src.store.received
    case Text(RespExistence(_, ok)) => id in dst.asked && (ok ==> id in src.store.received)
    case Image(ReqSyncHash(_, _, _)) => id in src.sent && src.sent[id].kind.ImageKind?
    case Image(ReqSyncBytes(_, _, _)) => id in src.sent && src.sent[id].kind.ImageKind?
    case Image(ReqExistence(_)) => id in src.sent && src.sent[id].kind.ImageKind? && id in src.asked
    case Image(RespSyncHash(_, ok, subdir)) => |subdir| <= SUBDIR_SIZE && (ok ==> id in src.store.received)
    case Image(RespSyncBytes(_, ok)) => ok && id in src.store.received
    case Image(RespExistence(_, ok)) => id in dst.asked && (ok ==> id in src.store.received)
  }

  ghost predicate GoodPacket(p: Packet, src: Node, dst: Node)
  {
    exists a: Action :: p.kind == a.Kind() && p.bytes == FrameBytes(a) && Carried(a) && Allowed(a, src, dst)
  }

  ghost predicate NetInv(s: Sys)
  {
    forall p <- s.net :: GoodPacket(p, s.At(Other(p.to)), s.At(p.to))
  }

  ghost predicate Inv(s: Sys)
  {
    NodeInv(s.a) && NodeInv(s.b) && CrossInv(s.a, s.b) && CrossInv(s.b, s.a) && NetInv(s)
  }

  // ---- Growth ----

  /** What a step of a client never takes back. */
  ghost predicate Grows(n: Node, n': Node)
  {
    && n.now <= n'.now
    && n.store.sequence <= n'.store.sequence
    && n.store.received <= n'.store.received
    && n.asked <= n'.asked
    && n.removed <= n'.removed && n.late <= n'.late && n.misled <= n'.misled
    && (forall id <- n.sent :: id in n'.sent && n'.sent[id] == n.sent[id])
    && (forall id :: id <= n.store.sequence && id !in n.store.dialogue ==> id !in n'.store.dialogue)
    && (forall id :: id <= n.store.sequence && id !in n.store.pending ==> id !in n'.store.pending)
    && (forall id :: id in n.store.dialogue && id in n'.store.dialogue ==>
          n'.store.dialogue[id].(reached := false) == n.store.dialogue[id].(reached := false)
          && (n.store.dialogue[id].reached ==> n'.store.dialogue[id].reached))
  }

  lemma AllowedGrows(a: Action, src: Node, dst: Node, src': Node, dst': Node)
    requires Allowed(a, src, dst) && Grows(src, src') && Grows(dst, dst')
    ensures Allowed(a, src', dst')
  {
  }

  lemma GrowsReflexive(n: Node)
    ensures Grows(n, n)
  {
  }

  lemma GoodPacketGrows(p: Packet, src: Node, dst: Node, src': Node, dst': Node)
    requires GoodPacket(p, src, dst) && Grows(src, src') && Grows(dst, dst')
    ensures GoodPacket(p, src', dst')
  {
    hide Allowed, Grows, Carried;
    var a: Action :| p.kind == a.Kind() && p.bytes == FrameBytes(a) && Carried(a) && Allowed(a, src, dst);
    AllowedGrows(a, src, dst, src', dst');
  }

  // ---- Steps of one client ----

  /** What is to be shown of a step of `n`: its own invariant, nothing taken back, both relations to
      the other side, and that what it says may be said. */
  ghost predicate Preserved(n: Node, o: Outcome, other: Node)
  {
    && NodeInv(o.node) && Grows(n, o.node) && CrossInv(o.node, other) && CrossInv(other, o.node)
    && (o.out.Some? ==> Carried(o.out.value) && Allowed(o.out.value, o.node, other))
  }

  ghost predicate Before(n: Node, other: Node)
  {
    NodeInv(n) && CrossInv(n, other) && CrossInv(other, n)
  }

  /** A step that leaves the store and the history alone, but for a check that is started. */
  ghost predicate SameStore(n: Node, n': Node)
  {
    n'.store == n.store && n'.now == n.now && n'.sent == n.sent && n'.arrivals == n.arrivals
    && n'.removed == n.removed && n.asked <= n'.asked && n.late <= n'.late && n'.misled == n.misled
  }

  lemma WorkerStep(n: Node, o: Outcome, other: Node)
    requires Before(n, other) && SameStore(n, o.node)
    requires WorkersInv(o.node) && SlotsInv(o.node) && AskedInv(o.node) && GlancesInv(o.node) && MailInv(o.node, other)
    requires o.out.Some? ==> Carried(o.out.value) && Allowed(o.out.value, o.node, other)
    ensures Preserved(n, o, other)
  {
    var n' := o.node;
    hide Carried, Allowed, WorkersInv, SlotsInv, AskedInv, GlancesInv, Stale, AnswerInv;
    assert Grows(n, n');
    assert MisledInv(n');
    assert IdsInv(n') && SentInv(n') && DialogueInv(n') && PendingInv(n') && ArrivalsInv(n');
    assert ReachedInv(n', other) && ReceivedInv(n', other);
    assert ReachedInv(other, n') && ReceivedInv(other, n');
    assert MailInv(other, n') by { MailSame(other, n, n'); }
  }

  lemma MailSame(m: Node, n: Node, n': Node)
    requires MailInv(m, n) && n.store.received <= n'.store.received
    ensures MailInv(m, n')
  {
  }

  /** A step that leaves the workers, their slots and the history of checks alone. */
  ghost predicate SameWorkers(n: Node, n': Node)
  {
    n'.workers == n.workers && n'.slots == n.slots && n'.recorder == n.recorder && n'.asked == n.asked
    && n'.glances == n.glances && n'.late == n.late
  }

  lemma GlancesGrow(n: Node, n': Node)
    requires SentInv(n) && GlancesInv(n) && n'.glances == n.glances && n.now <= n'.now
    requires forall id <- n.sent :: id in n'.sent && n'.sent[id] == n.sent[id]
    ensures GlancesInv(n')
  {
  }

  /** The messages that are misled by a step are among those that may be. */
  ghost predicate MayMislead(n: Node, misled: set<uint64>)
  {
    forall id <- misled :: id in n.misled || (id in n.sent && (n.sent[id].kind.TextKind? ==> id in n.late))
  }

  lemma MisledGrow(n: Node, n': Node)
    requires MisledInv(n) && n.late <= n'.late && MayMislead(n, n'.misled)
    requires forall id <- n.sent :: id in n'.sent && n'.sent[id] == n.sent[id]
    ensures MisledInv(n')
  {
  }

  lemma MailGrows(n: Node, n': Node, other: Node)
    requires MailInv(n, other) && n'.workers == n.workers && n'.late == n.late
    ensures MailInv(n', other)
  {
  }

  lemma WorkersSame(n: Node, n': Node)
    requires WorkersInv(n) && SlotsInv(n) && SameWorkers(n, n')
    requires forall id <- n.sent :: id in n'.sent && n'.sent[id] == n.sent[id]
    ensures WorkersInv(n') && SlotsInv(n')
  {
    hide Busy;
  }

  lemma StoreStep(n: Node, o: Outcome, other: Node)
    requires Before(n, other) && SameWorkers(n, o.node) && Grows(n, o.node)
    requires IdsInv(o.node) && SentInv(o.node) && DialogueInv(o.node) && PendingInv(o.node) && ArrivalsInv(o.node)
    requires AskedInv(o.node) && ReachedInv(o.node, other) && ReceivedInv(o.node, other) && ReceivedInv(other, o.node)
    requires MayMislead(n, o.node.misled)
    requires o.out.Some? ==> Carried(o.out.value) && Allowed(o.out.value, o.node, other)
    ensures Preserved(n, o, other)
  {
    hide Carried, Allowed, IdsInv, SentInv, DialogueInv, PendingInv, ArrivalsInv, AskedInv, ReceivedInv, GlancesInv,
      MisledInv, MayMislead, WorkersInv, SlotsInv, MailInv;
    GlancesGrow(n, o.node);
    MisledGrow(n, o.node);
    WorkersSame(n, o.node);
    MailGrows(n, o.node, other);
    MailSame(other, n, o.node);
  }

  lemma TickPreserves(n: Node, t: int, other: Node)
    requires Before(n, other)
    ensures Preserved(n, TickStep(n, t), other)
  {
    if t < n.now {
      IdlePreserves(n, other);
    } else {
      Later(n, n.(now := t), other);
      hide Before, IdsInv, SentInv, DialogueInv, PendingInv, ArrivalsInv, AskedInv, ReachedInv, ReceivedInv,
        MayMislead, Grows;
      StoreStep(n, TickStep(n, t), other);
    }
  }

  lemma Later(n: Node, n': Node, other: Node)
    requires Before(n, other) && n.now <= n'.now && n' == n.(now := n'.now)
    ensures IdsInv(n') && SentInv(n') && DialogueInv(n') && PendingInv(n') && ArrivalsInv(n') && AskedInv(n')
    ensures ReachedInv(n', other) && ReceivedInv(n', other) && ReceivedInv(other, n')
    ensures MayMislead(n, n'.misled) && Grows(n, n')
  {
    hide WorkersInv, SlotsInv, MailInv;
    assert SentInv(n') && AskedInv(n');
    hide SentInv, AskedInv, Stale;
  }

  lemma SendPreserves(n: Node, kind: Kind, payload: seq<byte>, ttl: int64, other: Node)
    requires Before(n, other)
    ensures Preserved(n, SendStep(n, kind, payload, ttl), other)
  {
    hide Preserved;
    var o := SendStep(n, kind, payload, ttl);
    if o == Idle(n) {
      IdlePreserves(n, other);
    } else {
      var id := n.store.sequence + 1;
      var m := Message(id, kind, payload, false, true, n.now, ttl);
      assert o.node == n.(store := o.node.store, sent := n.sent[id := m]);
      assert o.node.store == Store(id, n.store.dialogue[id := m], n.store.pending + {id}, n.store.received);
      hide SendStep, Sent;
      SentIsNew(n, o.node, id, m);
      hide WorkersInv, SlotsInv, MailInv, Carried, Allowed, Stale, IdsInv, SentInv, DialogueInv, PendingInv,
        ArrivalsInv, AskedInv, Grows;
      StoreStep(n, o, other);
    }
  }

  lemma SentIsNew(n: Node, n': Node, id: uint64, m: Message)
    requires NodeInv(n) && id == n.store.sequence + 1
    requires m.id == id && m.initiator && !m.reached && m.createdAt == n.now && |m.payload| + HEADROOM <= MAX_INT
    requires n' == n.(store := n'.store, sent := n.sent[id := m])
    requires n'.store == Store(id, n.store.dialogue[id := m], n.store.pending + {id}, n.store.received)
    ensures IdsInv(n') && SentInv(n') && DialogueInv(n') && PendingInv(n') && ArrivalsInv(n') && AskedInv(n')
    ensures Grows(n, n')
  {
    assert id !in n.store.dialogue && id !in n.sent && id !in n.removed && id !in n.store.pending && id !in n.asked;
    SentArrivals(n, n', id, m);
    SentGrows(n, n', id, m);
    SentDialogue(n, n', id, m);
    SentAsked(n, n', id, m);
    hide NodeInv, ArrivalsInv, Grows, DialogueInv, SentInv, AskedInv, PendingInv, Stale;
  }

  lemma SentAsked(n: Node, n': Node, id: uint64, m: Message)
    requires SentInv(n) && AskedInv(n) && PendingInv(n) && IdsInv(n) && id == n.store.sequence + 1 && id !in n.asked
    requires id !in n.sent && id !in n.store.pending
    requires m.id == id && m.initiator && !m.reached && m.createdAt == n.now && |m.payload| + HEADROOM <= MAX_INT
    requires n' == n.(store := n'.store, sent := n.sent[id := m])
    requires n'.store == Store(id, n.store.dialogue[id := m], n.store.pending + {id}, n.store.received)
    ensures SentInv(n') && AskedInv(n') && PendingInv(n') && IdsInv(n')
  {
    hide Stale;
  }

  lemma SentGrows(n: Node, n': Node, id: uint64, m: Message)
    requires id !in n.sent && id == n.store.sequence + 1 && id !in n.store.dialogue
    requires n' == n.(store := n'.store, sent := n.sent[id := m])
    requires n'.store == Store(id, n.store.dialogue[id := m], n.store.pending + {id}, n.store.received)
    ensures Grows(n, n')
  {
  }

  lemma SentDialogue(n: Node, n': Node, id: uint64, m: Message)
    requires DialogueInv(n) && id !in n.sent && id !in n.store.dialogue && m.id == id && m.initiator && !m.reached
    requires n'.store.dialogue == n.store.dialogue[id := m] && n'.sent == n.sent[id := m]
    ensures DialogueInv(n')
  {
  }

  lemma SentArrivals(n: Node, n': Node, id: uint64, m: Message)
    requires ArrivalsInv(n) && id !in n.store.dialogue && id !in n.removed && id == n.store.sequence + 1
    requires n'.store.dialogue == n.store.dialogue[id := m] && n'.sent == n.sent[id := m]
    requires n'.store.received == n.store.received && n'.arrivals == n.arrivals && n'.removed == n.removed
    requires n'.store.sequence == id
    ensures ArrivalsInv(n')
  {
  }

  lemma DeletePreserves(n: Node, ids: set<uint64>, other: Node)
    requires Before(n, other)
    ensures Preserved(n, DeleteStep(n, ids), other)
  {
    var o := DeleteStep(n, ids);
    hide WorkersInv, SlotsInv, MailInv, Carried, Allowed, Stale;
    StoreStep(n, o, other);
  }

  lemma ExpirePreserves(n: Node, id: uint64, other: Node)
    requires Before(n, other)
    ensures Preserved(n, ExpireStep(n, id), other)
  {
    var o := ExpireStep(n, id);
    hide WorkersInv, SlotsInv, MailInv, Carried, Allowed, Stale;
    StoreStep(n, o, other);
  }

  /** One worker changes its phase. */
  ghost predicate Moved(n: Node, n': Node, tid: nat, w: Worker)
  {
    && tid in n.workers && n'.workers == n.workers[tid := w] && n'.recorder == n.recorder && n'.asked == n.asked
    && n'.glances == n.glances && n'.late == n.late
    && w.id == n.workers[tid].id && w.job == n.workers[tid].job && w.data == n.workers[tid].data
    && (w.second ==> w.job.SendJob? && w.data.kind.ImageKind?)
  }

  lemma MovedWorkers(n: Node, n': Node, tid: nat, w: Worker)
    requires WorkersInv(n) && Moved(n, n', tid, w) && n'.sent == n.sent
    ensures WorkersInv(n')
  {
    assert Busy(n'.workers) == Busy(n.workers) by {
      assert forall t :: t in n.workers <==> t in n'.workers;
      assert forall t <- n.workers :: n'.workers[t].id == n.workers[t].id;
    }
  }

  lemma MovedMail(n: Node, n': Node, tid: nat, w: Worker, other: Node)
    requires MailInv(n, other) && Moved(n, n', tid, w)
    requires w.phase.Answered? ==> AnswerInv(n.late, w, w.phase.answer, other)
    requires w.phase.Waiting? && w.phase.mail.Some? ==> AnswerInv(n.late, w, w.phase.mail.value, other)
    ensures MailInv(n', other)
  {
    hide AnswerInv;
  }

  lemma MovedSlots(n: Node, n': Node, tid: nat, w: Worker)
    requires WorkersInv(n) && SlotsInv(n) && Moved(n, n', tid, w)
    requires n'.slots ==
             if w.phase.Waiting? && !n.workers[tid].phase.Waiting? then n.slots[w.Place() := tid]
             else if !w.phase.Waiting? && n.workers[tid].phase.Waiting? then n.slots - {w.Place()}
             else n.slots
    ensures SlotsInv(n')
  {
    assert forall t <- n.workers :: t != tid ==> n.workers[t].id != w.id;
    hide WorkersInv;
    if w.phase.Waiting? && !n.workers[tid].phase.Waiting? {
      SlotAdded(n, n', tid, w);
    } else if !w.phase.Waiting? && n.workers[tid].phase.Waiting? {
      SlotRemoved(n, n', tid, w);
    }
  }

  lemma SlotAdded(n: Node, n': Node, tid: nat, w: Worker)
    requires SlotsInv(n) && Moved(n, n', tid, w) && w.phase.Waiting? && !n.workers[tid].phase.Waiting?
    requires forall t <- n.workers :: t != tid ==> n.workers[t].id != w.id
    requires n'.slots == n.slots[w.Place() := tid]
    ensures SlotsInv(n')
  {
  }

  lemma SlotRemoved(n: Node, n': Node, tid: nat, w: Worker)
    requires SlotsInv(n) && Moved(n, n', tid, w) && !w.phase.Waiting? && n.workers[tid].phase.Waiting?
    requires forall t <- n.workers :: t != tid ==> n.workers[t].id != w.id
    requires n'.slots == n.slots - {w.Place()}
    ensures SlotsInv(n')
  {
  }

  /** A step in which one worker changes its phase and says nothing unheard of. */
  lemma MoveStep(n: Node, o: Outcome, tid: nat, w: Worker, other: Node)
    requires Before(n, other) && SameStore(n, o.node) && Moved(n, o.node, tid, w)
    requires o.node.slots ==
             if w.phase.Waiting? && !n.workers[tid].phase.Waiting? then n.slots[w.Place() := tid]
             else if !w.phase.Waiting? && n.workers[tid].phase.Waiting? then n.slots - {w.Place()}
             else n.slots
    requires w.phase.Answered? ==> AnswerInv(n.late, w, w.phase.answer, other)
    requires w.phase.Waiting? && w.phase.mail.Some? ==> AnswerInv(n.late, w, w.phase.mail.value, other)
    requires o.out.Some? ==> Carried(o.out.value) && Allowed(o.out.value, o.node, other)
    ensures Preserved(n, o, other)
  {
    assert AskedInv(o.node) && GlancesInv(o.node);
    hide MailInv, WorkersInv, SlotsInv, AskedInv, GlancesInv, AnswerInv, Carried, Allowed, IdsInv, SentInv, DialogueInv,
      PendingInv, ArrivalsInv;
    MovedWorkers(n, o.node, tid, w);
    MovedMail(n, o.node, tid, w, other);
    MovedSlots(n, o.node, tid, w);
    WorkerStep(n, o, other);
  }

  lemma IdlePreserves(n: Node, other: Node)
    requires Before(n, other)
    ensures Preserved(n, Idle(n), other)
  {
    hide NodeInv, CrossInv;
  }

  lemma RequestAllowed(n: Node, w: Worker, filebase: seq<byte>, other: Node)
    requires SentInv(n) && WorkerInv(n, w) && |filebase| + HEADROOM <= MAX_INT
    ensures Carried(Request(w, filebase)) && Allowed(Request(w, filebase), n, other)
  {
    if w.data.kind.ImageKind? && w.job.SendJob? {
      I.NewReqSyncHashCarried(w.id, filebase);
    }
    hide I.Ext, I.Stem, Key;
  }

  lemma StartPreserves(n: Node, tid: nat, filebase: seq<byte>, other: Node)
    requires Before(n, other)
    ensures Preserved(n, StartStep(n, tid, filebase), other)
  {
    var o := StartStep(n, tid, filebase);
    if o == Idle(n) {
      IdlePreserves(n, other);
    } else {
      var w := n.workers[tid];
      RequestAllowed(n, w, filebase, other);
      var a := Request(w, filebase);
      hide Carried, Allowed, Request, MailInv, SlotsInv, AskedInv, AnswerInv;
      SameAllowed(a, n, o.node, other);
      MoveStep(n, o, tid, w.(phase := Waiting(None)), other);
    }
  }

  lemma SameAllowed(a: Action, n: Node, n': Node, other: Node)
    requires Allowed(a, n, other) && n'.sent == n.sent && n'.asked == n.asked && n'.store == n.store
    ensures Allowed(a, n', other)
  {
  }

  /** What a worker holds. */
  lemma Held(n: Node, tid: nat, other: Node)
    requires Before(n, other) && tid in n.workers
    ensures var w := n.workers[tid];
            && WorkerInv(n, w)
            && (w.phase.Answered? ==> AnswerInv(n.late, w, w.phase.answer, other))
            && (w.phase.Waiting? && w.phase.mail.Some? ==> AnswerInv(n.late, w, w.phase.mail.value, other))
  {
    hide WorkerInv, AnswerInv, Busy;
  }

  lemma AnswerMoved(late: set<uint64>, w: Worker, v: Worker, r: Action, other: Node)
    requires AnswerInv(late, w, r, other) && v.id == w.id && v.job == w.job && v.data == w.data
    ensures AnswerInv(late, v, r, other)
  {
  }

  lemma TakePreserves(n: Node, tid: nat, other: Node)
    requires Before(n, other)
    ensures Preserved(n, TakeStep(n, tid), other)
  {
    hide Before, Preserved, AnswerInv;
    var o := TakeStep(n, tid);
    if o == Idle(n) {
      IdlePreserves(n, other);
    } else {
      Held(n, tid, other);
      AnswerMoved(n.late, n.workers[tid], o.node.workers[tid], n.workers[tid].phase.mail.value, other);
      MoveStep(n, o, tid, o.node.workers[tid], other);
    }
  }

  lemma GiveUpPreserves(n: Node, tid: nat, other: Node)
    requires Before(n, other)
    ensures Preserved(n, GiveUpStep(n, tid), other)
  {
    hide Before, Preserved, AnswerInv;
    var o := GiveUpStep(n, tid);
    if o == Idle(n) {
      IdlePreserves(n, other);
    } else {
      Held(n, tid, other);
      MoveStep(n, o, tid, o.node.workers[tid], other);
    }
  }

  lemma AbortPreserves(n: Node, tid: nat, other: Node)
    requires Before(n, other)
    ensures Preserved(n, AbortStep(n, tid), other)
  {
    hide Before, Preserved, AnswerInv;
    var o := AbortStep(n, tid);
    if o == Idle(n) {
      IdlePreserves(n, other);
    } else {
      Held(n, tid, other);
      MoveStep(n, o, tid, o.node.workers[tid], other);
    }
  }

  /** The type assertion of a sending worker that was not late holds whenever it is reached. */
  lemma AssertionHolds(n: Node, t: nat, other: Node)
    requires MailInv(n, other) && t in n.workers && n.workers[t].id !in n.late
    ensures !AssertionFails(n.workers[t])
  {
  }

  lemma AgainPreserves(n: Node, tid: nat, content: seq<byte>, other: Node)
    requires Before(n, other)
    ensures Preserved(n, AgainStep(n, tid, content), other)
  {
    hide Before, Preserved, AnswerInv;
    var o := AgainStep(n, tid, content);
    if o == Idle(n) {
      IdlePreserves(n, other);
    } else if AssertionFails(n.workers[tid]) {
      RestartPreserves(n, other);
    } else {
      var w := n.workers[tid];
      var a := Image(I.ReqSyncBytes(w.id, w.phase.answer.image.subdir, content));
      Held(n, tid, other);
      BytesAllowed(n, w, content, other);
      hide Carried, Allowed;
      SameAllowed(a, n, o.node, other);
      MoveStep(n, o, tid, w.(second := true, phase := Waiting(None)), other);
    }
  }

  lemma BytesAllowed(n: Node, w: Worker, content: seq<byte>, other: Node)
    requires WorkerInv(n, w) && MustSendBytes(w) && !AssertionFails(w) && |content| + HEADROOM <= MAX_INT
    requires AnswerInv(n.late, w, w.phase.answer, other)
    ensures var a := Image(I.ReqSyncBytes(w.id, w.phase.answer.image.subdir, content));
            Carried(a) && Allowed(a, n, other)
  {
  }

  lemma MailPreserves(n: Node, a: Action, other: Node)
    requires Before(n, other) && a.IsResponse() && Allowed(a, other, n)
    ensures Preserved(n, MailStep(n, a), other)
  {
    hide Before, Preserved, AnswerInv;
    var o := MailStep(n, a);
    if o == Idle(n) {
      IdlePreserves(n, other);
    } else {
      var tid := n.slots[Slot(a.Kind(), a.Id())];
      var w := n.workers[tid];
      OwnSlot(n, Slot(a.Kind(), a.Id()), other);
      Held(n, tid, other);
      AllowedAnswers(n, w, a, other);
      hide Allowed;
      AnswerMoved(n.late, w, w.(phase := Waiting(Some(a))), a, other);
      MoveStep(n, o, tid, w.(phase := Waiting(Some(a))), other);
    }
  }

  lemma OwnSlot(n: Node, s: Slot, other: Node)
    requires Before(n, other) && s in n.slots
    ensures n.slots[s] in n.workers && n.workers[n.slots[s]].Place() == s
  {
    hide WorkerInv, Busy;
  }

  /** Whatever the other side may say under the id of a worker's message is an answer for that worker. */
  lemma AllowedAnswers(n: Node, w: Worker, a: Action, other: Node)
    requires WorkerInv(n, w) && a.IsResponse() && Allowed(a, other, n) && Slot(a.Kind(), a.Id()) == w.Place()
    ensures AnswerInv(n.late, w, a, other)
  {
  }

  /** A look at a message that is due. */
  lemma LookPreserves(n: Node, id: uint64, other: Node)
    requires Before(n, other)
    ensures Preserved(n, LookStep(n, id), other)
  {
    var o := LookStep(n, id);
    if o == Idle(n) {
      IdlePreserves(n, other);
    } else {
      assert GlancesInv(o.node) by {
        assert id in n.sent && n.store.dialogue[id] == n.sent[id];
      }
      assert WorkersInv(o.node) && SlotsInv(o.node) by {
        hide Busy;
      }
      MailGrows(n, o.node, other);
      assert AskedInv(o.node);
      hide Stale, IdsInv, SentInv, DialogueInv, PendingInv, ArrivalsInv, WorkersInv, AskedInv, SlotsInv, MailInv,
        GlancesInv;
      WorkerStep(n, o, other);
    }
  }

  lemma ClaimPreserves(n: Node, tid: nat, g: Glance, other: Node)
    requires Before(n, other)
    ensures Preserved(n, ClaimStep(n, tid, g), other)
  {
    var o := ClaimStep(n, tid, g);
    if o == Idle(n) {
      IdlePreserves(n, other);
    } else {
      ClaimedWorkers(n, o.node, tid, g);
      hide Stale, IdsInv, SentInv, DialogueInv, PendingInv, ArrivalsInv, WorkersInv, AskedInv, SlotsInv, MailInv,
        GlancesInv;
      ReadyWorker(n, o.node, tid, o.node.workers[tid], other);
      WorkerStep(n, o, other);
    }
  }

  lemma ReadyWorker(n: Node, n': Node, tid: nat, w: Worker, other: Node)
    requires SlotsInv(n) && MailInv(n, other)
    requires tid !in n.workers && w.phase.Ready? && n'.workers == n.workers[tid := w] && n'.slots == n.slots
    requires n.late <= n'.late
    ensures SlotsInv(n') && MailInv(n', other)
  {
    assert MailInv(n', other) by {
      hide SlotsInv;
    }
    hide AnswerInv, MailInv;
  }

  lemma GoneWorker(n: Node, n': Node, tid: nat, other: Node)
    requires WorkersInv(n) && SlotsInv(n) && MailInv(n, other)
    requires tid in n.workers && n.workers[tid].phase.Finished?
    requires n'.workers == n.workers - {tid} && n'.slots == n.slots
    requires n'.recorder == n.recorder - {n.workers[tid].id} && n'.sent == n.sent && n'.asked == n.asked
    requires n'.late == n.late
    ensures WorkersInv(n') && SlotsInv(n') && MailInv(n', other)
  {
    assert Busy(n'.workers) == Busy(n.workers) - {n.workers[tid].id} by {
      hide WorkerInv;
      assert forall t :: t in n'.workers <==> t in n.workers && t != tid;
    }
    hide AnswerInv, Busy;
  }

  lemma ClaimedWorkers(n: Node, n': Node, tid: nat, g: Glance)
    requires NodeInv(n) && tid !in n.workers && g in n.glances && g.data.id !in n.recorder
    requires n' == ClaimStep(n, tid, g).node
    ensures WorkersInv(n') && AskedInv(n') && GlancesInv(n')
  {
    var id := g.data.id;
    assert id in n.sent && g.data == n.sent[id] && g.data.id == id;
    assert forall t <- n.workers :: n.workers[t].id in Busy(n.workers);
    hide IdsInv, SentInv, DialogueInv, PendingInv, ArrivalsInv, SlotsInv;
    BusyGrows(n.workers, tid, n'.workers[tid]);
    hide Busy;
  }

  lemma BusyGrows(ws: map<nat, Worker>, tid: nat, w: Worker)
    requires tid !in ws
    ensures Busy(ws[tid := w]) == Busy(ws) + {w.id}
  {
    var ws' := ws[tid := w];
    assert tid in ws' && ws'[tid] == w;
    assert forall t <- ws :: t in ws' && ws'[t] == ws[t];
  }

  lemma ReleasePreserves(n: Node, tid: nat, other: Node)
    requires Before(n, other)
    ensures Preserved(n, ReleaseStep(n, tid), other)
  {
    var o := ReleaseStep(n, tid);
    if o == Idle(n) {
      IdlePreserves(n, other);
    } else {
      hide WorkersInv, SlotsInv, MailInv;
      GoneWorker(n, o.node, tid, other);
      assert AskedInv(o.node) && GlancesInv(o.node);
      hide Stale, IdsInv, SentInv, DialogueInv, PendingInv, ArrivalsInv, AskedInv, GlancesInv;
      WorkerStep(n, o, other);
    }
  }

  lemma RestartPreserves(n: Node, other: Node)
    requires Before(n, other)
    ensures Preserved(n, Outcome(Restarted(n), None), other)
  {
    var o := Outcome(Restarted(n), None);
    assert Busy(o.node.workers) == {};
    hide Stale, IdsInv, SentInv, DialogueInv, PendingInv, ArrivalsInv, AnswerInv;
    WorkerStep(n, o, other);
  }

  lemma CommitPreserves(n: Node, tid: nat, other: Node)
    requires Before(n, other)
    ensures Preserved(n, CommitStep(n, tid), other)
  {
    var o := CommitStep(n, tid);
    if o == Idle(n) {
      IdlePreserves(n, other);
    } else {
      // First the worker, then the transaction.
      var w := n.workers[tid];
      var mid := n.(workers := n.workers[tid := w.(phase := Finished)]);
      assert WorkerInv(n, w) && AnswerInv(n.late, w, w.phase.answer, other);
      MoveStep(n, Outcome(mid, None), tid, w.(phase := Finished), other);
      SettlePreserves(mid, w.id, w.job.SendJob? || w.phase.answer.Positive(),
                      w.job.SendJob? && !w.phase.answer.Positive(), other);
      hide Before, CrossInv, Grows;
      GrowsTransitive(n, mid, o.node);
    }
  }

  lemma SettlePreserves(n: Node, id: uint64, reached: bool, misled: bool, other: Node)
    requires Before(n, other) && id in n.sent
    requires reached && !misled ==> id in other.store.received
    requires misled && n.sent[id].kind.TextKind? ==> id in n.late
    ensures var n' := n.(store := Settled(n.store, id, reached),
                         misled := if misled then n.misled + {id} else n.misled);
            Preserved(n, Outcome(n', None), other)
  {
    var o := Outcome(n.(store := Settled(n.store, id, reached),
                        misled := if misled then n.misled + {id} else n.misled), None);
    SettledKeeps(n, o.node, id, reached, other);
    hide Before, Preserved, IdsInv, SentInv, DialogueInv, PendingInv, ArrivalsInv, AskedInv, ReachedInv, ReceivedInv,
      Grows;
    StoreStep(n, o, other);
  }

  lemma SettledKeeps(n: Node, n': Node, id: uint64, reached: bool, other: Node)
    requires Before(n, other) && id in n.sent && n' == n.(store := Settled(n.store, id, reached), misled := n'.misled)
    requires n.misled <= n'.misled && (reached ==> id in other.store.received || id in n'.misled)
    ensures IdsInv(n') && SentInv(n') && DialogueInv(n') && PendingInv(n') && ArrivalsInv(n') && AskedInv(n')
    ensures Grows(n, n')
    ensures ReachedInv(n', other) && ReceivedInv(n', other) && ReceivedInv(other, n')
  {
    hide WorkersInv, SlotsInv, MailInv, GlancesInv, MisledInv, Stale;
    assert DialogueInv(n') && PendingInv(n');
    assert Grows(n, n') && ArrivalsInv(n');
  }

  lemma GrowsTransitive(n: Node, m: Node, o: Node)
    requires IdsInv(n) && Grows(n, m) && Grows(m, o)
    ensures Grows(n, o)
  {
  }

  lemma ReceivePreserves(n: Node, request: uint64, kind: Kind, payload: seq<byte>, ttl: int64, answer: Action,
                         other: Node)
    requires Before(n, other) && request in other.sent && other.sent[request].kind == kind
    requires kind.TextKind? ==> payload == other.sent[request].payload && ttl == other.sent[request].ttl
    requires Carried(answer)
    requires forall n': Node {:trigger Allowed(answer, n', other)} ::
               n'.store.received == n.store.received + {request} ==> Allowed(answer, n', other)
    ensures Preserved(n, ReceiveStep(n, request, kind, payload, ttl, answer), other)
  {
    hide Preserved;
    var o := ReceiveStep(n, request, kind, payload, ttl, answer);
    if o == Idle(n) {
      IdlePreserves(n, other);
    } else {
      var id := n.store.sequence + 1;
      var m := Message(id, kind, payload, true, false, n.now, ttl);
      assert o.node.store == Store(id, n.store.dialogue[id := m], n.store.pending, n.store.received + {request});
      assert o.node == n.(store := o.node.store,
                          arrivals := if kind.TextKind? then n.arrivals[request := m] else n.arrivals);
      hide ReceiveStep, Received, Carried, Allowed, WorkersInv, SlotsInv, MailInv, Stale;
      ReceivedIsNew(n, o.node, id, m, request);
      ReceivedCross(n, o.node, id, m, request, other);
      hide Before, IdsInv, SentInv, DialogueInv, PendingInv, ArrivalsInv, AskedInv, Grows, ReachedInv, ReceivedInv;
      StoreStep(n, o, other);
    }
  }

  lemma ReceivedIsNew(n: Node, n': Node, id: uint64, m: Message, request: uint64)
    requires NodeInv(n) && id == n.store.sequence + 1
    requires m.id == id && !m.initiator && m.reached
    requires n'.store == Store(id, n.store.dialogue[id := m], n.store.pending, n.store.received + {request})
    requires n' == n.(store := n'.store, arrivals := if m.kind.TextKind? then n.arrivals[request := m] else n.arrivals)
    ensures IdsInv(n') && SentInv(n') && DialogueInv(n') && PendingInv(n') && ArrivalsInv(n') && AskedInv(n')
    ensures Grows(n, n')
  {
    assert id !in n.store.dialogue && id !in n.sent && id !in n.removed && id !in n.store.pending;
    hide Stale, WorkersInv, SlotsInv;
    ReceivedKeeps(n, n', id, m, request);
    ReceivedGrows(n, n', id, m, request);
    ReceivedArrivals(n, n', id, m, request);
    hide NodeInv, Grows, DialogueInv, IdsInv, ArrivalsInv, SentInv, PendingInv;
  }

  lemma ReceivedCross(n: Node, n': Node, id: uint64, m: Message, request: uint64, other: Node)
    requires Before(n, other) && id == n.store.sequence + 1
    requires request in other.sent && other.sent[request].kind == m.kind
    requires m.kind.TextKind? ==> m.payload == other.sent[request].payload && m.ttl == other.sent[request].ttl
    requires n'.store == Store(id, n.store.dialogue[id := m], n.store.pending, n.store.received + {request})
    requires n' == n.(store := n'.store, arrivals := if m.kind.TextKind? then n.arrivals[request := m] else n.arrivals)
    ensures ReachedInv(n', other) && ReceivedInv(n', other) && ReceivedInv(other, n')
  {
    assert id !in n.sent;
    hide SentInv, DialogueInv, PendingInv, WorkersInv, SlotsInv, AskedInv, ArrivalsInv, GlancesInv, MisledInv, MailInv;
  }

  lemma ReceivedKeeps(n: Node, n': Node, id: uint64, m: Message, request: uint64)
    requires IdsInv(n) && SentInv(n) && DialogueInv(n) && PendingInv(n) && AskedInv(n)
    requires id == n.store.sequence + 1 && id !in n.store.dialogue && id !in n.sent && id !in n.removed
    requires m.id == id && !m.initiator
    requires n'.store == Store(id, n.store.dialogue[id := m], n.store.pending, n.store.received + {request})
    requires n' == n.(store := n'.store, arrivals := n'.arrivals)
    ensures IdsInv(n') && SentInv(n') && DialogueInv(n') && PendingInv(n') && AskedInv(n')
  {
    hide Stale;
  }

  lemma ReceivedGrows(n: Node, n': Node, id: uint64, m: Message, request: uint64)
    requires id == n.store.sequence + 1 && id !in n.store.dialogue
    requires n'.store == Store(id, n.store.dialogue[id := m], n.store.pending, n.store.received + {request})
    requires n' == n.(store := n'.store, arrivals := n'.arrivals)
    ensures Grows(n, n')
  {
  }

  lemma ReceivedArrivals(n: Node, n': Node, id: uint64, m: Message, request: uint64)
    requires ArrivalsInv(n) && id == n.store.sequence + 1
    requires id !in n.store.dialogue && id !in n.sent && id !in n.removed
    requires m.id == id && !m.initiator && m.reached
    requires n'.store == Store(id, n.store.dialogue[id := m], n.store.pending, n.store.received + {request})
    requires n' == n.(store := n'.store, arrivals := if m.kind.TextKind? then n.arrivals[request := m] else n.arrivals)
    ensures ArrivalsInv(n')
  {
  }

  lemma ServePreserves(n: Node, a: Action, files: Files, other: Node)
    requires Before(n, other) && !a.IsResponse() && Allowed(a, other, n) && |files.subdir| == SUBDIR_SIZE
    ensures Preserved(n, ServeStep(n, a, files), other)
  {
    var o := ServeStep(n, a, files);
    hide NodeInv, CrossInv;
    match a
    case Text(ReqSyncText(id, ttl, content)) =>
      ReceivePreserves(n, id, TextKind, content, ToInt64(ttl), Text(T.RespSyncText(id, true)), other);
    case Image(ReqSyncHash(id, _, _)) =>
      if files.good {
        ReceivePreserves(n, id, ImageKind, files.filename, 0, Image(I.RespSyncHash(id, true, [])), other);
      } else {
        IdlePreserves(n, other);
      }
    case Image(ReqSyncBytes(id, _, _)) =>
      if files.good {
        ReceivePreserves(n, id, ImageKind, files.filename, 0, Image(I.RespSyncBytes(id, true)), other);
      } else {
        IdlePreserves(n, other);
      }
    case _ =>
      IdlePreserves(n, other);
  }

  lemma LocalPreserves(n: Node, e: Event, other: Node)
    requires Before(n, other)
    ensures Preserved(n, LocalStep(n, e), other)
  {
    hide Before, Preserved, TickStep, SendStep, DeleteStep, ExpireStep, LookStep, ClaimStep, StartStep, TakeStep,
      GiveUpStep, AgainStep,
      CommitStep, AbortStep, ReleaseStep, Restarted;
    match e
    case Tick(t) => TickPreserves(n, t, other);
    case Send(kind, payload, ttl) => SendPreserves(n, kind, payload, ttl, other);
    case Delete(ids) => DeletePreserves(n, ids, other);
    case Expire(id) => ExpirePreserves(n, id, other);
    case Look(id) => LookPreserves(n, id, other);
    case Claim(tid, g) => ClaimPreserves(n, tid, g, other);
    case Start(tid, filebase) => StartPreserves(n, tid, filebase, other);
    case Take(tid) => TakePreserves(n, tid, other);
    case GiveUp(tid) => GiveUpPreserves(n, tid, other);
    case Again(tid, content) => AgainPreserves(n, tid, content, other);
    case Commit(tid) => CommitPreserves(n, tid, other);
    case Abort(tid) => AbortPreserves(n, tid, other);
    case Release(tid) => ReleasePreserves(n, tid, other);
    case Restart => RestartPreserves(n, other);
    case Deliver(_, _) => IdlePreserves(n, other);
  }

  /** A packet comes out of the frame reader and the parser as the action that was put in. */
  lemma DeliverPreserves(n: Node, p: Packet, files: Files, other: Node)
    requires Before(n, other) && GoodPacket(p, other, n)
    ensures Preserved(n, DeliverStep(n, p.kind, p.bytes, files), other)
    ensures !Receive(p.kind, p.bytes).Crash?
  {
    hide NodeInv, CrossInv, Allowed, Carried, Receive, MailStep, ServeStep, Preserved;
    var a: Action :| p.kind == a.Kind() && p.bytes == FrameBytes(a) && Carried(a) && Allowed(a, other, n);
    ReceiveCarried(a);
    IdlePreserves(n, other);
    if |files.subdir| == SUBDIR_SIZE {
      if a.IsResponse() {
        MailPreserves(n, a, other);
      } else {
        ServePreserves(n, a, files, other);
      }
    }
  }

  lemma StepAtPreserves(s: Sys, side: Side, e: Event)
    requires Inv(s)
    ensures Preserved(s.At(side), StepAt(s, side, e), s.At(Other(side)))
  {
    var n, other := s.At(side), s.At(Other(side));
    assert Before(n, other);
    if e.Deliver? {
      if e.packet in s.net && e.packet.to == side {
        assert GoodPacket(e.packet, other, n);
        hide Inv, Before, GoodPacket, Preserved, DeliverStep;
        DeliverPreserves(n, e.packet, e.files, other);
      } else {
        hide Inv, Before, Preserved;
        IdlePreserves(n, other);
      }
    } else {
      hide Inv, Before, Preserved, LocalStep;
      LocalPreserves(n, e, other);
    }
  }

  lemma PutPreserves(s: Sys, side: Side, o: Outcome)
    requires Inv(s) && Preserved(s.At(side), o, s.At(Other(side)))
    ensures Inv(Put(s, side, o))
  {
    var s' := Put(s, side, o);
    var n, n', other := s.At(side), o.node, s.At(Other(side));
    GrowsReflexive(other);
    hide NodeInv, CrossInv, Grows, Allowed, Carried, FrameBytes;
    forall p <- s'.net
      ensures GoodPacket(p, s'.At(Other(p.to)), s'.At(p.to))
    {
      if p in s.net {
        assert GoodPacket(p, s.At(Other(p.to)), s.At(p.to));
        if p.to == side {
          GoodPacketGrows(p, other, n, other, n');
        } else {
          GoodPacketGrows(p, n, other, n', other);
        }
      } else {
        var a := o.out.value;
        assert p.kind == a.Kind() && p.bytes == FrameBytes(a) && Carried(a) && Allowed(a, n', other);
      }
    }
  }

  lemma {:induction false} RunInv(es: seq<(Side, Event)>)
    ensures Inv(Run(es))
  {
    if es != [] {
      var s, side, e := Run(es[..|es| - 1]), es[|es| - 1].0, es[|es| - 1].1;
      RunInv(es[..|es| - 1]);
      hide Inv, Preserved, StepAt, Put;
      StepAtPreserves(s, side, e);
      PutPreserves(s, side, StepAt(s, side, e));
    } else {
      assert Busy(FRESH.workers) == {};
    }
  }
}
