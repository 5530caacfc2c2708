/** What the steps of the delivery machine come to for the users: which message changes how and by what, and
    what sending and checking can end with. */
module DeliveryOutcomes {
  import opened Bytes
  import opened Options
  import opened FrameFormat
  import opened Wire
  import opened Buckets
  import opened MessageStore
  import opened Delivery
  import opened DeliveryInvariant
  import opened DeliveryTheorems
  import opened DeliveryRuns
  import T = TextTypes
  import I = ImageTypes

  /** Young enough to be sent again is: made at most ten seconds ago, and not in the future. */
  lemma StaleIs(m: Message, now: int)
    ensures Stale(m, now) <==> !(0 <= now - m.createdAt <= 10_000_000_000)
  {
  }

  /** From every reachable state: a due message, text or image, that is too old to be sent again is settled by
      a look, a check and its answer. If the other side has received it, it ends as reached; if not, it stays
      as it is; it is not pending any more in either case, and the other side's store does not change. */
  lemma CheckSettles(es: History, side: Side, id: uint64) returns (to: History)
    requires var n := Run(es).At(side);
             && id in n.store.pending && id in n.store.dialogue
             && !(0 <= n.now - n.store.dialogue[id].createdAt <= 10_000_000_000)
    ensures es <= to && Run(to).At(Other(side)) == Run(es).At(Other(side))
    ensures var s, t := Run(es).At(side).store, Run(to).At(side).store;
            if id in Run(es).At(Other(side)).store.received then
              && id in t.dialogue && t.dialogue[id].reached && NowReached(s, t, id)
            else
              t == Store(s.sequence, s.dialogue, s.pending - {id}, s.received) && !t.dialogue[id].reached
  {
    var m := Run(es).At(side).store.dialogue[id];
    var exist := id in Run(es).At(Other(side)).store.received;
    var g := Glance(m, CheckJob);
    var w, answer := Asker(g), Verdict(m, exist);
    StaleIs(m, Run(es).At(side).now);
    DueMessage(es, side, id);
    VerdictFits(g, exist);
    hide Run, Stale, Carried, FrameBytes, Question, Verdict, WaitsAt, NowReached;
    var tid: nat;
    to, tid := AskOld(es, side, id);
    to := AnswerCheck(to, side, m);
    to := Answer(to, side, tid, w, answer);
    to := ConcludeCheck(to, side, tid, w.(phase := Answered(answer)));
  }

  /** A due message that is too old can be asked about, whatever its former workers are doing. */
  lemma AskOld(es: History, side: Side, id: uint64) returns (to: History, tid: nat)
    requires var n := Run(es).At(side); id in Due(n.store) && Stale(n.store.dialogue[id], n.now)
    ensures es <= to && Run(to).At(Other(side)) == Run(es).At(Other(side))
    ensures var n, n' := Run(es).At(side), Run(to).At(side);
            var m := n.store.dialogue[id];
            && n'.store == n.store && WaitsAt(n', tid, Asker(Glance(m, CheckJob)))
            && Sealed(Other(side), Question(m)) in Run(to).net
  {
    var m := Run(es).At(side).store.dialogue[id];
    var g := Glance(m, CheckJob);
    DueMessage(es, side, id);
    assert GlanceAt(m, Run(es).At(side).now) == g && Request(Asker(g), []) == Question(m);
    hide Run, Stale, GlanceAt, Request, FrameBytes, Question, WaitsAt, ClaimsLate;
    to := Look1(es, side, id);
    to := FreeUp(to, side, id);
    tid := Unused(Run(to).At(side).workers.Keys);
    to := Ask(to, side, tid, g);
  }

  /** A checking worker believes its answer. */
  lemma ConcludeCheck(es: History, side: Side, tid: nat, w: Worker) returns (to: History)
    requires tid in Run(es).At(side).workers && Run(es).At(side).workers[tid] == w
    requires w.job.CheckJob? && w.phase.Answered? && w.phase.answer.IsResponse()
    ensures es <= to && Run(to).At(Other(side)) == Run(es).At(Other(side))
    ensures var s, t := Run(es).At(side).store, Run(to).At(side).store;
            && (w.phase.answer.Positive() && w.id in s.dialogue ==> NowReached(s, t, w.id))
            && (!w.phase.answer.Positive() ==> t == Store(s.sequence, s.dialogue, s.pending - {w.id}, s.received))
  {
    hide Run;
    to := ExtendLocally(es, side, Commit(tid));
  }

  // ---- An image can arrive ----

  /** What the receiver makes of an image that it has, or could write: an entry under the file's name, and a
      positive answer of the kind of the request. */
  lemma ServeImage(es: History, side: Side, a: I.Action, name: seq<byte>, subdir: seq<byte>) returns (to: History)
    requires Sealed(side, Image(a)) in Run(es).net && Carried(Image(a)) && |subdir| == SUBDIR_SIZE
    requires a.ReqSyncHash? || a.ReqSyncBytes?
    requires Run(es).At(side).store.sequence < LAST_ID
    ensures es <= to && Run(to).At(Other(side)) == Run(es).At(Other(side))
    ensures var n := Run(es).At(side); NowEntered(n.store, Run(to).At(side).store, a.id, ImageKind, name, 0, n.now)
    ensures var answer := if a.ReqSyncHash? then I.RespSyncHash(a.id, OK, []) else I.RespSyncBytes(a.id, OK);
            Sealed(Other(side), Image(answer)) in Run(to).net
  {
    ReceivedEnters(Run(es).At(side).store, a.id, ImageKind, name, 0, Run(es).At(side).now);
    hide Run, Carried, FrameBytes, Received, NowEntered;
    to := ExtendByPacket(es, side, Image(a), Files(true, name, subdir));
  }

  /** What it answers if it lacks the image: the directory that it assigns. */
  lemma Refuse(es: History, side: Side, a: I.Action, subdir: seq<byte>) returns (to: History)
    requires Sealed(side, Image(a)) in Run(es).net && Carried(Image(a)) && |subdir| == SUBDIR_SIZE && a.ReqSyncHash?
    ensures es <= to && Run(to).At(Other(side)) == Run(es).At(Other(side)) && Run(to).At(side) == Run(es).At(side)
    ensures Sealed(Other(side), Image(I.RespSyncHash(a.id, !OK, subdir))) in Run(to).net
  {
    hide Run, Carried, FrameBytes;
    to := ExtendByPacket(es, side, Image(a), Files(false, [], subdir));
  }

  /** From every reachable state: an image that is due and young can be offered by its file name and hash; if the
      other side has the file, it enters it; if not, it is sent the content, for the directory it has
      assigned, and enters it then. The image is then seen as reached. */
  lemma ImageArrives(es: History, side: Side, id: uint64, filebase: seq<byte>, content: seq<byte>,
                     name: seq<byte>, subdir: seq<byte>, held: bool) returns (to: History)
    requires var n := Run(es).At(side);
             && id in n.store.pending && id in n.store.dialogue && n.store.dialogue[id].kind.ImageKind?
             && 0 <= n.now - n.store.dialogue[id].createdAt <= 10_000_000_000
    requires Run(es).At(Other(side)).store.sequence < LAST_ID
    requires |filebase| + HEADROOM <= MAX_INT && |content| + HEADROOM <= MAX_INT && |subdir| == 7
    ensures es <= to
    ensures NowReached(Run(es).At(side).store, Run(to).At(side).store, id)
    ensures var other := Run(es).At(Other(side));
            NowEntered(other.store, Run(to).At(Other(side)).store, id, ImageKind, name, 0, other.now)
    ensures exists a: I.Action ::
              && a.ReqSyncHash? && a.id == id && a.hash + a.ext == filebase
              && Sealed(Other(side), Image(a)) in Run(to).net
    ensures held || Sealed(Other(side), Image(I.ReqSyncBytes(id, subdir, content))) in Run(to).net
  {
    var n := Run(es).At(side);
    var w := Asker(Glance(n.store.dialogue[id], SendJob));
    var a := I.NewReqSyncHash(id, filebase);
    StaleIs(n.store.dialogue[id], n.now);
    DueMessage(es, side, id);
    I.NewReqSyncHashCarried(id, filebase);
    RequestIs(w, filebase);
    hide Run, Stale, Request, Carried, FrameBytes, I.NewReqSyncHash, NowReached, NowEntered, WaitsAt;
    var tid: nat;
    to, tid := AskAbout(es, side, id, filebase);
    var asked := to;
    if held {
      to := ServeImage(to, Other(side), a, name, subdir);
      to := AnswerReaches(to, side, tid, w, Image(I.RespSyncHash(id, OK, [])));
    } else {
      to := SendBytes(to, side, tid, w, a, content, name, subdir);
    }
    NetGrows(asked, to);
  }

  lemma RequestIs(w: Worker, filebase: seq<byte>)
    requires w.job.SendJob? && w.data.kind.ImageKind? && |filebase| + HEADROOM <= MAX_INT
    ensures Request(w, filebase) == Image(I.NewReqSyncHash(w.id, filebase)) && Carried(Request(w, filebase))
  {
    I.NewReqSyncHashCarried(w.id, filebase);
    hide I.Ext, I.Stem;
  }

  lemma {:induction false} NetGrows(es: History, to: History)
    requires es <= to
    ensures Run(es).net <= Run(to).net
  {
    if es != to {
      NetGrows(es, to[..|to| - 1]);
      hide StepAt;
    }
  }

  /** A positive answer of a waiting sending worker. */
  lemma AnswerReaches(es: History, side: Side, tid: nat, w: Worker, yes: Action) returns (to: History)
    requires WaitsAt(Run(es).At(side), tid, w) && Sealed(side, yes) in Run(es).net && w.job.SendJob?
    requires yes.IsResponse() && yes.Positive() && Carried(yes) && Slot(yes.Kind(), yes.Id()) == w.Place()
    requires w.id in Run(es).At(side).store.dialogue
    ensures es <= to && Run(to).At(Other(side)) == Run(es).At(Other(side))
    ensures NowReached(Run(es).At(side).store, Run(to).At(side).store, w.id)
  {
    SettledReaches(Run(es).At(side).store, w.id);
    hide Run, Carried, FrameBytes, WaitsAt, NowReached, Settled;
    to := Answer(es, side, tid, w, yes);
    to := Conclude(to, side, tid, w.(phase := Answered(yes)));
  }

  /** The second request of a sending worker, after a "no" to the first. */
  lemma SendBytes(es: History, side: Side, tid: nat, w: Worker, a: I.Action, content: seq<byte>,
                  name: seq<byte>, subdir: seq<byte>) returns (to: History)
    requires WaitsAt(Run(es).At(side), tid, w) && w.job.SendJob? && w.data.kind.ImageKind? && !w.second
    requires w.id in Run(es).At(side).store.dialogue && Run(es).At(Other(side)).store.sequence < LAST_ID
    requires Sealed(Other(side), Image(a)) in Run(es).net && Carried(Image(a)) && a.ReqSyncHash? && a.id == w.id
    requires |content| + HEADROOM <= MAX_INT && |subdir| == SUBDIR_SIZE
    ensures es <= to
    ensures NowReached(Run(es).At(side).store, Run(to).At(side).store, w.id)
    ensures var other := Run(es).At(Other(side));
            NowEntered(other.store, Run(to).At(Other(side)).store, w.id, ImageKind, name, 0, other.now)
    ensures Sealed(Other(side), Image(I.ReqSyncBytes(w.id, subdir, content))) in Run(to).net
  {
    var v := w.(second := true, phase := Waiting(None));
    hide Run, Carried, FrameBytes, WaitsAt, NowReached, NowEntered;
    to := RefusedOnce(es, side, tid, w, a, content, subdir);
    var sent := to;
    to := BytesArrive(to, side, tid, v, content, name, subdir);
    NetGrows(sent, to);
  }

  lemma BytesArrive(es: History, side: Side, tid: nat, v: Worker, content: seq<byte>,
                    name: seq<byte>, subdir: seq<byte>) returns (to: History)
    requires WaitsAt(Run(es).At(side), tid, v) && v.job.SendJob? && v.data.kind.ImageKind?
    requires v.id in Run(es).At(side).store.dialogue && Run(es).At(Other(side)).store.sequence < LAST_ID
    requires |content| + HEADROOM <= MAX_INT && |subdir| == SUBDIR_SIZE
    requires Sealed(Other(side), Image(I.ReqSyncBytes(v.id, subdir, content))) in Run(es).net
    ensures es <= to
    ensures NowReached(Run(es).At(side).store, Run(to).At(side).store, v.id)
    ensures var other := Run(es).At(Other(side));
            NowEntered(other.store, Run(to).At(Other(side)).store, v.id, ImageKind, name, 0, other.now)
  {
    var bytes, yes := I.ReqSyncBytes(v.id, subdir, content), Image(I.RespSyncBytes(v.id, OK));
    assert Carried(Image(bytes)) && Carried(yes);
    assert yes.IsResponse() && yes.Positive() && Slot(yes.Kind(), yes.Id()) == v.Place();
    hide Run, Carried, FrameBytes, WaitsAt, NowReached, NowEntered;
    to := ServeImage(es, Other(side), bytes, name, subdir);
    assert Other(Other(side)) == side;
    to := AnswerReaches(to, side, tid, v, yes);
  }

  /** The other side lacks the image, and the content goes out. */
  lemma RefusedOnce(es: History, side: Side, tid: nat, w: Worker, a: I.Action, content: seq<byte>, subdir: seq<byte>)
      returns (to: History)
    requires WaitsAt(Run(es).At(side), tid, w) && w.job.SendJob? && w.data.kind.ImageKind? && !w.second
    requires Sealed(Other(side), Image(a)) in Run(es).net && Carried(Image(a)) && a.ReqSyncHash? && a.id == w.id
    requires |content| + HEADROOM <= MAX_INT && |subdir| == SUBDIR_SIZE
    ensures es <= to && Run(to).At(Other(side)) == Run(es).At(Other(side))
    ensures Run(to).At(side).store == Run(es).At(side).store
    ensures WaitsAt(Run(to).At(side), tid, w.(second := true, phase := Waiting(None)))
    ensures Sealed(Other(side), Image(I.ReqSyncBytes(w.id, subdir, content))) in Run(to).net
  {
    var no := Image(I.RespSyncHash(w.id, !OK, subdir));
    RefusalFits(w, subdir);
    hide Run, Carried, FrameBytes, WaitsAt, MustSendBytes, AssertionFails;
    to := Refuse(es, Other(side), a, subdir);
    assert Other(Other(side)) == side;
    to := Answer(to, side, tid, w, no);
    to := AskAgain(to, side, tid, w, no, content);
  }

  lemma RefusalFits(w: Worker, subdir: seq<byte>)
    requires w.job.SendJob? && w.data.kind.ImageKind? && !w.second && |subdir| == SUBDIR_SIZE
    ensures var no := Image(I.RespSyncHash(w.id, !OK, subdir));
            && Carried(no) && no.IsResponse() && Slot(no.Kind(), no.Id()) == w.Place()
            && MustSendBytes(w.(phase := Answered(no))) && !AssertionFails(w.(phase := Answered(no)))
  {
  }

  // ---- What changes a store ----

  /** Sending stores the message as it was given, unreached and pending, under the next id, if there is one left
      and the message fits a frame; nothing else changes on either side. */
  lemma SendDoes(es: History, side: Side, kind: Kind, payload: seq<byte>, ttl: int64)
    ensures var s, t := Run(es), Run(es + [(side, Send(kind, payload, ttl))]);
            var id := s.At(side).store.sequence + 1;
            && t.At(Other(side)) == s.At(Other(side)) && t.net == s.net && t.At(side).now == s.At(side).now
            && t.At(side).store ==
               if id > LAST_ID || |payload| + 19 > MAX_INT then s.At(side).store
               else Store(id,
                          s.At(side).store.dialogue[id := Message(id, kind, payload, false, true, s.At(side).now, ttl)],
                          s.At(side).store.pending + {id}, s.At(side).store.received)
  {
    hide Run, LocalStep;
    var to := ExtendLocally(es, side, Send(kind, payload, ttl));
    SendStepDoes(Run(es).At(side), kind, payload, ttl);
  }

  lemma SendStepDoes(n: Node, kind: Kind, payload: seq<byte>, ttl: int64)
    ensures var o := LocalStep(n, Send(kind, payload, ttl));
            var id := n.store.sequence + 1;
            && o.out.None? && o.node.now == n.now
            && o.node.store ==
               if id > LAST_ID || |payload| + 19 > MAX_INT then n.store
               else Store(id, n.store.dialogue[id := Message(id, kind, payload, false, true, n.now, ttl)],
                          n.store.pending + {id}, n.store.received)
  {
  }

  /** A text that is sent now can arrive as it was given. */
  lemma SentTextArrives(es: History, side: Side, content: seq<byte>, ttl: int64) returns (to: History)
    requires Run(es).At(side).store.sequence < LAST_ID && |content| + 19 <= MAX_INT
    requires Run(es).At(Other(side)).store.sequence < LAST_ID
    ensures es <= to
    ensures var id := Run(es).At(side).store.sequence + 1;
            var other := Run(es).At(Other(side));
            && id in Run(to).At(side).store.dialogue && Run(to).At(side).store.dialogue[id].reached
            && Run(to).At(side).store.dialogue[id].payload == content
            && id !in Run(to).At(side).store.pending
            && NowEntered(other.store, Run(to).At(Other(side)).store, id, TextKind, content, ttl, other.now)
  {
    var id := Run(es).At(side).store.sequence + 1;
    SendDoes(es, side, TextKind, content, ttl);
    to := es + [(side, Send(TextKind, content, ttl))];
    var n := Run(to).At(side);
    StaleIs(n.store.dialogue[id], n.now);
    hide Run, Stale, NowEntered;
    to := TextArrives(to, side, id);
  }

  /** Which event changes a message, its pending mark, or a received mark: a message goes exactly when it is
      deleted or expires, changes only when its own worker commits, and comes only by sending or receiving;
      a pending mark is set by sending and cleared by the message's own worker or by expiry; a received mark
      stays, and comes from a packet. */
  lemma WhoChangesWhat(es: History, side: Side, e: (Side, Event), id: uint64)
    ensures var n := Run(es).At(side);
            var s, t, own := n.store, Run(es + [e]).At(side).store, e.0 == side;
            && (id in s.dialogue ==>
                  (id !in t.dialogue <==> own && ((e.1.Delete? && id in e.1.ids) || e.1 == Expire(id))))
            && (id in s.dialogue && id in t.dialogue && t.dialogue[id] != s.dialogue[id] ==>
                  own && e.1.Commit? && e.1.tid in n.workers && n.workers[e.1.tid].id == id
                  && t.dialogue[id] == s.dialogue[id].(reached := true))
            && (id !in s.dialogue && id in t.dialogue ==> own && id == s.sequence + 1 && (e.1.Send? || e.1.Deliver?))
            && (id in s.pending && id !in t.pending ==>
                  own && (e.1 == Expire(id) || (e.1.Commit? && e.1.tid in n.workers && n.workers[e.1.tid].id == id)))
            && (id !in s.pending && id in t.pending ==> own && e.1.Send? && id == s.sequence + 1)
            && (id in s.received ==> id in t.received)
            && (id !in s.received && id in t.received ==> own && e.1.Deliver?)
  {
    RunInv(es);
    var n := Run(es).At(side);
    assert IdsInv(n);
    var to := Extend(es, e.0, e.1);
    assert [(e.0, e.1)] == [e];
    hide Run, Inv, StepAt, IdsInv;
    if e.0 == side {
      StepChanges(Run(es), side, e.1, id);
    }
  }

  lemma StepChanges(s: Sys, side: Side, e: Event, id: uint64)
    requires IdsInv(s.At(side))
    ensures Changes(s.At(side), StepAt(s, side, e).node, e, id)
  {
    if e.Deliver? {
      DeliverChanges(s.At(side), e, id);
    } else {
      LocalChanges(s.At(side), e, id);
    }
    hide DeliverStep, LocalStep, Changes;
  }

  predicate Changes(n: Node, n': Node, e: Event, id: uint64)
  {
    var s, t := n.store, n'.store;
    && (id in s.dialogue ==> (id !in t.dialogue <==> (e.Delete? && id in e.ids) || e == Expire(id)))
    && (id in s.dialogue && id in t.dialogue && t.dialogue[id] != s.dialogue[id] ==>
          e.Commit? && e.tid in n.workers && n.workers[e.tid].id == id
          && t.dialogue[id] == s.dialogue[id].(reached := true))
    && (id !in s.dialogue && id in t.dialogue ==> id == s.sequence + 1 && (e.Send? || e.Deliver?))
    && (id in s.pending && id !in t.pending ==>
          e == Expire(id) || (e.Commit? && e.tid in n.workers && n.workers[e.tid].id == id))
    && (id !in s.pending && id in t.pending ==> e.Send? && id == s.sequence + 1)
    && (id in s.received ==> id in t.received)
    && (id !in s.received && id in t.received ==> e.Deliver?)
  }

  lemma LocalChanges(n: Node, e: Event, id: uint64)
    requires IdsInv(n) && !e.Deliver?
    ensures Changes(n, LocalStep(n, e).node, e, id)
  {
    hide Stale, Request, MustSendBytes, AssertionFails;
  }

  lemma DeliverChanges(n: Node, e: Event, id: uint64)
    requires IdsInv(n) && e.Deliver?
    ensures Changes(n, DeliverStep(n, e.packet.kind, e.packet.bytes, e.files).node, e, id)
  {
    assert Changes(n, n, e, id) && Changes(n, Restarted(n), e, id);
    match Receive(e.packet.kind, e.packet.bytes)
    case ToSlot(a) => assert Changes(n, MailStep(n, a).node, e, id);
    case ToReceiver(a) => ServeChanges(n, a, e, id);
    case _ =>
    hide Receive, MailStep, ServeStep, Changes, Restarted;
  }

  lemma ServeChanges(n: Node, a: Action, e: Event, id: uint64)
    requires IdsInv(n) && e.Deliver?
    ensures Changes(n, ServeStep(n, a, e.files).node, e, id)
  {
  }

  /** The history fields say what they are meant to say: which messages have left the dialogue, for which a
      check was started, what was sent, and what was made of the last text under an id. */
  lemma HistoryIs(es: seq<(Side, Event)>, side: Side, e: (Side, Event))
    ensures var n, n', own := Run(es).At(side), Run(es + [e]).At(side), e.0 == side;
            && n'.removed == n.removed + (n.store.dialogue.Keys - n'.store.dialogue.Keys)
            && n'.asked == n.asked + (if own && Claims(n, e.1, CheckJob) then {e.1.glance.data.id} else {})
            && n'.sent == (if own && e.1.Send? && n'.store.sequence != n.store.sequence
                              && n'.store.sequence in n'.store.dialogue
                           then n.sent[n'.store.sequence := n'.store.dialogue[n'.store.sequence]] else n.sent)
            && (n'.arrivals == n.arrivals
                || (own && e.1.Deliver? && n'.store.sequence == n.store.sequence + 1
                    && n'.store.sequence in n'.store.dialogue
                    && exists request :: request in n'.store.received
                         && n'.arrivals == n.arrivals[request := n'.store.dialogue[n'.store.sequence]]))
  {
    RunInv(es);
    var n := Run(es).At(side);
    assert IdsInv(n);
    var to := Extend(es, e.0, e.1);
    assert [(e.0, e.1)] == [e];
    hide Run, Inv, StepAt, IdsInv, Claims;
    if e.0 == side {
      StepRecords(Run(es), side, e.1);
    } else {
      assert Run(es + [e]).At(side) == n;
      hide Records;
    }
  }

  /** A claim that is possible, for a worker of this kind. */
  predicate Claims(n: Node, e: Event, job: Job)
  {
    e.Claim? && e.glance.job == job && e.glance in n.glances && e.tid !in n.workers && e.glance.data.id !in n.recorder
  }

  predicate Records(n: Node, n': Node, e: Event)
  {
    && n'.removed == n.removed + (n.store.dialogue.Keys - n'.store.dialogue.Keys)
    && n'.asked == n.asked + (if Claims(n, e, CheckJob) then {e.glance.data.id} else {})
    && n'.sent == (if e.Send? && n'.store.sequence != n.store.sequence && n'.store.sequence in n'.store.dialogue
                   then n.sent[n'.store.sequence := n'.store.dialogue[n'.store.sequence]] else n.sent)
    && (n'.arrivals == n.arrivals
        || (e.Deliver? && n'.store.sequence == n.store.sequence + 1 && n'.store.sequence in n'.store.dialogue
            && exists request :: request in n'.store.received
                 && n'.arrivals == n.arrivals[request := n'.store.dialogue[n'.store.sequence]]))
  }

  lemma StepRecords(s: Sys, side: Side, e: Event)
    requires IdsInv(s.At(side))
    ensures Records(s.At(side), StepAt(s, side, e).node, e)
  {
    if e.Deliver? {
      DeliverRecords(s.At(side), e);
      assert Records(s.At(side), s.At(side), e);
    } else {
      LocalRecords(s.At(side), e);
    }
    hide DeliverStep, LocalStep, Records;
  }

  lemma LocalRecords(n: Node, e: Event)
    requires IdsInv(n) && !e.Deliver?
    ensures Records(n, LocalStep(n, e).node, e)
  {
    match e
    case Send(kind, payload, ttl) => SendRecords(n, kind, payload, ttl);
    case Commit(tid) => CommitRecords(n, tid);
    case Claim(tid, g) =>
    case Delete(ids) =>
    case Expire(id) =>
    case _ =>
      OtherRecords(n, e);
      hide LocalStep, Records;
  }

  lemma SendRecords(n: Node, kind: Kind, payload: seq<byte>, ttl: int64)
    requires IdsInv(n)
    ensures Records(n, SendStep(n, kind, payload, ttl).node, Send(kind, payload, ttl))
  {
    assert n.store.dialogue.Keys <= SendStep(n, kind, payload, ttl).node.store.dialogue.Keys;
  }

  lemma CommitRecords(n: Node, tid: nat)
    ensures Records(n, CommitStep(n, tid).node, Commit(tid))
  {
    assert CommitStep(n, tid).node.store.dialogue.Keys == n.store.dialogue.Keys;
    hide MustSendBytes;
  }

  lemma OtherRecords(n: Node, e: Event)
    requires !e.Deliver? && !e.Send? && !e.Commit? && !e.Claim? && !e.Delete? && !e.Expire?
    ensures Records(n, LocalStep(n, e).node, e)
  {
    hide Stale, Request, MustSendBytes, AssertionFails, SendStep, CommitStep, ClaimStep, DeleteStep, ExpireStep;
  }

  lemma DeliverRecords(n: Node, e: Event)
    requires IdsInv(n) && e.Deliver?
    ensures Records(n, DeliverStep(n, e.packet.kind, e.packet.bytes, e.files).node, e)
  {
    assert Records(n, n, e) && Records(n, Restarted(n), e);
    match Receive(e.packet.kind, e.packet.bytes)
    case ToSlot(a) => assert Records(n, MailStep(n, a).node, e);
    case ToReceiver(a) => ServeRecords(n, a, e);
    case _ =>
    hide Receive, MailStep, ServeStep, Records, Restarted;
  }

  lemma ServeRecords(n: Node, a: Action, e: Event)
    requires IdsInv(n) && e.Deliver?
    ensures Records(n, ServeStep(n, a, e.files).node, e)
  {
    assert Records(n, n, e);
    match a
    case Text(ReqSyncText(id, ttl, content)) =>
      ReceiveRecords(n, id, TextKind, content, ToInt64(ttl), Text(T.RespSyncText(id, true)), e);
      hide ReceiveStep, Records;
    case Image(ReqSyncHash(id, _, _)) =>
      ReceiveRecords(n, id, ImageKind, e.files.filename, 0, Image(I.RespSyncHash(id, true, [])), e);
      hide ReceiveStep, Records;
    case Image(ReqSyncBytes(id, _, _)) =>
      ReceiveRecords(n, id, ImageKind, e.files.filename, 0, Image(I.RespSyncBytes(id, true)), e);
      hide ReceiveStep, Records;
    case _ => hide Records;
  }

  lemma ReceiveRecords(n: Node, request: uint64, kind: Kind, payload: seq<byte>, ttl: int64, answer: Action, e: Event)
    requires IdsInv(n) && e.Deliver?
    ensures Records(n, ReceiveStep(n, request, kind, payload, ttl, answer).node, e)
  {
    assert request in n.store.received + {request};
  }

  /** What is in memory is gone, and nothing else is touched or sent. */
  predicate Forgotten(n: Node, o: Outcome)
  {
    && o.out.None? && o.node.store == n.store && o.node.now == n.now
    && o.node.glances == {} && o.node.recorder == {} && o.node.workers == map[] && o.node.slots == map[]
  }

  /** A restart, a type assertion that fails in a worker, and a payload that the read loop panics on all end the
      process. */
  lemma PanicsForget(n: Node, tid: nat, content: seq<byte>, kind: Kind, bytes: seq<byte>, files: Files)
    ensures Forgotten(n, LocalStep(n, Restart))
    ensures tid in n.workers && AssertionFails(n.workers[tid]) && |content| + HEADROOM <= MAX_INT ==>
              Forgotten(n, LocalStep(n, Again(tid, content)))
    ensures Receive(kind, bytes).Crash? && |files.subdir| == SUBDIR_SIZE ==>
              Forgotten(n, DeliverStep(n, kind, bytes, files))
  {
    hide Receive;
  }
}
