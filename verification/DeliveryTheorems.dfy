/** What the users of the two clients can rely on, in every run. */
module DeliveryTheorems {
  import opened Bytes
  import opened Options
  import opened Wire
  import opened Buckets
  import opened MessageStore
  import opened Delivery
  import opened DeliveryInvariant
  import T = TextTypes
  import I = ImageTypes

  /** Unless a sending worker was started for it after a check, a text that its sender sees as having
      reached the other side has been marked as received there, and entered in the dialogue with the sender's
      content and time to live; the entry is still there as it was made, unless it has been deleted since. */
  lemma EndToEnd(es: seq<(Side, Event)>, side: Side, id: uint64)
    requires var n := Run(es).At(side);
             id in n.store.dialogue && n.store.dialogue[id].initiator && n.store.dialogue[id].reached
             && n.store.dialogue[id].kind.TextKind? && id !in n.late
    ensures var m, other := Run(es).At(side).store.dialogue[id], Run(es).At(Other(side));
            && id in other.store.received && id in other.arrivals
            && other.arrivals[id].payload == m.payload && other.arrivals[id].ttl == m.ttl
            && other.arrivals[id].reached && !other.arrivals[id].initiator && other.arrivals[id].kind.TextKind?
            && (var local := other.arrivals[id].id;
                if local in other.store.dialogue then other.store.dialogue[local] == other.arrivals[id]
                else local in other.removed)
  {
    RunInv(es);
    var n, other := Run(es).At(side), Run(es).At(Other(side));
    assert NodeInv(n) && NodeInv(other) && CrossInv(n, other);
    hide Run, Inv, WorkersInv, SlotsInv, MailInv, AskedInv, PendingInv, IdsInv;
  }

  /** The receiver was first: when a step makes a text reached, the other side has already marked it as
      received before that step. */
  lemma ReceivedBeforeReached(es: seq<(Side, Event)>, side: Side, e: (Side, Event), id: uint64)
    requires var n, n' := Run(es).At(side), Run(es + [e]).At(side);
             && id in n.store.dialogue && !n.store.dialogue[id].reached
             && id in n'.store.dialogue && n'.store.dialogue[id].reached && n'.store.dialogue[id].initiator
             && n'.store.dialogue[id].kind.TextKind? && id !in n'.late
    ensures id in Run(es).At(Other(side)).store.received
  {
    EndToEnd(es + [e], side, id);
    assert (es + [e])[..|es|] == es;
    var s, s' := Run(es), Run(es + [e]);
    assert s' == Step(s, e.0, e.1);
    assert s'.At(Other(e.0)) == s.At(Other(e.0));
    hide Run, StepAt, Step;
  }

  /** Every positive answer ever put on the wire, about a text or an image, names a message that its
      author has marked as received; no packet makes a read loop panic. */
  lemma AcknowledgementsAreTrue(es: seq<(Side, Event)>, p: Packet)
    requires p in Run(es).net
    ensures !Receive(p.kind, p.bytes).Crash?
    ensures var r := Receive(p.kind, p.bytes);
            r.ToSlot? && r.response.IsResponse() && r.response.Positive() ==>
              r.response.Id() in Run(es).At(Other(p.to)).store.received
  {
    RunInv(es);
    var src, dst := Run(es).At(Other(p.to)), Run(es).At(p.to);
    assert GoodPacket(p, src, dst);
    hide Run, Inv, Receive, GoodPacket;
    PacketMeans(p, src, dst);
  }

  lemma PacketMeans(p: Packet, src: Node, dst: Node)
    requires GoodPacket(p, src, dst)
    ensures !Receive(p.kind, p.bytes).Crash?
    ensures var r := Receive(p.kind, p.bytes);
            r.ToSlot? && r.response.IsResponse() && r.response.Positive() ==> r.response.Id() in src.store.received
  {
    hide Receive, Carried, FrameBytes, Allowed;
    var a: Action :| p.kind == a.Kind() && p.bytes == FrameBytes(a) && Carried(a) && Allowed(a, src, dst);
    ReceiveCarried(a);
    if a.IsResponse() && a.Positive() {
      AllowedIsTrue(a, src, dst);
    }
  }

  lemma AllowedIsTrue(a: Action, src: Node, dst: Node)
    requires Allowed(a, src, dst) && a.IsResponse() && a.Positive()
    ensures a.Id() in src.store.received
  {
  }

  /** Whatever happens next, ids, deleted messages and cleared pending marks do not come back, reached
      messages stay reached and are not otherwise altered, and received marks are kept. */
  lemma {:induction false} NothingIsTakenBack(es: seq<(Side, Event)>, more: seq<(Side, Event)>, side: Side)
    ensures Grows(Run(es).At(side), Run(es + more).At(side))
  {
    if more == [] {
      assert es + more == es;
      GrowsReflexive(Run(es).At(side));
    } else {
      var init, e := more[..|more| - 1], more[|more| - 1];
      assert es + more == (es + init) + [e] && ((es + init) + [e])[..|es + init|] == es + init;
      NothingIsTakenBack(es, init, side);
      RunInv(es);
      RunInv(es + init);
      var s := Run(es + init);
      assert Run(es + more) == Step(s, e.0, e.1);
      StepAtPreserves(s, e.0, e.1);
      GrowsReflexive(s.At(Other(e.0)));
      assert IdsInv(Run(es).At(side));
      hide Run, Grows, Inv, StepAt, NodeInv, CrossInv, IdsInv;
      GrowsTransitive(Run(es).At(side), s.At(side), Run(es + more).At(side));
    }
  }

  /** A message has at most one worker; each waiting worker owns the result slot of its message, and
      nobody else does, so the slot it frees is its own; and the type assertion on the answer to an
      image fails for no worker that was started in time. */
  lemma InFlightExclusive(es: seq<(Side, Event)>, side: Side, t: nat, u: nat)
    requires var n := Run(es).At(side); t in n.workers && u in n.workers
    ensures var n := Run(es).At(side); n.workers[t].id == n.workers[u].id ==> t == u
    ensures var n := Run(es).At(side);
            n.workers[t].phase.Waiting? ==> n.workers[t].Place() in n.slots && n.slots[n.workers[t].Place()] == t
    ensures var n := Run(es).At(side);
            t != u && n.workers[u].phase.Waiting? ==>
              var freed := Returned(n, t, Finished).slots;
              n.workers[u].Place() in freed && freed[n.workers[u].Place()] == u
    ensures var n := Run(es).At(side); n.workers[t].id !in n.late ==> !AssertionFails(n.workers[t])
  {
    RunInv(es);
    var n, other := Run(es).At(side), Run(es).At(Other(side));
    assert NodeInv(n) && CrossInv(n, other);
    hide Run, Inv, NodeInv, CrossInv, AssertionFails, WorkersInv, SlotsInv, MailInv;
    OwnSlots(n, t, u);
    if n.workers[t].id !in n.late {
      AssertionHolds(n, t, other);
    }
  }

  lemma OwnSlots(n: Node, t: nat, u: nat)
    requires WorkersInv(n) && SlotsInv(n) && t in n.workers && u in n.workers
    ensures n.workers[t].id == n.workers[u].id ==> t == u
    ensures n.workers[t].phase.Waiting? ==> n.workers[t].Place() in n.slots && n.slots[n.workers[t].Place()] == t
    ensures t != u && n.workers[u].phase.Waiting? ==>
              var freed := Returned(n, t, Finished).slots;
              n.workers[u].Place() in freed && freed[n.workers[u].Place()] == u
  {
    hide WorkerInv, Busy;
  }

  /** What is pending and still in the dialogue is outgoing and not known to have arrived; every id in
      use has been handed out by the sequence, and the next one is new. */
  lemma DialogueState(es: seq<(Side, Event)>, side: Side, id: uint64)
    ensures var s := Run(es).At(side).store;
            id in s.pending && id in s.dialogue ==> s.dialogue[id].initiator && !s.dialogue[id].reached
    ensures var s := Run(es).At(side).store;
            id in s.pending || id in s.dialogue ==> id <= s.sequence
    ensures var s := Run(es).At(side).store;
            s.sequence != LAST_ID ==> NextId(s) !in s.dialogue && NextId(s) !in s.pending
  {
    RunInv(es);
    var n := Run(es).At(side);
    assert NodeInv(n);
    hide Run, Inv, SlotsInv, WorkersInv, AskedInv, ArrivalsInv, CrossInv;
  }

  /** A message is only ever marked as reached by the commit of its own worker. If the answer that worker
      holds is positive, the other side has received the message. The only other cases are a sending
      worker that was started after a check, and the second request for an image, answered by a "no"
      to the first. */
  lemma WhatReachedMeans(es: seq<(Side, Event)>, side: Side, e: (Side, Event), id: uint64)
    requires var n, n' := Run(es).At(side), Run(es + [e]).At(side);
             && id in n.store.dialogue && !n.store.dialogue[id].reached
             && id in n'.store.dialogue && n'.store.dialogue[id].reached
    ensures e.0 == side && e.1.Commit? && e.1.tid in Run(es).At(side).workers
    ensures var w := Run(es).At(side).workers[e.1.tid];
            && w.id == id && w.phase.Answered? && w.phase.answer.IsResponse()
            && (w.phase.answer.Positive() ==> id in Run(es).At(Other(side)).store.received)
            && (!w.phase.answer.Positive() ==>
                  id in Run(es).At(side).late
                  || (w.second && w.data.kind.ImageKind?
                      && w.phase.answer.Image? && w.phase.answer.image.RespSyncHash?))
  {
    RunInv(es);
    assert (es + [e])[..|es|] == es;
    var s := Run(es);
    var n, other := s.At(side), s.At(Other(side));
    assert NodeInv(n) && CrossInv(n, other);
    assert Run(es + [e]) == Step(s, e.0, e.1);
    hide Run, Inv, WorkersInv, SlotsInv, MailInv, DialogueInv, SentInv, PendingInv, AskedInv, ArrivalsInv, ReachedInv,
      ReceivedInv, IdsInv, LocalStep, DeliverStep;
    if e.0 == side {
      assert Run(es + [e]).At(side) == StepAt(s, side, e.1).node;
      hide Step;
      OnlyCommitMarks(s, side, e.1, id);
      assert LocalStep(n, e.1) == CommitStep(n, e.1.tid) by { CommitIs(n, e.1); }
      hide StepAt, CommitStep;
      CommitMeans(n, e.1.tid, id, other);
    }
  }

  lemma CommitIs(n: Node, e: Event)
    requires e.Commit?
    ensures LocalStep(n, e) == CommitStep(n, e.tid)
  {
  }

  lemma OnlyCommitMarks(s: Sys, side: Side, e: Event, id: uint64)
    requires IdsInv(s.At(side)) && id in s.At(side).store.dialogue && !s.At(side).store.dialogue[id].reached
    requires var n' := StepAt(s, side, e).node; id in n'.store.dialogue && n'.store.dialogue[id].reached
    ensures e.Commit?
  {
    hide Stale, Receive, Request, MustSendBytes, AssertionFails;
  }

  lemma CommitMeans(n: Node, tid: nat, id: uint64, other: Node)
    requires WorkersInv(n) && MailInv(n, other) && DialogueInv(n)
    requires id in n.store.dialogue && !n.store.dialogue[id].reached
    requires var n' := CommitStep(n, tid).node; id in n'.store.dialogue && n'.store.dialogue[id].reached
    ensures tid in n.workers
    ensures var w := n.workers[tid];
            && w.id == id && w.phase.Answered? && w.phase.answer.IsResponse()
            && (w.phase.answer.Positive() ==> id in other.store.received)
            && (!w.phase.answer.Positive() ==>
                  id in n.late
                  || (w.second && w.data.kind.ImageKind?
                      && w.phase.answer.Image? && w.phase.answer.image.RespSyncHash?))
  {
    hide Busy;
    var w := n.workers[tid];
    assert WorkerInv(n, w) && AnswerInv(n.late, w, w.phase.answer, other);
  }

  // ---- The result map ----

  /** The channels of the result maps, read off the workers. */
  function Mailbox(w: Worker): seq<Action>
  {
    if w.phase.Waiting? && w.phase.mail.Some? then [w.phase.mail.value] else []
  }

  /** A response does to the channels of the waiting workers what `Exchange.Handle` does to the channels
      of its result map: the one registered under its id gets it if it is empty, and no other changes. */
  lemma MailIsOffered(n: Node, a: Action, t: nat)
    requires WorkersInv(n) && SlotsInv(n) && t in n.workers && n.workers[t].phase.Waiting?
    ensures t in MailStep(n, a).node.workers
    ensures Mailbox(MailStep(n, a).node.workers[t]) ==
            if Slot(a.Kind(), a.Id()) in n.slots && n.slots[Slot(a.Kind(), a.Id())] == t
            then (if Mailbox(n.workers[t]) == [] then [a] else Mailbox(n.workers[t])) else Mailbox(n.workers[t])
  {
    hide WorkerInv, Busy;
  }

  /** The result map of one protocol: the worker whose channel stands under an id. */
  function Registered(n: Node, kind: Kind): map<uint64, nat>
  {
    map s | s in n.slots && s.kind == kind :: s.id := n.slots[s]
  }

  /** A request does to the result maps what `Exchange.Register` does: the entry of its id is its own, in the
      map of its protocol, and all other entries are as before. */
  lemma AskingRegisters(n: Node, tid: nat, w: Worker, request: Action, kind: Kind)
    ensures Registered(Asking(n, tid, w, request).node, kind) ==
            if kind == w.data.kind then Registered(n, kind)[w.id := tid] else Registered(n, kind)
  {
    var m := Asking(n, tid, w, request).node;
    assert forall s <- n.slots :: s in m.slots;
    assert w.Place() in m.slots;
  }

  /** A request that returns does to them what `Exchange.Unregister` does. */
  lemma ReturnedUnregisters(n: Node, tid: nat, phase: Phase, kind: Kind)
    requires tid in n.workers
    ensures Registered(Returned(n, tid, phase), kind) ==
            if kind == n.workers[tid].data.kind then Registered(n, kind) - {n.workers[tid].id} else Registered(n, kind)
  {
    var w := n.workers[tid];
    WithoutSlot(n.slots, w.Place(), kind);
    hide Registered;
  }

  lemma WithoutSlot(slots: map<Slot, nat>, place: Slot, kind: Kind)
    ensures (map s | s in slots - {place} && s.kind == kind :: s.id := slots[s]) ==
            (map s | s in slots && s.kind == kind :: s.id := slots[s]) - if kind == place.kind then {place.id} else {}
  {
    forall s | s in slots && s != place && s.kind == kind
      ensures s in slots - {place}
    {
    }
  }

  // ---- Late claims and negative answers ----

  /** A claim that starts a sending worker after a check of the same message was started. */
  predicate ClaimsLate(n: Node, e: Event)
  {
    e.Claim? && e.glance.job.SendJob? && e.glance.data.id in n.asked
    && e.glance in n.glances && e.tid !in n.workers && e.glance.data.id !in n.recorder
  }

  /** A commit in which a sending worker takes a negative answer for success. */
  predicate CommitsNo(n: Node, e: Event)
  {
    e.Commit? && CommitStep(n, e.tid) != Idle(n)
    && n.workers[e.tid].job.SendJob? && !n.workers[e.tid].phase.answer.Positive()
  }

  lemma LocalHistory(n: Node, e: Event)
    ensures var n' := LocalStep(n, e).node;
            n'.late == (if ClaimsLate(n, e) then n.late + {e.glance.data.id} else n.late)
            && n'.misled == (if CommitsNo(n, e) then n.misled + {n.workers[e.tid].id} else n.misled)
  {
    hide Stale, Request, MustSendBytes, AssertionFails, Settled, Sent, Deleted, Expired, Due;
  }

  lemma DeliverHistory(n: Node, kind: Kind, bytes: seq<byte>, files: Files)
    ensures var n' := DeliverStep(n, kind, bytes, files).node; n'.late == n.late && n'.misled == n.misled
  {
    hide Receive, Received;
  }

  lemma StepHistory(s: Sys, side: Side, e: Event)
    ensures var n, n' := s.At(side), StepAt(s, side, e).node;
            n'.late == (if ClaimsLate(n, e) then n.late + {e.glance.data.id} else n.late)
            && n'.misled == (if CommitsNo(n, e) then n.misled + {n.workers[e.tid].id} else n.misled)
  {
    if e.Deliver? {
      DeliverHistory(s.At(side), e.packet.kind, e.packet.bytes, e.files);
    } else {
      LocalHistory(s.At(side), e);
    }
    hide LocalStep, DeliverStep, CommitStep;
  }

  /** What one more event adds to the late ids of a side, and to those misled. */
  lemma RunHistory(es: seq<(Side, Event)>, side: Side, e: (Side, Event))
    ensures var n, n' := Run(es).At(side), Run(es + [e]).At(side);
            n'.late == (if e.0 == side && ClaimsLate(n, e.1) then n.late + {e.1.glance.data.id} else n.late)
            && n'.misled == (if e.0 == side && CommitsNo(n, e.1) then n.misled + {n.workers[e.1.tid].id} else n.misled)
  {
    assert (es + [e])[..|es|] == es;
    var s := Run(es);
    assert Run(es + [e]) == Step(s, e.0, e.1);
    hide Run, StepAt, ClaimsLate, CommitsNo;
    if e.0 == side {
      StepHistory(s, side, e.1);
    }
  }

  /** A claim is late only if the message is too old by now to be sent again. */
  lemma YoungIsNotLate(es: seq<(Side, Event)>, side: Side, e: Event)
    requires ClaimsLate(Run(es).At(side), e)
    ensures Stale(e.glance.data, Run(es).At(side).now)
  {
    RunInv(es);
    var n := Run(es).At(side);
    assert NodeInv(n);
    hide Run, Inv, IdsInv, SentInv, DialogueInv, PendingInv, WorkersInv, SlotsInv, ArrivalsInv, MisledInv, Stale;
  }

  /** Every sending claim of a side is made while its message is still young. */
  ghost predicate Prompt(es: seq<(Side, Event)>, side: Side)
  {
    es == [] ||
    (var init, e := es[..|es| - 1], es[|es| - 1];
     && Prompt(init, side)
     && (e.0 == side && e.1.Claim? && e.1.glance.job.SendJob? ==> !Stale(e.1.glance.data, Run(init).At(side).now)))
  }

  /** Then no claim is late, so `EndToEnd` holds of every text. */
  lemma {:induction false} PromptIsNeverLate(es: seq<(Side, Event)>, side: Side)
    requires Prompt(es, side)
    ensures Run(es).At(side).late == {}
  {
    if es != [] {
      var init, e := es[..|es| - 1], es[|es| - 1];
      PromptIsNeverLate(init, side);
      RunHistory(init, side, e);
      assert init + [e] == es;
      if ClaimsLate(Run(init).At(side), e.1) {
        YoungIsNotLate(init, side, e.1);
      }
      hide Run, Stale, CommitsNo;
    }
  }

  /** No sending worker of a side commits on a negative answer. */
  ghost predicate Heeded(es: seq<(Side, Event)>, side: Side)
  {
    es == [] ||
    (var init, e := es[..|es| - 1], es[|es| - 1];
     Heeded(init, side) && !(e.0 == side && CommitsNo(Run(init).At(side), e.1)))
  }

  lemma {:induction false} HeededIsNotMisled(es: seq<(Side, Event)>, side: Side)
    requires Heeded(es, side)
    ensures Run(es).At(side).misled == {}
  {
    if es != [] {
      var init, e := es[..|es| - 1], es[|es| - 1];
      HeededIsNotMisled(init, side);
      RunHistory(init, side, e);
      assert init + [e] == es;
      hide Run, ClaimsLate, CommitsNo;
    }
  }

  /** Text or image: a message seen as reached has been received, or a sending worker has taken a negative
      answer about it for success; for a text that takes a late claim. */
  lemma ReachedMeans(es: seq<(Side, Event)>, side: Side, id: uint64)
    requires var n := Run(es).At(side);
             id in n.store.dialogue && n.store.dialogue[id].initiator && n.store.dialogue[id].reached
    ensures var n := Run(es).At(side);
            id in Run(es).At(Other(side)).store.received
            || (id in n.misled && (n.store.dialogue[id].kind.TextKind? ==> id in n.late))
    ensures Heeded(es, side) ==> id in Run(es).At(Other(side)).store.received
  {
    RunInv(es);
    var n, other := Run(es).At(side), Run(es).At(Other(side));
    if Heeded(es, side) {
      HeededIsNotMisled(es, side);
    }
    assert NodeInv(n) && CrossInv(n, other);
    hide Run, Inv, IdsInv, SentInv, PendingInv, WorkersInv, SlotsInv, AskedInv, ArrivalsInv, GlancesInv, MailInv,
      ReceivedInv;
  }
}
