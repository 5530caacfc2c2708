/** What can happen next: from which states delivery is possible, and from which it can go wrong. */
module DeliveryRuns {
  import opened Bytes
  import opened Options
  import opened FrameFormat
  import opened Wire
  import opened Buckets
  import opened MessageStore
  import opened Delivery
  import opened DeliveryInvariant
  import opened DeliveryTheorems
  import T = TextTypes
  import I = ImageTypes

  type History = seq<(Side, Event)>

  const SILENT := Files(false, [], [0, 0, 0, 0, 0, 0, 0])

  function Sealed(to: Side, a: Action): Packet
  {
    Packet(to, a.Kind(), FrameBytes(a))
  }

  // ---- Steps at one side ----

  lemma Extend(es: History, side: Side, e: Event) returns (to: History)
    ensures to == es + [(side, e)] && Run(to) == Step(Run(es), side, e)
  {
    to := es + [(side, e)];
    assert to[..|es|] == es;
  }

  lemma ExtendLocally(es: History, side: Side, e: Event) returns (to: History)
    requires !e.Deliver?
    ensures to == es + [(side, e)] && Run(to) == Put(Run(es), side, LocalStep(Run(es).At(side), e))
  {
    hide LocalStep, Run;
    to := Extend(es, side, e);
  }

  lemma ExtendByPacket(es: History, side: Side, a: Action, files: Files) returns (to: History)
    requires Sealed(side, a) in Run(es).net && Carried(a) && |files.subdir| == SUBDIR_SIZE
    ensures es <= to
    ensures Run(to) == Put(Run(es), side, if a.IsResponse() then MailStep(Run(es).At(side), a)
                                          else ServeStep(Run(es).At(side), a, files))
  {
    ReceiveCarried(a);
    hide Run, Receive, MailStep, ServeStep, Carried, FrameBytes;
    to := Extend(es, side, Deliver(Sealed(side, a), files));
  }

  /** A side goes on without touching its store, its clock, or the other side. */
  ghost predicate Quietly(s: Sys, t: Sys, side: Side)
  {
    var n, n' := s.At(side), t.At(side);
    && t.At(Other(side)) == s.At(Other(side)) && s.net <= t.net
    && n'.store == n.store && n'.now == n.now && n'.asked == n.asked && n'.late == n.late && n.glances <= n'.glances
  }

  /** A worker waits for its answer, with its slot. */
  predicate WaitsAt(n: Node, tid: nat, w: Worker)
  {
    && tid in n.workers && n.workers[tid] == w && w.phase == Waiting(None)
    && w.Place() in n.slots && n.slots[w.Place()] == tid
  }

  function Asker(g: Glance): Worker
  {
    Worker(g.data.id, g.job, g.data, false, Waiting(None))
  }

  /** A message that was looked at and has no worker can be claimed and asked for. */
  lemma AskFor(es: History, side: Side, tid: nat, g: Glance, filebase: seq<byte>) returns (to: History)
    requires var n := Run(es).At(side); g in n.glances && g.data.id !in n.recorder && tid !in n.workers
    requires |filebase| + HEADROOM <= MAX_INT
    ensures es + [(side, Claim(tid, g))] <= to
    ensures var s, t := Run(es), Run(to);
            && t.At(Other(side)) == s.At(Other(side))
            && t.net == s.net + {Sealed(Other(side), Request(Asker(g), filebase))}
            && t.At(side).store == s.At(side).store && t.At(side).now == s.At(side).now
            && t.At(side).glances == s.At(side).glances
            && t.At(side).late == s.At(side).late + (if ClaimsLate(s.At(side), Claim(tid, g)) then {g.data.id} else {})
            && t.At(side).asked == s.At(side).asked + (if g.job.CheckJob? then {g.data.id} else {})
            && WaitsAt(t.At(side), tid, Asker(g))
  {
    hide Run, Request;
    var w := Worker(g.data.id, g.job, g.data, false, Ready);
    to := ExtendLocally(es, side, Claim(tid, g));
    assert Run(to).At(side) == ClaimStep(Run(es).At(side), tid, g).node;
    assert tid in Run(to).At(side).workers && Run(to).At(side).workers[tid] == w;
    SameRequest(w, Asker(g), filebase);
    hide LocalStep;
    to := Inquire(to, side, tid, w, filebase);
  }

  lemma Ask(es: History, side: Side, tid: nat, g: Glance) returns (to: History)
    requires var n := Run(es).At(side); g in n.glances && g.data.id !in n.recorder && tid !in n.workers
    ensures es + [(side, Claim(tid, g))] <= to
    ensures var s, t := Run(es), Run(to);
            && t.At(Other(side)) == s.At(Other(side)) && t.net == s.net + {Sealed(Other(side), Request(Asker(g), []))}
            && t.At(side).store == s.At(side).store && t.At(side).now == s.At(side).now
            && t.At(side).glances == s.At(side).glances
            && t.At(side).late == s.At(side).late + (if ClaimsLate(s.At(side), Claim(tid, g)) then {g.data.id} else {})
            && t.At(side).asked == s.At(side).asked + (if g.job.CheckJob? then {g.data.id} else {})
            && WaitsAt(t.At(side), tid, Asker(g))
  {
    hide Run, Request, FrameBytes, WaitsAt, ClaimsLate;
    to := AskFor(es, side, tid, g, []);
  }

  lemma Inquire(es: History, side: Side, tid: nat, w: Worker, filebase: seq<byte>) returns (to: History)
    requires tid in Run(es).At(side).workers && Run(es).At(side).workers[tid] == w && w.phase.Ready?
    requires |filebase| + HEADROOM <= MAX_INT
    ensures es <= to
    ensures var s, t := Run(es), Run(to);
            && t.At(Other(side)) == s.At(Other(side)) && t.net == s.net + {Sealed(Other(side), Request(w, filebase))}
            && Quietly(s, t, side) && t.At(side).glances == s.At(side).glances
            && WaitsAt(t.At(side), tid, w.(phase := Waiting(None)))
  {
    hide Run, Request, FrameBytes;
    to := ExtendLocally(es, side, Start(tid, filebase));
  }

  lemma SameRequest(w: Worker, v: Worker, filebase: seq<byte>)
    requires w.id == v.id && w.job == v.job && w.data == v.data
    ensures Request(w, filebase) == Request(v, filebase)
  {
  }

  /** A response that is on its way can be delivered to the worker that waits under its id. */
  lemma Answer(es: History, side: Side, tid: nat, w: Worker, a: Action) returns (to: History)
    requires WaitsAt(Run(es).At(side), tid, w) && Sealed(side, a) in Run(es).net && Carried(a)
    requires a.IsResponse() && Slot(a.Kind(), a.Id()) == w.Place()
    ensures es <= to && Quietly(Run(es), Run(to), side)
    ensures var n := Run(to).At(side); tid in n.workers && n.workers[tid] == w.(phase := Answered(a))
  {
    hide Run, Carried, FrameBytes;
    to := ExtendByPacket(es, side, a, SILENT);
    to := ExtendLocally(to, side, Take(tid));
  }

  /** What a sending worker makes of an answer, whatever it says. */
  lemma Conclude(es: History, side: Side, tid: nat, w: Worker) returns (to: History)
    requires tid in Run(es).At(side).workers && Run(es).At(side).workers[tid] == w
    requires w.job.SendJob? && w.phase.Answered? && w.phase.answer.IsResponse() && !MustSendBytes(w)
    ensures es <= to && Run(to).At(Other(side)) == Run(es).At(Other(side))
    ensures Run(to).At(side).store == Settled(Run(es).At(side).store, w.id, true)
    ensures Run(to).At(side).late == Run(es).At(side).late
  {
    hide Run, Settled, MustSendBytes;
    to := ExtendLocally(es, side, Commit(tid));
  }

  /** A number no worker has yet. */
  lemma {:induction false} Unused(s: set<nat>) returns (m: nat)
    ensures forall x <- s :: x < m
    decreases |s|
  {
    if s == {} {
      m := 0;
    } else {
      var x :| x in s;
      m := Unused(s - {x});
      assert forall y <- s :: y == x || y in s - {x};
      m := if x < m then m else x + 1;
    }
  }

  lemma Look1(es: History, side: Side, id: uint64) returns (to: History)
    requires id in Due(Run(es).At(side).store)
    ensures es <= to && Quietly(Run(es), Run(to), side) && Run(to).net == Run(es).net
    ensures GlanceAt(Run(es).At(side).store.dialogue[id], Run(es).At(side).now) in Run(to).At(side).glances
  {
    hide Run, Stale;
    to := ExtendLocally(es, side, Look(id));
  }

  /** A worker can always give up and be released, whatever it is about. */
  lemma FreeUp(es: History, side: Side, id: uint64) returns (to: History)
    ensures es <= to && Quietly(Run(es), Run(to), side) && id !in Run(to).At(side).recorder
  {
    to := es;
    if id in Run(es).At(side).recorder {
      var tid := WorkerOf(es, side, id);
      hide Run;
      if Run(es).At(side).workers[tid].phase.Ready? {
        to := Begin(to, side, tid);
      }
      var mid := to;
      to := FinishAndGo(to, side, tid);
      QuietlyOn(Run(es), Run(mid), Run(to), side);
    }
  }

  lemma QuietlyOn(s: Sys, t: Sys, u: Sys, side: Side)
    requires Quietly(s, t, side) && Quietly(t, u, side)
    ensures Quietly(s, u, side)
  {
  }

  lemma WorkerOf(es: History, side: Side, id: uint64) returns (tid: nat)
    requires id in Run(es).At(side).recorder
    ensures var ws := Run(es).At(side).workers; tid in ws && ws[tid].id == id
  {
    RunInv(es);
    var n := Run(es).At(side);
    assert NodeInv(n);
    hide Run, Inv;
    assert id in Busy(n.workers);
    tid :| tid in n.workers && n.workers[tid].id == id;
  }

  lemma Begin(es: History, side: Side, tid: nat) returns (to: History)
    requires tid in Run(es).At(side).workers && Run(es).At(side).workers[tid].phase.Ready?
    ensures es <= to && Quietly(Run(es), Run(to), side) && tid in Run(to).At(side).workers
    ensures Run(to).At(side).workers[tid].phase.Waiting?
    ensures Run(to).At(side).workers[tid].id == Run(es).At(side).workers[tid].id
  {
    hide Run, Request;
    to := ExtendLocally(es, side, Start(tid, []));
  }

  lemma FinishAndGo(es: History, side: Side, tid: nat) returns (to: History)
    requires tid in Run(es).At(side).workers && !Run(es).At(side).workers[tid].phase.Ready?
    ensures es <= to && Quietly(Run(es), Run(to), side)
    ensures Run(es).At(side).workers[tid].id !in Run(to).At(side).recorder
  {
    to := Finish(es, side, tid);
    hide Run;
    to := ExtendLocally(to, side, Release(tid));
  }

  lemma Finish(es: History, side: Side, tid: nat) returns (to: History)
    requires tid in Run(es).At(side).workers && !Run(es).At(side).workers[tid].phase.Ready?
    ensures es <= to && Quietly(Run(es), Run(to), side)
    ensures var n := Run(to).At(side);
            && tid in n.workers && n.workers[tid].phase.Finished?
            && n.workers[tid].id == Run(es).At(side).workers[tid].id
  {
    hide Run;
    to := es;
    match Run(es).At(side).workers[tid].phase
    case Waiting(_) => to := ExtendLocally(to, side, GiveUp(tid));
    case Answered(_) => to := ExtendLocally(to, side, Abort(tid));
    case _ =>
  }

  // ---- A text can arrive ----

  lemma DueMessage(es: History, side: Side, id: uint64)
    requires id in Due(Run(es).At(side).store)
    ensures var n := Run(es).At(side);
            var m := n.store.dialogue[id];
            && m.id == id && !m.reached && |m.payload| + HEADROOM <= MAX_INT && (!Stale(m, n.now) ==> id !in n.asked)
  {
    RunInv(es);
    var n := Run(es).At(side);
    assert NodeInv(n);
    hide Run, Inv, Stale, IdsInv, WorkersInv, SlotsInv, ArrivalsInv, GlancesInv, MisledInv;
  }

  /** A due, young message can be noted, and its former worker released. */
  lemma LookAndFree(es: History, side: Side, id: uint64) returns (to: History)
    requires var n := Run(es).At(side); id in Due(n.store) && !Stale(n.store.dialogue[id], n.now)
    ensures es <= to && Quietly(Run(es), Run(to), side)
    ensures var n := Run(to).At(side);
            Glance(Run(es).At(side).store.dialogue[id], SendJob) in n.glances && id !in n.recorder
  {
    assert GlanceAt(Run(es).At(side).store.dialogue[id], Run(es).At(side).now).job == SendJob;
    hide Run, Stale;
    to := Look1(es, side, id);
    hide Quietly;
    var looked := to;
    to := FreeUp(to, side, id);
    QuietlyOn(Run(es), Run(looked), Run(to), side);
    StillNoted(Run(looked), Run(to), side);
  }

  lemma StillNoted(s: Sys, t: Sys, side: Side)
    requires Quietly(s, t, side)
    ensures s.At(side).glances <= t.At(side).glances
  {
  }

  /** A due, young message can be asked for, whatever its former workers are doing. */
  lemma AskAbout(es: History, side: Side, id: uint64, filebase: seq<byte>) returns (to: History, tid: nat)
    requires var n := Run(es).At(side); id in Due(n.store) && !Stale(n.store.dialogue[id], n.now)
    requires |filebase| + HEADROOM <= MAX_INT
    ensures es <= to && Quietly(Run(es), Run(to), side)
    ensures var w := Asker(Glance(Run(es).At(side).store.dialogue[id], SendJob));
            w.id == id && WaitsAt(Run(to).At(side), tid, w) && Sealed(Other(side), Request(w, filebase)) in Run(to).net
  {
    var g := Glance(Run(es).At(side).store.dialogue[id], SendJob);
    DueMessage(es, side, id);
    hide Run, Stale, Request, FrameBytes;
    to := LookAndFree(es, side, id);
    tid := Unused(Run(to).At(side).workers.Keys);
    to := AskFor(to, side, tid, g, filebase);
  }

  function TextRequest(m: Message): Action
  {
    Text(T.ReqSyncText(m.id, ToUint64(m.ttl), m.payload))
  }

  const OK: bool := true

  /** What the receiver makes of a text. */
  lemma ServeText(es: History, side: Side, m: Message) returns (to: History)
    requires Sealed(side, TextRequest(m)) in Run(es).net && |m.payload| + HEADROOM <= MAX_INT
    requires Run(es).At(side).store.sequence != LAST_ID
    ensures es <= to && Run(to).At(Other(side)) == Run(es).At(Other(side))
    ensures var n := Run(es).At(side);
            Run(to).At(side).store == Received(n.store, m.id, TextKind, m.payload, m.ttl, n.now)
    ensures Sealed(Other(side), Text(T.RespSyncText(m.id, OK))) in Run(to).net
  {
    assert Carried(TextRequest(m));
    T.TTLRoundTrip(m.ttl);
    hide Run, Carried, FrameBytes, Received;
    to := ExtendByPacket(es, side, TextRequest(m), SILENT);
  }

  /** The message is marked as reached and not pending any more; nothing else in the store has changed. */
  predicate NowReached(s: Store, t: Store, id: uint64)
  {
    && id in s.dialogue
    && t == Store(s.sequence, s.dialogue[id := s.dialogue[id].(reached := true)], s.pending - {id}, s.received)
  }

  /** There is a new incoming entry under the next id, and the id it was sent under is marked as received. */
  predicate NowEntered(s: Store, t: Store, id: uint64, kind: Kind, payload: seq<byte>, ttl: int64, now: int)
  {
    && s.sequence < LAST_ID
    && t == Store(s.sequence + 1,
                  s.dialogue[s.sequence + 1 := Message(s.sequence + 1, kind, payload, true, false, now, ttl)],
                  s.pending, s.received + {id})
  }

  /** From every reachable state: a text that is due and young, whatever happened to it before, can still
      be received, as it is, and then be seen as reached. The other side must have an id left for it. */
  lemma TextArrives(es: History, side: Side, id: uint64) returns (to: History)
    requires var n := Run(es).At(side);
             id in Due(n.store) && n.store.dialogue[id].kind.TextKind? && !Stale(n.store.dialogue[id], n.now)
    requires Run(es).At(Other(side)).store.sequence != LAST_ID
    ensures es <= to
    ensures NowReached(Run(es).At(side).store, Run(to).At(side).store, id)
    ensures var m, other := Run(es).At(side).store.dialogue[id], Run(es).At(Other(side));
            NowEntered(other.store, Run(to).At(Other(side)).store, id, TextKind, m.payload, m.ttl, other.now)
    ensures Run(to).At(side).late == Run(es).At(side).late
  {
    var m := Run(es).At(side).store.dialogue[id];
    var w, yes := Asker(Glance(m, SendJob)), Text(T.RespSyncText(id, OK));
    DueMessage(es, side, id);
    assert Request(w, []) == TextRequest(m) && Carried(yes);
    SettledReaches(Run(es).At(side).store, id);
    ReceivedEnters(Run(es).At(Other(side)).store, id, TextKind, m.payload, m.ttl, Run(es).At(Other(side)).now);
    hide Run, NowReached, NowEntered, Stale, Request, Carried, FrameBytes, Settled, Received;
    var tid: nat;
    to, tid := AskAbout(es, side, id, []);
    to := ServeText(to, Other(side), m);
    to := Answer(to, side, tid, w, yes);
    to := Conclude(to, side, tid, w.(phase := Answered(yes)));
  }

  lemma SettledReaches(s: Store, id: uint64)
    requires id in s.dialogue
    ensures NowReached(s, Settled(s, id, true), id)
  {
  }

  lemma ReceivedEnters(s: Store, id: uint64, kind: Kind, payload: seq<byte>, ttl: int64, now: int)
    requires s.sequence < LAST_ID
    ensures NowEntered(s, Received(s, id, kind, payload, ttl, now), id, kind, payload, ttl, now)
  {
  }

  // ---- A late claim breaks delivery ----

  function Question(m: Message): Action
  {
    match m.kind
    case TextKind => Text(T.ReqExistence(m.id))
    case ImageKind => Image(I.ReqExistence(m.id))
  }

  function Verdict(m: Message, exist: bool): Action
  {
    match m.kind
    case TextKind => Text(T.RespExistence(m.id, exist))
    case ImageKind => Image(I.RespExistence(m.id, exist))
  }

  /** A checking worker for the message that has not asked yet. */
  predicate AboutToAsk(n: Node, id: uint64)
  {
    exists t :: t in n.workers && n.workers[t].id == id && n.workers[t].job.CheckJob? && n.workers[t].phase.Ready?
  }

  /** A message noted as young, for which a check has been started since, was asked about or is about to
      be. */
  ghost predicate AskedInNet(s: Sys, side: Side)
  {
    var n := s.At(side);
    forall g <- n.glances :: g.job.SendJob? && g.data.id in n.asked ==>
      AboutToAsk(n, g.data.id) || Sealed(Other(side), Question(g.data)) in s.net
  }

  /** What a step changes of that. */
  ghost predicate StillAsked(n: Node, o: Outcome)
  {
    forall g <- o.node.glances :: g.job.SendJob? && g.data.id in o.node.asked ==>
      || AboutToAsk(o.node, g.data.id)
      || (g in n.glances && g.data.id in n.asked
          && (AboutToAsk(n, g.data.id) ==> o.out == Some(Question(g.data))))
  }

  lemma SameWorkersStillAsk(n: Node, o: Outcome)
    requires o.node.glances == n.glances && o.node.asked == n.asked
    requires forall t <- n.workers ::
               n.workers[t].phase.Ready? ==> t in o.node.workers && o.node.workers[t] == n.workers[t]
    ensures StillAsked(n, o)
  {
    hide Question;
    forall id: uint64 | AboutToAsk(n, id) ensures AboutToAsk(o.node, id) {
      var t :| t in n.workers && n.workers[t].id == id && n.workers[t].job.CheckJob? && n.workers[t].phase.Ready?;
      assert t in o.node.workers;
    }
  }

  lemma LookStillAsks(n: Node, id: uint64)
    requires NodeInv(n)
    ensures StillAsked(n, LookStep(n, id))
  {
    var o := LookStep(n, id);
    SameWorkersStillAsk(n.(glances := o.node.glances), o);
    if id in Due(n.store) {
      assert id in n.sent && n.store.dialogue[id].id == id && n.store.dialogue[id] == n.sent[id];
      assert Stale(n.store.dialogue[id], n.now) || id !in n.asked;
    }
    hide Stale, Question, AboutToAsk, NodeInv;
  }

  lemma ClaimStillAsks(n: Node, tid: nat, g: Glance)
    ensures StillAsked(n, ClaimStep(n, tid, g))
  {
    var o := ClaimStep(n, tid, g);
    if o == Idle(n) {
      SameWorkersStillAsk(n, o);
    } else {
      SameWorkersStillAsk(n.(asked := o.node.asked), o);
      if g.job.CheckJob? {
        assert tid in o.node.workers && AboutToAsk(o.node, g.data.id);
      }
      hide AboutToAsk, Question;
    }
  }

  lemma StartStillAsks(n: Node, tid: nat, filebase: seq<byte>)
    requires WorkersInv(n) && GlancesInv(n)
    ensures StillAsked(n, StartStep(n, tid, filebase))
  {
    var o := StartStep(n, tid, filebase);
    if o == Idle(n) {
      SameWorkersStillAsk(n, o);
    } else {
      var w := n.workers[tid];
      assert forall t <- n.workers :: t != tid ==> t in o.node.workers && o.node.workers[t] == n.workers[t];
      forall g <- n.glances | g.job.SendJob? && AboutToAsk(n, g.data.id) && !AboutToAsk(o.node, g.data.id)
        ensures o.out == Some(Question(g.data))
      {
        var t :| && t in n.workers && n.workers[t].id == g.data.id
                 && n.workers[t].job.CheckJob? && n.workers[t].phase.Ready?;
        assert WorkerInv(n, w) && g.data == n.sent[g.data.id];
      }
    }
  }

  /** The other steps of a side leave the workers alone that have not asked yet, or forget everything. */
  predicate ReadyKept(n: Node, n': Node)
  {
    || n'.glances == {}
    || (n'.glances == n.glances && n'.asked == n.asked
        && forall t <- n.workers :: n.workers[t].phase.Ready? ==> t in n'.workers && n'.workers[t] == n.workers[t])
  }

  lemma ReadyWorkersKept(n: Node, e: Event)
    requires !e.Look? && !e.Claim? && !e.Start?
    ensures ReadyKept(n, LocalStep(n, e).node)
  {
    hide Settled, Sent, Deleted, Expired, AssertionFails;
  }

  lemma DeliveryKeepsReady(n: Node, kind: Kind, bytes: seq<byte>, files: Files)
    ensures ReadyKept(n, DeliverStep(n, kind, bytes, files).node)
  {
    assert ReadyKept(n, n) && ReadyKept(n, Restarted(n));
    match Receive(kind, bytes)
    case ToSlot(a) => MailKeepsReady(n, a);
    case ToReceiver(a) => ServingKeepsReady(n, a, files);
    case _ =>
    hide Receive, MailStep, ServeStep, ReadyKept, Restarted;
  }

  lemma MailKeepsReady(n: Node, a: Action)
    ensures ReadyKept(n, MailStep(n, a).node)
  {
  }

  lemma ServingKeepsReady(n: Node, a: Action, files: Files)
    ensures ReadyKept(n, ServeStep(n, a, files).node)
  {
    hide Received;
  }

  lemma KeptStillAsks(n: Node, o: Outcome)
    requires ReadyKept(n, o.node)
    ensures StillAsked(n, o)
  {
    hide AboutToAsk, Question;
    if o.node.glances != {} {
      SameWorkersStillAsk(n, o);
    }
  }

  lemma StepStillAsks(n: Node, e: Event)
    requires NodeInv(n)
    ensures StillAsked(n, LocalStep(n, e))
  {
    match e
    case Look(id) => LookStillAsks(n, id);
    case Claim(tid, g) => ClaimStillAsks(n, tid, g);
    case Start(tid, filebase) => StartStillAsks(n, tid, filebase);
    case _ =>
      ReadyWorkersKept(n, e);
      hide LocalStep, NodeInv, ReadyKept, StillAsked;
      KeptStillAsks(n, LocalStep(n, e));
  }

  lemma {:induction false} QuestionsOut(es: History, side: Side)
    ensures AskedInNet(Run(es), side)
  {
    if es != [] {
      var init, e := es[..|es| - 1], es[|es| - 1];
      QuestionsOut(init, side);
      RunInv(init);
      var s := Run(init);
      assert Run(es) == Step(s, e.0, e.1);
      assert NodeInv(s.At(e.0));
      hide Run, Inv, NodeInv, LocalStep, DeliverStep, StillAsked;
      StepAsks(s, e.0, e.1, side);
    }
  }

  lemma StepAsks(s: Sys, at: Side, e: Event, side: Side)
    requires NodeInv(s.At(at)) && AskedInNet(s, side)
    ensures AskedInNet(Step(s, at, e), side)
  {
    var o := StepAt(s, at, e);
    assert StillAsked(s.At(at), o) by {
      if e.Deliver? {
        DeliveryKeepsReady(s.At(at), e.packet.kind, e.packet.bytes, e.files);
        assert ReadyKept(s.At(at), s.At(at));
        hide DeliverStep, ReadyKept, StillAsked;
        KeptStillAsks(s.At(at), o);
      } else {
        StepStillAsks(s.At(at), e);
      }
    }
    hide NodeInv, StepAt, AboutToAsk, FrameBytes, Question;
    if at == side {
      assert forall g: Glance ::
          o.out == Some(Question(g.data)) ==> Sealed(Other(side), Question(g.data)) in Step(s, at, e).net;
    }
  }

  /** A sending worker can be started late for this message, which the other side has not received. */
  ghost predicate CanClaimLate(s: Sys, side: Side, tid: nat, g: Glance)
  {
    ClaimsLate(s.At(side), Claim(tid, g)) && g.data.id !in s.At(Other(side)).store.received
  }

  /** A check is answered truthfully. */
  lemma AnswerCheck(es: History, side: Side, m: Message) returns (to: History)
    requires Sealed(Other(side), Question(m)) in Run(es).net
    ensures es <= to && Run(to).At(side) == Run(es).At(side) && Run(to).At(Other(side)) == Run(es).At(Other(side))
    ensures Sealed(side, Verdict(m, m.id in Run(es).At(Other(side)).store.received)) in Run(to).net
  {
    assert Carried(Question(m));
    hide Run, Carried, FrameBytes;
    to := ExtendByPacket(es, Other(side), Question(m), SILENT);
  }

  lemma VerdictFits(g: Glance, exist: bool)
    ensures var r := Verdict(g.data, exist);
            r.IsResponse() && r.Positive() == exist && Carried(r) && r.Kind() == g.data.kind && r.Id() == g.data.id
  {
  }

  /** The other side's truthful "no" to the check, taken by the worker that came after it. */
  lemma NoToLateWorker(es: History, side: Side, tid: nat, g: Glance) returns (to: History)
    requires CanClaimLate(Run(es), side, tid, g)
    ensures es + [(side, Claim(tid, g))] <= to && Run(to).At(Other(side)) == Run(es).At(Other(side))
    ensures Run(to).At(side).store == Run(es).At(side).store && g.data.id in Run(to).At(side).late
    ensures var n := Run(to).At(side);
            tid in n.workers && n.workers[tid] == Asker(g).(phase := Answered(Verdict(g.data, false)))
  {
    QuestionsOut(es, side);
    NotedMessage(es, side, g);
    VerdictFits(g, false);
    hide Run, Carried, FrameBytes, Request, Verdict, Question, AboutToAsk;
    to := Ask(es, side, tid, g);
    to := AnswerCheck(to, side, g.data);
    to := Answer(to, side, tid, Asker(g), Verdict(g.data, false));
  }

  lemma NotedMessage(es: History, side: Side, g: Glance)
    requires g in Run(es).At(side).glances
    ensures var n := Run(es).At(side);
            forall id :: g.data.id == id ==> (AboutToAsk(n, id) ==> id in n.recorder)
  {
    RunInv(es);
    var n := Run(es).At(side);
    assert NodeInv(n);
    hide Run, Inv, WorkerInv;
  }

  /** From every reachable state in which a text can be claimed late and has not been received: it can come
      to be seen as reached, and still not have been received. */
  lemma LateClaimBreaksDelivery(es: History, side: Side, tid: nat, g: Glance) returns (to: History)
    requires CanClaimLate(Run(es), side, tid, g) && g.data.kind.TextKind?
    requires g.data.id in Run(es).At(side).store.dialogue
    ensures es + [(side, Claim(tid, g))] <= to && g.data.id in Run(to).At(side).late
    ensures var d := Run(to).At(side).store.dialogue; g.data.id in d && d[g.data.id].reached
    ensures g.data.id !in Run(to).At(Other(side)).store.received
  {
    to := NoToLateWorker(es, side, tid, g);
    hide Run;
    to := Conclude(to, side, tid, Asker(g).(phase := Answered(Verdict(g.data, false))));
  }

  /** The same for an image makes the sending worker fail on its type assertion. */
  lemma LateClaimPanics(es: History, side: Side, tid: nat, g: Glance) returns (to: History)
    requires CanClaimLate(Run(es), side, tid, g) && g.data.kind.ImageKind?
    ensures es + [(side, Claim(tid, g))] <= to
    ensures tid in Run(to).At(side).workers && AssertionFails(Run(to).At(side).workers[tid])
  {
    to := NoToLateWorker(es, side, tid, g);
  }

  /** A run in which a message comes to be seen as reached that was not received. */
  ghost predicate Lost(to: History, side: Side, id: uint64)
  {
    var n := Run(to).At(side);
    id in n.store.dialogue && n.store.dialogue[id].reached && id !in Run(to).At(Other(side)).store.received
  }

  /** The exact condition on a claim. In every reachable state, of a text that has not been received and that
      no late claim was made for so far: claiming it for a sending worker can lead to its loss, without
      any further late claim of it, if and only if a check of it was started before. */
  lemma ClaimIsSafeIff(es: History, side: Side, tid: nat, g: Glance)
    requires var n := Run(es).At(side);
             && g in n.glances && g.job.SendJob? && g.data.kind.TextKind?
             && tid !in n.workers && g.data.id !in n.recorder
             && g.data.id in n.store.dialogue && g.data.id !in n.late
    requires g.data.id !in Run(es).At(Other(side)).store.received
    ensures g.data.id in Run(es).At(side).asked <==>
            exists to: History ::
              && es + [(side, Claim(tid, g))] <= to && Lost(to, side, g.data.id)
              && (g.data.id in Run(to).At(side).late ==> g.data.id in Run(es + [(side, Claim(tid, g))]).At(side).late)
  {
    var id := g.data.id;
    var claimed := es + [(side, Claim(tid, g))];
    RunHistory(es, side, (side, Claim(tid, g)));
    assert id in Run(claimed).At(side).late <==> id in Run(es).At(side).asked;
    hide Run;
    if id in Run(es).At(side).asked {
      var to := LateClaimBreaksDelivery(es, side, tid, g);
      assert Lost(to, side, id);
    } else {
      forall to: History | claimed <= to && id !in Run(to).At(side).late ensures !Lost(to, side, id) {
        if Lost(to, side, id) {
          StaysOutgoing(es, to, side, g);
          EndToEnd(to, side, id);
        }
      }
    }
  }

  lemma StaysOutgoing(es: History, to: History, side: Side, g: Glance)
    requires es <= to && g in Run(es).At(side).glances && g.data.id in Run(es).At(side).store.dialogue
    requires g.data.id in Run(to).At(side).store.dialogue
    ensures var m := Run(to).At(side).store.dialogue[g.data.id]; m.initiator && m.kind == g.data.kind
  {
    RunInv(es);
    assert to == es + to[|es|..];
    NothingIsTakenBack(es, to[|es|..], side);
    var n := Run(es).At(side);
    assert NodeInv(n);
    hide Run, Inv, WorkersInv, SlotsInv;
  }

  /** A round looks at a message, and a later one does. */
  lemma LookTwice(es: History, side: Side, id: uint64, later: int) returns (to: History)
    requires var n := Run(es).At(side); id in Due(n.store) && n.now <= later
    ensures es <= to && Run(to).At(Other(side)) == Run(es).At(Other(side))
    ensures var n, n' := Run(es).At(side), Run(to).At(side);
            && n'.store == n.store && n'.now == later
            && GlanceAt(n.store.dialogue[id], n.now) in n'.glances
            && GlanceAt(n.store.dialogue[id], later) in n'.glances
  {
    hide Run, GlanceAt, Due;
    to := Look1(es, side, id);
    to := ExtendLocally(to, side, Tick(later));
    to := Look1(to, side, id);
  }

  /** A client gets there from every reachable state with a young due message: it looks at it, a check is
      started when it has become old, and given up. */
  lemma LateClaimComes(es: History, side: Side, id: uint64) returns (to: History, tid: nat, g: Glance)
    requires var n := Run(es).At(side); id in Due(n.store) && !Stale(n.store.dialogue[id], n.now)
    requires id !in Run(es).At(Other(side)).store.received
    ensures es <= to && g == Glance(Run(es).At(side).store.dialogue[id], SendJob) && g.data.id == id
    ensures CanClaimLate(Run(to), side, tid, g) && Run(to).At(side).store == Run(es).At(side).store
  {
    var m := Run(es).At(side).store.dialogue[id];
    var later := Run(es).At(side).now + SENDING_PERIOD + 1;
    DueMessage(es, side, id);
    g := Glance(m, SendJob);
    var check := Glance(m, CheckJob);
    assert GlanceAt(m, later) == check && GlanceAt(m, Run(es).At(side).now) == g;
    hide Run, Stale, GlanceAt, Request, FrameBytes;
    to := LookTwice(es, side, id, later);
    to := FreeUp(to, side, id);
    tid := Unused(Run(to).At(side).workers.Keys);
    to := Ask(to, side, tid, check);
    to := FreeUp(to, side, id);
    tid := Unused(Run(to).At(side).workers.Keys);
  }

  // ---- An image that was not received ----

  /** From every reachable state in which an image is due and young, its id free and nothing of it received:
      it can come to be seen as reached without having been received, although no claim is late. The first
      answer, a "no", delivered once more, is taken for the answer to the second request. */
  lemma ImageReachedNotReceived(es: History, side: Side, id: uint64) returns (to: History)
    requires var n := Run(es).At(side);
             id in Due(n.store) && n.store.dialogue[id].kind.ImageKind? && !Stale(n.store.dialogue[id], n.now)
    requires id !in Run(es).At(Other(side)).store.received
    ensures es <= to && Run(to).At(side).late == Run(es).At(side).late
    ensures var d := Run(to).At(side).store.dialogue; id in d && d[id].reached
    ensures id !in Run(to).At(Other(side)).store.received
  {
    var m := Run(es).At(side).store.dialogue[id];
    var w, no := Asker(Glance(m, SendJob)), Image(I.RespSyncHash(id, false, SILENT.subdir));
    DueMessage(es, side, id);
    I.NewReqSyncHashCarried(id, []);
    assert Request(w, []) == Image(I.NewReqSyncHash(id, [])) && Carried(no) && Carried(Request(w, []));
    assert MustSendBytes(w.(phase := Answered(no))) && !AssertionFails(w.(phase := Answered(no)));
    hide Run, Stale, Request, Carried, FrameBytes, I.NewReqSyncHash;
    var tid: nat;
    to, tid := AskAbout(es, side, id, []);
    to := RefuseImage(to, side, Request(w, []));
    to := Answer(to, side, tid, w, no);
    to := SecondNo(to, side, tid, w, no);
  }

  /** The worker that was told "no" asks again, and gets the same answer once more. */
  lemma SecondNo(es: History, side: Side, tid: nat, w: Worker, no: Action) returns (to: History)
    requires tid in Run(es).At(side).workers && Run(es).At(side).workers[tid] == w.(phase := Answered(no))
    requires MustSendBytes(w.(phase := Answered(no))) && !AssertionFails(w.(phase := Answered(no)))
    requires Sealed(side, no) in Run(es).net && Carried(no) && Slot(no.Kind(), no.Id()) == w.Place()
    ensures es <= to && Run(to).At(Other(side)) == Run(es).At(Other(side))
    ensures Run(to).At(side).store == Settled(Run(es).At(side).store, w.id, true)
    ensures Run(to).At(side).late == Run(es).At(side).late
  {
    var v := w.(second := true);
    assert !MustSendBytes(v.(phase := Answered(no))) && w.job.SendJob? && no.IsResponse();
    hide Run, Carried, FrameBytes, MustSendBytes, AssertionFails, Settled;
    to := AskAgain(es, side, tid, w, no, []);
    to := Answer(to, side, tid, v.(phase := Waiting(None)), no);
    to := Conclude(to, side, tid, v.(phase := Answered(no)));
  }

  /** An image is asked for that the other side has not. */
  lemma RefuseImage(es: History, side: Side, request: Action) returns (to: History)
    requires Sealed(Other(side), request) in Run(es).net
    requires Carried(request) && request.Image? && request.image.ReqSyncHash?
    ensures es <= to && Run(to).At(side) == Run(es).At(side) && Run(to).At(Other(side)) == Run(es).At(Other(side))
    ensures Sealed(side, Image(I.RespSyncHash(request.Id(), false, SILENT.subdir))) in Run(to).net
  {
    hide Run, Carried, FrameBytes;
    to := ExtendByPacket(es, Other(side), request, SILENT);
  }

  lemma AskAgain(es: History, side: Side, tid: nat, w: Worker, no: Action, content: seq<byte>) returns (to: History)
    requires |content| + HEADROOM <= MAX_INT
    requires tid in Run(es).At(side).workers && Run(es).At(side).workers[tid] == w.(phase := Answered(no))
    requires MustSendBytes(w.(phase := Answered(no))) && !AssertionFails(w.(phase := Answered(no)))
    ensures es <= to && Quietly(Run(es), Run(to), side)
    ensures WaitsAt(Run(to).At(side), tid, w.(second := true, phase := Waiting(None)))
    ensures Sealed(Other(side), Image(I.ReqSyncBytes(w.id, no.image.subdir, content))) in Run(to).net
  {
    hide Run, FrameBytes;
    to := ExtendLocally(es, side, Again(tid, content));
  }
}
