/** Two clients that send each other messages, as internal/client/service/message.go runs them: the
    transactions of MessageStore, the workers of `AsyncSend`, and a network that loses, repeats and
    reorders frames. One event is one atomic step of one side. */
module Delivery {
  import opened Bytes
  import opened Options
  import opened FrameFormat
  import opened Wire
  import opened Buckets
  import opened MessageStore
  import T = TextTypes
  import I = ImageTypes

  // ---- One client ----

  datatype Job = SendJob | CheckJob

  /** How far a worker's goroutine has come with its (first or second) request. */
  datatype Phase = Ready | Waiting(mail: Option<Action>) | Answered(answer: Action) | Finished

  datatype Worker = Worker(id: uint64, job: Job, data: Message, second: bool, phase: Phase)
  {
    function Place(): Slot { Slot(data.kind, id) }
  }

  /** What a round of `AsyncSend` has noted about a due message, and will act on later. */
  datatype Glance = Glance(data: Message, job: Job)

  /** A key of the result map of one of the two protocols. */
  datatype Slot = Slot(kind: Kind, id: uint64)

  /** The state of a client towards the other one. The last six fields are history: what the program
      does never depends on them. */
  datatype Node = Node(
    store: Store,
    now: int,
    glances: set<Glance>,
    recorder: set<uint64>,
    workers: map<nat, Worker>,
    slots: map<Slot, nat>,
    sent: map<uint64, Message>,      // every message ever sent, as it was stored at first
    asked: set<uint64>,              // the ids a checking worker was ever started for
    arrivals: map<uint64, Message>,  // for a text request, the entry last made for it
    removed: set<uint64>,            // the ids deleted from the dialogue
    late: set<uint64>,               // the ids a sending worker was started for after a check
    misled: set<uint64>)             // the ids a sending worker committed on a negative answer

  const FRESH := Node(Store(0, map[], {}, {}), 0, {}, {}, map[], map[], map[], {}, map[], {}, {}, {})

  /** The room a text action needs beside its content. */
  const HEADROOM: nat := 19

  /** `time.Now().Format("2006/01")` */
  const SUBDIR_SIZE: nat := 7

  /** What the file system answers to an image request: the file is there with the right hash, or
      could be written; its name; and the directory assigned to new images. */
  datatype Files = Files(good: bool, filename: seq<byte>, subdir: seq<byte>)

  datatype Event =
    | Tick(t: int)
    | Send(kind: Kind, payload: seq<byte>, ttl: int64)
    | Delete(ids: set<uint64>)
    | Expire(id: uint64)
    | Look(id: uint64)
    | Claim(tid: nat, glance: Glance)
    | Start(tid: nat, filebase: seq<byte>)
    | Take(tid: nat)
    | GiveUp(tid: nat)
    | Again(tid: nat, content: seq<byte>)
    | Commit(tid: nat)
    | Abort(tid: nat)
    | Release(tid: nat)
    | Restart
    | Deliver(packet: Packet, files: Files)

  /** A step's result: the new state, and at most one action for the other side. */
  datatype Outcome = Outcome(node: Node, out: Option<Action>)

  /** An event that is not possible now changes nothing. */
  function Idle(n: Node): Outcome { Outcome(n, None) }

  function TickStep(n: Node, t: int): Outcome
  {
    if t < n.now then Idle(n) else Outcome(n.(now := t), None)
  }

  function SendStep(n: Node, kind: Kind, payload: seq<byte>, ttl: int64): Outcome
  {
    if n.store.sequence == LAST_ID || |payload| + HEADROOM > MAX_INT then Idle(n)
    else
      var store := Sent(n.store, kind, payload, ttl, n.now);
      Outcome(n.(store := store, sent := n.sent[store.sequence := store.dialogue[store.sequence]]), None)
  }

  function DeleteStep(n: Node, ids: set<uint64>): Outcome
  {
    Outcome(n.(store := Deleted(n.store, ids), removed := n.removed + n.store.dialogue.Keys * ids), None)
  }

  function ExpireStep(n: Node, id: uint64): Outcome
  {
    Outcome(n.(store := Expired(n.store, id), removed := n.removed + n.store.dialogue.Keys * {id}), None)
  }

  function GlanceAt(m: Message, now: int): Glance
  {
    Glance(m, if Stale(m, now) then CheckJob else SendJob)
  }

  /** The read transaction of a round comes across one due message. Any number of rounds may see the
      same at the same time, so a note stays. */
  function LookStep(n: Node, id: uint64): Outcome
  {
    if id !in Due(n.store) then Idle(n)
    else Outcome(n.(glances := n.glances + {GlanceAt(n.store.dialogue[id], n.now)}), None)
  }

  /** `LoadOrStore` for a message that was looked at, now or long ago. */
  function ClaimStep(n: Node, tid: nat, g: Glance): Outcome
  {
    var id := g.data.id;
    if tid in n.workers || g !in n.glances || id in n.recorder then Idle(n)
    else
      Outcome(n.(recorder := n.recorder + {id},
                 workers := n.workers[tid := Worker(id, g.job, g.data, false, Ready)],
                 asked := if g.job.CheckJob? then n.asked + {id} else n.asked,
                 late := if g.job.SendJob? && id in n.asked then n.late + {id} else n.late), None)
  }

  function Request(w: Worker, filebase: seq<byte>): Action
  {
    match (w.job, w.data.kind)
    case (CheckJob, TextKind) => Text(T.ReqExistence(w.id))
    case (CheckJob, ImageKind) => Image(I.ReqExistence(w.id))
    case (SendJob, TextKind) => Text(T.ReqSyncText(w.id, ToUint64(w.data.ttl), w.data.payload))
    case (SendJob, ImageKind) => Image(I.NewReqSyncHash(w.id, filebase))
  }

  /** `Request` registers a channel under the id, and the request goes out. */
  function Asking(n: Node, tid: nat, w: Worker, request: Action): Outcome
  {
    Outcome(n.(workers := n.workers[tid := w.(phase := Waiting(None))],
               slots := n.slots[w.Place() := tid]), Some(request))
  }

  function StartStep(n: Node, tid: nat, filebase: seq<byte>): Outcome
  {
    if tid !in n.workers || n.workers[tid].phase != Ready || |filebase| + HEADROOM > MAX_INT then Idle(n)
    else Asking(n, tid, n.workers[tid], Request(n.workers[tid], filebase))
  }

  /** `Request` returns, with an answer or an error, and its deferred delete frees the slot. */
  function Returned(n: Node, tid: nat, phase: Phase): Node
    requires tid in n.workers
  {
    n.(workers := n.workers[tid := n.workers[tid].(phase := phase)], slots := n.slots - {n.workers[tid].Place()})
  }

  function TakeStep(n: Node, tid: nat): Outcome
  {
    if tid !in n.workers || !n.workers[tid].phase.Waiting? || n.workers[tid].phase.mail.None? then Idle(n)
    else Outcome(Returned(n, tid, Answered(n.workers[tid].phase.mail.value)), None)
  }

  function GiveUpStep(n: Node, tid: nat): Outcome
  {
    if tid !in n.workers || !n.workers[tid].phase.Waiting? then Idle(n)
    else Outcome(Returned(n, tid, Finished), None)
  }

  /** What is in memory is gone; the store and the clock are not. */
  function Restarted(n: Node): Node
  {
    n.(glances := {}, recorder := {}, workers := map[], slots := map[])
  }

  /** A worker that sends an image and was answered that the other side lacks it. */
  predicate MustSendBytes(w: Worker)
  {
    w.job.SendJob? && w.data.kind.ImageKind? && !w.second && w.phase.Answered?
    && w.phase.answer.IsResponse() && !w.phase.answer.Positive()
  }

  /** The type assertion in the sending worker fails. */
  predicate AssertionFails(w: Worker)
  {
    MustSendBytes(w) && !(w.phase.answer.Image? && w.phase.answer.image.RespSyncHash?)
  }

  function AgainStep(n: Node, tid: nat, content: seq<byte>): Outcome
  {
    if tid !in n.workers || !MustSendBytes(n.workers[tid]) || |content| + HEADROOM > MAX_INT then Idle(n)
    else if AssertionFails(n.workers[tid]) then Outcome(Restarted(n), None)
    else
      var w := n.workers[tid];
      Asking(n, tid, w.(second := true), Image(I.ReqSyncBytes(w.id, w.phase.answer.image.subdir, content)))
  }

  /** What an answer makes of the message: a check believes it, a send takes any for success. */
  function CommitStep(n: Node, tid: nat): Outcome
  {
    if tid !in n.workers || !n.workers[tid].phase.Answered? || !n.workers[tid].phase.answer.IsResponse()
       || MustSendBytes(n.workers[tid])
    then Idle(n)
    else
      var w := n.workers[tid];
      Outcome(n.(store := Settled(n.store, w.id, w.job.SendJob? || w.phase.answer.Positive()),
                 workers := n.workers[tid := w.(phase := Finished)],
                 misled := if w.job.SendJob? && !w.phase.answer.Positive() then n.misled + {w.id} else n.misled), None)
  }

  /** The image file cannot be read, or the transaction fails. */
  function AbortStep(n: Node, tid: nat): Outcome
  {
    if tid !in n.workers || !n.workers[tid].phase.Answered? then Idle(n)
    else Outcome(n.(workers := n.workers[tid := n.workers[tid].(phase := Finished)]), None)
  }

  function ReleaseStep(n: Node, tid: nat): Outcome
  {
    if tid !in n.workers || n.workers[tid].phase != Finished then Idle(n)
    else Outcome(n.(workers := n.workers - {tid}, recorder := n.recorder - {n.workers[tid].id}), None)
  }

  /** A response is put into the channel of its id, if there is one and it is empty. */
  function MailStep(n: Node, a: Action): Outcome
  {
    var slot := Slot(a.Kind(), a.Id());
    if slot in n.slots && n.slots[slot] in n.workers && n.workers[n.slots[slot]].phase == Waiting(None) then
      var tid := n.slots[slot];
      Outcome(n.(workers := n.workers[tid := n.workers[tid].(phase := Waiting(Some(a)))]), None)
    else Idle(n)
  }

  function ReceiveStep(n: Node, request: uint64, kind: Kind, payload: seq<byte>, ttl: int64, answer: Action): Outcome
  {
    if n.store.sequence == LAST_ID then Idle(n)
    else
      var store := Received(n.store, request, kind, payload, ttl, n.now);
      Outcome(n.(store := store,
                 arrivals := if kind.TextKind? then n.arrivals[request := store.dialogue[store.sequence]]
                             else n.arrivals), Some(answer))
  }

  /** The `receive` loop on one request. */
  function ServeStep(n: Node, a: Action, files: Files): Outcome
  {
    match a
    case Text(ReqSyncText(id, ttl, content)) =>
      ReceiveStep(n, id, TextKind, content, ToInt64(ttl), Text(T.RespSyncText(id, true)))
    case Text(ReqExistence(id)) =>
      Outcome(n, Some(Text(T.RespExistence(id, id in n.store.received))))
    case Image(ReqSyncHash(id, _, _)) =>
      if files.good then ReceiveStep(n, id, ImageKind, files.filename, 0, Image(I.RespSyncHash(id, true, [])))
      else Outcome(n, Some(Image(I.RespSyncHash(id, false, files.subdir))))
    case Image(ReqSyncBytes(id, _, _)) =>
      if files.good then ReceiveStep(n, id, ImageKind, files.filename, 0, Image(I.RespSyncBytes(id, true)))
      else Idle(n)
    case Image(ReqExistence(id)) =>
      Outcome(n, Some(Image(I.RespExistence(id, id in n.store.received))))
    case _ => Idle(n)
  }

  function DeliverStep(n: Node, kind: Kind, bytes: seq<byte>, files: Files): Outcome
  {
    if |files.subdir| != SUBDIR_SIZE then Idle(n)
    else
      match Receive(kind, bytes)
      case Crash => Outcome(Restarted(n), None)
      case Nowhere => Idle(n)
      case ToSlot(a) => MailStep(n, a)
      case ToReceiver(a) => ServeStep(n, a, files)
  }

  /** The steps that take nothing from the network. */
  function LocalStep(n: Node, e: Event): Outcome
  {
    match e
    case Tick(t) => TickStep(n, t)
    case Send(kind, payload, ttl) => SendStep(n, kind, payload, ttl)
    case Delete(ids) => DeleteStep(n, ids)
    case Expire(id) => ExpireStep(n, id)
    case Look(id) => LookStep(n, id)
    case Claim(tid, g) => ClaimStep(n, tid, g)
    case Start(tid, filebase) => StartStep(n, tid, filebase)
    case Take(tid) => TakeStep(n, tid)
    case GiveUp(tid) => GiveUpStep(n, tid)
    case Again(tid, content) => AgainStep(n, tid, content)
    case Commit(tid) => CommitStep(n, tid)
    case Abort(tid) => AbortStep(n, tid)
    case Release(tid) => ReleaseStep(n, tid)
    case Restart => Outcome(Restarted(n), None)
    case Deliver(_, _) => Idle(n)
  }

  // ---- Two clients and the network ----

  datatype Side = A | B

  function Other(side: Side): Side { if side.A? then B else A }

  /** Bytes on the way to one side, on the streams of one protocol. */
  datatype Packet = Packet(to: Side, kind: Kind, bytes: seq<byte>)

  /** `net` is everything ever written; a packet may be delivered any number of times, or never. */
  datatype Sys = Sys(a: Node, b: Node, net: set<Packet>)
  {
    function At(side: Side): Node { if side.A? then a else b }
  }

  const INIT := Sys(FRESH, FRESH, {})

  function Put(s: Sys, side: Side, o: Outcome): Sys
  {
    var net := if o.out.None? then s.net
               else s.net + {Packet(Other(side), o.out.value.Kind(), FrameBytes(o.out.value))};
    if side.A? then Sys(o.node, s.b, net) else Sys(s.a, o.node, net)
  }

  function StepAt(s: Sys, side: Side, e: Event): Outcome
  {
    if e.Deliver? then
      if e.packet in s.net && e.packet.to == side
      then DeliverStep(s.At(side), e.packet.kind, e.packet.bytes, e.files)
      else Idle(s.At(side))
    else LocalStep(s.At(side), e)
  }

  function Step(s: Sys, side: Side, e: Event): Sys
  {
    Put(s, side, StepAt(s, side, e))
  }

  function Run(es: seq<(Side, Event)>): Sys
  {
    if es == [] then INIT else Step(Run(es[..|es| - 1]), es[|es| - 1].0, es[|es| - 1].1)
  }
}
