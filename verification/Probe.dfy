/** internal/client/service/probe.go: who may probe, and what the consumer of the status sees. */
module ProbeRunner {
  import opened Options

  /** A call of `Run`: it has cancelled the running probe and waits; it holds `runMU`; it has made its
      context; its goroutine is started. */
  datatype Call = Queued | Admitted | Armed(ctx: nat) | Started

  /** A probing goroutine: in its loop, past it, or about to unlock; it is named by its context. */
  datatype Probe = Probing | Leaving | Stopped

  datatype Mutex = Free | HeldByCall(call: nat) | HeldByProbe(ctx: nat)

  datatype State = State(
    runMU: Mutex,
    stopFunc: Option<nat>,     // the context that the stored function cancels, if any
    contexts: nat,             // how many contexts were made; they are named 0, 1, ...
    cancelled: set<nat>,
    calls: map<nat, Call>,
    probes: map<nat, Probe>,
    shutdown: bool)            // the context of the service itself is cancelled

  const INIT := State(Free, None, 0, {}, map[], map[], false)

  datatype Event =
    | Run(r: nat)
    | Lock(r: nat)
    | Arm(r: nat)
    | Spawn(r: nat)
    | Leave(c: nat)
    | StopOwn(c: nat)
    | Unlock(c: nat)
    | Stop
    | Shutdown

  /** `p.stopFunc()` under `stopFuncMU`. */
  function Stopped(s: State): State
  {
    match s.stopFunc
    case None => s
    case Some(c) => s.(cancelled := s.cancelled + {c})
  }

  /** What is not possible now changes nothing. A probe leaves its loop when its context is cancelled,
      or the one it derives from. */
  function Step(s: State, e: Event): State
  {
    match e
    case Run(r) => if r in s.calls then s else Stopped(s).(calls := s.calls[r := Queued])
    case Lock(r) =>
      if r in s.calls && s.calls[r].Queued? && s.runMU.Free?
      then s.(runMU := HeldByCall(r), calls := s.calls[r := Admitted]) else s
    case Arm(r) =>
      if r in s.calls && s.calls[r].Admitted?
      then s.(stopFunc := Some(s.contexts), contexts := s.contexts + 1, calls := s.calls[r := Armed(s.contexts)]) else s
    case Spawn(r) =>
      if r in s.calls && s.calls[r].Armed?
      then s.(runMU := HeldByProbe(s.calls[r].ctx), calls := s.calls[r := Started],
              probes := s.probes[s.calls[r].ctx := Probing]) else s
    case Leave(c) =>
      if c in s.probes && s.probes[c].Probing? && (c in s.cancelled || s.shutdown)
      then s.(probes := s.probes[c := Leaving]) else s
    case StopOwn(c) =>
      if c in s.probes && s.probes[c].Leaving? then Stopped(s).(probes := s.probes[c := Probe.Stopped]) else s
    case Unlock(c) =>
      if c in s.probes && s.probes[c].Stopped? then s.(runMU := Free, probes := s.probes - {c}) else s
    case Stop => Stopped(s)
    case Shutdown => s.(shutdown := true)
  }

  function RunAll(es: seq<Event>): State
  {
    if es == [] then INIT else Step(RunAll(es[..|es| - 1]), es[|es| - 1])
  }

  /** A context whose cancel function has not been called. */
  predicate Live(s: State, c: nat)
  {
    c < s.contexts && c !in s.cancelled
  }

  /** Whoever is past the lock holds it, and nobody else. */
  ghost predicate LockInv(s: State)
  {
    && (s.runMU.HeldByCall? ==>
          s.runMU.call in s.calls && (s.calls[s.runMU.call].Admitted? || s.calls[s.runMU.call].Armed?))
    && (s.runMU.HeldByProbe? ==> s.runMU.ctx in s.probes)
    && (forall r <- s.calls :: s.calls[r].Admitted? || s.calls[r].Armed? ==> s.runMU == HeldByCall(r))
    && (forall c <- s.probes :: s.runMU == HeldByProbe(c))
  }

  /** The stored function cancels the context of whoever holds the lock. */
  ghost predicate StopInv(s: State)
  {
    && (forall r <- s.calls :: s.calls[r].Armed? ==> s.stopFunc == Some(s.calls[r].ctx))
    && (forall c <- s.probes :: s.stopFunc == Some(c))
    && (s.stopFunc.Some? ==> s.stopFunc.value < s.contexts)
    && (forall c <- s.cancelled :: c < s.contexts)
  }

  /** A context is live only while it is the stored one, and never between two holders of the lock. */
  predicate LiveAs(s: State, c: nat)
  {
    && s.stopFunc == Some(c)
    && match s.runMU
       case Free => false
       case HeldByCall(r) => r in s.calls && s.calls[r] == Armed(c)
       case HeldByProbe(d) => d == c && c in s.probes && !s.probes[c].Stopped?
  }

  ghost predicate LiveInv(s: State)
  {
    forall c: nat :: Live(s, c) ==> LiveAs(s, c)
  }

  ghost predicate Inv(s: State)
  {
    LockInv(s) && StopInv(s) && LiveInv(s)
  }

  lemma {:induction false} RunInv(es: seq<Event>)
    ensures Inv(RunAll(es))
  {
    if es != [] {
      RunInv(es[..|es| - 1]);
      StepInv(RunAll(es[..|es| - 1]), es[|es| - 1]);
    }
  }

  lemma StepLock(s: State, e: Event)
    requires LockInv(s)
    ensures LockInv(Step(s, e))
  {
  }

  lemma StepStop(s: State, e: Event)
    requires LockInv(s) && StopInv(s)
    ensures StopInv(Step(s, e))
  {
  }

  lemma StepInv(s: State, e: Event)
    requires Inv(s)
    ensures Inv(Step(s, e))
  {
    var t := Step(s, e);
    StepLock(s, e);
    StepStop(s, e);
    forall c: nat | Live(t, c) ensures LiveAs(t, c) {
      assert Live(s, c) ==> LiveAs(s, c);
      hide LiveInv;
    }
  }

  /** At most one goroutine probes, and at most one context is live. */
  lemma Exclusive(es: seq<Event>, c: nat, d: nat)
    ensures c in RunAll(es).probes && d in RunAll(es).probes ==> c == d
    ensures Live(RunAll(es), c) && Live(RunAll(es), d) ==> c == d
  {
    RunInv(es);
    hide RunAll;
    assert Live(RunAll(es), c) ==> LiveAs(RunAll(es), c);
    assert Live(RunAll(es), d) ==> LiveAs(RunAll(es), d);
  }

  /** A probe that leaves stops itself: the function it calls cancels its own context and no other. */
  lemma StopsItself(es: seq<Event>, c: nat)
    requires c in RunAll(es).probes && RunAll(es).probes[c].Leaving?
    ensures RunAll(es + [StopOwn(c)]).cancelled == RunAll(es).cancelled + {c}
  {
    RunInv(es);
    assert (es + [StopOwn(c)])[..|es|] == es;
  }

  /** `Stop` leaves no context live, and neither does the start of another `Run`. */
  lemma StopLeavesNone(es: seq<Event>, e: Event, c: nat)
    requires e.Stop? || (e.Run? && e.r !in RunAll(es).calls)
    ensures !Live(RunAll(es + [e]), c)
  {
    RunInv(es);
    Unfold(es, e);
    hide RunAll;
    assert Live(RunAll(es), c) ==> LiveAs(RunAll(es), c);
  }

  lemma Unfold(es: seq<Event>, e: Event)
    ensures RunAll(es + [e]) == Step(RunAll(es), e)
  {
    assert (es + [e])[..|es|] == es;
  }

  /** A probe goes on until its context, or the service's, is cancelled. */
  lemma ProbesUntilCancelled(es: seq<Event>, e: Event, c: nat)
    requires c in RunAll(es).probes && RunAll(es).probes[c].Probing?
    ensures var s, t := RunAll(es), RunAll(es + [e]);
            (c in t.probes && t.probes[c].Probing?) <==> !(e == Leave(c) && (c in s.cancelled || s.shutdown))
  {
    RunInv(es);
    Unfold(es, e);
    hide RunAll, LiveInv;
  }

  /** When the service's context is cancelled, or its own, the running probe can leave, cancel its own context
      and free the lock. */
  lemma ProbeCanEnd(es: seq<Event>, e: Event, c: nat)
    requires c in RunAll(es).probes && RunAll(es).probes[c].Probing? && (e.Shutdown? || e.Stop?)
    ensures var t := RunAll(es + [e] + [Leave(c)] + [StopOwn(c)] + [Unlock(c)]);
            t.runMU.Free? && t.probes == map[] && c in t.cancelled
  {
    RunInv(es);
    Unfold(es, e);
    Unfold(es + [e], Leave(c));
    Unfold(es + [e] + [Leave(c)], StopOwn(c));
    Unfold(es + [e] + [Leave(c)] + [StopOwn(c)], Unlock(c));
    hide RunAll, LiveInv;
    assert forall d <- RunAll(es).probes :: d == c;
  }

  function Takeover(r: nat, c: nat): seq<Event>
  {
    [Run(r), Leave(c), StopOwn(c), Unlock(c), Lock(r), Arm(r), Spawn(r)]
  }

  /** From every reachable state in which no other call is between the lock and its goroutine: a new call of
      `Run` can end the running probe, if there is one, and then probes, with a new context that is live and
      the only one that is. */
  lemma RunProbes(es: seq<Event>, r: nat, c: nat)
    requires var s := RunAll(es); r !in s.calls && (s.runMU.Free? || s.runMU == HeldByProbe(c))
    ensures var s, t := RunAll(es), RunAll(es + Takeover(r, c));
            && t.probes == map[s.contexts := Probing] && r in t.calls && t.calls[r].Started?
            && t.runMU == HeldByProbe(s.contexts) && forall d :: Live(t, d) <==> d == s.contexts
  {
    RunInv(es);
    RunInv(es + Takeover(r, c));
    RunTakeover(es, r, c);
    hide RunAll;
    var s := RunAll(es);
    LeavesFree(s, r, c);
    var u := Step(Step(Step(Step(s, Run(r)), Leave(c)), StopOwn(c)), Unlock(c));
    hide Step;
    Starts(u, r);
    var t := RunAll(es + Takeover(r, c));
    forall d: nat ensures Live(t, d) <==> d == s.contexts {
      assert Live(t, d) ==> LiveAs(t, d);
    }
  }

  /** A probe that was told to stop leaves, and frees the lock. */
  lemma LeavesFree(s: State, r: nat, c: nat)
    requires Inv(s) && r !in s.calls && (s.runMU.Free? || s.runMU == HeldByProbe(c))
    ensures var u := Step(Step(Step(Step(s, Run(r)), Leave(c)), StopOwn(c)), Unlock(c));
            && u.runMU.Free? && u.probes == map[] && r in u.calls && u.calls[r].Queued?
            && u.contexts == s.contexts && (forall d <- u.cancelled :: d < s.contexts)
  {
  }

  lemma Starts(u: State, r: nat)
    requires u.runMU.Free? && u.probes == map[] && r in u.calls && u.calls[r].Queued?
    ensures var t := Step(Step(Step(u, Lock(r)), Arm(r)), Spawn(r));
            && t.probes == map[u.contexts := Probing] && r in t.calls && t.calls[r].Started?
            && t.runMU == HeldByProbe(u.contexts) && t.contexts == u.contexts + 1 && t.cancelled == u.cancelled
  {
  }

  lemma RunTakeover(es: seq<Event>, r: nat, c: nat)
    ensures RunAll(es + Takeover(r, c)) ==
            var u := Step(Step(Step(Step(RunAll(es), Run(r)), Leave(c)), StopOwn(c)), Unlock(c));
            Step(Step(Step(u, Lock(r)), Arm(r)), Spawn(r))
  {
    var e1 := es + [Run(r)];
    var e2 := e1 + [Leave(c)];
    var e3 := e2 + [StopOwn(c)];
    var e4 := e3 + [Unlock(c)];
    var e5 := e4 + [Lock(r)];
    var e6 := e5 + [Arm(r)];
    assert es + Takeover(r, c) == e6 + [Spawn(r)];
    Unfold(es, Run(r));
    Unfold(e1, Leave(c));
    Unfold(e2, StopOwn(c));
    Unfold(e3, Unlock(c));
    Unfold(e4, Lock(r));
    Unfold(e5, Arm(r));
    Unfold(e6, Spawn(r));
    hide RunAll, Step;
  }
}

/** The one-slot channel that `Run` returns, between the `update` closure and any consumer. */
module ProbeMailbox {
  import opened Options

  datatype Status = Off | Relay | Direct

  /** The producer is between two updates, or has emptied the slot and is about to fill it. */
  datatype Producer = Resting | Replacing(stat: Status)

  datatype State = State(
    slot: Option<Status>,
    producer: Producer,
    history: seq<Status>,  // every status the probe has had; the last is the captured variable
    seen: seq<Status>)     // what the consumer has received

  const INIT := State(Some(Off), Resting, [Off], [])

  datatype Event = Update(stat: Status) | Fill | Consume

  /** The `select` sends into an empty slot; a full one it empties first, to send then. */
  function Step(s: State, e: Event): State
  {
    match e
    case Update(stat) =>
      if !s.producer.Resting? || s.history == [] || s.history[|s.history| - 1] == stat then s
      else if s.slot.None? then s.(slot := Some(stat), history := s.history + [stat])
      else s.(slot := None, history := s.history + [stat], producer := Replacing(stat))
    case Fill =>
      if s.producer.Replacing? && s.slot.None? then s.(slot := Some(s.producer.stat), producer := Resting) else s
    case Consume =>
      if s.slot.Some? then s.(slot := None, seen := s.seen + [s.slot.value]) else s
  }

  function RunAll(es: seq<Event>): State
  {
    if es == [] then INIT else Step(RunAll(es[..|es| - 1]), es[|es| - 1])
  }

  /** `a` is `b` with some elements left out. */
  predicate Subsequence(a: seq<Status>, b: seq<Status>)
  {
    if a == [] then true
    else if b == [] then false
    else (a[|a| - 1] == b[|b| - 1] && Subsequence(a[..|a| - 1], b[..|b| - 1])) || Subsequence(a, b[..|b| - 1])
  }

  lemma SubsequenceExtends(a: seq<Status>, b: seq<Status>, x: Status)
    requires Subsequence(a, b)
    ensures Subsequence(a, b + [x]) && Subsequence(a + [x], b + [x])
  {
    assert (b + [x])[..|b|] == b && (a + [x])[..|a|] == a;
  }

  /** The value on its way to the consumer. */
  function Pending(s: State): Option<Status>
  {
    if s.producer.Replacing? then Some(s.producer.stat) else s.slot
  }

  ghost predicate Inv(s: State)
  {
    && s.history != []
    && (s.producer.Replacing? ==> s.slot.None?)
    && (match Pending(s)
        case Some(v) =>
          v == s.history[|s.history| - 1] && Subsequence(s.seen, s.history[..|s.history| - 1])
        case None =>
          s.seen != [] && s.seen[|s.seen| - 1] == s.history[|s.history| - 1] && Subsequence(s.seen, s.history))
  }

  lemma StepInv(s: State, e: Event)
    requires Inv(s)
    ensures Inv(Step(s, e))
  {
    var init, last := s.history[..|s.history| - 1], s.history[|s.history| - 1];
    assert s.history == init + [last];
    if Pending(s).Some? {
      SubsequenceExtends(s.seen, init, last);
    }
    hide Subsequence;
    match e
    case Update(stat) =>
      assert (s.history + [stat])[..|s.history|] == s.history;
    case Fill =>
    case Consume =>
  }

  lemma {:induction false} RunInv(es: seq<Event>)
    ensures Inv(RunAll(es))
  {
    if es != [] {
      RunInv(es[..|es| - 1]);
      StepInv(RunAll(es[..|es| - 1]), es[|es| - 1]);
    }
  }

  /** Whatever the consumer does and when: an update never blocks, for the slot it has emptied stays
      empty until it fills it; the consumer sees a subsequence of the statuses; and the newest status is
      in the slot, or about to be put there, or the last one consumed. */
  lemma ConsumerSees(es: seq<Event>)
    ensures var s := RunAll(es); s.producer.Replacing? ==> RunAll(es + [Fill]).producer.Resting?
    ensures var s := RunAll(es); Subsequence(s.seen, s.history)
    ensures var s := RunAll(es);
            s.history != []
            && (Pending(s) == Some(s.history[|s.history| - 1])
                || (Pending(s) == None && s.seen != [] && s.seen[|s.seen| - 1] == s.history[|s.history| - 1]))
  {
    RunInv(es);
    assert (es + [Fill])[..|es|] == es;
    var s := RunAll(es);
    var init, last := s.history[..|s.history| - 1], s.history[|s.history| - 1];
    assert s.history == init + [last];
    if Pending(s).Some? {
      SubsequenceExtends(s.seen, init, last);
    }
  }

  // ---- The history, by the events ----

  /** What the probing loop calls `update` with, in order. */
  function Updates(es: seq<Event>): seq<Status>
  {
    if es == [] then []
    else
      var init, e := es[..|es| - 1], es[|es| - 1];
      Updates(init) + if e.Update? && RunAll(init).producer.Resting? then [e.stat] else []
  }

  /** A list without immediate repeats. */
  function WithoutRepeats(xs: seq<Status>): (r: seq<Status>)
    ensures |xs| > 0 ==> |r| > 0 && r[0] == xs[0] && r[|r| - 1] == xs[|xs| - 1]
    ensures forall i :: 0 <= i < |r| - 1 ==> r[i] != r[i + 1]
    ensures (forall i :: 0 <= i < |xs| - 1 ==> xs[i] != xs[i + 1]) ==> r == xs
  {
    if |xs| <= 1 then xs
    else
      var r := WithoutRepeats(xs[..|xs| - 1]);
      assert r == [] || r[|r| - 1] == xs[|xs| - 2];
      if xs[|xs| - 1] == xs[|xs| - 2] then r else r + [xs[|xs| - 1]]
  }

  lemma WithoutRepeatsMore(xs: seq<Status>, x: Status)
    requires xs != []
    ensures WithoutRepeats(xs + [x]) == WithoutRepeats(xs) + if x == xs[|xs| - 1] then [] else [x]
  {
    assert (xs + [x])[..|xs|] == xs;
  }

  lemma HistoryStep(s: State, e: Event, xs: seq<Status>)
    requires xs != [] && s.history == WithoutRepeats(xs)
    ensures Step(s, e).history == WithoutRepeats(xs + if e.Update? && s.producer.Resting? then [e.stat] else [])
  {
    assert s.history[|s.history| - 1] == xs[|xs| - 1];
    assert xs + [] == xs;
    if e.Update? {
      WithoutRepeatsMore(xs, e.stat);
    }
    hide WithoutRepeats;
  }

  /** The statuses of a run are those the loop reported, after the first one, without immediate repeats. */
  lemma {:induction false} HistoryIs(es: seq<Event>)
    ensures RunAll(es).history == WithoutRepeats([Off] + Updates(es))
  {
    if es == [] {
      assert [Off] + Updates(es) == [Off];
    } else {
      var init, e := es[..|es| - 1], es[|es| - 1];
      HistoryIs(init);
      assert RunAll(es) == Step(RunAll(init), e);
      hide RunAll, WithoutRepeats, Step;
      HistoryStep(RunAll(init), e, [Off] + Updates(init));
      var more := if e.Update? && RunAll(init).producer.Resting? then [e.stat] else [];
      assert [Off] + Updates(es) == [Off] + Updates(init) + more;
    }
  }

  lemma UnfoldRun(es: seq<Event>, e: Event)
    ensures RunAll(es + [e]) == Step(RunAll(es), e)
  {
    assert (es + [e])[..|es|] == es;
  }

  /** No two neighbours in the history are equal, and an update with the status that was reported last changes
      nothing: not the slot, and not what is seen. */
  lemma NoRepeats(es: seq<Event>, stat: Status)
    ensures var h := RunAll(es).history; h != [] && forall i :: 0 <= i < |h| - 1 ==> h[i] != h[i + 1]
    ensures RunAll(es).producer.Resting? && stat == ([Off] + Updates(es))[|Updates(es)|] ==>
              RunAll(es + [Update(stat)]) == RunAll(es)
  {
    HistoryIs(es);
    UnfoldRun(es, Update(stat));
    hide RunAll, Updates, Step;
    if RunAll(es).producer.Resting? && stat == ([Off] + Updates(es))[|Updates(es)|] {
      SameStatus(RunAll(es), stat);
    }
  }

  lemma SameStatus(s: State, stat: Status)
    requires s.history != [] && s.history[|s.history| - 1] == stat
    ensures Step(s, Update(stat)) == s
  {
  }

  /** The consumer gets the newest status, once: if the update in progress is finished and the slot is then
      emptied, the last thing seen is the status reported last, and there is nothing more to see. */
  lemma NewestArrives(es: seq<Event>)
    ensures var s, t := RunAll(es), RunAll(es + [Fill] + [Consume]);
            && t.seen == s.seen + (if Pending(s).Some? then [Pending(s).value] else [])
            && t.seen != [] && t.seen[|t.seen| - 1] == ([Off] + Updates(es))[|Updates(es)|]
            && t.slot.None? && RunAll(es + [Fill] + [Consume] + [Consume]) == t
  {
    HistoryIs(es);
    RunInv(es);
    UnfoldRun(es, Fill);
    UnfoldRun(es + [Fill], Consume);
    UnfoldRun(es + [Fill] + [Consume], Consume);
    hide RunAll, Updates, Subsequence;
    var s := RunAll(es);
    var xs := [Off] + Updates(es);
    assert s.history[|s.history| - 1] == xs[|xs| - 1];
  }
}
