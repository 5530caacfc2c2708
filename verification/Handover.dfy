/** The stopper of cmd/client/mobile/main.go: how `SDK.Init` and `SDK.Close` pass cancel functions on,
    so that the client started last is the only one left running. */
module Handover {
  import opened Options

  /** A call of `Init` is in its loop, possibly with a drained function it is about to call, or past it.
      A call of `Close` may hold one. A cancel function is named by the `Init` that made it. */
  datatype Init = Looping(drained: Option<nat>) | Placed

  datatype State = State(
    stopper: Option<nat>,          // the channel with one slot
    inits: map<nat, Init>,
    closes: map<nat, nat>,         // the functions that calls of `Close` are about to call
    cancelled: set<nat>)

  const INIT := State(None, map[], map[], {})

  datatype Event =
    | Enter(i: nat)
    | Put(i: nat)
    | Drain(i: nat)
    | StopOld(i: nat)
    | CloseTake(c: nat)
    | CloseStop(c: nat)
    | Finish(i: nat)

  /** The client a call of `Init` started ends by itself; its deferred cancel is called. What is not
      possible now changes nothing. */
  function Step(s: State, e: Event): State
  {
    match e
    case Enter(i) => if i in s.inits then s else s.(inits := s.inits[i := Looping(None)])
    case Put(i) =>
      if i in s.inits && s.inits[i] == Looping(None) && s.stopper.None?
      then s.(stopper := Some(i), inits := s.inits[i := Placed]) else s
    case Drain(i) =>
      if i in s.inits && s.inits[i] == Looping(None) && s.stopper.Some?
      then s.(stopper := None, inits := s.inits[i := Looping(s.stopper)]) else s
    case StopOld(i) =>
      if i in s.inits && s.inits[i].Looping? && s.inits[i].drained.Some?
      then s.(cancelled := s.cancelled + {s.inits[i].drained.value}, inits := s.inits[i := Looping(None)]) else s
    case CloseTake(c) =>
      if c !in s.closes && s.stopper.Some?
      then s.(stopper := None, closes := s.closes[c := s.stopper.value]) else s
    case CloseStop(c) =>
      if c in s.closes
      then s.(cancelled := s.cancelled + {s.closes[c]}, closes := s.closes - {c}) else s
    case Finish(i) =>
      if i in s.inits && s.inits[i].Placed? then s.(cancelled := s.cancelled + {i}) else s
  }

  function Run(es: seq<Event>): State
  {
    if es == [] then INIT else Step(Run(es[..|es| - 1]), es[|es| - 1])
  }

  /** A context that was made and whose cancel function was not called. */
  predicate Live(s: State, i: nat)
  {
    i in s.inits && i !in s.cancelled
  }

  /** Where a live context's function is. */
  datatype Place = OwnLoop | Channel | InLoopOf(i: nat) | InCloseOf(c: nat)

  ghost predicate HeldAt(s: State, f: nat, p: Place)
  {
    match p
    case OwnLoop => f in s.inits && s.inits[f].Looping?
    case Channel => s.stopper == Some(f)
    case InLoopOf(i) => i in s.inits && s.inits[i] == Looping(Some(f))
    case InCloseOf(c) => c in s.closes && s.closes[c] == f
  }

  /** Nothing is lost: a function that was not called is somewhere. */
  ghost predicate NothingLost(s: State)
  {
    forall f <- s.inits :: f !in s.cancelled ==> exists p :: HeldAt(s, f, p)
  }

  /** Nothing is in two places, and only functions that were made are anywhere. */
  ghost predicate OnePlace(s: State)
  {
    && (forall f, p, q :: HeldAt(s, f, p) && HeldAt(s, f, q) ==> p == q)
    && (forall f, p :: HeldAt(s, f, p) ==> f in s.inits)
  }

  lemma StepLosesNothing(s: State, e: Event)
    requires NothingLost(s)
    ensures NothingLost(Step(s, e))
  {
    var t := Step(s, e);
    forall f <- t.inits | f !in t.cancelled
      ensures exists p :: HeldAt(t, f, p)
    {
      if f !in s.inits {
        assert HeldAt(t, f, OwnLoop);
      } else {
        var p :| HeldAt(s, f, p);
        assert HeldAt(t, f, After(s, e, f, p));
      }
    }
  }

  /** Where a function is after a step that does not call it, and where it was before. */
  function After(s: State, e: Event, f: nat, p: Place): Place
  {
    if Step(s, e) == s then p
    else match e
      case Put(i) => if p == OwnLoop && f == i then Channel else p
      case Drain(i) => if p == Channel then InLoopOf(i) else p
      case CloseTake(c) => if p == Channel then InCloseOf(c) else p
      case _ => p
  }

  function Before(s: State, e: Event, p: Place): Place
  {
    if Step(s, e) == s then p
    else match e
      case Put(i) => if p == Channel then OwnLoop else p
      case Drain(i) => if p == InLoopOf(i) then Channel else p
      case CloseTake(c) => if p == InCloseOf(c) then Channel else p
      case _ => p
  }

  lemma WasHeld(s: State, e: Event, f: nat, p: Place)
    requires OnePlace(s) && HeldAt(Step(s, e), f, p)
    ensures f in Step(s, e).inits
    ensures if f in s.inits then HeldAt(s, f, Before(s, e, p)) else p == OwnLoop
  {
    if f !in s.inits {
      assert forall q :: !HeldAt(s, f, q);
      assert !HeldAt(s, f, p) && !HeldAt(s, f, Channel);
    }
  }

  lemma StepOnePlace(s: State, e: Event)
    requires OnePlace(s)
    ensures OnePlace(Step(s, e))
  {
    var t := Step(s, e);
    forall f, p, q | HeldAt(t, f, p) && HeldAt(t, f, q)
      ensures p == q
    {
      WasHeld(s, e, f, p);
      WasHeld(s, e, f, q);
      if f in s.inits {
        assert Before(s, e, p) == Before(s, e, q);
      }
    }
    forall f, p | HeldAt(t, f, p) ensures f in t.inits {
      WasHeld(s, e, f, p);
    }
  }

  /** In every run each cancel function has been called, or is in exactly one place: the loop of the
      `Init` that made it, the channel, or the hands of the call that took it out. */
  lemma {:induction false} Conservation(es: seq<Event>)
    ensures NothingLost(Run(es)) && OnePlace(Run(es))
  {
    if es != [] {
      Conservation(es[..|es| - 1]);
      StepLosesNothing(Run(es[..|es| - 1]), es[|es| - 1]);
      StepOnePlace(Run(es[..|es| - 1]), es[|es| - 1]);
      hide NothingLost, OnePlace, Step;
    }
  }

  /** No call is under way. */
  predicate Quiet(s: State)
  {
    s.closes == map[] && forall i <- s.inits :: s.inits[i].Placed?
  }

  /** With no call under way, no context is live but the one whose function is in the channel; and a
      `Close` then leaves none. */
  lemma AtMostOneLive(es: seq<Event>, c: nat, f: nat)
    requires Quiet(Run(es))
    ensures Live(Run(es), f) ==> Run(es).stopper == Some(f)
    ensures !Live(Run(es + [CloseTake(c)] + [CloseStop(c)]), f)
  {
    Conservation(es);
    var s := Run(es);
    if Live(s, f) {
      var p :| HeldAt(s, f, p);
    }
    var e1, e2 := es + [CloseTake(c)], es + [CloseTake(c)] + [CloseStop(c)];
    assert e1[..|e1| - 1] == es && e2[..|e2| - 1] == e1;
    assert Run(e1) == Step(s, CloseTake(c)) && Run(e2) == Step(Run(e1), CloseStop(c));
  }

  lemma Unfold(es: seq<Event>, e: Event)
    ensures Run(es + [e]) == Step(Run(es), e)
  {
    assert (es + [e])[..|es|] == es;
  }

  /** From every reachable state a call of `Init` in its loop can come to its end in at most four steps of its
      own: its function is then in the channel, and the one that was there, and the one it held, have been
      called, and no others. */
  lemma InitFinishes(es: seq<Event>, i: nat)
    requires i in Run(es).inits && Run(es).inits[i].Looping?
    ensures var s, t := Run(es), Run(es + [StopOld(i)] + [Drain(i)] + [StopOld(i)] + [Put(i)]);
            && t.stopper == Some(i) && i in t.inits && t.inits[i].Placed?
            && t.cancelled == s.cancelled
                              + (if s.stopper.Some? then {s.stopper.value} else {})
                              + (if s.inits[i].drained.Some? then {s.inits[i].drained.value} else {})
  {
    Unfold(es, StopOld(i));
    Unfold(es + [StopOld(i)], Drain(i));
    Unfold(es + [StopOld(i)] + [Drain(i)], StopOld(i));
    Unfold(es + [StopOld(i)] + [Drain(i)] + [StopOld(i)], Put(i));
    hide Run;
  }

  /** A cancel function is called by the call that took it out of the channel, or when its own client ends,
      and by nobody else. */
  lemma CalledByHolder(es: seq<Event>, e: Event, f: nat)
    ensures f !in Run(es).cancelled ==>
              (f in Run(es + [e]).cancelled <==>
                (e.StopOld? && e.i in Run(es).inits && Run(es).inits[e.i] == Looping(Some(f)))
                || (e.CloseStop? && e.c in Run(es).closes && Run(es).closes[e.c] == f)
                || (e == Finish(f) && f in Run(es).inits && Run(es).inits[f].Placed?))
  {
    Unfold(es, e);
    hide Run;
  }

  /** The two ends of the hand-over, with nothing running in between. */
  class SDK {
    var stopper: Option<nat>
    var cancelled: set<nat>

    /** The loop of `Init`: `select` takes whichever case is ready. */
    method Install(cancel: nat)
      modifies this
      ensures stopper == Some(cancel)
      ensures cancelled == old(cancelled) + if old(stopper).Some? then {old(stopper).value} else {}
    {
      var wait := true;
      while wait
        invariant !wait ==> stopper == Some(cancel)
        invariant wait && stopper.Some? ==> stopper == old(stopper) && cancelled == old(cancelled)
        invariant !wait || stopper.None? ==>
                    cancelled == old(cancelled) + if old(stopper).Some? then {old(stopper).value} else {}
        decreases wait, stopper.Some?
      {
        if stopper.None? {
          stopper := Some(cancel);
          wait := false;
        } else {
          var stop := stopper.value;
          stopper := None;
          cancelled := cancelled + {stop};
        }
      }
    }

    method Close()
      modifies this
      ensures stopper == None
      ensures cancelled == old(cancelled) + if old(stopper).Some? then {old(stopper).value} else {}
    {
      if stopper.Some? {
        cancelled := cancelled + {stopper.value};
        stopper := None;
      }
    }
  }

  // ---- The loops end ----

  function Loopers(inits: map<nat, Init>): set<nat>
  {
    set i | i in inits && inits[i].Looping?
  }

  /** Twice the calls of `Init` in their loop, and the occupancy of the channel. */
  function Measure(s: State): nat
  {
    2 * |Loopers(s.inits)| + if s.stopper.Some? then 1 else 0
  }

  /** How many events of a run were calls of `Init`, and how many were turns of a loop or a `Close`
      that found the channel full. */
  function Entered(es: seq<Event>): nat
  {
    if es == [] then 0
    else Entered(es[..|es| - 1]) + if es[|es| - 1].Enter? && Run(es) != Run(es[..|es| - 1]) then 1 else 0
  }

  function Turns(es: seq<Event>): nat
  {
    if es == [] then 0
    else
      var e := es[|es| - 1];
      Turns(es[..|es| - 1]) + if (e.Put? || e.Drain? || e.CloseTake?) && Run(es) != Run(es[..|es| - 1]) then 1 else 0
  }

  lemma LoopersChange(inits: map<nat, Init>, i: nat, v: Init)
    ensures |Loopers(inits[i := v])| ==
            |Loopers(inits)| + (if v.Looping? then 1 else 0) - (if i in inits && inits[i].Looping? then 1 else 0)
  {
    var before, after := Loopers(inits), Loopers(inits[i := v]);
    if v.Looping? {
      assert after == before + {i};
    } else {
      assert after == before - {i};
    }
  }

  /** Every turn of a loop and every `Close` that takes a function uses up one unit, and only a call of
      `Init` brings new ones, two each. So the calls of a run go round their loops at most twice as many
      times as there are calls. */
  lemma {:induction false} LoopsEnd(es: seq<Event>)
    ensures Turns(es) + Measure(Run(es)) == 2 * Entered(es)
  {
    if es == [] {
      assert Loopers(INIT.inits) == {};
    } else {
      var s, e := Run(es[..|es| - 1]), es[|es| - 1];
      LoopsEnd(es[..|es| - 1]);
      match e
      case Enter(i) => LoopersChange(s.inits, i, Looping(None));
      case Put(i) => LoopersChange(s.inits, i, Placed);
      case Drain(i) => LoopersChange(s.inits, i, Looping(s.stopper));
      case StopOld(i) => LoopersChange(s.inits, i, Looping(None));
      case _ =>
      hide Loopers;
    }
  }
}
