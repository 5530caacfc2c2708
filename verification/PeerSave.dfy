/** `Peer.Save` of internal/client/service/peer.go: any number of calls for one peer, in any
    interleaving, beside `SetRemark` and `SetPin`. */
module PeerSave {
  import opened Options

  type Address = string

  /** internal/client/service/model/peer.go */
  datatype Record = Record(evmAddr: Address, remark: string, pin: bool)

  /** The read-modify-write transactions: none makes a record, each changes one field. */
  function WithAddress(r: Option<Record>, a: Address): Option<Record>
  {
    match r case None => None case Some(p) => Some(p.(evmAddr := a))
  }

  function WithRemark(r: Option<Record>, remark: string): Option<Record>
  {
    match r case None => None case Some(p) => Some(p.(remark := remark))
  }

  function WithPin(r: Option<Record>, pin: bool): Option<Record>
  {
    match r case None => None case Some(p) => Some(p.(pin := pin))
  }

  /** The bucket of peers, and the setters as the source runs them. */
  class Peers {
    var records: map<string, Record>

    ghost function At(p: string): Option<Record>
      reads this
    {
      if p in records then Some(records[p]) else None
    }

    ghost predicate OnlyChanged(p: string, before: map<string, Record>)
      reads this
    {
      forall q :: q != p ==> (q in records <==> q in before) && (q in records ==> records[q] == before[q])
    }

    method SetEVMAddr(p: string, evmAddr: Address) returns (ok: bool)
      modifies this
      ensures At(p) == WithAddress(old(At(p)), evmAddr) && OnlyChanged(p, old(records))
      ensures ok <==> p in old(records)
    {
      if p !in records {
        return false;
      }
      var data := records[p];
      records := records[p := data.(evmAddr := evmAddr)];
      return true;
    }

    method SetRemark(p: string, remark: string) returns (ok: bool)
      modifies this
      ensures At(p) == WithRemark(old(At(p)), remark) && OnlyChanged(p, old(records))
      ensures ok <==> p in old(records)
    {
      if p !in records {
        return false;
      }
      var data := records[p];
      records := records[p := data.(remark := remark)];
      return true;
    }

    method SetPin(p: string, pin: bool) returns (ok: bool)
      modifies this
      ensures At(p) == WithPin(old(At(p)), pin) && OnlyChanged(p, old(records))
      ensures ok <==> p in old(records)
    {
      if p !in records {
        return false;
      }
      var data := records[p];
      records := records[p := data.(pin := pin)];
      return true;
    }
  }

  /** The entry of the peer in `store`: the mutex of the call that came first, or the empty struct. */
  datatype Entry = Absent | Lock(mutex: nat) | Done

  /** Where a call stands; `mutex` is the one it waits for or holds. */
  datatype Call =
    | Waiting(mutex: nat)
    | Checking(mutex: nat)
    | Opening(mutex: nat)
    | Querying(mutex: nat)
    | Setting(mutex: nat, addr: Address)
    | Closing(mutex: nat, ok: bool, addr: Address)
    | Unlocking(mutex: nat, ok: bool)
    | Returned

  predicate Holds(c: Call) { !c.Waiting? && !c.Returned? }

  /** From the double check to the deferred function. */
  predicate Critical(c: Call) { c.Opening? || c.Querying? || c.Setting? || c.Closing? }

  /** How a transaction of `Save` can go wrong: before it reads anything, or when it commits. */
  datatype Fault = Sound | Early | AtCommit

  datatype State = State(
    entry: Entry,
    locks: map<nat, nat>,        // each locked mutex, and the call that holds it
    calls: map<nat, Call>,
    record: Option<Record>,
    mutex: nat,                  // history: the mutex that was stored
    settled: Option<Address>,    // history: the address the successful call settled on
    remark: string,              // history: the last committed remark and pin
    pin: bool)

  /** What a client starts from: its own address if the peer is the client itself, or nothing; and what an
      earlier run of the program has stored about the peer. */
  datatype Start = Start(local: Address, stored: Option<Record>)

  function Init(w: Start): State
  {
    var (remark, pin) := if w.stored.Some? then (w.stored.value.remark, w.stored.value.pin) else ("", false);
    State(Absent, map[], map[], w.stored, 0, None, remark, pin)
  }

  datatype Event =
    | Enter(c: nat)
    | Acquire(c: nat)
    | Recheck(c: nat)
    | Open(c: nat, fault: Fault)
    | Query(c: nat, answer: Option<Address>)
    | Set(c: nat, fault: Fault)
    | Close(c: nat)
    | Unlock(c: nat)
    | SetRemark(r: string)
    | SetPin(p: bool)

  function To(s: State, c: nat, call: Call): State
  {
    s.(calls := s.calls[c := call])
  }

  /** `LoadOrStore` with a locked mutex of the call's own, named after the call. */
  function EnterStep(s: State, c: nat): State
  {
    if c in s.calls then s
    else match s.entry
      case Absent => To(s, c, Opening(c)).(entry := Lock(c), locks := s.locks[c := c], mutex := c)
      case Lock(m) => To(s, c, Waiting(m))
      case Done => To(s, c, Returned)
  }

  /** The first transaction: read the record, or make one; then ask the peer if there is no address. */
  function OpenStep(s: State, c: nat, fault: Fault, local: Address): State
    requires c in s.calls && s.calls[c].Opening?
  {
    var m := s.calls[c].mutex;
    var addr := if fault.Early? then "" else if s.record.Some? then s.record.value.evmAddr else local;
    var t := if fault.Sound? && s.record.None? then s.(record := Some(Record(local, "", false))) else s;
    To(t, c, if addr == "" then Querying(m) else Closing(m, fault.Sound?, addr))
  }

  function SetStep(s: State, c: nat, fault: Fault): State
    requires c in s.calls && s.calls[c].Setting?
  {
    var m, a := s.calls[c].mutex, s.calls[c].addr;
    if fault.Sound? && s.record.Some? then To(s, c, Closing(m, true, a)).(record := WithAddress(s.record, a))
    else To(s, c, Closing(m, false, a))
  }

  /** `local` is the client's own address if the peer is the client itself, and empty otherwise. What is
      not possible now changes nothing. */
  function Step(s: State, e: Event, local: Address): State
  {
    match e
    case Enter(c) => EnterStep(s, c)
    case Acquire(c) =>
      if c in s.calls && s.calls[c].Waiting? && s.calls[c].mutex !in s.locks
      then To(s, c, Checking(s.calls[c].mutex)).(locks := s.locks[s.calls[c].mutex := c]) else s
    case Recheck(c) =>
      if !(c in s.calls && s.calls[c].Checking?) then s
      else if s.entry.Lock? then To(s, c, Opening(s.calls[c].mutex))
      else To(s, c, Returned).(locks := s.locks - {s.calls[c].mutex})
    case Open(c, fault) => if c in s.calls && s.calls[c].Opening? then OpenStep(s, c, fault, local) else s
    case Query(c, answer) =>
      if !(c in s.calls && s.calls[c].Querying?) then s
      else if answer.Some? then To(s, c, Setting(s.calls[c].mutex, answer.value))
      else To(s, c, Closing(s.calls[c].mutex, false, ""))
    case Set(c, fault) => if c in s.calls && s.calls[c].Setting? then SetStep(s, c, fault) else s
    case Close(c) =>
      if !(c in s.calls && s.calls[c].Closing?) then s
      else
        var call := s.calls[c];
        var t := To(s, c, Unlocking(call.mutex, call.ok));
        if call.ok then t.(entry := Done, settled := Some(call.addr)) else t
    case Unlock(c) =>
      if c in s.calls && s.calls[c].Unlocking?
      then To(s, c, Returned).(locks := s.locks - {s.calls[c].mutex}) else s
    case SetRemark(r) => s.(record := WithRemark(s.record, r), remark := if s.record.Some? then r else s.remark)
    case SetPin(p) => s.(record := WithPin(s.record, p), pin := if s.record.Some? then p else s.pin)
  }

  function Run(es: seq<Event>, w: Start): State
  {
    if es == [] then Init(w) else Step(Run(es[..|es| - 1], w), es[|es| - 1], w.local)
  }

  /** A call that thinks it holds a mutex does, and the other way round. */
  ghost predicate HolderInv(s: State)
  {
    && (forall c <- s.calls :: Holds(s.calls[c]) ==> s.calls[c].mutex in s.locks && s.locks[s.calls[c].mutex] == c)
    && (forall m <- s.locks :: s.locks[m] in s.calls && Holds(s.calls[s.locks[m]]) && s.calls[s.locks[m]].mutex == m)
  }

  /** There is only one mutex: the one that was stored. */
  ghost predicate MutexInv(s: State)
  {
    && (forall c <- s.calls :: !s.calls[c].Returned? ==> s.calls[c].mutex == s.mutex && !s.entry.Absent?)
    && (s.entry.Lock? ==> s.entry.mutex == s.mutex)
  }

  ghost predicate LocksInv(s: State)
  {
    HolderInv(s) && MutexInv(s)
  }

  /** Calls work on the peer only while the entry is a mutex. */
  ghost predicate CriticalInv(s: State)
  {
    forall c <- s.calls :: Critical(s.calls[c]) ==> s.entry.Lock?
  }

  ghost predicate SettledInv(s: State)
  {
    && (forall c <- s.calls :: s.calls[c].Closing? && s.calls[c].ok ==>
          s.record.Some? && s.record.value.evmAddr == s.calls[c].addr)
    && (s.entry.Done? ==> s.record.Some? && s.settled == Some(s.record.value.evmAddr))
  }

  ghost predicate EntryInv(s: State)
  {
    CriticalInv(s) && SettledInv(s)
  }

  ghost predicate RecordInv(s: State)
  {
    if s.record.Some? then s.record.value.remark == s.remark && s.record.value.pin == s.pin
    else s.remark == "" && s.pin == false
  }

  ghost predicate Inv(s: State)
  {
    LocksInv(s) && EntryInv(s) && RecordInv(s)
  }

  lemma StepLocks(s: State, e: Event, local: Address)
    requires LocksInv(s)
    ensures LocksInv(Step(s, e, local))
  {
    StepMutex(s, e, local);
    StepHolder(s, e, local);
    hide Step, HolderInv, MutexInv;
  }

  lemma StepMutex(s: State, e: Event, local: Address)
    requires MutexInv(s)
    ensures MutexInv(Step(s, e, local))
  {
  }

  lemma StepHolder(s: State, e: Event, local: Address)
    requires HolderInv(s) && MutexInv(s)
    ensures HolderInv(Step(s, e, local))
  {
    NothingLocked(s);
    hide HolderInv;
    var t := Step(s, e, local);
    if t == s {
    } else if e.Acquire? || (e.Enter? && s.entry.Absent?) {
      HolderGained(s, t, e.c, if e.Enter? then e.c else s.calls[e.c].mutex);
    } else if e.Unlock? || (e.Recheck? && !s.entry.Lock?) {
      HolderLost(s, t, e.c);
    } else {
      HolderMoved(s, t);
    }
    hide Step, MutexInv;
  }

  lemma NothingLocked(s: State)
    requires HolderInv(s) && MutexInv(s)
    ensures s.entry.Absent? ==> s.locks == map[]
    ensures forall c <- s.calls :: Holds(s.calls[c]) ==> s.calls[c].mutex in s.locks
  {
    assert s.entry.Absent? ==> forall c <- s.calls :: !Holds(s.calls[c]);
    assert forall m <- s.locks :: s.locks[m] in s.calls;
  }

  lemma HolderGained(s: State, t: State, c: nat, m: nat)
    requires HolderInv(s) && m !in s.locks && t.locks == s.locks[m := c]
    requires c in t.calls && Holds(t.calls[c]) && t.calls[c].mutex == m && t.calls == s.calls[c := t.calls[c]]
    requires c in s.calls ==> !Holds(s.calls[c])
    ensures HolderInv(t)
  {
  }

  lemma HolderLost(s: State, t: State, c: nat)
    requires HolderInv(s) && c in s.calls && Holds(s.calls[c]) && t.locks == s.locks - {s.calls[c].mutex}
    requires t.calls == s.calls[c := Returned]
    ensures HolderInv(t)
  {
  }

  /** A call that goes on with the mutex it holds. */
  lemma HolderMoved(s: State, t: State)
    requires HolderInv(s) && t.locks == s.locks
    requires forall c :: c in s.calls ==> c in t.calls
    requires forall c <- t.calls ::
               (!Holds(t.calls[c]) && (c in s.calls ==> !Holds(s.calls[c])))
               || (c in s.calls && Holds(t.calls[c]) && Holds(s.calls[c]) && t.calls[c].mutex == s.calls[c].mutex)
    ensures HolderInv(t)
  {
  }

  lemma StepEntry(s: State, e: Event, local: Address)
    requires LocksInv(s) && EntryInv(s)
    ensures EntryInv(Step(s, e, local))
    ensures s.entry.Done? ==> Step(s, e, local).entry.Done? && Step(s, e, local).settled == s.settled
  {
    if s.entry.Done? {
      StepDone(s, e, local);
    }
    OneCritical(s);
    hide LocksInv, Holds, SettledInv;
    assert CriticalInv(Step(s, e, local));
    StepSettled(s, e, local);
    hide Step, CriticalInv;
  }

  lemma StepSettled(s: State, e: Event, local: Address)
    requires CriticalInv(s) && SettledInv(s)
    requires forall c, d :: c in s.calls && d in s.calls && Critical(s.calls[c]) && Critical(s.calls[d]) ==> c == d
    ensures SettledInv(Step(s, e, local))
  {
  }

  lemma StepDone(s: State, e: Event, local: Address)
    requires EntryInv(s) && s.entry.Done?
    ensures Step(s, e, local).entry.Done? && Step(s, e, local).settled == s.settled
  {
  }

  lemma StepRecord(s: State, e: Event, local: Address)
    requires RecordInv(s)
    ensures RecordInv(Step(s, e, local))
  {
  }

  lemma OneCritical(s: State)
    requires LocksInv(s)
    ensures forall c, d :: c in s.calls && d in s.calls && Holds(s.calls[c]) && Holds(s.calls[d]) ==> c == d
    ensures forall c <- s.calls :: Critical(s.calls[c]) ==> Holds(s.calls[c])
    ensures forall c, d :: c in s.calls && d in s.calls && Critical(s.calls[c]) && Critical(s.calls[d]) ==> c == d
  {
  }

  lemma {:induction false} RunInv(es: seq<Event>, w: Start)
    ensures Inv(Run(es, w))
  {
    if es != [] {
      RunInv(es[..|es| - 1], w);
      var s, e := Run(es[..|es| - 1], w), es[|es| - 1];
      StepLocks(s, e, w.local);
      StepEntry(s, e, w.local);
      StepRecord(s, e, w.local);
      hide LocksInv, EntryInv, RecordInv, Step;
    }
  }

  /** At most one call is between its double check and the release of the mutex. */
  lemma Exclusive(es: seq<Event>, w: Start, c: nat, d: nat)
    requires var s := Run(es, w); c in s.calls && d in s.calls && Critical(s.calls[c]) && Critical(s.calls[d])
    ensures c == d
  {
    RunInv(es, w);
    OneCritical(Run(es, w));
  }

  /** Once a call has succeeded the entry is done for good: no call works on the peer any more, and the
      record exists with the address that call settled on. */
  lemma {:induction false} DoneForever(es: seq<Event>, more: seq<Event>, w: Start)
    requires Run(es, w).entry.Done?
    ensures var s := Run(es + more, w);
            && s.entry.Done? && s.settled == Run(es, w).settled
            && (forall c <- s.calls :: !Critical(s.calls[c]))
            && s.record.Some? && s.settled == Some(s.record.value.evmAddr)
  {
    RunInv(es + more, w);
    if more == [] {
      assert es + more == es;
    } else {
      var init, e := more[..|more| - 1], more[|more| - 1];
      assert es + more == (es + init) + [e] && ((es + init) + [e])[..|es + init|] == es + init;
      DoneForever(es, init, w);
      RunInv(es + init, w);
      StepEntry(Run(es + init, w), e, w.local);
      hide Step, LocksInv, RecordInv;
    }
  }

  /** A failure can be retried: when nobody holds the mutex of an entry that is not done, a new call
      gets through to the first transaction. */
  lemma FailureRetryable(es: seq<Event>, w: Start, c: nat)
    requires var s := Run(es, w);
             c !in s.calls && !s.entry.Done? && forall d <- s.calls :: !Holds(s.calls[d])
    ensures var s := Run(es + [Enter(c)] + [Acquire(c)] + [Recheck(c)], w);
            c in s.calls && s.calls[c].Opening?
  {
    var s := Run(es, w);
    RunInv(es, w);
    NobodyHolds(s);
    Unfold(es, Enter(c), w);
    Unfold(es + [Enter(c)], Acquire(c), w);
    Unfold(es + [Enter(c)] + [Acquire(c)], Recheck(c), w);
    hide Run, Inv, HolderInv, MutexInv, Step, Holds;
    Retries(s, c, w.local);
  }

  lemma Retries(s: State, c: nat, local: Address)
    requires s.locks == map[] && !s.entry.Done? && c !in s.calls
    ensures var t := Step(Step(Step(s, Enter(c), local), Acquire(c), local), Recheck(c), local);
            c in t.calls && t.calls[c].Opening?
  {
  }

  /** A call that waited goes on when the mutex is free: to the first transaction if the entry is still the
      mutex, or back to its caller if the entry is done, leaving the mutex free. A call that comes to a done
      entry returns at once. */
  lemma WaiterGoesOn(es: seq<Event>, w: Start, c: nat)
    requires var s := Run(es, w); c in s.calls && s.calls[c].Waiting? && s.calls[c].mutex !in s.locks
    ensures var s, t := Run(es, w), Run(es + [Acquire(c)] + [Recheck(c)], w);
            && c in t.calls && (if s.entry.Done? then t.calls[c].Returned? else t.calls[c].Opening?)
            && (s.entry.Done? ==> t.locks == s.locks)
            && t.entry == s.entry && t.record == s.record
  {
    var s := Run(es, w);
    RunInv(es, w);
    assert MutexInv(s);
    Unfold(es, Acquire(c), w);
    Unfold(es + [Acquire(c)], Recheck(c), w);
    hide Run, Inv;
    var t := Step(s, Acquire(c), w.local);
    assert t.locks - {s.calls[c].mutex} == s.locks;
  }

  lemma DoneReturns(es: seq<Event>, w: Start, c: nat)
    requires Run(es, w).entry.Done? && c !in Run(es, w).calls
    ensures var s, t := Run(es, w), Run(es + [Enter(c)], w); t == s.(calls := s.calls[c := Returned])
  {
    Unfold(es, Enter(c), w);
  }

  lemma NobodyHolds(s: State)
    requires HolderInv(s) && forall d <- s.calls :: !Holds(s.calls[d])
    ensures s.locks == map[]
  {
    assert forall m <- s.locks :: Holds(s.calls[s.locks[m]]);
  }

  /** A remark or pin committed at any moment, between the two transactions of a `Save` as well, is in
      the record from then on until the next one is set, whatever other events come in between. */
  lemma SettersNotLost(es: seq<Event>, more: seq<Event>, w: Start, r: string, p: bool)
    requires Run(es, w).record.Some?
    ensures (forall e <- more :: !e.SetRemark?) ==>
              var s := Run(es + [SetRemark(r)] + more, w); s.record.Some? && s.record.value.remark == r
    ensures (forall e <- more :: !e.SetPin?) ==>
              var s := Run(es + [SetPin(p)] + more, w); s.record.Some? && s.record.value.pin == p
  {
    Unfold(es, SetRemark(r), w);
    Unfold(es, SetPin(p), w);
    RecordKept(es + [SetRemark(r)], more, w);
    RecordKept(es + [SetPin(p)], more, w);
    hide Run;
  }

  lemma {:induction false} RecordKept(es: seq<Event>, more: seq<Event>, w: Start)
    requires Run(es, w).record.Some?
    ensures var before, after := Run(es, w).record.value, Run(es + more, w).record;
            && after.Some?
            && ((forall e <- more :: !e.SetRemark?) ==> after.value.remark == before.remark)
            && ((forall e <- more :: !e.SetPin?) ==> after.value.pin == before.pin)
  {
    if more == [] {
      assert es + more == es;
    } else {
      var init, e := more[..|more| - 1], more[|more| - 1];
      assert es + more == (es + init) + [e] && more == init + [e];
      RecordKept(es, init, w);
      hide Run, Step;
      Unfold(es + init, e, w);
      StepKeepsRecord(Run(es + init, w), e, w.local);
    }
  }

  lemma Unfold(es: seq<Event>, e: Event, w: Start)
    ensures Run(es + [e], w) == Step(Run(es, w), e, w.local)
  {
    assert (es + [e])[..|es|] == es;
  }

  lemma StepKeepsRecord(s: State, e: Event, local: Address)
    requires s.record.Some?
    ensures var t := Step(s, e, local);
            && t.record.Some?
            && (!e.SetRemark? ==> t.record.value.remark == s.record.value.remark)
            && (!e.SetPin? ==> t.record.value.pin == s.record.value.pin)
  {
  }

  // ---- Where the address comes from ----

  /** The addresses that the peer has answered the queries of the run with. */
  function Answers(es: seq<Event>): set<Address>
  {
    set e | e in es && e.Query? && e.answer.Some? :: e.answer.value
  }

  /** The addresses that need no query: not empty, and either the client's own or stored earlier. */
  function Known(w: Start): set<Address>
  {
    {w.local} + (if w.stored.Some? then {w.stored.value.evmAddr} else {}) - {""}
  }

  /** Where the addresses in a state come from: `good` are those known and those answered so far. */
  ghost predicate SourcesInv(good: set<Address>, s: State)
  {
    && (s.record.Some? ==> s.record.value.evmAddr in good + {""})
    && (forall c <- s.calls ::
          s.calls[c].Setting? || (s.calls[c].Closing? && s.calls[c].ok) ==> s.calls[c].addr in good)
    && (s.settled.Some? ==> s.settled.value in good)
  }

  lemma AnswersMore(es: seq<Event>, e: Event)
    ensures Answers(es + [e]) == Answers(es) + if e.Query? && e.answer.Some? then {e.answer.value} else {}
  {
  }

  lemma MoreSources(good: set<Address>, more: set<Address>, s: State)
    requires SourcesInv(good, s) && good <= more
    ensures SourcesInv(more, s)
  {
  }

  lemma StepSources(good: set<Address>, s: State, e: Event, local: Address)
    requires SourcesInv(good, s) && (local != "" ==> local in good)
    requires e.Query? && e.answer.Some? ==> e.answer.value in good
    ensures SourcesInv(good, Step(s, e, local))
  {
    match e
    case Open(c, fault) =>
      if c in s.calls && s.calls[c].Opening? {
        OpenSources(good, s, c, fault, local);
        hide SourcesInv, OpenStep;
      }
    case Set(c, fault) =>
      if c in s.calls && s.calls[c].Setting? {
        SetSources(good, s, c, fault);
        hide SourcesInv, SetStep;
      }
    case _ => hide OpenStep, SetStep;
  }

  lemma OpenSources(good: set<Address>, s: State, c: nat, fault: Fault, local: Address)
    requires SourcesInv(good, s) && (local != "" ==> local in good) && c in s.calls && s.calls[c].Opening?
    ensures SourcesInv(good, OpenStep(s, c, fault, local))
  {
  }

  lemma SetSources(good: set<Address>, s: State, c: nat, fault: Fault)
    requires SourcesInv(good, s) && c in s.calls && s.calls[c].Setting?
    ensures SourcesInv(good, SetStep(s, c, fault))
  {
  }

  lemma {:induction false} RunSources(es: seq<Event>, w: Start)
    ensures SourcesInv(Known(w) + Answers(es), Run(es, w))
  {
    if es != [] {
      var init, e := es[..|es| - 1], es[|es| - 1];
      RunSources(init, w);
      assert es == init + [e];
      AnswersMore(init, e);
      hide SourcesInv, Step, Answers;
      MoreSources(Known(w) + Answers(init), Known(w) + Answers(es), Run(init, w));
      StepSources(Known(w) + Answers(es), Run(init, w), e, w.local);
    }
  }

  /** A peer that is done has a record whose address it has given itself in answer to a query, or one that was
      known without a query; an empty address, or any address of a remote peer with none stored, was given. */
  lemma DoneWasAnswered(es: seq<Event>, w: Start)
    requires Run(es, w).entry.Done?
    ensures var s := Run(es, w);
            && s.record.Some? && s.settled == Some(s.record.value.evmAddr)
            && s.record.value.evmAddr in Known(w) + Answers(es)
            && (s.record.value.evmAddr == "" ==> "" in Answers(es))
            && (w.local == "" && (w.stored.Some? ==> w.stored.value.evmAddr == "") ==>
                  exists e <- es :: e.Query? && e.answer == Some(s.record.value.evmAddr))
  {
    RunInv(es, w);
    RunSources(es, w);
  }

  /** What a call finds for an address before it asks: the stored one, or its own. */
  function Found(s: State, w: Start): Address
  {
    if s.record.Some? then s.record.value.evmAddr else w.local
  }

  function Rest(c: nat, answer: Option<Address>, fault: Fault): seq<Event>
  {
    [Open(c, Sound), Query(c, answer), Set(c, fault), Close(c), Unlock(c)]
  }

  /** From every reachable state with a call at its first transaction: if there is no address, the peer is
      asked; its answer, set soundly, is what the record and the entry end up with; no answer, or a
      failing transaction, leaves the entry to be tried again. If there is an address, it stays, and the peer
      is not asked. The mutex is free afterwards in each case. */
  lemma SaveSettles(es: seq<Event>, w: Start, c: nat, answer: Option<Address>, fault: Fault)
    requires c in Run(es, w).calls && Run(es, w).calls[c].Opening?
    ensures var s, t := Run(es, w), Run(es + Rest(c, answer, fault), w);
            && t.record.Some? && c in t.calls && t.calls[c].Returned? && s.calls[c].mutex !in t.locks
            && t.record.value.evmAddr == (if Found(s, w) != "" then Found(s, w)
                                          else if answer.Some? && fault.Sound? then answer.value else "")
            && (t.entry.Done? <==> Found(s, w) != "" || (answer.Some? && fault.Sound?))
  {
    RunInv(es, w);
    var s := Run(es, w);
    assert s.entry.Lock?;
    RunRest(es, w, c, answer, fault);
    hide Run;
    if Found(s, w) != "" {
      KnownSettles(s, w, c, answer, fault);
    } else {
      AskedSettles(s, w, c, answer, fault);
    }
  }

  function AfterRest(s: State, w: Start, c: nat, answer: Option<Address>, fault: Fault): State
  {
    var asked := Step(Step(s, Open(c, Sound), w.local), Query(c, answer), w.local);
    AfterSet(Step(asked, Set(c, fault), w.local), c, w)
  }

  function AfterSet(s: State, c: nat, w: Start): State
  {
    Step(Step(s, Close(c), w.local), Unlock(c), w.local)
  }

  lemma Opened(s: State, w: Start, c: nat)
    requires c in s.calls && s.calls[c].Opening?
    ensures var m := s.calls[c].mutex;
            Step(s, Open(c, Sound), w.local) ==
            To(s, c, if Found(s, w) == "" then Querying(m) else Closing(m, true, Found(s, w)))
              .(record := if s.record.Some? then s.record else Some(Record(w.local, "", false)))
  {
  }

  lemma Closes(s: State, c: nat, w: Start)
    requires c in s.calls && s.calls[c].Closing?
    ensures var t := AfterSet(s, c, w);
            && c in t.calls && t.calls[c].Returned? && s.calls[c].mutex !in t.locks && t.record == s.record
            && t.entry == if s.calls[c].ok then Done else s.entry
  {
  }

  lemma KnownSettles(s: State, w: Start, c: nat, answer: Option<Address>, fault: Fault)
    requires c in s.calls && s.calls[c].Opening? && Found(s, w) != ""
    ensures var t := AfterRest(s, w, c, answer, fault);
            && t.record.Some? && t.record.value.evmAddr == Found(s, w) && t.entry.Done?
            && c in t.calls && t.calls[c].Returned? && s.calls[c].mutex !in t.locks
  {
    Opened(s, w, c);
    var s1 := Step(s, Open(c, Sound), w.local);
    assert Step(s1, Query(c, answer), w.local) == s1 && Step(s1, Set(c, fault), w.local) == s1;
    hide Step, AfterSet;
    Closes(s1, c, w);
  }

  lemma AskedSettles(s: State, w: Start, c: nat, answer: Option<Address>, fault: Fault)
    requires c in s.calls && s.calls[c].Opening? && Found(s, w) == "" && s.entry.Lock?
    ensures var t := AfterRest(s, w, c, answer, fault);
            && t.record.Some? && t.record.value.evmAddr == (if answer.Some? && fault.Sound? then answer.value else "")
            && (t.entry.Done? <==> answer.Some? && fault.Sound?)
            && c in t.calls && t.calls[c].Returned? && s.calls[c].mutex !in t.locks
  {
    Opened(s, w, c);
    var m := s.calls[c].mutex;
    var s1 := Step(s, Open(c, Sound), w.local);
    var s2 := Step(s1, Query(c, answer), w.local);
    assert s2 == To(s1, c, if answer.Some? then Setting(m, answer.value) else Closing(m, false, ""));
    var s3 := Step(s2, Set(c, fault), w.local);
    assert c in s3.calls && s3.calls[c].Closing? && s3.calls[c].mutex == m && s3.entry.Lock?;
    assert s3.calls[c].ok <==> answer.Some? && fault.Sound?;
    assert s3.record == if answer.Some? && fault.Sound? then WithAddress(s1.record, answer.value) else s1.record;
    hide Step, AfterSet;
    Closes(s3, c, w);
  }

  lemma RunRest(es: seq<Event>, w: Start, c: nat, answer: Option<Address>, fault: Fault)
    ensures Run(es + Rest(c, answer, fault), w) == AfterRest(Run(es, w), w, c, answer, fault)
  {
    var e1 := es + [Open(c, Sound)];
    var e2 := e1 + [Query(c, answer)];
    var e3 := e2 + [Set(c, fault)];
    var e4 := e3 + [Close(c)];
    assert es + Rest(c, answer, fault) == e4 + [Unlock(c)];
    Unfold(es, Open(c, Sound), w);
    Unfold(e1, Query(c, answer), w);
    Unfold(e2, Set(c, fault), w);
    Unfold(e3, Close(c), w);
    Unfold(e4, Unlock(c), w);
    hide Run, Step;
  }
}
