/** A round of `AsyncSend`: the looks and claims of the delivery machine against the method of the
    service. */
module DeliveryRound {
  import opened Bytes
  import opened Buckets
  import opened MessageStore
  import opened MessageService
  import opened Delivery
  import opened DeliveryInvariant

  /** The read transaction of a round, one due message after the other. */
  function Looks(n: Node, ids: seq<uint64>): Node
    decreases |ids|
  {
    if ids == [] then n else Looks(LookStep(n, ids[0]).node, ids[1..])
  }

  function Glances(n: Node, ids: seq<uint64>): (gs: seq<Glance>)
    requires forall i :: 0 <= i < |ids| ==> ids[i] in Due(n.store)
    ensures |gs| == |ids|
    ensures forall i :: 0 <= i < |ids| ==> ids[i] in Due(n.store) && gs[i] == GlanceAt(n.store.dialogue[ids[i]], n.now)
  {
    seq(|ids|, i requires 0 <= i < |ids| => assert ids[i] in Due(n.store); GlanceAt(n.store.dialogue[ids[i]], n.now))
  }

  lemma {:induction false} LooksAre(n: Node, ids: seq<uint64>)
    requires forall i :: 0 <= i < |ids| ==> ids[i] in Due(n.store)
    ensures Looks(n, ids) == n.(glances := n.glances + (set g | g in Glances(n, ids)))
    decreases |ids|
  {
    if ids == [] {
      assert n.glances + (set g | g in Glances(n, ids)) == n.glances;
    } else {
      var m := LookStep(n, ids[0]).node;
      LooksAre(m, ids[1..]);
      assert Glances(n, ids) == [GlanceAt(n.store.dialogue[ids[0]], n.now)] + Glances(m, ids[1..]);
      hide LookStep, GlanceAt, Due;
    }
  }

  /** The claims of a round, with new workers numbered from `first`. */
  function Claims(n: Node, gs: seq<Glance>, first: nat): Node
    decreases |gs|
  {
    if gs == [] then n else Claims(ClaimStep(n, first, gs[0]).node, gs[1..], first + 1)
  }

  function NewWorker(g: Glance): Worker { Worker(g.data.id, g.job, g.data, false, Ready) }

  function NotedIds(gs: seq<Glance>): set<uint64>
  {
    set g | g in gs :: g.data.id
  }

  lemma IdsOfMore(g: Glance, more: seq<Glance>)
    ensures NotedIds([g] + more) == {g.data.id} + NotedIds(more)
  {
  }

  predicate Noted(gs: seq<Glance>)
  {
    forall i, j :: 0 <= i < j < |gs| ==> gs[i].data.id != gs[j].data.id
  }

  /** The workers a round is to start for its notes, when these messages are busy. */
  function Wanted(gs: seq<Glance>, busy: set<uint64>): set<Worker>
  {
    set g | g in gs && g.data.id !in busy :: NewWorker(g)
  }

  /** The workers that `m` has and `n` has not. */
  function Fresh(n: Node, m: Node): set<Worker>
  {
    set t | t in m.workers && t !in n.workers :: m.workers[t]
  }

  predicate WorkersKept(n: Node, m: Node)
  {
    forall t <- n.workers :: t in m.workers && m.workers[t] == n.workers[t]
  }

  /** Each claim whose message has no worker starts the one that was noted, and no other worker is started
      or changed. */
  ghost predicate Started(n: Node, m: Node, gs: seq<Glance>)
  {
    && m.store == n.store && m.recorder == n.recorder + NotedIds(gs)
    && WorkersKept(n, m) && Fresh(n, m) == Wanted(gs, n.recorder)
  }

  lemma {:induction false} ClaimsAre(n: Node, gs: seq<Glance>, first: nat)
    requires (forall t <- n.workers :: t < first) && (forall g <- gs :: g in n.glances) && Noted(gs)
    ensures Started(n, Claims(n, gs, first), gs)
    decreases |gs|
  {
    if gs != [] {
      var c := ClaimStep(n, first, gs[0]).node;
      ClaimsAre(c, gs[1..], first + 1);
      assert gs == [gs[0]] + gs[1..];
      ClaimsStep(n, c, Claims(c, gs[1..], first + 1), gs[0], gs[1..], first);
    }
  }

  lemma ClaimsStep(n: Node, c: Node, m: Node, g: Glance, more: seq<Glance>, first: nat)
    requires (forall t <- n.workers :: t < first) && g in n.glances && c == ClaimStep(n, first, g).node
    requires (forall h <- more :: h.data.id != g.data.id) && Started(c, m, more)
    ensures Started(n, m, [g] + more)
  {
    assert c.store == n.store && c.recorder == n.recorder + {g.data.id} && first !in n.workers;
    assert g.data.id in n.recorder ==> c == n;
    assert g.data.id !in n.recorder ==> c.workers == n.workers[first := NewWorker(g)];
    hide ClaimStep, NewWorker, NotedIds, Wanted, Fresh, WorkersKept;
    IdsOfMore(g, more);
    WantedMore(g, more, n.recorder);
    if g.data.id !in n.recorder {
      FreshMore(n, c, m, first, NewWorker(g));
    }
  }

  lemma WantedMore(g: Glance, more: seq<Glance>, busy: set<uint64>)
    requires forall h <- more :: h.data.id != g.data.id
    ensures Wanted([g] + more, busy) ==
            Wanted(more, busy + {g.data.id}) + if g.data.id in busy then {} else {NewWorker(g)}
  {
    hide NewWorker;
  }

  lemma FreshMore(n: Node, c: Node, m: Node, first: nat, w: Worker)
    requires first !in n.workers && c.workers == n.workers[first := w] && WorkersKept(c, m)
    ensures WorkersKept(n, m) && Fresh(n, m) == Fresh(c, m) + {w}
  {
    assert forall t <- n.workers :: t in c.workers && c.workers[t] == n.workers[t];
    assert first in c.workers && c.workers[first] == w;
  }

  predicate Listed(ids: seq<uint64>, s: set<uint64>)
  {
    Elements(ids) == s && forall i, j :: 0 <= i < j < |ids| ==> ids[i] != ids[j]
  }

  lemma AllListed(ids: seq<uint64>, s: set<uint64>)
    requires Listed(ids, s)
    ensures forall i :: 0 <= i < |ids| ==> ids[i] in s
  {
    assert forall i :: 0 <= i < |ids| ==> ids[i] in Elements(ids);
  }

  /** The notes of a round are of its messages, each once. */
  lemma GlancesAre(n: Node, ids: seq<uint64>)
    requires DialogueInv(n) && Listed(ids, Due(n.store)) && forall i :: 0 <= i < |ids| ==> ids[i] in Due(n.store)
    ensures Noted(Glances(n, ids)) && NotedIds(Glances(n, ids)) == Due(n.store)
    ensures forall id <- Due(n.store) :: GlanceAt(n.store.dialogue[id], n.now) in Glances(n, ids)
    ensures forall g <- Glances(n, ids) ::
              g.data.id in Due(n.store) && g == GlanceAt(n.store.dialogue[g.data.id], n.now)
  {
    var gs := Glances(n, ids);
    assert forall i :: 0 <= i < |ids| ==> gs[i].data.id == ids[i];
    hide Stale;
    forall id <- Due(n.store) ensures GlanceAt(n.store.dialogue[id], n.now) in gs {
      assert id in Elements(ids);
      var i :| 0 <= i < |ids| && ids[i] == id;
      assert gs[i] in gs;
    }
    forall g <- gs ensures g.data.id in Due(n.store) && g == GlanceAt(n.store.dialogue[g.data.id], n.now) {
      var i :| 0 <= i < |gs| && gs[i] == g;
    }
  }

  /** The looks and claims of one round, without a break. */
  function Round(n: Node, ids: seq<uint64>, first: nat): Node
    requires forall i :: 0 <= i < |ids| ==> ids[i] in Due(n.store)
  {
    Claims(Looks(n, ids), Glances(n, ids), first)
  }

  /** The workers of one kind for these messages. */
  function WorkersFor(ms: seq<Message>, job: Job): set<Worker>
  {
    set d | d in ms :: Worker(d.id, job, d, false, Ready)
  }

  /** The messages that the service claims are those noted that have no worker. */
  lemma ClaimedNotes(n: Node, gs: seq<Glance>, send: seq<Message>, check: seq<Message>)
    requires Claimed(n.store, n.recorder, n.now, send, check)
    requires forall id <- Due(n.store) :: GlanceAt(n.store.dialogue[id], n.now) in gs
    requires forall g <- gs :: g.data.id in Due(n.store) && g == GlanceAt(n.store.dialogue[g.data.id], n.now)
    ensures Wanted(gs, n.recorder) == WorkersFor(send, SendJob) + WorkersFor(check, CheckJob)
  {
    hide Stale, Due;
    forall d <- send ensures Glance(d, SendJob) in gs && d.id !in n.recorder {
      assert Among(d.id, send) && GlanceAt(d, n.now) in gs;
    }
    forall d <- check ensures Glance(d, CheckJob) in gs && d.id !in n.recorder {
      assert Among(d.id, check) && GlanceAt(d, n.now) in gs;
    }
    forall g <- gs | g.data.id !in n.recorder ensures g.data in (if g.job.SendJob? then send else check) {
      assert Among(g.data.id, send) || Among(g.data.id, check);
    }
    hide Claimed, GlanceAt;
    WantedAre(gs, n.recorder, send, check);
  }

  lemma WantedAre(gs: seq<Glance>, busy: set<uint64>, send: seq<Message>, check: seq<Message>)
    requires forall d <- send :: Glance(d, SendJob) in gs && d.id !in busy
    requires forall d <- check :: Glance(d, CheckJob) in gs && d.id !in busy
    requires forall g <- gs :: g.data.id !in busy ==> g.data in (if g.job.SendJob? then send else check)
    ensures Wanted(gs, busy) == WorkersFor(send, SendJob) + WorkersFor(check, CheckJob)
  {
    var ws := WorkersFor(send, SendJob) + WorkersFor(check, CheckJob);
    forall w | w in ws ensures w in Wanted(gs, busy) {
      assert w == NewWorker(Glance(w.data, w.job)) && Glance(w.data, w.job) in gs;
    }
    forall w | w in Wanted(gs, busy) ensures w in ws {
      var g :| g in gs && g.data.id !in busy && w == NewWorker(g);
    }
  }

  /** The messages that the service's round claims are those that the machine's round starts workers for,
      and both leave the same recorder. */
  lemma RoundIsClaims(n: Node, send: seq<Message>, check: seq<Message>, ids: seq<uint64>, first: nat)
    requires DialogueInv(n) && forall t <- n.workers :: t < first
    requires Claimed(n.store, n.recorder, n.now, send, check) && Listed(ids, Due(n.store))
    ensures forall i :: 0 <= i < |ids| ==> ids[i] in Due(n.store)
    ensures var m := Round(n, ids, first);
            && m.store == n.store && m.recorder == n.recorder + Due(n.store)
            && WorkersKept(n, m) && Fresh(n, m) == WorkersFor(send, SendJob) + WorkersFor(check, CheckJob)
  {
    AllListed(ids, Due(n.store));
    var gs, l, m := Glances(n, ids), Looks(n, ids), Round(n, ids, first);
    LooksAre(n, ids);
    GlancesAre(n, ids);
    assert l.workers == n.workers;
    assert WorkersKept(l, m) ==> WorkersKept(n, m);
    assert Fresh(l, m) == Fresh(n, m);
    hide Looks, Claims, DialogueInv, Due, Elements, Claimed, GlanceAt, Noted, NotedIds, Wanted,
      WorkersFor, WorkersKept, Fresh;
    ClaimedNotes(n, gs, send, check);
    ClaimsAre(l, gs, first);
  }
}
