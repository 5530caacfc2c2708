/** The per-peer stream cache of internal/common/xrmmgr.go: which of several streams to one peer is
    kept, that both ends keep the same one, and that read loops clean up after themselves only. */
module StreamCache {
  import opened Bytes
  import opened Options

  datatype Direction = DirUnknown | DirInbound | DirOutbound

  /** A stream as one end sees it; `id` stands for the pointer that `readLoop` compares. */
  datatype PeerStream = PeerStream(id: nat, remote: PeerId, direct: bool, dir: Direction)

  /** The branches of `handle` for a peer that has a cached stream. */
  predicate Replaces(local: PeerId, cached: PeerStream, xrm: PeerStream)
  {
    if xrm.direct then true
    else match xrm.dir
      case DirInbound =>
        if cached.dir.DirInbound? then true
        else cached.dir.DirOutbound? && LexLess(xrm.remote, local)
      case DirOutbound =>
        if cached.dir.DirOutbound? then true
        else cached.dir.DirInbound? && LexLess(local, xrm.remote)
      case DirUnknown => false
  }

  /** The cache, and the streams whose read loop has not yet run its cleanup. */
  datatype State = State(streams: map<PeerId, PeerStream>, readers: set<PeerStream>)

  const INIT := State(map[], {})

  function Handled(local: PeerId, s: State, xrm: PeerStream): State
  {
    State(
      if xrm.remote !in s.streams || Replaces(local, s.streams[xrm.remote], xrm)
      then s.streams[xrm.remote := xrm] else s.streams,
      s.readers + {xrm})
  }

  function CleanedUp(s: State, xrm: PeerStream): State
  {
    State(
      if xrm.remote in s.streams && s.streams[xrm.remote] == xrm then s.streams - {xrm.remote} else s.streams,
      s.readers - {xrm})
  }

  /** `StreamManager`, with its two critical sections as methods. */
  class StreamManager {
    const local: PeerId
    var streams: map<PeerId, PeerStream>
    var readers: set<PeerStream>

    ghost function Abs(): State
      reads this
    {
      State(streams, readers)
    }

    constructor (local: PeerId)
      ensures Abs() == INIT && this.local == local
    {
      this.local := local;
      streams, readers := map[], {};
    }

    method Handle(xrm: PeerStream)
      modifies this
      ensures Abs() == Handled(local, old(Abs()), xrm)
    {
      var rPeerId := xrm.remote;
      if rPeerId !in streams {
        streams := streams[rPeerId := xrm];
      } else {
        var cached := streams[rPeerId];
        if xrm.direct {
          streams := streams[rPeerId := xrm];
        } else if xrm.dir == DirInbound {
          if cached.dir == DirInbound {
            streams := streams[rPeerId := xrm];
          } else if cached.dir == DirOutbound && LexLess(rPeerId, local) {
            streams := streams[rPeerId := xrm];
          }
        } else if xrm.dir == DirOutbound {
          if cached.dir == DirOutbound {
            streams := streams[rPeerId := xrm];
          } else if cached.dir == DirInbound && LexLess(local, rPeerId) {
            streams := streams[rPeerId := xrm];
          }
        }
      }
      readers := readers + {xrm};
    }

    /** The deferred function of `readLoop`. */
    method CleanUp(xrm: PeerStream)
      modifies this
      ensures Abs() == CleanedUp(old(Abs()), xrm)
    {
      if xrm.remote in streams && streams[xrm.remote] == xrm {
        streams := streams - {xrm.remote};
      }
      readers := readers - {xrm};
    }

    /** `GetStream`: the cached stream; or, after a dialled stream has been handled and some read loops may
        have ended, what the cache holds then, which need not be the dialled one, and may be nothing. */
    method GetStream(peer: PeerId, noCache: bool, dial: Option<PeerStream>, exits: seq<PeerStream>)
      returns (r: Option<PeerStream>, ok: bool)
      requires dial.Some? ==> dial.value.remote == peer
      modifies this
      ensures ok <==> (peer in old(streams) && !noCache) || dial.Some?
      ensures peer in old(streams) && !noCache ==> Abs() == old(Abs()) && r == Some(streams[peer])
      ensures !ok ==> Abs() == old(Abs()) && r == None
      ensures ok && !(peer in old(streams) && !noCache) ==>
                && Abs() == Exited(Handled(local, old(Abs()), dial.value), exits)
                && r == if peer in streams then Some(streams[peer]) else None
    {
      if peer in streams && !noCache {
        return Some(streams[peer]), true;
      }
      if dial.None? {
        return None, false;
      }
      Handle(dial.value);
      ghost var handled := Abs();
      for i := 0 to |exits|
        invariant Abs() == Exited(handled, exits[..i])
      {
        CleanUp(exits[i]);
        assert exits[..i + 1][..i] == exits[..i];
      }
      assert exits[..|exits|] == exits;
      return if peer in streams then Some(streams[peer]) else None, true;
    }
  }

  /** Read loops that end one after the other. */
  function Exited(s: State, exits: seq<PeerStream>): State
  {
    if exits == [] then s else CleanedUp(Exited(s, exits[..|exits| - 1]), exits[|exits| - 1])
  }

  /** The second lookup finds nothing exactly if the stream that was cached after the dial has ended. */
  lemma {:induction false} LookupFails(s: State, exits: seq<PeerStream>, peer: PeerId)
    requires peer in s.streams && s.streams[peer].remote == peer
    ensures peer in Exited(s, exits).streams <==> s.streams[peer] !in exits
    ensures peer in Exited(s, exits).streams ==> Exited(s, exits).streams[peer] == s.streams[peer]
  {
    if exits != [] {
      LookupFails(s, exits[..|exits| - 1], peer);
      assert exits == exits[..|exits| - 1] + [exits[|exits| - 1]];
    }
  }

  // ---- Runs: handlers and exiting read loops in any order ----

  datatype Event = Handle(xrm: PeerStream) | Exit(xrm: PeerStream)

  /** A new stream is a new pointer; a read loop exits once. Anything else leaves the state alone. */
  function Step(local: PeerId, s: State, e: Event): State
  {
    match e
    case Handle(x) => if exists r <- s.readers :: r.id == x.id then s else Handled(local, s, x)
    case Exit(x) => if x in s.readers then CleanedUp(s, x) else s
  }

  function Run(local: PeerId, es: seq<Event>): State
  {
    if es == [] then INIT else Step(local, Run(local, es[..|es| - 1]), es[|es| - 1])
  }

  ghost predicate Inv(s: State)
  {
    && (forall p <- s.streams :: s.streams[p] in s.readers && s.streams[p].remote == p)
    && (forall x, y :: x in s.readers && y in s.readers && x.id == y.id ==> x == y)
  }

  lemma {:induction false} RunInv(local: PeerId, es: seq<Event>)
    ensures Inv(Run(local, es))
  {
    if es != [] {
      RunInv(local, es[..|es| - 1]);
    }
  }

  /** In every run each cached stream has a read loop that will still clean it up, a cleanup removes
      no other stream than its own, and when all read loops have gone the cache is empty. */
  lemma {:induction false} NoLeakNoWrongEviction(local: PeerId, es: seq<Event>, x: PeerStream)
    ensures Inv(Run(local, es))
    ensures Run(local, es).readers == {} ==> Run(local, es).streams == map[]
    ensures forall p :: p in Run(local, es).streams && Run(local, es).streams[p] != x ==>
              p in Run(local, es + [Exit(x)]).streams
              && Run(local, es + [Exit(x)]).streams[p] == Run(local, es).streams[p]
  {
    RunInv(local, es);
    assert (es + [Exit(x)])[..|es|] == es;
    var s := Run(local, es);
    assert forall p <- s.streams :: s.streams[p] in s.readers;
  }

  // ---- Which stream is kept ----

  predicate Known(x: PeerStream) { !x.dir.DirUnknown? }

  function Initiator(local: PeerId, x: PeerStream): PeerId
  {
    if x.dir.DirInbound? then x.remote else local
  }

  /** Where the last direct stream stands, or the start when there is none. */
  function Start(h: seq<PeerStream>): (i: nat)
    ensures h != [] ==> i < |h|
    ensures forall j :: i < j < |h| ==> !h[j].direct
    ensures i == 0 || (i < |h| && h[i].direct)
  {
    if h == [] then 0
    else if h[|h| - 1].direct then |h| - 1
    else
      Start(h[..|h| - 1])
  }

  function LastBy(local: PeerId, p: PeerId, h: seq<PeerStream>): Option<PeerStream>
  {
    if h == [] then None
    else
      var x := h[|h| - 1];
      if Known(x) && Initiator(local, x) == p then Some(x) else LastBy(local, p, h[..|h| - 1])
  }

  function Smaller(a: PeerId, b: PeerId): PeerId { if LexLess(a, b) then a else b }

  function Larger(a: PeerId, b: PeerId): PeerId { if LexLess(a, b) then b else a }

  /** From the last direct stream on: the last one the smaller peer initiated, or else the last one
      the larger peer did. A stream of unknown direction is replaced only by a direct one. */
  function Kept(local: PeerId, remote: PeerId, h: seq<PeerStream>): Option<PeerStream>
  {
    if h == [] then None else Chosen(local, Smaller(local, remote), Larger(local, remote), h[Start(h)..])
  }

  function Chosen(local: PeerId, small: PeerId, large: PeerId, t: seq<PeerStream>): Option<PeerStream>
    requires t != []
  {
    if !Known(t[0]) then Some(t[0])
    else if LastBy(local, small, t).Some? then LastBy(local, small, t)
    else LastBy(local, large, t)
  }

  /** The streams handled for `p` since its entry was last missing, in order. */
  function Epoch(local: PeerId, p: PeerId, es: seq<Event>): seq<PeerStream>
  {
    if es == [] then []
    else
      var before, after := Run(local, es[..|es| - 1]), Run(local, es);
      var h := Epoch(local, p, es[..|es| - 1]);
      if p !in after.streams then []
      else if es[|es| - 1].Handle? && es[|es| - 1].xrm.remote == p && after != before then h + [es[|es| - 1].xrm]
      else h
  }

  lemma {:induction false} LastByIs(local: PeerId, p: PeerId, h: seq<PeerStream>)
    ensures var r := LastBy(local, p, h); r.Some? ==> r.value in h && Known(r.value) && Initiator(local, r.value) == p
    ensures LastBy(local, p, h).None? ==> forall y <- h :: !Known(y) || Initiator(local, y) != p
  {
    if h != [] {
      LastByIs(local, p, h[..|h| - 1]);
    }
  }

  predicate From(remote: PeerId, h: seq<PeerStream>)
  {
    forall y <- h :: y.remote == remote
  }

  /** One more relayed stream replaces one of known direction if it has the same initiator or was
      initiated by the smaller peer. */
  lemma ReplacesIs(local: PeerId, remote: PeerId, y: PeerStream, x: PeerStream)
    requires local != remote && x.remote == y.remote == remote && !x.direct
    ensures Replaces(local, y, x) <==>
            Known(x) && Known(y)
            && (Initiator(local, x) == Initiator(local, y) || Initiator(local, x) == Smaller(local, remote))
  {
    LexTrichotomy(local, remote);
  }

  lemma ChosenSome(local: PeerId, small: PeerId, large: PeerId, remote: PeerId, t: seq<PeerStream>)
    requires t != [] && From(remote, t) && {small, large} == {local, remote}
    ensures var c := Chosen(local, small, large, t); c.Some? && c.value in t && (Known(t[0]) <==> Known(c.value))
  {
    LastByIs(local, small, t);
    LastByIs(local, large, t);
    assert t[0] in t;
    assert Initiator(local, t[0]) in {local, remote};
  }

  lemma ChosenStep(local: PeerId, small: PeerId, large: PeerId, remote: PeerId, t: seq<PeerStream>, x: PeerStream)
    requires t != [] && From(remote, t) && x.remote == remote
    requires small != large && {small, large} == {local, remote}
    ensures Chosen(local, small, large, t).Some?
    ensures var y := Chosen(local, small, large, t).value;
            Chosen(local, small, large, t + [x]) ==
            if Known(x) && Known(y) && (Initiator(local, x) == Initiator(local, y) || Initiator(local, x) == small)
            then Some(x) else Some(y)
  {
    ChosenSome(local, small, large, remote, t);
    LastByIs(local, small, t);
    LastByIs(local, large, t);
    assert (t + [x])[..|t|] == t && (t + [x])[|t|] == x && (t + [x])[0] == t[0];
    assert Initiator(local, x) in {small, large};
    assert forall p ::
        LastBy(local, p, t + [x]) == if Known(x) && Initiator(local, x) == p then Some(x) else LastBy(local, p, t);
  }

  lemma SmallerLarger(a: PeerId, b: PeerId)
    requires a != b
    ensures {Smaller(a, b), Larger(a, b)} == {a, b} && Smaller(a, b) != Larger(a, b)
    ensures Smaller(a, b) == Smaller(b, a) && Larger(a, b) == Larger(b, a)
  {
    LexTrichotomy(a, b);
  }

  lemma KeptSome(local: PeerId, remote: PeerId, h: seq<PeerStream>)
    requires local != remote && h != [] && From(remote, h)
    ensures Kept(local, remote, h).Some? && Kept(local, remote, h).value.remote == remote
  {
    SmallerLarger(local, remote);
    ChosenSome(local, Smaller(local, remote), Larger(local, remote), remote, h[Start(h)..]);
  }

  lemma KeptSingle(local: PeerId, remote: PeerId, h: seq<PeerStream>, x: PeerStream)
    requires local != remote && x.remote == remote && (x.direct || h == [])
    ensures Kept(local, remote, h + [x]) == Some(x)
  {
    assert (h + [x])[Start(h + [x])..] == [x];
    SmallerLarger(local, remote);
    hide Smaller, Larger;
    ChosenSome(local, Smaller(local, remote), Larger(local, remote), remote, [x]);
  }

  /** Adding one stream to a history changes the kept stream as `handle` does. */
  lemma KeptStep(local: PeerId, remote: PeerId, h: seq<PeerStream>, x: PeerStream)
    requires local != remote && x.remote == remote && h != [] && From(remote, h)
    ensures Kept(local, remote, h).Some?
    ensures var y := Kept(local, remote, h);
            Kept(local, remote, h + [x]) == if Replaces(local, y.value, x) then Some(x) else y
  {
    KeptSome(local, remote, h);
    if x.direct {
      KeptSingle(local, remote, h, x);
    } else {
      assert (h + [x])[..|h|] == h;
      var t := h[Start(h)..];
      assert (h + [x])[Start(h + [x])..] == t + [x];
      SmallerLarger(local, remote);
      ReplacesIs(local, remote, Kept(local, remote, h).value, x);
      hide Smaller, Larger, Replaces;
      ChosenStep(local, Smaller(local, remote), Larger(local, remote), remote, t, x);
    }
  }

  /** What `Step` does to the entry of one peer. */
  lemma StepAt(local: PeerId, s: State, e: Event, p: PeerId)
    ensures var t := Step(local, s, e).streams;
            if e.xrm.remote != p || Step(local, s, e) == s then
              (p in t <==> p in s.streams) && (p in t ==> t[p] == s.streams[p])
            else if e.Handle? then
              p in t && t[p] == if p in s.streams && !Replaces(local, s.streams[p], e.xrm) then s.streams[p] else e.xrm
            else
              p in t ==> p in s.streams && t[p] == s.streams[p]
  {
    hide LexLess;
  }

  /** In every run, whatever was replaced or removed on the way: the cached stream of a peer is the
      kept one of the streams handled since its entry was last missing. */
  lemma {:induction false} CacheClosedForm(local: PeerId, p: PeerId, es: seq<Event>)
    requires local != p
    ensures var c := Run(local, es).streams;
            Kept(local, p, Epoch(local, p, es)) == if p in c then Some(c[p]) else None
    ensures From(p, Epoch(local, p, es))
  {
    if es != [] {
      var init, e := es[..|es| - 1], es[|es| - 1];
      var h := Epoch(local, p, init);
      CacheClosedForm(local, p, init);
      StepAt(local, Run(local, init), e, p);
      if e.xrm.remote == p {
        if h == [] {
          KeptSingle(local, p, h, e.xrm);
        } else {
          KeptStep(local, p, h, e.xrm);
        }
      } else if h != [] {
        KeptSome(local, p, h);
      }
      hide Kept, Step, Replaces;
    }
  }

  // ---- The two ends agree ----

  /** A stream between two peers, seen by both. */
  datatype Link = Link(id: nat, initiator: PeerId, direct: bool)

  function View(me: PeerId, other: PeerId, l: Link): PeerStream
  {
    PeerStream(l.id, other, l.direct, if l.initiator == me then DirOutbound else DirInbound)
  }

  function Views(me: PeerId, other: PeerId, ls: seq<Link>): (h: seq<PeerStream>)
    ensures |h| == |ls| && forall i :: 0 <= i < |ls| ==> h[i] == View(me, other, ls[i])
  {
    seq(|ls|, i requires 0 <= i < |ls| => View(me, other, ls[i]))
  }

  /** The links one peer initiated, in order. */
  function By(p: PeerId, ls: seq<Link>): seq<Link>
  {
    if ls == [] then []
    else By(p, ls[..|ls| - 1]) + if ls[|ls| - 1].initiator == p then [ls[|ls| - 1]] else []
  }

  predicate Between(a: PeerId, b: PeerId, ls: seq<Link>)
  {
    forall l <- ls :: l.initiator == a || l.initiator == b
  }

  /** The links since the last direct one, it included. */
  function SinceDirect(ls: seq<Link>): (r: seq<Link>)
    ensures ls != [] ==> r != []
  {
    if ls == [] then []
    else if ls[|ls| - 1].direct then [ls[|ls| - 1]]
    else SinceDirect(ls[..|ls| - 1]) + [ls[|ls| - 1]]
  }

  lemma ViewsAppend(me: PeerId, other: PeerId, ls: seq<Link>, l: Link)
    ensures Views(me, other, ls + [l]) == Views(me, other, ls) + [View(me, other, l)]
  {
  }

  lemma {:induction false} SinceDirectIs(me: PeerId, other: PeerId, ls: seq<Link>)
    requires ls != []
    ensures var h := Views(me, other, ls); Views(me, other, SinceDirect(ls)) == h[Start(h)..]
  {
    var init, l := ls[..|ls| - 1], ls[|ls| - 1];
    assert ls == init + [l];
    ViewsAppend(me, other, init, l);
    ViewsAppend(me, other, SinceDirect(init), l);
    var g, v := Views(me, other, init), View(me, other, l);
    var h := g + [v];
    assert Views(me, other, ls) == h && h[..|h| - 1] == g && h[|h| - 1] == v;
    if l.direct {
      ViewsAppend(me, other, [], l);
      assert h[Start(h)..] == [v] && [] + [l] == [l];
    } else if init == [] {
      assert h[Start(h)..] == h;
    } else {
      SinceDirectIs(me, other, init);
      assert h[Start(g)..] == g[Start(g)..] + [v];
    }
  }

  function Last(ls: seq<Link>): Option<Link>
  {
    if ls == [] then None else Some(ls[|ls| - 1])
  }

  lemma LastOfBy(p: PeerId, ls: seq<Link>)
    requires ls != []
    ensures var l := ls[|ls| - 1]; Last(By(p, ls)) == if l.initiator == p then Some(l) else Last(By(p, ls[..|ls| - 1]))
  {
  }

  lemma {:induction false} LastByOfViews(me: PeerId, other: PeerId, p: PeerId, ls: seq<Link>)
    requires me != other && (p == me || p == other) && Between(me, other, ls)
    ensures LastBy(me, p, Views(me, other, ls)) ==
            match Last(By(p, ls)) case None => None case Some(l) => Some(View(me, other, l))
  {
    if ls == [] {
      assert Views(me, other, ls) == [];
    } else {
      var init, l := ls[..|ls| - 1], ls[|ls| - 1];
      assert ls == init + [l] && l in ls;
      LastByOfViews(me, other, p, init);
      LastOfBy(p, ls);
      ViewsAppend(me, other, init, l);
      LastByAppend(me, p, Views(me, other, init), View(me, other, l));
      hide Views, LastBy, By, Last;
    }
  }

  lemma LastByAppend(local: PeerId, p: PeerId, h: seq<PeerStream>, x: PeerStream)
    ensures LastBy(local, p, h + [x]) == if Known(x) && Initiator(local, x) == p then Some(x) else LastBy(local, p, h)
  {
    assert (h + [x])[..|h|] == h;
  }

  /** The last link of the smaller initiator, or else of the larger, since the last direct link. */
  function KeptLink(a: PeerId, b: PeerId, ls: seq<Link>): Option<Link>
  {
    var small := Last(By(Smaller(a, b), SinceDirect(ls)));
    if small.Some? then small else Last(By(Larger(a, b), SinceDirect(ls)))
  }

  lemma KeptOfViews(me: PeerId, other: PeerId, ls: seq<Link>)
    requires me != other && ls != [] && Between(me, other, ls)
    ensures KeptLink(me, other, ls).Some?
    ensures Kept(me, other, Views(me, other, ls)) == Some(View(me, other, KeptLink(me, other, ls).value))
  {
    var h, r := Views(me, other, ls), SinceDirect(ls);
    SinceDirectIs(me, other, ls);
    SinceDirectBetween(me, other, ls);
    SmallerLarger(me, other);
    KeptSome(me, other, h);
    hide Smaller, Larger;
    LastByOfViews(me, other, Smaller(me, other), r);
    LastByOfViews(me, other, Larger(me, other), r);
    assert h[Start(h)..][0] == View(me, other, r[0]);
    hide Views, SinceDirect, By, LastBy, Start;
  }

  lemma {:induction false} SinceDirectBetween(a: PeerId, b: PeerId, ls: seq<Link>)
    requires Between(a, b, ls)
    ensures Between(a, b, SinceDirect(ls))
  {
    if ls != [] {
      SinceDirectBetween(a, b, ls[..|ls| - 1]);
    }
  }

  /** The two ends of any two histories keep the same link if and only if the same link is the last of the
      smaller initiator, or else of the larger, since the last direct one in both. */
  lemma EndsAgreeIff(a: PeerId, b: PeerId, atA: seq<Link>, atB: seq<Link>)
    requires a != b && atA != [] && atB != [] && Between(a, b, atA) && Between(a, b, atB)
    ensures Kept(a, b, Views(a, b, atA)).Some? && Kept(b, a, Views(b, a, atB)).Some?
    ensures KeptLink(a, b, atA).Some? && KeptLink(a, b, atB).Some?
    ensures Kept(a, b, Views(a, b, atA)).value.id == Kept(b, a, Views(b, a, atB)).value.id
            <==> KeptLink(a, b, atA).value.id == KeptLink(a, b, atB).value.id
  {
    hide *;
    KeptOfViews(a, b, atA);
    KeptOfViews(b, a, atB) by { BetweenSwap(a, b, atB); }
    SameKeptLink(a, b, atB, atB);
    ViewId(a, b, KeptLink(a, b, atA).value);
    ViewId(b, a, KeptLink(b, a, atB).value);
  }

  /** In particular, two peers that have seen the same links since their last direct one, each initiator's
      in the order it opened them but otherwise interleaved in any way, keep the same link. */
  lemma EndsAgree(a: PeerId, b: PeerId, atA: seq<Link>, atB: seq<Link>)
    requires a != b && atA != [] && atB != [] && Between(a, b, atA) && Between(a, b, atB)
    requires By(a, SinceDirect(atA)) == By(a, SinceDirect(atB))
    requires By(b, SinceDirect(atA)) == By(b, SinceDirect(atB))
    ensures Kept(a, b, Views(a, b, atA)).Some? && Kept(b, a, Views(b, a, atB)).Some?
    ensures Kept(a, b, Views(a, b, atA)).value.id == Kept(b, a, Views(b, a, atB)).value.id
  {
    hide *;
    EndsAgreeIff(a, b, atA, atB);
    SameKeptLink(a, b, atA, atB);
    SameKeptLink(a, b, atB, atB);
  }

  lemma SameKeptLink(a: PeerId, b: PeerId, x: seq<Link>, y: seq<Link>)
    requires a != b
    requires By(a, SinceDirect(x)) == By(a, SinceDirect(y)) && By(b, SinceDirect(x)) == By(b, SinceDirect(y))
    ensures KeptLink(a, b, x) == KeptLink(b, a, y)
  {
    SmallerLarger(a, b);
    hide Smaller, Larger, By, SinceDirect;
  }

  lemma BetweenSwap(a: PeerId, b: PeerId, ls: seq<Link>)
    requires Between(a, b, ls)
    ensures Between(b, a, ls)
  {
  }

  lemma ViewId(me: PeerId, other: PeerId, l: Link)
    ensures View(me, other, l).id == l.id
  {
  }

  /** With relayed links only, the condition is on the whole histories. */
  lemma {:induction false} RelayedSinceDirect(ls: seq<Link>)
    requires forall l <- ls :: !l.direct
    ensures SinceDirect(ls) == ls
  {
    if ls != [] {
      RelayedSinceDirect(ls[..|ls| - 1]);
      assert ls[|ls| - 1] in ls;
    }
  }

  /** The same for whole runs: when the streams each end has handled since its entry was last missing are
      links between the two, both ends have an entry, and it is the same link if and only if the two
      histories have the same link to keep. */
  lemma RunsAgreeIff(a: PeerId, b: PeerId, runA: seq<Event>, runB: seq<Event>, atA: seq<Link>, atB: seq<Link>)
    requires a != b && atA != [] && atB != [] && Between(a, b, atA) && Between(a, b, atB)
    requires Epoch(a, b, runA) == Views(a, b, atA) && Epoch(b, a, runB) == Views(b, a, atB)
    ensures b in Run(a, runA).streams && a in Run(b, runB).streams
    ensures KeptLink(a, b, atA).Some? && KeptLink(a, b, atB).Some?
    ensures Run(a, runA).streams[b].id == Run(b, runB).streams[a].id
            <==> KeptLink(a, b, atA).value.id == KeptLink(a, b, atB).value.id
  {
    hide *;
    CacheClosedForm(a, b, runA);
    CacheClosedForm(b, a, runB);
    EndsAgreeIff(a, b, atA, atB);
  }

  lemma RunsAgree(a: PeerId, b: PeerId, runA: seq<Event>, runB: seq<Event>, atA: seq<Link>, atB: seq<Link>)
    requires a != b && atA != [] && atB != [] && Between(a, b, atA) && Between(a, b, atB)
    requires By(a, SinceDirect(atA)) == By(a, SinceDirect(atB))
    requires By(b, SinceDirect(atA)) == By(b, SinceDirect(atB))
    requires Epoch(a, b, runA) == Views(a, b, atA) && Epoch(b, a, runB) == Views(b, a, atB)
    ensures b in Run(a, runA).streams && a in Run(b, runB).streams
    ensures Run(a, runA).streams[b].id == Run(b, runB).streams[a].id
  {
    hide *;
    RunsAgreeIff(a, b, runA, runB, atA, atB);
    SameKeptLink(a, b, atA, atB);
    SameKeptLink(a, b, atB, atB);
  }

  /** One end that has the links handed to it one by one. */
  function Arriving(me: PeerId, other: PeerId, ls: seq<Link>): seq<Event>
  {
    seq(|ls|, i requires 0 <= i < |ls| => Handle(View(me, other, ls[i])))
  }

  predicate Different(ls: seq<Link>)
  {
    forall i, j :: 0 <= i < j < |ls| ==> ls[i].id != ls[j].id
  }

  lemma ArrivingMore(me: PeerId, other: PeerId, init: seq<Link>, l: Link)
    ensures Arriving(me, other, init + [l]) == Arriving(me, other, init) + [Handle(View(me, other, l))]
    ensures (Arriving(me, other, init) + [Handle(View(me, other, l))])[..|init|] == Arriving(me, other, init)
  {
  }

  /** Handling a new stream: its reader is added, and the history of its peer goes on. */
  lemma HandleNew(me: PeerId, es: seq<Event>, x: PeerStream)
    requires forall r <- Run(me, es).readers :: r.id != x.id
    ensures Run(me, es + [Handle(x)]) == Handled(me, Run(me, es), x)
    ensures Epoch(me, x.remote, es + [Handle(x)]) == Epoch(me, x.remote, es) + [x]
  {
    assert (es + [Handle(x)])[..|es|] == es;
    assert x in Handled(me, Run(me, es), x).readers && x !in Run(me, es).readers;
    hide Replaces;
  }

  lemma {:induction false} ArrivingReaders(me: PeerId, other: PeerId, ls: seq<Link>)
    ensures forall x <- Run(me, Arriving(me, other, ls)).readers :: exists l :: l in ls && x.id == l.id
  {
    if ls != [] {
      var init, l := ls[..|ls| - 1], ls[|ls| - 1];
      assert ls == init + [l];
      ArrivingReaders(me, other, init);
      ArrivingMore(me, other, init, l);
      var es, x := Arriving(me, other, init), View(me, other, l);
      assert Run(me, es + [Handle(x)]) == Step(me, Run(me, es), Handle(x));
      assert Run(me, es + [Handle(x)]).readers <= Run(me, es).readers + {x};
      hide Run, Step, Arriving;
      assert l in ls && x.id == l.id;
    }
  }

  lemma {:induction false} ArrivingEpoch(me: PeerId, other: PeerId, ls: seq<Link>)
    requires Different(ls)
    ensures Epoch(me, other, Arriving(me, other, ls)) == Views(me, other, ls)
  {
    if ls == [] {
      assert Views(me, other, ls) == [];
    } else {
      var init, l := ls[..|ls| - 1], ls[|ls| - 1];
      assert ls == init + [l] && forall k <- init :: k.id != l.id;
      ArrivingEpoch(me, other, init);
      ArrivingReaders(me, other, init);
      ArrivingMore(me, other, init, l);
      ViewsAppend(me, other, init, l);
      ViewId(me, other, l);
      assert View(me, other, l).remote == other;
      hide Run, Epoch, Arriving, Views, View;
      HandleNew(me, Arriving(me, other, init), View(me, other, l));
    }
  }

  /** Two peers that are handed the same relayed links, in any two orders that keep each initiator's
      own, cache the same link. */
  lemma RelayedAgree(a: PeerId, b: PeerId, atA: seq<Link>, atB: seq<Link>)
    requires a != b && atA != [] && atB != [] && Between(a, b, atA) && Between(a, b, atB)
    requires Different(atA) && Different(atB)
    requires (forall l <- atA :: !l.direct) && (forall l <- atB :: !l.direct)
    requires By(a, atA) == By(a, atB) && By(b, atA) == By(b, atB)
    ensures var s, t := Run(a, Arriving(a, b, atA)).streams, Run(b, Arriving(b, a, atB)).streams;
            b in s && a in t && s[b].id == t[a].id
  {
    hide *;
    RelayedSinceDirect(atA);
    RelayedSinceDirect(atB);
    ArrivingEpoch(a, b, atA);
    ArrivingEpoch(b, a, atB);
    RunsAgree(a, b, Arriving(a, b, atA), Arriving(b, a, atB), atA, atB);
  }

  /** One direct link among the relayed ones breaks the agreement on whole histories: of a direct link
      opened by the larger peer and a relayed one opened by the smaller, an end keeps the later. */
  lemma DirectLinkCanSplit(a: PeerId, b: PeerId)
    requires LexLess(a, b)
    ensures var r, d := Link(0, a, false), Link(1, b, true);
            var s, t := Run(a, Arriving(a, b, [r, d])).streams, Run(b, Arriving(b, a, [d, r])).streams;
            && By(a, [r, d]) == By(a, [d, r]) && By(b, [r, d]) == By(b, [d, r])
            && b in s && a in t && s[b].id == 1 && t[a].id == 0
  {
    var r, d := Link(0, a, false), Link(1, b, true);
    LexTrichotomy(a, b);
    ByPair(a, r, d);
    ByPair(b, r, d);
    ByPair(a, d, r);
    ByPair(b, d, r);
    SinceDirectPairs(r, d);
    assert KeptLink(a, b, [r, d]) == Some(d) by {
      hide LexLess;
    }
    assert KeptLink(b, a, [d, r]) == Some(r) by {
      hide LexLess;
    }
    hide *;
    CacheOfLinks(a, b, [r, d]);
    CacheOfLinks(b, a, [d, r]);
  }

  lemma SinceDirectPairs(r: Link, d: Link)
    requires d.direct && !r.direct
    ensures SinceDirect([r, d]) == [d] && SinceDirect([d, r]) == [d, r]
  {
    assert [d, r][..1] == [d];
  }

  /** The cache of an end that is handed links one by one. */
  lemma CacheOfLinks(me: PeerId, other: PeerId, ls: seq<Link>)
    requires me != other && ls != [] && Between(me, other, ls) && Different(ls)
    ensures other in Run(me, Arriving(me, other, ls)).streams && KeptLink(me, other, ls).Some?
    ensures Run(me, Arriving(me, other, ls)).streams[other].id == KeptLink(me, other, ls).value.id
  {
    hide *;
    ArrivingEpoch(me, other, ls);
    CacheClosedForm(me, other, Arriving(me, other, ls));
    KeptOfViews(me, other, ls);
    ViewId(me, other, KeptLink(me, other, ls).value);
  }

  lemma ByPair(p: PeerId, k: Link, l: Link)
    ensures By(p, [k, l]) == (if k.initiator == p then [k] else []) + (if l.initiator == p then [l] else [])
  {
    assert [k, l][..1] == [k] && [k][..0] == [];
    assert By(p, [k]) == By(p, []) + if k.initiator == p then [k] else [];
  }
}
