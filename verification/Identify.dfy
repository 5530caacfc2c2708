/** internal/common/protocol/identify/identify.go: queries under 16-bit ids that wrap around. */
module Identify {
  import opened Bytes
  import opened Options
  import opened FrameFormat

  const IDS: nat := 0x1_0000

  /** The counter and the result map of one client. A query is named by how many were started before
      it, and its name stands for its channel; `open` is history: the queries still waiting. */
  datatype State = State(resultID: uint16, result: map<uint16, nat>, started: nat, open: map<nat, uint16>)

  const INIT := State(0, map[], 0, map[])

  function Begun(s: State): State
  {
    State((s.resultID + 1) as int % IDS, s.result[s.resultID := s.started],
          s.started + 1, s.open[s.started := s.resultID])
  }

  function Ended(s: State, q: nat): State
    requires q in s.open
  {
    s.(result := s.result - {s.open[q]}, open := s.open - {q})
  }

  /** The critical sections of `QueryEVM` and `handleData`; `mail` is what the channels hold. */
  class Queries {
    var resultID: uint16
    var result: map<uint16, nat>
    var mail: map<nat, seq<byte>>
    ghost var started: nat
    ghost var open: map<nat, uint16>

    ghost function Abs(): State
      reads this
    {
      State(resultID, result, started, open)
    }

    constructor ()
      ensures Abs() == INIT && mail == map[]
    {
      resultID, result, mail, started, open := 0, map[], map[], 0, map[];
    }

    /** The new channel is empty. */
    method Begin(channel: nat) returns (id: uint16)
      requires channel == started
      modifies this
      ensures Abs() == Begun(old(Abs())) && id == old(resultID) && started - 1 in open && open[started - 1] == id
      ensures mail == old(mail) - {channel}
    {
      id := resultID;
      result := result[id := channel];
      mail := mail - {channel};
      resultID := if id == IDS - 1 then 0 else id + 1;
      open := open[started := id];
      started := started + 1;
    }

    method End(id: uint16, ghost q: nat)
      requires q in open && open[q] == id
      modifies this
      ensures Abs() == Ended(old(Abs()), q) && mail == old(mail)
    {
      result := result - {id};
      open := open - {q};
    }

    /** An answer goes to the channel under its id, if there is one and it is empty. */
    method HandleData(payload: seq<byte>) returns (panicked: bool)
      modifies this`mail
      ensures panicked <==> |payload| < 2
      ensures mail == if !panicked && FromBE(payload[..2]) in result && result[FromBE(payload[..2])] !in old(mail)
                      then old(mail)[result[FromBE(payload[..2])] := payload[2..]] else old(mail)
    {
      if |payload| < 2 {
        return true;
      }
      var id := FromBE(payload[..2]);
      if id in result && result[id] !in mail {
        mail := mail[result[id] := payload[2..]];
      }
      return false;
    }
  }

  /** Each waiting query has its own id, and the result map is exactly theirs. */
  ghost predicate Exact(s: State)
  {
    && s.result.Keys == s.open.Values
    && (forall q <- s.open :: s.open[q] in s.result && s.result[s.open[q]] == q)
  }

  /** Ids are handed out in turn. */
  ghost predicate Counted(s: State)
  {
    s.resultID == s.started % IDS && forall q <- s.open :: q < s.started && s.open[q] == q % IDS
  }

  lemma ValuesMore(open: map<nat, uint16>, q: nat, id: uint16)
    requires q !in open
    ensures open[q := id].Values == open.Values + {id}
  {
    var more := open[q := id];
    assert more[q] == id;
    assert forall r <- open :: r in more && more[r] == open[r];
  }

  /** Starting a query keeps the bookkeeping exact if and only if nobody waits under the next id. */
  lemma BeginIff(s: State)
    requires Exact(s) && Counted(s)
    ensures Counted(Begun(s))
    ensures Exact(Begun(s)) <==> s.resultID !in s.result
  {
    var t := Begun(s);
    assert s.started !in s.open;
    ValuesMore(s.open, s.started, s.resultID);
    assert Counted(t);
    hide Counted;
    if s.resultID in s.result {
      assert s.resultID in s.open.Values;
      var q :| q in s.open && s.open[q] == s.resultID;
      assert t.open[q] == s.resultID && t.result[s.resultID] == s.started != q;
    }
  }

  /** Ending one query removes its own slot and leaves every other query's in place. */
  lemma EndKeeps(s: State, q: nat)
    requires Exact(s) && Counted(s) && q in s.open
    ensures Exact(Ended(s, q)) && Counted(Ended(s, q))
    ensures forall r <- s.open :: r != q ==> s.open[r] in Ended(s, q).result && Ended(s, q).result[s.open[r]] == r
  {
    var t := Ended(s, q);
    assert forall r <- s.open :: r != q ==> s.open[r] != s.open[q];
    forall id ensures id in t.result <==> id in t.open.Values {
      if id in t.result {
        assert id in s.open.Values;
        var r :| r in s.open && s.open[r] == id;
        assert r in t.open && t.open[r] == id;
      }
      if id in t.open.Values {
        var r :| r in t.open && t.open[r] == id;
        assert s.open[r] in s.open.Values;
      }
    }
  }

  /** Fewer than 65536 queries have been started since any waiting one, counting the one to start. */
  ghost predicate Window(s: State)
  {
    forall q <- s.open :: s.started - q < IDS
  }

  /** Within the window the next id is free; and it is taken exactly when some waiting query is a
      multiple of 65536 starts back. */
  lemma NextIdFree(s: State)
    requires Exact(s) && Counted(s)
    ensures Window(s) ==> s.resultID !in s.result
    ensures s.resultID in s.result <==> exists q :: q in s.open && (s.started - q) % IDS == 0
  {
    forall q <- s.open ensures s.open[q] == s.resultID <==> (s.started - q) % IDS == 0 {
      SameRemainder(q, s.started);
    }
    if s.resultID in s.result {
      var q :| q in s.open && s.open[q] == s.resultID;
    }
    if q :| q in s.open && (s.started - q) % IDS == 0 {
      assert s.open[q] in s.result;
    }
  }

  lemma SameRemainder(a: nat, b: nat)
    requires a < b
    ensures a % IDS == b % IDS <==> (b - a) % IDS == 0
    ensures b - a < IDS ==> (b - a) % IDS != 0
  {
  }

  datatype Event = Begin | End(q: nat)

  function Step(s: State, e: Event): State
  {
    match e
    case Begin => Begun(s)
    case End(q) => if q in s.open then Ended(s, q) else s
  }

  function Run(es: seq<Event>): State
  {
    if es == [] then INIT else Step(Run(es[..|es| - 1]), es[|es| - 1])
  }

  /** The window held whenever a query was started. */
  ghost predicate Windowed(es: seq<Event>)
  {
    es == [] || (Windowed(es[..|es| - 1]) && (es[|es| - 1].Begin? ==> Window(Run(es[..|es| - 1]))))
  }

  /** In every such run waiting queries have different ids, and the result map holds exactly their
      channels. */
  lemma {:induction false} DistinctIds(es: seq<Event>)
    requires Windowed(es)
    ensures Exact(Run(es)) && Counted(Run(es))
    ensures var s := Run(es); forall q, r :: q in s.open && r in s.open && s.open[q] == s.open[r] ==> q == r
  {
    if es != [] {
      var s, e := Run(es[..|es| - 1]), es[|es| - 1];
      DistinctIds(es[..|es| - 1]);
      match e
      case Begin =>
        NextIdFree(s);
        BeginIff(s);
      case End(q) =>
        if q in s.open {
          EndKeeps(s, q);
        }
    }
  }

  /** In such a run the answer to a waiting query, which starts with the bytes of its id, is for the channel of
      that query: the entry under these bytes is the query itself. */
  lemma AnswerFindsQuery(es: seq<Event>, q: nat, evmAddr: seq<byte>)
    requires Windowed(es) && q in Run(es).open
    ensures var s := Run(es);
            var payload := Echo(BE(s.open[q], 2), evmAddr);
            && |payload| >= 2 && payload[2..] == evmAddr
            && FromBE(payload[..2]) in s.result && s.result[FromBE(payload[..2])] == q
  {
    DistinctIds(es);
    var id := Run(es).open[q];
    Pow256Values();
    BERoundTrip(id, 2);
    assert Echo(BE(id, 2), evmAddr)[..2] == BE(id, 2);
    hide Run, BE, FromBE;
  }

  /** `handleMeta`: the query's payload with the address behind it. */
  function Echo(query: seq<byte>, evmAddr: seq<byte>): seq<byte>
  {
    query + evmAddr
  }

  /** Through both frames, the answer comes back under the id that was sent, with the address. */
  lemma AnswerRoundTrip(id: uint16, evmAddr: seq<byte>, tail: seq<byte>)
    requires |evmAddr| + 2 <= MAX_INT
    ensures var query := FrameValue(FLAG_META, BE(id, 2));
            ParseFrame(EncodeFrame(query) + tail) == Got(query, |EncodeFrame(query)|)
    ensures var answer := FrameValue(FLAG_DATA, Echo(BE(id, 2), evmAddr));
            && ParseFrame(EncodeFrame(answer) + tail) == Got(answer, |EncodeFrame(answer)|)
            && FromBE(answer.payload[..2]) == id && answer.payload[2..] == evmAddr
  {
    FrameRoundTrip(FrameValue(FLAG_META, BE(id, 2)), tail);
    FrameRoundTrip(FrameValue(FLAG_DATA, Echo(BE(id, 2), evmAddr)), tail);
    hide EncodeFrame, ParseFrame;
    Pow256Values();
    BERoundTrip(id, 2);
    assert Echo(BE(id, 2), evmAddr)[..2] == BE(id, 2);
  }
}
