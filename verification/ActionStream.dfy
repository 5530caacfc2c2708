/** Whole actions over a connection: from the encoder and the write loop of one side to the read loop, the
    parser and the receiver channel of the other. */
module ActionStream {
  import opened Bytes
  import opened FrameFormat
  import opened Frames
  import opened Transport
  import opened Wire
  import opened Correlation

  lemma MetaOrData(a: Action)
    ensures FrameOf(a).flag == 1 || FrameOf(a).flag == 2
    ensures |a.Payload()| <= MAX_INT ==> Sendable(FrameOf(a))
  {
  }

  lemma AllAre(fs: seq<FrameValue>)
    requires forall i :: 0 <= i < |fs| ==> Sendable(fs[i])
    ensures AllSendable(fs)
  {
  }

  /** All the actions, in order, if no write failed; the first of them otherwise. */
  method TransferActions(frames: seq<Frame>, ghost actions: seq<Action>) returns (handled: seq<FrameValue>, ok: bool)
    requires |frames| == |actions|
    requires forall i :: 0 <= i < |actions| ==>
               frames[i].Value() == FrameOf(actions[i]) && |actions[i].Payload()| <= MAX_INT
    ensures |handled| <= |actions| && (ok ==> |handled| == |actions|)
    ensures forall i :: 0 <= i < |handled| ==> handled[i] == FrameOf(actions[i])
  {
    ghost var fs := seq(|actions|, i requires 0 <= i < |actions| => FrameOf(actions[i]));
    forall i | 0 <= i < |fs| ensures Sendable(fs[i]) && (fs[i].flag == 1 || fs[i].flag == 2) {
      MetaOrData(actions[i]);
    }
    hide *;
    assert AllSendable(fs) by {
      AllAre(fs);
    }
    ghost var cut: nat;
    handled, ok, cut := Transfer(frames, fs);
  }

  /** Requests of one protocol, written as frame objects, are in the receiver channel of the other side in
      the order they were written, behind what it held, up to its capacity. */
  method SendRequests(frames: seq<Frame>, ghost requests: seq<Action>, e: Exchange) returns (ok: bool, ghost n: nat)
    requires |frames| == |requests| && |e.receiver| <= 1000
    requires forall i :: 0 <= i < |requests| ==>
               && frames[i].Value() == FrameOf(requests[i]) && requests[i].Kind() == e.kind
               && !requests[i].IsResponse() && Carried(requests[i])
    modifies e`receiver, e.result.Values
    ensures n <= |requests| && (ok ==> n == |requests|)
    ensures e.receiver == First1000(old(e.receiver) + requests[..n])
    ensures forall c <- e.result.Values :: c.mail == old(c.mail)
  {
    var handled: seq<FrameValue>;
    handled, ok := TransferActions(frames, requests);
    n := |handled|;
    hide FrameOf, Carried, First1000;
    var crashed := e.HandleRequests(handled, requests[..n]);
  }
}
