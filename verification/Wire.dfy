/** The text and image protocols above the frame layer: what an action puts on the wire, and where
    the frame goes at the other end (internal/common/protocol/text/text.go and image/image.go). */
module Wire {
  import opened Bytes
  import opened FrameFormat
  import T = TextTypes
  import I = ImageTypes

  /** The two protocols, each with its own streams, result map and receiver channel. */
  datatype Kind = TextKind | ImageKind

  datatype Action = Text(text: T.Action) | Image(image: I.Action)
  {
    function Kind(): Kind { if Text? then TextKind else ImageKind }
    function Id(): uint64 { if Text? then text.id else image.id }
    function Flag(): byte { if Text? then text.Flag() else image.Flag() }
    function Payload(): seq<byte> { if Text? then text.Payload() else image.Payload() }
    predicate IsResponse() { if Text? then text.IsResponse() else image.IsResponse() }

    /** `Response.OK` */
    predicate Positive()
      requires IsResponse()
    {
      if Text? then text.ok else image.ok
    }
  }

  predicate Carried(a: Action)
  {
    |a.Payload()| <= MAX_INT && (a.Image? ==> I.Carried(a.image))
  }

  function FrameBytes(a: Action): seq<byte>
  {
    EncodeFrame(FrameValue(a.Flag(), a.Payload()))
  }

  /** A read loop that panics, a frame that is dropped, an action for the receiver channel, or a
      response for the result slot of its id. */
  datatype Routed = Crash | Nowhere | ToReceiver(request: Action) | ToSlot(response: Action)

  /** Every action has the methods of a request, so whatever is not a response in a meta frame goes to
      the receiver; `receive` then ignores a response that came in a data frame. */
  function Classify(a: Action, meta: bool): Routed
  {
    if meta && a.IsResponse() then ToSlot(a) else ToReceiver(a)
  }

  /** `readLoop`'s dispatch followed by `handleMeta` or `handleData`. */
  function Route(kind: Kind, f: FrameValue): Routed
  {
    if f.flag != FLAG_META && f.flag != FLAG_DATA then Nowhere
    else
      match kind
      case TextKind =>
        (match T.Parse(f.payload)
         case Malformed => Crash
         case Unknown => Nowhere
         case Parsed(a) => Classify(Text(a), f.flag == FLAG_META))
      case ImageKind =>
        (match I.Parse(f.payload)
         case Malformed => Crash
         case Unknown => Nowhere
         case Parsed(a) => Classify(Image(a), f.flag == FLAG_META))
  }

  /** One incoming byte string, read as a frame and routed. */
  function Receive(kind: Kind, bytes: seq<byte>): Routed
  {
    match ParseFrame(bytes)
    case Got(f, _) => Route(kind, f)
    case Short => Nowhere
    case TooLarge => Crash
  }

  /** All ten actions, through encoder, frame, reader, `parse` and dispatch: the frame is taken off
      the stream exactly, and the action arrives at the right place unchanged if and only if the
      encoding can carry it. */
  lemma FullStack(a: Action, tail: seq<byte>)
    requires |a.Payload()| <= MAX_INT
    ensures ParseFrame(FrameBytes(a) + tail) == Got(FrameValue(a.Flag(), a.Payload()), |FrameBytes(a)|)
    ensures Carried(a) <==>
            Route(a.Kind(), FrameValue(a.Flag(), a.Payload())) == if a.IsResponse() then ToSlot(a) else ToReceiver(a)
  {
    FrameRoundTrip(FrameValue(a.Flag(), a.Payload()), tail);
    hide EncodeFrame, ParseFrame;
    if a.Text? {
      RouteText(a.text);
    } else {
      RouteImage(a.image);
      hide I.Carried;
    }
    hide Route;
  }

  lemma RouteText(a: T.Action)
    ensures Route(TextKind, FrameValue(a.Flag(), a.Payload())) ==
            if a.IsResponse() then ToSlot(Text(a)) else ToReceiver(Text(a))
  {
    T.RoundTrip(a);
    hide T.Parse;
  }

  lemma RouteImage(a: I.Action)
    ensures I.Carried(a) <==>
            Route(ImageKind, FrameValue(a.Flag(), a.Payload())) ==
            if a.IsResponse() then ToSlot(Image(a)) else ToReceiver(Image(a))
  {
    I.RoundTripIff(a);
    hide I.Parse, I.Carried;
  }

  /** Whatever frame an action comes in: a response in a meta frame goes to its slot; anything else in a meta
      or data frame goes to the receiver; all other frames go nowhere. */
  lemma AnyFlag(a: Action, flag: byte)
    requires Carried(a)
    ensures Route(a.Kind(), FrameValue(flag, a.Payload())) ==
            if flag == 1 && a.IsResponse() then ToSlot(a) else if flag == 1 || flag == 2 then ToReceiver(a) else Nowhere
  {
    if a.Text? {
      T.RoundTrip(a.text);
    } else {
      I.RoundTripIff(a.image);
    }
    hide T.Parse, I.Parse, I.Carried;
  }

  lemma ReceiveCarried(a: Action)
    requires Carried(a)
    ensures Receive(a.Kind(), FrameBytes(a)) == if a.IsResponse() then ToSlot(a) else ToReceiver(a)
  {
    FullStack(a, []);
    assert FrameBytes(a) + [] == FrameBytes(a);
  }
}

/** The request/response half of `Text` and `Image`, which the two packages write out alike: a result
    map from message id to a one-slot channel, and a bounded receiver channel. */
module Correlation {
  import opened Bytes
  import opened FrameFormat
  import opened Wire
  import T = TextTypes
  import I = ImageTypes

  const RECV_BUF_SIZE: nat := 1000

  /** `make(chan proto.Response, 1)` */
  class Chan {
    var mail: seq<Action>

    constructor ()
      ensures mail == []
    {
      mail := [];
    }
  }

  /** The first 1000 of a queue: what a full receiver channel holds of all that was sent to it. */
  function First1000(queue: seq<Action>): seq<Action>
  {
    if |queue| <= 1000 then queue else queue[..1000]
  }

  /** The frame of an action. */
  function FrameOf(a: Action): FrameValue
  {
    FrameValue(a.Flag(), a.Payload())
  }

  lemma RequestRoutes(a: Action)
    requires Carried(a) && !a.IsResponse()
    ensures FrameOf(a).flag == FLAG_META || FrameOf(a).flag == FLAG_DATA
    ensures Route(a.Kind(), FrameValue(FrameOf(a).flag, FrameOf(a).payload)) == ToReceiver(a)
  {
    FullStack(a, []);
    hide Route, Carried, FrameBytes, ParseFrame;
  }

  lemma FirstOfMore(before: seq<Action>, more: seq<Action>, i: nat)
    requires i < |more|
    ensures var q := First1000(before + more[..i]);
            First1000(before + more[..i + 1]) == if |q| < 1000 then q + [more[i]] else q
  {
    assert before + more[..i + 1] == before + more[..i] + [more[i]];
  }

  class Exchange {
    const kind: Kind
    var result: map<uint64, Chan>
    var receiver: seq<Action>

    constructor (kind: Kind)
      ensures this.kind == kind && result == map[] && receiver == []
    {
      this.kind, result, receiver := kind, map[], [];
    }

    /** `handleMeta` (or `handleData`, for a data frame). A response lands in the channel registered
        for its id, if that is empty, and in no other; a request goes behind those in the receiver, if it
        is not full; nothing else changes. */
    method Handle(flag: byte, payload: seq<byte>) returns (crashed: bool)
      requires flag == FLAG_META || flag == FLAG_DATA
      modifies this`receiver, result.Values
      ensures crashed <==> Route(kind, FrameValue(flag, payload)).Crash?
      ensures receiver == match Route(kind, FrameValue(flag, payload))
                          case ToReceiver(a) => if |old(receiver)| < 1000 then old(receiver) + [a] else old(receiver)
                          case _ => old(receiver)
      ensures forall c | c in result.Values ::
                c.mail == match Route(kind, FrameValue(flag, payload))
                          case ToSlot(a) => if a.Id() in result && result[a.Id()] == c
                            then (if old(c.mail) == [] then [a] else old(c.mail)) else old(c.mail)
                          case _ => old(c.mail)
    {
      hide T.Parse, I.Parse;
      crashed := false;
      match Route(kind, FrameValue(flag, payload))
      case Crash => crashed := true;
      case Nowhere =>
      case ToReceiver(a) =>
        if |receiver| < RECV_BUF_SIZE {
          receiver := receiver + [a];
        }
      case ToSlot(a) =>
        if a.Id() in result {
          var c := result[a.Id()];
          if |c.mail| < 1 {
            c.mail := c.mail + [a];
          }
        }
    }

    /** The read loop's calls for the frames of these requests, one after the other, with the receive loop
        not taking any: the channel holds the first 1000 of all, in order of arrival. */
    method HandleRequests(frames: seq<FrameValue>, ghost requests: seq<Action>) returns (crashed: bool)
      requires |receiver| <= 1000 && |frames| == |requests|
      requires forall i :: 0 <= i < |requests| ==>
                 && frames[i] == FrameOf(requests[i]) && requests[i].Kind() == kind
                 && !requests[i].IsResponse() && Carried(requests[i])
      modifies this`receiver, result.Values
      ensures !crashed
      ensures receiver == First1000(old(receiver) + requests)
      ensures forall c <- result.Values :: c.mail == old(c.mail)
    {
      ghost var before := receiver;
      assert before + requests[..0] == before;
      hide First1000;
      for i := 0 to |frames|
        invariant receiver == First1000(before + requests[..i])
        invariant forall c <- result.Values :: c.mail == old(c.mail)
      {
        RequestRoutes(requests[i]);
        FirstOfMore(before, requests, i);
        hide *;
        crashed := Handle(frames[i].flag, frames[i].payload);
      }
      assert requests[..|frames|] == requests;
      crashed := false;
    }

    /** The two critical sections of `Request`. */
    method Register(id: uint64) returns (c: Chan)
      modifies this`result
      ensures fresh(c) && c.mail == [] && result == old(result)[id := c]
    {
      c := new Chan();
      result := result[id := c];
    }

    method Unregister(id: uint64)
      modifies this`result
      ensures result == old(result) - {id}
    {
      result := result - {id};
    }
  }
}
