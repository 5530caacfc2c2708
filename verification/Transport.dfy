/** Frames over a connection: internal/common/protocol/reader.go, and the write loop and read loop of
    internal/common/xrmmgr.go. */
module Transport {
  import opened Bytes
  import opened FrameFormat
  import opened Frames

  const CHUNK: nat := 4096

  /** The reading end of a connection. `data` is everything that will still arrive before the
      connection ends, times out or breaks; how it is cut into reads is not determined. */
  class Conn {
    var data: seq<byte>

    constructor (data: seq<byte>)
      ensures this.data == data
    {
      this.data := data;
    }

    method Read(buf: array<byte>, lo: nat, hi: nat) returns (n: nat, ok: bool)
      requires lo < hi <= buf.Length
      modifies this, buf
      ensures ok <==> old(data) != []
      ensures ok ==> 1 <= n <= hi - lo && n <= |old(data)|
      ensures !ok ==> n == 0
      ensures data == old(data)[n..]
      ensures buf[..] == old(buf[..lo]) + old(data)[..n] + old(buf[lo + n..])
    {
      if data == [] {
        return 0, false;
      }
      n :| 1 <= n <= hi - lo && n <= |data|;
      forall i | 0 <= i < n { buf[lo + i] := data[i]; }
      data := data[n..];
      ok := true;
    }
  }

  /** `io.ReadFull(conn, buf[lo:hi])` */
  method ReadFull(conn: Conn, buf: array<byte>, lo: nat, hi: nat) returns (ok: bool)
    requires lo <= hi <= buf.Length
    modifies conn, buf
    ensures ok <==> hi - lo <= |old(conn.data)|
    ensures ok ==> conn.data == old(conn.data)[hi - lo..]
    ensures ok ==> buf[..] == old(buf[..lo]) + old(conn.data)[..hi - lo] + old(buf[hi..])
    ensures !ok ==> conn.data == []
  {
    var at := lo;
    while at < hi
      invariant lo <= at <= hi && at - lo <= |old(conn.data)|
      invariant conn.data == old(conn.data)[at - lo..]
      invariant buf[..] == old(buf[..lo]) + old(conn.data)[..at - lo] + old(buf[at..])
    {
      var n, more := conn.Read(buf, at, hi);
      if !more {
        return false;
      }
      at := at + n;
    }
    return true;
  }

  datatype ReadResult = Ok | Failed | Panicked

  class Reader {
    const conn: Conn
    const header: array<byte>

    ghost predicate Valid()
      reads this
    {
      header.Length == 9
    }

    constructor (conn: Conn)
      ensures Valid() && this.conn == conn && fresh(header)
    {
      this.conn := conn;
      header := new byte[9](i => 0);
    }

    /** Whatever the header buffer still holds from earlier frames, and however short the reads are,
        the outcome is that of `ParseFrame` on what the connection delivers. */
    method Read(frame: Frame) returns (r: ReadResult)
      requires Valid()
      modifies conn, header, frame
      ensures r == match ParseFrame(old(conn.data)) case Got(_, _) => Ok case Short => Failed case TooLarge => Panicked
      ensures r.Ok? ==> frame.Value() == ParseFrame(old(conn.data)).frame && fresh(frame.Payload)
      ensures r.Ok? ==> conn.data == old(conn.data)[ParseFrame(old(conn.data)).size..]
      ensures r.Failed? ==> conn.data == []
    {
      ghost var all := conn.data;
      var ok := ReadFull(conn, header, 0, 1);
      if !ok {
        return Failed;
      }
      assert header[0] == all[0];
      frame.Flag := header[0] / 32;
      var size := header[0] % 32;
      ghost var w := SizeWidth(size);
      var n: nat;
      ok, n := ReadSize(size);
      hide ParseFrame, SizeWidth, FromBE;
      ParseFrameIs(all);
      if !ok {
        return Failed;
      }
      if n > MAX_INT {
        return Panicked;
      }
      frame.Payload := new byte[n](i => 0);
      ok := ReadPayload(frame.Payload, all[1 + w..]);
      if !ok {
        return Failed;
      }
      return Ok;
    }

    /** The size field, if the first byte announces one. */
    method ReadSize(size: byte) returns (ok: bool, n: nat)
      requires Valid()
      modifies conn, header
      ensures ok <==> SizeWidth(size) <= |old(conn.data)|
      ensures ok ==> conn.data == old(conn.data)[SizeWidth(size)..]
      ensures ok ==> n == if SizeWidth(size) == 0 then size else FromBE(old(conn.data)[..SizeWidth(size)])
      ensures !ok ==> conn.data == []
    {
      var width := SizeWidth(size);
      ghost var all := conn.data;
      if width == 0 {
        return true, size;
      }
      ok := ReadFull(conn, header, 1, 1 + width);
      n := 0;
      if ok {
        assert header[1..1 + width] == header[..][1..1 + width] == all[..width];
        n := FromBE(header[1..1 + width]);
      }
    }

    /** A frame at the front of a stream, by what remains of the stream after its first byte. */
    static lemma ParseFrameIs(all: seq<byte>)
      requires all != []
      ensures var w := SizeWidth(all[0] % 32);
              if |all[1..]| < w then ParseFrame(all) == Short
              else
                var n := if w == 0 then all[0] % 32 else FromBE(all[1..][..w]);
                && all[1..][w..] == all[1 + w..]
                && ParseFrame(all) == (if n > MAX_INT then TooLarge
                                       else if |all[1 + w..]| < n then Short
                                       else Got(FrameValue(all[0] / 32, all[1 + w..][..n]), 1 + w + n))
                && (|all[1 + w..]| >= n ==> all[1 + w..][n..] == all[1 + w + n..])
    {
      hide FromBE;
      var w := SizeWidth(all[0] % 32);
      if w < |all| {
        assert all[1..][..w] == all[1..1 + w];
      }
    }

    /** The payload loop: at most 4096 bytes for each deadline. */
    method ReadPayload(payload: array<byte>, ghost all: seq<byte>) returns (ok: bool)
      requires conn.data == all
      modifies conn, payload
      ensures ok <==> payload.Length <= |all|
      ensures ok ==> payload[..] == all[..payload.Length] && conn.data == all[payload.Length..]
      ensures !ok ==> conn.data == []
    {
      var i, size := 0, payload.Length;
      while i < size
        invariant 0 <= i <= size && i <= |all|
        invariant conn.data == all[i..]
        invariant payload[..i] == all[..i]
      {
        var end := if i + CHUNK > size then size else i + CHUNK;
        ghost var done := payload[..i];
        ok := ReadFull(conn, payload, i, end);
        if !ok {
          return;
        }
        assert payload[..end] == done + all[i..][..end - i] == all[..end];
        i := end;
      }
      return true;
    }
  }

  /** The frames the read loop hands to the protocol: acknowledgements and unknown flags go nowhere. */
  function Passed(fs: seq<FrameValue>): seq<FrameValue>
  {
    if fs == [] then []
    else (if fs[0].flag in {FLAG_META, FLAG_DATA} then [fs[0]] else []) + Passed(fs[1..])
  }

  lemma {:induction false} PassedConcat(fs: seq<FrameValue>, gs: seq<FrameValue>)
    ensures Passed(fs + gs) == Passed(fs) + Passed(gs)
  {
    if fs == [] {
      assert fs + gs == gs;
    } else {
      PassedConcat(fs[1..], gs);
      PassedCons(fs[0], fs[1..]);
      PassedCons(fs[0], fs[1..] + gs);
      hide Passed;
      assert fs == [fs[0]] + fs[1..];
      assert fs + gs == [fs[0]] + (fs[1..] + gs);
    }
  }

  lemma PassedCons(f: FrameValue, rest: seq<FrameValue>)
    ensures Passed([f] + rest) == (if f.flag in {FLAG_META, FLAG_DATA} then [f] else []) + Passed(rest)
  {
    assert ([f] + rest)[1..] == rest;
  }

  /** What handing on means: `handled` is the frames with flag 1 or 2, all of them, in their order. */
  ghost predicate HandedOn(fs: seq<FrameValue>, handled: seq<FrameValue>, at: seq<nat>)
  {
    && |at| == |handled|
    && (forall j, k :: 0 <= j < k < |at| ==> at[j] < at[k])
    && (forall k :: 0 <= k < |at| ==>
          at[k] < |fs| && handled[k] == fs[at[k]] && (fs[at[k]].flag == 1 || fs[at[k]].flag == 2))
    && (forall i :: 0 <= i < |fs| && (fs[i].flag == 1 || fs[i].flag == 2) ==> i in at)
  }

  lemma HandedOnMore(fs: seq<FrameValue>, f: FrameValue, handled: seq<FrameValue>, at: seq<nat>)
    requires HandedOn(fs, handled, at)
    ensures f.flag == 1 || f.flag == 2 ==> HandedOn(fs + [f], handled + [f], at + [|fs|])
    ensures f.flag != 1 && f.flag != 2 ==> HandedOn(fs + [f], handled, at)
  {
    assert forall i :: i in at + [|fs|] <==> i in at || i == |fs|;
  }

  lemma {:induction false} PassedIs(fs: seq<FrameValue>) returns (at: seq<nat>)
    ensures HandedOn(fs, Passed(fs), at)
  {
    if fs == [] {
      at := [];
    } else {
      var init, f := fs[..|fs| - 1], fs[|fs| - 1];
      assert fs == init + [f];
      at := PassedIs(init);
      PassedConcat(init, [f]);
      assert Passed([f]) == if f.flag == 1 || f.flag == 2 then [f] else [];
      hide Passed, HandedOn;
      HandedOnMore(init, f, Passed(init), at);
      if f.flag == 1 || f.flag == 2 {
        at := at + [|init|];
      } else {
        assert Passed(init) + [] == Passed(init);
      }
    }
  }

  lemma {:induction false} PassedAll(fs: seq<FrameValue>)
    requires forall i :: 0 <= i < |fs| ==> fs[i].flag == 1 || fs[i].flag == 2
    ensures Passed(fs) == fs
  {
    if fs != [] {
      PassedAll(fs[1..]);
    }
  }

  /** Of a stream that starts with whole frames, the read loop hands on those of them with flag 1 or 2, and
      then what it hands on of the rest. */
  lemma ReadsOn(fs: seq<FrameValue>, tail: seq<byte>)
    requires AllSendable(fs)
    ensures Passed(ParseAll(EncodeAll(fs) + tail).frames) == Passed(fs) + Passed(ParseAll(tail).frames)
  {
    StreamRoundTrip(fs, tail);
    PassedConcat(fs, ParseAll(tail).frames);
  }

  /** `StreamManager.readLoop`: one frame object and one header buffer for the whole connection. */
  method ReadLoop(conn: Conn) returns (handled: seq<FrameValue>, panicked: bool, ghost at: seq<nat>)
    modifies conn
    ensures HandedOn(ParseAll(old(conn.data)).frames, handled, at)
    ensures handled == Passed(ParseAll(old(conn.data)).frames)
    ensures panicked <==> ParseFrame(ParseAll(old(conn.data)).rest).TooLarge?
  {
    hide ParseFrame, ParseAll;
    var empty := new byte[0](i => 0);
    var frame := new Frame(FLAG_ACK, empty);
    var reader := new Reader(conn);
    handled := [];
    ghost var seen: seq<FrameValue> := [];
    while true
      invariant reader.Valid() && reader.conn == conn && fresh(reader.header) && fresh(frame)
      invariant handled == Passed(seen)
      invariant ParseAll(old(conn.data)).frames == seen + ParseAll(conn.data).frames
      invariant ParseAll(old(conn.data)).rest == ParseAll(conn.data).rest
      decreases |conn.data|
    {
      ParseAllUnfold(conn.data);
      var r := reader.Read(frame);
      if r != Ok {
        assert seen + [] == seen;
        at := PassedIs(seen);
        return handled, r.Panicked?, at;
      }
      PassedConcat(seen, [frame.Value()]);
      seen := seen + [frame.Value()];
      if frame.Flag == FLAG_META || frame.Flag == FLAG_DATA {
        handled := handled + [FrameValue(frame.Flag, frame.Payload[..])];
      }
    }
  }

  /** The writing end of a connection; `sent` is what has been put on the wire. */
  class Stream {
    var sent: seq<byte>
    var closed: bool

    constructor ()
      ensures sent == [] && !closed
    {
      sent, closed := [], false;
    }

    /** The contract of `io.Writer`: a short write comes with an error. */
    method Write(data: array<byte>, lo: nat, hi: nat) returns (num: nat, ok: bool)
      requires lo <= hi <= data.Length
      modifies this`sent
      ensures num <= hi - lo && (ok ==> num == hi - lo)
      ensures sent == old(sent) + data[lo..lo + num]
    {
      num :| 0 <= num <= hi - lo;
      ok := num == hi - lo;
      sent := sent + data[lo..lo + num];
    }

    /** All the data in order; or, on an error, some prefix of it and a closed stream. The count is
        of the chunks written whole. */
    method WriteWithContext(data: array<byte>) returns (n: nat, ok: bool)
      modifies this
      ensures ok ==> n == data.Length && sent == old(sent) + data[..] && closed == old(closed)
      ensures !ok ==> closed && n < data.Length && n % 4096 == 0
      ensures !ok ==> exists k :: n <= k <= data.Length && k <= n + 4096 && sent == old(sent) + data[..k]
    {
      n := 0;
      var i, size := 0, data.Length;
      while i < size
        invariant 0 <= i <= size && n == i && (i < size ==> i % CHUNK == 0)
        invariant sent == old(sent) + data[..i] && closed == old(closed)
      {
        var end := if i + CHUNK > size then size else i + CHUNK;
        var num, done := Write(data, i, end);
        assert data[..i + num] == data[..i] + data[i..i + num];
        if !done {
          closed := true;
          assert sent == old(sent) + data[..i + num];
          return n, false;
        }
        i := end;
        n := n + num;
      }
      assert data[..size] == data[..];
      return n, true;
    }
  }

  /** Frames written one after the other by one writer, up to the first failure: what is on the wire is
      then a prefix of their encoding, and all of it if nothing failed. */
  method SendAll(stream: Stream, frames: seq<Frame>, ghost fs: seq<FrameValue>) returns (ok: bool, ghost cut: nat)
    requires |frames| == |fs| && AllSendable(fs) && forall i :: 0 <= i < |fs| ==> frames[i].Value() == fs[i]
    modifies stream
    ensures cut <= |EncodeAll(fs)| && stream.sent == old(stream.sent) + EncodeAll(fs)[..cut]
    ensures if ok then cut == |EncodeAll(fs)| else stream.closed
    decreases |frames|
  {
    EncodeAllUnfold(fs);
    hide EncodeFrame, EncodeAll;
    if frames == [] {
      return true, 0;
    }
    var data := frames[0].Encode();
    ghost var first := data[..];
    var n, written := stream.WriteWithContext(data);
    if !written {
      ghost var m :| 0 <= m <= data.Length && stream.sent == old(stream.sent) + data[..m];
      assert EncodeAll(fs)[..m] == first[..m];
      return false, m;
    }
    ghost var rest: nat;
    ok, rest := SendAll(stream, frames[1..], fs[1..]);
    cut := |first| + rest;
    assert EncodeAll(fs)[..cut] == first + EncodeAll(fs[1..])[..rest];
  }

  lemma AllOrNone(fs: seq<FrameValue>, handled: seq<FrameValue>, at: seq<nat>)
    requires HandedOn(fs, handled, at) && handled == Passed(fs)
    ensures (forall i :: 0 <= i < |fs| ==> fs[i].flag == 1 || fs[i].flag == 2) ==> handled == fs
    ensures (forall i :: 0 <= i < |fs| ==> fs[i].flag != 1 && fs[i].flag != 2) ==> handled == []
  {
    if forall i :: 0 <= i < |fs| ==> fs[i].flag == 1 || fs[i].flag == 2 {
      PassedAll(fs);
    }
    hide Passed;
    if handled != [] {
      assert at[0] < |fs|;
    }
  }

  /** From frame objects to frame objects: the reader of the connection hands on the frames that were
      written whole, in order and nothing else, and it does not panic; all of them if no write failed. */
  method Transfer(frames: seq<Frame>, ghost fs: seq<FrameValue>)
    returns (handled: seq<FrameValue>, ok: bool, ghost cut: nat)
    requires |frames| == |fs| && AllSendable(fs) && forall i :: 0 <= i < |fs| ==> frames[i].Value() == fs[i]
    ensures cut <= |EncodeAll(fs)| && exists at :: HandedOn(fs[..Whole(fs, cut)], handled, at)
    ensures ok ==> exists at :: HandedOn(fs, handled, at)
    ensures (forall i :: 0 <= i < |fs| ==> fs[i].flag == 1 || fs[i].flag == 2) ==>
              handled <= fs && (ok ==> handled == fs)
    ensures (forall i :: 0 <= i < |fs| ==> fs[i].flag != 1 && fs[i].flag != 2) ==> handled == []
  {
    hide *;
    var stream := new Stream();
    ok, cut := SendAll(stream, frames, fs);
    assert stream.sent == EncodeAll(fs)[..cut];
    PartialDelivery(fs, cut);
    var conn := new Conn(stream.sent);
    var panicked: bool;
    ghost var at: seq<nat>;
    handled, panicked, at := ReadLoop(conn);
    assert !panicked;
    TransferMeans(fs, cut, handled, at);
  }

  lemma TransferMeans(fs: seq<FrameValue>, cut: nat, handled: seq<FrameValue>, at: seq<nat>)
    requires HandedOn(fs[..Whole(fs, cut)], handled, at) && handled == Passed(fs[..Whole(fs, cut)])
    ensures exists at :: HandedOn(fs[..Whole(fs, cut)], handled, at)
    ensures cut == |EncodeAll(fs)| ==> exists at :: HandedOn(fs, handled, at)
    ensures (forall i :: 0 <= i < |fs| ==> fs[i].flag == 1 || fs[i].flag == 2) ==>
              handled <= fs && (cut == |EncodeAll(fs)| ==> handled == fs)
    ensures (forall i :: 0 <= i < |fs| ==> fs[i].flag != 1 && fs[i].flag != 2) ==> handled == []
  {
    hide *;
    WholeOfAll(fs);
    assert fs[..|fs|] == fs;
    AllOrNone(fs[..Whole(fs, cut)], handled, at);
  }
}
