/** The frame format of internal/common/protocol/frame.go: what a frame's bytes are, what a
    prefix of a byte stream parses to, and why a stream of frames splits in only one way. */
module FrameFormat {
  import opened Bytes

  const FLAG_ACK: byte := 0
  const FLAG_META: byte := 1
  const FLAG_DATA: byte := 2

  datatype FrameValue = FrameValue(flag: byte, payload: seq<byte>)

  /** The low five bits of the first byte: the payload size itself, or how wide the size field is. */
  function SizeCode(n: nat): (code: byte)
    ensures code < 32
  {
    if n <= 0x0f then n
    else if n <= 0xff then 0x10
    else if n <= 0xffff then 0x11
    else if n <= 0xffff_ffff then 0x12
    else 0x13
  }

  function SizeWidth(code: byte): nat
  {
    match code
    case 0x10 => 1
    case 0x11 => 2
    case 0x12 => 4
    case 0x13 => 8
    case _ => 0
  }

  /** `byte(f.Flag<<5)` keeps the low three bits of the flag; or-ing a five-bit code is adding it. */
  function FirstByte(flag: byte, code: byte): byte
    requires code < 32
  {
    (flag % 8) * 32 + code
  }

  function EncodeFrame(f: FrameValue): seq<byte>
  {
    var n := |f.payload|;
    var code := SizeCode(n);
    [FirstByte(f.flag, code)] + BE(n, SizeWidth(code)) + f.payload
  }

  /** What reading one frame off the front of a byte stream comes to: the stream ends too early,
      the announced size is one `make` panics on, or a frame and the bytes it took. */
  datatype ReadOutcome = Short | TooLarge | Got(frame: FrameValue, size: nat)

  function ParseFrame(s: seq<byte>): (r: ReadOutcome)
    ensures r.Got? ==> 1 <= r.size <= |s| && r.frame.flag < 8 && |r.frame.payload| <= MAX_INT
  {
    if s == [] then Short else
      var code := s[0] % 32;
      var w := SizeWidth(code);
      if |s| < 1 + w then Short else
        var n := if w == 0 then code else FromBE(s[1..1 + w]);
        if n > MAX_INT then TooLarge
        else if |s| < 1 + w + n then Short
        else Got(FrameValue(s[0] / 32, s[1 + w..1 + w + n]), 1 + w + n)
  }

  lemma EncodedIs(f: FrameValue)
    ensures var code := SizeCode(|f.payload|);
            EncodeFrame(f) == [FirstByte(f.flag, code)] + BE(|f.payload|, SizeWidth(code)) + f.payload
  {
    hide BE, FirstByte;
  }

  datatype DecodeOutcome = Panic | Decoded(frame: FrameValue)

  /** `make([]byte, n)` filled by `copy`: cut to size, or padded with zeros. */
  function Fit(s: seq<byte>, n: nat): (r: seq<byte>)
    ensures |r| == n
  {
    if |s| >= n then s[..n] else s + seq(n - |s|, i => 0)
  }

  function DecodeFrame(buf: seq<byte>): DecodeOutcome
  {
    if buf == [] then Panic else
      var code := buf[0] % 32;
      var w := SizeWidth(code);
      if |buf| < 1 + w then Panic else
        var n := if w == 0 then code else FromBE(buf[1..1 + w]);
        if n > MAX_INT then Panic
        else Decoded(FrameValue(buf[0] / 32, Fit(buf[1 + w..], n)))
  }

  predicate Sendable(f: FrameValue)
  {
    f.flag < 8 && |f.payload| <= MAX_INT
  }

  /** Reading is local: the bytes after a frame do not change what it parses to. */
  lemma ParseIgnoresTail(s: seq<byte>, tail: seq<byte>)
    requires ParseFrame(s).Got?
    ensures ParseFrame(s + tail) == ParseFrame(s)
  {
    var w := SizeWidth(s[0] % 32);
    assert (s + tail)[1..1 + w] == s[1..1 + w];
    var n := ParseFrame(s).size - 1 - w;
    assert (s + tail)[1 + w..1 + w + n] == s[1 + w..1 + w + n];
  }

  /** Cut anywhere inside its first frame, a stream has no frame yet. */
  lemma CutFrameIsShort(s: seq<byte>, cut: nat)
    requires ParseFrame(s).Got? && cut < ParseFrame(s).size
    ensures ParseFrame(s[..cut]) == Short
  {
    if cut > 0 {
      var w := SizeWidth(s[0] % 32);
      if 1 + w <= cut {
        assert s[..cut][1..1 + w] == s[1..1 + w];
      }
    }
  }

  lemma FirstByteIs(flag: byte, code: byte)
    requires code < 32
    ensures FirstByte(flag, code) % 32 == code && FirstByte(flag, code) / 32 == flag % 8
  {
  }

  /** A first byte, a size field as wide as it says, and as much payload as the two announce. */
  lemma PartsParse(first: byte, size: seq<byte>, payload: seq<byte>)
    requires |size| == SizeWidth(first % 32) && |payload| <= MAX_INT
    requires |payload| == if size == [] then first % 32 else FromBE(size)
    ensures ParseFrame([first] + size + payload) == Got(FrameValue(first / 32, payload), 1 + |size| + |payload|)
  {
    var s := [first] + size + payload;
    hide FromBE;
    assert s[1..1 + |size|] == size && s[1 + |size|..1 + |size| + |payload|] == payload;
  }

  lemma SizeFits(n: nat)
    requires n <= MAX_INT
    ensures var w := SizeWidth(SizeCode(n)); if w == 0 then n == SizeCode(n) else n < Pow256(w)
  {
    Pow256Values();
    hide Pow256;
  }

  lemma EncodedParses(f: FrameValue)
    requires |f.payload| <= MAX_INT
    ensures ParseFrame(EncodeFrame(f)) == Got(FrameValue(f.flag % 8, f.payload), |EncodeFrame(f)|)
  {
    var n := |f.payload|;
    var code := SizeCode(n);
    var w := SizeWidth(code);
    FirstByteIs(f.flag, code);
    SizeFits(n);
    hide FirstByte, BE, FromBE, Pow256, ParseFrame, SizeCode, SizeWidth;
    if w != 0 {
      BERoundTrip(n, w);
    }
    PartsParse(FirstByte(f.flag, code), BE(n, w), f.payload);
  }

  /** The format, byte by byte: the first byte holds the low three bits of the flag and the size or a code,
      then comes the size in as few bytes as it fits, most significant first, then the payload. */
  lemma FormatIs(f: FrameValue)
    requires |f.payload| <= MAX_INT
    ensures var e, n := EncodeFrame(f), |f.payload|;
            && |e| > n && e[0] / 32 == f.flag % 8 && e[|e| - n..] == f.payload
            && (n < 0x10 ==> |e| == n + 1 && e[0] % 32 == n)
            && (0x10 <= n < 0x100 ==> |e| == n + 2 && e[0] % 32 == 0x10 && e[1] == n)
            && (0x100 <= n < 0x1_0000 ==> |e| == n + 3 && e[0] % 32 == 0x11 && Two(e, 1) == n)
            && (0x1_0000 <= n < 0x1_0000_0000 ==> |e| == n + 5 && e[0] % 32 == 0x12 && Four(e, 1) == n)
            && (0x1_0000_0000 <= n ==> |e| == n + 9 && e[0] % 32 == 0x13 && Eight(e, 1) == n)
  {
    var n := |f.payload|;
    var code := SizeCode(n);
    var w := SizeWidth(code);
    FirstByteIs(f.flag, code);
    SizeFits(n);
    if w != 0 {
      BERoundTrip(n, w);
    }
    Digits(BE(n, w));
    hide BE, FromBE, Pow256, FirstByte;
  }

  /** What the reader makes of any bytes, not only of encoded frames: every other code is the size itself. */
  lemma HeaderIs(s: seq<byte>)
    requires s != []
    ensures var code := s[0] % 32;
            && (code < 0x10 || code > 0x13 ==> Reads(s, 1, code))
            && (code == 0x10 ==> if |s| < 2 then ParseFrame(s).Short? else Reads(s, 2, s[1]))
            && (code == 0x11 ==> if |s| < 3 then ParseFrame(s).Short? else Reads(s, 3, Two(s, 1)))
            && (code == 0x12 ==> if |s| < 5 then ParseFrame(s).Short? else Reads(s, 5, Four(s, 1)))
            && (code == 0x13 ==> if |s| < 9 then ParseFrame(s).Short? else Reads(s, 9, Eight(s, 1)))
  {
    ReadsWidth(s);
    SizeDigits(s);
    hide FromBE, ParseFrame, Reads, Two, Four, Eight;
  }

  lemma SizeDigits(s: seq<byte>)
    ensures |s| >= 2 ==> FromBE(s[1..2]) == s[1]
    ensures |s| >= 3 ==> FromBE(s[1..3]) == Two(s, 1)
    ensures |s| >= 5 ==> FromBE(s[1..5]) == Four(s, 1)
    ensures |s| >= 9 ==> FromBE(s[1..9]) == Eight(s, 1)
  {
    hide FromBE;
    if |s| >= 2 {
      Digits(s[1..2]);
    }
    if |s| >= 3 {
      Digits(s[1..3]);
    }
    if |s| >= 5 {
      Digits(s[1..5]);
    }
    if |s| >= 9 {
      Digits(s[1..9]);
    }
  }

  lemma ReadsWidth(s: seq<byte>)
    requires s != []
    ensures var w := SizeWidth(s[0] % 32);
            if |s| < 1 + w then ParseFrame(s).Short?
            else Reads(s, 1 + w, if w == 0 then s[0] % 32 else FromBE(s[1..1 + w]))
  {
    hide FromBE;
  }

  /** After a header of `h` bytes that announces `n`: that much payload, if it is there. */
  predicate Reads(s: seq<byte>, h: nat, n: nat)
    requires s != []
  {
    if n > 0x7fff_ffff_ffff_ffff then ParseFrame(s).TooLarge?
    else if |s| < h + n then ParseFrame(s).Short?
    else ParseFrame(s) == Got(FrameValue(s[0] / 32, s[h..h + n]), h + n)
  }

  /** One frame survives the wire, with exact consumption, exactly when its flag fits in three bits. */
  lemma FrameRoundTrip(f: FrameValue, tail: seq<byte>)
    requires |f.payload| <= MAX_INT
    ensures ParseFrame(EncodeFrame(f) + tail) == Got(f, |EncodeFrame(f)|) <==> f.flag < 8
  {
    EncodedParses(f);
    ParseIgnoresTail(EncodeFrame(f), tail);
  }

  /** Where the stream reader gets a frame out of `k` bytes, `Frame.Decode` of those bytes gives the
      same frame; and the other way round, `Decode` of a buffer that holds all the announced payload
      gives what the reader gives. */
  lemma ReaderRefinesDecode(s: seq<byte>)
    ensures ParseFrame(s).Got? ==> DecodeFrame(s[..ParseFrame(s).size]) == Decoded(ParseFrame(s).frame)
    ensures DecodeFrame(s).Decoded? ==>
              ParseFrame(s) == Short
              || (ParseFrame(s).Got? && ParseFrame(s).frame == DecodeFrame(s).frame)
  {
    hide FromBE;
    if ParseFrame(s).Got? {
      var k := ParseFrame(s).size;
      var w := SizeWidth(s[0] % 32);
      assert s[..k] == [s[0]] + s[1..1 + w] + s[1 + w..k];
      assert s[1 + w..][..k - 1 - w] == s[1 + w..k];
      PartsDecode(s[0], s[1..1 + w], s[1 + w..k]);
      assert DecodeFrame(s) == Decoded(ParseFrame(s).frame);
      hide DecodeFrame, ParseFrame;
    }
  }

  lemma PartsDecode(first: byte, size: seq<byte>, payload: seq<byte>)
    requires |size| == SizeWidth(first % 32) && |payload| <= MAX_INT
    requires |payload| == if size == [] then first % 32 else FromBE(size)
    ensures DecodeFrame([first] + size + payload) == Decoded(FrameValue(first / 32, payload))
  {
    var s := [first] + size + payload;
    hide FromBE;
    assert s[1..1 + |size|] == size && s[1 + |size|..] == payload;
  }

  function Zeros(n: nat): (z: seq<byte>)
    ensures |z| == n
  {
    seq(n, i => 0)
  }

  /** Decoding a buffer that holds less than the announced payload is reading it with zeros added; and decoding
      panics exactly if the buffer is shorter than its header, or announces what no slice can hold. */
  lemma DecodePads(buf: seq<byte>)
    ensures DecodeFrame(buf).Decoded? && ParseFrame(buf).Short? ==>
              exists n: nat :: n > 0 && ParseFrame(buf + Zeros(n)) == Got(DecodeFrame(buf).frame, |buf| + n)
    ensures DecodeFrame(buf).Panic? <==>
              buf == [] || ParseFrame(buf).TooLarge?
              || (buf[0] % 32 == 0x10 && |buf| < 2) || (buf[0] % 32 == 0x11 && |buf| < 3)
              || (buf[0] % 32 == 0x12 && |buf| < 5) || (buf[0] % 32 == 0x13 && |buf| < 9)
  {
    hide FromBE;
    if DecodeFrame(buf).Decoded? && ParseFrame(buf).Short? {
      Padded(buf);
    }
  }

  lemma Padded(buf: seq<byte>)
    requires DecodeFrame(buf).Decoded? && ParseFrame(buf).Short?
    ensures exists n: nat :: n > 0 && ParseFrame(buf + Zeros(n)) == Got(DecodeFrame(buf).frame, |buf| + n)
  {
    hide FromBE;
    var f := DecodeFrame(buf).frame;
    var first, w := buf[0], SizeWidth(buf[0] % 32);
    var size, rest := buf[1..1 + w], buf[1 + w..];
    var n := |f.payload| - |rest|;
    assert n > 0 && f.payload == rest + Zeros(n) && f.flag == first / 32;
    assert |f.payload| == if size == [] then first % 32 else FromBE(size);
    PartsParse(first, size, f.payload);
    assert [first] + size + f.payload == buf + Zeros(n);
  }

  /** The code is prefix-free: equal streams start with equal frames and go on with equal tails. */
  lemma PrefixCode(f: FrameValue, g: FrameValue, x: seq<byte>, y: seq<byte>)
    requires Sendable(f) && Sendable(g)
    requires EncodeFrame(f) + x == EncodeFrame(g) + y
    ensures f == g && x == y
  {
    FrameRoundTrip(f, x);
    FrameRoundTrip(g, y);
    assert (EncodeFrame(f) + x)[|EncodeFrame(f)|..] == x;
    assert (EncodeFrame(g) + y)[|EncodeFrame(g)|..] == y;
  }

  function EncodeAll(fs: seq<FrameValue>): seq<byte>
  {
    if fs == [] then [] else EncodeFrame(fs[0]) + EncodeAll(fs[1..])
  }

  /** What a read loop gets from a byte stream: the frames it hands on and the bytes it is stuck on. */
  datatype Delivery = Delivery(frames: seq<FrameValue>, rest: seq<byte>)

  function ParseAll(s: seq<byte>): Delivery
    decreases |s|
  {
    match ParseFrame(s)
    case Got(f, k) =>
      var d := ParseAll(s[k..]);
      Delivery([f] + d.frames, d.rest)
    case _ => Delivery([], s)
  }

  lemma EncodeAllUnfold(fs: seq<FrameValue>)
    ensures EncodeAll([]) == []
    ensures fs != [] ==> EncodeAll(fs) == EncodeFrame(fs[0]) + EncodeAll(fs[1..])
  {
  }

  lemma ParseAllUnfold(s: seq<byte>)
    ensures !ParseFrame(s).Got? ==> ParseAll(s) == Delivery([], s)
    ensures ParseFrame(s).Got? ==>
              var d := ParseAll(s[ParseFrame(s).size..]);
              ParseAll(s) == Delivery([ParseFrame(s).frame] + d.frames, d.rest)
  {
  }

  predicate AllSendable(fs: seq<FrameValue>)
  {
    forall i :: 0 <= i < |fs| ==> Sendable(fs[i])
  }

  lemma ParseAllStep(f: FrameValue, more: seq<byte>)
    requires Sendable(f)
    ensures ParseAll(EncodeFrame(f) + more) == Delivery([f] + ParseAll(more).frames, ParseAll(more).rest)
  {
    FrameRoundTrip(f, more);
    assert (EncodeFrame(f) + more)[|EncodeFrame(f)|..] == more;
  }

  /** Frames written one after the other come out as written, in order, and what follows them on
      the stream is read as if they had not been there. */
  lemma {:induction false} StreamRoundTrip(fs: seq<FrameValue>, tail: seq<byte>)
    requires AllSendable(fs)
    ensures ParseAll(EncodeAll(fs) + tail) == Delivery(fs + ParseAll(tail).frames, ParseAll(tail).rest)
  {
    hide EncodeFrame, ParseFrame;
    if fs == [] {
      assert EncodeAll(fs) + tail == tail;
      assert fs + ParseAll(tail).frames == ParseAll(tail).frames;
    } else {
      StreamRoundTrip(fs[1..], tail);
      ParseAllStep(fs[0], EncodeAll(fs[1..]) + tail);
      assert EncodeAll(fs) + tail == EncodeFrame(fs[0]) + (EncodeAll(fs[1..]) + tail);
      assert [fs[0]] + (fs[1..] + ParseAll(tail).frames) == fs + ParseAll(tail).frames;
    }
  }

  /** A concatenation of frames splits in only one way. */
  lemma UniqueSplit(fs: seq<FrameValue>, gs: seq<FrameValue>)
    requires AllSendable(fs) && AllSendable(gs) && EncodeAll(fs) == EncodeAll(gs)
    ensures fs == gs
  {
    StreamRoundTrip(fs, []);
    StreamRoundTrip(gs, []);
    assert EncodeAll(fs) + [] == EncodeAll(fs) == EncodeAll(gs) + [];
    assert fs + ParseAll([]).frames == fs && gs + ParseAll([]).frames == gs;
  }

  /** However much of the stream arrives, the reader hands on exactly the frames that arrived whole:
      the first `Whole(fs, cut)` of them. */
  function Whole(fs: seq<FrameValue>, cut: nat): (j: nat)
    ensures j <= |fs|
    ensures |EncodeAll(fs[..j])| <= cut
    ensures j < |fs| ==> cut < |EncodeAll(fs[..j + 1])|
  {
    if fs == [] || cut < |EncodeFrame(fs[0])| then
      assert fs != [] ==> fs[..1] == [fs[0]] && EncodeAll([fs[0]]) == EncodeFrame(fs[0]) + [];
      0
    else
      var j := Whole(fs[1..], cut - |EncodeFrame(fs[0])|);
      assert fs[..1 + j][1..] == fs[1..][..j];
      assert 1 + j < |fs| ==> fs[..2 + j][1..] == fs[1..][..j + 1];
      1 + j
  }

  lemma {:induction false} WholeOfAll(fs: seq<FrameValue>)
    ensures Whole(fs, |EncodeAll(fs)|) == |fs|
  {
    hide EncodeFrame;
    if fs != [] {
      WholeOfAll(fs[1..]);
    }
  }

  lemma NothingToRead()
    ensures ParseFrame([]) == Short
  {
  }

  lemma {:induction false} PartialDelivery(fs: seq<FrameValue>, cut: nat)
    requires AllSendable(fs) && cut <= |EncodeAll(fs)|
    ensures ParseAll(EncodeAll(fs)[..cut]).frames == fs[..Whole(fs, cut)]
    ensures ParseFrame(ParseAll(EncodeAll(fs)[..cut]).rest).Short?
  {
    hide EncodeFrame, ParseFrame, ParseAll;
    if fs == [] {
      NothingToRead();
      assert EncodeAll(fs)[..cut] == [];
      ParseAllUnfold([]);
    } else if cut < |EncodeFrame(fs[0])| {
      EncodedParses(fs[0]);
      CutFrameIsShort(EncodeFrame(fs[0]), cut);
      assert EncodeAll(fs)[..cut] == EncodeFrame(fs[0])[..cut];
      ParseAllUnfold(EncodeAll(fs)[..cut]);
    } else {
      var e := EncodeFrame(fs[0]);
      PartialDelivery(fs[1..], cut - |e|);
      ParseAllStep(fs[0], EncodeAll(fs[1..])[..cut - |e|]);
      assert EncodeAll(fs)[..cut] == e + EncodeAll(fs[1..])[..cut - |e|];
      var j := Whole(fs[1..], cut - |e|);
      assert [fs[0]] + fs[1..][..j] == fs[..1 + j];
    }
  }
}

/** `Frame` as the source has it: an object whose buffer is replaced when it is decoded or read. */
module Frames {
  import opened Bytes
  import opened FrameFormat

  class Frame {
    var Flag: byte
    var Payload: array<byte>

    ghost function Value(): FrameValue
      reads this, Payload
    {
      FrameValue(Flag, Payload[..])
    }

    constructor (flag: byte, payload: array<byte>)
      ensures Flag == flag && Payload == payload
    {
      Flag, Payload := flag, payload;
    }

    method Encode() returns (buf: array<byte>)
      requires Payload.Length <= MAX_INT
      ensures fresh(buf) && buf[..] == EncodeFrame(Value())
    {
      hide BE, FirstByte, EncodeFrame;
      var psize := Payload.Length;
      var code: byte;
      var width: nat;
      if psize <= 0x0f {
        code, width := psize, 0;
      } else if psize <= 0xff {
        code, width := 0x10, 1;
      } else if psize <= 0xffff {
        code, width := 0x11, 2;
      } else if psize <= 0xffff_ffff {
        code, width := 0x12, 4;
      } else {
        code, width := 0x13, 8;
      }
      assert code == SizeCode(psize) && width == SizeWidth(code);
      var head := [FirstByte(Flag, code)] + BE(psize, width);
      EncodedIs(FrameValue(Flag, Payload[..]));
      assert Value() == FrameValue(Flag, Payload[..]);
      hide *;
      buf := new byte[psize + width + 1](i => 0);
      forall i | 0 <= i < |head| { buf[i] := head[i]; }
      forall i | 0 <= i < psize { buf[|head| + i] := Payload[i]; }
      assert buf[..] == head + Payload[..];
    }

    /** `panicked` stands for the run-time panic on a buffer too short for its own header, or on a
        size no slice can have; the flag has been overwritten by then, the payload has not. */
    method Decode(buf: array<byte>) returns (panicked: bool)
      modifies this
      ensures panicked <==> DecodeFrame(buf[..]).Panic?
      ensures !panicked ==> DecodeFrame(buf[..]) == Decoded(Value()) && fresh(Payload)
      ensures panicked ==> Payload == old(Payload) && Flag == if buf.Length == 0 then old(Flag) else buf[0] / 32
    {
      ghost var bytes := buf[..];
      if buf.Length == 0 {
        return true;
      }
      Flag := buf[0] / 32;
      var size := buf[0] % 32;
      var width := SizeWidth(size);
      if buf.Length < 1 + width {
        return true;
      }
      var n := if width == 0 then size else FromBE(buf[1..1 + width]);
      assert buf[..] == bytes && bytes[1..1 + width] == buf[1..1 + width];
      if n > MAX_INT {
        return true;
      }
      var payload := new byte[n](i => 0);
      var m := if buf.Length - 1 - width < n then buf.Length - 1 - width else n;
      forall i | 0 <= i < m { payload[i] := buf[1 + width + i]; }
      Payload := payload;
      assert buf[..] == bytes && payload[..] == Fit(bytes[1 + width..], n);
      return false;
    }
  }
}
