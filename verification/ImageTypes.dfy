/** The six image actions of internal/common/protocol/image/types.go. */
module ImageTypes {
  import opened Bytes
  import opened FrameFormat

  const FLAG_SYNC_HASH: byte := 0
  const FLAG_SYNC_BYTES: byte := 1
  const FLAG_EXISTENCE: byte := 2
  const TYPE_REQUEST: byte := 0
  const TYPE_RESPONSE: byte := 1

  datatype Action =
    | ReqSyncHash(id: uint64, hash: seq<byte>, ext: seq<byte>)
    | RespSyncHash(id: uint64, ok: bool, subdir: seq<byte>)
    | ReqSyncBytes(id: uint64, subdir: seq<byte>, payload: seq<byte>)
    | RespSyncBytes(id: uint64, ok: bool)
    | ReqExistence(id: uint64)
    | RespExistence(id: uint64, ok: bool)
  {
    predicate IsResponse() { RespSyncHash? || RespSyncBytes? || RespExistence? }

    function Flag(): byte {
      if ReqSyncBytes? then FLAG_DATA else FLAG_META
    }

    function Payload(): seq<byte> {
      match this
      case ReqSyncHash(id, hash, ext) => [FLAG_SYNC_HASH, TYPE_REQUEST] + Key(id) + hash + ext
      case RespSyncHash(id, ok, subdir) =>
        [FLAG_SYNC_HASH, TYPE_RESPONSE] + Key(id) + [if ok then 1 else 0] + subdir
      case ReqSyncBytes(id, subdir, payload) =>
        [FLAG_SYNC_BYTES, TYPE_REQUEST] + Key(id) + [|subdir| % 256] + subdir + payload
      case RespSyncBytes(id, ok) => [FLAG_SYNC_BYTES, TYPE_RESPONSE] + Key(id) + [if ok then 1 else 0]
      case ReqExistence(id) => [FLAG_EXISTENCE, TYPE_REQUEST] + Key(id)
      case RespExistence(id, ok) => [FLAG_EXISTENCE, TYPE_RESPONSE] + Key(id) + [if ok then 1 else 0]
    }
  }

  const DOT: byte := 0x2e
  const SLASH: byte := 0x2f

  /** `filepath.Ext`: from the last dot of the last path element, or nothing. */
  function Ext(path: seq<byte>): (e: seq<byte>)
    ensures |e| <= |path| && path == path[..|path| - |e|] + e
  {
    if path == [] || path[|path| - 1] == SLASH then []
    else if path[|path| - 1] == DOT then [DOT]
    else
      var e := Ext(path[..|path| - 1]);
      if e == [] then [] else e + [path[|path| - 1]]
  }

  /** The extension is what follows the last dot, with the dot, unless a slash comes later; a name without such
      a dot has none. */
  lemma {:induction false} ExtIs(path: seq<byte>)
    ensures var e := Ext(path);
            var start := |path| - |e|;
            if e == [] then
              forall i :: 0 <= i < |path| && path[i] == DOT ==> exists j :: i < j < |path| && path[j] == SLASH
            else path[start] == DOT && forall i :: start < i < |path| ==> path[i] != DOT && path[i] != SLASH
  {
    if path != [] && path[|path| - 1] != SLASH && path[|path| - 1] != DOT {
      var init := path[..|path| - 1];
      ExtIs(init);
      if Ext(init) == [] {
        forall i | 0 <= i < |path| && path[i] == DOT ensures exists j :: i < j < |path| && path[j] == SLASH {
          assert init[i] == DOT;
          var j :| i < j < |init| && init[j] == SLASH;
          assert path[j] == SLASH;
        }
      }
    }
  }

  /** `strings.TrimSuffix(filebase, filepath.Ext(filebase))` */
  function Stem(path: seq<byte>): (h: seq<byte>)
    ensures h + Ext(path) == path
  {
    path[..|path| - |Ext(path)|]
  }

  function NewReqSyncHash(id: uint64, filebase: seq<byte>): Action
  {
    ReqSyncHash(id, Stem(filebase), Ext(filebase))
  }

  datatype ParseResult = Malformed | Unknown | Parsed(action: Action)

  /** `s := payload[10] + 11` is a `uint8` addition, and `payload[11:s]` panics when it has wrapped. */
  function DecodeReqSyncBytes(p: seq<byte>): ParseResult
  {
    if |p| < 11 then Malformed else
      var s := (p[10] as int + 11) % 256;
      if s < 11 || |p| < s then Malformed
      else Parsed(ReqSyncBytes(FromKey(p[2..10]), p[11..s], p[s..]))
  }

  function Parse(p: seq<byte>): ParseResult
  {
    if p == [] then Malformed
    else if p[0] > FLAG_EXISTENCE then Unknown
    else if |p| < 2 then Malformed
    else if p[1] == TYPE_REQUEST then
      if |p| < 10 then Malformed
      else if p[0] == FLAG_SYNC_HASH then Parsed(NewReqSyncHash(FromKey(p[2..10]), p[10..]))
      else if p[0] == FLAG_SYNC_BYTES then DecodeReqSyncBytes(p)
      else Parsed(ReqExistence(FromKey(p[2..10])))
    else if p[1] == TYPE_RESPONSE then
      if |p| < 11 then Malformed
      else if p[0] == FLAG_SYNC_HASH then Parsed(RespSyncHash(FromKey(p[2..10]), p[10] == 1, p[11..]))
      else if p[0] == FLAG_SYNC_BYTES then Parsed(RespSyncBytes(FromKey(p[2..10]), p[10] == 1))
      else Parsed(RespExistence(FromKey(p[2..10]), p[10] == 1))
    else Unknown
  }

  /** What the encoding can carry: a file name split where `filepath.Ext` splits it, as
      `NewReqSyncHash` always does, and a subdirectory of at most 244 bytes. */
  predicate Carried(a: Action)
  {
    match a
    case ReqSyncHash(_, hash, ext) => ext == Ext(hash + ext)
    case ReqSyncBytes(_, subdir, _) => |subdir| <= 244
    case _ => true
  }

  lemma HeaderOf(a: Action)
    ensures var p := a.Payload(); |p| >= 10 && FromKey(p[2..10]) == a.id
  {
    assert a.Payload()[2..10] == Key(a.id);
  }

  /** The split of a file name is the one that was made, or another. */
  lemma SplitIff(hash: seq<byte>, ext: seq<byte>)
    ensures Stem(hash + ext) == hash && Ext(hash + ext) == ext <==> ext == Ext(hash + ext)
  {
    hide Ext;
    if ext == Ext(hash + ext) {
      assert Stem(hash + ext) + ext == hash + ext;
      assert |Stem(hash + ext)| == |hash|;
      assert (hash + ext)[..|hash|] == hash;
    }
  }

  lemma ParseHash(p: seq<byte>)
    requires |p| >= 10 && p[0] == FLAG_SYNC_HASH && p[1] == TYPE_REQUEST
    ensures Parse(p) == Parsed(NewReqSyncHash(FromKey(p[2..10]), p[10..]))
  {
  }

  lemma HashPayload(a: Action)
    requires a.ReqSyncHash?
    ensures var p := a.Payload();
            && |p| >= 10 && p[0] == FLAG_SYNC_HASH && p[1] == TYPE_REQUEST
            && FromKey(p[2..10]) == a.id && p[10..] == a.hash + a.ext
  {
    HeaderOf(a);
    HeadAndTail([FLAG_SYNC_HASH, TYPE_REQUEST] + Key(a.id), a.hash, a.ext);
    hide Key;
  }

  lemma HeadAndTail(head: seq<byte>, x: seq<byte>, y: seq<byte>)
    ensures head + x + y == head + (x + y) && (head + x + y)[|head|..] == x + y
  {
  }

  lemma HashRoundTripIff(a: Action)
    requires a.ReqSyncHash?
    ensures Parse(a.Payload()) == Parsed(a) <==> Carried(a)
  {
    HashPayload(a);
    ParseHash(a.Payload());
    SplitIff(a.hash, a.ext);
    assert Carried(a) <==> a.ext == Ext(a.hash + a.ext);
    assert NewReqSyncHash(a.id, a.hash + a.ext) == ReqSyncHash(a.id, Stem(a.hash + a.ext), Ext(a.hash + a.ext));
    hide *;
  }

  lemma BytesRoundTripIff(a: Action)
    requires a.ReqSyncBytes?
    ensures Parse(a.Payload()) == Parsed(a) <==> Carried(a)
  {
    var p, n := a.Payload(), |a.subdir|;
    HeaderOf(a);
    hide Key;
    assert p[10] == n % 256;
    if n <= 244 {
      assert p[11..n + 11] == a.subdir && p[n + 11..] == a.payload;
    } else if n < 256 {
      assert (p[10] as int + 11) % 256 == n + 11 - 256;
    }
  }

  /** Every action the encoding can carry comes back, and no other does. */
  lemma RoundTripIff(a: Action)
    ensures Parse(a.Payload()) == Parsed(a) <==> Carried(a)
  {
    match a
    case ReqSyncHash(_, _, _) => HashRoundTripIff(a);
    case ReqSyncBytes(_, _, _) => BytesRoundTripIff(a);
    case RespSyncHash(_, _, subdir) =>
      HeaderOf(a);
      hide Key;
      assert a.Payload()[11..] == subdir;
    case _ =>
      HeaderOf(a);
      hide Key;
  }

  /** The wire format of the six actions, byte by byte. */
  lemma FormatIs(a: Action)
    ensures var p := a.Payload();
            && |p| >= 10 && FromBE(p[2..10]) == a.id && a.Flag() == (if a.ReqSyncBytes? then 2 else 1)
            && p[0] == (if a.ReqSyncHash? || a.RespSyncHash? then 0
                        else if a.ReqSyncBytes? || a.RespSyncBytes? then 1 else 2)
            && p[1] == (if a.IsResponse() then 1 else 0)
            && (a.IsResponse() ==> |p| >= 11 && p[10] == if a.ok then 1 else 0)
            && (a.RespSyncHash? ==> p[11..] == a.subdir)
            && (a.RespSyncBytes? || a.RespExistence? ==> |p| == 11)
            && (a.ReqExistence? ==> |p| == 10)
            && (a.ReqSyncHash? ==> p[10..] == a.hash + a.ext)
            && (a.ReqSyncBytes? ==> |p| >= 11 && p[10] == |a.subdir| % 256 && p[11..] == a.subdir + a.payload)
  {
    var p := a.Payload();
    HeaderOf(a);
    assert FromKey(p[2..10]) == FromBE(p[2..10]);
    hide Key, FromBE;
    match a
    case ReqSyncHash(_, _, _) => HashPayload(a);
    case RespSyncHash(_, _, subdir) => assert p[11..] == subdir;
    case ReqSyncBytes(_, subdir, payload) =>
      HeadAndTail(p[..11], subdir, payload);
    case _ =>
  }

  /** The parser looks at bytes that are not there, or takes the length of a subdirectory that with the eleven
      bytes before it does not fit in eight bits. */
  predicate TooShort(p: seq<byte>)
  {
    || p == []
    || (p[0] <= 2 && (|p| < 2
        || (p[1] == 0 && (|p| < 10 || (p[0] == 1 && (|p| < 11 || p[10] > 244 || |p| < 11 + p[10]))))
        || (p[1] == 1 && |p| < 11)))
  }

  /** What the parser makes of any bytes. */
  lemma ParseIs(p: seq<byte>)
    ensures Parse(p).Malformed? <==> TooShort(p)
    ensures Parse(p).Unknown? <==> p != [] && (p[0] > 2 || (|p| >= 2 && p[1] > 1))
    ensures Parse(p).Parsed? ==>
              var a := Parse(p).action;
              && |p| >= 10 && a.id == FromBE(p[2..10])
              && (a.ReqSyncHash? <==> p[0] == 0 && p[1] == 0) && (a.RespSyncHash? <==> p[0] == 0 && p[1] == 1)
              && (a.ReqSyncBytes? <==> p[0] == 1 && p[1] == 0) && (a.RespSyncBytes? <==> p[0] == 1 && p[1] == 1)
              && (a.ReqExistence? <==> p[0] == 2 && p[1] == 0) && (a.RespExistence? <==> p[0] == 2 && p[1] == 1)
              && (a.IsResponse() ==> |p| >= 11 && (a.ok <==> p[10] == 1))
              && (a.RespSyncHash? ==> a.subdir == p[11..])
              && (a.ReqSyncHash? ==> a.hash + a.ext == p[10..] && a.ext == Ext(p[10..]))
              && (a.ReqSyncBytes? ==> |p| >= 11 && |a.subdir| == p[10] && a.subdir + a.payload == p[11..])
  {
    hide Ext;
  }

  /** The bound on the subdirectory is tight: from 245 to 255 bytes the receiver panics. */
  lemma LongSubdirPanics(id: uint64, subdir: seq<byte>, payload: seq<byte>)
    requires 245 <= |subdir| <= 255
    ensures Parse(ReqSyncBytes(id, subdir, payload).Payload()) == Malformed
  {
    var p := ReqSyncBytes(id, subdir, payload).Payload();
    assert p[10] == |subdir|;
  }

  lemma NewReqSyncHashCarried(id: uint64, filebase: seq<byte>)
    ensures Carried(NewReqSyncHash(id, filebase))
    ensures var a := NewReqSyncHash(id, filebase); a.hash + a.ext == filebase
  {
    assert Stem(filebase) + Ext(filebase) == filebase;
  }

  /** The image request with the length-prefixed field, as the source has it. */
  class SyncBytesRequest {
    var id: uint64
    var subdir: seq<byte>
    var payload: seq<byte>

    ghost function Value(): Action
      reads this
    {
      ReqSyncBytes(id, subdir, payload)
    }

    constructor (id: uint64, subdir: seq<byte>, payload: seq<byte>)
      ensures Value() == ReqSyncBytes(id, subdir, payload)
    {
      this.id, this.subdir, this.payload := id, subdir, payload;
    }

    method Decode(buf: array<byte>) returns (panicked: bool)
      modifies this
      ensures panicked <==> DecodeReqSyncBytes(buf[..]).Malformed?
      ensures !panicked ==> DecodeReqSyncBytes(buf[..]) == Parsed(Value())
    {
      if buf.Length < 10 {
        return true;
      }
      assert buf[..][2..10] == buf[2..10];
      id := FromKey(buf[2..10]);
      if buf.Length < 11 {
        return true;
      }
      var s: byte := (buf[10] as int + 11) % 256;
      if s < 11 || buf.Length < s {
        return true;
      }
      assert buf[..][11..s] == buf[11..s] && buf[..][s..] == buf[s..];
      subdir := buf[11..s];
      payload := buf[s..];
      return false;
    }

    method PayloadBytes() returns (buf: array<byte>)
      ensures fresh(buf) && buf[..] == Value().Payload()
    {
      buf := NewPayload(FLAG_SYNC_BYTES, TYPE_REQUEST, id, |subdir| % 256);
      buf := Append(buf, subdir);
      buf := Append(buf, payload);
    }
  }
}
