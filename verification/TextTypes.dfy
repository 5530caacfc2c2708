/** The four text actions of internal/common/protocol/text/types.go. Go strings are byte strings. */
module TextTypes {
  import opened Bytes
  import opened FrameFormat

  const FLAG_SYNC_TEXT: byte := 0
  const FLAG_EXISTENCE: byte := 1
  const TYPE_REQUEST: byte := 0
  const TYPE_RESPONSE: byte := 1

  datatype Action =
    | ReqSyncText(id: uint64, ttl: uint64, content: seq<byte>)
    | RespSyncText(id: uint64, ok: bool)
    | ReqExistence(id: uint64)
    | RespExistence(id: uint64, ok: bool)
  {
    predicate IsResponse() { RespSyncText? || RespExistence? }

    function Flag(): byte {
      if ReqSyncText? then FLAG_DATA else FLAG_META
    }

    function Payload(): seq<byte> {
      match this
      case ReqSyncText(id, ttl, content) =>
        [FLAG_SYNC_TEXT, TYPE_REQUEST] + Key(id) + (if ttl > 0 then [1] + Key(ttl) else [0]) + content
      case RespSyncText(id, ok) => [FLAG_SYNC_TEXT, TYPE_RESPONSE] + Key(id) + [if ok then 1 else 0]
      case ReqExistence(id) => [FLAG_EXISTENCE, TYPE_REQUEST] + Key(id)
      case RespExistence(id, ok) => [FLAG_EXISTENCE, TYPE_RESPONSE] + Key(id) + [if ok then 1 else 0]
    }
  }

  /** A payload makes `parse` panic on an index, is of no known kind, or is an action. */
  datatype ParseResult = Malformed | Unknown | Parsed(action: Action)

  function DecodeReqSyncText(p: seq<byte>): ParseResult
  {
    if |p| < 11 then Malformed
    else if p[10] == 0 then Parsed(ReqSyncText(FromKey(p[2..10]), 0, p[11..]))
    else if |p| < 19 then Malformed
    else Parsed(ReqSyncText(FromKey(p[2..10]), FromKey(p[11..19]), p[19..]))
  }

  function Parse(p: seq<byte>): ParseResult
  {
    if p == [] then Malformed
    else if p[0] != FLAG_SYNC_TEXT && p[0] != FLAG_EXISTENCE then Unknown
    else if |p| < 2 then Malformed
    else if p[1] != TYPE_REQUEST && p[1] != TYPE_RESPONSE then Unknown
    else if p[0] == FLAG_SYNC_TEXT && p[1] == TYPE_REQUEST then DecodeReqSyncText(p)
    else if p[1] == TYPE_REQUEST then
      if |p| < 10 then Malformed else Parsed(ReqExistence(FromKey(p[2..10])))
    else if |p| < 11 then Malformed
    else if p[0] == FLAG_SYNC_TEXT then Parsed(RespSyncText(FromKey(p[2..10]), p[10] == 1))
    else Parsed(RespExistence(FromKey(p[2..10]), p[10] == 1))
  }

  lemma RoundTrip(a: Action)
    ensures Parse(a.Payload()) == Parsed(a)
  {
    var p := a.Payload();
    assert p[2..10] == Key(a.id);
    assert FromKey(p[2..10]) == a.id;
    if a.ReqSyncText? {
      if a.ttl > 0 {
        assert p[11..19] == Key(a.ttl) && p[19..] == a.content;
      } else {
        assert p[11..] == a.content;
      }
    }
  }

  /** The wire format of the four actions, byte by byte. */
  lemma FormatIs(a: Action)
    ensures var p := a.Payload();
            && |p| >= 10 && FromBE(p[2..10]) == a.id && a.Flag() == (if a.ReqSyncText? then 2 else 1)
            && p[0] == (if a.ReqSyncText? || a.RespSyncText? then 0 else 1)
            && p[1] == (if a.IsResponse() then 1 else 0)
            && (a.ReqExistence? ==> |p| == 10)
            && (a.IsResponse() ==> |p| == 11 && p[10] == if a.ok then 1 else 0)
            && (a.ReqSyncText? && a.ttl == 0 ==> |p| >= 11 && p[10] == 0 && p[11..] == a.content)
            && (a.ReqSyncText? && a.ttl > 0 ==>
                  |p| >= 19 && p[10] == 1 && FromBE(p[11..19]) == a.ttl && p[19..] == a.content)
  {
    var p := a.Payload();
    assert p[2..10] == Key(a.id);
    if a.ReqSyncText? {
      if a.ttl > 0 {
        assert p[11..19] == Key(a.ttl) && p[19..] == a.content;
      } else {
        assert p[11..] == a.content;
      }
    }
  }

  /** How many bytes the parser looks at without checking. */
  function Needed(p: seq<byte>): nat
  {
    if p == [] then 1
    else if p[0] > 1 then 1
    else if |p| < 2 then 2
    else if p[1] > 1 then 2
    else if p[0] == 0 && p[1] == 0 then (if |p| < 11 || p[10] == 0 then 11 else 19)
    else if p[1] == 0 then 10
    else 11
  }

  /** What the parser makes of any bytes: it panics exactly on those too short for what they say they are; only
      a one means yes, but any time-to-live byte other than zero announces one. */
  lemma ParseIs(p: seq<byte>)
    ensures Parse(p).Malformed? <==> |p| < Needed(p)
    ensures Parse(p).Unknown? <==> p != [] && (p[0] > 1 || (|p| >= 2 && p[1] > 1))
    ensures Parse(p).Parsed? ==>
              var a := Parse(p).action;
              && |p| >= 10 && a.id == FromBE(p[2..10])
              && (a.ReqSyncText? <==> p[0] == 0 && p[1] == 0) && (a.RespSyncText? <==> p[0] == 0 && p[1] == 1)
              && (a.ReqExistence? <==> p[0] == 1 && p[1] == 0) && (a.RespExistence? <==> p[0] == 1 && p[1] == 1)
              && (a.IsResponse() ==> |p| >= 11 && (a.ok <==> p[10] == 1))
              && (a.ReqSyncText? ==> |p| >= 11)
              && (a.ReqSyncText? && p[10] == 0 ==> a.ttl == 0 && a.content == p[11..])
              && (a.ReqSyncText? && p[10] != 0 ==> |p| >= 19 && a.ttl == FromBE(p[11..19]) && a.content == p[19..])
  {
  }

  /** The one text action with optional fields, as the source has it: an object that decodes into
      itself and fills a buffer. */
  class SyncTextRequest {
    var id: uint64
    var ttl: uint64
    var content: seq<byte>

    ghost function Value(): Action
      reads this
    {
      ReqSyncText(id, ttl, content)
    }

    constructor (id: uint64, ttl: int64, content: seq<byte>)
      ensures Value() == ReqSyncText(id, ToUint64(ttl), content)
    {
      this.id, this.ttl, this.content := id, ToUint64(ttl), content;
    }

    method Decode(payload: array<byte>) returns (panicked: bool)
      modifies this
      ensures panicked <==> DecodeReqSyncText(payload[..]).Malformed?
      ensures !panicked ==> DecodeReqSyncText(payload[..]) == Parsed(Value())
    {
      if payload.Length < 10 {
        return true;
      }
      assert payload[..][2..10] == payload[2..10];
      id := FromKey(payload[2..10]);
      if payload.Length < 11 {
        return true;
      }
      if payload[10] == 0 {
        ttl := 0;
        assert payload[..][11..] == payload[11..];
        content := payload[11..];
      } else {
        if payload.Length < 19 {
          return true;
        }
        assert payload[..][11..19] == payload[11..19] && payload[..][19..] == payload[19..];
        ttl := FromKey(payload[11..19]);
        content := payload[19..];
      }
      return false;
    }

    method PayloadBytes() returns (payload: array<byte>)
      ensures fresh(payload) && payload[..] == Value().Payload()
    {
      payload := NewPayload(FLAG_SYNC_TEXT, TYPE_REQUEST, id, if ttl > 0 then 1 else 0);
      if ttl > 0 {
        payload := Append(payload, Key(ttl));
      }
      payload := Append(payload, content);
    }
  }

  /** A time to live set by the sender, of either sign, is the one the receiver reads. */
  lemma TTLRoundTrip(ttl: int64)
    ensures ToInt64(ToUint64(ttl)) == ttl
    ensures ToUint64(ttl) == 0 <==> ttl == 0
  {
  }
}
