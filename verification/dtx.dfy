/** The DTX message codec of src/dtx/mod.rs: header, argument list, fragments. */
module Dtx {
  import opened Bytes
  import opened Wrappers

  const MAGIC: seq<byte> := [0x79, 0x5B, 0x3D, 0x1F]
  const T_NULL: u32 := 0x0A
  const T_UINT32: u32 := 0x03
  const T_INT64: u32 := 0x06
  const T_BYTEARRAY: u32 := 0x02
  const AUX_MAGIC: u32 := 0x1F0
  const ACK: u32 := 0

  datatype AuxValue =
    | Int32(i: i32)
    | Int64(n: i64)
    | Bytes(b: seq<byte>)

  /** `P` stands for what the property-list library makes of the payload bytes. */
  datatype DtxMessage<+P> = DtxMessage(
    msgId: u32,
    convId: u32,
    channel: i32,
    expectsReply: bool,
    msgType: u32,
    aux: seq<AuxValue>,
    payload: Option<P>)

  // ---- encoding ----

  function Header(index: u16, count: u16, len: nat, id: u32, conv: u32, channel: i32, expects: u32): (h: seq<byte>)
    ensures |h| == 32
  {
    MAGIC + (Le(32, 4) + (Le(index, 2) + (Le(count, 2) + (Le(len, 4)
    + (Le(id, 4) + (Le(conv, 4) + (Le(ToU32(channel), 4) + Le(expects, 4))))))))
  }

  function EncodeArg(a: AuxValue): (out: seq<byte>)
    ensures |out| >= 8
  {
    match a
    case Int32(v) => Le(T_NULL, 4) + (Le(T_UINT32, 4) + Le(ToU32(v), 4))
    case Int64(v) => Le(T_NULL, 4) + (Le(T_INT64, 4) + Le(ToU64(v), 8))
    case Bytes(b) => Le(T_NULL, 4) + (Le(T_BYTEARRAY, 4) + (Le(|b|, 4) + b))
  }

  /** The arguments from the i-th on. */
  function EncodeArgs(args: seq<AuxValue>, i: nat): (out: seq<byte>)
    requires i <= |args|
    ensures i < |args| ==> out != []
    decreases |args| - i
  {
    if i == |args| then [] else EncodeArg(args[i]) + EncodeArgs(args, i + 1)
  }

  function AuxSection(entries: seq<byte>): (out: seq<byte>)
    ensures |out| == if entries == [] then 0 else 16 + |entries|
  {
    if entries == [] then []
    else Le(AUX_MAGIC, 4) + (Le(0, 4) + (Le(|entries|, 4) + (Le(0, 4) + entries)))
  }

  /** Payload header, arguments and payload; nothing at all when there are neither. */
  function Body(msgType: u32, entries: seq<byte>, payload: seq<byte>): (out: seq<byte>)
    ensures |out| == if entries == [] && payload == [] then 0 else 16 + |AuxSection(entries)| + |payload|
  {
    if entries == [] && payload == [] then []
    else
      var aux := AuxSection(entries);
      Le(msgType, 4) + (Le(|aux|, 4) + (Le(|aux| + |payload|, 4) + (Le(0, 4) + (aux + payload))))
  }

  function EncodeRaw(
      id: u32, conv: u32, channel: i32, expects: bool, msgType: u32, args: seq<AuxValue>, payload: seq<byte>)
    : (out: seq<byte>)
  {
    var body := Body(msgType, EncodeArgs(args, 0), payload);
    Header(0, 1, |body|, id, conv, channel, if expects then 1 else 0) + body
  }

  function EncodeAck(id: u32, conv: u32, channel: i32): (out: seq<byte>)
    ensures |out| == 48
  {
    Header(0, 1, 16, id, conv, channel, 0) + (Le(ACK, 4) + seq(12, _ => 0))
  }

  // ---- decoding ----

  datatype Head = Head(
    fragIndex: u16, fragCount: u16, len: u32, id: u32, conv: u32, channel: i32, expects: bool)

  function ReadHead(s: seq<byte>): Head
    requires |s| >= 32
  {
    Head(U16At(s, 8), U16At(s, 10), U32At(s, 12), U32At(s, 16), U32At(s, 20), ToI32(U32At(s, 24)), U32At(s, 28) != 0)
  }

  /** The arguments read from `pos` on; reading stops without error at the first that is not whole. */
  function DecodeArgs(data: seq<byte>, pos: nat): (args: seq<AuxValue>)
    decreases |data| - pos
  {
    if pos + 8 > |data| || U32At(data, pos) != T_NULL then []
    else
      var ty, p := U32At(data, pos + 4), pos + 8;
      if ty == T_UINT32 && p + 4 <= |data| then [Int32(ToI32(U32At(data, p)))] + DecodeArgs(data, p + 4)
      else if ty == T_INT64 && p + 8 <= |data| then [Int64(ToI64(U64At(data, p)))] + DecodeArgs(data, p + 8)
      else if ty == T_BYTEARRAY && p + 4 <= |data| then
        var len := U32At(data, p);
        if p + 4 + len <= |data| then
          [Bytes(data[p + 4..p + 4 + len])] + DecodeArgs(data, p + 4 + len)
        else []
      else []
  }

  /** The bytes of sub-fragments, what is left of the stream, and the acknowledgements written meanwhile. */
  datatype Gathered = Gathered(data: Option<seq<byte>>, rest: seq<byte>, acks: seq<byte>)

  function AckOf(h: Head): seq<byte> {
    if h.expects then EncodeAck(h.id, (h.conv + 1) % TWO_32, h.channel) else []
  }

  /** Reads `n` sub-fragments, each a header and as many bytes as it declares. */
  function Gather(s: seq<byte>, n: nat): (g: Gathered) {
    if n == 0 then Gathered(Some([]), s, [])
    else if |s| < 32 then Gathered(None, [], [])
    else
      var h := ReadHead(s);
      if |s| < 32 + h.len then Gathered(None, [], AckOf(h))
      else
        var g := Gather(s[32 + h.len..], n - 1);
        Gathered(
          if g.data.Some? then Some(s[32..32 + h.len] + g.data.value) else None,
          g.rest,
          AckOf(h) + g.acks)
  }

  datatype Outcome<+P> =
    | Ok(m: DtxMessage<P>)
    | BadMagic(magic: u32)
    | BadPlist
    | EndOfStream
    | Panicked

  /** One message read: its outcome, the rest of the stream, the acknowledgements written. */
  datatype Read<+P> = Read(outcome: Outcome<P>, rest: seq<byte>, acks: seq<byte>)

  /** What the gathered bytes mean; fewer than twelve make the slices panic. */
  function Interpret<P>(h: Head, p: seq<byte>, plist: seq<byte> -> Option<P>): Outcome<P> {
    if |p| < 12 then Panicked
    else
      var msgType, auxLen, total := U32At(p, 0), U32At(p, 4), U32At(p, 8);
      var size := if auxLen >= 16 then auxLen - 16 else 0;
      var aux := if auxLen > 0 && |p| >= 32 + size then DecodeArgs(p[32..32 + size], 0) else [];
      var start, len := 16 + auxLen, if total >= auxLen then total - auxLen else 0;
      if len > 0 && |p| >= start + len then
        var v := plist(p[start..start + len]);
        if v.None? then BadPlist else Ok(DtxMessage(h.id, h.conv, h.channel, h.expects, msgType, aux, v))
      else Ok(DtxMessage(h.id, h.conv, h.channel, h.expects, msgType, aux, None))
  }

  /** `acking` says whether there is a writer to acknowledge sub-fragments to. */
  function ReadMessage<P>(s: seq<byte>, plist: seq<byte> -> Option<P>, acking: bool): Read<P> {
    if |s| < 32 then Read(EndOfStream, [], [])
    else if s[..4] != MAGIC then Read(BadMagic(MagicOf(s)), s[32..], [])
    else
      var h := ReadHead(s);
      if h.len == 0 then Read(Ok(DtxMessage(h.id, h.conv, h.channel, h.expects, 0, [], None)), s[32..], [])
      else
        var g := Collect(h, s[32..]);
        var acks := if acking then g.acks else [];
        if g.data.None? then Read(EndOfStream, g.rest, acks)
        else Read(Interpret(h, g.data.value, plist), g.rest, acks)
  }

  function MagicOf(s: seq<byte>): u32
    requires |s| >= 4
  {
    Widths(); ReadBe(s[..4])
  }

  /** The bytes of a message after its header: plain, or from its sub-fragments. */
  function Collect(h: Head, s: seq<byte>): Gathered {
    if h.fragIndex == 0 && h.fragCount > 1 then Gather(s, h.fragCount - 1)
    else if |s| < h.len then Gathered(None, [], [])
    else Gathered(Some(s[..h.len]), s[h.len..], [])
  }
}
