/** The HTTP/2 frame layer of src/remotexpc/h2.rs (RFC 9113 section 4.1). */
module H2 {
  import opened Bytes
  import opened Wrappers
  import opened Stream

  const TYPE_DATA: byte := 0x0
  const TYPE_HEADERS: byte := 0x1
  const TYPE_SETTINGS: byte := 0x4
  const TYPE_PING: byte := 0x6
  const TYPE_GOAWAY: byte := 0x7
  const TYPE_WINDOW_UPDATE: byte := 0x8
  const FLAG_ACK: byte := 0x1

  /** A frame as it is written. */
  datatype RawFrame = RawFrame(ty: byte, flags: byte, streamId: u32, payload: seq<byte>)

  /** A frame as it is understood when read. */
  datatype Frame =
    | Data(streamId: u32, payload: seq<byte>)
    | Headers(streamId: u32, flags: byte)
    | Settings(flags: byte, pairs: seq<(u16, u32)>)
    | Ping(ack: bool, data: seq<byte>)
    | GoAway(lastStream: u32, error: u32)
    | WindowUpdate(streamId: u32, increment: u32)
    | Unknown(ty: byte, streamId: u32, payload: seq<byte>)

  predicate AckSet(flags: byte) {
    flags % 2 == 1
  }

  function BeU16(s: seq<byte>): u16
    requires |s| == 2
  {
    Widths(); ReadBe(s)
  }

  function BeU32(s: seq<byte>): u32
    requires |s| == 4
  {
    Widths(); ReadBe(s)
  }

  /** Drops the reserved top bit. */
  function Low31(n: u32): (m: u32)
    ensures m < TWO_31
  {
    n % TWO_31
  }

  // ---- writing ----

  /** The length field keeps only 24 bits of the payload length. */
  function EncodeFrame(f: RawFrame): (out: seq<byte>)
    ensures |out| == 9 + |f.payload|
  {
    Be(|f.payload|, 3) + ([f.ty, f.flags] + (Be(Low31(f.streamId), 4) + f.payload))
  }

  // ---- reading ----

  function SettingsPairs(payload: seq<byte>): seq<(u16, u32)> {
    if |payload| < 6 then []
    else [(BeU16(payload[..2]), BeU32(payload[2..6]))] + SettingsPairs(payload[6..])
  }

  function FieldOrZero(payload: seq<byte>, at: nat): u32 {
    if at + 4 <= |payload| then BeU32(payload[at..at + 4]) else 0
  }

  /** What the frame means; None is the panic on a WINDOW_UPDATE of fewer than four bytes. */
  function Classify(f: RawFrame): Option<Frame> {
    if f.ty == TYPE_DATA then Some(Data(f.streamId, f.payload))
    else if f.ty == TYPE_HEADERS then Some(Headers(f.streamId, f.flags))
    else if f.ty == TYPE_SETTINGS then Some(Settings(f.flags, SettingsPairs(f.payload)))
    else if f.ty == TYPE_PING then
      Some(Ping(AckSet(f.flags), if |f.payload| >= 8 then f.payload[..8] else seq(8, _ => 0)))
    else if f.ty == TYPE_GOAWAY then
      Some(GoAway(Low31(FieldOrZero(f.payload, 0)), FieldOrZero(f.payload, 4)))
    else if f.ty == TYPE_WINDOW_UPDATE then
      if |f.payload| < 4 then None else Some(WindowUpdate(f.streamId, Low31(BeU32(f.payload[..4]))))
    else Some(Unknown(f.ty, f.streamId, f.payload))
  }

  datatype Parsed =
    | Got(raw: RawFrame, used: nat)
    | Eof

  function ParseRaw(s: seq<byte>): (r: Parsed)
    ensures r.Got? ==> 9 <= r.used <= |s|
  {
    if |s| < 9 then Eof
    else
      var length := ReadBe(s[..3]);
      if |s| < 9 + length then Eof
      else Got(RawFrame(s[3], s[4], Low31(BeU32(s[5..9])), s[9..9 + length]), 9 + length)
  }

  /** A written frame is read back as it was, and no byte beyond it, exactly when its length fits 24 bits. */
  lemma FrameRoundTrip(f: RawFrame, rest: seq<byte>)
    ensures ParseRaw(EncodeFrame(f) + rest) == Got(f.(streamId := Low31(f.streamId)), |EncodeFrame(f)|)
      <==> |f.payload| < TWO_24
  {
    hide Be, ReadBe;
    var s := EncodeFrame(f) + rest;
    assert s[..3] == Be(|f.payload|, 3);
    assert s[3] == f.ty && s[4] == f.flags;
    assert s[5..9] == Be(Low31(f.streamId), 4);
    assert s[9..9 + |f.payload|] == f.payload;
    Widths();
    ReadBeOfBe(Low31(f.streamId), 4);
    if |f.payload| < TWO_24 {
      ReadBeOfBe(|f.payload|, 3);
    }
  }

  function SettingsBytes(pairs: seq<(u16, u32)>): seq<byte> {
    if pairs == [] then [] else Be(pairs[0].0, 2) + Be(pairs[0].1, 4) + SettingsBytes(pairs[1..])
  }

  lemma BeReadsBack(n: u32, k: u16)
    ensures BeU32(Be(n, 4)) == n && BeU16(Be(k, 2)) == k
  {
    Widths();
    ReadBeOfBe(n, 4);
    ReadBeOfBe(k, 2);
  }

  /** All settings are read, in order, and up to five bytes after them are not. */
  lemma {:induction false} SettingsReadBack(pairs: seq<(u16, u32)>, tail: seq<byte>)
    requires |tail| < 6
    ensures SettingsPairs(SettingsBytes(pairs) + tail) == pairs
  {
    hide Be, ReadBe, BeU16, BeU32;
    if pairs == [] {
      assert [] + tail == tail;
    } else {
      var more := SettingsBytes(pairs[1..]) + tail;
      SettingsReadBack(pairs[1..], tail);
      BeReadsBack(pairs[0].1, pairs[0].0);
      FirstSetting(Be(pairs[0].0, 2), Be(pairs[0].1, 4), SettingsBytes(pairs[1..]), tail);
      hide SettingsBytes;
      SettingThen(Be(pairs[0].0, 2), Be(pairs[0].1, 4), more);
      assert pairs == [pairs[0]] + pairs[1..];
    }
  }

  lemma FirstSetting(k: seq<byte>, v: seq<byte>, more: seq<byte>, tail: seq<byte>)
    ensures k + v + more + tail == k + v + (more + tail)
  {}

  lemma SettingThen(k: seq<byte>, v: seq<byte>, more: seq<byte>)
    requires |k| == 2 && |v| == 4
    ensures SettingsPairs(k + v + more) == [(BeU16(k), BeU32(v))] + SettingsPairs(more)
  {
    hide BeU16, BeU32;
    var all := k + v + more;
    assert all[..2] == k && all[2..6] == v && all[6..] == more;
  }

  /** What each frame says that a peer may send (RFC 9113 section 6). */
  lemma FrameMeanings(flags: byte, id: u32, pairs: seq<(u16, u32)>, n: u32, m: u32, more: seq<byte>)
    ensures Classify(RawFrame(0, flags, id, more)) == Some(Data(id, more))
    ensures Classify(RawFrame(1, flags, id, more)) == Some(Headers(id, flags))
    ensures |more| < 6 ==> Classify(RawFrame(4, flags, id, SettingsBytes(pairs) + more)) == Some(Settings(flags, pairs))
    ensures |more| == 8 ==> Classify(RawFrame(6, flags, id, more)) == Some(Ping(flags % 2 == 1, more))
    ensures Classify(RawFrame(7, flags, id, Be(n, 4) + (Be(m, 4) + more))) == Some(GoAway(n % 0x8000_0000, m))
    ensures Classify(RawFrame(8, flags, id, Be(n, 4) + more)) == Some(WindowUpdate(id, n % 0x8000_0000))
    ensures forall ty: byte | ty !in {0, 1, 4, 6, 7, 8} ::
      Classify(RawFrame(ty, flags, id, more)) == Some(Unknown(ty, id, more))
  {
    hide Be, ReadBe, BeU16, BeU32;
    if |more| < 6 {
      SettingsReadBack(pairs, more);
    }
    hide SettingsPairs, SettingsBytes;
    assert |more| == 8 ==> more[..8] == more;
    BeReadsBack(n, 0);
    BeReadsBack(m, 0);
    var a := Be(n, 4) + (Be(m, 4) + more);
    assert a[0..4] == Be(n, 4) && a[4..8] == Be(m, 4);
    assert (Be(n, 4) + more)[..4] == Be(n, 4);
  }

  /** A frame cut short anywhere is not read. */
  lemma FrameCut(f: RawFrame, k: nat)
    requires |f.payload| < TWO_24 && k < |EncodeFrame(f)|
    ensures ParseRaw(EncodeFrame(f)[..k]) == Eof
  {
    hide Be, ReadBe;
    var s := EncodeFrame(f);
    if k >= 9 {
      assert s[..k][..3] == Be(|f.payload|, 3);
      Widths();
      ReadBeOfBe(|f.payload|, 3);
    }
  }

  /** Reads one frame; the outer None is the end of the stream. */
  method ReadFrame(r: Reader) returns (raw: Option<RawFrame>, frame: Option<Frame>)
    modifies r
    ensures ParseRaw(old(r.pending)).Eof? ==> raw == None && r.pending == []
    ensures ParseRaw(old(r.pending)).Got? ==>
      && raw == Some(ParseRaw(old(r.pending)).raw)
      && r.pending == old(r.pending)[ParseRaw(old(r.pending)).used..]
      && frame == Classify(raw.value)
  {
    hide ReadBe;
    var hdr := r.ReadExact(9);
    if hdr.None? {
      return None, None;
    }
    var h := hdr.value;
    ghost var s := old(r.pending);
    assert h[..3] == s[..3] && h[5..9] == s[5..9];
    var length := ReadBe(h[..3]);
    var payload := r.ReadExact(length);
    if payload.None? {
      return None, None;
    }
    assert payload.value == s[9..9 + length];
    var f := RawFrame(h[3], h[4], Low31(BeU32(h[5..9])), payload.value);
    var meaning := ClassifyFrame(f);
    return Some(f), meaning;
  }

  method ClassifyFrame(f: RawFrame) returns (frame: Option<Frame>)
    ensures frame == Classify(f)
  {
    if f.ty != TYPE_SETTINGS {
      return Classify(f);
    }
    var pairs, i := [], 0;
    while i + 6 <= |f.payload|
      invariant i <= |f.payload|
      invariant pairs + SettingsPairs(f.payload[i..]) == SettingsPairs(f.payload)
    {
      var p := f.payload[i..];
      assert p[..2] == f.payload[i..i + 2] && p[2..6] == f.payload[i + 2..i + 6] && p[6..] == f.payload[i + 6..];
      pairs := pairs + [(BeU16(f.payload[i..i + 2]), BeU32(f.payload[i + 2..i + 6]))];
      i := i + 6;
    }
    assert SettingsPairs(f.payload[i..]) == [];
    assert pairs == SettingsPairs(f.payload);
    return Some(Settings(f.flags, pairs));
  }

  /** Writes a frame header and payload. */
  method WriteFrameRaw(w: ByteVec, f: RawFrame)
    modifies w
    ensures w.data == old(w.data) + EncodeFrame(f)
  {
    var len := |f.payload|;
    w.Extend(Be(len, 3));
    w.Extend([f.ty, f.flags]);
    w.Extend(Be(Low31(f.streamId), 4));
    if f.payload != [] {
      w.Extend(f.payload);
    }
    assert w.data == old(w.data) + EncodeFrame(f);
  }
}
