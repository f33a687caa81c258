/** The esp-hosted frame: 12-byte header, zero padding, payload; how it is built and how it is parsed. */
module Framing {
  import opened Basics

  const HEADER_SIZE: nat := 12
  const ESP_MAX_OFFSET_SIZE: nat := 16
  const SPI_BUF_SIZE: nat := 1600

  const ESP_HCI_IF: nat := 2
  const ESP_INTERNAL_IF: nat := 3
  const ESP_MAX_IF: nat := 5
  const PACKET_TYPE_DATA: byte := 0

  /** A socket buffer: the bytes between its data and tail pointers. */
  class SkBuff {
    var data: seq<byte>

    constructor (bytes: seq<byte>)
      ensures data == bytes
    {
      data := bytes;
    }
  }

  // ---- Checksum ----

  function Sum(s: seq<byte>): nat {
    if s == [] then 0 else s[0] as nat + Sum(s[1..])
  }

  lemma {:induction false} SumConcat(a: seq<byte>, b: seq<byte>)
    ensures Sum(a + b) == Sum(a) + Sum(b)
  {
    if a == [] {
      assert a + b == b;
    } else {
      assert (a + b)[1..] == a[1..] + b;
      SumConcat(a[1..], b);
    }
  }

  lemma {:induction false} SumBound(s: seq<byte>)
    ensures Sum(s) <= 255 * |s|
  {
    if s != [] { SumBound(s[1..]); }
  }

  lemma SumUpdate(s: seq<byte>, k: nat, b: byte)
    requires k < |s|
    ensures Sum(s[k := b]) == Sum(s) - s[k] as nat + b as nat
  {
    assert s == s[..k] + ([s[k]] + s[k + 1..]);
    assert s[k := b] == s[..k] + ([b] + s[k + 1..]);
    SumConcat(s[..k], [s[k]] + s[k + 1..]);
    SumConcat(s[..k], [b] + s[k + 1..]);
  }

  /** `compute_checksum`: the byte sum modulo 2^16. */
  method ComputeChecksum(buf: seq<byte>, len: nat) returns (checksum: nat)
    requires len <= |buf| && len < TWO_16
    ensures checksum == Sum(buf[..len]) % TWO_16
  {
    checksum := 0;
    var i := 0;
    while i < len
      invariant i <= len
      invariant checksum == Sum(buf[..i]) % TWO_16
    {
      assert buf[..i + 1] == buf[..i] + [buf[i]];
      SumConcat(buf[..i], [buf[i]]);
      checksum := (checksum + buf[i] as nat) % TWO_16;
      i := i + 1;
    }
  }

  // ---- Header fields ----

  function Lo(x: nat): byte { x % 256 }

  function Hi(x: nat): byte { x / 256 % 256 }

  /** A little-endian 16-bit field at offset `k`. */
  function Le16(s: seq<byte>, k: nat): (r: nat)
    requires k + 1 < |s|
    ensures r < TWO_16
  {
    s[k] as nat + 256 * s[k + 1] as nat
  }

  function SetLe16(s: seq<byte>, k: nat, x: nat): (r: seq<byte>)
    requires k + 1 < |s|
    ensures |r| == |s|
    ensures x < TWO_16 ==> Le16(r, k) == x
  {
    s[k := Lo(x)][k + 1 := Hi(x)]
  }

  function LenOf(s: seq<byte>): nat requires |s| >= HEADER_SIZE { Le16(s, 4) }

  function OffsetOf(s: seq<byte>): nat requires |s| >= HEADER_SIZE { Le16(s, 6) }

  function ChecksumOf(s: seq<byte>): nat requires |s| >= HEADER_SIZE { Le16(s, 8) }

  function IfTypeOf(s: seq<byte>): nat requires |s| >= HEADER_SIZE { s[0] as nat % 16 }

  // ---- Building ----

  /** Header size plus alignment padding; never less than one byte of padding. */
  function PadLen(len: nat): (p: nat)
    ensures HEADER_SIZE < p <= ESP_MAX_OFFSET_SIZE
    ensures (len + p) % 4 == 0
  {
    HEADER_SIZE + (4 - (len + HEADER_SIZE) % 4)
  }

  function Zeros(n: nat): (z: seq<byte>)
    ensures |z| == n
  {
    seq(n, _ => 0)
  }

  /** The frame with its checksum field still zero. */
  function PlainFrame(ifType: nat, ifNum: nat, payload: seq<byte>): (f: seq<byte>)
    requires ifType < 16 && ifNum < 16 && |payload| + ESP_MAX_OFFSET_SIZE < TWO_16
    ensures |f| == PadLen(|payload|) + |payload|
  {
    var pad := PadLen(|payload|);
    [ifType + 16 * ifNum, 0, PACKET_TYPE_DATA, 0, Lo(|payload|), Hi(|payload|), Lo(pad), Hi(pad), 0, 0, 0, 0]
    + Zeros(pad - HEADER_SIZE) + payload
  }

  function Frame(ifType: nat, ifNum: nat, payload: seq<byte>, checksumOn: bool): (f: seq<byte>)
    requires ifType < 16 && ifNum < 16 && |payload| + ESP_MAX_OFFSET_SIZE < TWO_16
    ensures |f| == PadLen(|payload|) + |payload|
  {
    var plain := PlainFrame(ifType, ifNum, payload);
    if checksumOn then SetLe16(plain, 8, Sum(plain) % TWO_16) else plain
  }

  /** Pushing zeros in front and then writing the header fields gives the plain frame. */
  lemma HeaderFilled(ifType: nat, ifNum: nat, payload: seq<byte>)
    requires ifType < 16 && ifNum < 16 && |payload| + ESP_MAX_OFFSET_SIZE < TWO_16
    ensures var pad := PadLen(|payload|);
            SetLe16(SetLe16((Zeros(pad) + payload)[0 := ifType + 16 * ifNum], 4, |payload|), 6, pad)
              [2 := PACKET_TYPE_DATA]
            == PlainFrame(ifType, ifNum, payload)
  {
    var pad := PadLen(|payload|);
    var header := Zeros(HEADER_SIZE)[0 := ifType + 16 * ifNum];
    var rest := Zeros(pad - HEADER_SIZE) + payload;
    assert (Zeros(pad) + payload)[0 := ifType + 16 * ifNum] == header + rest;
  }

  /** The checksum covers the whole frame with its own field still zero. */
  method StampChecksum(skb: SkBuff, len: nat)
    requires HEADER_SIZE <= |skb.data| == len < TWO_16
    modifies skb
    ensures skb.data == SetLe16(old(skb.data), 8, Sum(old(skb.data)) % TWO_16)
  {
    assert skb.data[..len] == skb.data;
    var checksum := ComputeChecksum(skb.data, len);
    skb.data := SetLe16(skb.data, 8, checksum);
  }

  /** The part of `process_tx_packet` that turns the network stack's packet into a frame, in place. */
  method BuildFrame(skb: SkBuff, ifType: nat, ifNum: nat, checksumOn: bool)
    requires ifType < 16 && ifNum < 16 && |skb.data| + ESP_MAX_OFFSET_SIZE < TWO_16
    modifies skb
    ensures skb.data == Frame(ifType, ifNum, old(skb.data), checksumOn)
  {
    ghost var payload := skb.data;
    var len := |skb.data|;
    var padLen := HEADER_SIZE;
    var totalLen := len + padLen;
    padLen := padLen + (4 - totalLen % 4);
    skb.data := Zeros(padLen) + skb.data;
    skb.data := skb.data[0 := ifType + 16 * ifNum];
    skb.data := SetLe16(skb.data, 4, len);
    skb.data := SetLe16(skb.data, 6, padLen);
    skb.data := skb.data[2 := PACKET_TYPE_DATA];
    HeaderFilled(ifType, ifNum, payload);
    if checksumOn { StampChecksum(skb, len + padLen); }
  }

  // ---- Parsing ----

  /** The checks of `process_rx_buf` before the data path test: the trimmed frame, if acceptable. */
  function Trimmed(buf: seq<byte>): (r: Option<seq<byte>>)
    requires |buf| == SPI_BUF_SIZE
    ensures r.Some? ==> HEADER_SIZE < |r.value| <= |buf| && |r.value| == OffsetOf(buf) + LenOf(buf)
    ensures r.Some? ==> r.value == buf[..|r.value|]
  {
    if IfTypeOf(buf) >= ESP_MAX_IF then None
    else if LenOf(buf) == 0 || !(HEADER_SIZE <= OffsetOf(buf) <= ESP_MAX_OFFSET_SIZE) then None
    else if OffsetOf(buf) + LenOf(buf) > SPI_BUF_SIZE then None
    else Some(buf[..OffsetOf(buf) + LenOf(buf)])
  }

  /** `process_rx_buf` up to the data path test: trims the buffer, or reports it unusable. */
  method TrimRxBuf(skb: SkBuff) returns (ok: bool)
    requires |skb.data| == SPI_BUF_SIZE
    modifies skb
    ensures ok <==> Trimmed(old(skb.data)).Some?
    ensures skb.data == if ok then Trimmed(old(skb.data)).value else old(skb.data)
    ensures var b := old(skb.data);
            var (len, offset) := (b[4] as int + 256 * b[5] as int, b[6] as int + 256 * b[7] as int);
            && (ok <==> b[0] % 16 < 5 && len != 0 && 12 <= offset <= 16 && offset + len <= 1600)
            && (ok ==> skb.data == b[..offset + len])
  {
    if IfTypeOf(skb.data) >= ESP_MAX_IF { return false; }
    var offset := OffsetOf(skb.data);
    var len := LenOf(skb.data);
    if len == 0 || !(HEADER_SIZE <= offset <= ESP_MAX_OFFSET_SIZE) { return false; }
    if offset + len > SPI_BUF_SIZE { return false; }
    skb.data := skb.data[..offset + len];
    return true;
  }

  datatype Packet = Packet(ifType: nat, ifNum: nat, packetType: byte, payload: seq<byte>)

  /** A frame as `read_packet` hands it over: as long as its header says. */
  predicate WholeFrame(f: seq<byte>) {
    HEADER_SIZE < |f| < TWO_16 && OffsetOf(f) + LenOf(f) == |f| && HEADER_SIZE <= OffsetOf(f)
  }

  /** The checksum test and header removal of `process_rx_packet`. */
  function Unwrapped(f: seq<byte>, checksumOn: bool): Option<Packet>
    requires WholeFrame(f)
  {
    if checksumOn && Sum(SetLe16(f, 8, 0)) % TWO_16 != ChecksumOf(f) then None
    else Some(Packet(IfTypeOf(f), f[0] as nat / 16, f[2], f[OffsetOf(f)..]))
  }

  /** The same in bytes: what the checksum covers, and where the packet's fields and payload are. */
  lemma UnwrappedBytes(f: seq<byte>, checksumOn: bool)
    requires WholeFrame(f)
    ensures var p := Unwrapped(f, checksumOn);
            && (p.None? <==> checksumOn && Sum(f[8 := 0][9 := 0]) % 0x1_0000 != f[8] as int + 256 * f[9] as int)
            && (p.Some? ==>
                  p.value == Packet(f[0] as int % 16, f[0] as int / 16, f[2], f[f[6] as int + 256 * f[7] as int..]))
  {
  }

  lemma ZeroedChecksum(f: seq<byte>)
    requires WholeFrame(f)
    ensures var z := SetLe16(f, 8, 0);
      && LenOf(z) == LenOf(f) && OffsetOf(z) == OffsetOf(f) && IfTypeOf(z) == IfTypeOf(f)
      && z[0] == f[0] && z[2] == f[2] && z[..|z|] == z && z[OffsetOf(f)..] == f[OffsetOf(f)..]
  {
  }

  method ProcessRxPacket(skb: SkBuff, checksumOn: bool) returns (p: Option<Packet>)
    requires WholeFrame(skb.data)
    modifies skb
    ensures p == Unwrapped(old(skb.data), checksumOn)
    ensures p.Some? ==> skb.data == p.value.payload
  {
    ZeroedChecksum(skb.data);
    var len := LenOf(skb.data);
    var offset := OffsetOf(skb.data);
    if checksumOn {
      var rxChecksum := ChecksumOf(skb.data);
      skb.data := SetLe16(skb.data, 8, 0);
      var checksum := ComputeChecksum(skb.data, len + offset);
      if checksum != rxChecksum { return None; }
    }
    var header := skb.data;
    skb.data := skb.data[offset..];
    return Some(Packet(IfTypeOf(header), header[0] as nat / 16, header[2], skb.data));
  }

  /** A whole transfer as the receiver sees it. */
  function Receive(buf: seq<byte>, checksumOn: bool): Option<Packet>
    requires |buf| == SPI_BUF_SIZE
  {
    var t := Trimmed(buf);
    if t.None? then None else Unwrapped(t.value, checksumOn)
  }
}
