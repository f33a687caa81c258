/** Round trip of frames, and which single-byte errors the checksum catches. */
module FramingProofs {
  import opened Basics
  import opened Framing

  /** What `write_packet` accepts. */
  predicate Sendable(ifType: nat, ifNum: nat, payload: seq<byte>) {
    && ifType < ESP_MAX_IF && ifNum < 16 && payload != []
    && PadLen(|payload|) + |payload| <= SPI_BUF_SIZE - HEADER_SIZE
  }

  lemma FrameFields(ifType: nat, ifNum: nat, payload: seq<byte>, checksumOn: bool)
    requires Sendable(ifType, ifNum, payload)
    ensures var f, plain := Frame(ifType, ifNum, payload, checksumOn), PlainFrame(ifType, ifNum, payload);
      && LenOf(f) == |payload| && OffsetOf(f) == PadLen(|payload|)
      && IfTypeOf(f) == ifType && f[0] as nat / 16 == ifNum && f[2] == PACKET_TYPE_DATA
      && f[7] == 0 && f[PadLen(|payload|)..] == payload
      && SetLe16(f, 8, 0) == plain
      && (checksumOn ==> ChecksumOf(f) == Sum(plain) % TWO_16)
  {
    var f, plain := Frame(ifType, ifNum, payload, checksumOn), PlainFrame(ifType, ifNum, payload);
    var pad := PadLen(|payload|);
    assert forall k :: 0 <= k < |f| && k != 8 && k != 9 ==> f[k] == plain[k];
    assert plain[pad..] == payload;
    assert f[pad..] == plain[pad..];
    assert plain[8] == 0 && plain[9] == 0;
  }

  /** The frame byte by byte: packed interface, little-endian fields, zeros elsewhere before the payload. */
  lemma FrameBytes(ifType: nat, ifNum: nat, payload: seq<byte>, checksumOn: bool)
    requires Sendable(ifType, ifNum, payload)
    ensures var f := Frame(ifType, ifNum, payload, checksumOn);
      var pad := |f| - |payload|;
      && 12 < pad <= 16 && |f| % 4 == 0
      && f[0] == ifType + 16 * ifNum && f[1] == f[2] == f[3] == 0
      && f[4] as int + 256 * f[5] as int == |payload| && f[6] as int + 256 * f[7] as int == pad
      && f[8] as int + 256 * f[9] as int == (if checksumOn then Sum(f[8 := 0][9 := 0]) % 0x1_0000 else 0)
      && (forall k :: 10 <= k < pad ==> f[k] == 0) && f[pad..] == payload
  {
    FrameFields(ifType, ifNum, payload, checksumOn);
    var f, plain := Frame(ifType, ifNum, payload, checksumOn), PlainFrame(ifType, ifNum, payload);
    assert forall k :: 10 <= k < |f| ==> f[k] == plain[k];
    assert f[8 := 0][9 := 0] == plain;
  }

  /**
   Every sendable payload comes back unchanged from a transfer, whatever follows the frame in the
   1600-byte buffer.
   */
  lemma RoundTrip(ifType: nat, ifNum: nat, payload: seq<byte>, checksumOn: bool, tail: seq<byte>)
    requires Sendable(ifType, ifNum, payload)
    requires PadLen(|payload|) + |payload| + |tail| == SPI_BUF_SIZE
    ensures Receive(Frame(ifType, ifNum, payload, checksumOn) + tail, checksumOn)
         == Some(Packet(ifType, ifNum, PACKET_TYPE_DATA, payload))
  {
    var f := Frame(ifType, ifNum, payload, checksumOn);
    FrameFields(ifType, ifNum, payload, checksumOn);
    assert (f + tail)[..|f|] == f;
  }

  /** An Ethernet frame always fits: 13 to 16 bytes of header and padding, total a multiple of 4. */
  lemma EthernetFits(ifType: nat, ifNum: nat, payload: seq<byte>)
    requires ifType < ESP_MAX_IF && ifNum < 16 && 0 < |payload| <= 1514
    ensures Sendable(ifType, ifNum, payload)
    ensures 13 <= PadLen(|payload|) <= 16 && |Frame(ifType, ifNum, payload, true)| % 4 == 0
  {
  }

  // ---- Single-byte errors ----

  /** The sum over the first `n` bytes with the checksum field left out. */
  ghost function Body(buf: seq<byte>, n: nat): int
    requires HEADER_SIZE <= n <= |buf|
  {
    Sum(buf[..n]) - buf[8] as int - buf[9] as int
  }

  lemma BodyIsSum(f: seq<byte>)
    requires HEADER_SIZE <= |f|
    ensures Sum(SetLe16(f, 8, 0)) == Body(f, |f|)
  {
    assert f[..|f|] == f;
    SumUpdate(f, 8, 0);
    SumUpdate(f[8 := 0], 9, 0);
  }

  /** Acceptance of a whole transfer, checksum on, read off the buffer itself. */
  lemma AcceptedIff(buf: seq<byte>)
    requires |buf| == SPI_BUF_SIZE
    ensures Receive(buf, true).Some? <==>
              Trimmed(buf).Some? && Body(buf, OffsetOf(buf) + LenOf(buf)) % TWO_16 == ChecksumOf(buf)
  {
    if Trimmed(buf).Some? {
      var f := Trimmed(buf).value;
      BodyIsSum(f);
      assert f[..|f|] == f;
    }
  }

  lemma BodyUpdate(buf: seq<byte>, n: nat, k: nat, b: byte)
    requires HEADER_SIZE <= n <= |buf| && k < n
    ensures Body(buf[k := b], n) == Body(buf, n) + (if k == 8 || k == 9 then 0 else b as int - buf[k] as int)
  {
    assert buf[k := b][..n] == buf[..n][k := b];
    SumUpdate(buf[..n], k, b);
  }

  /** Moving the end of the frame over `m - n` bytes changes the sum by at most 255 each. */
  lemma BodySpan(buf: seq<byte>, n: nat, m: nat)
    requires HEADER_SIZE <= n <= m <= |buf|
    ensures Body(buf, m) - Body(buf, n) == Sum(buf[n..m]) <= 255 * (m - n)
  {
    assert buf[..m] == buf[..n] + buf[n..m];
    SumConcat(buf[..n], buf[n..m]);
    SumBound(buf[n..m]);
  }

  /** What the error does to the checked sum: the byte's own change plus the bytes newly in or out. */
  ghost function Shift(buf: seq<byte>, buf': seq<byte>, k: nat): int
    requires |buf| == |buf'| == SPI_BUF_SIZE && k < |buf|
    requires HEADER_SIZE <= OffsetOf(buf) + LenOf(buf) <= |buf| && HEADER_SIZE <= OffsetOf(buf') + LenOf(buf') <= |buf|
  {
    buf'[k] as int - buf[k] as int
    + Body(buf, OffsetOf(buf') + LenOf(buf')) - Body(buf, OffsetOf(buf) + LenOf(buf))
  }

  /** A buffer that holds a valid frame, and the same buffer with byte `k` of the frame changed. */
  ghost predicate Corrupted(buf: seq<byte>, buf': seq<byte>, k: nat, b: byte) {
    && |buf| == SPI_BUF_SIZE && Receive(buf, true).Some?
    && k < OffsetOf(buf) + LenOf(buf) && b != buf[k] && buf' == buf[k := b]
  }

  lemma ContentErrorIsCaught(buf: seq<byte>, buf': seq<byte>, k: nat, b: byte)
    requires Corrupted(buf, buf', k, b) && !(4 <= k <= 7)
    ensures Receive(buf', true) == None
  {
    AcceptedIff(buf);
    AcceptedIff(buf');
    assert forall i {:trigger buf'[i]} :: 0 <= i < |buf| && i != k ==> buf'[i] == buf[i];
    BodyUpdate(buf, OffsetOf(buf) + LenOf(buf), k, b);
    assert OffsetOf(buf') == OffsetOf(buf) && LenOf(buf') == LenOf(buf);
    if k == 8 || k == 9 {
      assert ChecksumOf(buf') != ChecksumOf(buf);
    } else {
      assert ChecksumOf(buf') == ChecksumOf(buf);
      SmallIsNonzero(b as int - buf[k] as int);
      ModDifference(Body(buf', OffsetOf(buf) + LenOf(buf)), Body(buf, OffsetOf(buf) + LenOf(buf)));
    }
  }

  /** A change of a length field is accepted only if it moves the sum by a multiple of 2^16. */
  lemma LengthErrorIff(buf: seq<byte>, buf': seq<byte>, k: nat, b: byte)
    requires Corrupted(buf, buf', k, b) && 4 <= k <= 7
    ensures Receive(buf', true).Some? <==> Trimmed(buf').Some? && Shift(buf, buf', k) % TWO_16 == 0
  {
    AcceptedIff(buf);
    AcceptedIff(buf');
    assert ChecksumOf(buf') == ChecksumOf(buf);
    if Trimmed(buf').Some? {
      BodyUpdate(buf, OffsetOf(buf') + LenOf(buf'), k, b);
      ModDifference(Body(buf', OffsetOf(buf') + LenOf(buf')), Body(buf, OffsetOf(buf) + LenOf(buf)));
    }
  }

  lemma SmallIsNonzero(d: int)
    requires 0 < Abs(d) < TWO_16
    ensures d % TWO_16 != 0
  {
  }

  lemma ModDifference(x: int, y: int)
    ensures x % TWO_16 == y % TWO_16 <==> (x - y) % TWO_16 == 0
  {
  }

  lemma SmallShiftIsNonzero(buf: seq<byte>, buf': seq<byte>, k: nat)
    requires |buf| == |buf'| == SPI_BUF_SIZE && k < |buf|
    requires HEADER_SIZE <= OffsetOf(buf) + LenOf(buf) <= |buf| && HEADER_SIZE <= OffsetOf(buf') + LenOf(buf') <= |buf|
    requires var d, s := buf'[k] as int - buf[k] as int,
                         (OffsetOf(buf') + LenOf(buf')) - (OffsetOf(buf) + LenOf(buf));
             d != 0 && (d > 0 <==> s > 0) && Abs(s) <= 256 && (Abs(s) == 256 ==> Abs(d) == 1)
    ensures Shift(buf, buf', k) % TWO_16 != 0
  {
    var n, m := OffsetOf(buf) + LenOf(buf), OffsetOf(buf') + LenOf(buf');
    if n <= m { BodySpan(buf, n, m); } else { BodySpan(buf, m, n); }
    SmallIsNonzero(Shift(buf, buf', k));
  }

  /** A length change of fewer than 257 bytes moves the sum by less than 2^16, and not by zero. */
  lemma SmallShiftIsCaught(buf: seq<byte>, buf': seq<byte>, k: nat, b: byte)
    requires Corrupted(buf, buf', k, b) && 4 <= k <= 7 && Trimmed(buf').Some?
    requires var d, s := b as int - buf[k] as int, (OffsetOf(buf') + LenOf(buf')) - (OffsetOf(buf) + LenOf(buf));
      (d > 0 <==> s > 0) && Abs(s) <= 256 && (Abs(s) == 256 ==> Abs(d) == 1)
    ensures Receive(buf', true) == None
  {
    LengthErrorIff(buf, buf', k, b);
    SmallShiftIsNonzero(buf, buf', k);
  }

  /**
   With checksums on, the receiver drops a valid frame after any change of any one of its bytes,
   header lengths included, except that a change by two or more of byte 5 (the high half of `len`)
   passes exactly when it moves the checked sum by a multiple of 2^16.
   */
  lemma SingleByteErrors(buf: seq<byte>, buf': seq<byte>, k: nat, b: byte)
    requires Corrupted(buf, buf', k, b)
    ensures k != 5 || Abs(b as int - buf[5] as int) == 1 ==> Receive(buf', true) == None
    ensures k == 5 ==>
              (Receive(buf', true).Some? <==> Trimmed(buf').Some? && Shift(buf, buf', 5) % TWO_16 == 0)
  {
    if k < 4 || 7 < k {
      ContentErrorIsCaught(buf, buf', k, b);
    } else {
      LengthErrorIff(buf, buf', k, b);
      if k != 7 && Trimmed(buf').Some? && (k != 5 || Abs(b as int - buf[5] as int) == 1) {
        SmallShiftIsCaught(buf, buf', k, b);
      }
    }
  }

  /** Every built frame is such a valid frame, so the law above applies to it. */
  lemma BuiltFramesAreValid(ifType: nat, ifNum: nat, payload: seq<byte>, tail: seq<byte>, k: nat, b: byte)
    requires Sendable(ifType, ifNum, payload) && PadLen(|payload|) + |payload| + |tail| == SPI_BUF_SIZE
    requires k < PadLen(|payload|) + |payload| && b != Frame(ifType, ifNum, payload, true)[k]
    ensures var buf := Frame(ifType, ifNum, payload, true) + tail; Corrupted(buf, buf[k := b], k, b)
  {
    var f := Frame(ifType, ifNum, payload, true);
    RoundTrip(ifType, ifNum, payload, true, tail);
    FrameFields(ifType, ifNum, payload, true);
    var buf := f + tail;
    assert forall i {:trigger buf[i]} :: 0 <= i < |f| ==> buf[i] == f[i];
  }

  lemma {:induction false} SumOfConstant(n: nat, b: byte)
    ensures Sum(seq(n, _ => b)) == n * b
  {
    if n > 0 {
      assert seq(n, _ => b)[1..] == seq(n - 1, _ => b);
      SumOfConstant(n - 1, b);
    }
  }

  /** A tail whose first 512 bytes sum to 2^16 - 2. */
  lemma CancellingTail() returns (tail: seq<byte>)
    ensures |tail| == SPI_BUF_SIZE - 20 && Sum(tail[..512]) == 65534
  {
    var run := seq(511, _ => 128);
    var last: seq<byte> := [126];
    tail := run + last + Zeros(SPI_BUF_SIZE - 20 - 512);
    assert tail[..512] == run + last;
    SumConcat(run, last);
    SumOfConstant(511, 128);
    assert Sum(last) == 126;
  }

  /** The exception is real: any four-byte payload, in a suitable transfer, may grow by 512 bytes unnoticed. */
  lemma UncaughtError(payload: seq<byte>) returns (tail: seq<byte>)
    requires |payload| == 4
    ensures |tail| == SPI_BUF_SIZE - 20
    ensures var buf := Frame(0, 0, payload, true) + tail;
      Corrupted(buf, buf[5 := 2], 5, 2) && Receive(buf[5 := 2], true).Some?
  {
    tail := CancellingTail();
    var f := Frame(0, 0, payload, true);
    FrameFields(0, 0, payload, true);
    assert f[5] == 0 && f[4] == 4 && f[6] == 16;
    var buf := f + tail;
    var buf' := buf[5 := 2];
    BuiltFramesAreValid(0, 0, payload, tail, 5, 2);
    assert buf'[0] == f[0] && buf'[4] == f[4] && buf'[6] == f[6] && buf'[7] == f[7];
    assert buf[0] == f[0] && buf[4] == f[4] && buf[5] == f[5] && buf[6] == f[6] && buf[7] == f[7];
    BodySpan(buf, 20, 532);
    assert buf[20..532] == tail[..512];
    LengthErrorIff(buf, buf', 5, 2);
  }
}
