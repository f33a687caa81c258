/** The SDIO transport's counters (esp_sdio.c): transmit credit and receive length. */
module Sdio {
  import opened Basics
  import F = Framing

  const ESP_TX_BUFFER_MAX: nat := 0x1000
  const ESP_RX_BYTE_MAX: nat := 0x10_0000
  const ESP_RX_BUFFER_SIZE: nat := 2048
  const ESP_BLOCK_SIZE: nat := 512
  const ESP_MAX_BUF_CNT: nat := 10
  const ESP_SLAVE_CMD53_END_ADDR: nat := 0x1F800
  const MAX_WRITE_RETRIES: nat := 2

  // ---- Transmit credit ----

  /** `tx_buffer_count` of the context and the static `buf_available`. */
  datatype Credit = Credit(txBufferCount: nat, bufAvailable: nat) {
    predicate Valid() { txBufferCount < ESP_TX_BUFFER_MAX }
  }

  /** Bits 27..16 of the token register. */
  function Token(reg: nat): (t: nat)
    ensures t < ESP_TX_BUFFER_MAX
  {
    reg / TWO_16 % ESP_TX_BUFFER_MAX
  }

  /** `esp_slave_get_tx_buffer_num`; a failed register read leaves the cached value alone. */
  function Refresh(c: Credit, reg: Option<nat>): Credit
    requires c.Valid()
  {
    if reg.None? then c
    else c.(bufAvailable := (Token(reg.value) + ESP_TX_BUFFER_MAX - c.txBufferCount) % ESP_TX_BUFFER_MAX)
  }

  /** Refresh until enough is available or the attempts run out; `regs` is what each attempt reads. */
  function Poll(c: Credit, bufNeeded: nat, regs: seq<Option<nat>>): (r: Credit)
    requires c.Valid()
    ensures r.txBufferCount == c.txBufferCount
    decreases |regs|
  {
    if c.bufAvailable >= bufNeeded || regs == [] then c
    else Poll(Refresh(c, regs[0]), bufNeeded, regs[1..])
  }

  predicate Granted(c: Credit, bufNeeded: nat, regs: seq<Option<nat>>)
    requires c.Valid()
  {
    Poll(c, bufNeeded, regs).bufAvailable >= bufNeeded
  }

  /** `is_sdio_write_buffer_available`: the cache after the call. */
  function Reserve(c: Credit, bufNeeded: nat, regs: seq<Option<nat>>): Credit
    requires c.Valid()
  {
    var p := Poll(c, bufNeeded, regs);
    if p.bufAvailable >= bufNeeded then p.(bufAvailable := p.bufAvailable - bufNeeded) else p
  }

  /** What the register makes the driver believe: bits 27 to 16 less the buffers counted, modulo 4096. */
  function Believed(count: nat, reg: nat): (n: nat)
    requires count < 4096
  {
    (reg / 0x1_0000 % 4096 + 4096 - count) % 4096
  }

  /** Both attempts written out: the register is read only while the cache is too small, then the need is taken. */
  lemma ReserveSteps(c: Credit, need: nat, regs: seq<Option<nat>>)
    requires c.Valid() && |regs| == 2
    ensures var a1 := if c.bufAvailable >= need || regs[0].None? then c.bufAvailable
                      else Believed(c.txBufferCount, regs[0].value);
            var a2 := if a1 >= need || regs[1].None? then a1 else Believed(c.txBufferCount, regs[1].value);
            && (Granted(c, need, regs) <==> a2 >= need)
            && Reserve(c, need, regs) == Credit(c.txBufferCount, if a2 >= need then a2 - need else a2)
  {
    assert regs[1..][1..] == [] && regs[1..][0] == regs[1];
    var c1 := if c.bufAvailable >= need then c else Refresh(c, regs[0]);
    assert Poll(c, need, regs) == if c.bufAvailable >= need then c else Poll(c1, need, regs[1..]);
    assert Poll(c1, need, regs[1..]) == if c1.bufAvailable >= need then c1 else Refresh(c1, regs[1]);
  }

  /** The least number of 2048-byte buffers that hold a packet. */
  function BufNeeded(len: nat): (k: nat)
    ensures k * 2048 >= len && (k > 0 ==> (k - 1) * 2048 < len)
  {
    (len + ESP_RX_BUFFER_SIZE - 1) / ESP_RX_BUFFER_SIZE
  }

  /** Is the packet reserved for and written? */
  predicate Written(c: Credit, len: nat, regs: seq<Option<nat>>, writeOk: bool)
    requires c.Valid()
  {
    Granted(c, BufNeeded(len), regs) && writeOk
  }

  /** One packet in `tx_process`: reserve, write, and count it unless the write failed. */
  function Transmit(c: Credit, len: nat, regs: seq<Option<nat>>, writeOk: bool): (r: Credit)
    requires c.Valid()
    ensures r.Valid()
  {
    var need := BufNeeded(len);
    var r := Reserve(c, need, regs);
    if Written(c, len, regs, writeOk)
    then r.(txBufferCount := (r.txBufferCount + need) % ESP_TX_BUFFER_MAX) else r
  }

  /** `get_firmware_data`: the host assumes that at most ten of the granted buffers are free. */
  function BaseCount(token: nat): nat {
    if token >= ESP_MAX_BUF_CNT then token - ESP_MAX_BUF_CNT else 0
  }

  /** Probe and resume take the count from the token and leave the static cache alone. */
  function Restarted(c: Credit, tokenReg: nat): (r: Credit)
    ensures r.Valid()
  {
    Credit(BaseCount(Token(tokenReg)), c.bufAvailable)
  }

  // ---- Receive length ----

  /** The counter difference modulo 2^20. */
  function Backlog(reg: nat, rxByteCount: nat): (l: nat)
    requires rxByteCount < ESP_RX_BYTE_MAX
    ensures l < ESP_RX_BYTE_MAX && (rxByteCount + l) % ESP_RX_BYTE_MAX == reg % ESP_RX_BYTE_MAX
  {
    (reg % ESP_RX_BYTE_MAX + ESP_RX_BYTE_MAX - rxByteCount) % ESP_RX_BYTE_MAX
  }

  /** The CMD53 transfers of one packet: whole blocks first, then what is left. */
  function Chunks(left: nat): (r: seq<nat>)
    requires left > 0
    ensures 1 <= |r| <= 2 && forall i :: 0 <= i < |r| ==> 0 < r[i]
    ensures (|r| == 1 ==> r[0] == left) && (|r| == 2 ==> r[0] + r[1] == left)
    ensures left < 512 ==> r == [left]
    ensures left >= 512 ==> r[0] % 512 == 0 && left - r[0] < 512
  {
    if left < ESP_BLOCK_SIZE || left % ESP_BLOCK_SIZE == 0 then [left]
    else [left / ESP_BLOCK_SIZE * ESP_BLOCK_SIZE, left % ESP_BLOCK_SIZE]
  }

  /** The bytes of the first `k` transfers of a packet. */
  function Bytes(left: nat, k: nat): (b: nat)
    requires left > 0 && k <= |Chunks(left)|
    ensures b <= left && (b == left <==> k == |Chunks(left)|) && (b == 0 <==> k == 0)
  {
    if k == 0 then 0 else if k == 1 then Chunks(left)[0] else left
  }

  /** How many transfers are made if number `failAt` fails. */
  function Completed(left: nat, failAt: Option<nat>): (k: nat)
    requires left > 0
    ensures k == |Chunks(left)| || failAt == Some(k)
    ensures k <= |Chunks(left)| && (failAt.Some? ==> k <= failAt.value)
  {
    if failAt.Some? then Min(failAt.value, |Chunks(left)|) else |Chunks(left)|
  }

  /** The command address counts down from the window's end by the length; the bus moves whole words. */
  function Transfer(n: nat): (int, nat) {
    (ESP_SLAVE_CMD53_END_ADDR - n, (n + 3) / 4 * 4)
  }

  /** What the command carries covers the bytes wanted and less than a word more. */
  lemma TransferCovers(n: nat)
    ensures Transfer(n).0 + n == 0x1F800
    ensures Transfer(n).1 % 4 == 0 && n <= Transfer(n).1 < n + 4
  {
  }

  /** What is left after `k` transfers starts with the next one. */
  lemma NextChunk(left: nat, k: nat)
    requires left > 0 && k < |Chunks(left)|
    ensures var rest := left - Bytes(left, k);
            rest > 0 && Chunks(rest)[0] == Chunks(left)[k] && Bytes(left, k) + Chunks(rest)[0] == Bytes(left, k + 1)
  {
  }

  lemma CounterAdds(c: nat, a: nat, b: nat)
    ensures ((c + a) % ESP_RX_BYTE_MAX + b) % ESP_RX_BYTE_MAX == (c + (a + b)) % ESP_RX_BYTE_MAX
  {
  }

  /** The header checks at the end of `read_packet`. */
  predicate GoodHeader(data: seq<byte>) {
    && |data| >= F.HEADER_SIZE
    && 0 < F.LenOf(data) <= ESP_RX_BUFFER_SIZE
    && F.HEADER_SIZE <= F.OffsetOf(data) <= F.ESP_MAX_OFFSET_SIZE
  }

  /** The checks in terms of the bytes: length 1 to 2048 and offset 12 to 16, both little-endian. */
  lemma HeaderBytes(data: seq<byte>)
    ensures GoodHeader(data) <==>
              && |data| >= 12
              && 1 <= data[4] as nat + 256 * data[5] as nat <= 2048
              && 12 <= data[6] as nat + 256 * data[7] as nat <= 16
  {
  }

  /** How a receive attempt ended. */
  datatype RxResult = Idle | BusError | Dropped | Received(data: seq<byte>)

  class SdioContext {
    var txBufferCount: nat
    var bufAvailable: nat
    var rxByteCount: nat

    ghost function View(): Credit
      reads this
    {
      Credit(txBufferCount, bufAvailable)
    }

    ghost predicate Valid()
      reads this
    {
      View().Valid() && rxByteCount < ESP_RX_BYTE_MAX
    }

    /** A zeroed context at probe; the static `buf_available` keeps whatever an earlier context left in it. */
    constructor (cached: nat)
      ensures Valid() && View() == Credit(0, cached) && rxByteCount == 0
    {
      txBufferCount, bufAvailable, rxByteCount := 0, cached, 0;
    }

    /** `get_firmware_data`, run by probe and resume: both counters come from the slave, the cache stays. */
    method GetFirmwareData(lenReg: Option<nat>, tokenReg: Option<nat>) returns (ok: bool)
      requires Valid()
      modifies `txBufferCount, `rxByteCount
      ensures Valid() && ok == (lenReg.Some? && tokenReg.Some?)
      ensures rxByteCount == if lenReg.Some? then lenReg.value % ESP_RX_BYTE_MAX else old(rxByteCount)
      ensures View() == if ok then Restarted(old(View()), tokenReg.value) else old(View())
      ensures ok ==> var t := tokenReg.value / 0x1_0000 % 0x1000; txBufferCount == if t >= 10 then t - 10 else 0
    {
      if lenReg.None? { return false; }
      rxByteCount := lenReg.value % ESP_RX_BYTE_MAX;
      if tokenReg.None? { return false; }
      var val := tokenReg.value / TWO_16 % ESP_TX_BUFFER_MAX;
      if val >= ESP_MAX_BUF_CNT {
        txBufferCount := val - ESP_MAX_BUF_CNT;
      } else {
        txBufferCount := 0;
      }
      return true;
    }

    method SlaveGetTxBufferNum(reg: Option<nat>)
      requires Valid()
      modifies `bufAvailable
      ensures View() == Refresh(old(View()), reg)
    {
      if reg.None? { return; }
      var len := reg.value / TWO_16 % ESP_TX_BUFFER_MAX;
      len := (len + ESP_TX_BUFFER_MAX - txBufferCount) % ESP_TX_BUFFER_MAX;
      bufAvailable := len;
    }

    /** The retry loop: how many attempts are left when enough is available, 0 if it never is. */
    method PollCredit(bufNeeded: nat, regs: seq<Option<nat>>) returns (retry: nat)
      requires Valid() && |regs| == MAX_WRITE_RETRIES
      modifies `bufAvailable
      ensures View() == Poll(old(View()), bufNeeded, regs) && Valid()
      ensures retry == 0 <==> bufAvailable < bufNeeded
    {
      retry := MAX_WRITE_RETRIES;
      while retry > 0 && bufAvailable < bufNeeded
        invariant retry <= |regs| && Valid() && txBufferCount == old(txBufferCount)
        invariant Poll(old(View()), bufNeeded, regs) == Poll(View(), bufNeeded, regs[|regs| - retry..])
        invariant retry == 0 ==> bufAvailable < bufNeeded
      {
        ghost var rest := regs[|regs| - retry..];
        assert rest[1..] == regs[|regs| - (retry - 1)..];
        SlaveGetTxBufferNum(regs[|regs| - retry]);
        if bufAvailable < bufNeeded { retry := retry - 1; }
      }
    }

    method IsSdioWriteBufferAvailable(bufNeeded: nat, regs: seq<Option<nat>>) returns (available: bool)
      requires Valid() && |regs| == MAX_WRITE_RETRIES
      modifies `bufAvailable
      ensures View() == Reserve(old(View()), bufNeeded, regs)
      ensures available == Granted(old(View()), bufNeeded, regs)
    {
      var retry := PollCredit(bufNeeded, regs);
      if bufAvailable >= bufNeeded { bufAvailable := bufAvailable - bufNeeded; }
      available := retry > 0;
    }

    /** The part of the `tx_process` loop after the dequeue. */
    method TxOne(len: nat, regs: seq<Option<nat>>, writeOk: bool) returns (sent: bool)
      requires Valid() && |regs| == MAX_WRITE_RETRIES
      modifies `bufAvailable, `txBufferCount
      ensures View() == Transmit(old(View()), len, regs, writeOk) && Valid()
      ensures sent == Written(old(View()), len, regs, writeOk)
      ensures txBufferCount == if sent then (old(txBufferCount) + (len + 2047) / 2048) % 4096 else old(txBufferCount)
    {
      var bufNeeded := (len + ESP_RX_BUFFER_SIZE - 1) / ESP_RX_BUFFER_SIZE;
      var ok := IsSdioWriteBufferAvailable(bufNeeded, regs);
      if !ok { return false; }
      if !writeOk { return false; }
      txBufferCount := txBufferCount + bufNeeded;
      txBufferCount := txBufferCount % ESP_TX_BUFFER_MAX;
      return true;
    }

    method GetLenFromSlave(reg: nat) returns (len: nat)
      requires Valid()
      ensures len == Backlog(reg, rxByteCount)
    {
      len := reg % ESP_RX_BYTE_MAX;
      if len >= rxByteCount {
        len := (len + ESP_RX_BYTE_MAX - rxByteCount) % ESP_RX_BYTE_MAX;
      } else {
        var temp := ESP_RX_BYTE_MAX - rxByteCount;
        len := temp + len;
      }
    }

    /** One CMD53 transfer: whole blocks while there are any; the receive counter follows. */
    method ReadChunk(dataLeft: nat, fifo: seq<byte>) returns (bytes: seq<byte>)
      requires Valid() && 0 < dataLeft <= |fifo|
      modifies `rxByteCount
      ensures Valid() && bytes == fifo[..Chunks(dataLeft)[0]]
      ensures rxByteCount == (old(rxByteCount) + |bytes|) % ESP_RX_BYTE_MAX
    {
      var numBlocks := dataLeft / ESP_BLOCK_SIZE;
      var lenToRead := if numBlocks > 0 then numBlocks * ESP_BLOCK_SIZE else dataLeft;
      bytes := fifo[..lenToRead];
      rxByteCount := rxByteCount + lenToRead;
      rxByteCount := rxByteCount % ESP_RX_BYTE_MAX;
    }

    /** The transfer loop: `fifo` is what the slave has ready, `failAt` the transfer that fails, if any. */
    method ReadChunks(len: nat, fifo: seq<byte>, failAt: Option<nat>)
      returns (data: seq<byte>, transfers: seq<(int, nat)>)
      requires Valid() && 0 < len <= |fifo|
      modifies `rxByteCount
      ensures Valid() && rxByteCount == (old(rxByteCount) + |data|) % ESP_RX_BYTE_MAX
      ensures |transfers| == Completed(len, failAt) && data == fifo[..Bytes(len, |transfers|)]
      ensures forall i :: 0 <= i < |transfers| ==> transfers[i] == Transfer(Chunks(len)[i])
    {
      data, transfers := [], [];
      var dataLeft := len;
      while dataLeft > 0
        invariant |transfers| <= Completed(len, failAt) && Valid()
        invariant |data| == Bytes(len, |transfers|) && dataLeft == len - |data| && data == fifo[..|data|]
        invariant rxByteCount == (old(rxByteCount) + |data|) % ESP_RX_BYTE_MAX
        invariant forall i :: 0 <= i < |transfers| ==> transfers[i] == Transfer(Chunks(len)[i])
        decreases dataLeft
      {
        NextChunk(len, |transfers|);
        if failAt == Some(|transfers|) { return; }
        var bytes := ReadChunk(dataLeft, fifo[|data|..]);
        assert fifo[..|data| + |bytes|] == fifo[..|data|] + bytes;
        CounterAdds(old(rxByteCount), |data|, |bytes|);
        transfers := transfers + [Transfer(|bytes|)];
        data := data + bytes;
        dataLeft := dataLeft - |bytes|;
      }
    }

    /** `read_packet`, with no value where the length register cannot be read; the transfers made are returned too. */
    method ReadPacket(reg: Option<nat>, fifo: seq<byte>, failAt: Option<nat>)
      returns (result: RxResult, transfers: seq<(int, nat)>)
      requires Valid() && (reg.Some? ==> |fifo| >= Backlog(reg.value, rxByteCount))
      modifies `rxByteCount
      ensures Valid()
      ensures var len := if reg.Some? then Backlog(reg.value, old(rxByteCount)) else 0;
              if len == 0 then result == Idle && rxByteCount == old(rxByteCount) && transfers == []
              else
                && |transfers| == Completed(len, failAt)
                && (forall i :: 0 <= i < |transfers| ==> transfers[i] == Transfer(Chunks(len)[i]))
                && rxByteCount == (old(rxByteCount) + Bytes(len, |transfers|)) % ESP_RX_BYTE_MAX
                && result == if |transfers| < |Chunks(len)| then BusError
                             else if GoodHeader(fifo[..len]) then Received(fifo[..len]) else Dropped
    {
      if reg.None? { return Idle, []; }
      var len := GetLenFromSlave(reg.value);
      if len == 0 { return Idle, []; }
      var data;
      data, transfers := ReadChunks(len, fifo, failAt);
      if |data| < len { return BusError, transfers; }
      if !GoodHeader(data) { return Dropped, transfers; }
      return Received(data), transfers;
    }
  }
}
