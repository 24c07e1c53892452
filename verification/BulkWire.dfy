/**
 One exchange of the Bulk-Only transport, in terms of the bytes on the wire and of what became of each of
 its transfers.
*/
module BulkWire {
  import opened Common
  import opened BulkSpec

  // ---------------------------------------------------------------------------------------------
  // Bytes
  // ---------------------------------------------------------------------------------------------

  /** The four bytes of a little-endian word, least significant first */
  function Bytes32(v: nat): seq<byte>
    requires v < W32
  {
    [v % 0x100, v / 0x100 % 0x100, v / 0x1_0000 % 0x100, v / 0x100_0000]
  }

  lemma LittleEndian(b: seq<byte>, i: nat)
    requires i + 4 <= |b|
    ensures b[i..i + 4] == Bytes32(Le32(b, i))
  {
    var v := Le32(b, i);
    Digits(b[i], b[i + 1], b[i + 2], b[i + 3]);
    assert b[i..i + 4] == [b[i], b[i + 1], b[i + 2], b[i + 3]];
  }

  lemma Digits(b0: byte, b1: byte, b2: byte, b3: byte)
    ensures var v := b0 as int + 0x100 * b1 as int + 0x1_0000 * b2 as int + 0x100_0000 * b3 as int;
      v % 0x100 == b0 && v / 0x100 % 0x100 == b1 && v / 0x1_0000 % 0x100 == b2 && v / 0x100_0000 == b3
  {
    var w := b1 as int + 0x100 * b2 as int + 0x1_0000 * b3 as int;
    var v := b0 as int + 0x100 * w;
    assert v / 0x100 == w && v % 0x100 == b0;
    assert v / 0x1_0000 == w / 0x100 && v / 0x100_0000 == w / 0x1_0000;
  }

  /** The command block as it goes out (section 5.1): "USBC", tag, length, direction, LUN, and the command
      padded with zeros. */
  lemma CbwBytes(b: seq<byte>, d: Dev, rq: Request)
    requires |b| >= CBW_LEN && RequestOk(rq) && ParseCbw(b) == CbwFor(d, rq)
    ensures b[0..4] == [0x55, 0x53, 0x42, 0x43]
    ensures b[4..8] == Bytes32((d.tag + 1) % 0x1_0000_0000) && b[8..12] == Bytes32(rq.bufflen)
    ensures b[12] == (if rq.dataIn then 0x80 else 0) && b[14] == rq.cmdLen
    ensures !d.quirks.multTarget ==> b[13] as bv8 == rq.lun
    ensures d.quirks.multTarget && rq.lun < 16 && rq.target < 16 ==> SplitsInto(b[13], rq.lun, rq.target)
    ensures b[15..15 + rq.cmdLen] == rq.cmnd[..rq.cmdLen]
    ensures forall i :: 15 + rq.cmdLen <= i < 31 ==> b[i] == 0
  {
    hide Le32, LunByte, SplitsInto;
    LittleEndian(b, 0);
    LittleEndian(b, 4);
    LittleEndian(b, 8);
    assert Bytes32(0x43425355) == [0x55, 0x53, 0x42, 0x43];
    LunFor(rq);
    var cdb := rq.cmnd[..rq.cmdLen] + Zeros(16 - rq.cmdLen);
    assert b[15..31] == cdb;
    SliceOf(b, 15, 31, rq.cmdLen);
    FrontOf(rq.cmnd[..rq.cmdLen], Zeros(16 - rq.cmdLen));
    forall i | 15 + rq.cmdLen <= i < 31 ensures b[i] == 0 {
      assert b[i] == b[15..31][i - 15];
      ZerosAreZero(16 - rq.cmdLen, i - 15 - rq.cmdLen);
    }
  }

  lemma SliceOf(b: seq<byte>, i: nat, j: nat, n: nat)
    requires i + n <= j <= |b|
    ensures b[i..j][..n] == b[i..i + n]
  {
  }

  lemma FrontOf(a: seq<byte>, b: seq<byte>)
    ensures (a + b)[..|a|] == a
  {
  }

  lemma ZerosAreZero(n: nat, i: nat)
    requires i < n
    ensures Zeros(n)[i] == 0
  {
  }

  lemma ThereAndBack(x: bv8)
    ensures (x as byte) as bv8 == x
  {
  }

  lemma LunNibbles(lun: bv8, target: bv8)
    ensures LunBits(lun, target, false) == lun
    ensures lun < 16 && target < 16 ==>
      LunBits(lun, target, true) & 0xf == lun && LunBits(lun, target, true) >> 4 == target
  {
  }

  lemma LunFor(rq: Request)
    ensures LunByte(rq, false) as bv8 == rq.lun
    ensures rq.lun < 16 && rq.target < 16 ==> SplitsInto(LunByte(rq, true), rq.lun, rq.target)
  {
    LunNibbles(rq.lun, rq.target);
    ThereAndBack(LunBits(rq.lun, rq.target, false));
    ThereAndBack(LunBits(rq.lun, rq.target, true));
    hide LunBits;
  }

  /** The low and the high four bits of a byte */
  predicate SplitsInto(b: byte, low: bv8, high: bv8) {
    b as bv8 & 0xf == low && b as bv8 >> 4 == high
  }

  // ---------------------------------------------------------------------------------------------
  // Transfers
  // ---------------------------------------------------------------------------------------------

  /** All bytes went over. */
  ghost predicate Full(length: nat, r: Reply) {
    r.Done? && r.status == Ok && r.actual == length
  }

  ghost predicate Empty(r: Reply) {
    r.Done? && r.status in {Ok, ERemoteIo} && r.actual == 0
  }

  /** The endpoint stalled and the stall was cleared. */
  ghost predicate Stalled(r: Reply) {
    r.Done? && r.status == EPipe && r.haltCleared
  }

  /** A data stage that is over, whole or not: the device may send less, send more, or stall. */
  ghost predicate DataOver(r: Reply) {
    r.Done? && (r.status in {Ok, ERemoteIo, EOverflow} || Stalled(r))
  }

  /** A read of the status that is repeated once after a stall */
  ghost predicate ReadOrRetry(first: Reply, again: Reply, b: seq<byte>) {
    (Full(CSW_LEN, first) && b == first.data) || (Stalled(first) && Full(CSW_LEN, again) && b == again.data)
  }

  /** The status wrapper read: an empty packet in front of it is passed over, and the read after a stall
      is the last one. */
  ghost predicate StatusRead(io: BulkIo, b: seq<byte>) {
    if Empty(io.csw1) then ReadOrRetry(io.csw2, io.csw3, b) else ReadOrRetry(io.csw1, io.csw3, b)
  }

  ghost predicate Reached(d: Dev, rq: Request, io: BulkIo) {
    Full(if d.quirks.bulk32 then 32 else 31, io.cbw) && (rq.bufflen > 0 ==> DataOver(io.data))
  }

  lemma StatusExactly(io: BulkIo)
    requires WellFormed(CSW_LEN, io.csw1) && WellFormed(CSW_LEN, io.csw2) && WellFormed(CSW_LEN, io.csw3)
    ensures var r := StatusReply(io);
      && (Interpret(CSW_LEN, r) == XferGood ==> r.Done? && |r.data| == CSW_LEN && StatusRead(io, r.data))
      && forall b :: StatusRead(io, b) ==> Interpret(CSW_LEN, r) == XferGood && b == r.data
  {
  }

  /** A status wrapper is judged exactly when the command block went out in full, the data stage is over
      and the status could be read; it is then the one read. */
  lemma StatusReadExactly(d: Dev, rq: Request, io: BulkIo)
    requires RequestOk(rq) && IoOk(io, CbwLen(d), rq.bufflen)
    ensures var x := Bulk(d, rq, 0, io).exchange;
      && (x.csw.Some? ==> Reached(d, rq, io) && StatusRead(io, x.csw.value) && |x.csw.value| == CSW_LEN)
      && (x.csw.None? ==> !Reached(d, rq, io) || forall b :: !StatusRead(io, b))
  {
    StatusExactly(io);
    hide StatusRead, StatusReply, ParseCsw, Learn, BogusResidue;
  }

  /** The residue of the data stage */
  ghost predicate DataResidue(d: Dev, rq: Request, io: BulkIo, resid: int) {
    if Full(if d.quirks.bulk32 then 32 else 31, io.cbw) && rq.bufflen > 0
    then io.data.Done? ==> resid == rq.bufflen - io.data.actual
    else resid == 0
  }

  /** A device that answers INQUIRY or READ CAPACITY in full and still reports a residue */
  ghost predicate Bogus(rq: Request, resid: int, status: byte)
    requires |rq.cmnd| == 16
  {
    && status == 0 && resid == 0
    && ((rq.cmnd[0] == 0x12 && rq.bufflen == 36) || (rq.cmnd[0] == 0x25 && rq.bufflen == 8))
  }

  /** What the status wrapper makes of the exchange and of the device; resid is that of the data stage. */
  ghost predicate Judged(d: Dev, rq: Request, io: BulkIo, m: BulkOut, b: seq<byte>, resid: int)
    requires |rq.cmnd| == 16 && |b| == CSW_LEN
  {
    var x, residue, status := m.exchange, Le32(b, 8), b[12];
    var counts := residue != 0 && !d.quirks.ignoreResidue;
    && (x.accepted <==>
        && (Le32(b, 4) == (d.tag + 1) % 0x1_0000_0000 || d.quirks.ignoreTag) && status <= 2
        && (d.sig == 0 || Le32(b, 0) == d.sig))
    && (x.result == TransportGood <==> x.accepted && status == 0 && !Babbled(rq, io))
    && (x.result == TransportNoSense <==> x.accepted && status == 0 && Babbled(rq, io))
    && (x.result == TransportFailed <==> x.accepted && status == 1)
    && m.dev.sig == (if x.accepted then Le32(b, 0) else d.sig)
    && (m.dev.quirks.ignoreResidue <==> d.quirks.ignoreResidue || (x.accepted && counts && Bogus(rq, resid, status)))
    && x.resid == if x.accepted && counts && !Bogus(rq, resid, status) then Max(resid, Min(residue, rq.bufflen))
                  else resid
  }

  /** The device sent more than it was asked for. */
  ghost predicate Babbled(rq: Request, io: BulkIo) {
    rq.bufflen > 0 && io.data.Done? && io.data.status == EOverflow
  }

  lemma AnswerJudged(d: Dev, rq: Request, io: BulkIo, resid: int, b: seq<byte>)
    requires RequestOk(rq) && |b| == CSW_LEN
    ensures var d1 := d.(tag := (d.tag + 1) % W32);
      var m := Answer(d1, rq, resid, b, Babbled(rq, io), Unanswered(d, rq, resid));
      Judged(d, rq, io, m, b, resid) && m.exchange.csw == Some(b)
  {
    hide Le32, CbwFor, Babbled;
    assert ParseCsw(b) == Csw(Le32(b, 0), Le32(b, 4), Le32(b, 8), b[12]);
  }

  /** Every exchange: what its status wrapper, if one was read, makes of it; without one it is an error
      that teaches nothing. */
  lemma JudgedExactly(d: Dev, rq: Request, io: BulkIo)
    requires RequestOk(rq) && IoOk(io, CbwLen(d), rq.bufflen)
    ensures var m := Bulk(d, rq, 0, io);
      exists resid :: DataResidue(d, rq, io, resid)
        && match m.exchange.csw
           case Some(b) => |b| == CSW_LEN && Judged(d, rq, io, m, b, resid)
           case None =>
             m.exchange.result == TransportError && m.exchange.resid == resid
             && m.dev == d.(tag := (d.tag + 1) % 0x1_0000_0000)
  {
    var resid := if Interpret(CbwLen(d), io.cbw) == XferGood then DataResid(rq, 0, io) else 0;
    assert DataResidue(d, rq, io, resid);
    StatusExactly(io);
    if ReachesStatus(rq, io, CbwLen(d)) && Interpret(CSW_LEN, StatusReply(io)) == XferGood {
      AnswerJudged(d, rq, io, resid, StatusReply(io).data);
      assert Babbled(rq, io) <==> rq.bufflen > 0 && Interpret(rq.bufflen, io.data) == XferLong;
    }
    hide StatusRead, StatusReply, Le32, DataResidue, DataResid, Answer, Judged, Interpret, ReachesStatus, Babbled;
  }
}
