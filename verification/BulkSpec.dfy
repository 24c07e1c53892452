/**
 The Bulk-Only transport and the sense, retry and error decisions of usb_stor_invoke_transport, as
 functions on values. The class in BulkTransport.dfy, which works on the shared 64-byte I/O buffer,
 is proved to compute these functions; BulkRuns.dfy proves what they keep over every run.
*/
module BulkSpec {
  import opened Common

  const W32: nat := 0x1_0000_0000

  const CBW_SIGN: nat := 0x43425355
  const CBW_LEN: nat := 31
  const CSW_LEN: nat := 13
  const STAT_OK: nat := 0
  const STAT_FAIL: nat := 1
  const STAT_PHASE: nat := 2
  const SENSE_SIZE: nat := 18          // US_SENSE_SIZE
  const SENSE_BUFFER: nat := 96        // SCSI_SENSE_BUFFERSIZE

  const TEST_UNIT_READY: byte := 0x00
  const REQUEST_SENSE: byte := 0x03
  const INQUIRY: byte := 0x12
  const READ_CAPACITY: byte := 0x25
  const READ_10: byte := 0x28
  const WRITE_10: byte := 0x2a
  const ATA_16: byte := 0x85
  const ATA_12: byte := 0xa1

  const ILLEGAL_REQUEST: byte := 0x05
  const MEDIUM_ERROR: byte := 0x03
  const HARDWARE_ERROR: byte := 0x04

  const INVALID_CDB: seq<byte> := [0x70, 0, ILLEGAL_REQUEST, 0, 0, 0, 0, 0x0a, 0, 0, 0, 0, 0x24, 0, 0, 0, 0, 0]
  const RECORD_NOT_FOUND: seq<byte> := [0x70, 0, MEDIUM_ERROR, 0, 0, 0, 0, 0x0a, 0, 0, 0, 0, 0x14, 0, 0, 0, 0, 0]

  // ---------------------------------------------------------------------------------------------
  // Transfers
  // ---------------------------------------------------------------------------------------------

  datatype Status = Ok | EPipe | EOverflow | EConnReset | ERemoteIo | EIo | EOther

  /** What came of one transfer: refused before it started (the reported length is then whatever was
      there before), or finished with a URB status after moving actual bytes. data holds the bytes
      received, for a transfer into the I/O buffer; haltCleared is the outcome of usb_stor_clear_halt. */
  datatype Reply =
    | Refused(stale: nat)
    | Done(status: Status, actual: nat, data: seq<byte>, haltCleared: bool)

  datatype XferCode = XferGood | XferShort | XferStalled | XferLong | XferError

  datatype Transport = TransportGood | TransportFailed | TransportNoSense | TransportError

  /** interpret_urb_result for a bulk pipe, and the refusals before it */
  function Interpret(length: nat, r: Reply): XferCode {
    match r
    case Refused(_) => XferError
    case Done(status, actual, _, haltCleared) =>
      match status
      case Ok => if actual != length then XferShort else XferGood
      case EPipe => if haltCleared then XferStalled else XferError
      case EOverflow => XferLong
      case ERemoteIo => XferShort
      case _ => XferError
  }

  /** The USB core never moves more than was asked for, and delivers the bytes it reports. */
  predicate WellFormed(length: nat, r: Reply) {
    match r
    case Refused(stale) => stale < W32
    case Done(_, actual, data, _) => actual == |data| <= length
  }

  /** The transfers of one command: command block, data, and the three possible status reads. */
  datatype BulkIo = BulkIo(cbw: Reply, data: Reply, csw1: Reply, csw2: Reply, csw3: Reply)

  predicate IoOk(io: BulkIo, cbwLen: nat, bufflen: nat) {
    && (io.cbw.Done? ==> io.cbw.actual <= cbwLen) && (io.cbw.Refused? ==> io.cbw.stale < W32)
    && (io.data.Done? ==> io.data.actual <= bufflen) && (io.data.Refused? ==> io.data.stale < W32)
    && WellFormed(CSW_LEN, io.csw1) && WellFormed(CSW_LEN, io.csw2) && WellFormed(CSW_LEN, io.csw3)
  }

  function Le32(b: seq<byte>, i: nat): (v: nat)
    requires i + 4 <= |b|
    ensures v < W32
  {
    b[i] as int + 0x100 * b[i + 1] as int + 0x1_0000 * b[i + 2] as int + 0x100_0000 * b[i + 3] as int
  }

  /** Command block wrapper, section 5.1 of the Bulk-Only Transport 1.0 standard. */
  datatype Cbw = Cbw(signature: nat, tag: nat, length: nat, flags: byte, lun: byte, cdbLength: byte, cdb: seq<byte>)

  function ParseCbw(b: seq<byte>): Cbw
    requires |b| >= CBW_LEN
  {
    Cbw(Le32(b, 0), Le32(b, 4), Le32(b, 8), b[12], b[13], b[14], b[15..31])
  }

  /** Command status wrapper, section 5.2. */
  datatype Csw = Csw(signature: nat, tag: nat, residue: nat, status: byte)

  function ParseCsw(b: seq<byte>): (c: Csw)
    requires |b| >= CSW_LEN
    ensures c.residue < W32
  {
    Csw(Le32(b, 0), Le32(b, 4), Le32(b, 8), b[12])
  }

  /** The status read that decides: the first, the one after an empty packet, or the one after a stall. */
  function StatusReply(io: BulkIo): Reply {
    var second := if Interpret(CSW_LEN, io.csw1) == XferShort && Actual(io.csw1) == 0 then io.csw2 else io.csw1;
    if Interpret(CSW_LEN, second) == XferStalled then io.csw3 else second
  }

  function Actual(r: Reply): nat {
    if r.Refused? then r.stale else r.actual
  }

  // ---------------------------------------------------------------------------------------------
  // State and commands
  // ---------------------------------------------------------------------------------------------

  /** us->fflags, as far as this transport reads them */
  datatype Quirks = Quirks(ignoreTag: bool, ignoreResidue: bool, multTarget: bool, bulk32: bool,
                           sane: bool, bad: bool, initialRead10: bool)

  datatype Retry = Retry(redo: bool, worked: bool, hacks: bool, lastSector: int)

  /** The part of us_data that lives across commands; cdb6 tells whether the subclass uses six-byte
      REQUEST SENSE commands. */
  datatype Dev = Dev(tag: nat, sig: nat, quirks: Quirks, retry: Retry, cdb6: bool)

  datatype Request = Request(cmnd: seq<byte>, cmdLen: nat, dataIn: bool, bufflen: nat, underflow: nat,
                             lun: bv8, target: bv8, capacity: Option<nat>)

  /** Sixteen-byte command storage; a buffer length that fits the int in which the residue is kept. */
  predicate RequestOk(rq: Request) {
    |rq.cmnd| == 16 && rq.cmdLen <= 16 && rq.bufflen < 0x8000_0000
  }

  datatype SrbResult = Good | CheckCondition | DidError | DidAbort | DidImmRetry

  /** The fields of the SCSI command that the transport fills in. */
  datatype Report = Report(result: SrbResult, resid: int, sense: seq<byte>)

  /** One command block sent, and what the driver made of the answer. */
  datatype Exchange = Exchange(sent: Cbw, ignoreTag: bool, csw: Option<seq<byte>>, accepted: bool,
                               result: Transport, resid: int, bufflen: nat)

  function ToInt32(u: int): (i: int)
    ensures 0 <= u < 0x8000_0000 ==> i == u
  {
    var m := u % W32;
    if m < 0x8000_0000 then m else m - W32
  }

  function LunBits(lun: bv8, target: bv8, multTarget: bool): bv8 {
    if multTarget then lun | (target << 4) else lun
  }

  function LunByte(rq: Request, multTarget: bool): byte {
    LunBits(rq.lun, rq.target, multTarget) as byte
  }

  /** The command block wrapper of a request. */
  function CbwFor(d: Dev, rq: Request): Cbw
    requires RequestOk(rq)
  {
    Cbw(CBW_SIGN, (d.tag + 1) % W32, rq.bufflen, if rq.dataIn then 0x80 else 0, LunByte(rq, d.quirks.multTarget),
        rq.cmdLen, rq.cmnd[..rq.cmdLen] + Zeros(16 - rq.cmdLen))
  }

  // ---------------------------------------------------------------------------------------------
  // usb_stor_Bulk_transport
  // ---------------------------------------------------------------------------------------------

  datatype BulkOut = BulkOut(dev: Dev, resid: int, fakeSense: bool, exchange: Exchange)

  /** The residue left by the data stage. */
  function DataResid(rq: Request, resid: int, io: BulkIo): int {
    if rq.bufflen > 0 then ToInt32(rq.bufflen - Actual(io.data)) else resid
  }

  /** The stages before the status read went well enough to read the status. */
  predicate ReachesStatus(rq: Request, io: BulkIo, cbwLen: nat) {
    && Interpret(cbwLen, io.cbw) == XferGood
    && (rq.bufflen > 0 ==> Interpret(rq.bufflen, io.data) != XferError)
  }

  /** The checks on a status wrapper; d is the device after the tag was advanced. */
  predicate Acceptable(d: Dev, c: Csw) {
    && (c.tag == d.tag || d.quirks.ignoreTag) && c.status <= STAT_PHASE
    && (d.sig == 0 || c.signature == d.sig)
  }

  /** Devices seen to report a residue for a complete INQUIRY or READ CAPACITY answer. */
  predicate BogusResidue(rq: Request, resid: int, c: Csw)
    requires RequestOk(rq)
  {
    c.status == STAT_OK && resid == 0
    && ((rq.cmnd[0] == INQUIRY && rq.bufflen == 36) || (rq.cmnd[0] == READ_CAPACITY && rq.bufflen == 8))
  }

  /** What an acceptable status teaches about the device, and the residue it leaves. */
  function Learn(d: Dev, rq: Request, resid: int, c: Csw): (Dev, int)
    requires RequestOk(rq)
  {
    var counts := c.residue != 0 && !d.quirks.ignoreResidue;
    var bogus := counts && BogusResidue(rq, resid, c);
    (d.(sig := c.signature, quirks := d.quirks.(ignoreResidue := d.quirks.ignoreResidue || bogus)),
     if counts && !bogus then Max(resid, Min(c.residue, rq.bufflen)) else resid)
  }

  lemma LearnSetsSignature(d: Dev, sig: nat, rq: Request, resid: int, c: Csw)
    requires RequestOk(rq)
    ensures Learn(d.(sig := sig), rq, resid, c) == Learn(d, rq, resid, c)
  {
  }

  function StatusResult(status: byte, babble: bool): Transport {
    if status == STAT_OK then (if babble then TransportNoSense else TransportGood)
    else if status == STAT_FAIL then TransportFailed
    else TransportError
  }

  function CbwLen(d: Dev): nat {
    if d.quirks.bulk32 then 32 else CBW_LEN
  }

  /** What a complete status wrapper leads to; d is the device after the tag was advanced. */
  function Answer(d: Dev, rq: Request, resid: int, csw: seq<byte>, babble: bool, x: Exchange): BulkOut
    requires RequestOk(rq) && |csw| == CSW_LEN
  {
    var c := ParseCsw(csw);
    if !Acceptable(d, c) then BulkOut(d, resid, false, x.(csw := Some(csw)))
    else
      var (d2, resid2) := Learn(d, rq, resid, c);
      var result := StatusResult(c.status, babble);
      BulkOut(d2, resid2, result == TransportNoSense,
              x.(csw := Some(csw), accepted := true, result := result, resid := resid2))
  }

  /** An exchange that failed, or has not been answered yet. */
  function Unanswered(d: Dev, rq: Request, resid: int): Exchange
    requires RequestOk(rq)
  {
    Exchange(CbwFor(d, rq), d.quirks.ignoreTag, None, false, TransportError, resid, rq.bufflen)
  }

  function Bulk(d: Dev, rq: Request, resid0: int, io: BulkIo): BulkOut
    requires RequestOk(rq) && IoOk(io, CbwLen(d), rq.bufflen)
  {
    var d1 := d.(tag := (d.tag + 1) % W32);
    var resid := if Interpret(CbwLen(d), io.cbw) == XferGood then DataResid(rq, resid0, io) else resid0;
    var x := Unanswered(d, rq, resid);
    var status := StatusReply(io);
    if !ReachesStatus(rq, io, CbwLen(d)) || Interpret(CSW_LEN, status) != XferGood then BulkOut(d1, resid, false, x)
    else
      var babble := rq.bufflen > 0 && Interpret(rq.bufflen, io.data) == XferLong;
      Answer(d1, rq, resid, status.data, babble, x)
  }

  // ---------------------------------------------------------------------------------------------
  // usb_stor_invoke_transport
  // ---------------------------------------------------------------------------------------------

  /** One REQUEST SENSE: its transfers, whether the command timed out meanwhile, the sense buffer
      afterwards, and how the SCSI core reads it: no sense information at all, descriptor format. */
  datatype SenseTry = SenseTry(io: BulkIo, timedOut: bool, buffer: seq<byte>, empty: bool, descriptor: bool)

  /** What the device and the error handler do during one command. */
  datatype Env = Env(main: BulkIo, timedOut: bool, large: SenseTry, small: SenseTry)

  function SenseRequest(d: Dev, rq: Request, size: nat): (r: Request)
    requires RequestOk(rq) && size <= SENSE_BUFFER
    ensures RequestOk(r) && r.bufflen == size
  {
    rq.(cmnd := [REQUEST_SENSE, 0, 0, 0, size] + Zeros(11), cmdLen := if d.cdb6 then 6 else 12, dataIn := true,
        bufflen := size, underflow := 0)
  }

  predicate SenseOk(t: SenseTry, d: Dev, size: nat) {
    |t.buffer| == SENSE_BUFFER && IoOk(t.io, CbwLen(d), size)
  }

  predicate EnvOk(e: Env, d: Dev, rq: Request) {
    IoOk(e.main, CbwLen(d), rq.bufflen) && SenseOk(e.large, d, SENSE_BUFFER) && SenseOk(e.small, d, SENSE_SIZE)
  }

  function Overlay(buffer: seq<byte>, prefix: seq<byte>): (r: seq<byte>)
    ensures |r| == Max(|buffer|, |prefix|)
  {
    if |prefix| <= |buffer| then prefix + buffer[|prefix|..] else prefix
  }

  /** The result of a command, whether last_sector_hacks still applies to it, the exchanges made for
      it, and the events counted over a run: SANE_SENSE downgrades, READ(10)s seen good, immediate
      retries. */
  datatype Outcome = Outcome(dev: Dev, report: Report, hacks: bool, log: seq<Exchange>,
                             downgrades: nat, goodReads: nat, retries: nat)

  function Sector(rq: Request): nat
    requires RequestOk(rq)
  {
    rq.cmnd[2] as int * 0x100_0000 + rq.cmnd[3] as int * 0x1_0000 + rq.cmnd[4] as int * 0x100 + rq.cmnd[5] as int
  }

  predicate ReadsLastSector(rq: Request)
    requires RequestOk(rq)
  {
    (rq.cmnd[0] == READ_10 || rq.cmnd[0] == WRITE_10) && rq.capacity == Some((Sector(rq) + 1) % W32)
  }

  /** last_sector_hacks */
  function LastSector(d: Dev, rq: Request, r: Report): (Dev, Report)
    requires RequestOk(rq) && |r.sense| == SENSE_BUFFER
  {
    var reset := if rq.cmnd[0] != TEST_UNIT_READY then 0 else d.retry.lastSector;
    if !d.retry.hacks then (d, r)
    else if !ReadsLastSector(rq) then (d.(retry := d.retry.(lastSector := reset)), r)
    else if r.result == Good && r.resid == 0 then (d.(retry := d.retry.(hacks := false, lastSector := reset)), r)
    else if d.retry.lastSector + 1 < 3 then (d.(retry := d.retry.(lastSector := d.retry.lastSector + 1)), r)
    else (d.(retry := d.retry.(lastSector := reset)),
          r.(result := CheckCondition, sense := Overlay(r.sense, RECORD_NOT_FOUND)))
  }

  /** A finished ATA pass-through marks the device as one that answers large sense requests. */
  function SatCheck(d: Dev, rq: Request): Dev
    requires RequestOk(rq)
  {
    if (rq.cmnd[0] == ATA_16 || rq.cmnd[0] == ATA_12) && !d.quirks.sane && !d.quirks.bad && (rq.cmnd[2] / 0x20) % 2 == 0
    then d.(quirks := d.quirks.(sane := true)) else d
  }

  function Downgrade(d: Dev): Dev {
    d.(quirks := d.quirks.(sane := false, bad := true))
  }

  /** How auto-sense ended, with the sense buffer it left. */
  datatype SenseEnd =
    | SenseAborted(sense: seq<byte>)
    | SenseBroken(sense: seq<byte>)
    | SenseRead(result: SrbResult, sense: seq<byte>)

  datatype SenseOut = SenseOut(dev: Dev, end: SenseEnd, log: seq<Exchange>, downgrades: nat)

  /** Sense data of more than 18 bytes from a device not yet classified. */
  predicate LongSense(d: Dev, buffer: seq<byte>)
    requires |buffer| == SENSE_BUFFER
  {
    buffer[7] > SENSE_SIZE - 8 && !d.quirks.sane && !d.quirks.bad && 0x70 <= buffer[0] % 0x80 < 0x74
  }

  /** The sense data of a failed command, as the SCSI core will see it. */
  function ReadSense(d: Dev, t: SenseTry): (Dev, SenseEnd)
    requires |t.buffer| == SENSE_BUFFER
  {
    var long := LongSense(d, t.buffer);
    var d1 := if long then d.(quirks := d.quirks.(sane := true)) else d;
    var s1 := if long then t.buffer[7 := SENSE_SIZE - 8] else t.buffer;
    if t.empty then (d1, SenseRead(DidError, s1[(if t.descriptor then 1 else 2) := HARDWARE_ERROR]))
    else (d1, SenseRead(CheckCondition, s1))
  }

  /** The sense request of the given size, and the retry with a small one when a large one fails. */
  function AutoSense(d: Dev, rq: Request, e: Env, large: bool): (s: SenseOut)
    requires RequestOk(rq) && EnvOk(e, d, rq)
    ensures |s.end.sense| == SENSE_BUFFER
    decreases large
  {
    var t := if large then e.large else e.small;
    var size := if large then SENSE_BUFFER else SENSE_SIZE;
    var m := Bulk(d, SenseRequest(d, rq, size), 0, t.io);
    var log := [m.exchange];
    if t.timedOut then
      SenseOut(if large then Downgrade(m.dev) else m.dev, SenseAborted(t.buffer), log, if large then 1 else 0)
    else if m.exchange.result == TransportFailed && large then
      var again := AutoSense(Downgrade(m.dev), rq, e, false);
      SenseOut(again.dev, again.end, log + again.log, again.downgrades + 1)
    else if m.exchange.result != TransportGood then SenseOut(m.dev, SenseBroken(t.buffer), log, 0)
    else var (d1, end) := ReadSense(m.dev, t); SenseOut(d1, end, log, 0)
  }

  /** One turn of the loop of auto-sense */
  lemma SenseStep(d: Dev, rq: Request, e: Env, large: bool)
    requires RequestOk(rq) && EnvOk(e, d, rq)
    ensures var t := if large then e.large else e.small;
      var m := Bulk(d, SenseRequest(d, rq, if large then SENSE_BUFFER else SENSE_SIZE), 0, t.io);
      var s := AutoSense(d, rq, e, large);
      if t.timedOut then
        s == SenseOut(if large then Downgrade(m.dev) else m.dev, SenseAborted(t.buffer), [m.exchange], Num(large))
      else if m.exchange.result == TransportFailed && large then
        EnvOk(e, Downgrade(m.dev), rq)
        && var again := AutoSense(Downgrade(m.dev), rq, e, false);
        s == SenseOut(again.dev, again.end, [m.exchange] + again.log, again.downgrades + 1)
      else if m.exchange.result != TransportGood then s == SenseOut(m.dev, SenseBroken(t.buffer), [m.exchange], 0)
      else s == SenseOut(ReadSense(m.dev, t).0, ReadSense(m.dev, t).1, [m.exchange], 0)
  {
    hide ReadSense;
  }

  /** READ(10) bookkeeping: a failure after a success asks for one immediate retry. */
  function Read10(d: Dev, rq: Request, r: Report): (Dev, Report)
    requires RequestOk(rq) && |r.sense| == SENSE_BUFFER
  {
    if !(d.quirks.initialRead10 && rq.cmnd[0] == READ_10) then (d, r)
    else
      var good := r.result == Good;
      var redo := d.retry.redo || (!good && d.retry.worked);
      (d.(retry := d.retry.(redo := false, worked := good)),
       if redo then r.(result := DidImmRetry, sense := r.sense[0 := 0]) else r)
  }

  function Underflow(rq: Request, r: Report): Report
    requires |r.sense| == SENSE_BUFFER
  {
    if (r.result == Good || r.sense[2] == 0) && rq.bufflen - r.resid < rq.underflow then r.(result := DidError) else r
  }

  /** The path of a command whose transport and sense request went through. */
  function Closing(d: Dev, rq: Request, r: Report, log: seq<Exchange>, downgrades: nat): Outcome
    requires RequestOk(rq) && |r.sense| == SENSE_BUFFER
  {
    var (d1, r1) := Read10(d, rq, r);
    var counted := d.quirks.initialRead10 && rq.cmnd[0] == READ_10;
    Outcome(d1, Underflow(rq, r1), true, log, downgrades, if counted && r.result == Good then 1 else 0,
            if counted && r1.result == DidImmRetry then 1 else 0)
  }

  /** How a command ends whose sense data was asked for; log is what was exchanged before. */
  function AfterSense(s: SenseOut, rq: Request, r: Report, log: seq<Exchange>): (o: Outcome)
    requires RequestOk(rq) && |s.end.sense| == SENSE_BUFFER
    ensures |o.report.sense| == SENSE_BUFFER
  {
    var r2 := r.(sense := s.end.sense);
    match s.end
    case SenseAborted(_) => Outcome(s.dev, r2.(result := DidAbort), true, log + s.log, s.downgrades, 0, 0)
    case SenseBroken(_) =>
      // a multi-target device skips the reset and the last-sector check
      Outcome(s.dev, r2.(result := DidError), !s.dev.quirks.multTarget, log + s.log, s.downgrades, 0, 0)
    case SenseRead(res, _) => Closing(s.dev, rq, r2.(result := res), log + s.log, s.downgrades)
  }

  /** How a command ends once its own transport returned. */
  function AfterTransport(d: Dev, rq: Request, r: Report, x: Exchange, e: Env): (o: Outcome)
    requires RequestOk(rq) && EnvOk(e, d, rq) && |r.sense| == SENSE_BUFFER
    ensures |o.report.sense| == SENSE_BUFFER
  {
    if e.timedOut then Outcome(d, r.(result := DidAbort), true, [x], 0, 0, 0)
    else match x.result
      case TransportError => Outcome(d, r.(result := DidError), true, [x], 0, 0, 0)
      case TransportNoSense => Outcome(d, r.(result := CheckCondition), true, [x], 0, 0, 0)
      case TransportGood => Closing(SatCheck(d, rq), rq, r.(result := Good), [x], 0)
      case TransportFailed => AfterSense(AutoSense(d, rq, e, d.quirks.sane), rq, r, [x])
  }

  lemma BulkKeepsLength(d: Dev, rq: Request, resid0: int, io: BulkIo)
    requires RequestOk(rq) && IoOk(io, CbwLen(d), rq.bufflen)
    ensures CbwLen(Bulk(d, rq, resid0, io).dev) == CbwLen(d)
  {
    hide ParseCsw, Acceptable, BogusResidue, Interpret, StatusReply, ReachesStatus, DataResid, CbwFor;
  }

  /** usb_stor_invoke_transport up to the call of last_sector_hacks */
  function Core(d: Dev, rq: Request, sense: seq<byte>, e: Env): (o: Outcome)
    requires RequestOk(rq) && EnvOk(e, d, rq) && |sense| == SENSE_BUFFER
    ensures |o.report.sense| == SENSE_BUFFER
  {
    BulkKeepsLength(d, rq, 0, e.main);
    hide Bulk, AfterTransport;
    var m := Bulk(d, rq, 0, e.main);
    var r := Report(Good, m.resid, if m.fakeSense then Overlay(sense, INVALID_CDB) else sense);
    AfterTransport(m.dev, rq, r, m.exchange, e)
  }

  /** usb_stor_invoke_transport */
  function Invoke(d: Dev, rq: Request, sense: seq<byte>, e: Env): Outcome
    requires RequestOk(rq) && EnvOk(e, d, rq) && |sense| == SENSE_BUFFER
  {
    var o := Core(d, rq, sense, e);
    if !o.hacks then o
    else var (d1, r1) := LastSector(o.dev, rq, o.report); o.(dev := d1, report := r1)
  }
}
