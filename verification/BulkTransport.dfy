/**
 usb_stor_Bulk_transport and usb_stor_invoke_transport on the driver's own state: command block and
 status wrappers share one 64-byte buffer, so a status that was not read leaves the command's bytes,
 its tag among them, where the status would be.
*/
module BulkTransport {
  import opened Common
  import opened BulkSpec

  const IOBUF_SIZE: nat := 64

  class UsData {
    const iobuf: array<byte>
    var tag: nat
    var bcsSignature: nat
    var quirks: Quirks
    var redoRead10: bool
    var read10Worked: bool
    var useLastSectorHacks: bool
    var lastSectorRetries: int
    const cdb6: bool

    ghost predicate Valid()
      reads this
    {
      iobuf.Length == IOBUF_SIZE && tag < W32
    }

    function State(): Dev
      reads this
    {
      Dev(tag, bcsSignature, quirks, Retry(redoRead10, read10Worked, useLastSectorHacks, lastSectorRetries), cdb6)
    }

    /** A configured device before its first command (usb_stor_probe2). */
    constructor (quirks: Quirks, hacks: bool, cdb6: bool)
      ensures Valid() && fresh(iobuf)
      ensures State() == Dev(0, 0, quirks, Retry(quirks.initialRead10, false, hacks, 0), cdb6)
    {
      iobuf := new byte[IOBUF_SIZE](_ => 0);
      tag, bcsSignature := 0, 0;
      this.quirks := quirks;
      redoRead10, read10Worked := quirks.initialRead10, false;
      useLastSectorHacks, lastSectorRetries := hacks, 0;
      this.cdb6 := cdb6;
    }

    method PutLe32(at: nat, v: nat)
      requires Valid() && at + 4 <= IOBUF_SIZE && v < W32
      modifies iobuf
      ensures Le32(iobuf[..], at) == v
      ensures forall i :: 0 <= i < IOBUF_SIZE && !(at <= i < at + 4) ==> iobuf[i] == old(iobuf[i])
    {
      var v1 := v / 0x100;
      var v2 := v1 / 0x100;
      var v3 := v2 / 0x100;
      iobuf[at] := v % 0x100;
      iobuf[at + 1] := v1 % 0x100;
      iobuf[at + 2] := v2 % 0x100;
      iobuf[at + 3] := v3;
    }

    /** The command bytes, padded with zeros to the sixteen of the wrapper. */
    method PutCdb(rq: Request)
      requires Valid() && RequestOk(rq)
      modifies iobuf
      ensures iobuf[15..31] == rq.cmnd[..rq.cmdLen] + Zeros(16 - rq.cmdLen)
      ensures forall i :: 0 <= i < IOBUF_SIZE && !(15 <= i < 31) ==> iobuf[i] == old(iobuf[i])
    {
      forall i | 15 <= i < 31 {
        iobuf[i] := 0;
      }
      forall i | 15 <= i < 15 + rq.cmdLen {
        iobuf[i] := rq.cmnd[i - 15];
      }
    }

    /** Everything in the wrapper but the command bytes */
    method PutHeader(rq: Request)
      requires Valid() && RequestOk(rq)
      modifies this`tag, iobuf
      ensures tag == (old(tag) + 1) % W32
      ensures Le32(iobuf[..], 0) == CBW_SIGN && Le32(iobuf[..], 4) == tag && Le32(iobuf[..], 8) == rq.bufflen
      ensures iobuf[12] == (if rq.dataIn then 0x80 else 0) && iobuf[14] == rq.cmdLen
      ensures iobuf[13] == LunByte(rq, quirks.multTarget)
      ensures forall i :: 15 <= i < IOBUF_SIZE ==> iobuf[i] == old(iobuf[i])
    {
      hide LunByte;
      PutLe32(0, CBW_SIGN);
      PutLe32(8, rq.bufflen);
      iobuf[12] := if rq.dataIn then 0x80 else 0;
      tag := (tag + 1) % W32;
      PutLe32(4, tag);
      iobuf[13] := LunByte(rq, quirks.multTarget);
      iobuf[14] := rq.cmdLen;
    }

    /** The command block as it goes out over the wire. */
    method BuildCbw(rq: Request)
      requires Valid() && RequestOk(rq)
      modifies this`tag, iobuf
      ensures Valid()
      ensures ParseCbw(iobuf[..]) == CbwFor(old(State()), rq)
      ensures quirks.bulk32 ==> iobuf[31] == 0
      ensures State() == old(State()).(tag := (old(tag) + 1) % W32)
    {
      hide LunByte;
      if quirks.bulk32 {
        iobuf[31] := 0;
      }
      PutHeader(rq);
      PutCdb(rq);
      assert Le32(iobuf[..], 0) == CBW_SIGN && Le32(iobuf[..], 4) == tag && Le32(iobuf[..], 8) == rq.bufflen;
      assert iobuf[..][15..31] == iobuf[15..31];
    }

    /** usb_stor_bulk_transfer_buf from the device into the I/O buffer */
    method ReadStatus(r: Reply) returns (code: XferCode, cswlen: nat)
      requires Valid() && WellFormed(CSW_LEN, r)
      modifies iobuf
      ensures code == Interpret(CSW_LEN, r) && cswlen == Actual(r)
      ensures code == XferGood ==> iobuf[..CSW_LEN] == r.data
    {
      match r {
        case Refused(stale) =>
          code, cswlen := XferError, stale;
        case Done(_, actual, data, _) =>
          forall i | 0 <= i < |data| {
            iobuf[i] := data[i];
          }
          code, cswlen := Interpret(CSW_LEN, r), actual;
      }
    }

    /** The CSW reads: once more after an empty packet, once more after a cleared stall. */
    method FetchStatus(io: BulkIo) returns (code: XferCode)
      requires Valid() && WellFormed(CSW_LEN, io.csw1) && WellFormed(CSW_LEN, io.csw2) && WellFormed(CSW_LEN, io.csw3)
      modifies iobuf
      ensures code == Interpret(CSW_LEN, StatusReply(io))
      ensures code == XferGood ==> iobuf[..CSW_LEN] == StatusReply(io).data
    {
      var cswlen;
      code, cswlen := ReadStatus(io.csw1);
      if code == XferShort && cswlen == 0 {
        code, cswlen := ReadStatus(io.csw2);
      }
      if code == XferStalled {
        code, cswlen := ReadStatus(io.csw3);
      }
    }

    /** What an acceptable status wrapper says about the residue */
    method ChargeResidue(rq: Request, csw: seq<byte>, resid0: int) returns (resid: int)
      requires Valid() && RequestOk(rq) && |csw| == CSW_LEN && bcsSignature == ParseCsw(csw).signature
      modifies this`quirks
      ensures (State(), resid) == Learn(old(State()), rq, resid0, ParseCsw(csw))
    {
      resid := resid0;
      var residue := Le32(csw, 8);
      ghost var c := ParseCsw(csw);
      assert c.residue == residue && c.status == csw[12];
      hide ParseCsw, Le32;
      if residue != 0 && !quirks.ignoreResidue {
        if csw[12] == STAT_OK && resid == 0
           && ((rq.cmnd[0] == INQUIRY && rq.bufflen == 36) || (rq.cmnd[0] == READ_CAPACITY && rq.bufflen == 8)) {
          quirks := quirks.(ignoreResidue := true);
        } else {
          residue := Min(residue, rq.bufflen);
          resid := Max(resid, ToInt32(residue));
        }
      }
    }

    /** The checks on the status wrapper in the I/O buffer and what the driver learns from it. */
    method JudgeStatus(rq: Request, resid0: int, babble: bool) returns (result: Transport, resid: int, accepted: bool)
      requires Valid() && RequestOk(rq)
      modifies this`bcsSignature, this`quirks
      ensures var c := ParseCsw(iobuf[..CSW_LEN]);
              if Acceptable(old(State()), c)
              then accepted && result == StatusResult(c.status, babble)
                   && (State(), resid) == Learn(old(State()), rq, resid0, c)
              else !accepted && State() == old(State()) && resid == resid0 && result == TransportError
    {
      hide Learn, Le32;
      resid := resid0;
      accepted := false;
      var csw := iobuf[..CSW_LEN];
      if !(Le32(csw, 4) == tag || quirks.ignoreTag) || csw[12] > STAT_PHASE {
        return TransportError, resid, false;
      }
      if bcsSignature == 0 {
        bcsSignature := Le32(csw, 0);
      } else if Le32(csw, 0) != bcsSignature {
        return TransportError, resid, false;
      }
      accepted := true;
      LearnSetsSignature(old(State()), bcsSignature, rq, resid0, ParseCsw(csw));
      resid := ChargeResidue(rq, csw, resid0);
      if csw[12] == STAT_OK {
        result := if babble then TransportNoSense else TransportGood;
      } else if csw[12] == STAT_FAIL {
        result := TransportFailed;
      } else {
        result := TransportError;
      }
    }

    /** Command and data stages. go tells whether the status is to be read. */
    method SendAndMove(rq: Request, resid0: int, io: BulkIo) returns (go: bool, resid: int, babble: bool)
      requires Valid() && RequestOk(rq) && IoOk(io, CbwLen(State()), rq.bufflen)
      modifies this`tag, iobuf
      ensures Valid() && State() == old(State()).(tag := (old(tag) + 1) % W32)
      ensures ParseCbw(iobuf[..]) == CbwFor(old(State()), rq)
      ensures go == ReachesStatus(rq, io, CbwLen(old(State())))
      ensures resid == if Interpret(CbwLen(old(State())), io.cbw) == XferGood then DataResid(rq, resid0, io) else resid0
      ensures go ==> babble == (rq.bufflen > 0 && Interpret(rq.bufflen, io.data) == XferLong)
    {
      resid, babble := resid0, false;
      BuildCbw(rq);
      if Interpret(if quirks.bulk32 then 32 else CBW_LEN, io.cbw) != XferGood {
        return false, resid, false;
      }
      if rq.bufflen > 0 {
        var code := Interpret(rq.bufflen, io.data);
        resid := ToInt32(rq.bufflen - Actual(io.data));
        if code == XferError {
          return false, resid, false;
        }
        if code == XferLong {
          babble := true;
        }
      }
      go := true;
    }

    /** usb_stor_Bulk_transport */
    method BulkTransfer(rq: Request, resid0: int, io: BulkIo)
        returns (result: Transport, resid: int, babble: bool, ghost log: Exchange)
      requires Valid() && RequestOk(rq) && IoOk(io, CbwLen(State()), rq.bufflen)
      modifies this`tag, this`bcsSignature, this`quirks, iobuf
      ensures Valid()
      ensures BulkOut(State(), resid, result == TransportNoSense, log) == Bulk(old(State()), rq, resid0, io)
      ensures result == log.result && CbwLen(State()) == CbwLen(old(State()))
    {
      ghost var d := State();
      BulkKeepsLength(d, rq, resid0, io);
      hide Le32, ParseCsw, Learn, Acceptable, StatusResult, Interpret, StatusReply, DataResid, ReachesStatus, LunByte;
      var go;
      go, resid, babble := SendAndMove(rq, resid0, io);
      log := Unanswered(d, rq, resid);
      assert log.sent == ParseCbw(iobuf[..]);
      result := TransportError;
      if go {
        var code := FetchStatus(io);
        if code == XferGood {
          ghost var csw := iobuf[..CSW_LEN];
          var accepted;
          result, resid, accepted := JudgeStatus(rq, resid, babble);
          log := log.(csw := Some(csw), accepted := accepted, result := result, resid := resid);
        }
      }
    }

    /** last_sector_hacks */
    method LastSectorHacks(srb: ScsiCmnd)
      requires Valid() && srb.Valid()
      modifies this`useLastSectorHacks, this`lastSectorRetries, srb
      ensures Valid() && srb.Valid()
      ensures (State(), srb.Status()) == LastSector(old(State()), srb.rq, old(srb.Status()))
    {
      if !useLastSectorHacks {
        return;
      }
      if ReadsLastSector(srb.rq) {
        if srb.result == Good && srb.resid == 0 {
          useLastSectorHacks := false;
        } else {
          lastSectorRetries := lastSectorRetries + 1;
          if lastSectorRetries < 3 {
            return;
          }
          srb.result := CheckCondition;
          srb.sense := Overlay(srb.sense, RECORD_NOT_FOUND);
        }
      }
      if srb.rq.cmnd[0] != TEST_UNIT_READY {
        lastSectorRetries := 0;
      }
    }

    /** The sense data of a failed command, once it was read. */
    method DecodeSense(t: SenseTry) returns (end: SenseEnd)
      requires Valid() && |t.buffer| == SENSE_BUFFER
      modifies this`quirks
      ensures Valid() && |end.sense| == SENSE_BUFFER
      ensures (State(), end) == ReadSense(old(State()), t)
    {
      var buffer := t.buffer;
      if LongSense(State(), buffer) {
        quirks := quirks.(sane := true);
        buffer := buffer[7 := SENSE_SIZE - 8];
      }
      if t.empty {
        end := SenseRead(DidError, buffer[(if t.descriptor then 1 else 2) := HARDWARE_ERROR]);
      } else {
        end := SenseRead(CheckCondition, buffer);
      }
    }

    /** Auto-sense: a large request if the device is known to take it, retried small if it fails. */
    method RequestSense(srb: ScsiCmnd, e: Env) returns (end: SenseEnd, ghost log: seq<Exchange>, ghost downgrades: nat)
      requires Valid() && RequestOk(srb.rq) && EnvOk(e, State(), srb.rq)
      modifies this`tag, this`bcsSignature, this`quirks, iobuf
      ensures Valid() && |end.sense| == SENSE_BUFFER
      ensures SenseOut(State(), end, log, downgrades) == AutoSense(old(State()), srb.rq, e, old(quirks.sane))
    {
      hide Bulk, ReadSense, AutoSense;
      var large := quirks.sane;
      log, downgrades := [], 0;
      ghost var d0, large0 := State(), large;
      ghost var whole := AutoSense(d0, srb.rq, e, large0);
      while true
        invariant Valid() && EnvOk(e, State(), srb.rq)
        invariant var rest := AutoSense(State(), srb.rq, e, large);
                  && whole.dev == rest.dev && whole.end == rest.end
                  && whole.log == log + rest.log && whole.downgrades == downgrades + rest.downgrades
        decreases large
      {
        ghost var before := State();
        var t := if large then e.large else e.small;
        var result, _, _, exchange :=
          BulkTransfer(SenseRequest(State(), srb.rq, if large then SENSE_BUFFER else SENSE_SIZE), 0, t.io);
        SenseStep(before, srb.rq, e, large);
        log := log + [exchange];
        if t.timedOut {
          if large {
            quirks := quirks.(sane := false, bad := true);
            downgrades := downgrades + 1;
          }
          end := SenseAborted(t.buffer);
          return;
        }
        if result == TransportFailed && large {
          large := false;
          quirks := quirks.(sane := false, bad := true);
          downgrades := downgrades + 1;
          continue;
        }
        if result != TransportGood {
          end := SenseBroken(t.buffer);
          return;
        }
        end := DecodeSense(t);
        return;
      }
    }

    /** A READ(10) that fails after one that worked is retried once at once. */
    method TrackRead10(srb: ScsiCmnd)
      requires Valid() && srb.Valid()
      modifies this`redoRead10, this`read10Worked, srb
      ensures Valid() && srb.Valid()
      ensures (State(), srb.Status()) == Read10(old(State()), srb.rq, old(srb.Status()))
    {
      if quirks.initialRead10 && srb.rq.cmnd[0] == READ_10 {
        if srb.result == Good {
          read10Worked := true;
        } else if read10Worked {
          read10Worked := false;
          redoRead10 := true;
        }
        if redoRead10 {
          redoRead10 := false;
          srb.result := DidImmRetry;
          srb.sense := srb.sense[0 := 0];
        }
      }
    }

    /** The READ(10), underflow and last-sector checks at the end of a command. */
    method CloseCommand(srb: ScsiCmnd)
      requires Valid() && srb.Valid()
      modifies this`redoRead10, this`read10Worked, this`useLastSectorHacks, this`lastSectorRetries, srb
      ensures Valid() && srb.Valid()
      ensures var o := Closing(old(State()), srb.rq, old(srb.Status()), [], 0);
              (State(), srb.Status()) == LastSector(o.dev, srb.rq, o.report)
    {
      TrackRead10(srb);
      if (srb.result == Good || srb.sense[2] == 0) && srb.rq.bufflen - srb.resid < srb.rq.underflow {
        srb.result := DidError;
      }
      LastSectorHacks(srb);
    }

    /** usb_stor_invoke_transport */
    method InvokeTransport(srb: ScsiCmnd, e: Env) returns (ghost log: seq<Exchange>)
      requires Valid() && srb.Valid() && EnvOk(e, State(), srb.rq)
      modifies this, iobuf, srb
      ensures Valid() && srb.Valid()
      ensures var o := Invoke(old(State()), srb.rq, old(srb.sense), e);
              State() == o.dev && srb.Status() == o.report && log == o.log
    {
      hide Bulk, AutoSense, LastSector, Read10, Underflow;
      var result, resid, _, exchange := BulkTransfer(srb.rq, 0, e.main);
      log := [exchange];
      srb.resid := resid;
      if result == TransportNoSense {
        srb.sense := Overlay(srb.sense, INVALID_CDB);
      }
      if e.timedOut {
        srb.result := DidAbort;
        LastSectorHacks(srb);
        return;
      }
      if result == TransportError {
        srb.result := DidError;
        LastSectorHacks(srb);
        return;
      }
      if result == TransportNoSense {
        srb.result := CheckCondition;
        LastSectorHacks(srb);
        return;
      }
      srb.result := Good;
      if (srb.rq.cmnd[0] == ATA_16 || srb.rq.cmnd[0] == ATA_12) && result == TransportGood
         && !quirks.sane && !quirks.bad && (srb.rq.cmnd[2] / 0x20) % 2 == 0 {
        quirks := quirks.(sane := true);
      }
      if result == TransportFailed {
        var end, senseLog, _ := RequestSense(srb, e);
        log := log + senseLog;
        srb.sense := end.sense;
        match end {
          case SenseAborted(_) =>
            srb.result := DidAbort;
            LastSectorHacks(srb);
            return;
          case SenseBroken(_) =>
            srb.result := DidError;
            if !quirks.multTarget {
              LastSectorHacks(srb);
            }
            return;
          case SenseRead(res, _) =>
            srb.result := res;
        }
      }
      CloseCommand(srb);
    }
  }

  class ScsiCmnd {
    const rq: Request
    var result: SrbResult
    var resid: int
    var sense: seq<byte>

    ghost predicate Valid()
      reads this
    {
      RequestOk(rq) && |sense| == SENSE_BUFFER
    }

    function Status(): Report
      reads this
    {
      Report(result, resid, sense)
    }

    constructor (rq: Request)
      requires RequestOk(rq)
      ensures Valid() && this.rq == rq && sense == Zeros(SENSE_BUFFER)
    {
      this.rq := rq;
      result, resid, sense := Good, 0, Zeros(SENSE_BUFFER);
    }
  }
}
