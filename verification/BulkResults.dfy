/**
 What a command over the Bulk-Only transport is reported as, in terms of what happened to it: whether it
 was timed out, how its own exchange and the last sense exchange went, what the sense data looked like.
*/
module BulkResults {
  import opened Common
  import opened BulkSpec
  import opened BulkRuns

  /** Fixed-format sense data: ILLEGAL REQUEST, invalid field in CDB; MEDIUM ERROR, record not found */
  const ILLEGAL_FIELD: seq<byte> := [0x70, 0, 5, 0, 0, 0, 0, 10, 0, 0, 0, 0, 0x24, 0, 0, 0, 0, 0]
  const BEYOND_THE_END: seq<byte> := [0x70, 0, 3, 0, 0, 0, 0, 10, 0, 0, 0, 0, 0x14, 0, 0, 0, 0, 0]

  // ---------------------------------------------------------------------------------------------
  // The exchanges of a command
  // ---------------------------------------------------------------------------------------------

  /** The sense request that went last; the small one asks for 18 bytes. */
  ghost function LastTry(log: seq<Exchange>, e: Env): SenseTry
    requires |log| > 1
  {
    if log[|log| - 1].bufflen == SENSE_BUFFER then e.large else e.small
  }

  ghost predicate Aborted(log: seq<Exchange>, e: Env) {
    e.timedOut || (|log| > 1 && LastTry(log, e).timedOut)
  }

  ghost predicate SenseFailed(log: seq<Exchange>, e: Env) {
    !Aborted(log, e) && |log| > 1 && log[|log| - 1].result != TransportGood
  }

  /** REQUEST SENSE for this many bytes, in six bytes or in twelve */
  ghost predicate AsksForSense(x: Exchange, size: nat, six: bool) {
    && x.bufflen == size == x.sent.length && x.sent.flags == 0x80 && |x.sent.cdb| == 16
    && x.sent.cdb[..5] == [0x03, 0, 0, 0, size] && x.sent.cdbLength == if six then 6 else 12
  }

  lemma SenseExchange(d: Dev, rq: Request, size: nat, io: BulkIo)
    requires RequestOk(rq) && size <= SENSE_BUFFER && IoOk(io, CbwLen(d), size)
    ensures AsksForSense(Bulk(d, SenseRequest(d, rq, size), 0, io).exchange, size, d.cdb6)
  {
    var rq1 := SenseRequest(d, rq, size);
    ExchangeIsDisciplined(d, rq1, io);
    assert rq1.cmnd[..rq1.cmdLen][..5] == [0x03, 0, 0, 0, size];
  }

  /** Sense data that was read is passed on, but for a length cut to 18 bytes and, when it says nothing at
      all, the sense key, which becomes a hardware error. */
  ghost predicate ReadAs(t: SenseTry, end: SenseEnd)
    requires |t.buffer| == SENSE_BUFFER
  {
    var key := if t.descriptor then 1 else 2;
    && end.SenseRead? && end.result == (if t.empty then DidError else CheckCondition)
    && |end.sense| == SENSE_BUFFER && (t.empty ==> end.sense[key] == 0x04)
    && (end.sense[7] == t.buffer[7] || (t.buffer[7] > 10 && end.sense[7] == 10))
    && forall i :: 0 <= i < SENSE_BUFFER && i != 7 && !(t.empty && i == key) ==> end.sense[i] == t.buffer[i]
  }

  lemma SenseIsReadAs(d: Dev, t: SenseTry)
    requires |t.buffer| == SENSE_BUFFER
    ensures ReadAs(t, ReadSense(d, t).1)
  {
    hide LongSense;
    LongIsLong(d, t.buffer);
  }

  lemma LongIsLong(d: Dev, buffer: seq<byte>)
    requires |buffer| == SENSE_BUFFER
    ensures LongSense(d, buffer) ==> buffer[7] > 10
  {
  }

  /** How one sense request ended */
  ghost predicate TryWent(t: SenseTry, x: Exchange, end: SenseEnd)
    requires |t.buffer| == SENSE_BUFFER
  {
    if t.timedOut then end == SenseAborted(t.buffer)
    else if x.result != TransportGood then end == SenseBroken(t.buffer)
    else ReadAs(t, end)
  }

  lemma SmallSense(d: Dev, rq: Request, e: Env)
    requires RequestOk(rq) && EnvOk(e, d, rq)
    ensures var s := AutoSense(d, rq, e, false);
      |s.log| == 1 && AsksForSense(s.log[0], SENSE_SIZE, d.cdb6) && TryWent(e.small, s.log[0], s.end)
  {
    SenseExchange(d, rq, SENSE_SIZE, e.small.io);
    SenseIsReadAs(Bulk(d, SenseRequest(d, rq, SENSE_SIZE), 0, e.small.io).dev, e.small);
    hide Bulk, ReadSense, AsksForSense, ReadAs;
  }

  /** How auto-sense went: one request of the size the device is known to take, and after a failed large
      one a small one. */
  ghost predicate SenseWent(s: SenseOut, large: bool, e: Env, six: bool)
    requires |e.large.buffer| == SENSE_BUFFER && |e.small.buffer| == SENSE_BUFFER
  {
    && 1 <= |s.log| <= 2
    && AsksForSense(s.log[0], if large then SENSE_BUFFER else SENSE_SIZE, six)
    && (|s.log| == 2 <==> large && !e.large.timedOut && s.log[0].result == TransportFailed)
    && (|s.log| == 2 ==> AsksForSense(s.log[1], SENSE_SIZE, six))
    && TryWent(if large && |s.log| == 1 then e.large else e.small, s.log[|s.log| - 1], s.end)
  }

  lemma BulkReports(d: Dev, rq: Request, io: BulkIo)
    requires RequestOk(rq) && IoOk(io, CbwLen(d), rq.bufflen)
    ensures var m := Bulk(d, rq, 0, io);
      m.resid == m.exchange.resid && (m.fakeSense <==> m.exchange.result == TransportNoSense) && m.dev.cdb6 == d.cdb6
  {
    hide ParseCsw, BogusResidue, Interpret, StatusReply, ReachesStatus, DataResid, CbwFor;
  }

  lemma AutoSenseWent(d: Dev, rq: Request, e: Env)
    requires RequestOk(rq) && EnvOk(e, d, rq)
    ensures SenseWent(AutoSense(d, rq, e, d.quirks.sane), d.quirks.sane, e, d.cdb6)
  {
    if d.quirks.sane {
      var rq1 := SenseRequest(d, rq, SENSE_BUFFER);
      SenseExchange(d, rq, SENSE_BUFFER, e.large.io);
      BulkChangesOnly(d, rq1, e.large.io);
      BulkReports(d, rq1, e.large.io);
      var m := Bulk(d, rq1, 0, e.large.io);
      SenseIsReadAs(m.dev, e.large);
      hide Bulk, ReadSense, AsksForSense, ReadAs;
      if !e.large.timedOut && m.exchange.result == TransportFailed {
        SmallSense(Downgrade(m.dev), rq, e);
      }
    } else {
      hide Bulk, ReadSense, AsksForSense, ReadAs;
      SmallSense(d, rq, e);
    }
  }

  /** The exchanges of a command: its own, then auto-sense if and only if it failed without being timed
      out. */
  ghost predicate LogShape(d: Dev, j: Job, log: seq<Exchange>)
    requires JobOk(d, j)
  {
    && 1 <= |log| <= 3
    && log[0] == Bulk(d, j.rq, 0, j.e.main).exchange
    && (|log| > 1 <==> !j.e.timedOut && log[0].result == TransportFailed)
    && (|log| > 1 ==> AsksForSense(log[1], if d.quirks.sane then SENSE_BUFFER else SENSE_SIZE, d.cdb6))
    && (|log| == 3 <==>
        |log| > 1 && d.quirks.sane && !j.e.large.timedOut && log[1].result == TransportFailed)
    && (|log| == 3 ==> AsksForSense(log[2], SENSE_SIZE, d.cdb6))
  }

  /** The value the command had before last_sector_hacks, from its sense or its own exchange. */
  lemma BeforeIs(d: Dev, j: Job)
    requires JobOk(d, j)
    ensures var m := Bulk(d, j.rq, 0, j.e.main);
      var r := Report(Good, m.resid, if m.fakeSense then Overlay(j.sense, INVALID_CDB) else j.sense);
      && m.resid == m.exchange.resid && (m.fakeSense <==> m.exchange.result == TransportNoSense)
      && m.dev.retry == d.retry && m.dev.quirks == d.quirks.(ignoreResidue := m.dev.quirks.ignoreResidue)
      && m.dev.cdb6 == d.cdb6 && EnvOk(j.e, m.dev, j.rq)
      && Before(d, j) == AfterTransport(m.dev, j.rq, r, m.exchange, j.e)
  {
    BulkReports(d, j.rq, j.e.main);
    BulkChangesOnly(d, j.rq, j.e.main);
    hide Bulk, AfterTransport, BulkRuns.Signature, Accepted;
  }

  lemma LogIs(d: Dev, j: Job)
    requires JobOk(d, j)
    ensures LogShape(d, j, Out(d, j).log) && Out(d, j).log == Before(d, j).log
  {
    hide Bulk, AutoSense, Closing, Core, AsksForSense;
    BeforeIs(d, j);
    var m := Bulk(d, j.rq, 0, j.e.main);
    if !j.e.timedOut && m.exchange.result == TransportFailed {
      AutoSenseWent(m.dev, j.rq, j.e);
      ClosingKeepsLog(m.dev, j);
    }
    ClosingKeepsLog(m.dev, j);
  }

  lemma ClosingKeepsLog(d: Dev, j: Job)
    requires RequestOk(j.rq)
    ensures forall d1: Dev, r: Report, log: seq<Exchange>, n: nat :: |r.sense| == SENSE_BUFFER ==>
      Closing(d1, j.rq, r, log, n).log == log
  {
  }

  // ---------------------------------------------------------------------------------------------
  // The result
  // ---------------------------------------------------------------------------------------------

  /** A READ(10) to be retried at once: REDO_READ10 is set, or it failed after one that worked. */
  ghost predicate Redone(d: Dev, rq: Request, good: bool)
    requires RequestOk(rq)
  {
    d.quirks.initialRead10 && rq.cmnd[0] == 0x28 && (d.retry.redo || (d.retry.worked && !good))
  }

  /** READ(10)s of a device with INITIAL_READ10: one that comes to its end clears REDO_READ10, and leaves
      READ10_WORKED set exactly when it was good. */
  ghost function ReadTracked(d: Dev, rq: Request, good: bool): Retry
    requires RequestOk(rq)
  {
    if d.quirks.initialRead10 && rq.cmnd[0] == 0x28 then d.retry.(redo := false, worked := good) else d.retry
  }

  lemma ClosingReports(d: Dev, rq: Request, r: Report, log: seq<Exchange>, n: nat)
    requires RequestOk(rq) && |r.sense| == SENSE_BUFFER && r.result in {Good, CheckCondition, DidError}
    ensures var o := Closing(d, rq, r, log, n);
      var redo := Redone(d, rq, r.result == Good);
      && o.hacks && o.log == log && o.dev.retry == ReadTracked(d, rq, r.result == Good)
      && o.report.resid == r.resid && o.report.sense == (if redo then r.sense[0 := 0] else r.sense)
      && o.report.result
         == if ((r.result == Good && !redo) || r.sense[2] == 0) && rq.bufflen - r.resid < rq.underflow then DidError
            else if redo then DidImmRetry else r.result
  {
  }

  /** The way of a command: its transport was good, or it failed and its sense data was read. */
  ghost predicate WentWell(log: seq<Exchange>, e: Env)
    requires |log| > 0
  {
    !Aborted(log, e) && log[0].result == TransportGood
  }

  ghost predicate SenseCame(log: seq<Exchange>, e: Env) {
    !Aborted(log, e) && |log| > 1 && log[|log| - 1].result == TransportGood
  }

  ghost predicate Retried(d: Dev, rq: Request, log: seq<Exchange>, e: Env)
    requires RequestOk(rq) && |log| > 0
  {
    (WentWell(log, e) || SenseCame(log, e)) && Redone(d, rq, WentWell(log, e))
  }

  /** Fewer bytes came than the caller accepts, and nothing explains it. */
  ghost predicate FellShort(d: Dev, rq: Request, log: seq<Exchange>, e: Env, r: Report)
    requires RequestOk(rq) && |log| > 0 && |r.sense| == SENSE_BUFFER
  {
    && (WentWell(log, e) || SenseCame(log, e)) && rq.bufflen - r.resid < rq.underflow
    && ((WentWell(log, e) && !Retried(d, rq, log, e)) || r.sense[2] == 0)
  }

  /** The result before last_sector_hacks */
  ghost predicate ResultIs(d: Dev, j: Job, log: seq<Exchange>, r: Report)
    requires JobOk(d, j) && |log| > 0 && |r.sense| == SENSE_BUFFER
  {
    var e := j.e;
    var redo, short := Retried(d, j.rq, log, e), FellShort(d, j.rq, log, e, r);
    && (r.result == DidAbort <==> Aborted(log, e))
    && (r.result == Good <==> WentWell(log, e) && !redo && !short)
    && (r.result == DidImmRetry <==> redo && !short)
    && (r.result == CheckCondition <==>
        || (!Aborted(log, e) && log[0].result == TransportNoSense)
        || (SenseCame(log, e) && !LastTry(log, e).empty && !redo && !short))
    && (r.result == DidError <==>
        || (!Aborted(log, e) && log[0].result == TransportError) || SenseFailed(log, e) || short
        || (SenseCame(log, e) && LastTry(log, e).empty && !redo))
  }

  /** Residue and sense data before last_sector_hacks */
  ghost predicate SenseIs(d: Dev, j: Job, log: seq<Exchange>, r: Report)
    requires JobOk(d, j) && |log| > 0 && |r.sense| == SENSE_BUFFER
  {
    var redo := Retried(d, j.rq, log, j.e);
    && r.resid == log[0].resid
    && if |log| == 1 then
         r.sense == (if log[0].result == TransportNoSense then ILLEGAL_FIELD + j.sense[SENSE_SIZE..]
                     else if redo then j.sense[0 := 0] else j.sense)
       else if !SenseCame(log, j.e) then r.sense == LastTry(log, j.e).buffer
       else
         var t := LastTry(log, j.e);
         && (redo ==> r.sense[0] == 0)
         && ReadAs(t, SenseRead(if t.empty then DidError else CheckCondition,
                                if redo then r.sense[0 := t.buffer[0]] else r.sense))
  }

  /** last_sector_hacks is skipped only when the sense request to a multi-target device fails; it sees the
      retry state with the READ(10) flags up to date. */
  ghost predicate HacksFollow(d: Dev, j: Job, o: Outcome)
    requires RequestOk(j.rq) && |o.log| > 0
  {
    && (o.hacks <==> !(SenseFailed(o.log, j.e) && d.quirks.multTarget))
    && o.dev.retry == if WentWell(o.log, j.e) || SenseCame(o.log, j.e) then ReadTracked(d, j.rq, WentWell(o.log, j.e))
                      else d.retry
  }

  /** What the end of auto-sense says about the log */
  lemma SenseEndsAs(s: SenseOut, large: bool, e: Env, six: bool, x: Exchange)
    requires |e.large.buffer| == SENSE_BUFFER && |e.small.buffer| == SENSE_BUFFER
    requires SenseWent(s, large, e, six) && x.result == TransportFailed && !e.timedOut
    ensures var log, t := [x] + s.log, LastTry([x] + s.log, e);
      && |t.buffer| == SENSE_BUFFER
      && (Aborted(log, e) <==> s.end == SenseAborted(t.buffer))
      && (SenseFailed(log, e) <==> s.end == SenseBroken(t.buffer))
      && (SenseCame(log, e) <==> s.end.SenseRead?)
      && (s.end.SenseRead? ==> ReadAs(t, s.end))
      && (Aborted(log, e) || SenseFailed(log, e) || SenseCame(log, e)) && !WentWell(log, e)
  {
    hide ReadAs;
    var t := if large && |s.log| == 1 then e.large else e.small;
    assert LastTry([x] + s.log, e) == t;
    ReadIsRead(t, s.end);
  }

  lemma ReadIsRead(t: SenseTry, end: SenseEnd)
    requires |t.buffer| == SENSE_BUFFER
    ensures ReadAs(t, end) ==> end.SenseRead? && |end.sense| == SENSE_BUFFER
    ensures ReadAs(t, end) ==> end.result == if t.empty then DidError else CheckCondition
    ensures ReadAs(t, end) ==> end.sense[0] == t.buffer[0]
  {
  }

  lemma FailedReports(d: Dev, j: Job, large: bool, s: SenseOut, r: Report, x: Exchange)
    requires JobOk(d, j) && |r.sense| == SENSE_BUFFER && |s.end.sense| == SENSE_BUFFER
    requires x.result == TransportFailed && !j.e.timedOut && r.resid == x.resid
    requires SenseWent(s, large, j.e, d.cdb6) && s.dev.retry == d.retry
    requires s.dev.quirks.initialRead10 == d.quirks.initialRead10 && s.dev.quirks.multTarget == d.quirks.multTarget
    ensures var o := AfterSense(s, j.rq, r, [x]);
      o.log == [x] + s.log && ResultIs(d, j, o.log, o.report) && SenseIs(d, j, o.log, o.report) && HacksFollow(d, j, o)
  {
    SenseEndsAs(s, large, j.e, d.cdb6, x);
    hide SenseWent, Closing, ResultIs, SenseIs, HacksFollow;
    if s.end.SenseRead? {
      ReadReports(d, j, s, r, x);
    } else {
      BrokenReports(d, j, s, r, x);
    }
  }

  lemma ReadReports(d: Dev, j: Job, s: SenseOut, r: Report, x: Exchange)
    requires JobOk(d, j) && |r.sense| == SENSE_BUFFER && r.resid == x.resid && |s.log| > 0
    requires SenseCame([x] + s.log, j.e) && !WentWell([x] + s.log, j.e) && !SenseFailed([x] + s.log, j.e)
    requires x.result == TransportFailed
    requires |LastTry([x] + s.log, j.e).buffer| == SENSE_BUFFER && ReadAs(LastTry([x] + s.log, j.e), s.end)
    requires s.dev.retry == d.retry && s.dev.quirks.initialRead10 == d.quirks.initialRead10
    ensures |s.end.sense| == SENSE_BUFFER
    ensures var o := AfterSense(s, j.rq, r, [x]);
      o.log == [x] + s.log && ResultIs(d, j, o.log, o.report) && SenseIs(d, j, o.log, o.report) && HacksFollow(d, j, o)
  {
    assert !Aborted([x] + s.log, j.e);
    hide LastTry, Aborted, SenseFailed, SenseCame, WentWell, ReadAs, Closing;
    var sense := s.end.sense;
    ReadIsRead(LastTry([x] + s.log, j.e), s.end);
    ClosingReports(s.dev, j.rq, r.(sense := sense, result := s.end.result), [x] + s.log, s.downgrades);
    assert sense[0 := 0][0 := sense[0]] == sense;
  }

  lemma BrokenReports(d: Dev, j: Job, s: SenseOut, r: Report, x: Exchange)
    requires JobOk(d, j) && |r.sense| == SENSE_BUFFER && r.resid == x.resid && |s.log| > 0
    requires |s.end.sense| == SENSE_BUFFER && !s.end.SenseRead? && x.result == TransportFailed
    requires !SenseCame([x] + s.log, j.e) && !WentWell([x] + s.log, j.e)
    requires if s.end.SenseAborted? then Aborted([x] + s.log, j.e) else SenseFailed([x] + s.log, j.e)
    requires s.end.sense == LastTry([x] + s.log, j.e).buffer
    requires s.dev.retry == d.retry && s.dev.quirks.multTarget == d.quirks.multTarget
    ensures var o := AfterSense(s, j.rq, r, [x]);
      o.log == [x] + s.log && ResultIs(d, j, o.log, o.report) && SenseIs(d, j, o.log, o.report) && HacksFollow(d, j, o)
  {
    assert SenseFailed([x] + s.log, j.e) ==> !Aborted([x] + s.log, j.e);
    hide LastTry, Aborted, SenseFailed, SenseCame, WentWell, ReadAs, Closing;
  }

  /** Timed out, in error, or with sense data of its own */
  lemma ShortReports(d: Dev, j: Job, d1: Dev, r: Report, x: Exchange)
    requires JobOk(d, j) && |r.sense| == SENSE_BUFFER && r.resid == x.resid && EnvOk(j.e, d1, j.rq)
    requires r.sense == if x.result == TransportNoSense then ILLEGAL_FIELD + j.sense[SENSE_SIZE..] else j.sense
    requires d1.retry == d.retry && d1.quirks == d.quirks.(ignoreResidue := d1.quirks.ignoreResidue)
    requires j.e.timedOut || x.result in {TransportError, TransportNoSense}
    ensures var o := AfterTransport(d1, j.rq, r, x, j.e);
      o.log == [x] && ResultIs(d, j, o.log, o.report) && SenseIs(d, j, o.log, o.report) && HacksFollow(d, j, o)
  {
    hide AutoSense, AfterSense, Closing, ReadAs, Redone;
  }

  lemma GoodReports(d: Dev, j: Job, d1: Dev, r: Report, x: Exchange)
    requires JobOk(d, j) && |r.sense| == SENSE_BUFFER && r.resid == x.resid && EnvOk(j.e, d1, j.rq)
    requires r.sense == if x.result == TransportNoSense then ILLEGAL_FIELD + j.sense[SENSE_SIZE..] else j.sense
    requires d1.retry == d.retry && d1.quirks == d.quirks.(ignoreResidue := d1.quirks.ignoreResidue)
    requires !j.e.timedOut && x.result == TransportGood
    ensures var o := AfterTransport(d1, j.rq, r, x, j.e);
      o.log == [x] && ResultIs(d, j, o.log, o.report) && SenseIs(d, j, o.log, o.report) && HacksFollow(d, j, o)
  {
    ClosingReports(SatCheck(d1, j.rq), j.rq, r.(result := Good), [x], 0);
    hide AutoSense, AfterSense, Closing, ReadAs;
  }

  lemma UnsensedReports(d: Dev, j: Job, d1: Dev, r: Report, x: Exchange)
    requires JobOk(d, j) && |r.sense| == SENSE_BUFFER && r.resid == x.resid && EnvOk(j.e, d1, j.rq)
    requires r.sense == if x.result == TransportNoSense then ILLEGAL_FIELD + j.sense[SENSE_SIZE..] else j.sense
    requires d1.retry == d.retry && d1.quirks == d.quirks.(ignoreResidue := d1.quirks.ignoreResidue)
    requires j.e.timedOut || x.result != TransportFailed
    ensures var o := AfterTransport(d1, j.rq, r, x, j.e);
      o.log == [x] && ResultIs(d, j, o.log, o.report) && SenseIs(d, j, o.log, o.report) && HacksFollow(d, j, o)
  {
    hide AfterTransport, ResultIs, SenseIs, HacksFollow;
    if !j.e.timedOut && x.result == TransportGood {
      GoodReports(d, j, d1, r, x);
    } else {
      ShortReports(d, j, d1, r, x);
    }
  }

  lemma BeforeReports(d: Dev, j: Job)
    requires JobOk(d, j)
    ensures var b := Before(d, j);
      LogShape(d, j, b.log) && ResultIs(d, j, b.log, b.report) && SenseIs(d, j, b.log, b.report) && HacksFollow(d, j, b)
  {
    BeforeIs(d, j);
    LogIs(d, j);
    hide Core, ResultIs, SenseIs, HacksFollow, LogShape, AutoSense, Closing, AfterSense;
    var m := Bulk(d, j.rq, 0, j.e.main);
    hide Bulk;
    var r := Report(Good, m.resid, if m.fakeSense then Overlay(j.sense, INVALID_CDB) else j.sense);
    if !j.e.timedOut && m.exchange.result == TransportFailed {
      var s := AutoSense(m.dev, j.rq, j.e, m.dev.quirks.sane);
      AutoSenseWent(m.dev, j.rq, j.e);
      SenseKeeps(m.dev, j.rq, j.e);
      FailedReports(d, j, m.dev.quirks.sane, s, r, m.exchange);
    } else {
      UnsensedReports(d, j, m.dev, r, m.exchange);
    }
  }

  lemma SmallSenseKeeps(d: Dev, rq: Request, e: Env)
    requires RequestOk(rq) && EnvOk(e, d, rq)
    ensures var d1 := AutoSense(d, rq, e, false).dev;
      d1.retry == d.retry && d1.quirks.initialRead10 == d.quirks.initialRead10
      && d1.quirks.multTarget == d.quirks.multTarget
  {
    BulkChangesOnly(d, SenseRequest(d, rq, SENSE_SIZE), e.small.io);
    ReadSenseFacts(Bulk(d, SenseRequest(d, rq, SENSE_SIZE), 0, e.small.io).dev, e.small);
    hide Bulk, ReadSense;
  }

  lemma SenseKeeps(d: Dev, rq: Request, e: Env)
    requires RequestOk(rq) && EnvOk(e, d, rq)
    ensures var d1 := AutoSense(d, rq, e, d.quirks.sane).dev;
      d1.retry == d.retry && d1.quirks.initialRead10 == d.quirks.initialRead10
      && d1.quirks.multTarget == d.quirks.multTarget
  {
    if d.quirks.sane {
      BulkChangesOnly(d, SenseRequest(d, rq, SENSE_BUFFER), e.large.io);
      var m := Bulk(d, SenseRequest(d, rq, SENSE_BUFFER), 0, e.large.io);
      ReadSenseFacts(m.dev, e.large);
      hide Bulk, ReadSense;
      if !e.large.timedOut && m.exchange.result == TransportFailed {
        SmallSenseKeeps(Downgrade(m.dev), rq, e);
      }
    } else {
      hide Bulk, ReadSense;
      SmallSenseKeeps(d, rq, e);
    }
  }

  // ---------------------------------------------------------------------------------------------
  // The report the SCSI core sees
  // ---------------------------------------------------------------------------------------------

  /** A good command that left nothing out */
  ghost predicate InFull(d: Dev, j: Job, log: seq<Exchange>)
    requires JobOk(d, j) && |log| > 0
  {
    WentWell(log, j.e) && !Redone(d, j.rq, true) && log[0].resid == 0 && j.rq.bufflen >= j.rq.underflow
  }

  /** The third counted failure to access the last sector. The command did not just succeed in full, and
      last_sector_hacks was not skipped. */
  ghost predicate NotFound(d: Dev, j: Job, log: seq<Exchange>)
    requires JobOk(d, j) && |log| > 0
  {
    && d.retry.hacks && d.retry.lastSector >= 2 && ReadsLastSector(j.rq)
    && !(SenseFailed(log, j.e) && d.quirks.multTarget)
    && !InFull(d, j, log)
  }

  /** Every command: its exchanges, and its result, residue and sense data in terms of them. */
  lemma ReportExactly(d: Dev, j: Job)
    requires JobOk(d, j)
    ensures var o := Out(d, j);
      && |o.report.sense| == SENSE_BUFFER && LogShape(d, j, o.log)
      && (if NotFound(d, j, o.log) then
            && o.report.result == CheckCondition && o.report.resid == o.log[0].resid
            && o.report.sense[..SENSE_SIZE] == BEYOND_THE_END
          else
            ResultIs(d, j, o.log, o.report) && SenseIs(d, j, o.log, o.report))
  {
    BeforeReports(d, j);
    HacksComeLast(d, j);
    LogIs(d, j);
    hide Core, Invoke, LogShape, ReadsLastSector, Aborted, SenseFailed, SenseCame, ReadAs, LastTry, Bulk;
  }

  /** A command is reported good if and only if it was not timed out, its one exchange went well, enough
      bytes came, it is no READ(10) to be retried and no third short access to the last sector. */
  lemma GoodExactly(d: Dev, j: Job)
    requires JobOk(d, j)
    ensures var o := Out(d, j);
      && |o.log| > 0
      && (o.report.result == Good <==>
          && !j.e.timedOut && o.log[0].result == TransportGood
          && j.rq.bufflen - o.log[0].resid >= j.rq.underflow
          && !Redone(d, j.rq, true)
          && !(d.retry.hacks && d.retry.lastSector >= 2 && ReadsLastSector(j.rq) && o.log[0].resid != 0))
      && (o.report.result == Good ==> |o.log| == 1 && 0 <= o.report.resid <= j.rq.bufflen)
  {
    ReportExactly(d, j);
    ExchangeIsDisciplined(d, j.rq, j.e.main);
    hide Out, ReadsLastSector, ReadAs, LastTry, Bulk, Redone, AsksForSense, ParseCsw;
  }

  /** Every command: how it leaves the READ(10) flags, the switch and the counter of the last-sector check.
      Only a last-sector access that is not good in full counts; any other command but TEST UNIT READY, and
      the third failure, start the count again. */
  lemma RetryStateExactly(d: Dev, j: Job)
    requires JobOk(d, j)
    ensures var o := Out(d, j);
      && |o.log| > 0
      && var r := if WentWell(o.log, j.e) || SenseCame(o.log, j.e) then ReadTracked(d, j.rq, WentWell(o.log, j.e))
                  else d.retry;
      && var skipped := !d.retry.hacks || (SenseFailed(o.log, j.e) && d.quirks.multTarget);
      && var last, full := ReadsLastSector(j.rq), InFull(d, j, o.log);
      && o.dev.retry.redo == r.redo && o.dev.retry.worked == r.worked
      && (o.dev.retry.hacks <==> d.retry.hacks && (skipped || !last || !full))
      && o.dev.retry.lastSector ==
           if skipped then d.retry.lastSector
           else if last && !full && d.retry.lastSector < 2 then d.retry.lastSector + 1
           else if j.rq.cmnd[0] == 0 then d.retry.lastSector else 0
  {
    BeforeReports(d, j);
    HacksComeLast(d, j);
    LogIs(d, j);
    hide Core, Invoke, LogShape, ReadsLastSector, Aborted, SenseFailed, SenseCame, ReadAs, LastTry, Bulk, SenseIs, Out;
    assert ReadsLastSector(j.rq) ==> j.rq.cmnd[0] != 0 by {
      LastSectorIsNoTest(j.rq);
    }
  }

  lemma LastSectorIsNoTest(rq: Request)
    requires RequestOk(rq)
    ensures ReadsLastSector(rq) ==> rq.cmnd[0] != 0
  {
  }

  /** The sector of a READ(10) or WRITE(10) is stored big-endian, and compared with the capacity after
      one was added modulo 2^32. */
  lemma LastSectorIs(rq: Request, sector: nat)
    requires RequestOk(rq) && sector < W32
    requires rq.cmnd[2..6] == [sector / 0x100_0000, sector / 0x1_0000 % 0x100, sector / 0x100 % 0x100, sector % 0x100]
    ensures ReadsLastSector(rq) <==>
      rq.cmnd[0] in {0x28, 0x2a} && rq.capacity == Some(if sector == 0xffff_ffff then 0 else sector + 1)
  {
    var b := rq.cmnd[2..6];
    assert b[0] == rq.cmnd[2] && b[1] == rq.cmnd[3] && b[2] == rq.cmnd[4] && b[3] == rq.cmnd[5];
    assert Sector(rq) == sector by {
      FromBytes(sector);
    }
    hide Sector;
  }

  lemma FromBytes(v: nat)
    ensures v == v / 0x100_0000 * 0x100_0000 + v / 0x1_0000 % 0x100 * 0x1_0000 + v / 0x100 % 0x100 * 0x100 + v % 0x100
  {
    assert v / 0x1_0000 == v / 0x100 / 0x100 && v / 0x100_0000 == v / 0x100 / 0x100 / 0x100;
  }

  // ---------------------------------------------------------------------------------------------
  // What a command teaches about sense data
  // ---------------------------------------------------------------------------------------------

  /** The large sense request that the device was thought to take did not work. */
  ghost predicate LargeFails(d: Dev, j: Job, log: seq<Exchange>) {
    d.quirks.sane && |log| > 1 && (j.e.large.timedOut || log[1].result == TransportFailed)
  }

  /** Sense data of a valid format says it is longer than 18 bytes. */
  ghost predicate LongData(b: seq<byte>)
    requires |b| == SENSE_BUFFER
  {
    b[7] > 10 && b[0] % 0x80 in {0x70, 0x71, 0x72, 0x73}
  }

  /** An ATA pass-through succeeded, or long sense data came. */
  ghost predicate ShowsLargeSense(j: Job, log: seq<Exchange>)
    requires RequestOk(j.rq) && |log| > 0 && |j.e.large.buffer| == SENSE_BUFFER && |j.e.small.buffer| == SENSE_BUFFER
  {
    || (WentWell(log, j.e) && j.rq.cmnd[0] in {0x85, 0xa1} && j.rq.cmnd[2] % 0x40 < 0x20)
    || (SenseCame(log, j.e) && LongData(LastTry(log, j.e).buffer))
  }

  ghost predicate Teaches(d: Dev, j: Job, log: seq<Exchange>, d1: Dev)
    requires JobOk(d, j) && |log| > 0
  {
    && (d1.quirks.bad <==> d.quirks.bad || LargeFails(d, j, log))
    && (d1.quirks.sane <==>
        (d.quirks.sane && !LargeFails(d, j, log)) || (!d.quirks.sane && !d.quirks.bad && ShowsLargeSense(j, log)))
  }

  lemma ReadTeaches(d: Dev, t: SenseTry)
    requires |t.buffer| == SENSE_BUFFER
    ensures var d1 := ReadSense(d, t).0;
      && d1.quirks.bad == d.quirks.bad
      && (d1.quirks.sane <==> d.quirks.sane || (!d.quirks.bad && LongData(t.buffer)))
  {
  }

  lemma SmallTeaches(d: Dev, rq: Request, e: Env)
    requires RequestOk(rq) && EnvOk(e, d, rq)
    ensures var s := AutoSense(d, rq, e, false);
      && |s.log| == 1 && s.dev.quirks.bad == d.quirks.bad
      && (s.dev.quirks.sane <==>
          d.quirks.sane
          || (!d.quirks.bad && !e.small.timedOut && s.log[0].result == TransportGood && LongData(e.small.buffer)))
  {
    BulkChangesOnly(d, SenseRequest(d, rq, SENSE_SIZE), e.small.io);
    ReadTeaches(Bulk(d, SenseRequest(d, rq, SENSE_SIZE), 0, e.small.io).dev, e.small);
    hide Bulk, ReadSense, LongData;
  }

  lemma LargeTeaches(d: Dev, rq: Request, e: Env)
    requires RequestOk(rq) && EnvOk(e, d, rq) && d.quirks.sane
    ensures var s := AutoSense(d, rq, e, true);
      && |s.log| > 0
      && var fails := e.large.timedOut || s.log[0].result == TransportFailed;
      (s.dev.quirks.bad <==> d.quirks.bad || fails) && (s.dev.quirks.sane <==> !fails)
  {
    BulkChangesOnly(d, SenseRequest(d, rq, SENSE_BUFFER), e.large.io);
    var m := Bulk(d, SenseRequest(d, rq, SENSE_BUFFER), 0, e.large.io);
    SenseStep(d, rq, e, true);
    hide Bulk, ReadSense, LongData, AutoSense;
    if !e.large.timedOut {
      if m.exchange.result == TransportFailed {
        SmallTeaches(Downgrade(m.dev), rq, e);
      } else {
        ReadTeaches(m.dev, e.large);
      }
    }
  }

  lemma SenseTeaches(d: Dev, rq: Request, e: Env)
    requires RequestOk(rq) && EnvOk(e, d, rq)
    ensures var s := AutoSense(d, rq, e, d.quirks.sane);
      var fails := d.quirks.sane && |s.log| > 0 && (e.large.timedOut || s.log[0].result == TransportFailed);
      && (s.dev.quirks.bad <==> d.quirks.bad || fails)
      && (d.quirks.sane ==> (s.dev.quirks.sane <==> !fails))
      && (!d.quirks.sane ==>
          && |s.log| == 1
          && (s.dev.quirks.sane <==>
              && !d.quirks.bad && !e.small.timedOut && s.log[0].result == TransportGood && LongData(e.small.buffer)))
  {
    hide AutoSense, LongData;
    if d.quirks.sane {
      LargeTeaches(d, rq, e);
    } else {
      SmallTeaches(d, rq, e);
    }
  }

  lemma EndKeepsQuirks(d: Dev, rq: Request, r: Report, log: seq<Exchange>, n: nat)
    requires RequestOk(rq) && |r.sense| == SENSE_BUFFER
    ensures Closing(d, rq, r, log, n).dev.quirks == d.quirks && LastSector(d, rq, r).0.quirks == d.quirks
  {
  }

  lemma AfterSenseKeepsQuirks(s: SenseOut, rq: Request, r: Report, x: Exchange)
    requires RequestOk(rq) && |s.end.sense| == SENSE_BUFFER
    ensures var o := AfterSense(s, rq, r, [x]);
      o.dev.quirks == s.dev.quirks && o.log == [x] + s.log
  {
  }

  /** After one small sense request */
  lemma SmallShows(j: Job, x: Exchange, y: Exchange)
    requires RequestOk(j.rq) && |j.e.large.buffer| == SENSE_BUFFER && |j.e.small.buffer| == SENSE_BUFFER
    requires !j.e.timedOut && x.result == TransportFailed && y.bufflen == SENSE_SIZE
    ensures ShowsLargeSense(j, [x] + [y])
       <==> !j.e.small.timedOut && y.result == TransportGood && LongData(j.e.small.buffer)
  {
    hide LongData;
    assert LastTry([x] + [y], j.e) == j.e.small;
  }

  lemma FailedTeaches(d: Dev, d1: Dev, j: Job, r: Report, x: Exchange)
    requires JobOk(d, j) && |r.sense| == SENSE_BUFFER && EnvOk(j.e, d1, j.rq)
    requires !j.e.timedOut && x.result == TransportFailed
    requires d1.quirks == d.quirks.(ignoreResidue := d1.quirks.ignoreResidue)
    ensures var o := AfterSense(AutoSense(d1, j.rq, j.e, d1.quirks.sane), j.rq, r, [x]);
      |o.log| > 0 && Teaches(d, j, o.log, o.dev)
  {
    var s := AutoSense(d1, j.rq, j.e, d1.quirks.sane);
    SenseTeaches(d1, j.rq, j.e);
    AutoSenseWent(d1, j.rq, j.e);
    AfterSenseKeepsQuirks(s, j.rq, r, x);
    hide AutoSense, AfterSense, TryWent, LongData, ShowsLargeSense;
    if !d1.quirks.sane {
      assert s.log == [s.log[0]];
      SmallShows(j, x, s.log[0]);
    }
  }

  lemma OtherTeaches(d: Dev, d1: Dev, j: Job, r: Report, x: Exchange)
    requires JobOk(d, j) && |r.sense| == SENSE_BUFFER && EnvOk(j.e, d1, j.rq)
    requires j.e.timedOut || x.result != TransportFailed
    requires d1.quirks == d.quirks.(ignoreResidue := d1.quirks.ignoreResidue)
    ensures var o := AfterTransport(d1, j.rq, r, x, j.e);
      |o.log| > 0 && Teaches(d, j, o.log, o.dev)
  {
    hide AutoSense, Closing, AfterSense;
    EndKeepsQuirks(SatCheck(d1, j.rq), j.rq, r.(result := Good), [x], 0);
    EndKeepsLogOf(SatCheck(d1, j.rq), j.rq, r.(result := Good), x);
  }

  lemma EndKeepsLogOf(d: Dev, rq: Request, r: Report, x: Exchange)
    requires RequestOk(rq) && |r.sense| == SENSE_BUFFER
    ensures Closing(d, rq, r, [x], 0).log == [x]
  {
  }

  /** In every command: SANE_SENSE is learnt exactly from an ATA pass-through that went well or from long
      sense data, on a device not classified yet, and is given up for BAD_SENSE exactly when a large sense
      request times out or fails. */
  lemma SenseSizeLearntExactly(d: Dev, j: Job)
    requires JobOk(d, j)
    ensures |Out(d, j).log| > 0 && Teaches(d, j, Out(d, j).log, Out(d, j).dev)
  {
    BeforeIs(d, j);
    HacksComeLast(d, j);
    LogIs(d, j);
    hide Core, Teaches, LogShape, AutoSense, Closing, AfterSense, LastSector, Out;
    var m := Bulk(d, j.rq, 0, j.e.main);
    hide Bulk;
    var b := Before(d, j);
    var r := Report(Good, m.resid, if m.fakeSense then Overlay(j.sense, INVALID_CDB) else j.sense);
    if !j.e.timedOut && m.exchange.result == TransportFailed {
      FailedTeaches(d, m.dev, j, r, m.exchange);
    } else {
      OtherTeaches(d, m.dev, j, r, m.exchange);
    }
    EndKeepsQuirks(b.dev, j.rq, b.report, b.log, 0);
    QuirksTeach(d, j, b.log, b.dev, Out(d, j).dev);
  }

  lemma QuirksTeach(d: Dev, j: Job, log: seq<Exchange>, d1: Dev, d2: Dev)
    requires JobOk(d, j) && |log| > 0 && d1.quirks == d2.quirks && Teaches(d, j, log, d1)
    ensures Teaches(d, j, log, d2)
  {
  }
}
