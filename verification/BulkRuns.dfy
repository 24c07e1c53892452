/** What every run of commands over the Bulk-Only transport keeps. */
module BulkRuns {
  import opened Common
  import opened BulkSpec

  datatype Job = Job(rq: Request, sense: seq<byte>, e: Env)

  ghost predicate JobOk(d: Dev, j: Job) {
    RequestOk(j.rq) && EnvOk(j.e, d, j.rq) && |j.sense| == SENSE_BUFFER
  }

  function Out(d: Dev, j: Job): Outcome
    requires JobOk(d, j)
  {
    Invoke(d, j.rq, j.sense, j.e)
  }

  /** devs[i] is the device state before command i: a run of any commands against any device. */
  ghost predicate IsRun(devs: seq<Dev>, jobs: seq<Job>) {
    |devs| == |jobs| + 1
    && forall i :: 0 <= i < |jobs| ==> JobOk(devs[i], jobs[i]) && devs[i + 1] == Out(devs[i], jobs[i]).dev
  }

  // ---------------------------------------------------------------------------------------------
  // One exchange
  // ---------------------------------------------------------------------------------------------

  /** A result other than an error rests on a complete status wrapper that answers this very command
      block, and leaves a residue within the buffer. */
  ghost predicate Disciplined(x: Exchange) {
    x.result != TransportError ==>
      && x.accepted && x.csw.Some? && |x.csw.value| == CSW_LEN
      && var c := ParseCsw(x.csw.value);
      && (c.tag == x.sent.tag || x.ignoreTag)
      && (x.result == TransportFailed <==> c.status == STAT_FAIL)
      && (x.result != TransportFailed <==> c.status == STAT_OK)
      && 0 <= x.resid <= x.bufflen
  }

  /** The bytes are what one of the three status reads delivered in full. */
  ghost predicate ReadInFull(r: Reply, bytes: seq<byte>) {
    r.Done? && r.status == Ok && r.actual == CSW_LEN && r.data == bytes
  }

  lemma ExchangeIsDisciplined(d: Dev, rq: Request, io: BulkIo)
    requires RequestOk(rq) && IoOk(io, CbwLen(d), rq.bufflen)
    ensures var x := Bulk(d, rq, 0, io).exchange;
            && Disciplined(x)
            && x.sent == CbwFor(d, rq) && x.bufflen == rq.bufflen
            && (x.accepted ==> x.csw.Some?)
            && (x.csw.Some? ==> ReadInFull(io.csw1, x.csw.value) || ReadInFull(io.csw2, x.csw.value)
                                || ReadInFull(io.csw3, x.csw.value))
  {
  }

  /** When the residue of one exchange lies within the buffer: always, except that a data stage
      refused before it started leaves a residue computed from an uninitialised length. */
  lemma ResidueInRange(d: Dev, rq: Request, io: BulkIo)
    requires RequestOk(rq) && IoOk(io, CbwLen(d), rq.bufflen)
    ensures 0 <= Bulk(d, rq, 0, io).resid <= rq.bufflen
            <==> !(rq.bufflen > 0 && Interpret(CbwLen(d), io.cbw) == XferGood && io.data.Refused?
                   && io.data.stale > rq.bufflen)
  {
    if rq.bufflen > 0 && io.data.Refused? {
      var u := rq.bufflen - io.data.stale;
      assert io.data.stale > rq.bufflen ==> u % W32 == u + W32;
    }
  }

  lemma RefusedDataLeavesBadResidue(d: Dev)
    ensures var rq := Request(Zeros(16), 6, true, 512, 0, 0, 0, None);
            var sent := Done(Ok, CbwLen(d), [], true);
            var none := Done(Ok, 0, [], true);
            RequestOk(rq) && Bulk(d, rq, 0, BulkIo(sent, Refused(513), none, none, none)).resid == -1
  {
    assert (512 - 513) % W32 == W32 - 1;
  }

  // ---------------------------------------------------------------------------------------------
  // Tags and signatures along a log of exchanges
  // ---------------------------------------------------------------------------------------------

  function Signature(x: Exchange): nat
    requires x.csw.Some? && |x.csw.value| == CSW_LEN
  {
    ParseCsw(x.csw.value).signature
  }

  ghost predicate Accepted(x: Exchange) {
    x.accepted && x.csw.Some? && |x.csw.value| == CSW_LEN
  }

  /** The signature in force after a log. */
  ghost function SigAfter(sig: nat, log: seq<Exchange>): nat
    decreases |log|
  {
    if log == [] then sig
    else SigAfter(if Accepted(log[0]) then Signature(log[0]) else sig, log[1..])
  }

  /** The exchanges are well-behaved one by one, carry consecutive tags, and every accepted status
      carries the signature in force, if one is. */
  ghost predicate Chain(tag: nat, sig: nat, log: seq<Exchange>)
    decreases |log|
  {
    log == [] ||
    var x := log[0];
    && Disciplined(x) && (x.accepted ==> Accepted(x))
    && x.sent.tag == (tag + 1) % W32
    && (Accepted(x) ==> sig == 0 || Signature(x) == sig)
    && Chain(x.sent.tag, if Accepted(x) then Signature(x) else sig, log[1..])
  }

  ghost function TagAfter(tag: nat, log: seq<Exchange>): nat {
    if log == [] then tag else log[|log| - 1].sent.tag
  }

  lemma {:induction false} ChainJoins(tag: nat, sig: nat, a: seq<Exchange>, b: seq<Exchange>)
    requires Chain(tag, sig, a) && Chain(TagAfter(tag, a), SigAfter(sig, a), b)
    ensures Chain(tag, sig, a + b) && SigAfter(sig, a + b) == SigAfter(SigAfter(sig, a), b)
    ensures TagAfter(tag, a + b) == TagAfter(TagAfter(tag, a), b)
    decreases |a|
  {
    if a == [] {
      assert a + b == b;
    } else {
      var x := a[0];
      assert (a + b)[1..] == a[1..] + b;
      ChainJoins(x.sent.tag, if Accepted(x) then Signature(x) else sig, a[1..], b);
    }
  }

  /** What one transport adds to the log, and what it leaves alone. */
  ghost predicate OneExchange(d: Dev, d2: Dev, x: Exchange) {
    && Chain(d.tag, d.sig, [x])
    && d2.tag == TagAfter(d.tag, [x]) && d2.sig == SigAfter(d.sig, [x])
    && d2.retry == d.retry
    && d2.quirks == d.quirks.(ignoreResidue := d2.quirks.ignoreResidue)
  }

  /** What an answer changes: the signature if it is accepted, and a residue found to be bogus. */
  lemma AnswerChangesOnly(d: Dev, rq: Request, resid: int, csw: seq<byte>, babble: bool, x: Exchange)
    requires RequestOk(rq) && |csw| == CSW_LEN && !x.accepted
    ensures var m := Answer(d, rq, resid, csw, babble, x);
            && m.exchange.sent == x.sent && m.exchange.csw == Some(csw)
            && (m.exchange.accepted ==> d.sig == 0 || ParseCsw(csw).signature == d.sig)
            && m.dev == d.(sig := if m.exchange.accepted then ParseCsw(csw).signature else d.sig,
                           quirks := d.quirks.(ignoreResidue := m.dev.quirks.ignoreResidue))
  {
    hide ParseCsw, BogusResidue, StatusResult;
  }

  lemma GoodStatusIsWhole(io: BulkIo)
    requires Interpret(CSW_LEN, StatusReply(io)) == XferGood
    requires WellFormed(CSW_LEN, io.csw1) && WellFormed(CSW_LEN, io.csw2) && WellFormed(CSW_LEN, io.csw3)
    ensures StatusReply(io).Done? && |StatusReply(io).data| == CSW_LEN
  {
  }

  /** How one transport changes the device and what it logs */
  ghost predicate ChangesOnly(d: Dev, m: BulkOut) {
    var x := m.exchange;
    && m.dev.tag == x.sent.tag == (d.tag + 1) % W32
    && (x.accepted ==> Accepted(x))
    && (Accepted(x) ==> d.sig == 0 || Signature(x) == d.sig)
    && m.dev.sig == (if Accepted(x) then Signature(x) else d.sig)
    && m.dev.retry == d.retry
    && m.dev.quirks == d.quirks.(ignoreResidue := m.dev.quirks.ignoreResidue)
  }

  lemma AnsweredChangesOnly(d: Dev, rq: Request, resid: int, csw: seq<byte>, babble: bool)
    requires RequestOk(rq) && |csw| == CSW_LEN
    ensures ChangesOnly(d, Answer(d.(tag := (d.tag + 1) % W32), rq, resid, csw, babble, Unanswered(d, rq, resid)))
  {
    hide Answer, ParseCsw;
    AnswerChangesOnly(d.(tag := (d.tag + 1) % W32), rq, resid, csw, babble, Unanswered(d, rq, resid));
  }

  lemma UnansweredChangesOnly(d: Dev, rq: Request, resid: int)
    requires RequestOk(rq)
    ensures ChangesOnly(d, BulkOut(d.(tag := (d.tag + 1) % W32), resid, false, Unanswered(d, rq, resid)))
  {
  }

  /** The device after one transport */
  lemma BulkChangesOnly(d: Dev, rq: Request, io: BulkIo)
    requires RequestOk(rq) && IoOk(io, CbwLen(d), rq.bufflen)
    ensures ChangesOnly(d, Bulk(d, rq, 0, io))
  {
    hide ParseCsw, Answer, ReachesStatus, DataResid, StatusReply, Interpret, ChangesOnly, Unanswered;
    var resid := if Interpret(CbwLen(d), io.cbw) == XferGood then DataResid(rq, 0, io) else 0;
    var status := StatusReply(io);
    if ReachesStatus(rq, io, CbwLen(d)) && Interpret(CSW_LEN, status) == XferGood {
      GoodStatusIsWhole(io);
      AnsweredChangesOnly(d, rq, resid, status.data, rq.bufflen > 0 && Interpret(rq.bufflen, io.data) == XferLong);
    } else {
      UnansweredChangesOnly(d, rq, resid);
    }
  }

  lemma BulkAddsOne(d: Dev, rq: Request, io: BulkIo)
    requires RequestOk(rq) && IoOk(io, CbwLen(d), rq.bufflen)
    ensures OneExchange(d, Bulk(d, rq, 0, io).dev, Bulk(d, rq, 0, io).exchange)
  {
    hide Bulk, Disciplined, ParseCsw;
    ExchangeIsDisciplined(d, rq, io);
    BulkChangesOnly(d, rq, io);
    var x := Bulk(d, rq, 0, io).exchange;
    assert [x][1..] == [];
    var d2 := Bulk(d, rq, 0, io).dev;
    assert Chain(d.tag, d.sig, [x]);
    assert d2.tag == TagAfter(d.tag, [x]);
    assert d2.sig == SigAfter(d.sig, [x]);
  }

  /** The device was found not to answer large sense requests. */
  predicate Settled(d: Dev) {
    d.quirks.bad && !d.quirks.sane
  }

  /** What a series of exchanges, with some SANE_SENSE downgrades among them, makes of the device. */
  ghost predicate Series(d: Dev, d2: Dev, log: seq<Exchange>, downgrades: nat) {
    && Chain(d.tag, d.sig, log)
    && d2.tag == TagAfter(d.tag, log) && d2.sig == SigAfter(d.sig, log)
    && d2.retry.hacks == d.retry.hacks && d2.retry.lastSector == d.retry.lastSector
    && downgrades <= 1
    && (downgrades == 1 ==> Settled(d2))
    && (Settled(d) ==> Settled(d2) && downgrades == 0)
  }

  lemma ReadSenseFacts(d: Dev, t: SenseTry)
    requires |t.buffer| == SENSE_BUFFER
    ensures var (d1, end) := ReadSense(d, t);
            && d1 == d.(quirks := d.quirks.(sane := d1.quirks.sane))
            && (d.quirks.bad || d.quirks.sane ==> d1 == d)
            && end.SenseRead? && end.result != DidImmRetry
  {
  }

  lemma SmallSenseMakesSeries(d: Dev, rq: Request, e: Env)
    requires RequestOk(rq) && EnvOk(e, d, rq)
    ensures var s := AutoSense(d, rq, e, false);
            && |s.log| == 1
            && OneExchange(d, s.dev.(quirks := d.quirks.(ignoreResidue := s.dev.quirks.ignoreResidue)), s.log[0])
            && s.dev.retry == d.retry && s.downgrades == 0
            && (d.quirks.bad ==> s.dev.quirks.bad && s.dev.quirks.sane == d.quirks.sane)
            && (s.end.SenseRead? ==> s.end.result != DidImmRetry)
  {
    var rq1 := SenseRequest(d, rq, SENSE_SIZE);
    BulkAddsOne(d, rq1, e.small.io);
    hide Bulk, ReadSense, OneExchange;
    ReadSenseFacts(Bulk(d, rq1, 0, e.small.io).dev, e.small);
  }

  /** A large sense request that fails is followed by a small one to the downgraded device. */
  lemma DowngradeMakesSeries(d: Dev, d1: Dev, x: Exchange, s: SenseOut)
    requires OneExchange(d, d1, x) && d.quirks.sane && |s.log| == 1 && s.dev.retry == d1.retry
    requires var dd := Downgrade(d1);
      OneExchange(dd, s.dev.(quirks := dd.quirks.(ignoreResidue := s.dev.quirks.ignoreResidue)), s.log[0])
    requires s.dev.quirks.bad && !s.dev.quirks.sane
    ensures Series(d, s.dev, [x] + s.log, 1) && s.dev.retry == d.retry
  {
    hide Chain, SigAfter;
    assert s.log == [s.log[0]];
    ChainJoins(d.tag, d.sig, [x], s.log);
  }

  lemma SenseMakesSeries(d: Dev, rq: Request, e: Env)
    requires RequestOk(rq) && EnvOk(e, d, rq)
    ensures var s := AutoSense(d, rq, e, d.quirks.sane);
            && Series(d, s.dev, s.log, s.downgrades) && s.dev.retry == d.retry && 1 <= |s.log| <= 2
            && (s.end.SenseRead? ==> s.end.result != DidImmRetry)
  {
    if !d.quirks.sane {
      SmallSenseMakesSeries(d, rq, e);
      return;
    }
    var rq1 := SenseRequest(d, rq, SENSE_BUFFER);
    BulkAddsOne(d, rq1, e.large.io);
    hide Bulk, ReadSense, Chain, SigAfter;
    var m := Bulk(d, rq1, 0, e.large.io);
    ReadSenseFacts(m.dev, e.large);
    if !e.large.timedOut && m.exchange.result == TransportFailed {
      SmallSenseMakesSeries(Downgrade(m.dev), rq, e);
      DowngradeMakesSeries(d, m.dev, m.exchange, AutoSense(Downgrade(m.dev), rq, e, false));
    }
  }

  function Credit(d: Dev): nat {
    (if d.retry.redo then 1 else 0) + (if d.retry.worked then 1 else 0)
  }

  lemma ClosingSpendsCredit(d: Dev, rq: Request, r: Report, log: seq<Exchange>, downgrades: nat)
    requires RequestOk(rq) && |r.sense| == SENSE_BUFFER && r.result != DidImmRetry
    ensures var o := Closing(d, rq, r, log, downgrades);
            && o.log == log && o.downgrades == downgrades
            && o.dev == d.(retry := o.dev.retry)
            && o.dev.retry.hacks == d.retry.hacks && o.dev.retry.lastSector == d.retry.lastSector
            && o.retries + Credit(o.dev) <= Credit(d) + o.goodReads
  {
  }

  /** One command: its own transport and at most two REQUEST SENSEs, at most one downgrade, and no
      more immediate retries than its credit allows. */
  ghost predicate CommandFacts(d: Dev, o: Outcome) {
    && Series(d, o.dev, o.log, o.downgrades)
    && 1 <= |o.log| <= 3
    && o.retries + Credit(o.dev) <= Credit(d) + o.goodReads
  }

  lemma AfterSenseFacts(d: Dev, s: SenseOut, rq: Request, r: Report, x: Exchange)
    requires RequestOk(rq) && |s.end.sense| == SENSE_BUFFER
    requires s.end.SenseRead? ==> s.end.result != DidImmRetry
    requires Series(d, s.dev, [x] + s.log, s.downgrades) && s.dev.retry == d.retry && 1 <= |s.log| <= 2
    ensures CommandFacts(d, AfterSense(s, rq, r, [x]))
  {
    if s.end.SenseRead? {
      ClosingSpendsCredit(s.dev, rq, r.(sense := s.end.sense, result := s.end.result), [x] + s.log, s.downgrades);
    }
  }

  lemma AfterTransportFacts(d: Dev, d1: Dev, rq: Request, r: Report, x: Exchange, e: Env)
    requires RequestOk(rq) && EnvOk(e, d1, rq) && |r.sense| == SENSE_BUFFER && OneExchange(d, d1, x)
    ensures CommandFacts(d, AfterTransport(d1, rq, r, x, e))
  {
    hide AutoSense, Closing, AfterSense;
    if !e.timedOut && x.result == TransportGood {
      ClosingSpendsCredit(SatCheck(d1, rq), rq, r.(result := Good), [x], 0);
    } else if !e.timedOut && x.result == TransportFailed {
      var s := AutoSense(d1, rq, e, d1.quirks.sane);
      SenseMakesSeries(d1, rq, e);
      ChainJoins(d.tag, d.sig, [x], s.log);
      AfterSenseFacts(d, s, rq, r, x);
    }
  }

  function Before(d: Dev, j: Job): Outcome
    requires JobOk(d, j)
  {
    Core(d, j.rq, j.sense, j.e)
  }

  lemma CoreFacts(d: Dev, j: Job)
    requires JobOk(d, j)
    ensures CommandFacts(d, Before(d, j))
  {
    hide Bulk, AfterTransport;
    BulkAddsOne(d, j.rq, j.e.main);
    var m := Bulk(d, j.rq, 0, j.e.main);
    var r := Report(Good, m.resid, if m.fakeSense then Overlay(j.sense, INVALID_CDB) else j.sense);
    AfterTransportFacts(d, m.dev, j.rq, r, m.exchange, j.e);
  }

  lemma HacksComeLast(d: Dev, j: Job)
    requires JobOk(d, j)
    ensures var b, o := Before(d, j), Out(d, j);
            (o.dev, o.report) == if b.hacks then LastSector(b.dev, j.rq, b.report) else (b.dev, b.report)
  {
    hide Core;
  }

  /** last_sector_hacks touches its own counter and the report only. */
  lemma OutFacts(d: Dev, j: Job)
    requires JobOk(d, j)
    ensures var o := Out(d, j);
            && Chain(d.tag, d.sig, o.log) && 1 <= |o.log| <= 3
            && o.dev.tag == TagAfter(d.tag, o.log) && o.dev.sig == SigAfter(d.sig, o.log)
            && o.downgrades <= 1 && (o.downgrades == 1 ==> Settled(o.dev))
            && (Settled(d) ==> Settled(o.dev) && o.downgrades == 0)
            && o.retries + Credit(o.dev) <= Credit(d) + o.goodReads
  {
    hide Core;
    CoreFacts(d, j);
  }

  ghost function FullLog(devs: seq<Dev>, jobs: seq<Job>, n: nat): seq<Exchange>
    requires IsRun(devs, jobs) && n <= |jobs|
  {
    if n == 0 then [] else FullLog(devs, jobs, n - 1) + Out(devs[n - 1], jobs[n - 1]).log
  }

  lemma {:induction false} RunChains(devs: seq<Dev>, jobs: seq<Job>, n: nat)
    requires IsRun(devs, jobs) && n <= |jobs|
    ensures var log := FullLog(devs, jobs, n);
            && Chain(devs[0].tag, devs[0].sig, log)
            && devs[n].tag == TagAfter(devs[0].tag, log) && devs[n].sig == SigAfter(devs[0].sig, log)
  {
    hide Out, Core;
    if n > 0 {
      RunChains(devs, jobs, n - 1);
      OutFacts(devs[n - 1], jobs[n - 1]);
      ChainJoins(devs[0].tag, devs[0].sig, FullLog(devs, jobs, n - 1), Out(devs[n - 1], jobs[n - 1]).log);
    }
  }

  lemma {:induction false} ChainAt(tag: nat, sig: nat, log: seq<Exchange>, k: nat)
    requires Chain(tag, sig, log) && k < |log|
    ensures Disciplined(log[k]) && (log[k].accepted ==> Accepted(log[k]))
    ensures log[k].sent.tag == (tag + 1 + k) % W32
    ensures Accepted(log[k]) ==> sig == 0 || Signature(log[k]) == sig
    decreases k
  {
    if k > 0 {
      var x := log[0];
      ChainAt(x.sent.tag, if Accepted(x) then Signature(x) else sig, log[1..], k - 1);
    }
  }

  lemma {:induction false} ChainSignature(tag: nat, sig: nat, log: seq<Exchange>, i: nat, k: nat)
    requires Chain(tag, sig, log) && i < k < |log|
    requires Accepted(log[i]) && Signature(log[i]) != 0 && Accepted(log[k])
    ensures Signature(log[k]) == Signature(log[i])
    decreases i
  {
    var x := log[0];
    var sig1 := if Accepted(x) then Signature(x) else sig;
    if i == 0 {
      ChainAt(x.sent.tag, sig1, log[1..], k - 1);
    } else {
      ChainSignature(x.sent.tag, sig1, log[1..], i - 1, k - 1);
    }
  }

  /** In any run: every result other than an error comes from a full status wrapper that carries the
      tag just sent (unless tags are ignored) and leaves a residue within the buffer; the tags sent
      count up modulo 2^32. */
  lemma RunExchanges(devs: seq<Dev>, jobs: seq<Job>, k: nat)
    requires IsRun(devs, jobs) && k < |FullLog(devs, jobs, |jobs|)|
    ensures var x := FullLog(devs, jobs, |jobs|)[k];
            Disciplined(x) && x.sent.tag == (devs[0].tag + 1 + k) % W32
  {
    hide Out, Core;
    RunChains(devs, jobs, |jobs|);
    ChainAt(devs[0].tag, devs[0].sig, FullLog(devs, jobs, |jobs|), k);
  }

  /** Once a non-zero signature was accepted, every status accepted later carries it. */
  lemma SignatureSticks(devs: seq<Dev>, jobs: seq<Job>, i: nat, k: nat)
    requires IsRun(devs, jobs) && i < k < |FullLog(devs, jobs, |jobs|)|
    requires var log := FullLog(devs, jobs, |jobs|);
             Accepted(log[i]) && Signature(log[i]) != 0 && Accepted(log[k])
    ensures var log := FullLog(devs, jobs, |jobs|); Signature(log[k]) == Signature(log[i])
  {
    hide Out, Core;
    RunChains(devs, jobs, |jobs|);
    ChainSignature(devs[0].tag, devs[0].sig, FullLog(devs, jobs, |jobs|), i, k);
  }

  lemma TagsDiffer(tag: nat, i: nat, k: nat)
    requires i < k < i + W32
    ensures (tag + 1 + i) % W32 != (tag + 1 + k) % W32
  {
  }

  /** A late answer to an earlier command block is never taken for the answer to a later one, as long
      as fewer than 2^32 blocks lie between them and tags are checked. */
  lemma NoStaleStatus(devs: seq<Dev>, jobs: seq<Job>, i: nat, k: nat)
    requires IsRun(devs, jobs)
    requires i < k < |FullLog(devs, jobs, |jobs|)| && k < i + W32
    requires var x := FullLog(devs, jobs, |jobs|)[k]; x.result != TransportError && !x.ignoreTag
    ensures var log := FullLog(devs, jobs, |jobs|);
            log[k].csw.Some? && |log[k].csw.value| == CSW_LEN && ParseCsw(log[k].csw.value).tag != log[i].sent.tag
  {
    hide Out, Core;
    RunChains(devs, jobs, |jobs|);
    var log := FullLog(devs, jobs, |jobs|);
    ChainAt(devs[0].tag, devs[0].sig, log, i);
    ChainAt(devs[0].tag, devs[0].sig, log, k);
    TagsDiffer(devs[0].tag, i, k);
  }

  // ---------------------------------------------------------------------------------------------
  // Transfers
  // ---------------------------------------------------------------------------------------------

  /** A bulk transfer, and the control message that clears a stall after it */
  function TransfersFor(r: Reply): nat {
    if r.Done? && r.status == EPipe then 2 else 1
  }

  /** The transfers of the status stage, up to the one that decides */
  function StatusTransfers(io: BulkIo): nat {
    var again := Interpret(CSW_LEN, io.csw1) == XferShort && Actual(io.csw1) == 0;
    var second := if again then io.csw2 else io.csw1;
    TransfersFor(io.csw1) + (if again then TransfersFor(io.csw2) else 0)
    + (if Interpret(CSW_LEN, second) == XferStalled then TransfersFor(io.csw3) else 0)
  }

  /** The transfers usb_stor_Bulk_transport makes */
  function BulkTransfers(d: Dev, rq: Request, io: BulkIo): nat {
    TransfersFor(io.cbw)
    + (if Interpret(CbwLen(d), io.cbw) == XferGood && rq.bufflen > 0 then TransfersFor(io.data) else 0)
    + (if ReachesStatus(rq, io, CbwLen(d)) then StatusTransfers(io) else 0)
  }

  lemma AtMostEightTransfers(d: Dev, rq: Request, io: BulkIo)
    ensures BulkTransfers(d, rq, io) <= 8
  {
    hide ReachesStatus;
    StalledCommandEnds(d, rq, io);
  }

  lemma StalledCommandEnds(d: Dev, rq: Request, io: BulkIo)
    ensures Interpret(CbwLen(d), io.cbw) == XferGood ==> TransfersFor(io.cbw) == 1
    ensures ReachesStatus(rq, io, CbwLen(d)) ==> Interpret(CbwLen(d), io.cbw) == XferGood
    ensures StatusTransfers(io) <= 5
  {
  }

  /** The transfers of auto-sense, which follow the same two tries */
  ghost function SenseTransfers(d: Dev, rq: Request, e: Env, large: bool): nat
    requires RequestOk(rq) && EnvOk(e, d, rq)
    decreases large
  {
    var t := if large then e.large else e.small;
    var rq1 := SenseRequest(d, rq, if large then SENSE_BUFFER else SENSE_SIZE);
    var m := Bulk(d, rq1, 0, t.io);
    BulkTransfers(d, rq1, t.io)
    + if !t.timedOut && m.exchange.result == TransportFailed && large
      then SenseTransfers(Downgrade(m.dev), rq, e, false) else 0
  }

  ghost function CommandTransfers(d: Dev, j: Job): nat
    requires JobOk(d, j)
  {
    var m := Bulk(d, j.rq, 0, j.e.main);
    BulkTransfers(d, j.rq, j.e.main)
    + if !j.e.timedOut && m.exchange.result == TransportFailed
      then SenseTransfers(m.dev, j.rq, j.e, m.dev.quirks.sane) else 0
  }

  const COMMAND_TRANSFERS: nat := 24

  /** usb_stor_reset_common: one message and two cleared halts */
  const RESET_TRANSFERS: nat := 3

  /** A command over the Bulk-Only transport makes at most 24 transfers, whatever the device answers. */
  lemma CommandTransfersAreBounded(d: Dev, j: Job)
    requires JobOk(d, j)
    ensures CommandTransfers(d, j) <= COMMAND_TRANSFERS
  {
    hide Bulk, BulkTransfers, SenseRequest;
    AtMostEightTransfers(d, j.rq, j.e.main);
    var m := Bulk(d, j.rq, 0, j.e.main);
    var d1 := m.dev;
    var rq1 := SenseRequest(d1, j.rq, SENSE_BUFFER);
    BulkChangesOnly(d, j.rq, j.e.main);
    AtMostEightTransfers(d1, rq1, j.e.large.io);
    AtMostEightTransfers(d1, SenseRequest(d1, j.rq, SENSE_SIZE), j.e.small.io);
    BulkChangesOnly(d1, rq1, j.e.large.io);
    var d2 := Downgrade(Bulk(d1, rq1, 0, j.e.large.io).dev);
    AtMostEightTransfers(d2, SenseRequest(d2, j.rq, SENSE_SIZE), j.e.small.io);
  }

  // ---------------------------------------------------------------------------------------------
  // Auto-sense
  // ---------------------------------------------------------------------------------------------

  ghost function Downgrades(devs: seq<Dev>, jobs: seq<Job>, n: nat): nat
    requires IsRun(devs, jobs) && n <= |jobs|
  {
    if n == 0 then 0 else Downgrades(devs, jobs, n - 1) + Out(devs[n - 1], jobs[n - 1]).downgrades
  }

  /** In any run SANE_SENSE is given up at most once, and never regained after that. */
  lemma {:induction false} SaneSenseGivenUpOnce(devs: seq<Dev>, jobs: seq<Job>, n: nat)
    requires IsRun(devs, jobs) && n <= |jobs|
    ensures Downgrades(devs, jobs, n) <= 1
    ensures Downgrades(devs, jobs, n) == 1 ==> Settled(devs[n])
    ensures forall i :: 0 <= i <= n && Settled(devs[i]) ==> Settled(devs[n])
  {
    hide Out, Core;
    if n > 0 {
      SaneSenseGivenUpOnce(devs, jobs, n - 1);
      OutFacts(devs[n - 1], jobs[n - 1]);
    }
  }

  // ---------------------------------------------------------------------------------------------
  // READ(10) retries
  // ---------------------------------------------------------------------------------------------

  ghost function Retries(devs: seq<Dev>, jobs: seq<Job>, n: nat): nat
    requires IsRun(devs, jobs) && n <= |jobs|
  {
    if n == 0 then 0 else Retries(devs, jobs, n - 1) + Out(devs[n - 1], jobs[n - 1]).retries
  }

  ghost function GoodReads(devs: seq<Dev>, jobs: seq<Job>, n: nat): nat
    requires IsRun(devs, jobs) && n <= |jobs|
  {
    if n == 0 then 0 else GoodReads(devs, jobs, n - 1) + Out(devs[n - 1], jobs[n - 1]).goodReads
  }

  /** From a fresh probe, immediate READ(10) retries number at most one plus the READ(10)s seen good. */
  lemma {:induction false} RetriesAreBounded(devs: seq<Dev>, jobs: seq<Job>, n: nat)
    requires IsRun(devs, jobs) && n <= |jobs| && !devs[0].retry.worked
    ensures Retries(devs, jobs, n) + Credit(devs[n]) <= 1 + GoodReads(devs, jobs, n)
  {
    hide Out, Core;
    if n > 0 {
      RetriesAreBounded(devs, jobs, n - 1);
      OutFacts(devs[n - 1], jobs[n - 1]);
    }
  }

  // ---------------------------------------------------------------------------------------------
  // The last sector
  // ---------------------------------------------------------------------------------------------

  /** Between commands the counter stays in 0..2. */
  lemma {:induction false} CounterInRange(devs: seq<Dev>, jobs: seq<Job>, n: nat)
    requires IsRun(devs, jobs) && n <= |jobs| && 0 <= devs[0].retry.lastSector <= 2
    ensures 0 <= devs[n].retry.lastSector <= 2
  {
    hide Out, Core;
    if n > 0 {
      CounterInRange(devs, jobs, n - 1);
      CoreFacts(devs[n - 1], jobs[n - 1]);
      HacksComeLast(devs[n - 1], jobs[n - 1]);
    }
  }

  /** A last-sector access that failed, in the way last_sector_hacks counts. */
  ghost predicate FailsLastSector(d: Dev, j: Job)
    requires JobOk(d, j)
  {
    var o := Before(d, j);
    ReadsLastSector(j.rq) && o.hacks && !(o.report.result == Good && o.report.resid == 0)
  }

  lemma {:induction false} TestUnitReadyKeepsCount(devs: seq<Dev>, jobs: seq<Job>, i: nat, k: nat)
    requires IsRun(devs, jobs) && i <= k <= |jobs|
    requires forall m :: i <= m < k ==> jobs[m].rq.cmnd[..1] == [TEST_UNIT_READY]
    ensures devs[k].retry.hacks == devs[i].retry.hacks && devs[k].retry.lastSector == devs[i].retry.lastSector
    decreases k
  {
    hide Out, Core;
    if i < k {
      TestUnitReadyKeepsCount(devs, jobs, i, k - 1);
      CoreFacts(devs[k - 1], jobs[k - 1]);
      HacksComeLast(devs[k - 1], jobs[k - 1]);
      assert jobs[k - 1].rq.cmnd[..1][0] == TEST_UNIT_READY;
    }
  }

  lemma FailureCounts(d: Dev, j: Job)
    requires JobOk(d, j) && d.retry.hacks && FailsLastSector(d, j)
    ensures var o := Out(d, j);
            if d.retry.lastSector < 2
            then o.report == Before(d, j).report
                 && o.dev.retry.hacks && o.dev.retry.lastSector == d.retry.lastSector + 1
            else o.report.result == CheckCondition && o.report.sense[..SENSE_SIZE] == RECORD_NOT_FOUND
  {
    CoreFacts(d, j);
  }

  /** The third failed access to the last sector, with nothing but TEST UNIT READY in between, is
      reported as a medium error "record not found"; the first two keep their own results. */
  lemma ThirdFailureIsMediumError(devs: seq<Dev>, jobs: seq<Job>, i: nat, j: nat, k: nat)
    requires IsRun(devs, jobs) && i < j < k < |jobs|
    requires devs[i].retry.hacks && devs[i].retry.lastSector == 0
    requires forall m :: i < m < k && m != j ==> jobs[m].rq.cmnd[..1] == [TEST_UNIT_READY]
    requires forall m :: m in [i, j, k] ==> FailsLastSector(devs[m], jobs[m])
    ensures Out(devs[k], jobs[k]).report.result == CheckCondition
    ensures Out(devs[k], jobs[k]).report.sense[..SENSE_SIZE] == RECORD_NOT_FOUND
    ensures forall m :: m in [i, j] ==> Out(devs[m], jobs[m]).report == Before(devs[m], jobs[m]).report
  {
    hide Out, Core;
    assert i in [i, j, k] && j in [i, j, k] && k in [i, j, k];
    FailureCounts(devs[i], jobs[i]);
    TestUnitReadyKeepsCount(devs, jobs, i + 1, j);
    FailureCounts(devs[j], jobs[j]);
    TestUnitReadyKeepsCount(devs, jobs, j + 1, k);
    FailureCounts(devs[k], jobs[k]);
  }
}
