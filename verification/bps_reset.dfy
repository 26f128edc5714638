/** The two-domain reset of `cam_bps_cmd_reset`: reset the CDM sub-core, then
    the TOP sub-core, each followed by a bounded poll of its IRQ status and one
    final direct read. A single counter `retry_cnt` serves both poll loops: it
    is set to zero once and not cleared before the TOP loop, so the failed
    polls of CDM use up the budget of TOP. */
module BpsReset {
  import opened BpsTypes
  import opened BpsTrace

  /** How one poll loop ended: the shared counter afterwards, the number of
      polls this loop made, and whether it stopped on a reset-done value. */
  datatype PollRun = PollRun(retry: nat, polls: nat, done: bool)

  /** The `k`-th poll of a domain read a reset-done value. */
  predicate PollDone(m: Masks, poll: nat -> bv16, k: nat) {
    ResetDone(m, poll(k) as bv32)
  }

  /** The loop `while (retry_cnt < HFI_MAX_POLL_TRY)` of one domain, entered
      with `k` polls made and the counter at `retry`. A poll that reads
      reset-done leaves the loop without counting; any other poll counts. */
  function PollLoop(m: Masks, poll: nat -> bv16, k: nat, retry: nat): (r: PollRun)
    requires retry <= MaxPollTry
    ensures retry <= r.retry <= MaxPollTry
    ensures r.polls == k + (r.retry - retry) + (if r.done then 1 else 0)
    ensures r.done ==> r.retry < MaxPollTry && PollDone(m, poll, r.polls - 1)
    ensures !r.done ==> r.retry == MaxPollTry
    ensures forall j | k <= j < k + (r.retry - retry) :: !PollDone(m, poll, j)
    decreases MaxPollTry - retry
  {
    if retry >= MaxPollTry then PollRun(retry, k, false)
    else if PollDone(m, poll, k) then PollRun(retry, k + 1, true)
    else PollLoop(m, poll, k + 1, retry + 1)
  }

  /** The two loops as the driver runs them: CDM from a zero counter, TOP
      from wherever CDM left the counter. */
  function CdmRun(m: Masks, obs: ResetReads): PollRun {
    PollLoop(m, obs.cdmPoll, 0, 0)
  }

  function TopRun(m: Masks, obs: ResetReads): PollRun {
    PollLoop(m, obs.topPoll, 0, CdmRun(m, obs).retry)
  }

  /** The calls of one domain: reset command, its polls, the final read. */
  function DomainTrace(d: Domain, cmd: bv32, polls: nat): seq<Call> {
    [ResetWrite(d, cmd)] + Repeat(IrqPoll(d), polls) + [IrqRead(d)]
  }

  /** Number of polls of domain `d` in a trace. */
  function Polls(t: seq<Call>, d: Domain): nat {
    multiset(t)[IrqPoll(d)]
  }

  /** All calls of a reset, given how often each domain was polled. */
  function ResetTrace(cdmPolls: nat, topPolls: nat): seq<Call> {
    DomainTrace(Cdm, CdmResetCmd, cdmPolls) + DomainTrace(Top, TopResetCmd, topPolls) + GdscTail
  }

  /** `cam_bps_cmd_reset`. Neither domain's failure stops the other's reset or
      the GDSC resync; the result is -EAGAIN exactly when a final read lacks
      reset-done, whatever the polls read. */
  function ResetDomains(m: Masks, st: CoreState, obs: ResetReads): (r: Step)
    ensures r.st == st
    ensures r.rc == -EAGAIN <==> !ResetDone(m, obs.cdmFinal) || !ResetDone(m, obs.topFinal)
    ensures r.rc == 0 <==> ResetDone(m, obs.cdmFinal) && ResetDone(m, obs.topFinal)
    ensures ResetWrite(Cdm, CdmResetCmd) in r.trace && ResetWrite(Top, TopResetCmd) in r.trace
    ensures |r.trace| >= |GdscTail| && r.trace[|r.trace| - |GdscTail|..] == GdscTail
    ensures Polls(r.trace, Cdm) <= MaxPollTry && Polls(r.trace, Top) <= MaxPollTry
    ensures Polls(r.trace, Cdm) + Polls(r.trace, Top) <= MaxPollTry + 1
    ensures Quiet(r.trace)
    ensures ResetLaidOut(r.trace, Polls(r.trace, Cdm), Polls(r.trace, Top))
  {
    var cdm := CdmRun(m, obs);
    var top := TopRun(m, obs);
    var cdmFail := !ResetDone(m, obs.cdmFinal);
    var topFail := !ResetDone(m, obs.topFinal);
    PollBudget(m, obs);
    ResetTraceShape(cdm.polls, top.polls);
    ResetTracePolls(cdm.polls, top.polls);
    ResetTraceQuiet(cdm.polls, top.polls);
    ResetTraceLayout(cdm.polls, top.polls);
    Step(st, if cdmFail || topFail then -EAGAIN else 0, ResetTrace(cdm.polls, top.polls))
  }

  /** Each loop polls at most `HFI_MAX_POLL_TRY` times, and both together at
      most once more: only failed polls count, and each loop ends after at
      most one successful poll. */
  lemma PollBudget(m: Masks, obs: ResetReads)
    ensures CdmRun(m, obs).polls <= MaxPollTry && TopRun(m, obs).polls <= MaxPollTry
    ensures CdmRun(m, obs).polls + TopRun(m, obs).polls <= MaxPollTry + 1
  {
    var cdm := CdmRun(m, obs);
    var top := TopRun(m, obs);
    assert cdm.polls == cdm.retry + (if cdm.done then 1 else 0);
    assert top.polls == (top.retry - cdm.retry) + (if top.done then 1 else 0);
  }

  lemma ResetTraceShape(cdmPolls: nat, topPolls: nat)
    ensures ResetWrite(Cdm, CdmResetCmd) in ResetTrace(cdmPolls, topPolls)
    ensures ResetWrite(Top, TopResetCmd) in ResetTrace(cdmPolls, topPolls)
    ensures var t := ResetTrace(cdmPolls, topPolls);
            |t| >= |GdscTail| && t[|t| - |GdscTail|..] == GdscTail
  {
    var dc := DomainTrace(Cdm, CdmResetCmd, cdmPolls);
    var dt := DomainTrace(Top, TopResetCmd, topPolls);
    var t := ResetTrace(cdmPolls, topPolls);
    assert t == dc + (dt + GdscTail);
    assert t[0] == ResetWrite(Cdm, CdmResetCmd);
    assert t[|dc|] == ResetWrite(Top, TopResetCmd);
  }

  /** The order of the reset's calls, with `c` CDM polls and `p` TOP polls:
      the CDM reset command, its polls, its final read, then the same for TOP,
      then the GDSC tail. Every poll of a domain lies between that domain's
      reset command and its final read. */
  predicate ResetLaidOut(t: seq<Call>, c: nat, p: nat) {
    && |t| == c + p + 4 + |GdscTail|
    && t[0] == ResetWrite(Cdm, CdmResetCmd)
    && (forall i | 0 < i <= c :: t[i] == IrqPoll(Cdm))
    && t[c + 1] == IrqRead(Cdm)
    && t[c + 2] == ResetWrite(Top, TopResetCmd)
    && (forall i | c + 2 < i < c + p + 3 :: t[i] == IrqPoll(Top))
    && t[c + p + 3] == IrqRead(Top)
    && t[c + p + 4..] == GdscTail
  }

  lemma ResetTraceLayout(c: nat, p: nat)
    ensures ResetLaidOut(ResetTrace(c, p), c, p)
  {
    var dc := DomainTrace(Cdm, CdmResetCmd, c);
    var dt := DomainTrace(Top, TopResetCmd, p);
    var t := ResetTrace(c, p);
    assert t == dc + dt + GdscTail;
    forall i | 0 < i <= c
      ensures t[i] == IrqPoll(Cdm)
    {
      assert t[i] == dc[i] == Repeat(IrqPoll(Cdm), c)[i - 1];
    }
    forall i | c + 2 < i < c + p + 3
      ensures t[i] == IrqPoll(Top)
    {
      assert t[i] == dt[i - (c + 2)] == Repeat(IrqPoll(Top), p)[i - (c + 3)];
    }
    assert t[c + 1] == dc[c + 1];
    assert t[c + 2] == dt[0];
    assert t[c + p + 3] == dt[p + 1];
    assert t[c + p + 4..] == GdscTail;
  }

  lemma ResetTracePolls(cdmPolls: nat, topPolls: nat)
    ensures Polls(ResetTrace(cdmPolls, topPolls), Cdm) == cdmPolls
    ensures Polls(ResetTrace(cdmPolls, topPolls), Top) == topPolls
  {
    DomainTracePolls(Cdm, CdmResetCmd, cdmPolls);
    DomainTracePolls(Top, TopResetCmd, topPolls);
    var dc := DomainTrace(Cdm, CdmResetCmd, cdmPolls);
    var dt := DomainTrace(Top, TopResetCmd, topPolls);
    assert multiset(ResetTrace(cdmPolls, topPolls)) == multiset(dc) + multiset(dt) + multiset(GdscTail);
  }

  lemma DomainTracePolls(d: Domain, cmd: bv32, polls: nat)
    ensures multiset(DomainTrace(d, cmd, polls))[IrqPoll(Cdm)] == if d == Cdm then polls else 0
    ensures multiset(DomainTrace(d, cmd, polls))[IrqPoll(Top)] == if d == Top then polls else 0
  {
    RepeatCount(IrqPoll(d), IrqPoll(Cdm), polls);
    RepeatCount(IrqPoll(d), IrqPoll(Top), polls);
    assert multiset(DomainTrace(d, cmd, polls))
        == multiset([ResetWrite(d, cmd)]) + multiset(Repeat(IrqPoll(d), polls)) + multiset([IrqRead(d)]);
  }

  lemma ResetTraceQuiet(cdmPolls: nat, topPolls: nat)
    ensures Quiet(ResetTrace(cdmPolls, topPolls))
  {
    DomainTraceQuiet(Cdm, CdmResetCmd, cdmPolls);
    DomainTraceQuiet(Top, TopResetCmd, topPolls);
    QuietAppend(DomainTrace(Cdm, CdmResetCmd, cdmPolls), DomainTrace(Top, TopResetCmd, topPolls));
    QuietAppend(DomainTrace(Cdm, CdmResetCmd, cdmPolls) + DomainTrace(Top, TopResetCmd, topPolls), GdscTail);
  }

  lemma DomainTraceQuiet(d: Domain, cmd: bv32, polls: nat)
    ensures Quiet(DomainTrace(d, cmd, polls))
  {
    QuietAppend([ResetWrite(d, cmd)], Repeat(IrqPoll(d), polls));
    QuietAppend([ResetWrite(d, cmd)] + Repeat(IrqPoll(d), polls), [IrqRead(d)]);
  }

  /** One `while (retry_cnt < HFI_MAX_POLL_TRY)` loop of domain `d` as the
      driver writes it, with its `break`; it polls exactly as `PollLoop` says. */
  method PollDomain(m: Masks, d: Domain, poll: nat -> bv16, retryIn: nat)
    returns (retryCnt: nat, polls: nat, calls: seq<Call>)
    requires retryIn <= MaxPollTry
    ensures retryCnt == PollLoop(m, poll, 0, retryIn).retry
    ensures polls == PollLoop(m, poll, 0, retryIn).polls
    ensures calls == Repeat(IrqPoll(d), polls)
  {
    ghost var run := PollLoop(m, poll, 0, retryIn);
    retryCnt := retryIn;
    polls := 0;
    calls := [];
    while retryCnt < MaxPollTry
      invariant retryCnt <= MaxPollTry
      invariant PollLoop(m, poll, polls, retryCnt) == run
      invariant calls == Repeat(IrqPoll(d), polls)
      decreases MaxPollTry - retryCnt
    {
      var status: bv32 := poll(polls) as bv32;
      calls := calls + [IrqPoll(d)];
      polls := polls + 1;
      if ResetDone(m, status) {
        break;
      }
      retryCnt := retryCnt + 1;
    }
  }

  /** `cam_bps_cmd_reset` written with the driver's statements and flags: each
      call joins the trace where the driver makes it, and the counter is
      threaded from the CDM loop into the TOP loop; it makes exactly the calls,
      and returns exactly the code, of `ResetDomains`. */
  method ResetPolling(m: Masks, st: CoreState, obs: ResetReads) returns (rc: int, trace: seq<Call>)
    ensures rc == -EAGAIN <==> !ResetDone(m, obs.cdmFinal) || !ResetDone(m, obs.topFinal)
    ensures rc == 0 <==> ResetDone(m, obs.cdmFinal) && ResetDone(m, obs.topFinal)
    ensures Step(st, rc, trace) == ResetDomains(m, st, obs)
  {
    var retryCnt: nat := 0;
    var status: bv32;
    var cdmFail := false;
    var topFail := false;

    var cdmPolls: nat, cdmCalls, topPolls: nat, topCalls;
    trace := [ResetWrite(Cdm, CdmResetCmd)];
    retryCnt, cdmPolls, cdmCalls := PollDomain(m, Cdm, obs.cdmPoll, retryCnt);
    trace := trace + cdmCalls + [IrqRead(Cdm)];
    status := obs.cdmFinal;
    if !ResetDone(m, status) {
      cdmFail := true;
    }

    trace := trace + [ResetWrite(Top, TopResetCmd)];
    retryCnt, topPolls, topCalls := PollDomain(m, Top, obs.topPoll, retryCnt);
    trace := trace + topCalls + [IrqRead(Top)];
    status := obs.topFinal;
    if !ResetDone(m, status) {
      topFail := true;
    }

    trace := trace + GdscTail;
    assert trace == ResetTrace(cdmPolls, topPolls);
    rc := 0;
    if cdmFail || topFail {
      rc := -EAGAIN;
    }
  }

  /** Every failing poll in front of a loop's exit costs one unit of the counter. */
  lemma {:induction false} FailedPollsCount(m: Masks, poll: nat -> bv16, k: nat, retry: nat, n: nat)
    requires retry + n <= MaxPollTry
    requires forall j | k <= j < k + n :: !PollDone(m, poll, j)
    ensures PollLoop(m, poll, k, retry).retry >= retry + n
    decreases n
  {
    if n > 0 {
      assert !PollDone(m, poll, k);
      FailedPollsCount(m, poll, k + 1, retry + 1, n - 1);
    }
  }

  /** The budget is shared: when the first `n` CDM polls fail, TOP is left at
      most `HFI_MAX_POLL_TRY - n` polls, and none at all when CDM used all five. */
  lemma SharedBudget(m: Masks, st: CoreState, obs: ResetReads, n: nat)
    requires n <= MaxPollTry
    requires forall j | 0 <= j < n :: !PollDone(m, obs.cdmPoll, j)
    ensures Polls(ResetDomains(m, st, obs).trace, Top) <= MaxPollTry - n
    ensures n == MaxPollTry ==> Polls(ResetDomains(m, st, obs).trace, Top) == 0
  {
    var cdm := CdmRun(m, obs);
    var top := TopRun(m, obs);
    FailedPollsCount(m, obs.cdmPoll, 0, 0, n);
    ResetTracePolls(cdm.polls, top.polls);
  }

  /** Six polls in all are possible: a successful poll does not count, so a CDM
      that succeeds at once leaves TOP the whole budget of five. */
  lemma SixPollsReachable(m: Masks, st: CoreState, obs: ResetReads)
    requires PollDone(m, obs.cdmPoll, 0)
    requires forall j | 0 <= j < MaxPollTry :: !PollDone(m, obs.topPoll, j)
    ensures Polls(ResetDomains(m, st, obs).trace, Cdm) == 1
    ensures Polls(ResetDomains(m, st, obs).trace, Top) == MaxPollTry
  {
    assert CdmRun(m, obs) == PollRun(0, 1, true);
    FailedPollsCount(m, obs.topPoll, 0, 0, MaxPollTry);
    ResetTracePolls(CdmRun(m, obs).polls, TopRun(m, obs).polls);
  }

  /** CDM confirms on its third poll and TOP never does: TOP is still reset,
      but polled only three times (the two failed CDM polls count against
      it), and the result is -EAGAIN. */
  lemma CdmThirdTopNever(m: Masks, st: CoreState, obs: ResetReads)
    requires !PollDone(m, obs.cdmPoll, 0) && !PollDone(m, obs.cdmPoll, 1) && PollDone(m, obs.cdmPoll, 2)
    requires forall j | 0 <= j < MaxPollTry :: !PollDone(m, obs.topPoll, j)
    requires !ResetDone(m, obs.topFinal)
    ensures var r := ResetDomains(m, st, obs);
            && ResetWrite(Top, TopResetCmd) in r.trace
            && Polls(r.trace, Cdm) == 3 && Polls(r.trace, Top) == 3
            && r.rc == -EAGAIN
  {
    assert PollLoop(m, obs.cdmPoll, 2, 2) == PollRun(2, 3, true);
    assert PollLoop(m, obs.cdmPoll, 1, 1) == PollRun(2, 3, true);
    assert CdmRun(m, obs) == PollRun(2, 3, true);
    FailedPollsCount(m, obs.topPoll, 0, 2, 3);
    ResetTracePolls(CdmRun(m, obs).polls, TopRun(m, obs).polls);
  }

  /** The two scenarios above can happen: concrete hardware answers meet
      their conditions. */
  lemma ScenariosReachable()
    ensures var m := Masks(0, 1);
            var obs := ResetReads(k => if k == 2 then 1 else 0, 1, _ => 0, 0);
            && !PollDone(m, obs.cdmPoll, 0) && !PollDone(m, obs.cdmPoll, 1) && PollDone(m, obs.cdmPoll, 2)
            && (forall j: nat :: !PollDone(m, obs.topPoll, j))
            && !ResetDone(m, obs.topFinal)
    ensures var m := Masks(0, 1);
            var obs := ResetReads(_ => 1, 1, _ => 0, 0);
            PollDone(m, obs.cdmPoll, 0) && forall j: nat :: !PollDone(m, obs.topPoll, j)
  {
  }

  /** Both domains confirm on their first poll: one poll each, result 0. */
  lemma BothConfirmAtOnce(m: Masks, st: CoreState, obs: ResetReads)
    requires PollDone(m, obs.cdmPoll, 0) && PollDone(m, obs.topPoll, 0)
    requires ResetDone(m, obs.cdmFinal) && ResetDone(m, obs.topFinal)
    ensures Polls(ResetDomains(m, st, obs).trace, Cdm) == 1
    ensures Polls(ResetDomains(m, st, obs).trace, Top) == 1
    ensures ResetDomains(m, st, obs).rc == 0
  {
    var cdm := CdmRun(m, obs);
    var top := TopRun(m, obs);
    ResetTracePolls(cdm.polls, top.polls);
  }
}
