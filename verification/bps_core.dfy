/** The BPS core entry points: bus voting, hardware init and deinit, and the
    command dispatcher `cam_bps_process_cmd` with its clock commands. Locking
    is left out: commands are applied one at a time. */
module BpsCore {
  import opened BpsTypes
  import opened BpsTrace
  import opened BpsPower
  import opened BpsReset

  /** `cam_bps_cpas_vote`: apply the AHB vote if valid, then the AXI vote if
      valid. The AXI result overwrites the AHB result. */
  function CpasVote(st: CoreState, vote: VoteRequest, env: Env): (r: Step)
    ensures r.st == st
    ensures vote.ahbValid <==> AhbVoteUpdate(vote.ahb) in r.trace
    ensures vote.axiValid <==> AxiVoteUpdate(vote.axi) in r.trace
    ensures |r.trace| == (if vote.ahbValid then 1 else 0) + (if vote.axiValid then 1 else 0)
    ensures vote.ahbValid && vote.axiValid ==> r.trace == [AhbVoteUpdate(vote.ahb), AxiVoteUpdate(vote.axi)]
    ensures vote.axiValid ==> r.rc == env.axiVoteRc
    ensures !vote.axiValid && vote.ahbValid ==> r.rc == env.ahbVoteRc
    ensures !vote.axiValid && !vote.ahbValid ==> r.rc == 0
  {
    var ahb := if vote.ahbValid then [AhbVoteUpdate(vote.ahb)] else [];
    var axi := if vote.axiValid then [AxiVoteUpdate(vote.axi)] else [];
    var rc := if vote.axiValid then env.axiVoteRc else if vote.ahbValid then env.ahbVoteRc else 0;
    Step(st, rc, ahb + axi)
  }

  /** CPAS_START: start the session unless the flag says it is running; the
      flag is set whether or not the start succeeded. */
  function CpasStartOnce(st: CoreState, vote: VoteRequest, env: Env): (r: Step)
    ensures r.st == st.(cpasStart := true)
    ensures st.cpasStart ==> r.rc == 0 && r.trace == []
    ensures !st.cpasStart ==> r.rc == env.cpasStartRc && r.trace == [SessionStart(vote.ahb, vote.axi)]
  {
    if st.cpasStart then Step(st, 0, [])
    else Step(st.(cpasStart := true), env.cpasStartRc, [SessionStart(vote.ahb, vote.axi)])
  }

  /** CPAS_STOP: stop the session only if the flag says it is running; the
      flag is cleared and the stop result ignored. */
  function CpasStopIfStarted(st: CoreState): (r: Step)
    ensures r.st == st.(cpasStart := false)
    ensures r.rc == 0
    ensures SessionStop in r.trace <==> st.cpasStart
    ensures |r.trace| <= 1
    ensures !st.cpasStart ==> r.trace == []
  {
    Step(st.(cpasStart := false), 0, if st.cpasStart then [SessionStop] else [])
  }

  /** The clock-on sequence of UPDATE_CLK when power collapse is allowed:
      collapse, clear `pwr_ctrl`, switch the clock on, resume. The clock flag
      is set only when switching on succeeded. */
  function PcClockOn(m: Masks, st: CoreState, env: Env): (r: Step)
    ensures r.st.cpasStart == st.cpasStart
    ensures r.st.clkEnable == (env.clkEnableRc == 0)
    ensures r.st.pwrCtrl == ResumeValue && !Collapsed(m, r.st.pwrCtrl)
    ensures PwrCtrlWrites(r.trace) == (if Collapsed(m, st.pwrCtrl) then [] else [CollapseValue]) + [ResumeValue]
    ensures InOrder([GdscGetControl, RegWrite(PwrCtrl, ResumeValue), ClkToggle(true), GdscTransfer], r.trace)
    ensures ClockOnOnly(r.trace, Collapsed(m, st.pwrCtrl))
  {
    var pc := HandlePc(m, st);
    var clear := [RegWrite(PwrCtrl, ResumeValue), ClkToggle(true)];
    var on := pc.st.(pwrCtrl := ResumeValue, clkEnable := env.clkEnableRc == 0);
    assert !Collapsed(m, on.pwrCtrl);
    var res := HandleResume(m, on, env);
    PcClockOnWrites(pc.trace, clear, res.trace);
    PcClockOnOrder(pc.trace, clear, res.trace);
    PcClockOnCalls(pc.trace, clear, res.trace);
    Step(res.st, res.rc, pc.trace + clear + res.trace)
  }

  lemma PcClockOnWrites(pc: seq<Call>, clear: seq<Call>, res: seq<Call>)
    requires clear == [RegWrite(PwrCtrl, ResumeValue), ClkToggle(true)]
    requires PwrCtrlWrites(res) == []
    ensures PwrCtrlWrites(pc + clear + res) == PwrCtrlWrites(pc) + [ResumeValue]
  {
    NoPwrCtrlWrites([ClkToggle(true)]);
    PwrCtrlWritesAppend([RegWrite(PwrCtrl, ResumeValue)], [ClkToggle(true)]);
    assert PwrCtrlWrites(clear) == [ResumeValue];
    PwrCtrlWritesAppend(pc, clear);
    PwrCtrlWritesAppend(pc + clear, res);
  }

  lemma PcClockOnOrder(pc: seq<Call>, clear: seq<Call>, res: seq<Call>)
    requires GdscGetControl in pc && GdscTransfer in res
    requires clear == [RegWrite(PwrCtrl, ResumeValue), ClkToggle(true)]
    ensures InOrder([GdscGetControl, RegWrite(PwrCtrl, ResumeValue), ClkToggle(true), GdscTransfer], pc + clear + res)
  {
    InOrderSingle(GdscGetControl, pc);
    InOrderSingle(GdscTransfer, res);
    InOrderSingle(ClkToggle(true), [ClkToggle(true)]);
    InOrderCons([ClkToggle(true)], RegWrite(PwrCtrl, ResumeValue), [ClkToggle(true)]);
    assert InOrder(clear, clear);
    InOrderAppend([GdscGetControl], pc, clear, clear);
    InOrderAppend([GdscGetControl] + clear, pc + clear, [GdscTransfer], res);
    assert [GdscGetControl] + clear + [GdscTransfer]
        == [GdscGetControl, RegWrite(PwrCtrl, ResumeValue), ClkToggle(true), GdscTransfer];
  }

  /** The calls of the clock-on sequence and nothing else: the four or six
      calls of collapse (`collapsed` says whether the bit was already set),
      the clear, one clock-on, and the four calls of a resume that finds the
      bit clear. */
  predicate ClockOnOnly(t: seq<Call>, collapsed: bool) {
    && |t| == (if collapsed then 10 else 12)
    && Count(t, ClkToggle(true)) == 1
    && forall c | c in t :: ClockOnCall(c)
  }

  /** Collapse calls, the clear and the clock-on, then resume calls: only
      clock-on kinds of call, and exactly one clock-on. */
  lemma PcClockOnCalls(pc: seq<Call>, clear: seq<Call>, res: seq<Call>)
    requires clear == [RegWrite(PwrCtrl, ResumeValue), ClkToggle(true)]
    requires forall c | c in pc :: PcCall(c)
    requires forall c | c in res :: ResumeCall(c)
    ensures Count(pc + clear + res, ClkToggle(true)) == 1
    ensures forall c | c in pc + clear + res :: ClockOnCall(c)
  {
    assert !PcCall(ClkToggle(true)) && !ResumeCall(ClkToggle(true));
    CountAbsent(pc, ClkToggle(true));
    CountAbsent(res, ClkToggle(true));
    CountAppend(pc, clear, ClkToggle(true));
    CountAppend(pc + clear, res, ClkToggle(true));
    assert clear[1..] == [ClkToggle(true)] && clear[1..][1..] == [];
    assert Count(clear[1..], ClkToggle(true)) == 1 + Count(clear[1..][1..], ClkToggle(true));
    assert Count(clear, ClkToggle(true)) == 1;
  }

  /** UPDATE_CLK from a stopped clock with power collapse allowed makes the
      clock-on sequence's calls and the rate update, and switches the clock on
      exactly once. */
  lemma UpdateClkCalls(m: Masks, st: CoreState, upd: ClkUpdate, env: Env)
    requires !st.clkEnable && upd.pcEnable
    ensures var t := UpdateClk(m, st, upd, env).trace;
            && |t| == (if Collapsed(m, st.pwrCtrl) then 11 else 13)
            && Count(t, ClkToggle(true)) == 1
            && forall c | c in t :: ClockOnCall(c) || c == ClkRateUpdate(upd.currClkRate)
  {
    var on := PcClockOn(m, st, env);
    assert UpdateClk(m, st, upd, env).trace == on.trace + [ClkRateUpdate(upd.currClkRate)];
    ClockOnThenRateCalls(on.trace, Collapsed(m, st.pwrCtrl), upd.currClkRate);
  }

  lemma ClockOnThenRateCalls(t: seq<Call>, collapsed: bool, rate: bv32)
    requires ClockOnOnly(t, collapsed)
    ensures |t + [ClkRateUpdate(rate)]| == (if collapsed then 11 else 13)
    ensures Count(t + [ClkRateUpdate(rate)], ClkToggle(true)) == 1
    ensures forall c | c in t + [ClkRateUpdate(rate)] :: ClockOnCall(c) || c == ClkRateUpdate(rate)
  {
    CountAppend(t, [ClkRateUpdate(rate)], ClkToggle(true));
    assert [ClkRateUpdate(rate)][1..] == [];
  }

  /** UPDATE_CLK. With the clock off: collapse and clear `pwr_ctrl` (when the
      update allows power collapse), switch the clock on, resume (likewise);
      in every case finish with the rate update, whose result is returned. */
  function UpdateClk(m: Masks, st: CoreState, upd: ClkUpdate, env: Env): (r: Step)
    ensures r.rc == env.clkRateRc
    ensures r.st.cpasStart == st.cpasStart
    ensures r.st.clkEnable == (st.clkEnable || env.clkEnableRc == 0)
    ensures |r.trace| > 0 && r.trace[|r.trace| - 1] == ClkRateUpdate(upd.currClkRate)
    ensures st.clkEnable ==> r.st == st && r.trace == [ClkRateUpdate(upd.currClkRate)]
    ensures !st.clkEnable ==> ClkToggle(true) in r.trace
    ensures !st.clkEnable && !upd.pcEnable ==> r.trace == [ClkToggle(true), ClkRateUpdate(upd.currClkRate)]
    ensures !st.clkEnable && upd.pcEnable ==> r.st.pwrCtrl == ResumeValue && !Collapsed(m, r.st.pwrCtrl)
    ensures !st.clkEnable && upd.pcEnable ==>
              PwrCtrlWrites(r.trace) == (if Collapsed(m, st.pwrCtrl) then [] else [CollapseValue]) + [ResumeValue]
    ensures !st.clkEnable && upd.pcEnable ==>
              InOrder([GdscGetControl, RegWrite(PwrCtrl, ResumeValue), ClkToggle(true), GdscTransfer,
                       ClkRateUpdate(upd.currClkRate)], r.trace)
    ensures r.st.pwrCtrl == PwrCtrlAfter(st.pwrCtrl, r.trace)
  {
    var rate := [ClkRateUpdate(upd.currClkRate)];
    if st.clkEnable then
      NoPwrCtrlWrites(rate);
      assert PwrCtrlAfter(st.pwrCtrl, rate) == st.pwrCtrl;
      Step(st, env.clkRateRc, rate)
    else if !upd.pcEnable then
      NoPwrCtrlWrites([ClkToggle(true)] + rate);
      assert PwrCtrlAfter(st.pwrCtrl, [ClkToggle(true)] + rate) == st.pwrCtrl;
      Step(st.(clkEnable := env.clkEnableRc == 0), env.clkRateRc, [ClkToggle(true)] + rate)
    else
      var on := PcClockOn(m, st, env);
      PcClockOnThenRate(m, st, upd, env);
      Step(on.st, env.clkRateRc, on.trace + rate)
  }

  /** The clock-on sequence followed by the rate update keeps the writes and
      the order of the sequence, and ends with the rate update. */
  lemma PcClockOnThenRate(m: Masks, st: CoreState, upd: ClkUpdate, env: Env)
    ensures var t := PcClockOn(m, st, env).trace + [ClkRateUpdate(upd.currClkRate)];
            && PwrCtrlWrites(t) == (if Collapsed(m, st.pwrCtrl) then [] else [CollapseValue]) + [ResumeValue]
            && InOrder([GdscGetControl, RegWrite(PwrCtrl, ResumeValue), ClkToggle(true), GdscTransfer,
                        ClkRateUpdate(upd.currClkRate)], t)
            && ClkToggle(true) in t
            && PwrCtrlAfter(st.pwrCtrl, t) == ResumeValue
  {
    var on := PcClockOn(m, st, env);
    PcClockOnThenRateWrites(m, st, on.trace, upd.currClkRate);
    PcClockOnThenRateOrder(on.trace, upd.currClkRate);
  }

  lemma PcClockOnThenRateWrites(m: Masks, st: CoreState, on: seq<Call>, rate: bv32)
    requires PwrCtrlWrites(on) == (if Collapsed(m, st.pwrCtrl) then [] else [CollapseValue]) + [ResumeValue]
    ensures PwrCtrlWrites(on + [ClkRateUpdate(rate)]) == PwrCtrlWrites(on)
    ensures PwrCtrlAfter(st.pwrCtrl, on + [ClkRateUpdate(rate)]) == ResumeValue
  {
    NoPwrCtrlWrites([ClkRateUpdate(rate)]);
    PwrCtrlWritesAppend(on, [ClkRateUpdate(rate)]);
  }

  lemma PcClockOnThenRateOrder(on: seq<Call>, rate: bv32)
    requires InOrder([GdscGetControl, RegWrite(PwrCtrl, ResumeValue), ClkToggle(true), GdscTransfer], on)
    ensures InOrder([GdscGetControl, RegWrite(PwrCtrl, ResumeValue), ClkToggle(true), GdscTransfer,
                     ClkRateUpdate(rate)], on + [ClkRateUpdate(rate)])
    ensures ClkToggle(true) in on + [ClkRateUpdate(rate)]
  {
    var order := [GdscGetControl, RegWrite(PwrCtrl, ResumeValue), ClkToggle(true), GdscTransfer];
    var tail := [ClkRateUpdate(rate)];
    InOrderSingle(tail[0], tail);
    InOrderAppend(order, on, tail, tail);
    assert order + tail == [GdscGetControl, RegWrite(PwrCtrl, ResumeValue), ClkToggle(true), GdscTransfer,
                            ClkRateUpdate(rate)];
    InOrderMember(ClkToggle(true), order, on);
  }

  /** DISABLE_CLK: switch the clock off if the flag says it is on; the flag
      ends up clear in every case and the command never fails. */
  function DisableClk(st: CoreState): (r: Step)
    ensures r.st == st.(clkEnable := false)
    ensures r.rc == 0
    ensures ClkToggle(false) in r.trace <==> st.clkEnable
    ensures |r.trace| <= 1
    ensures !st.clkEnable ==> r.trace == []
  {
    Step(st.(clkEnable := false), 0, if st.clkEnable then [ClkToggle(false)] else [])
  }

  /** `cam_bps_init_hw`: start the bus-voting session with the fixed SVS vote,
      then enable the SOC resources; when those fail, stop the session again. */
  function InitHw(dev: DeviceRef, env: Env): (r: Reply)
    ensures !dev.Dev? ==> r == Reply(dev, -EINVAL, [])
    ensures dev.Dev? ==> r.dev.Dev? && r.dev.core.pwrCtrl == dev.core.pwrCtrl
    ensures dev.Dev? ==> |r.trace| > 0 && r.trace[0] == SessionStart(InitAhbVote, InitAxiVote)
    ensures dev.Dev? ==> (SocEnable in r.trace <==> env.cpasStartRc == 0)
    ensures dev.Dev? && env.cpasStartRc == 0 ==> |r.trace| >= 2 && r.trace[1] == SocEnable
    ensures dev.Dev? && env.cpasStartRc == 0 ==> |r.trace| == (if env.socEnableRc == 0 then 2 else 3)
    ensures dev.Dev? && env.cpasStartRc != 0 ==>
              r.rc == env.cpasStartRc && r.dev == dev && r.trace == [SessionStart(InitAhbVote, InitAxiVote)]
    ensures dev.Dev? && env.cpasStartRc == 0 && env.socEnableRc != 0 ==>
              && r.rc == env.socEnableRc
              && r.dev.core.clkEnable == dev.core.clkEnable
              && SessionStop in r.trace
              && (r.dev.core.cpasStart <==> env.cpasStopRc != 0)
    ensures dev.Dev? && env.cpasStartRc == 0 && env.socEnableRc == 0 ==>
              r.rc == 0 && r.dev.core.cpasStart && r.dev.core.clkEnable && SessionStop !in r.trace
  {
    match dev
    case Null => Reply(dev, -EINVAL, [])
    case NoCore => Reply(dev, -EINVAL, [])
    case Dev(st) =>
      var start := SessionStart(InitAhbVote, InitAxiVote);
      if env.cpasStartRc != 0 then
        Reply(dev, env.cpasStartRc, [start])
      else if env.socEnableRc != 0 then
        Reply(Dev(st.(cpasStart := env.cpasStopRc != 0)), env.socEnableRc, [start, SocEnable, SessionStop])
      else
        Reply(Dev(st.(cpasStart := true, clkEnable := true)), 0, [start, SocEnable])
  }

  /** `cam_bps_deinit_hw`: disable the SOC resources, clear the clock flag,
      and stop the session if the flag says it runs; the flag is cleared
      only when the stop succeeds. The result is the disable's. */
  function DeinitHw(dev: DeviceRef, env: Env): (r: Reply)
    ensures !dev.Dev? ==> r == Reply(dev, -EINVAL, [])
    ensures dev.Dev? ==> r.dev.Dev? && r.dev.core.pwrCtrl == dev.core.pwrCtrl
    ensures dev.Dev? ==> r.rc == env.socDisableRc && !r.dev.core.clkEnable
    ensures dev.Dev? ==> (r.dev.core.cpasStart <==> dev.core.cpasStart && env.cpasStopRc != 0)
    ensures dev.Dev? ==> |r.trace| > 0 && r.trace[0] == SocDisable(dev.core.clkEnable)
    ensures dev.Dev? ==> (SessionStop in r.trace <==> dev.core.cpasStart)
    ensures dev.Dev? ==> |r.trace| == (if dev.core.cpasStart then 2 else 1)
  {
    match dev
    case Null => Reply(dev, -EINVAL, [])
    case NoCore => Reply(dev, -EINVAL, [])
    case Dev(st) =>
      var stop := if st.cpasStart then [SessionStop] else [];
      var st' := st.(clkEnable := false, cpasStart := st.cpasStart && env.cpasStopRc != 0);
      Reply(Dev(st'), env.socDisableRc, [SocDisable(st.clkEnable)] + stop)
  }

  /** The commands `cam_bps_process_cmd` handles. */
  datatype Cmd =
    | CmdVoteCpas | CmdCpasStart | CmdCpasStop | CmdPowerCollapse
    | CmdPowerResume | CmdUpdateClk | CmdDisableClk | CmdReset

  /** `enum cam_icp_bps_cmd_type`: the code of each case of the switch and
      `CAM_ICP_BPS_CMD_MAX`. The header that fixes them is not part of this
      model, so the numbering is a parameter; codes below the maximum that no
      case names reach the `default` arm. */
  datatype Numbering = Numbering(code: Cmd -> nat, max: nat)

  /** Enumerators are distinct and lie below `CAM_ICP_BPS_CMD_MAX`. */
  predicate ValidNumbering(n: Numbering) {
    && (forall c: Cmd :: n.code(c) < n.max)
    && (forall c1: Cmd, c2: Cmd :: c1 != c2 ==> n.code(c1) != n.code(c2))
  }

  /** What the range check and the switch make of a command code. */
  datatype Decoded = OutOfRange | NoCase | Case(cmd: Cmd)

  /** The range check, then the switch's cases in order, then `default`. */
  function DecodeCmd(n: Numbering, code: nat): (r: Decoded)
    ensures r.OutOfRange? <==> code >= n.max
    ensures r.Case? ==> n.code(r.cmd) == code
    ensures r.NoCase? ==> forall c: Cmd :: n.code(c) != code
  {
    if code >= n.max then OutOfRange
    else if code == n.code(CmdVoteCpas) then Case(CmdVoteCpas)
    else if code == n.code(CmdCpasStart) then Case(CmdCpasStart)
    else if code == n.code(CmdCpasStop) then Case(CmdCpasStop)
    else if code == n.code(CmdPowerCollapse) then Case(CmdPowerCollapse)
    else if code == n.code(CmdPowerResume) then Case(CmdPowerResume)
    else if code == n.code(CmdUpdateClk) then Case(CmdUpdateClk)
    else if code == n.code(CmdDisableClk) then Case(CmdDisableClk)
    else if code == n.code(CmdReset) then Case(CmdReset)
    else
      NoCaseNamesCode(n, code);
      NoCase
  }

  lemma NoCaseNamesCode(n: Numbering, code: nat)
    requires code != n.code(CmdVoteCpas) && code != n.code(CmdCpasStart) && code != n.code(CmdCpasStop)
    requires code != n.code(CmdPowerCollapse) && code != n.code(CmdPowerResume)
    requires code != n.code(CmdUpdateClk) && code != n.code(CmdDisableClk) && code != n.code(CmdReset)
    ensures forall c: Cmd :: n.code(c) != code
  {
    forall c: Cmd
      ensures n.code(c) != code
    {
      match c
      case CmdVoteCpas =>
      case CmdCpasStart =>
      case CmdCpasStop =>
      case CmdPowerCollapse =>
      case CmdPowerResume =>
      case CmdUpdateClk =>
      case CmdDisableClk =>
      case CmdReset =>
    }
  }

  /** Every case's own code selects that case. */
  lemma CodeDecodes(n: Numbering, c: Cmd)
    requires ValidNumbering(n)
    ensures DecodeCmd(n, n.code(c)) == Case(c)
  {
    var r := DecodeCmd(n, n.code(c));
    assert n.code(c) < n.max;
    assert r.Case? && n.code(r.cmd) == n.code(c);
  }

  /** The `cmd_args` pointer: null, a vote, or a clock update. */
  datatype Args = NoArgs | VoteArgs(vote: VoteRequest) | ClkArgs(upd: ClkUpdate)

  /** What the caller must pass: a vote (or null, which is checked) for the
      two vote commands, and a clock update for UPDATE_CLK, whose argument is
      used without a null check. */
  predicate CmdArgsFit(cmd: Cmd, args: Args) {
    match cmd
    case CmdVoteCpas => !args.ClkArgs?
    case CmdCpasStart => !args.ClkArgs?
    case CmdUpdateClk => args.ClkArgs?
    case _ => true
  }

  predicate ArgsFit(n: Numbering, code: nat, args: Args) {
    DecodeCmd(n, code).Case? ==> CmdArgsFit(DecodeCmd(n, code).cmd, args)
  }

  /** The inputs `cam_bps_process_cmd` refuses with -EINVAL without calling
      anything: a null device, a code out of range, a code no case names, and
      a null vote for the two vote commands. */
  predicate Rejected(n: Numbering, dev: DeviceRef, code: nat, args: Args) {
    || dev.Null?
    || code >= n.max
    || DecodeCmd(n, code).NoCase?
    || (DecodeCmd(n, code) in {Case(CmdVoteCpas), Case(CmdCpasStart)} && args.NoArgs?)
  }

  /** The switch of `cam_bps_process_cmd` for a command that passed the
      checks. VOTE_CPAS drops the vote's result and reports 0; every other
      case reports what its handler returned. Only commands that call
      nothing can end without a call, and those report 0. */
  function Execute(m: Masks, st: CoreState, cmd: Cmd, args: Args, env: Env): (r: Step)
    requires CmdArgsFit(cmd, args)
    requires cmd in {CmdVoteCpas, CmdCpasStart} ==> !args.NoArgs?
    ensures r.trace == [] ==> r.rc == 0
    ensures cmd == CmdVoteCpas ==> r.rc == 0
    ensures cmd == CmdCpasStart ==> r.rc == (if st.cpasStart then 0 else env.cpasStartRc)
    ensures cmd in {CmdCpasStop, CmdPowerCollapse, CmdDisableClk} ==> r.rc == 0
    ensures cmd == CmdPowerResume ==> r.rc == env.gdscTransferRc
    ensures cmd == CmdUpdateClk ==> r.rc == env.clkRateRc
    ensures cmd == CmdReset ==>
              && r.st == st
              && (r.rc == -EAGAIN <==> !ResetDone(m, env.resetReads.cdmFinal) || !ResetDone(m, env.resetReads.topFinal))
              && (r.rc == 0 <==> ResetDone(m, env.resetReads.cdmFinal) && ResetDone(m, env.resetReads.topFinal))
              && ResetWrite(Cdm, CdmResetCmd) in r.trace && ResetWrite(Top, TopResetCmd) in r.trace
  {
    match cmd
    case CmdVoteCpas =>
      var s := CpasVote(st, args.vote, env);
      Step(s.st, 0, s.trace)
    case CmdCpasStart => CpasStartOnce(st, args.vote, env)
    case CmdCpasStop => CpasStopIfStarted(st)
    case CmdPowerCollapse => HandlePc(m, st)
    case CmdPowerResume => HandleResume(m, st, env)
    case CmdUpdateClk => UpdateClk(m, st, args.upd, env)
    case CmdDisableClk => DisableClk(st)
    case CmdReset => ResetDomains(m, st, env.resetReads)
  }

  /** `cam_bps_process_cmd`. A refused input returns -EINVAL, calls nothing
      and changes nothing, and those are the only calls that end that way.
      The core info is read after the range check, so a device without one
      is only safe with a code out of range. */
  function ProcessCmd(m: Masks, n: Numbering, dev: DeviceRef, code: nat, args: Args, env: Env): (r: Reply)
    requires dev.NoCore? ==> code >= n.max
    requires dev.Dev? ==> ArgsFit(n, code, args)
    ensures Rejected(n, dev, code, args) <==> r.rc == -EINVAL && r.trace == []
    ensures Rejected(n, dev, code, args) ==> r.dev == dev
    ensures dev.Dev? <==> r.dev.Dev?
  {
    if dev.Null? then Reply(dev, -EINVAL, [])
    else if code >= n.max then Reply(dev, -EINVAL, [])
    else
      match DecodeCmd(n, code)
      case OutOfRange => Reply(dev, -EINVAL, [])
      case NoCase => Reply(dev, -EINVAL, [])
      case Case(cmd) =>
        if cmd in {CmdVoteCpas, CmdCpasStart} && args.NoArgs? then Reply(dev, -EINVAL, [])
        else
          var s := Execute(m, dev.core, cmd, args, env);
          Reply(Dev(s.st), s.rc, s.trace)
  }
}
