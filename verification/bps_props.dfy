/** Properties of the BPS core across commands: what the dispatcher refuses,
    when it starts or stops the bus-voting session, which command may change
    which flag, and that the power-control register always holds the value
    the calls last wrote to it. */
module BpsProps {
  import opened BpsTypes
  import opened BpsTrace
  import opened BpsPower
  import opened BpsReset
  import opened BpsCore

  /** VOTE_CPAS reports success whatever the voting client answered, after
      making exactly the calls of `cam_bps_cpas_vote`. */
  lemma VoteResultDiscarded(m: Masks, n: Numbering, st: CoreState, vote: VoteRequest, env: Env)
    requires ValidNumbering(n)
    ensures var r := ProcessCmd(m, n, Dev(st), n.code(CmdVoteCpas), VoteArgs(vote), env);
            r.rc == 0 && r.dev == Dev(st) && r.trace == CpasVote(st, vote, env).trace
  {
    CodeDecodes(n, CmdVoteCpas);
  }

  /** With a valid AXI vote the AHB result never reaches the caller. */
  lemma AxiOverridesAhb(st: CoreState, vote: VoteRequest, env1: Env, env2: Env)
    requires vote.axiValid && env1.axiVoteRc == env2.axiVoteRc
    ensures CpasVote(st, vote, env1).rc == CpasVote(st, vote, env2).rc
  {
  }

  /** A second CPAS_START is a no-op: no call, result 0, state kept. */
  lemma CpasStartIdempotent(m: Masks, n: Numbering, st: CoreState, vote: VoteRequest, env1: Env, env2: Env)
    requires ValidNumbering(n)
    ensures var r1 := ProcessCmd(m, n, Dev(st), n.code(CmdCpasStart), VoteArgs(vote), env1);
            && r1.dev.Dev? && r1.dev.core.cpasStart
            && ProcessCmd(m, n, r1.dev, n.code(CmdCpasStart), VoteArgs(vote), env2) == Reply(r1.dev, 0, [])
  {
    CodeDecodes(n, CmdCpasStart);
  }

  /** CPAS_START then CPAS_STOP from a stopped session: one start call, one
      stop call, and the state is back where it was, even if both failed. */
  lemma StartStopRoundTrip(m: Masks, n: Numbering, st: CoreState, vote: VoteRequest, env1: Env, env2: Env)
    requires ValidNumbering(n)
    requires !st.cpasStart
    ensures var r1 := ProcessCmd(m, n, Dev(st), n.code(CmdCpasStart), VoteArgs(vote), env1);
            var r2 := ProcessCmd(m, n, r1.dev, n.code(CmdCpasStop), NoArgs, env2);
            && r1.trace + r2.trace == [SessionStart(vote.ahb, vote.axi), SessionStop]
            && r2.dev == Dev(st) && r2.rc == 0
  {
    CodeDecodes(n, CmdCpasStart);
    CodeDecodes(n, CmdCpasStop);
  }

  /** The dispatcher starts the session only when its flag says it is
      stopped and stops it only when the flag says it runs. */
  lemma SessionCallsGuarded(m: Masks, n: Numbering, st: CoreState, code: nat, args: Args, env: Env)
    requires ArgsFit(n, code, args)
    ensures SessionGuarded(st, ProcessCmd(m, n, Dev(st), code, args, env).trace)
  {
    var d := DecodeCmd(n, code);
    if d.Case? && !(d.cmd in {CmdVoteCpas, CmdCpasStart} && args.NoArgs?) {
      ExecuteSessionGuarded(m, st, d.cmd, args, env);
    }
  }

  /** The session calls of a trace agree with the session flag before it. */
  predicate SessionGuarded(st: CoreState, t: seq<Call>) {
    && (forall i | 0 <= i < |t| :: t[i].SessionStart? ==> !st.cpasStart)
    && (SessionStop in t ==> st.cpasStart)
  }

  lemma ExecuteSessionGuarded(m: Masks, st: CoreState, cmd: Cmd, args: Args, env: Env)
    requires CmdArgsFit(cmd, args)
    requires cmd in {CmdVoteCpas, CmdCpasStart} ==> !args.NoArgs?
    ensures SessionGuarded(st, Execute(m, st, cmd, args, env).trace)
  {
    if cmd in {CmdVoteCpas, CmdCpasStart, CmdCpasStop, CmdDisableClk} {
      SessionGuardedBasic(m, st, cmd, args, env);
    } else if cmd == CmdPowerCollapse {
      SessionGuardedPc(m, st, args, env);
    } else if cmd == CmdPowerResume {
      SessionGuardedResume(m, st, args, env);
    } else if cmd == CmdUpdateClk {
      SessionGuardedUpdateClk(m, st, args, env);
    } else {
      SessionGuardedReset(m, st, args, env);
    }
  }

  lemma SessionGuardedBasic(m: Masks, st: CoreState, cmd: Cmd, args: Args, env: Env)
    requires cmd in {CmdVoteCpas, CmdCpasStart, CmdCpasStop, CmdDisableClk}
    requires CmdArgsFit(cmd, args)
    requires cmd in {CmdVoteCpas, CmdCpasStart} ==> !args.NoArgs?
    ensures SessionGuarded(st, Execute(m, st, cmd, args, env).trace)
  {
  }

  lemma SessionGuardedPc(m: Masks, st: CoreState, args: Args, env: Env)
    ensures SessionGuarded(st, Execute(m, st, CmdPowerCollapse, args, env).trace)
  {
    SessionFreePc(m, st);
    SessionFreeNoStop(HandlePc(m, st).trace);
  }

  lemma SessionGuardedResume(m: Masks, st: CoreState, args: Args, env: Env)
    ensures SessionGuarded(st, Execute(m, st, CmdPowerResume, args, env).trace)
  {
    SessionFreeResume(m, st, env);
    SessionFreeNoStop(HandleResume(m, st, env).trace);
  }

  lemma SessionGuardedUpdateClk(m: Masks, st: CoreState, args: Args, env: Env)
    requires args.ClkArgs?
    ensures SessionGuarded(st, Execute(m, st, CmdUpdateClk, args, env).trace)
  {
    SessionFreeUpdateClk(m, st, args.upd, env);
    SessionFreeNoStop(UpdateClk(m, st, args.upd, env).trace);
  }

  lemma SessionGuardedReset(m: Masks, st: CoreState, args: Args, env: Env)
    ensures SessionGuarded(st, Execute(m, st, CmdReset, args, env).trace)
  {
    var r := ResetDomains(m, st, env.resetReads);
    assert Execute(m, st, CmdReset, args, env) == r;
    QuietSessionFree(r.trace);
    SessionFreeNoStop(r.trace);
  }

  lemma SessionFreeNoStop(t: seq<Call>)
    requires SessionFree(t)
    ensures SessionStop !in t
  {
  }

  lemma SessionFreePc(m: Masks, st: CoreState)
    ensures SessionFree(HandlePc(m, st).trace)
  {
  }

  lemma SessionFreeResume(m: Masks, st: CoreState, env: Env)
    ensures SessionFree(HandleResume(m, st, env).trace)
  {
  }

  lemma SessionFreeUpdateClk(m: Masks, st: CoreState, upd: ClkUpdate, env: Env)
    ensures SessionFree(UpdateClk(m, st, upd, env).trace)
  {
    var rate := [ClkRateUpdate(upd.currClkRate)];
    assert SessionFree(rate);
    if !st.clkEnable && upd.pcEnable {
      SessionFreePcClockOn(m, st, env);
      SessionFreeAppend(PcClockOn(m, st, env).trace, rate);
    } else if !st.clkEnable {
      assert SessionFree([ClkToggle(true)] + rate);
    }
  }

  lemma SessionFreePcClockOn(m: Masks, st: CoreState, env: Env)
    ensures SessionFree(PcClockOn(m, st, env).trace)
  {
    SessionFreeClockOn(PcClockOn(m, st, env).trace);
  }

  /** The clock-on kinds of call never start or stop the session. */
  lemma SessionFreeClockOn(t: seq<Call>)
    requires forall c | c in t :: ClockOnCall(c)
    ensures SessionFree(t)
  {
    forall i | 0 <= i < |t|
      ensures !t[i].SessionStart? && !t[i].SessionStop?
    {
      assert t[i] in t;
    }
  }

  /** A code below `CAM_ICP_BPS_CMD_MAX` that no case names reaches the
      `default` arm: -EINVAL, no call, nothing changed. A device without core
      info is refused the same way when the code is out of range. */
  lemma DefaultArmRejects(m: Masks, n: Numbering, st: CoreState, code: nat, k: nat, args: Args, env: Env)
    requires code < n.max && forall c: Cmd :: n.code(c) != code
    requires k >= n.max
    ensures ProcessCmd(m, n, Dev(st), code, args, env) == Reply(Dev(st), -EINVAL, [])
    ensures ProcessCmd(m, n, NoCore, k, args, env) == Reply(NoCore, -EINVAL, [])
  {
  }

  /** A command that passes the checks gets exactly what its case of the
      switch produced: its state, its calls and its result. */
  lemma AcceptedRunsCase(m: Masks, n: Numbering, st: CoreState, cmd: Cmd, args: Args, env: Env)
    requires ValidNumbering(n)
    requires CmdArgsFit(cmd, args)
    requires cmd in {CmdVoteCpas, CmdCpasStart} ==> !args.NoArgs?
    ensures var s := Execute(m, st, cmd, args, env);
            ProcessCmd(m, n, Dev(st), n.code(cmd), args, env) == Reply(Dev(s.st), s.rc, s.trace)
  {
    CodeDecodes(n, cmd);
  }

  /** RESET through the dispatcher resets both domains and reports -EAGAIN
      exactly when a final status read lacks reset-done; the device is kept. */
  lemma ResetDispatch(m: Masks, n: Numbering, st: CoreState, args: Args, env: Env)
    requires ValidNumbering(n)
    ensures var r := ProcessCmd(m, n, Dev(st), n.code(CmdReset), args, env);
            && r.dev == Dev(st)
            && (r.rc == -EAGAIN <==> !ResetDone(m, env.resetReads.cdmFinal) || !ResetDone(m, env.resetReads.topFinal))
            && (r.rc == 0 <==> ResetDone(m, env.resetReads.cdmFinal) && ResetDone(m, env.resetReads.topFinal))
            && ResetWrite(Cdm, CdmResetCmd) in r.trace && ResetWrite(Top, TopResetCmd) in r.trace
  {
    AcceptedRunsCase(m, n, st, CmdReset, args, env);
  }

  /** Which command may change which flag: the session flag only by the two
      session commands, the clock flag only by the two clock commands, the
      power-control register only by collapse, resume and clock update. */
  lemma FlagsFrame(m: Masks, n: Numbering, st: CoreState, code: nat, args: Args, env: Env)
    requires ArgsFit(n, code, args)
    ensures var r := ProcessCmd(m, n, Dev(st), code, args, env);
            var d := DecodeCmd(n, code);
            && (r.dev.core.cpasStart != st.cpasStart ==> d in {Case(CmdCpasStart), Case(CmdCpasStop)})
            && (r.dev.core.clkEnable != st.clkEnable ==> d in {Case(CmdUpdateClk), Case(CmdDisableClk)})
            && (r.dev.core.pwrCtrl != st.pwrCtrl ==>
                  d in {Case(CmdPowerCollapse), Case(CmdPowerResume), Case(CmdUpdateClk)})
  {
    var d := DecodeCmd(n, code);
    if d.Case? && !(d.cmd in {CmdVoteCpas, CmdCpasStart} && args.NoArgs?) {
      ExecuteFlagsFrame(m, st, d.cmd, args, env);
    }
  }

  lemma ExecuteFlagsFrame(m: Masks, st: CoreState, cmd: Cmd, args: Args, env: Env)
    requires CmdArgsFit(cmd, args)
    requires cmd in {CmdVoteCpas, CmdCpasStart} ==> !args.NoArgs?
    ensures var r := Execute(m, st, cmd, args, env);
            && (r.st.cpasStart != st.cpasStart ==> cmd in {CmdCpasStart, CmdCpasStop})
            && (r.st.clkEnable != st.clkEnable ==> cmd in {CmdUpdateClk, CmdDisableClk})
            && (r.st.pwrCtrl != st.pwrCtrl ==> cmd in {CmdPowerCollapse, CmdPowerResume, CmdUpdateClk})
  {
    if cmd == CmdVoteCpas {
      assert Execute(m, st, cmd, args, env).st == CpasVote(st, args.vote, env).st;
    } else if cmd == CmdCpasStart {
      assert Execute(m, st, cmd, args, env) == CpasStartOnce(st, args.vote, env);
    } else if cmd == CmdCpasStop {
      assert Execute(m, st, cmd, args, env) == CpasStopIfStarted(st);
    } else if cmd == CmdDisableClk {
      assert Execute(m, st, cmd, args, env) == DisableClk(st);
    } else if cmd == CmdReset {
      assert Execute(m, st, cmd, args, env) == ResetDomains(m, st, env.resetReads);
    } else if cmd == CmdPowerCollapse {
      assert Execute(m, st, cmd, args, env) == HandlePc(m, st);
    } else if cmd == CmdPowerResume {
      assert Execute(m, st, cmd, args, env) == HandleResume(m, st, env);
    } else {
      assert Execute(m, st, cmd, args, env) == UpdateClk(m, st, args.upd, env);
    }
  }

  /** The clock flag is raised only by a clock-on call that succeeded. */
  lemma ClockFlagSound(m: Masks, n: Numbering, st: CoreState, code: nat, args: Args, env: Env)
    requires ArgsFit(n, code, args)
    requires !st.clkEnable
    ensures var r := ProcessCmd(m, n, Dev(st), code, args, env);
            r.dev.core.clkEnable ==> ClkToggle(true) in r.trace && env.clkEnableRc == 0
  {
    var d := DecodeCmd(n, code);
    if d.Case? && !(d.cmd in {CmdVoteCpas, CmdCpasStart} && args.NoArgs?) {
      var s := Execute(m, st, d.cmd, args, env);
      assert ProcessCmd(m, n, Dev(st), code, args, env) == Reply(Dev(s.st), s.rc, s.trace);
      ExecuteClockFlagSound(m, st, d.cmd, args, env);
    } else {
      assert Rejected(n, Dev(st), code, args);
    }
  }

  lemma ExecuteClockFlagSound(m: Masks, st: CoreState, cmd: Cmd, args: Args, env: Env)
    requires CmdArgsFit(cmd, args)
    requires cmd in {CmdVoteCpas, CmdCpasStart} ==> !args.NoArgs?
    requires !st.clkEnable
    ensures var r := Execute(m, st, cmd, args, env);
            r.st.clkEnable ==> ClkToggle(true) in r.trace && env.clkEnableRc == 0
  {
    ExecuteFlagsFrame(m, st, cmd, args, env);
    if cmd == CmdUpdateClk {
      assert Execute(m, st, cmd, args, env) == UpdateClk(m, st, args.upd, env);
    } else if cmd == CmdDisableClk {
      assert Execute(m, st, cmd, args, env) == DisableClk(st);
    }
  }

  /** Whatever the command, the power-control register afterwards holds the
      last value the command wrote to it, or its old value if it wrote none. */
  lemma PwrCtrlFollowsWrites(m: Masks, n: Numbering, st: CoreState, code: nat, args: Args, env: Env)
    requires ArgsFit(n, code, args)
    ensures var r := ProcessCmd(m, n, Dev(st), code, args, env);
            r.dev.core.pwrCtrl == PwrCtrlAfter(st.pwrCtrl, r.trace)
  {
    var d := DecodeCmd(n, code);
    if d.Case? && !(d.cmd in {CmdVoteCpas, CmdCpasStart} && args.NoArgs?) {
      var s := Execute(m, st, d.cmd, args, env);
      assert ProcessCmd(m, n, Dev(st), code, args, env) == Reply(Dev(s.st), s.rc, s.trace);
      ExecutePwrCtrlFollowsWrites(m, st, d.cmd, args, env);
    } else {
      assert Rejected(n, Dev(st), code, args);
      NoPwrCtrlWrites([]);
    }
  }

  lemma ExecutePwrCtrlFollowsWrites(m: Masks, st: CoreState, cmd: Cmd, args: Args, env: Env)
    requires CmdArgsFit(cmd, args)
    requires cmd in {CmdVoteCpas, CmdCpasStart} ==> !args.NoArgs?
    ensures var r := Execute(m, st, cmd, args, env);
            r.st.pwrCtrl == PwrCtrlAfter(st.pwrCtrl, r.trace)
  {
    if cmd in {CmdVoteCpas, CmdCpasStart, CmdCpasStop, CmdDisableClk} {
      PwrCtrlBasic(m, st, cmd, args, env);
    } else if cmd == CmdReset {
      var r := ResetDomains(m, st, env.resetReads);
      assert Execute(m, st, cmd, args, env) == r;
      QuietWritesNothing(r.trace);
    } else if cmd == CmdPowerCollapse {
      assert Execute(m, st, cmd, args, env) == HandlePc(m, st);
    } else if cmd == CmdPowerResume {
      assert Execute(m, st, cmd, args, env) == HandleResume(m, st, env);
    } else {
      assert Execute(m, st, cmd, args, env) == UpdateClk(m, st, args.upd, env);
    }
  }

  /** The vote, session and clock-off commands write no register. */
  lemma PwrCtrlBasic(m: Masks, st: CoreState, cmd: Cmd, args: Args, env: Env)
    requires cmd in {CmdVoteCpas, CmdCpasStart, CmdCpasStop, CmdDisableClk}
    requires CmdArgsFit(cmd, args)
    requires cmd in {CmdVoteCpas, CmdCpasStart} ==> !args.NoArgs?
    ensures var r := Execute(m, st, cmd, args, env);
            r.st.pwrCtrl == st.pwrCtrl && PwrCtrlWrites(r.trace) == []
  {
    var r := Execute(m, st, cmd, args, env);
    assert forall i | 0 <= i < |r.trace| :: !r.trace[i].RegWrite?;
    NoPwrCtrlWrites(r.trace);
  }

  /** Power collapse followed by power resume through the dispatcher leaves
      the collapse bit clear and reports the GDSC transfer's result. */
  lemma CollapseResumeDispatch(m: Masks, n: Numbering, st: CoreState, env1: Env, env2: Env)
    requires ValidNumbering(n)
    ensures var r1 := ProcessCmd(m, n, Dev(st), n.code(CmdPowerCollapse), NoArgs, env1);
            var r2 := ProcessCmd(m, n, r1.dev, n.code(CmdPowerResume), NoArgs, env2);
            && r1.rc == 0
            && r2.dev.Dev? && !Collapsed(m, r2.dev.core.pwrCtrl)
            && r2.rc == env2.gdscTransferRc
            && r2.dev.core.cpasStart == st.cpasStart && r2.dev.core.clkEnable == st.clkEnable
  {
    CodeDecodes(n, CmdPowerCollapse);
    CodeDecodes(n, CmdPowerResume);
  }

  /** UPDATE_CLK from a stopped clock followed by DISABLE_CLK: the clock is
      switched off again exactly when switching it on succeeded, and the clock
      flag ends clear. */
  lemma UpdateThenDisable(m: Masks, n: Numbering, st: CoreState, upd: ClkUpdate, env1: Env, env2: Env)
    requires ValidNumbering(n)
    requires !st.clkEnable
    ensures var r1 := ProcessCmd(m, n, Dev(st), n.code(CmdUpdateClk), ClkArgs(upd), env1);
            var r2 := ProcessCmd(m, n, r1.dev, n.code(CmdDisableClk), NoArgs, env2);
            && (ClkToggle(false) in r2.trace <==> env1.clkEnableRc == 0)
            && !r2.dev.core.clkEnable && r2.rc == 0
  {
    CodeDecodes(n, CmdUpdateClk);
    CodeDecodes(n, CmdDisableClk);
  }

  /** A successful init followed by a successful deinit returns a stopped
      device to its flags, starting and stopping the session once each. */
  lemma InitDeinitRoundTrip(st: CoreState, env1: Env, env2: Env)
    requires !st.cpasStart && !st.clkEnable
    requires env1.cpasStartRc == 0 && env1.socEnableRc == 0
    requires env2.socDisableRc == 0 && env2.cpasStopRc == 0
    ensures var r1 := InitHw(Dev(st), env1);
            var r2 := DeinitHw(r1.dev, env2);
            && r2 == Reply(Dev(st), 0, r2.trace)
            && r1.trace + r2.trace == [SessionStart(InitAhbVote, InitAxiVote), SocEnable, SocDisable(true), SessionStop]
  {
  }

  /** Init starts the session even when the flag already says it runs, unlike
      CPAS_START; a failing start then leaves the flags untouched. */
  lemma InitStartsUnconditionally(st: CoreState, env: Env)
    requires st.cpasStart
    requires env.cpasStartRc != 0
    ensures InitHw(Dev(st), env) == Reply(Dev(st), env.cpasStartRc, [SessionStart(InitAhbVote, InitAxiVote)])
  {
  }
}
