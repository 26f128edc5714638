/** Power collapse and resume of the BPS power domain (`cam_bps_handle_pc`,
    `cam_bps_handle_resume`). Reads of `pwr_ctrl` return the register content
    held in the core state; `pwr_status` is read for diagnostics only. */
module BpsPower {
  import opened BpsTypes
  import opened BpsTrace

  /** Request power collapse: set `pwr_ctrl` to 0x1 unless the collapse bit is
      already set, then hand GDSC control to the power arbiter. Never fails. */
  function HandlePc(m: Masks, st: CoreState): (r: Step)
    ensures r.rc == 0
    ensures r.st.cpasStart == st.cpasStart && r.st.clkEnable == st.clkEnable
    ensures PwrCtrlWrites(r.trace) == if Collapsed(m, st.pwrCtrl) then [] else [CollapseValue]
    ensures r.st.pwrCtrl == PwrCtrlAfter(st.pwrCtrl, r.trace)
    ensures |r.trace| >= |GdscTail| && r.trace[|r.trace| - |GdscTail|..] == GdscTail
    ensures PwrCtrlWrites(r.trace[..|r.trace| - |GdscTail|]) == PwrCtrlWrites(r.trace)
    ensures |r.trace| == if Collapsed(m, st.pwrCtrl) then 4 else 6
    ensures forall c | c in r.trace :: PcCall(c)
  {
    var collapsed := Collapsed(m, st.pwrCtrl);
    PcTraceWrites(collapsed);
    PcTraceCalls(collapsed);
    Step(if collapsed then st else st.(pwrCtrl := CollapseValue), 0, PcTrace(collapsed))
  }

  /** The calls of `cam_bps_handle_pc`: read `pwr_ctrl`; unless the collapse
      bit is set, read `pwr_status` and write the collapse request; then hand
      GDSC control over and read both registers. */
  function PcTrace(collapsed: bool): seq<Call> {
    PcFront(collapsed) + GdscTail
  }

  lemma PcTraceWrites(collapsed: bool)
    ensures PwrCtrlWrites(PcTrace(collapsed)) == if collapsed then [] else [CollapseValue]
    ensures var t := PcTrace(collapsed);
            && |t| >= |GdscTail| && t[|t| - |GdscTail|..] == GdscTail
            && PwrCtrlWrites(t[..|t| - |GdscTail|]) == PwrCtrlWrites(t)
  {
    var front := PcFront(collapsed);
    var t := PcTrace(collapsed);
    PcFrontWrites(collapsed);
    NoPwrCtrlWrites(GdscTail);
    PwrCtrlWritesAppend(front, GdscTail);
    assert t == front + GdscTail;
    assert |t| - |GdscTail| == |front|;
    assert t[..|front|] == front;
    assert t[|front|..] == GdscTail;
  }

  /** Collapse reads `pwr_ctrl`, reads `pwr_status` and writes the request
      only when the bit was clear, then hands GDSC over and reads both
      registers: nothing else. */
  lemma PcTraceCalls(collapsed: bool)
    ensures |PcTrace(collapsed)| == if collapsed then 4 else 6
    ensures forall c | c in PcTrace(collapsed) :: PcCall(c)
  {
    if collapsed {
      assert PcTrace(collapsed) == [RegRead(PwrCtrl), GdscGetControl, RegRead(PwrCtrl), RegRead(PwrStatus)];
    } else {
      assert PcTrace(collapsed) == [RegRead(PwrCtrl), RegRead(PwrStatus), RegWrite(PwrCtrl, CollapseValue),
                                    GdscGetControl, RegRead(PwrCtrl), RegRead(PwrStatus)];
    }
  }

  /** The calls of `cam_bps_handle_pc` in front of the GDSC hand-off. */
  function PcFront(collapsed: bool): seq<Call> {
    [RegRead(PwrCtrl)] + (if collapsed then [] else [RegRead(PwrStatus), RegWrite(PwrCtrl, CollapseValue)])
  }

  lemma PcFrontWrites(collapsed: bool)
    ensures PwrCtrlWrites(PcFront(collapsed)) == if collapsed then [] else [CollapseValue]
  {
    NoPwrCtrlWrites([RegRead(PwrCtrl)]);
    if collapsed {
      assert PcFront(collapsed) == [RegRead(PwrCtrl)];
    } else {
      NoPwrCtrlWrites([RegRead(PwrCtrl), RegRead(PwrStatus)]);
      PwrCtrlWritesAppend([RegRead(PwrCtrl), RegRead(PwrStatus)], [RegWrite(PwrCtrl, CollapseValue)]);
      assert PcFront(collapsed) == [RegRead(PwrCtrl), RegRead(PwrStatus)] + [RegWrite(PwrCtrl, CollapseValue)];
    }
  }

  /** Leave power collapse: clear `pwr_ctrl` when the collapse bit is set,
      then take GDSC control back; the result is the transfer's. */
  function HandleResume(m: Masks, st: CoreState, env: Env): (r: Step)
    ensures r.rc == env.gdscTransferRc
    ensures !Collapsed(m, r.st.pwrCtrl)
    ensures r.st.cpasStart == st.cpasStart && r.st.clkEnable == st.clkEnable
    ensures PwrCtrlWrites(r.trace) == if Collapsed(m, st.pwrCtrl) then [ResumeValue] else []
    ensures r.st.pwrCtrl == PwrCtrlAfter(st.pwrCtrl, r.trace)
    ensures GdscTransfer in r.trace
    ensures Collapsed(m, st.pwrCtrl) ==> InOrder([RegWrite(PwrCtrl, ResumeValue), GdscTransfer], r.trace)
    ensures |r.trace| == if Collapsed(m, st.pwrCtrl) then 5 else 4
    ensures forall c | c in r.trace :: ResumeCall(c)
  {
    var collapsed := Collapsed(m, st.pwrCtrl);
    ResumeTraceWrites(collapsed);
    ResumeTraceCalls(collapsed);
    Step(if collapsed then st.(pwrCtrl := ResumeValue) else st, env.gdscTransferRc, ResumeTrace(collapsed))
  }

  /** The calls of `cam_bps_handle_resume`: read `pwr_ctrl`, clear it if the
      collapse bit was set, take GDSC control back, read both registers. */
  function ResumeTrace(collapsed: bool): seq<Call> {
    [RegRead(PwrCtrl)] + (if collapsed then [RegWrite(PwrCtrl, ResumeValue)] else [])
    + [GdscTransfer, RegRead(PwrCtrl), RegRead(PwrStatus)]
  }

  /** Resume reads `pwr_ctrl`, clears it only when the bit was set, takes GDSC
      control back and reads both registers: nothing else. */
  lemma ResumeTraceCalls(collapsed: bool)
    ensures |ResumeTrace(collapsed)| == if collapsed then 5 else 4
    ensures forall c | c in ResumeTrace(collapsed) :: ResumeCall(c)
  {
    if collapsed {
      assert ResumeTrace(collapsed) == [RegRead(PwrCtrl), RegWrite(PwrCtrl, ResumeValue), GdscTransfer,
                                        RegRead(PwrCtrl), RegRead(PwrStatus)];
    } else {
      assert ResumeTrace(collapsed) == [RegRead(PwrCtrl), GdscTransfer, RegRead(PwrCtrl), RegRead(PwrStatus)];
    }
  }

  lemma ResumeTraceWrites(collapsed: bool)
    ensures PwrCtrlWrites(ResumeTrace(collapsed)) == if collapsed then [ResumeValue] else []
    ensures GdscTransfer in ResumeTrace(collapsed)
    ensures collapsed ==> InOrder([RegWrite(PwrCtrl, ResumeValue), GdscTransfer], ResumeTrace(collapsed))
  {
    var write: seq<Call> := if collapsed then [RegWrite(PwrCtrl, ResumeValue)] else [];
    var tail := [GdscTransfer, RegRead(PwrCtrl), RegRead(PwrStatus)];
    NoPwrCtrlWrites(tail);
    NoPwrCtrlWrites([RegRead(PwrCtrl)]);
    assert PwrCtrlWrites(write) == if collapsed then [ResumeValue] else [];
    PwrCtrlWritesAppend([RegRead(PwrCtrl)], write);
    PwrCtrlWritesAppend([RegRead(PwrCtrl)] + write, tail);
    assert ResumeTrace(collapsed)[|write| + 1] == GdscTransfer;
    if collapsed {
      InOrderSingle(RegWrite(PwrCtrl, ResumeValue), [RegRead(PwrCtrl)] + write);
      InOrderSingle(GdscTransfer, tail);
      InOrderAppend([RegWrite(PwrCtrl, ResumeValue)], [RegRead(PwrCtrl)] + write, [GdscTransfer], tail);
    }
  }

  /** Collapse followed by resume leaves the collapse bit clear, whatever the
      register held before and whatever the GDSC transfer returned. */
  lemma CollapseThenResume(m: Masks, st: CoreState, env: Env)
    ensures var pc := HandlePc(m, st);
            var rs := HandleResume(m, pc.st, env);
            && !Collapsed(m, rs.st.pwrCtrl)
            && rs.st.cpasStart == st.cpasStart && rs.st.clkEnable == st.clkEnable
            && (Collapsed(m, CollapseValue) ==> PwrCtrlWrites(pc.trace + rs.trace) == PwrCtrlWrites(pc.trace) + [ResumeValue])
  {
    var pc := HandlePc(m, st);
    var rs := HandleResume(m, pc.st, env);
    PwrCtrlWritesAppend(pc.trace, rs.trace);
  }

  /** Collapse is idempotent on the state, and a second collapse writes
      nothing when the value 0x1 carries the collapse bit. */
  lemma CollapseIdempotent(m: Masks, st: CoreState)
    requires Collapsed(m, CollapseValue)
    ensures var once := HandlePc(m, st);
            var twice := HandlePc(m, once.st);
            twice.st == once.st && PwrCtrlWrites(twice.trace) == []
  {
  }

  /** Resume is idempotent on the state; the second one writes nothing. */
  lemma ResumeIdempotent(m: Masks, st: CoreState, env1: Env, env2: Env)
    ensures var once := HandleResume(m, st, env1);
            var twice := HandleResume(m, once.st, env2);
            twice.st == once.st && PwrCtrlWrites(twice.trace) == []
  {
  }
}
