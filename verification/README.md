# BPS camera-block driver core, modelled in Dafny

This project models the command and state logic of the Qualcomm camera BPS
(Bayer processing segment) hardware driver, `bps_core.c`.

- **Per-device state** (`BpsTypes.CoreState`): two flags of the core info, `cpas_start` and `clk_enable`, and the content of the `pwr_ctrl` register.
- **Collaborators** are inputs, never code: the CPAS voting client, the SOC resource layer, the clock and GDSC helpers, and the hardware status registers. Their return codes come in an `Env` record. The values the reset polls read come from oracles indexed by attempt number.
- **Entry points** are pure functions. Each returns the new state, the return code, and the ordered trace of collaborator calls it made (`BpsTypes.Call`).
- **Modules:**
  - `BpsTypes`: data model.
  - `BpsTrace`: reading a trace — the `pwr_ctrl` writes, the register value after a trace, and the ordered-subsequence relation `InOrder`.
  - `BpsPower`: `cam_bps_handle_pc` and `cam_bps_handle_resume`.
  - `BpsReset`: `cam_bps_cmd_reset`, once as a function over the poll loop and once as a method written with the driver's `while`/`break` loops, proved equal.
  - `BpsCore`: `cam_bps_cpas_vote`, `cam_bps_init_hw`, `cam_bps_deinit_hw` and the dispatcher `cam_bps_process_cmd`.
  - `BpsProps`: properties across several calls.

Two facts of the code are easy to miss:

- **`cam_bps_init_hw` starts the session unconditionally.** It calls `cam_cpas_start` even when `cpas_start` is already set. Only the CPAS_START command checks the flag (`InitStartsUnconditionally`).
- **The two reset loops share one counter.** `retry_cnt` is set to zero once and is not reset before the TOP loop. A poll that reads reset-done leaves its loop without counting. So each loop polls at most five times, but both together can poll six times. The proved bound is six, not five:
  - `PollBudget` proves the bound.
  - `SixPollsReachable` shows a case with six polls.
  - `SharedBudget` shows the failed CDM polls using up TOP's budget.

## Model

| member | source | states |
|---|---|---|
| BpsCore.CpasVote | drivers/media/platform/msm/camera/cam_icp/icp_hw/bps_hw/bps_core.c:38-54 | The AHB vote is sent iff it is valid, and the AXI vote iff it is valid, AHB first. The result is the AXI result when AXI is valid, else the AHB result when AHB is valid, else 0. The state is untouched. |
| BpsProps.AxiOverridesAhb | drivers/media/platform/msm/camera/cam_icp/icp_hw/bps_hw/bps_core.c:43-48 | With a valid AXI vote, the AHB outcome cannot influence the result. |
| BpsProps.VoteResultDiscarded | drivers/media/platform/msm/camera/cam_icp/icp_hw/bps_hw/bps_core.c:329-341 | VOTE_CPAS reports 0 whatever the vote returned, makes exactly the vote's calls, and changes no state. |
| BpsCore.CpasStartOnce | drivers/media/platform/msm/camera/cam_icp/icp_hw/bps_hw/bps_core.c:353-359 | The start call is made iff the flag was clear, with the caller's votes. The flag ends set even when the start fails. The result is the start's result, or 0 when nothing was called. |
| BpsProps.CpasStartIdempotent | drivers/media/platform/msm/camera/cam_icp/icp_hw/bps_hw/bps_core.c:343-361 | A second CPAS_START calls nothing, returns 0 and changes nothing. |
| BpsCore.CpasStopIfStarted | drivers/media/platform/msm/camera/cam_icp/icp_hw/bps_hw/bps_core.c:363-369 | The stop call is made iff the flag was set, and with the flag clear no call at all is made. The flag ends clear, and the result is 0 whatever the stop returned. |
| BpsProps.StartStopRoundTrip | drivers/media/platform/msm/camera/cam_icp/icp_hw/bps_hw/bps_core.c:343-369 | From a stopped session, CPAS_START then CPAS_STOP makes one start and one stop call and restores the state, even when both fail. |
| BpsProps.SessionCallsGuarded | drivers/media/platform/msm/camera/cam_icp/icp_hw/bps_hw/bps_core.c:327-427 | Through the dispatcher, a session start happens only when the flag says it is stopped, and a session stop only when the flag says it runs. |
| BpsPower.HandlePc | drivers/media/platform/msm/camera/cam_icp/icp_hw/bps_hw/bps_core.c:151-191 | Always returns 0 and keeps both flags. It writes 0x1 to `pwr_ctrl` iff the collapse bit was clear. The trace ends with GDSC get-control and the two register reads, and every write comes before them. It makes four calls when the bit was set and six when it was clear, all register accesses or the GDSC hand-off. |
| BpsPower.PcTraceWrites | drivers/media/platform/msm/camera/cam_icp/icp_hw/bps_hw/bps_core.c:163-190 | The collapse request is written only when the collapse bit was clear, and before the GDSC hand-off. |
| BpsPower.PcTraceCalls | drivers/media/platform/msm/camera/cam_icp/icp_hw/bps_hw/bps_core.c:163-186 | Collapse makes exactly four calls (`pwr_ctrl` read, GDSC hand-off, two reads) when the bit was set, and six (adding the `pwr_status` read and the 0x1 write) when it was clear. Every call is a register access or the GDSC hand-off. |
| BpsPower.HandleResume | drivers/media/platform/msm/camera/cam_icp/icp_hw/bps_hw/bps_core.c:193-225 | Writes 0 to `pwr_ctrl` iff the collapse bit was set, so the bit ends clear. It always calls the GDSC transfer, after the clear when there is one, returns exactly the transfer's result, and keeps both flags. It makes five calls when the bit was set and four when it was clear, all register accesses or the GDSC transfer. |
| BpsPower.ResumeTraceWrites | drivers/media/platform/msm/camera/cam_icp/icp_hw/bps_hw/bps_core.c:204-219 | The resume writes only the value 0, only when the collapse bit was set, and always calls the GDSC transfer, which follows the write. |
| BpsPower.ResumeTraceCalls | drivers/media/platform/msm/camera/cam_icp/icp_hw/bps_hw/bps_core.c:206-220 | Resume makes exactly five calls (read, clear, GDSC transfer, two reads) when the bit was set, and four without the clear otherwise. Every call is a register access or the GDSC transfer. |
| BpsPower.CollapseThenResume | drivers/media/platform/msm/camera/cam_icp/icp_hw/bps_hw/bps_core.c:151-225 | Collapse followed by resume leaves the collapse bit clear and the flags unchanged. When 0x1 carries the collapse bit, the resume's write of 0 is the last write. |
| BpsPower.CollapseIdempotent | drivers/media/platform/msm/camera/cam_icp/icp_hw/bps_hw/bps_core.c:163-175 | A second collapse keeps the state and writes nothing when 0x1 carries the collapse bit. |
| BpsPower.ResumeIdempotent | drivers/media/platform/msm/camera/cam_icp/icp_hw/bps_hw/bps_core.c:204-213 | A second resume keeps the state and writes nothing. |
| BpsReset.PollLoop | drivers/media/platform/msm/camera/cam_icp/icp_hw/bps_hw/bps_core.c:240-252 | The counter stays within `HFI_MAX_POLL_TRY`. Polls = failed polls + 1 when the loop stopped on reset-done. Stopping on reset-done means the last poll confirmed it; otherwise the counter reached 5. Every counted poll failed. |
| BpsReset.PollDomain | drivers/media/platform/msm/camera/cam_icp/icp_hw/bps_hw/bps_core.c:240-252 | The driver's `while`/`break` loop leaves the counter and makes the polls `PollLoop` defines, one poll call each. |
| BpsReset.FailedPollsCount | drivers/media/platform/msm/camera/cam_icp/icp_hw/bps_hw/bps_core.c:249-251 | Each failing poll before the loop's exit advances the counter by one. |
| BpsReset.ResetDomains | drivers/media/platform/msm/camera/cam_icp/icp_hw/bps_hw/bps_core.c:227-300 | The result is -EAGAIN iff a final CDM or TOP status read lacks reset-done, and 0 iff both have it. Both reset commands are always written, and the GDSC tail always ends the trace. Each domain polls at most 5 times and both together at most 6. Nothing is written to `pwr_ctrl` and no session call is made. The calls come in the order CDM reset command, CDM polls, CDM final read, TOP reset command, TOP polls, TOP final read, GDSC tail, so every poll of a domain follows its reset command and precedes its final read. |
| BpsReset.ResetPolling | drivers/media/platform/msm/camera/cam_icp/icp_hw/bps_hw/bps_core.c:227-300 | The statement-level reset, with its counter threaded from the CDM loop into the TOP loop, makes exactly the calls and returns exactly the code of `ResetDomains`. |
| BpsReset.ResetTraceLayout | drivers/media/platform/msm/camera/cam_icp/icp_hw/bps_hw/bps_core.c:237-292 | A reset trace with c CDM polls and p TOP polls has every call at a fixed position: CDM reset command at 0, CDM polls at 1..c, CDM final read at c+1, TOP reset command at c+2, TOP polls after it, TOP final read at c+p+3, and the GDSC tail last. |
| BpsReset.ResetTraceShape | drivers/media/platform/msm/camera/cam_icp/icp_hw/bps_hw/bps_core.c:238-292 | Both reset commands occur in every reset trace, and every reset trace ends with GDSC get-control and the two register reads. |
| BpsReset.PollBudget | drivers/media/platform/msm/camera/cam_icp/icp_hw/bps_hw/bps_core.c:230-277 | Each loop polls at most `HFI_MAX_POLL_TRY` times; the two loops together poll at most one more. |
| BpsReset.SharedBudget | drivers/media/platform/msm/camera/cam_icp/icp_hw/bps_hw/bps_core.c:230-277 | When the first n CDM polls fail, TOP polls at most 5 - n times. When CDM failed all 5, TOP is not polled at all. |
| BpsReset.SixPollsReachable | drivers/media/platform/msm/camera/cam_icp/icp_hw/bps_hw/bps_core.c:240-277 | A CDM that confirms on its first poll leaves TOP all five polls: six polls in all. |
| BpsReset.CdmThirdTopNever | drivers/media/platform/msm/camera/cam_icp/icp_hw/bps_hw/bps_core.c:237-299 | CDM confirms on its third poll and TOP never does: TOP is still reset but polled only three times, and the result is -EAGAIN. |
| BpsReset.BothConfirmAtOnce | drivers/media/platform/msm/camera/cam_icp/icp_hw/bps_hw/bps_core.c:240-299 | When both domains confirm on the first poll and in the final reads, each is polled once and the result is 0. |
| BpsCore.PcClockOn | drivers/media/platform/msm/camera/cam_icp/icp_hw/bps_hw/bps_core.c:386-403 | Order: collapse, write 0 to `pwr_ctrl`, clock on, resume. The clock flag is set iff switching on succeeded. `pwr_ctrl` ends at 0 with the collapse bit clear. Nothing else is called: 10 calls when the bit was already set and 12 otherwise, all of collapse's or resume's kinds, with exactly one clock-on. |
| BpsCore.UpdateClk | drivers/media/platform/msm/camera/cam_icp/icp_hw/bps_hw/bps_core.c:376-410 | The rate update is always the last call, and its result is the command's. With the clock on, it is the only call. With the clock off, the clock-on call is made, plus collapse/clear/resume around it only when power collapse is allowed. The clock flag ends set iff it was set or switching on succeeded. |
| BpsCore.UpdateClkCalls | drivers/media/platform/msm/camera/cam_icp/icp_hw/bps_hw/bps_core.c:384-406 | With the clock off and power collapse allowed, UPDATE_CLK makes 11 or 13 calls. Each is a collapse, clear, clock-on or resume call, or the rate update, and the clock is switched on exactly once. |
| BpsCore.PcClockOnThenRate | drivers/media/platform/msm/camera/cam_icp/icp_hw/bps_hw/bps_core.c:384-406 | With power collapse allowed, the calls run in the order GDSC get-control, clear `pwr_ctrl`, clock on, GDSC transfer, rate update, and `pwr_ctrl` ends at 0. |
| BpsCore.DisableClk | drivers/media/platform/msm/camera/cam_icp/icp_hw/bps_hw/bps_core.c:411-417 | Clock-off is called iff the flag was set, and with the flag clear no call at all is made. The flag ends clear and the result is 0. |
| BpsProps.UpdateThenDisable | drivers/media/platform/msm/camera/cam_icp/icp_hw/bps_hw/bps_core.c:376-417 | After UPDATE_CLK from a stopped clock, DISABLE_CLK switches the clock off iff switching it on succeeded, and the flag ends clear. |
| BpsProps.ClockFlagSound | drivers/media/platform/msm/camera/cam_icp/icp_hw/bps_hw/bps_core.c:393-397 | Through the dispatcher, the clock flag is raised only by a successful clock-on call. |
| BpsCore.InitHw | drivers/media/platform/msm/camera/cam_icp/icp_hw/bps_hw/bps_core.c:56-110 | A null device or core is refused with -EINVAL and no call. Otherwise the session is started first with the fixed SVS vote. SOC enable is called, as the second call, iff the start succeeded. A failed start is returned with the device unchanged and no other call. A failed SOC enable is returned with the clock flag unchanged and a stop call as the third and last call, and the session flag stays set iff the stop failed. On success both flags are set and start and enable are the only calls. |
| BpsCore.DeinitHw | drivers/media/platform/msm/camera/cam_icp/icp_hw/bps_hw/bps_core.c:112-149 | A null device or core is refused with -EINVAL and no call. Otherwise SOC disable comes first with the old clock flag, the clock flag ends clear, and the result is the disable's. Stop is called iff the session flag was set, and nothing else is called. The session flag stays set iff the stop failed. |
| BpsProps.InitDeinitRoundTrip | drivers/media/platform/msm/camera/cam_icp/icp_hw/bps_hw/bps_core.c:56-149 | A successful init followed by a successful deinit restores the device and makes start, enable, disable, stop in that order. |
| BpsProps.InitStartsUnconditionally | drivers/media/platform/msm/camera/cam_icp/icp_hw/bps_hw/bps_core.c:86-93 | Init calls start even when the session flag is set, and a failing start leaves everything as it was. |
| BpsCore.CodeDecodes | drivers/media/platform/msm/camera/cam_icp/icp_hw/bps_hw/bps_core.c:317-427 | When the case labels are distinct and below `CAM_ICP_BPS_CMD_MAX`, each case's own code selects that case. |
| BpsCore.DecodeCmd | drivers/media/platform/msm/camera/cam_icp/icp_hw/bps_hw/bps_core.c:317-427 | A code is out of range iff it is at least `CAM_ICP_BPS_CMD_MAX`. A selected case is one whose label equals the code. The `default` arm is taken only when no case label equals the code. |
| BpsProps.DefaultArmRejects | drivers/media/platform/msm/camera/cam_icp/icp_hw/bps_hw/bps_core.c:423-426 | An in-range code that no case names returns -EINVAL, calls nothing and changes nothing. A device without core info is refused the same way when its code is out of range. |
| BpsCore.Execute | drivers/media/platform/msm/camera/cam_icp/icp_hw/bps_hw/bps_core.c:327-427 | VOTE_CPAS always reports 0. CPAS_START reports the start's result, or 0 when the session already ran. CPAS_STOP, POWER_COLLAPSE and DISABLE_CLK report 0. POWER_RESUME reports the GDSC transfer's result, and UPDATE_CLK the rate update's. RESET reports -EAGAIN iff a final status read lacks reset-done, 0 otherwise, and writes both reset commands. A command that calls nothing reports 0. |
| BpsProps.AcceptedRunsCase | drivers/media/platform/msm/camera/cam_icp/icp_hw/bps_hw/bps_core.c:327-429 | A command that passes the checks gets exactly the state, calls and result of its case of the switch. |
| BpsProps.ResetDispatch | drivers/media/platform/msm/camera/cam_icp/icp_hw/bps_hw/bps_core.c:418-422 | RESET through the dispatcher keeps the device, writes both reset commands, and reports -EAGAIN iff a final status read lacks reset-done. |
| BpsCore.ProcessCmd | drivers/media/platform/msm/camera/cam_icp/icp_hw/bps_hw/bps_core.c:302-429 | A null device, an out-of-range code, a code that reaches the `default` arm, or a null vote for VOTE_CPAS/CPAS_START returns -EINVAL, calls nothing and changes nothing. Those are exactly the inputs that end with -EINVAL and no call. A device without core info is accepted with an out-of-range code, which is refused before the core info is read. What an accepted command returns is stated by `BpsProps.AcceptedRunsCase`. |
| BpsProps.FlagsFrame | drivers/media/platform/msm/camera/cam_icp/icp_hw/bps_hw/bps_core.c:327-427 | For the case the code selects: only CPAS_START/CPAS_STOP change the session flag, only UPDATE_CLK/DISABLE_CLK change the clock flag, and only collapse, resume and UPDATE_CLK change `pwr_ctrl`. |
| BpsProps.PwrCtrlFollowsWrites | drivers/media/platform/msm/camera/cam_icp/icp_hw/bps_hw/bps_core.c:327-427 | After any command, `pwr_ctrl` holds the last value the command wrote to it, or its old value when it wrote none. |
| BpsProps.CollapseResumeDispatch | drivers/media/platform/msm/camera/cam_icp/icp_hw/bps_hw/bps_core.c:370-375 | POWER_COLLAPSE then POWER_RESUME through the dispatcher returns 0, then the GDSC transfer's result. The collapse bit ends clear and the flags unchanged. |

## Left out

- **Locking.** `hw_mutex` around DISABLE_CLK and RESET is not modelled: commands are applied one at a time.
- **Logging.** Logging and the `pwr_status >> BPS_PWR_ON_MASK` diagnostic only print. Reads of `pwr_status` appear in the trace, but their values are not modelled.
- **IRQ handler.** `cam_bps_irq` only returns `IRQ_HANDLED`.
- **Register I/O and poll timing.** Memory-mapped I/O, barriers, and the 100 µs / 10 ms timing of `readw_poll_timeout` are not modelled. Each poll is one oracle value (16 bits, as `readw` reads), and each final status read is another.
- **Register access results.** The driver ignores the return codes of `cam_cpas_reg_read` and `cam_cpas_reg_write` (lines 163-174, 206-213, 287-292 and 389-391). A failed read would leave the local `pwr_ctrl` uninitialised. The model gives these calls no outcome: every read returns the modelled register value and every write takes effect.
- **`pwr_ctrl` contents.** `pwr_ctrl` is modelled as device state, so a read returns the last value written. Changes the hardware makes between two reads are not modelled.
- **Masks and offsets.** The values of `BPS_COLLAPSE_MASK`, `BPS_RST_DONE_IRQ_STATUS_BIT` and the register offsets live in headers that are not part of this model. The two masks are parameters (`Masks`), and the offsets do not occur.
- **Command codes.** The header defining `CAM_ICP_BPS_CMD_*` is not part of this model. The enumerator values and `CAM_ICP_BPS_CMD_MAX` are therefore a parameter (`Numbering`). Decoding tries the case labels in switch order, and an in-range code that matches no label takes the `default` arm. The properties that follow a code into its case assume distinct labels below `CAM_ICP_BPS_CMD_MAX` (`ValidNumbering`).
- BpsCore.ProcessCmd: a device without core info is accepted only with an out-of-range code. With an in-range code the dispatcher reads `core_info->bps_hw_info` without a null check. The clock-update payload of UPDATE_CLK is also used without a null check, so the model requires one. Both crash paths are left out.
- BpsCore.InitHw: the `soc_info` null check is modelled together with the `core_info` check. `soc_info` is the address of a field, so only a null `core_info` (`NoCore`) can reach that branch.
- BpsProps.ClockFlagSound: states one direction only, that the flag rises only after a successful clock-on call. The other direction is in `BpsCore.UpdateClk`'s contract.
