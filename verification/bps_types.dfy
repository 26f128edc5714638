/** Data model of the BPS camera-block driver core: the per-device flags, the
    power-control register, the collaborator calls the driver issues and the
    outcomes those collaborators report. */
module BpsTypes {

  /** Linux error numbers; the driver returns them negated. */
  const EAGAIN: int := 11
  const EINVAL: int := 22

  /** `HFI_MAX_POLL_TRY`: the budget of the reset poll counter. */
  const MaxPollTry: nat := 5

  /** Values the driver writes: the collapse request and its release into
      `pwr_ctrl`, and the reset patterns of the two sub-cores. */
  const CollapseValue: bv32 := 0x1
  const ResumeValue: bv32 := 0x0
  const CdmResetCmd: bv32 := 0xF
  const TopResetCmd: bv32 := 0x3

  /** `BPS_COLLAPSE_MASK` and `BPS_RST_DONE_IRQ_STATUS_BIT`. The header that
      fixes their values is not part of this model, so they are parameters. */
  datatype Masks = Masks(collapse: bv32, rstDone: bv32)

  /** The collapse bit of a `pwr_ctrl` value is set. */
  predicate Collapsed(m: Masks, pwrCtrl: bv32) {
    (pwrCtrl & m.collapse) != 0
  }

  /** An IRQ status value confirms reset-done, compared exactly as the driver does. */
  predicate ResetDone(m: Masks, status: bv32) {
    (status & m.rstDone) == 1
  }

  /** Per-device state: the two flags of the core info and the power-control
      register of the shared CPAS TOP space. */
  datatype CoreState = CoreState(cpasStart: bool, clkEnable: bool, pwrCtrl: bv32)

  /** Bus votes. Only their identity matters to the driver: it forwards them. */
  datatype VoteType = Absolute | Dynamic
  datatype VoteLevel = SvsVote | Level(n: nat)
  datatype AhbVote = AhbVote(kind: VoteType, level: VoteLevel)
  datatype Bandwidth = DefaultAxiBw | Bw(bytes: nat)
  datatype AxiVote = AxiVote(compressedBw: Bandwidth, uncompressedBw: Bandwidth)

  /** `struct cam_icp_cpas_vote`: each component is applied only when valid. */
  datatype VoteRequest = VoteRequest(ahbValid: bool, ahb: AhbVote, axiValid: bool, axi: AxiVote)

  /** The fixed vote `cam_bps_init_hw` starts the session with. */
  const InitAhbVote: AhbVote := AhbVote(Absolute, SvsVote)
  const InitAxiVote: AxiVote := AxiVote(DefaultAxiBw, DefaultAxiBw)

  /** `struct cam_a5_clk_update_cmd`. */
  datatype ClkUpdate = ClkUpdate(currClkRate: bv32, pcEnable: bool)

  /** Registers of the CPAS TOP space the driver reaches through the voting client. */
  datatype Reg = PwrCtrl | PwrStatus

  /** The two independently reset sub-cores. */
  datatype Domain = Cdm | Top

  /** One call the driver makes into a collaborator, in the order it makes them. */
  datatype Call =
    | AhbVoteUpdate(ahb: AhbVote)              // cam_cpas_update_ahb_vote
    | AxiVoteUpdate(axi: AxiVote)              // cam_cpas_update_axi_vote
    | SessionStart(ahb: AhbVote, axi: AxiVote) // cam_cpas_start
    | SessionStop                              // cam_cpas_stop
    | SocEnable                                // cam_bps_enable_soc_resources
    | SocDisable(clkWasEnabled: bool)          // cam_bps_disable_soc_resources
    | RegRead(reg: Reg)                        // cam_cpas_reg_read
    | RegWrite(reg: Reg, value: bv32)          // cam_cpas_reg_write
    | GdscGetControl                           // cam_bps_get_gdsc_control
    | GdscTransfer                             // cam_bps_transfer_gdsc_control
    | ClkToggle(enable: bool)                  // cam_bps_toggle_clk
    | ClkRateUpdate(rate: bv32)                // cam_bps_update_clk_rate
    | ResetWrite(domain: Domain, value: bv32)  // cam_io_w_mb to a reset command register
    | IrqPoll(domain: Domain)                  // one readw_poll_timeout of an IRQ status
    | IrqRead(domain: Domain)                  // cam_io_r_mb of an IRQ status

  /** What the hardware answers during a reset: the value each poll of a
      domain returns (indexed by that domain's attempt number; `readw` reads
      16 bits) and the value of the final direct 32-bit read. */
  datatype ResetReads = ResetReads(
    cdmPoll: nat -> bv16, cdmFinal: bv32,
    topPoll: nat -> bv16, topFinal: bv32)

  /** Return codes of the collaborators for one command. */
  datatype Env = Env(
    ahbVoteRc: int,
    axiVoteRc: int,
    cpasStartRc: int,
    cpasStopRc: int,
    socEnableRc: int,
    socDisableRc: int,
    gdscTransferRc: int,
    clkEnableRc: int,
    clkRateRc: int,
    resetReads: ResetReads)

  /** Result of an operation on an existing core: new state, return code, calls made. */
  datatype Step = Step(st: CoreState, rc: int, trace: seq<Call>)

  /** The `device_priv` handle: null, a device whose core info is null, or a device. */
  datatype DeviceRef = Null | NoCore | Dev(core: CoreState)

  /** Result of an entry point: the device afterwards, return code, calls made. */
  datatype Reply = Reply(dev: DeviceRef, rc: int, trace: seq<Call>)
}
