/** One physical CPU and its vCPUs as values: what the world switch, the vector capture and the
    EL2 trap handlers of core/vcpu.c, core/trap.c and arch/arm64/ compute. */
module Machine {
  import opened Words
  import opened Scheduler

  // ----- Registers -----

  /** A compare value and the two writable control bits (ENABLE, IMASK). */
  datatype Timer = Timer(ctl: Word, cval: Word)

  /** The EL1 context; in hardware, elr and spsr are ELR_EL2 and SPSR_EL2. */
  datatype El1 = El1(sp: Word, elr: Word, spsr: Word, ttbr0: Word, ttbr1: Word,
                     tcr: Word, sctlr: Word, tpidr: Word, cntkctl: Word)

  type Gprs = x: seq<Word> | |x| == 31 witness seq(31, _ => 0)

  /** trapframe_t: the physical timer's compare value `p.cval` is a virtual count. */
  datatype TrapFrame = TrapFrame(regs: Gprs, el1: El1, p: Timer, v: Timer)

  datatype Vcpu = Vcpu(vttbr: Word, cntvoff: Word, cntvct: Word, tf: TrapFrame, requestYield: bool)

  /** The registers of the CPU; `p.cval` is a physical count, `pct` is CNTPCT_EL0. */
  datatype Hw = Hw(x: Gprs, el1: El1, p: Timer, v: Timer, cntvoff: Word, pct: Word, vttbr: Word)

  /** The counter convention of the code (trap.c:151, vcpu.c:374, vectors_el2.S:84): the virtual
      count is the physical count PLUS CNTVOFF_EL2. DDI 0487 defines CNTVOFF_EL2 with a minus;
      every theorem about time below rests on this one definition. */
  function VirtualCount(hw: Hw): Word { Add(hw.pct, hw.cntvoff) }

  function Tick(hw: Hw, d: Word): Hw { hw.(pct := Add(hw.pct, d)) }

  /** vcpu_switch_asm: the frame into the registers. */
  function Restore(hw: Hw, tf: TrapFrame): Hw {
    hw.(x := tf.regs, el1 := tf.el1,
        p := Timer(tf.p.ctl % 4, Sub(tf.p.cval, hw.cntvoff)),
        v := Timer(tf.v.ctl % 4, tf.v.cval))
  }

  /** el2_vector_common: the registers into the frame. */
  function Capture(hw: Hw): TrapFrame {
    TrapFrame(hw.x, hw.el1, Timer(hw.p.ctl, Add(hw.p.cval, hw.cntvoff)), hw.v)
  }

  // ----- The guest -----

  /** What a guest does between entry and trap: anything to its registers, its EL1 state and the
      untrapped virtual timer, while the counter runs on. CNTP and CNTVOFF are out of its reach. */
  datatype Guest = Guest(x: Gprs, el1: El1, v: Timer, ticks: Word)

  function GuestStep(hw: Hw, g: Guest): Hw {
    Tick(hw.(x := g.x, el1 := g.el1, v := Timer(g.v.ctl % 4, g.v.cval)), g.ticks)
  }

  datatype SysReg =
    | CNTPCT | CNTVCT
    | CNTP_CVAL | CNTP_CTL | CNTP_TVAL
    | CNTV_CVAL | CNTV_CTL | CNTV_TVAL
    | OTHER

  /** A trap, already decoded. HVC 0x63 and everything unknown hang the hypervisor. */
  datatype Trap =
    | Wfi
    | HvcReport
    | HvcTime
    | Sysreg(reg: SysReg, rt: nat, isRead: bool)
    | Fatal

  // ----- Handlers, on the registers and the current vCPU -----

  datatype Core = Core(hw: Hw, v: Vcpu) {
    function SetTf(tf: TrapFrame): Core { this.(v := v.(tf := tf)) }

    /** Register rt of the saved frame; 31 is XZR. */
    function Reg(rt: nat): Word { if rt < 31 then v.tf.regs[rt] else 0 }

    function SetReg(rt: nat, val: Word): Core {
      if rt < 31 then SetTf(v.tf.(regs := v.tf.regs[rt := val])) else this
    }

    function SetP(p: Timer): Core { SetTf(v.tf.(p := p)) }
    function SetV(t: Timer): Core { SetTf(v.tf.(v := t)) }

    /** advance_guest_elr. */
    function Advance(elr: Word): Core {
      Core(hw.(el1 := hw.el1.(elr := Add(elr, 4))), v.(tf := v.tf.(el1 := v.tf.el1.(elr := Add(elr, 4)))))
    }
  }

  /** handle_timer_sysreg, from its decoded switch on. */
  function HandleSysreg(c: Core, reg: SysReg, rt: nat, isRead: bool): Core
    requires reg != OTHER
  {
    var now, elr, p, v := VirtualCount(c.hw), c.hw.el1.elr, c.v.tf.p, c.v.tf.v;
    match reg
    case CNTPCT => (if isRead then c.SetReg(rt, now) else c).Advance(elr)
    case CNTVCT => (if isRead then c.SetReg(rt, now) else c).Advance(elr)
    case CNTP_CVAL =>
      if isRead then
        var val := Add(c.hw.p.cval, c.v.cntvoff);
        c.SetP(p.(cval := val)).SetReg(rt, val).Advance(elr)
      else
        var val := c.Reg(rt);
        c.SetP(p.(cval := val)).(hw := c.hw.(p := c.hw.p.(cval := Sub(val, c.v.cntvoff)))).Advance(elr)
    case CNTP_CTL =>
      if isRead then c.SetP(p.(ctl := c.hw.p.ctl)).SetReg(rt, c.hw.p.ctl).Advance(elr)
      else
        var ctl := c.Reg(rt) % 4;
        c.SetP(p.(ctl := ctl)).(hw := c.hw.(p := c.hw.p.(ctl := ctl))).Advance(elr)
    case CNTP_TVAL =>
      if isRead then c.SetReg(rt, Sub(p.cval, now)).Advance(elr)
      else
        var target := Add(now, SignExtend32(c.Reg(rt)));
        c.SetP(p.(cval := target)).(hw := c.hw.(p := c.hw.p.(cval := Sub(target, c.v.cntvoff)))).Advance(elr)
    case CNTV_CVAL =>
      if isRead then c.SetV(v.(cval := c.hw.v.cval)).SetReg(rt, c.hw.v.cval).Advance(elr)
      else
        var val := c.Reg(rt);
        c.SetV(v.(cval := val)).(hw := c.hw.(v := c.hw.v.(cval := val))).Advance(elr)
    case CNTV_CTL =>
      if isRead then c.SetV(v.(ctl := c.hw.v.ctl)).SetReg(rt, c.hw.v.ctl).Advance(elr)
      else
        var ctl := c.Reg(rt) % 4;
        c.SetV(v.(ctl := ctl)).(hw := c.hw.(v := c.hw.v.(ctl := ctl))).Advance(elr)
    case CNTV_TVAL =>
      if isRead then
        c.SetV(v.(cval := c.hw.v.cval)).SetReg(rt, Sub(c.hw.v.cval, now)).Advance(elr)
      else
        var target := Add(now, SignExtend32(c.Reg(rt)));
        c.SetV(v.(cval := target)).(hw := c.hw.(v := c.hw.v.(cval := target))).Advance(elr)
  }

  /** handle_guest_time_override: x0 holds the virtual count the guest asks for. */
  function HandleTimeOverride(c: Core): Core {
    var desired := c.v.tf.regs[0];
    var offset := Sub(desired, c.hw.pct);
    var tf := c.v.tf;
    Core(c.hw.(cntvoff := offset,
               p := Timer(tf.p.ctl % 4, Sub(tf.p.cval, offset)),
               v := Timer(tf.v.ctl % 4, tf.v.cval)),
         c.v.(cntvct := desired, cntvoff := offset, tf := tf.(regs := tf.regs[0 := desired])))
  }

  /** The WFI path of el2_exception_common. */
  function HandleWfi(c: Core): Core {
    var c' := c.Advance(c.hw.el1.elr);
    c'.(v := c'.v.(requestYield := true))
  }

  /** The hypervisor hangs on this trap when a vCPU is current. */
  predicate Hangs(trap: Trap) {
    trap.Fatal? || (trap.Sysreg? && trap.reg == OTHER)
  }

  function Handle(c: Core, trap: Trap): Core {
    match trap
    case Wfi => HandleWfi(c)
    case HvcTime => HandleTimeOverride(c)
    case Sysreg(reg, rt, isRead) => if reg == OTHER then c else HandleSysreg(c, reg, rt, isRead)
    case _ => c
  }

  // ----- The whole system -----

  /** vCPU pointers are indices into `vcpus`; `latch` is current_trapframe. */
  datatype Sys = Sys(hw: Hw, vcpus: seq<Vcpu>, sched: Sched, latch: Option<nat>, halted: bool)

  predicate Known(s: Sys) {
    && (forall v :: v in s.sched.queue ==> v < |s.vcpus|)
    && (s.sched.current.Some? ==> s.sched.current.value < |s.vcpus|)
    && (s.latch.Some? ==> s.latch.value < |s.vcpus|)
  }

  /** One stay in a guest: the counter runs on before the save, before the offset is computed and
      inside the guest, which ends with a trap. */
  datatype Visit = Visit(dSave: Word, dLoad: Word, guest: Guest, trap: Trap)

  /** world_switch up to the eret. */
  function EnterGuest(s: Sys, from: Option<nat>, to: nat, v: Visit): Sys
    requires to < |s.vcpus| && (from.Some? ==> from.value < |s.vcpus|)
  {
    var hw := Tick(s.hw, v.dSave);
    var saved := if from.Some? then s.vcpus[from.value := s.vcpus[from.value].(cntvct := VirtualCount(hw))]
                 else s.vcpus;
    var hw' := Tick(hw, v.dLoad);
    var offset := Sub(saved[to].cntvct, hw'.pct);
    var ready := Restore(hw'.(cntvoff := offset, vttbr := saved[to].vttbr), saved[to].tf);
    s.(hw := ready, vcpus := saved[to := saved[to].(cntvoff := offset)], latch := Some(to))
  }

  /** The guest runs and traps; the vector captures into the latched frame and clears the latch. */
  function LeaveGuest(s: Sys, g: Guest): Sys
    requires Known(s)
  {
    var hw := GuestStep(s.hw, g);
    s.(hw := hw,
       vcpus := if s.latch.Some? then s.vcpus[s.latch.value := s.vcpus[s.latch.value].(tf := Capture(hw))]
                else s.vcpus,
       latch := None)
  }

  /** el2_exception_common: the handler acts on the current vCPU. */
  function Dispatch(s: Sys, trap: Trap): Sys
    requires Known(s)
  {
    if s.sched.current.None? then
      if trap.Wfi? then s.(hw := s.hw.(el1 := s.hw.el1.(elr := Add(s.hw.el1.elr, 4)))) else s.(halted := true)
    else if Hangs(trap) then s.(halted := true)
    else
      var c := s.sched.current.value;
      var after := Handle(Core(s.hw, s.vcpus[c]), trap);
      s.(hw := after.hw, vcpus := s.vcpus[c := after.v])
  }

  /** world_switch, which returns when the guest it entered traps. */
  function WorldSwitch(s: Sys, from: Option<nat>, to: nat, v: Visit): (r: Sys)
    requires Known(s) && to < |s.vcpus| && (from.Some? ==> from.value < |s.vcpus|)
    ensures Known(r) && |r.vcpus| == |s.vcpus| && r.sched == s.sched
  {
    Dispatch(LeaveGuest(EnterGuest(s, from, to, v), v.guest), v.trap)
  }

  /** vcpu_scheduler_yield. */
  function Yield(s: Sys, v: Visit): (r: Sys)
    requires Known(s)
    ensures Known(r) && |r.vcpus| == |s.vcpus|
  {
    if !CanYield(s.sched) then s
    else
      assert s.sched.queue[Next(s.sched)] in s.sched.queue;
      var s' := s.(sched := Select(s.sched));
      WorldSwitch(s', s.sched.current, s'.sched.current.value, v)
  }

  /** One iteration of the loop in vcpu_run; the second visit is used if the iteration yields. */
  datatype Round = Round(first: Visit, second: Visit)

  function ClearRequest(s: Sys, c: nat): Sys
    requires c < |s.vcpus|
  {
    s.(vcpus := s.vcpus[c := s.vcpus[c].(requestYield := false)])
  }

  function Iterate(s: Sys, r: Round): (s': Sys)
    requires Known(s)
    ensures Known(s') && |s'.vcpus| == |s.vcpus|
  {
    if s.halted || s.sched.current.None? then s
    else
      var c := s.sched.current.value;
      var s1 := WorldSwitch(s, None, c, r.first);
      if s1.halted || !s1.vcpus[c].requestYield then s1
      else Yield(ClearRequest(s1, c), r.second)
  }

  function Rounds(s: Sys, rs: seq<Round>): (s': Sys)
    requires Known(s)
    ensures Known(s') && |s'.vcpus| == |s.vcpus|
    decreases |rs|
  {
    if rs == [] then s else Rounds(Iterate(s, rs[0]), rs[1..])
  }
}
