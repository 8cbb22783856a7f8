/** Virtual time: the machine of physical compare values and offsets implements, for every vCPU,
    two virtual timers in which no offset and no physical counter appear. */
module VirtualTime {
  import opened Words
  import opened Scheduler
  import opened Machine

  // ----- The specification: no offsets -----

  /** One vCPU's time: the count it will next start from, and its two timers. */
  datatype VTime = VTime(snap: Word, p: Timer, v: Timer)

  /** `now` is the running vCPU's virtual count. */
  datatype VState = VState(now: Word, slots: seq<VTime>)

  datatype Which = P | V

  datatype TimerOp =
    | NoOp
    | ReadCount
    | ReadCval(w: Which)
    | WriteCval(w: Which, val: Word)
    | ReadCtl(w: Which)
    | WriteCtl(w: Which, val: Word)
    | ReadTval(w: Which)
    | WriteTval(w: Which, val: Word)
    | Rebase(val: Word)

  function Get(t: VTime, w: Which): Timer { if w == P then t.p else t.v }

  function Set(t: VTime, w: Which, timer: Timer): VTime {
    if w == P then t.(p := timer) else t.(v := timer)
  }

  function OpOutput(t: VTime, now: Word, op: TimerOp): Option<Word> {
    match op
    case ReadCount => Some(now)
    case ReadCval(w) => Some(Get(t, w).cval)
    case ReadCtl(w) => Some(Get(t, w).ctl)
    case ReadTval(w) => Some(Sub(Get(t, w).cval, now))
    case _ => None
  }

  function OpEffect(t: VTime, now: Word, op: TimerOp): VTime {
    match op
    case WriteCval(w, val) => Set(t, w, Get(t, w).(cval := val))
    case WriteCtl(w, val) => Set(t, w, Get(t, w).(ctl := val % 4))
    case WriteTval(w, val) => Set(t, w, Get(t, w).(cval := Add(now, SignExtend32(val))))
    case Rebase(val) => t.(snap := val)
    case _ => t
  }

  /** A stay of vCPU `to` in the guest, after vCPU `from` was switched out (if any was). */
  datatype Hop = Hop(from: Option<nat>, to: nat, visit: Visit)

  predicate Sensible(h: Hop, n: nat) {
    h.to < n && (h.from.Some? ==> h.from.value < n && h.from.value != h.to)
  }

  /** The access a visit ends with, on the register values the guest left. */
  function OpOf(v: Visit): TimerOp {
    match v.trap
    case HvcTime => Rebase(v.guest.x[0])
    case Sysreg(reg, rt, isRead) =>
      var arg := if rt < 31 then v.guest.x[rt] else 0;
      (match reg
       case CNTPCT => if isRead then ReadCount else NoOp
       case CNTVCT => if isRead then ReadCount else NoOp
       case CNTP_CVAL => if isRead then ReadCval(P) else WriteCval(P, arg)
       case CNTP_CTL => if isRead then ReadCtl(P) else WriteCtl(P, arg)
       case CNTP_TVAL => if isRead then ReadTval(P) else WriteTval(P, arg)
       case CNTV_CVAL => if isRead then ReadCval(V) else WriteCval(V, arg)
       case CNTV_CTL => if isRead then ReadCtl(V) else WriteCtl(V, arg)
       case CNTV_TVAL => if isRead then ReadTval(V) else WriteTval(V, arg)
       case OTHER => NoOp)
    case _ => NoOp
  }

  /** The slots once `from` has been switched out at its own virtual count. */
  function Departed(a: VState, h: Hop): seq<VTime>
    requires Sensible(h, |a.slots|)
  {
    if h.from.Some?
    then a.slots[h.from.value := a.slots[h.from.value].(snap := Add(a.now, h.visit.dSave))]
    else a.slots
  }

  /** The count at the access: the vCPU's own snapshot plus its own running time. */
  function AccessTime(a: VState, h: Hop): Word
    requires Sensible(h, |a.slots|)
  {
    Add(a.slots[h.to].snap, h.visit.guest.ticks)
  }

  /** The vCPU's timers at the access: the guest may have written its virtual timer directly. */
  function AtAccess(a: VState, h: Hop): VTime
    requires Sensible(h, |a.slots|)
  {
    a.slots[h.to].(v := Timer(h.visit.guest.v.ctl % 4, h.visit.guest.v.cval))
  }

  function VHop(a: VState, h: Hop): (r: VState)
    requires Sensible(h, |a.slots|)
    ensures |r.slots| == |a.slots|
  {
    var now, op := AccessTime(a, h), OpOf(h.visit);
    VState(if op.Rebase? then op.val else now,
           Departed(a, h)[h.to := OpEffect(AtAccess(a, h), now, op)])
  }

  /** The value the guest receives in its target register, if the register is not XZR. */
  function VOutput(a: VState, h: Hop): Option<Word>
    requires Sensible(h, |a.slots|)
  {
    if h.visit.trap.Sysreg? && h.visit.trap.rt < 31
    then OpOutput(AtAccess(a, h), AccessTime(a, h), OpOf(h.visit)) else None
  }

  function VRun(a: VState, hops: seq<Hop>): (r: VState)
    requires forall h :: h in hops ==> Sensible(h, |a.slots|)
    ensures |r.slots| == |a.slots|
    decreases |hops|
  {
    if hops == [] then a else VRun(VHop(a, hops[0]), hops[1..])
  }

  function VOutputs(a: VState, hops: seq<Hop>): seq<Option<Word>>
    requires forall h :: h in hops ==> Sensible(h, |a.slots|)
    decreases |hops|
  {
    if hops == [] then [] else [VOutput(a, hops[0])] + VOutputs(VHop(a, hops[0]), hops[1..])
  }

  // ----- The implementation -----

  function AbsVcpu(v: Vcpu): VTime {
    VTime(v.cntvct, Timer(v.tf.p.ctl % 4, v.tf.p.cval), Timer(v.tf.v.ctl % 4, v.tf.v.cval))
  }

  function Abs(s: Sys): VState {
    VState(VirtualCount(s.hw), seq(|s.vcpus|, i requires 0 <= i < |s.vcpus| => AbsVcpu(s.vcpus[i])))
  }

  function CHop(s: Sys, h: Hop): (r: Sys)
    requires Known(s) && Sensible(h, |s.vcpus|)
    ensures Known(r) && |r.vcpus| == |s.vcpus|
  {
    WorldSwitch(s.(sched := s.sched.(current := Some(h.to))), h.from, h.to, h.visit)
  }

  /** What an emulated read left in the target register. */
  function Delivered(after: Sys, to: nat, trap: Trap): Option<Word>
    requires to < |after.vcpus|
  {
    if trap.Sysreg? && trap.rt < 31 && trap.isRead && trap.reg != OTHER
    then Some(after.vcpus[to].tf.regs[trap.rt]) else None
  }

  function CRun(s: Sys, hops: seq<Hop>): (r: Sys)
    requires Known(s) && forall h :: h in hops ==> Sensible(h, |s.vcpus|)
    ensures Known(r) && |r.vcpus| == |s.vcpus|
    decreases |hops|
  {
    if hops == [] then s else CRun(CHop(s, hops[0]), hops[1..])
  }

  function COutputs(s: Sys, hops: seq<Hop>): seq<Option<Word>>
    requires Known(s) && forall h :: h in hops ==> Sensible(h, |s.vcpus|)
    decreases |hops|
  {
    if hops == [] then []
    else [Delivered(CHop(s, hops[0]), hops[0].to, hops[0].visit.trap)] + COutputs(CHop(s, hops[0]), hops[1..])
  }

  /** The hardware holds the current vCPU's timers: its offset is programmed, CNTP_CVAL is the
      virtual compare value in the physical domain, so both have the same ticks left. */
  predicate HwAgrees(hw: Hw, v: Vcpu) {
    && hw.cntvoff == v.cntvoff
    && Add(hw.p.cval, hw.cntvoff) == v.tf.p.cval
    && Sub(hw.p.cval, hw.pct) == Sub(v.tf.p.cval, VirtualCount(hw))
    && hw.p.ctl == v.tf.p.ctl % 4 && hw.v.cval == v.tf.v.cval && hw.v.ctl == v.tf.v.ctl % 4
  }

  /** The state of vCPU `to` and the registers when its handler starts. */
  function Trapped(s: Sys, h: Hop): Core
    requires Known(s) && Sensible(h, |s.vcpus|)
  {
    var e := EnterGuest(s, h.from, h.to, h.visit);
    var hw := GuestStep(e.hw, h.visit.guest);
    Core(hw, e.vcpus[h.to].(tf := Capture(hw)))
  }

  /** The hardware agrees with the frame at every guest entry. */
  lemma AgreesAtEntry(s: Sys, h: Hop)
    requires Known(s) && Sensible(h, |s.vcpus|)
    ensures var e := EnterGuest(s, h.from, h.to, h.visit); HwAgrees(e.hw, e.vcpus[h.to])
  {
  }

  /** At the start of a handler the frame holds the offset-free timers and the hardware agrees. */
  lemma TrappedState(s: Sys, h: Hop)
    requires Known(s) && Sensible(h, |s.vcpus|)
    ensures var c := Trapped(s, h);
            && Settled(c)
            && VirtualCount(c.hw) == AccessTime(Abs(s), h)
            && AbsVcpu(c.v) == AtAccess(Abs(s), h)
            && c.v.tf.regs == h.visit.guest.x
  {
  }

  /** c' is c after an access `op` at virtual time `now`, as the offset-free timers see it. */
  predicate Simulates(c: Core, c': Core, now: Word, op: TimerOp) {
    && HwAgrees(c'.hw, c'.v)
    && AbsVcpu(c'.v) == OpEffect(AbsVcpu(c.v), now, op)
    && VirtualCount(c'.hw) == (if op.Rebase? then op.val else now)
  }

  /** The value the access returned is in its target register. */
  predicate Returns(c: Core, c': Core, now: Word, op: TimerOp, rt: nat) {
    rt < 31 && OpOutput(AbsVcpu(c.v), now, op).Some? ==>
      OpOutput(AbsVcpu(c.v), now, op) == Some(c'.v.tf.regs[rt])
  }

  predicate Settled(c: Core) {
    HwAgrees(c.hw, c.v) && c.hw.p.ctl == c.v.tf.p.ctl < 4 && c.hw.v.ctl == c.v.tf.v.ctl < 4
  }

  lemma ReadRefines(c: Core, v: Visit, reg: SysReg, rt: nat)
    requires Settled(c) && v.trap == Sysreg(reg, rt, true) && reg != OTHER
    ensures var c' := Handle(c, v.trap);
            Simulates(c, c', VirtualCount(c.hw), OpOf(v)) && Returns(c, c', VirtualCount(c.hw), OpOf(v), rt)
  {
    hide Add, Sub;
  }

  lemma WriteRefines(c: Core, v: Visit, reg: SysReg, rt: nat)
    requires Settled(c) && v.trap == Sysreg(reg, rt, false) && reg != OTHER && c.v.tf.regs == v.guest.x
    ensures Simulates(c, Handle(c, v.trap), VirtualCount(c.hw), OpOf(v))
  {
    hide Add, Sub, SignExtend32;
    var off, pct := c.hw.cntvoff, c.hw.pct;
    DomainLaws(c.Reg(rt), off, pct);
    DomainLaws(Add(VirtualCount(c.hw), SignExtend32(c.Reg(rt))), off, pct);
  }

  lemma OverrideRefines(c: Core, v: Visit)
    requires Settled(c) && v.trap == HvcTime && c.v.tf.regs == v.guest.x
    ensures Simulates(c, Handle(c, v.trap), VirtualCount(c.hw), OpOf(v))
  {
    hide Add, Sub;
    var off, pct := Sub(c.v.tf.regs[0], c.hw.pct), c.hw.pct;
    DomainLaws(c.v.tf.regs[0], pct, pct);
    DomainLaws(c.v.tf.p.cval, off, pct);
  }

  /** Each handler does what the offset-free timer does, and the hardware keeps agreeing. */
  lemma HandlerRefines(c: Core, v: Visit)
    requires Settled(c) && c.v.tf.regs == v.guest.x
    ensures var now, op, c' := VirtualCount(c.hw), OpOf(v), Handle(c, v.trap);
            && Simulates(c, c', now, op)
            && (v.trap.Sysreg? && v.trap.isRead && v.trap.reg != OTHER ==> Returns(c, c', now, op, v.trap.rt))
  {
    hide Add, Sub, HandleTimeOverride, HandleSysreg;
    match v.trap
    case HvcTime => OverrideRefines(c, v);
    case Sysreg(reg, rt, isRead) =>
      if reg != OTHER {
        if isRead {
          ReadRefines(c, v, reg, rt);
        } else {
          WriteRefines(c, v, reg, rt);
        }
      }
    case _ =>
  }

  /** One stay in a guest, concretely and abstractly. */
  lemma HopRefines(s: Sys, h: Hop)
    requires Known(s) && Sensible(h, |s.vcpus|)
    ensures Abs(CHop(s, h)) == VHop(Abs(s), h)
    ensures Delivered(CHop(s, h), h.to, h.visit.trap) == VOutput(Abs(s), h)
    ensures HwAgrees(CHop(s, h).hw, CHop(s, h).vcpus[h.to])
  {
    hide Add, Sub, Handle, OpEffect, HwAgrees, Restore;
    var c, r := Trapped(s, h), CHop(s, h);
    TrappedState(s, h);
    HandlerRefines(c, h.visit);
    HopShape(s, h);
    if Hangs(h.visit.trap) {
      HangingOp(h.visit);
    }
    var a, b := Abs(r).slots, VHop(Abs(s), h).slots;
    forall i | 0 <= i < |a| ensures a[i] == b[i] {
    }
  }

  lemma HangingOp(v: Visit)
    requires Hangs(v.trap)
    ensures OpOf(v) == NoOp
    ensures forall t: VTime, now: Word :: OpEffect(t, now, NoOp) == t && OpOutput(t, now, NoOp) == None
  {
  }

  /** A hop runs the handler on the trapped vCPU, stores `from`'s count, and touches no other. */
  lemma HopShape(s: Sys, h: Hop)
    requires Known(s) && Sensible(h, |s.vcpus|)
    ensures var c, r := Trapped(s, h), CHop(s, h);
            var c' := if Hangs(h.visit.trap) then c else Handle(c, h.visit.trap);
            && r.hw == c'.hw && r.vcpus[h.to] == c'.v
            && (h.from.Some? ==>
                  r.vcpus[h.from.value] == s.vcpus[h.from.value].(cntvct := Add(VirtualCount(s.hw), h.visit.dSave)))
            && (forall i :: 0 <= i < |s.vcpus| && i != h.to && h.from != Some(i) ==> r.vcpus[i] == s.vcpus[i])
  {
    hide Handle;
  }

  /** Timer refinement over whole runs: for every sequence of switches, ticks, guest steps,
      decoded accesses and overrides, the offset-free timers give the same state and return the
      same values. */
  lemma {:induction false} RunRefines(s: Sys, hops: seq<Hop>)
    requires Known(s) && forall h :: h in hops ==> Sensible(h, |s.vcpus|)
    ensures Abs(CRun(s, hops)) == VRun(Abs(s), hops)
    ensures COutputs(s, hops) == VOutputs(Abs(s), hops)
    ensures hops != [] ==>
              var t, last := CRun(s, hops), hops[|hops| - 1];
              last.to < |t.vcpus| && HwAgrees(t.hw, t.vcpus[last.to])
    decreases |hops|
  {
    hide CHop, VHop, Delivered, VOutput, HwAgrees;
    if hops != [] {
      assert hops[0] in hops && hops[|hops| - 1] in hops;
      HopRefines(s, hops[0]);
      RunRefines(CHop(s, hops[0]), hops[1..]);
    }
  }
}
