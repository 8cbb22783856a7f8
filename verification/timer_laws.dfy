/** What a guest can rely on about its timers over whole runs of vcpu_run. */
module TimerLaws {
  import opened Words
  import opened Scheduler
  import opened Machine
  import opened Runs
  import opened VirtualTime

  // ----- vcpu_run is a sequence of hops -----

  function HopsOf(s: Sys, r: Round): seq<Hop>
    requires LoopHead(s)
  {
    if s.halted then []
    else
      var c := s.sched.current.value;
      [Hop(None, c, r.first)] +
      if Yields(s, r) then [Hop(Some(c), BeforeSwitch(s, r).sched.current.value, r.second)] else []
  }

  function Trace(s: Sys, rs: seq<Round>): seq<Hop>
    requires LoopHead(s)
    decreases |rs|
  {
    if rs == [] then []
    else
      IterateKeepsLoopHead(s, rs[0]);
      HopsOf(s, rs[0]) + Trace(Iterate(s, rs[0]), rs[1..])
  }

  /** The values the traps of one iteration return to the guests. */
  function RoundOutputs(s: Sys, r: Round): seq<Option<Word>>
    requires LoopHead(s)
  {
    if s.halted then []
    else
      var c := s.sched.current.value;
      [Delivered(WorldSwitch(s, None, c, r.first), c, r.first.trap)] +
      if Yields(s, r)
      then [Delivered(Iterate(s, r), BeforeSwitch(s, r).sched.current.value, r.second.trap)] else []
  }

  function Outputs(s: Sys, rs: seq<Round>): seq<Option<Word>>
    requires LoopHead(s)
    decreases |rs|
  {
    if rs == [] then []
    else
      IterateKeepsLoopHead(s, rs[0]);
      RoundOutputs(s, rs[0]) + Outputs(Iterate(s, rs[0]), rs[1..])
  }

  predicate AllSensible(hops: seq<Hop>, n: nat) { forall h :: h in hops ==> Sensible(h, n) }

  lemma {:induction false} RunAppend(a: VState, g: seq<Hop>, h: seq<Hop>)
    requires AllSensible(g, |a.slots|) && AllSensible(h, |a.slots|)
    ensures VRun(a, g + h) == VRun(VRun(a, g), h)
    ensures VOutputs(a, g + h) == VOutputs(a, g) + VOutputs(VRun(a, g), h)
    decreases |g|
  {
    hide VHop, VOutput, Sensible;
    if g == [] {
      assert g + h == h;
    } else {
      assert g[0] in g;
      assert (g + h)[0] == g[0] && (g + h)[1..] == g[1..] + h;
      RunAppend(VHop(a, g[0]), g[1..], h);
    }
  }

  lemma OneOrTwoHops(a: VState, h: Hop, h': Hop)
    requires Sensible(h, |a.slots|) && Sensible(h', |a.slots|)
    ensures VRun(a, [h]) == VHop(a, h) && VOutputs(a, [h]) == [VOutput(a, h)]
    ensures VRun(a, [h, h']) == VHop(VHop(a, h), h')
    ensures VOutputs(a, [h, h']) == [VOutput(a, h), VOutput(VHop(a, h), h')]
  {
    hide VHop, VOutput, Sensible;
    OneHop(a, h);
    OneHop(VHop(a, h), h');
    assert [h, h'] == [h] + [h'];
    RunAppend(a, [h], [h']);
  }

  lemma OneHop(a: VState, h: Hop)
    requires Sensible(h, |a.slots|)
    ensures VRun(a, [h]) == VHop(a, h) && VOutputs(a, [h]) == [VOutput(a, h)]
  {
    hide VHop, VOutput, Sensible;
    assert [h][1..] == [];
  }

  /** The second half of a yielding iteration. */
  lemma SecondHopRefines(s: Sys, r: Round)
    requires LoopHead(s) && Yields(s, r)
    ensures var c := s.sched.current.value;
            var n := BeforeSwitch(s, r).sched.current;
            var s1, s' := WorldSwitch(s, None, c, r.first), Iterate(s, r);
            && n.Some? && s'.sched.current == n
            && var second := Hop(Some(c), n.value, r.second);
            && Sensible(second, |s.vcpus|)
            && Abs(s') == VHop(Abs(s1), second)
            && Delivered(s', n.value, r.second.trap) == VOutput(Abs(s1), second)
            && HwAgrees(s'.hw, s'.vcpus[n.value])
  {
    hide VHop, VOutput, Delivered, HwAgrees;
    var c, b := s.sched.current.value, BeforeSwitch(s, r);
    YieldingIteration(s, r);
    var second := Hop(Some(c), b.sched.current.value, r.second);
    assert b.(sched := b.sched.(current := Some(second.to))) == b;
    AbsIgnoresScheduler(WorldSwitch(s, None, c, r.first), c);
    HopRefines(b, second);
  }

  lemma IterateRefines(s: Sys, r: Round)
    requires LoopHead(s)
    ensures AllSensible(HopsOf(s, r), |s.vcpus|)
    ensures Abs(Iterate(s, r)) == VRun(Abs(s), HopsOf(s, r))
    ensures RoundOutputs(s, r) == VOutputs(Abs(s), HopsOf(s, r))
    ensures var s' := Iterate(s, r);
            !s.halted ==> s'.sched.current.value < |s'.vcpus| && HwAgrees(s'.hw, s'.vcpus[s'.sched.current.value])
  {
    hide VHop, VOutput, VRun, VOutputs, Delivered, HwAgrees, WorldSwitch, BeforeSwitch, Iterate, Abs;
    IterateKeepsLoopHead(s, r);
    SlotCount(s);
    var c := s.sched.current.value;
    var first := Hop(None, c, r.first);
    if s.halted {
      assert Iterate(s, r) == s by { HaltedStays(s, r); }
      NoHops(Abs(s));
    } else {
      assert s.(sched := s.sched.(current := Some(c))) == s;
      HopRefines(s, first);
      if Yields(s, r) {
        SecondHopRefines(s, r);
        var second := Hop(Some(c), BeforeSwitch(s, r).sched.current.value, r.second);
        OneOrTwoHops(Abs(s), first, second);
        assert HopsOf(s, r) == [first, second];
      } else {
        NoYieldKeepsTime(s, r);
        OneOrTwoHops(Abs(s), first, first);
        assert HopsOf(s, r) == [first];
      }
    }
  }

  lemma HaltedStays(s: Sys, r: Round)
    requires LoopHead(s) && s.halted
    ensures Iterate(s, r) == s
  {
  }

  lemma NoHops(a: VState)
    ensures VRun(a, []) == a && VOutputs(a, []) == []
  {
  }

  lemma AbsIgnoresScheduler(s: Sys, c: nat)
    requires c < |s.vcpus|
    ensures Abs(ClearRequest(s, c)) == Abs(s)
  {
    var a, b := Abs(ClearRequest(s, c)).slots, Abs(s).slots;
    forall i | 0 <= i < |a| ensures a[i] == b[i] {
    }
  }

  /** An iteration that does not yield makes no other difference than a cleared request. */
  lemma NoYieldKeepsTime(s: Sys, r: Round)
    requires LoopHead(s) && !s.halted && !Yields(s, r)
    ensures var c := s.sched.current.value; var s1 := WorldSwitch(s, None, c, r.first);
            && Iterate(s, r).sched == s.sched
            && Abs(Iterate(s, r)) == Abs(s1)
            && (HwAgrees(s1.hw, s1.vcpus[c]) ==> HwAgrees(Iterate(s, r).hw, Iterate(s, r).vcpus[c]))
  {
    var c := s.sched.current.value;
    var s1 := WorldSwitch(s, None, c, r.first);
    SwitchFrame(s, None, c, r.first);
    if !s1.halted && s1.vcpus[c].requestYield {
      YieldStep(ClearRequest(s1, c), r.second);
      AbsIgnoresScheduler(s1, c);
    }
  }

  /** Every run of vcpu_run, with any scheduling it decides on, implements the offset-free timers:
      same timer state, same values returned to the guests, in the same order. */
  lemma {:induction false} VcpuRunRefines(s: Sys, rs: seq<Round>)
    requires LoopHead(s)
    ensures AllSensible(Trace(s, rs), |s.vcpus|)
    ensures Abs(Rounds(s, rs)) == VRun(Abs(s), Trace(s, rs))
    ensures Outputs(s, rs) == VOutputs(Abs(s), Trace(s, rs))
    decreases |rs|
  {
    hide HopsOf, RoundOutputs, Iterate, Sensible, Abs;
    if rs != [] {
      var s' := Iterate(s, rs[0]);
      IterateRefines(s, rs[0]);
      IterateKeepsLoopHead(s, rs[0]);
      VcpuRunRefines(s', rs[1..]);
      SlotCount(s);
      RunAppend(Abs(s), HopsOf(s, rs[0]), Trace(s', rs[1..]));
    }
  }

  lemma SlotCount(s: Sys)
    ensures |Abs(s).slots| == |s.vcpus|
  {
  }

  // ----- Lockstep of the two timers -----

  function Retarget(reg: SysReg): SysReg {
    match reg
    case CNTP_CVAL => CNTV_CVAL
    case CNTP_CTL => CNTV_CTL
    case CNTP_TVAL => CNTV_TVAL
    case _ => reg
  }

  predicate AvoidsVirtual(t: Trap) {
    t.Sysreg? ==> t.reg != CNTV_CVAL && t.reg != CNTV_CTL && t.reg != CNTV_TVAL
  }

  /** The same stay, with every CNTP access made to CNTV instead and CNTV not touched otherwise. */
  function MirrorHop(a: VState, h: Hop): Hop
    requires h.to < |a.slots|
  {
    var v := h.visit;
    var trap := if v.trap.Sysreg? then v.trap.(reg := Retarget(v.trap.reg)) else v.trap;
    h.(visit := v.(trap := trap, guest := v.guest.(v := a.slots[h.to].v)))
  }

  /** The physical timers of one system equal the virtual timers of the other. */
  predicate Mirrored(a: VState, b: VState) {
    && a.now == b.now && |a.slots| == |b.slots|
    && forall i :: 0 <= i < |a.slots| ==>
         a.slots[i].snap == b.slots[i].snap && a.slots[i].p == b.slots[i].v && b.slots[i].v.ctl < 4
  }

  lemma LockstepHop(a: VState, b: VState, h: Hop)
    requires Mirrored(a, b) && Sensible(h, |a.slots|) && AvoidsVirtual(h.visit.trap)
    ensures Sensible(MirrorHop(b, h), |b.slots|)
    ensures Mirrored(VHop(a, h), VHop(b, MirrorHop(b, h)))
    ensures VOutput(a, h) == VOutput(b, MirrorHop(b, h))
  {
    hide Add, Sub, SignExtend32;
  }

  function MirrorHops(b: VState, hops: seq<Hop>): (r: seq<Hop>)
    requires AllSensible(hops, |b.slots|)
    ensures AllSensible(r, |b.slots|)
    decreases |hops|
  {
    if hops == [] then []
    else
      assert hops[0] in hops;
      var h := MirrorHop(b, hops[0]);
      [h] + MirrorHops(VHop(b, h), hops[1..])
  }

  lemma {:induction false} LockstepRun(a: VState, b: VState, hops: seq<Hop>)
    requires Mirrored(a, b) && AllSensible(hops, |a.slots|)
    requires forall h :: h in hops ==> AvoidsVirtual(h.visit.trap)
    ensures Mirrored(VRun(a, hops), VRun(b, MirrorHops(b, hops)))
    ensures VOutputs(a, hops) == VOutputs(b, MirrorHops(b, hops))
    decreases |hops|
  {
    hide Mirrored, VHop, VOutput, MirrorHop, AvoidsVirtual;
    assert |a.slots| == |b.slots| by { MirroredSizes(a, b); }
    if hops != [] {
      var h := hops[0];
      assert h in hops;
      LockstepHop(a, b, h);
      LockstepRun(VHop(a, h), VHop(b, MirrorHop(b, h)), hops[1..]);
    }
  }

  lemma MirroredSizes(a: VState, b: VState)
    requires Mirrored(a, b)
    ensures |a.slots| == |b.slots|
  {
  }

  /** The emulated CNTP is in lockstep with CNTV: two systems whose physical and virtual timers
      start equal, driven by the same switches, ticks and overrides and by the same accesses - to
      CNTP in one, to CNTV in the other - return the same values for ever. */
  lemma Lockstep(s: Sys, t: Sys, hops: seq<Hop>)
    requires Known(s) && Known(t) && |s.vcpus| == |t.vcpus| && Mirrored(Abs(s), Abs(t))
    requires AllSensible(hops, |s.vcpus|) && forall h :: h in hops ==> AvoidsVirtual(h.visit.trap)
    ensures var mirror := MirrorHops(Abs(t), hops);
            && COutputs(s, hops) == COutputs(t, mirror)
            && Mirrored(Abs(CRun(s, hops)), Abs(CRun(t, mirror)))
  {
    hide Mirrored, Abs, AvoidsVirtual;
    SlotCount(s);
    SlotCount(t);
    LockstepRun(Abs(s), Abs(t), hops);
    RunRefines(s, hops);
    RunRefines(t, MirrorHops(Abs(t), hops));
  }

  // ----- TVAL and override laws -----

  predicate SetsCompare(h: Hop, i: nat) {
    h.to == i && var op := OpOf(h.visit); (op.WriteCval? || op.WriteTval?) && op.w == P
  }

  /** Nothing but its own vCPU's CVAL and TVAL writes moves a physical timer: not switches, other
      vCPUs, nor overrides. */
  lemma {:induction false} CompareStable(a: VState, hops: seq<Hop>, i: nat)
    requires AllSensible(hops, |a.slots|) && i < |a.slots|
    requires forall h :: h in hops ==> !SetsCompare(h, i)
    ensures VRun(a, hops).slots[i].p.cval == a.slots[i].p.cval
    decreases |hops|
  {
    if hops != [] {
      assert hops[0] in hops;
      CompareStable(VHop(a, hops[0]), hops[1..], i);
    }
  }

  /** delta is the signed 32-bit number in the low half of raw, as a 64-bit one. */
  predicate Signed32(raw: Word, delta: Word) {
    && delta % 0x1_0000_0000 == raw % 0x1_0000_0000
    && (delta < 0x8000_0000 || delta >= MOD64 - 0x8000_0000)
  }

  /** TVAL written at virtual time t0 as the signed 32-bit number delta makes CVAL read t0 + delta, and
      TVAL read at any later t1, after whatever else has happened, delta - (t1 - t0), in wrap-around
      arithmetic. */
  lemma TvalCountsDown(a: VState, put: Hop, hops: seq<Hop>, get: Hop, i: nat, raw: Word, delta: Word)
    requires Sensible(put, |a.slots|) && AllSensible(hops, |a.slots|) && Sensible(get, |a.slots|)
    requires put.to == get.to == i
    requires OpOf(put.visit) == WriteTval(P, raw) && Signed32(raw, delta)
    requires forall h :: h in hops ==> !SetsCompare(h, i)
    requires get.visit.trap.Sysreg? && get.visit.trap.rt < 31
    ensures var t0, later := AccessTime(a, put), VRun(VHop(a, put), hops);
            var t1 := AccessTime(later, get);
            && (OpOf(get.visit) == ReadCval(P) ==> VOutput(later, get) == Some(Add(t0, delta)))
            && (OpOf(get.visit) == ReadTval(P) ==> VOutput(later, get) == Some(Sub(delta, Sub(t1, t0))))
  {
    SignExtendIff(raw, delta);
    CompareStable(VHop(a, put), hops, i);
    var t0, t1 := AccessTime(a, put), AccessTime(VRun(VHop(a, put), hops), get);
    assert Sub(Add(t0, delta), t1) == Sub(delta, Sub(t1, t0));
  }

  /** The same on the machine: over any run of hops, the saved virtual compare value of vCPU i stays
      unless vCPU i itself writes it. */
  lemma CompareKept(s: Sys, hops: seq<Hop>, i: nat)
    requires Known(s) && AllSensible(hops, |s.vcpus|) && i < |s.vcpus|
    requires forall h :: h in hops ==> !SetsCompare(h, i)
    ensures CRun(s, hops).vcpus[i].tf.p.cval == s.vcpus[i].tf.p.cval
  {
    hide SetsCompare, Sensible;
    RunRefines(s, hops);
    CompareStable(Abs(s), hops, i);
    assert Abs(CRun(s, hops)).slots[i].p.cval == CRun(s, hops).vcpus[i].tf.p.cval;
  }

  /** And over any run of vcpu_run. */
  lemma CompareKeptByRun(s: Sys, rs: seq<Round>, i: nat)
    requires LoopHead(s) && i < |s.vcpus|
    requires forall h :: h in Trace(s, rs) ==> !SetsCompare(h, i)
    ensures Rounds(s, rs).vcpus[i].tf.p.cval == s.vcpus[i].tf.p.cval
  {
    hide SetsCompare, Sensible, Trace, VRun, Iterate, VOutputs, Outputs;
    VcpuRunRefines(s, rs);
    SlotCount(s);
    CompareStable(Abs(s), Trace(s, rs), i);
    assert Abs(Rounds(s, rs)).slots[i].p.cval == Rounds(s, rs).vcpus[i].tf.p.cval;
  }

  /** TVAL counts down on the machine: the value a trapped read puts into the guest's register, for
      any run of hops between the write and the read, with t0 and t1 the virtual counts that the two
      handlers read from the hardware. */
  lemma TvalOnMachine(s: Sys, put: Hop, hops: seq<Hop>, get: Hop, i: nat, raw: Word, delta: Word)
    requires Known(s) && Sensible(put, |s.vcpus|) && AllSensible(hops, |s.vcpus|) && Sensible(get, |s.vcpus|)
    requires put.to == get.to == i && OpOf(put.visit) == WriteTval(P, raw) && Signed32(raw, delta)
    requires forall h :: h in hops ==> !SetsCompare(h, i)
    requires get.visit.trap.Sysreg? && get.visit.trap.rt < 31
    ensures var later := CRun(CHop(s, put), hops);
            var t0, t1 := VirtualCount(Trapped(s, put).hw), VirtualCount(Trapped(later, get).hw);
            var got := Delivered(CHop(later, get), i, get.visit.trap);
            && (OpOf(get.visit) == ReadCval(P) ==> got == Some(Add(t0, delta)))
            && (OpOf(get.visit) == ReadTval(P) ==> got == Some(Sub(delta, Sub(t1, t0))))
  {
    hide Add, Sub, Signed32, SetsCompare, Sensible, OpOf, CHop, VHop, Delivered, VOutput, HwAgrees, Abs, Trapped, AccessTime;
    SlotCount(s);
    HopRefines(s, put);
    TrappedState(s, put);
    var after := CHop(s, put);
    SlotCount(after);
    RunRefines(after, hops);
    var later := CRun(after, hops);
    SlotCount(later);
    HopRefines(later, get);
    TrappedState(later, get);
    TvalCountsDown(Abs(s), put, hops, get, i, raw, delta);
  }

  /** HVC 0x61 with target d, in a stay that began with any kind of entry: CVAL is untouched, the
      hardware timer has CVAL - d ticks left at that instant, x0 returns d, and the next entry
      without a yield in between starts at exactly d. */
  lemma OverrideLaw(s: Sys, from: Option<nat>, to: nat, v: Visit, next: Visit)
    requires Known(s) && s.sched.current == Some(to) && to < |s.vcpus| && v.trap == HvcTime
    requires from.Some? ==> from.value < |s.vcpus| && from.value != to
    ensures var d, r := v.guest.x[0], WorldSwitch(s, from, to, v);
            && r.vcpus[to].tf.p.cval == s.vcpus[to].tf.p.cval
            && r.vcpus[to].tf.regs[0] == d
            && VirtualCount(r.hw) == d
            && Sub(r.hw.p.cval, r.hw.pct) == Sub(s.vcpus[to].tf.p.cval, d)
            && VirtualCount(EnterGuest(r, None, to, next).hw) == d
  {
    hide Add, Sub, EnterGuest, LeaveGuest, Dispatch;
    StayRefines(s, from, to, v);
    SwitchFrame(s, from, to, v);
    ResumePoint(s, from, to, v);
    EntersOwnState(WorldSwitch(s, from, to, v), None, to, next);
  }

  /** One world switch as a hop of the offset-free timers, on the entered vCPU. */
  lemma StayRefines(s: Sys, from: Option<nat>, to: nat, v: Visit)
    requires Known(s) && s.sched.current == Some(to) && to < |s.vcpus|
    requires from.Some? ==> from.value < |s.vcpus| && from.value != to
    ensures var r, op := WorldSwitch(s, from, to, v), OpOf(v);
            var now := Add(s.vcpus[to].cntvct, v.guest.ticks);
            && AbsVcpu(r.vcpus[to]) == OpEffect(AtAccess(Abs(s), Hop(from, to, v)), now, op)
            && VirtualCount(r.hw) == (if op.Rebase? then op.val else now)
            && HwAgrees(r.hw, r.vcpus[to])
  {
    hide Add, Sub, EnterGuest, LeaveGuest, Dispatch, HwAgrees;
    var h := Hop(from, to, v);
    assert s.(sched := s.sched.(current := Some(to))) == s;
    HopRefines(s, h);
    var r := WorldSwitch(s, from, to, v);
    assert AbsVcpu(r.vcpus[to]) == Abs(r).slots[to];
  }

  // ----- What is not kept: time across a trap without a yield -----

  /** The count a guest would see on re-entry if its virtual time had simply run on. */
  function Continued(r: Sys, next: Visit): Word {
    VirtualCount(Tick(Tick(r.hw, next.dSave), next.dLoad))
  }

  /** The counter ticks since the vCPU's count was last set: by its previous entry, or by the
      override that this stay ended with. */
  function Elapsed(v: Visit, next: Visit): Word {
    Add(Add(if v.trap.HvcTime? then 0 else v.guest.ticks, next.dSave), next.dLoad)
  }

  /** trap.c:14-15 promises the saved count plus the time since scheduling in. On a re-entry without
      a yield, after any trap and whatever kind of entry came before, that holds exactly when no
      counter tick has passed since the count was last set (modulo 2^64): otherwise the clock goes
      back by all the ticks that have. */
  lemma ReentryContinuesIff(s: Sys, from: Option<nat>, to: nat, v: Visit, next: Visit)
    requires Known(s) && s.sched.current == Some(to) && to < |s.vcpus|
    requires from.Some? ==> from.value < |s.vcpus| && from.value != to
    ensures var r := WorldSwitch(s, from, to, v);
            var count := VirtualCount(EnterGuest(r, None, to, next).hw);
            && (count == Continued(r, next) <==> Elapsed(v, next) == 0)
            && Sub(Continued(r, next), count) == Elapsed(v, next)
  {
    hide Add, Sub, EnterGuest, LeaveGuest, Dispatch, HwAgrees;
    StayRefines(s, from, to, v);
    var r := WorldSwitch(s, from, to, v);
    EntersOwnState(r, None, to, next);
    NothingAdded(r.vcpus[to].cntvct);
    ElapsedSum(r.vcpus[to].cntvct, if v.trap.HvcTime? then 0 else v.guest.ticks, next.dSave, next.dLoad);
    DomainLaws(r.hw.pct, next.dSave, r.hw.cntvoff);
    DomainLaws(Add(r.hw.pct, next.dSave), next.dLoad, r.hw.cntvoff);
  }

  lemma NothingAdded(a: Word)
    ensures Add(a, 0) == a
  {
  }

  lemma ElapsedSum(a: Word, b: Word, c: Word, d: Word)
    ensures Sub(Add(Add(Add(a, b), c), d), a) == Add(Add(b, c), d)
    ensures Add(Add(Add(a, b), c), d) == a <==> Add(Add(b, c), d) == 0
  {
  }

  /** A clock that goes back: from count 100, a WFI at 105 and a re-entry at once shows 100; and from
      an override to 200, a re-entry 7 ticks later shows 200. */
  lemma ClockGoesBack(s: Sys, from: Option<nat>, to: nat, v: Visit, next: Visit)
    requires Known(s) && s.sched.current == Some(to) && to < |s.vcpus| && s.vcpus[to].cntvct == 100
    requires from.Some? ==> from.value < |s.vcpus| && from.value != to
    ensures var r := WorldSwitch(s, from, to, v);
            var count := VirtualCount(EnterGuest(r, None, to, next).hw);
            && (v.trap == Wfi && v.guest.ticks == 5 && next.dSave == next.dLoad == 0 ==>
                  Continued(r, next) == 105 && count == 100)
            && (v.trap == HvcTime && v.guest.x[0] == 200 && next.dSave == 7 && next.dLoad == 0 ==>
                  Continued(r, next) == 207 && count == 200)
  {
    hide EnterGuest, LeaveGuest, Dispatch, HwAgrees;
    StayRefines(s, from, to, v);
    EntersOwnState(WorldSwitch(s, from, to, v), None, to, next);
  }

  /** What a trapped TVAL write does, of either timer, to the frame and the hardware: the compare
      value becomes the count plus the signed 32-bit number written. */
  lemma TvalWriteLaw(c: Core, reg: SysReg, rt: nat, delta: Word)
    requires HwAgrees(c.hw, c.v) && rt < 31 && (reg == CNTP_TVAL || reg == CNTV_TVAL)
    requires Signed32(c.v.tf.regs[rt], delta)
    ensures var c', target := HandleSysreg(c, reg, rt, false), Add(VirtualCount(c.hw), delta);
            if reg == CNTP_TVAL
            then c'.v.tf.p.cval == target && Add(c'.hw.p.cval, c'.hw.cntvoff) == target && c'.hw.v == c.hw.v
            else c'.v.tf.v.cval == target && c'.hw.v.cval == target && c'.hw.p == c.hw.p
  {
    hide Add, Sub, SignExtend32;
    SignExtendIff(c.v.tf.regs[rt], delta);
    DomainLaws(Add(VirtualCount(c.hw), delta), c.hw.cntvoff, 0);
  }

  // ----- The width of a TVAL read -----

  /** trap.c:197 and trap.c:269 call the value of a TVAL read a 32-bit delta, for which it would have
      to equal its own sign-extended low half. The code returns all 64 bits of compare value minus
      count, so that holds exactly when the delta lies within 2^31 of zero. */
  lemma TvalReadFits32Iff(c: Core, reg: SysReg, rt: nat)
    requires rt < 31 && (reg == CNTP_TVAL || reg == CNTV_TVAL)
    ensures var cval := if reg == CNTP_TVAL then c.v.tf.p.cval else c.hw.v.cval;
            var delta := Sub(cval, VirtualCount(c.hw));
            var r := HandleSysreg(c, reg, rt, true).v.tf.regs[rt];
            && r == delta
            && (SignExtend32(r) == r <==> delta < 0x8000_0000 || delta >= MOD64 - 0x8000_0000)
  {
    hide Sub, Add;
  }

  /** A timer 2^32 ticks away: the read gives 2^32, not the 0 that its low half stands for. */
  lemma TvalReadTooWide(c: Core, reg: SysReg, rt: nat)
    requires rt < 31 && (reg == CNTP_TVAL || reg == CNTV_TVAL) && VirtualCount(c.hw) == 1000
    requires c.v.tf.p.cval == c.hw.v.cval == 1000 + 0x1_0000_0000
    ensures var r := HandleSysreg(c, reg, rt, true).v.tf.regs[rt];
            r == 0x1_0000_0000 && SignExtend32(r) == 0
  {
    TvalReadFits32Iff(c, reg, rt);
  }
}
