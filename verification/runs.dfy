/** Whole runs of vcpu_run: who is trapped, who yields, and what a descheduled vCPU keeps. */
module Runs {
  import opened Words
  import opened Scheduler
  import opened Machine

  /** The state at the head of the loop in vcpu_run. Only the current vCPU can owe a yield. */
  predicate LoopHead(s: Sys) {
    && Known(s) && Inv(s.sched) && s.latch == None
    && s.sched.current.Some?
    && (forall i :: 0 <= i < |s.vcpus| && s.sched.current != Some(i) ==> !s.vcpus[i].requestYield)
  }

  // ----- One world switch -----

  /** What a handler leaves of the vCPU's record outside the frame, count and offset. */
  lemma HandlerRecord(c: Core, trap: Trap)
    ensures var v := Handle(c, trap).v;
            v.requestYield == (c.v.requestYield || trap.Wfi?) && v.vttbr == c.v.vttbr
  {
    hide Add, Sub, SignExtend32;
  }

  /** Attribution: when the guest runs, the latch names the vCPU being entered, and so does
      sched_current; a trap clears the latch and touches the frame of no other vCPU. */
  lemma SwitchFrame(s: Sys, from: Option<nat>, to: nat, v: Visit)
    requires Known(s) && s.sched.current == Some(to) && (from.Some? ==> from.value < |s.vcpus| && from.value != to)
    ensures EnterGuest(s, from, to, v).latch == Some(to) == s.sched.current
    ensures var r := WorldSwitch(s, from, to, v);
            && r.latch == None && r.sched == s.sched
            && (forall i :: 0 <= i < |s.vcpus| && i != to && from != Some(i) ==> r.vcpus[i] == s.vcpus[i])
            && (from.Some? ==>
                  r.vcpus[from.value] == s.vcpus[from.value].(cntvct := VirtualCount(Tick(s.hw, v.dSave))))
            && r.vcpus[to].requestYield == (s.vcpus[to].requestYield || v.trap.Wfi?)
            && r.vcpus[to].vttbr == s.vcpus[to].vttbr
            && r.halted == (s.halted || Hangs(v.trap))
  {
    hide Handle, Add, Sub;
    var e := LeaveGuest(EnterGuest(s, from, to, v), v.guest);
    HandlerRecord(Core(e.hw, e.vcpus[to]), v.trap);
  }

  /** Which traps halt the hypervisor: an unknown one (or HVC 0x63) and an access to a register that
      is not emulated. A task report, a time override, a WFI and an emulated access never do. */
  lemma HaltsExactlyOn(s: Sys, from: Option<nat>, to: nat, v: Visit)
    requires Known(s) && s.sched.current == Some(to) && (from.Some? ==> from.value < |s.vcpus| && from.value != to)
    ensures WorldSwitch(s, from, to, v).halted <==>
              s.halted || v.trap == Fatal || (v.trap.Sysreg? && v.trap.reg == OTHER)
  {
    SwitchFrame(s, from, to, v);
  }

  /** With no current vCPU every trap but a WFI halts, and no record changes. */
  lemma NobodyCurrent(s: Sys, trap: Trap)
    requires Known(s) && s.sched.current == None
    ensures Dispatch(s, trap).halted <==> s.halted || trap != Wfi
    ensures Dispatch(s, trap).vcpus == s.vcpus
    ensures trap == Wfi ==> Dispatch(s, trap).hw.el1.elr == Add(s.hw.el1.elr, 4)
  {
  }

  /** The physical counter only ever runs on: no switch or handler sets it. */
  lemma CounterRunsOn(s: Sys, from: Option<nat>, to: nat, v: Visit)
    requires Known(s) && s.sched.current == Some(to) && (from.Some? ==> from.value < |s.vcpus| && from.value != to)
    ensures EnterGuest(s, from, to, v).hw.pct == Add(Add(s.hw.pct, v.dSave), v.dLoad)
    ensures WorldSwitch(s, from, to, v).hw.pct == Add(Add(Add(s.hw.pct, v.dSave), v.dLoad), v.guest.ticks)
  {
    hide Add, Sub, SignExtend32;
  }

  /** What the guest finds in the registers: its own frame and its own stage-2 tables. */
  lemma EntersOwnState(s: Sys, from: Option<nat>, to: nat, v: Visit)
    requires Known(s) && to < |s.vcpus| && (from.Some? ==> from.value < |s.vcpus| && from.value != to)
    ensures var e, vcpu := EnterGuest(s, from, to, v), s.vcpus[to];
            && e.hw.x == vcpu.tf.regs && e.hw.el1 == vcpu.tf.el1 && e.hw.vttbr == vcpu.vttbr
            && e.vcpus[to].tf == vcpu.tf
            && VirtualCount(e.hw) == vcpu.cntvct
            && Sub(e.hw.p.cval, e.hw.pct) == Sub(vcpu.tf.p.cval, vcpu.cntvct)
            && Sub(e.hw.v.cval, VirtualCount(e.hw)) == Sub(vcpu.tf.v.cval, vcpu.cntvct)
  {
  }

  /** What an emulated access may do to the trapped vCPU's frame. */
  lemma AccessFrame(c: Core, reg: SysReg, rt: nat, isRead: bool)
    requires reg != OTHER
    ensures var tf, tf' := c.v.tf, HandleSysreg(c, reg, rt, isRead).v.tf;
            && tf'.el1 == tf.el1.(elr := Add(c.hw.el1.elr, 4))
            && (forall i :: 0 <= i < 31 && !(isRead && i == rt) ==> tf'.regs[i] == tf.regs[i])
            && HandleSysreg(c, reg, rt, isRead).hw.el1 == c.hw.el1.(elr := Add(c.hw.el1.elr, 4))
  {
    hide Add, Sub, SignExtend32, VirtualCount;
  }

  /** What a handler may do to the trapped vCPU's frame. */
  lemma HandlerFrame(c: Core, trap: Trap)
    ensures var tf, tf' := c.v.tf, Handle(c, trap).v.tf;
            && tf'.el1 == (if trap.Wfi? || (trap.Sysreg? && trap.reg != OTHER)
                           then tf.el1.(elr := Add(c.hw.el1.elr, 4)) else tf.el1)
            && (forall i :: 0 <= i < 31 && !(trap.Sysreg? && trap.isRead && i == trap.rt) ==> tf'.regs[i] == tf.regs[i])
            && (c.hw.el1.elr == tf.el1.elr ==> Handle(c, trap).hw.el1.elr == tf'.el1.elr)
  {
    hide Add, Sub, HandleSysreg;
    if trap.Sysreg? && trap.reg != OTHER {
      AccessFrame(c, trap.reg, trap.rt, trap.isRead);
    }
  }

  /** Where a vCPU resumes after a trap: past a WFI and past an emulated access, but at the
      reported return address of a hypercall; only the target of a read changes in its registers.
      ELR_EL2 itself agrees with the frame. */
  lemma ResumePoint(s: Sys, from: Option<nat>, to: nat, v: Visit)
    requires Known(s) && s.sched.current == Some(to) && (from.Some? ==> from.value < |s.vcpus| && from.value != to)
    requires v.trap != Fatal && (v.trap.Sysreg? ==> v.trap.reg != OTHER)
    ensures var r, g := WorldSwitch(s, from, to, v), v.guest;
            && var tf := r.vcpus[to].tf;
            && tf.el1 == g.el1.(elr := if v.trap.Wfi? || v.trap.Sysreg? then Add(g.el1.elr, 4) else g.el1.elr)
            && (forall i :: 0 <= i < 31 && !(v.trap.Sysreg? && v.trap.isRead && i == v.trap.rt) ==> tf.regs[i] == g.x[i])
            && r.hw.el1.elr == tf.el1.elr
  {
    hide Add, Sub, SignExtend32, Handle;
    var hw := GuestStep(EnterGuest(s, from, to, v).hw, v.guest);
    var vcpu := EnterGuest(s, from, to, v).vcpus[to].(tf := Capture(hw));
    HandlerFrame(Core(hw, vcpu), v.trap);
  }

  /** Registers x and EL1 state el1 are the ones to resume with after a visit that ended in a handled
      trap: the guest's own, but for the value of a read and the program counter. */
  predicate Resumes(x: Gprs, el1: El1, v: Visit) {
    && el1 == v.guest.el1.(elr := if v.trap.Wfi? || v.trap.Sysreg? then Add(v.guest.el1.elr, 4) else v.guest.el1.elr)
    && (forall i :: 0 <= i < 31 && !(v.trap.Sysreg? && v.trap.isRead && i == v.trap.rt) ==> x[i] == v.guest.x[i])
  }

  // ----- Iterations -----

  lemma IterateKeepsLoopHead(s: Sys, r: Round)
    requires LoopHead(s)
    ensures LoopHead(Iterate(s, r))
    ensures Iterate(s, r).sched.queue == s.sched.queue
  {
    if !s.halted {
      var c := s.sched.current.value;
      var s1 := WorldSwitch(s, None, c, r.first);
      SwitchFrame(s, None, c, r.first);
      if !s1.halted && s1.vcpus[c].requestYield {
        var s2 := ClearRequest(s1, c);
        YieldStep(s2, r.second);
      }
    }
  }

  /** A yield that is not refused runs the next vCPU of the queue and leaves it current. */
  lemma YieldStep(s: Sys, v: Visit)
    requires Known(s) && Inv(s.sched) && s.sched.current.Some?
    ensures CanYield(s.sched) <==> |s.sched.queue| >= 2
    ensures CanYield(s.sched) ==>
              var c, n := s.sched.current.value, Select(s.sched).current.value;
              && n != c && n < |s.vcpus| && n in s.sched.queue
              && Known(s.(sched := Select(s.sched))) && Inv(Select(s.sched))
              && Select(s.sched).queue == s.sched.queue
              && Yield(s, v) == WorldSwitch(s.(sched := Select(s.sched)), Some(c), n, v)
              && Yield(s, v).sched == Select(s.sched)
              && (forall i :: 0 <= i < |s.vcpus| && i != c && i != n ==> Yield(s, v).vcpus[i] == s.vcpus[i])
              && Yield(s, v).vcpus[c].requestYield == s.vcpus[c].requestYield
              && Yield(s, v).latch == None
  {
    YieldRefusedIff(s.sched);
    if CanYield(s.sched) {
      ApplyKeepsInv(s.sched, OpYield);
      assert s.sched.queue[Next(s.sched)] in s.sched.queue;
      var s' := s.(sched := Select(s.sched));
      SwitchFrame(s', s.sched.current, s'.sched.current.value, v);
    }
  }

  /** A yield request that is pending at the loop head, or raised by the iteration's own entry, is
      consumed in that iteration; with two vCPUs or more, another one is then current. */
  lemma RequestConsumed(s: Sys, r: Round)
    requires LoopHead(s) && !s.halted && !Hangs(r.first.trap)
    requires s.vcpus[s.sched.current.value].requestYield || r.first.trap.Wfi?
    ensures var s', c := Iterate(s, r), s.sched.current.value;
            if |s.sched.queue| >= 2 then s'.sched == Select(s.sched) && s'.sched.current != Some(c) && !s'.vcpus[c].requestYield
            else s'.sched == s.sched && !s'.vcpus[c].requestYield
  {
    var c := s.sched.current.value;
    var s1 := WorldSwitch(s, None, c, r.first);
    SwitchFrame(s, None, c, r.first);
    YieldStep(ClearRequest(s1, c), r.second);
  }

  /** Without a request the same vCPU goes round again. */
  lemma NoRequestNoSwitch(s: Sys, r: Round)
    requires LoopHead(s) && !s.halted
    requires !s.vcpus[s.sched.current.value].requestYield && !r.first.trap.Wfi?
    ensures var s' := Iterate(s, r);
            s'.sched == s.sched && !s'.vcpus[s.sched.current.value].requestYield
  {
    SwitchFrame(s, None, s.sched.current.value, r.first);
  }

  /** What an iteration leaves in the records: each vCPU that was entered holds the state its guest
      trapped in, moved on past the trapped instruction, and every other record is as it was. */
  lemma IterateRecords(s: Sys, r: Round)
    requires LoopHead(s) && !s.halted
    ensures var s', c := Iterate(s, r), s.sched.current.value;
            && (r.first.trap != Fatal && (r.first.trap.Sysreg? ==> r.first.trap.reg != OTHER) ==>
                  Resumes(s'.vcpus[c].tf.regs, s'.vcpus[c].tf.el1, r.first))
            && (forall i :: 0 <= i < |s.vcpus| && i != c && s'.sched.current != Some(i) ==> s'.vcpus[i] == s.vcpus[i])
            && s'.vcpus[c].vttbr == s.vcpus[c].vttbr
    ensures var s' := Iterate(s, r);
            Yields(s, r) && r.second.trap != Fatal && (r.second.trap.Sysreg? ==> r.second.trap.reg != OTHER) ==>
              && s'.sched.current.value < |s'.vcpus|
              && Resumes(s'.vcpus[s'.sched.current.value].tf.regs, s'.vcpus[s'.sched.current.value].tf.el1, r.second)
  {
    hide EnterGuest, LeaveGuest, Dispatch, Add;
    var c := s.sched.current.value;
    var s1 := WorldSwitch(s, None, c, r.first);
    SwitchFrame(s, None, c, r.first);
    if !Hangs(r.first.trap) {
      ResumePoint(s, None, c, r.first);
    }
    if !s1.halted && s1.vcpus[c].requestYield {
      var s2 := ClearRequest(s1, c);
      YieldStep(s2, r.second);
      if CanYield(s2.sched) {
        var b := s2.(sched := Select(s2.sched));
        var n := b.sched.current.value;
        SwitchFrame(b, Some(c), n, r.second);
        if !Hangs(r.second.trap) {
          ResumePoint(b, Some(c), n, r.second);
        }
      }
    }
  }

  /** The visit of an iteration that ended last. */
  function LastVisit(s: Sys, r: Round): Visit
    requires Known(s)
  {
    if Yields(s, r) then r.second else r.first
  }

  /** Re-entry without a yield: at the next head the current vCPU is entered again with the registers
      and EL1 state its guest trapped in, at the resume point. */
  lemma ReentryResumes(s: Sys, r: Round, next: Visit)
    requires LoopHead(s) && !s.halted
    requires r.first.trap != Fatal && (r.first.trap.Sysreg? ==> r.first.trap.reg != OTHER)
    requires Yields(s, r) ==> r.second.trap != Fatal && (r.second.trap.Sysreg? ==> r.second.trap.reg != OTHER)
    ensures var s' := Iterate(s, r);
            && LoopHead(s')
            && var e := EnterGuest(s', None, s'.sched.current.value, next).hw;
               Resumes(e.x, e.el1, LastVisit(s, r))
  {
    hide EnterGuest, WorldSwitch, BeforeSwitch, Yields, Inv, Iterate, Resumes, Add;
    IterateKeepsLoopHead(s, r);
    IterateRecords(s, r);
    YieldingIteration(s, r);
    var s' := Iterate(s, r);
    EntersOwnState(s', None, s'.sched.current.value, next);
  }

  /** The traps that an iteration takes. */
  function TakenTraps(s: Sys, r: Round): seq<Trap>
    requires Known(s)
  {
    if s.halted || s.sched.current.None? then []
    else [r.first.trap] + if Yields(s, r) then [r.second.trap] else []
  }

  function AllTraps(s: Sys, rs: seq<Round>): seq<Trap>
    requires Known(s)
    decreases |rs|
  {
    if rs == [] then [] else TakenTraps(s, rs[0]) + AllTraps(Iterate(s, rs[0]), rs[1..])
  }

  /** One of the traps is unknown or an access to a register that is not emulated. */
  predicate AnyUnhandled(traps: seq<Trap>) {
    exists t :: t in traps && (t == Fatal || (t.Sysreg? && t.reg == OTHER))
  }

  lemma UnhandledParts(t: Trap, a: seq<Trap>, b: seq<Trap>)
    ensures !AnyUnhandled([])
    ensures AnyUnhandled([t]) <==> t == Fatal || (t.Sysreg? && t.reg == OTHER)
    ensures AnyUnhandled(a + b) <==> AnyUnhandled(a) || AnyUnhandled(b)
  {
    if t == Fatal || (t.Sysreg? && t.reg == OTHER) {
      assert t in [t];
    }
    if AnyUnhandled(a) {
      var u :| u in a && (u == Fatal || (u.Sysreg? && u.reg == OTHER));
      assert u in a + b;
    }
    if AnyUnhandled(b) {
      var u :| u in b && (u == Fatal || (u.Sysreg? && u.reg == OTHER));
      assert u in a + b;
    }
  }

  lemma IterateHaltsOn(s: Sys, r: Round)
    requires LoopHead(s)
    ensures Iterate(s, r).halted <==> s.halted || AnyUnhandled(TakenTraps(s, r))
  {
    hide EnterGuest, LeaveGuest, Dispatch, AnyUnhandled;
    UnhandledParts(r.first.trap, [r.first.trap], [r.second.trap]);
    UnhandledParts(r.second.trap, [r.first.trap], []);
    assert [r.first.trap] + [] == [r.first.trap];
    if !s.halted {
      var c := s.sched.current.value;
      HaltsExactlyOn(s, None, c, r.first);
      SwitchFrame(s, None, c, r.first);
      YieldingIteration(s, r);
      if Yields(s, r) {
        var b := BeforeSwitch(s, r);
        HaltsExactlyOn(b, Some(c), b.sched.current.value, r.second);
      } else {
        YieldStep(ClearRequest(WorldSwitch(s, None, c, r.first), c), r.second);
      }
    }
  }

  /** A run that starts unhalted is halted exactly when one of the traps it took was unknown or an
      access to a register that is not emulated. */
  lemma {:induction false} RunHaltsExactlyOn(s: Sys, rs: seq<Round>)
    requires LoopHead(s)
    ensures Rounds(s, rs).halted <==> s.halted || AnyUnhandled(AllTraps(s, rs))
    decreases |rs|
  {
    hide Iterate, TakenTraps, AnyUnhandled;
    UnhandledParts(Fatal, [], []);
    if rs != [] {
      IterateKeepsLoopHead(s, rs[0]);
      IterateHaltsOn(s, rs[0]);
      RunHaltsExactlyOn(Iterate(s, rs[0]), rs[1..]);
      UnhandledParts(Fatal, TakenTraps(s, rs[0]), AllTraps(Iterate(s, rs[0]), rs[1..]));
    }
  }

  /** The loop invariant of vcpu_run over every run, so its `break` on a null current vCPU is
      never taken. */
  lemma {:induction false} RunKeepsLoopHead(s: Sys, rs: seq<Round>)
    requires LoopHead(s)
    ensures LoopHead(Rounds(s, rs)) && Rounds(s, rs).sched.queue == s.sched.queue
    decreases |rs|
  {
    if rs != [] {
      IterateKeepsLoopHead(s, rs[0]);
      RunKeepsLoopHead(Iterate(s, rs[0]), rs[1..]);
    }
  }

  // ----- Descheduled vCPUs -----

  /** vCPU a is not current after any of the rounds. */
  predicate StaysOut(s: Sys, rs: seq<Round>, a: nat)
    requires Known(s)
    decreases |rs|
  {
    s.sched.current != Some(a) && (rs == [] || StaysOut(Iterate(s, rs[0]), rs[1..], a))
  }

  lemma OutsiderUntouched(s: Sys, r: Round, a: nat)
    requires LoopHead(s) && a < |s.vcpus|
    requires s.sched.current != Some(a) && Iterate(s, r).sched.current != Some(a)
    ensures Iterate(s, r).vcpus[a] == s.vcpus[a]
  {
    if !s.halted {
      var c := s.sched.current.value;
      var s1 := WorldSwitch(s, None, c, r.first);
      SwitchFrame(s, None, c, r.first);
      if !s1.halted && s1.vcpus[c].requestYield {
        YieldStep(ClearRequest(s1, c), r.second);
      }
    }
  }

  /** While a vCPU is out, its whole record is unchanged, whatever the others run, trap on or
      override, and however far the counter advances. */
  lemma {:induction false} DeschedulingFreezes(s: Sys, rs: seq<Round>, a: nat)
    requires LoopHead(s) && a < |s.vcpus| && StaysOut(s, rs, a)
    ensures Rounds(s, rs).vcpus[a] == s.vcpus[a]
    ensures Rounds(s, rs).sched.current != Some(a)
    decreases |rs|
  {
    if rs != [] {
      IterateKeepsLoopHead(s, rs[0]);
      OutsiderUntouched(s, rs[0], a);
      DeschedulingFreezes(Iterate(s, rs[0]), rs[1..], a);
    }
  }

  /** The state just before the yield of an iteration switches worlds. */
  function BeforeSwitch(s: Sys, r: Round): Sys
    requires Known(s)
  {
    if s.sched.current.None? then s
    else
      var c := s.sched.current.value;
      var s1 := ClearRequest(WorldSwitch(s, None, c, r.first), c);
      s1.(sched := Select(s1.sched))
  }

  /** The iteration yields. */
  predicate Yields(s: Sys, r: Round)
    requires Known(s)
  {
    && !s.halted && !Hangs(r.first.trap) && |s.sched.queue| >= 2 && s.sched.current.Some?
    && (s.vcpus[s.sched.current.value].requestYield || r.first.trap.Wfi?)
  }

  lemma YieldingIteration(s: Sys, r: Round)
    requires LoopHead(s)
    ensures Iterate(s, r).sched.current != s.sched.current <==> Yields(s, r)
    ensures Yields(s, r) ==>
              var c, b := s.sched.current.value, BeforeSwitch(s, r);
              && Known(b) && b.sched.current.Some? && b.sched.current.value != c && |b.vcpus| == |s.vcpus|
              && Iterate(s, r) == WorldSwitch(b, Some(c), b.sched.current.value, r.second)
              && (forall i :: 0 <= i < |s.vcpus| && i != c ==> b.vcpus[i] == s.vcpus[i])
  {
    var c := s.sched.current.value;
    if !s.halted {
      var s1 := WorldSwitch(s, None, c, r.first);
      SwitchFrame(s, None, c, r.first);
      YieldStep(ClearRequest(s1, c), r.second);
    }
  }

  /** A WFI trapped inside the switch that a yield makes - whether the yield was requested in its own
      iteration or was itself left pending - is pending at the next head, and the very next
      iteration honours it. */
  lemma LateWfiHonoured(s: Sys, r: Round, r': Round)
    requires LoopHead(s) && Yields(s, r)
    requires r.second.trap.Wfi? && !Hangs(r'.first.trap)
    ensures var s1 := Iterate(s, r); var n := s1.sched.current.value;
            && LoopHead(s1) && !s1.halted && s1.vcpus[n].requestYield && Yields(s1, r')
            && Iterate(s1, r').sched == Select(s1.sched)
            && Iterate(s1, r').sched.current != Some(n) && !Iterate(s1, r').vcpus[n].requestYield
  {
    hide EnterGuest, LeaveGuest, Dispatch;
    var c, b := s.sched.current.value, BeforeSwitch(s, r);
    YieldingIteration(s, r);
    SwitchFrame(s, None, c, r.first);
    SwitchFrame(b, Some(c), b.sched.current.value, r.second);
    IterateKeepsLoopHead(s, r);
    RequestConsumed(Iterate(s, r), r');
  }

  // ----- Bounded waiting in vcpu_run -----

  /** The scheduler after an iteration: moved on by one exactly when the iteration yields. */
  lemma IterateSchedules(s: Sys, r: Round)
    requires LoopHead(s)
    ensures Iterate(s, r).sched == if Yields(s, r) then Select(s.sched) else s.sched
  {
    hide EnterGuest, LeaveGuest, Dispatch;
    if !s.halted {
      var c := s.sched.current.value;
      SwitchFrame(s, None, c, r.first);
      YieldStep(ClearRequest(WorldSwitch(s, None, c, r.first), c), r.second);
    }
  }

  /** How many of the rounds yield. */
  function YieldingRounds(s: Sys, rs: seq<Round>): nat
    requires Known(s)
    decreases |rs|
  {
    if rs == [] then 0 else (if Yields(s, rs[0]) then 1 else 0) + YieldingRounds(Iterate(s, rs[0]), rs[1..])
  }

  /** In any run of vcpu_run, the vCPU in slot p is current at some loop head before more than
      Wait(s.sched, p) <= 7 iterations have yielded. */
  lemma {:induction false} BoundedWaitingInRun(s: Sys, rs: seq<Round>, p: nat)
    requires LoopHead(s) && p < |s.sched.queue|
    requires YieldingRounds(s, rs) >= Wait(s.sched, p)
    ensures exists k :: 0 <= k <= |rs| && Rounds(s, rs[..k]).sched.current == Some(s.sched.queue[p])
                        && YieldingRounds(s, rs[..k]) <= Wait(s.sched, p) <= 7
    decreases |rs|
  {
    hide Iterate, Yields, Wait;
    WaitShrinks(s.sched, OpYield, p);
    if rs == [] || Wait(s.sched, p) == 0 {
      assert rs[..0] == [];
      assert Rounds(s, rs[..0]).sched.current == Some(s.sched.queue[p]);
    } else {
      var s', rest := Iterate(s, rs[0]), rs[1..];
      IterateKeepsLoopHead(s, rs[0]);
      IterateSchedules(s, rs[0]);
      BoundedWaitingInRun(s', rest, p);
      var k :| 0 <= k <= |rest| && Rounds(s', rest[..k]).sched.current == Some(s'.sched.queue[p])
               && YieldingRounds(s', rest[..k]) <= Wait(s'.sched, p) <= 7;
      assert rs[..k + 1][0] == rs[0] && rs[..k + 1][1..] == rest[..k];
      assert Rounds(s, rs[..k + 1]).sched.current == Some(s.sched.queue[p]);
    }
  }

  // ----- Across a descheduling -----

  /** Frozen time and isolation across a descheduling: vCPU a yields away in round `out`, stays out
      for any rounds, and is switched back in by round `back`. It is then entered with the
      registers and EL1 state its guest trapped in, at the resume point; its virtual count is the one
      read when it was switched out, and both of its timers have exactly the ticks left that they had
      then. */
  lemma FrozenAcrossDeschedule(s: Sys, out: Round, rs: seq<Round>, back: Round, a: nat)
    requires LoopHead(s) && s.sched.current == Some(a) && Yields(s, out)
    requires StaysOut(Iterate(s, out), rs, a)
    requires Iterate(Rounds(Iterate(s, out), rs), back).sched.current == Some(a)
    ensures var gone, again := BeforeSwitch(s, out), Rounds(Iterate(s, out), rs);
            && Yields(again, back) && BeforeSwitch(again, back).sched.current == Some(a)
            && Known(BeforeSwitch(again, back))
            && var left := Tick(gone.hw, out.second.dSave);
               var e := EnterGuest(BeforeSwitch(again, back), again.sched.current, a, back.second).hw;
               var tf := gone.vcpus[a].tf;
               && e.x == tf.regs && e.el1 == tf.el1 && Resumes(e.x, e.el1, out.first)
               && VirtualCount(e) == VirtualCount(left)
               && Sub(e.p.cval, e.pct) == Sub(tf.p.cval, VirtualCount(left))
               && Sub(e.v.cval, VirtualCount(e)) == Sub(tf.v.cval, VirtualCount(left))
  {
    hide EnterGuest, WorldSwitch, Resumes;
    var gone, s1 := BeforeSwitch(s, out), Iterate(s, out);
    var again := Rounds(s1, rs);
    YieldingIteration(s, out);
    IterateRecords(s, out);
    SwitchFrame(gone, Some(a), gone.sched.current.value, out.second);
    IterateKeepsLoopHead(s, out);
    RunKeepsLoopHead(s1, rs);
    DeschedulingFreezes(s1, rs, a);
    YieldingIteration(again, back);
    var b := BeforeSwitch(again, back);
    assert b.sched.current == Some(a) by {
      IterateKeepsLoopHead(again, back);
      SwitchFrame(b, again.sched.current, b.sched.current.value, back.second);
    }
    EntersOwnState(b, again.sched.current, a, back.second);
  }

  /** Two vCPUs that execute WFI take turns: the shortest descheduling that
      FrozenAcrossDeschedule speaks of. */
  lemma TwoTakeTurns(s: Sys, out: Round, back: Round, a: nat)
    requires LoopHead(s) && !s.halted && |s.sched.queue| == 2 && s.sched.current == Some(a)
    requires out.first.trap.Wfi? && back.first.trap.Wfi? && !Hangs(out.second.trap)
    ensures Yields(s, out) && StaysOut(Iterate(s, out), [], a)
    ensures Iterate(Iterate(s, out), back).sched.current == Some(a)
    ensures Iterate(Iterate(s, out), back).sched == s.sched
  {
    hide EnterGuest, LeaveGuest, Dispatch;
    YieldingIteration(s, out);
    IterateKeepsLoopHead(s, out);
    var s1, b := Iterate(s, out), BeforeSwitch(s, out);
    SwitchFrame(b, Some(a), b.sched.current.value, out.second);
    SwitchFrame(s, None, a, out.first);
    RequestConsumed(s, out);
    RequestConsumed(s1, back);
    assert Next(s.sched) == 1 - s.sched.idx;
    assert Next(s1.sched) == s.sched.idx;
  }
}
