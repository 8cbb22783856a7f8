/** core/vcpu.c and core/trap.c as they run: static variables and vCPU records updated in place.
    Every method is proved against the value functions of Scheduler and Machine. */
module Hypervisors {
  import opened Words
  import opened Scheduler
  import opened Machine
  import opened Runs

  const NULL: int := -1

  function Pointer(p: int): Option<nat> { if p < 0 then None else Some(p) }

  const SPSR_EL1H: Word := 0x3c5  // EL1h with DAIF masked

  /** A vCPU as vcpu_init_slot leaves it: cleared, then filled from the registers of the moment. */
  function InitialVcpu(hw: Hw, id: nat, entry: Word, stack: Word, vttbr: Word): Vcpu {
    Vcpu(vttbr, 0, hw.pct,
         TrapFrame(seq(31, i => if i == 0 then id % MOD64 else 0),
                   hw.el1.(sp := stack, elr := entry, spsr := SPSR_EL1H), hw.p, hw.v),
         false)
  }

  /** The first entry of a fresh vCPU, however late: at its entry point and stack with its id in x0,
      at EL1h with interrupts masked, with the EL1 context, the control words and CNTV of the moment
      of its creation, at the physical count of that moment, and with the ticks left that CNTP had. */
  lemma FirstEntry(s: Sys, from: Option<nat>, to: nat, v: Visit, hw: Hw, id: nat, entry: Word, stack: Word, vttbr: Word)
    requires Known(s) && to < |s.vcpus| && (from.Some? ==> from.value < |s.vcpus| && from.value != to)
    requires s.vcpus[to] == InitialVcpu(hw, id, entry, stack, vttbr) && id < MOD64
    ensures var e := EnterGuest(s, from, to, v).hw;
            && e.x[0] == id && (forall i :: 1 <= i < 31 ==> e.x[i] == 0)
            && e.el1 == hw.el1.(sp := stack, elr := entry, spsr := 0x3c5) && e.vttbr == vttbr
            && e.v == Timer(hw.v.ctl % 4, hw.v.cval) && e.p.ctl == hw.p.ctl % 4
            && VirtualCount(e) == hw.pct
            && Sub(e.p.cval, e.pct) == Sub(hw.p.cval, hw.pct)
    ensures !s.vcpus[to].requestYield
  {
    EntersOwnState(s, from, to, v);
  }

  /** The system when vcpu_run starts. */
  function BootState(hw: Hw, entry0: Word, entry1: Word, vttbr: Word, halted: bool): Sys {
    Sys(hw, [InitialVcpu(hw, 0, entry0, 0x4008_0000, vttbr), InitialVcpu(hw, 1, entry1, 0x400a_0000, vttbr)],
        Sched([0, 1], 0, Some(0)), None, halted)
  }

  /** The registrations of el2_main lead there, and to the loop head of vcpu_run. */
  lemma BootReady(hw: Hw, entry0: Word, entry1: Word, vttbr: Word, halted: bool)
    ensures LoopHead(BootState(hw, entry0, entry1, vttbr, halted))
    ensures var a, b := BootState(hw, entry0, entry1, vttbr, halted).vcpus[0], BootState(hw, entry0, entry1, vttbr, halted).vcpus[1];
            && a.tf.el1.elr == entry0 && a.tf.el1.sp == 0x4008_0000 && a.tf.regs[0] == 0
            && b.tf.el1.elr == entry1 && b.tf.el1.sp == 0x400a_0000 && b.tf.regs[0] == 1
            && a.vttbr == b.vttbr == vttbr && a.cntvct == b.cntvct == hw.pct
    ensures var booted := Sched([0, 1], 0, Some(0));
            && Scheduler.Register(Scheduler.Register(EMPTY, Some(0)), Some(1)) == booted
            && Scheduler.SetCurrent(booted, Some(0)) == booted
  {
    var one := Sched([0], 0, Some(0));
    assert Scheduler.Register(EMPTY, Some(0)) == one;
  }

  class Hypervisor {
    // A vcpu_t* is an index into the pool, or NULL.
    const pool: array<Vcpu>
    const runqueue: array<int>
    var schedLen: nat
    var schedIdx: nat
    var schedCurrent: int
    var currentTrapframe: int
    var hw: Hw
    var halted: bool

    ghost predicate Valid()
      reads this, pool, runqueue
    {
      && runqueue.Length == MAX && schedLen <= MAX
      && (forall i :: 0 <= i < schedLen ==> 0 <= runqueue[i] < pool.Length)
      && NULL <= schedCurrent < pool.Length && NULL <= currentTrapframe < pool.Length
    }

    ghost function Queue(): (q: seq<nat>)
      requires Valid()
      reads this, pool, runqueue
      ensures |q| == schedLen && forall i :: 0 <= i < schedLen ==> q[i] == runqueue[i]
    {
      runqueue[..schedLen]
    }

    ghost function SchedState(): Sched
      requires Valid()
      reads this, pool, runqueue
    {
      Sched(Queue(), schedIdx, Pointer(schedCurrent))
    }

    ghost function State(): (s: Sys)
      requires Valid()
      reads this, pool, runqueue
      ensures Known(s) && |s.vcpus| == pool.Length
    {
      Sys(hw, pool[..], SchedState(), Pointer(currentTrapframe), halted)
    }

    /** The .bss image: nothing registered, no frame latched; the hardware is what it is. */
    constructor (vcpus: nat, zero: Vcpu, hw: Hw)
      ensures Valid() && fresh(pool) && fresh(runqueue) && pool.Length == vcpus
      ensures State() == Sys(hw, seq(vcpus, _ => zero), EMPTY, None, false)
    {
      pool := new Vcpu[vcpus](_ => zero);
      runqueue := new int[MAX](_ => NULL);
      schedLen, schedIdx, schedCurrent, currentTrapframe := 0, 0, NULL, NULL;
      this.hw, halted := hw, false;
    }

    // ----- core/main.c -----

    /** vcpu_init_slot; FirstEntry says what the record is good for. */
    method InitSlot(c: nat, entry: Word, stack: Word, vttbr: Word)
      requires c < pool.Length
      modifies pool
      ensures pool[..] == old(pool[..])[c := InitialVcpu(hw, c, entry, stack, vttbr)]
    {
      var zero := seq(31, i => 0);
      var tf := TrapFrame(zero, El1(0, 0, 0, 0, 0, 0, 0, 0, 0), Timer(0, 0), Timer(0, 0));
      var el1 := hw.el1;
      tf := tf.(el1 := tf.el1.(ttbr0 := el1.ttbr0, ttbr1 := el1.ttbr1, tcr := el1.tcr, sctlr := el1.sctlr));
      tf := tf.(el1 := tf.el1.(tpidr := el1.tpidr, cntkctl := el1.cntkctl));
      tf := tf.(p := Timer(hw.p.ctl, Add(hw.p.cval, 0)));
      tf := tf.(v := hw.v);
      tf := tf.(el1 := tf.el1.(elr := entry, sp := stack));
      tf := tf.(regs := tf.regs[0 := c % MOD64]);
      tf := tf.(el1 := tf.el1.(spsr := SPSR_EL1H));
      assert tf.regs == InitialVcpu(hw, c, entry, stack, vttbr).tf.regs;
      pool[c] := Vcpu(vttbr, 0, hw.pct, tf, false);
    }

    /** Both slots of vcpu_pool filled. */
    method InitBoth(entry0: Word, entry1: Word, vttbr: Word)
      requires pool.Length == 2
      modifies pool
      ensures pool[..] == [InitialVcpu(hw, 0, entry0, 0x4008_0000, vttbr), InitialVcpu(hw, 1, entry1, 0x400a_0000, vttbr)]
    {
      hide InitialVcpu;
      InitSlot(0, entry0, 0x4008_0000, vttbr);
      InitSlot(1, entry1, 0x400a_0000, vttbr);
    }

    /** el2_main from the first vcpu_init_slot on: two vCPUs over one stage-2 table, the first of
        them current, in a state from which every run theorem of Runs and TimerLaws applies. */
    method BootVcpus(entry0: Word, entry1: Word, vttbr: Word, rounds: seq<Round>)
      requires Valid() && pool.Length == 2 && SchedState() == EMPTY && currentTrapframe == NULL
      modifies this`schedLen, this`schedIdx, this`schedCurrent, this`currentTrapframe, this`hw, this`halted, pool, runqueue
      ensures Valid() && LoopHead(State()) && State().sched.queue == [0, 1]
      ensures var start := BootState(old(hw), entry0, entry1, vttbr, old(halted));
              LoopHead(start) && State() == Rounds(start, rounds)
    {
      hide Rounds, InitialVcpu, Scheduler.Register, Scheduler.SetCurrent;
      BootReady(hw, entry0, entry1, vttbr, halted);
      InitBoth(entry0, entry1, vttbr);
      assert Queue() == [];
      Register(0);
      Register(1);
      SetCurrent(0);
      ghost var start := State();
      assert start == BootState(old(hw), entry0, entry1, vttbr, old(halted));
      RunKeepsLoopHead(start, rounds);
      VcpuRun(0, rounds);
    }

    // ----- core/vcpu.c: the scheduler -----

    method SchedFindSlot(v: int) returns (slot: int)
      requires Valid() && v >= 0
      ensures slot == FindSlot(Queue(), v)
    {
      for i := 0 to schedLen
        invariant v !in Queue()[..i]
      {
        if runqueue[i] == v {
          FirstSlot(Queue(), v, i);
          return i;
        }
      }
      assert Queue()[..schedLen] == Queue();
      slot := -1;
    }

    /** `sched_runqueue[sched_len++] = vcpu`. */
    method Append(v: int)
      requires Valid() && 0 <= v < pool.Length && schedLen < MAX
      modifies this`schedLen, runqueue
      ensures Valid() && Queue() == old(Queue()) + [v] && schedLen == old(schedLen) + 1
    {
      runqueue[schedLen] := v;
      schedLen := schedLen + 1;
      assert Queue() == old(Queue()) + [v];
    }

    method Register(v: int)
      requires Valid() && v < pool.Length
      modifies this`schedLen, this`schedIdx, this`schedCurrent, runqueue
      ensures Valid() && State() == old(State()).(sched := Scheduler.Register(old(SchedState()), Pointer(v)))
    {
      hide FindSlot;
      if v < 0 || schedLen >= MAX {
        return;
      }
      var slot := SchedFindSlot(v);
      if slot >= 0 {
        return;
      }
      Append(v);
      if schedCurrent < 0 {
        schedCurrent := v;
        schedIdx := schedLen - 1;
      }
      assert Queue() == old(Queue()) + [v];
    }

    method SetCurrent(v: int)
      requires Valid() && v < pool.Length
      modifies this`schedLen, this`schedIdx, this`schedCurrent, runqueue
      ensures Valid() && State() == old(State()).(sched := Scheduler.SetCurrent(old(SchedState()), Pointer(v)))
    {
      hide FindSlot;
      if v < 0 {
        return;
      }
      var slot := SchedFindSlot(v);
      if slot < 0 && schedLen < MAX {
        slot := schedLen;
        Append(v);
      }
      ghost var queue := Queue();
      if slot >= 0 {
        schedCurrent := v;
        schedIdx := slot;
      }
      assert Queue() == queue;
    }

    /** vcpu_scheduler_yield; the visit is what happens if a guest is entered. */
    method Yield(v: Visit) returns (switched: bool)
      requires Valid()
      modifies this`schedIdx, this`schedCurrent, this`currentTrapframe, this`hw, this`halted, pool
      ensures Valid() && State() == Machine.Yield(old(State()), v)
      ensures switched == CanYield(old(SchedState()))
    {
      if schedLen <= 1 || schedCurrent < 0 {
        return false;
      }
      var next := (schedIdx + 1) % schedLen;
      var target := runqueue[next];
      if target < 0 || target == schedCurrent {
        return false;
      }
      var prev := schedCurrent;
      schedCurrent := target;
      schedIdx := next;
      assert Queue() == old(Queue());
      WorldSwitch(prev, target, v);
      switched := true;
    }

    /** The loop of vcpu_run, for as many iterations as the trace has rounds. */
    method VcpuRun(v: int, rounds: seq<Round>)
      requires Valid() && v < pool.Length
      modifies this`schedLen, this`schedIdx, this`schedCurrent, this`currentTrapframe, this`hw, this`halted, pool, runqueue
      ensures Valid()
      ensures State() == if v < 0 then old(State())
                         else Rounds(old(State()).(sched := Scheduler.SetCurrent(old(SchedState()), Some(v))), rounds)
    {
      if v < 0 {
        return;
      }
      SetCurrent(v);
      ghost var start := State();
      var k := 0;
      while k < |rounds|
        invariant 0 <= k <= |rounds| && Valid()
        invariant Rounds(State(), rounds[k..]) == Rounds(start, rounds)
      {
        ghost var head := State();
        var current := schedCurrent;
        if current < 0 || halted {
          RoundsStop(head, rounds[k..]);
          return;
        }
        WorldSwitch(NULL, current, rounds[k].first);
        if !halted && pool[current].requestYield {
          pool[current] := pool[current].(requestYield := false);
          assert Queue() == head.sched.queue;
          var _ := Yield(rounds[k].second);
        }
        assert State() == Iterate(head, rounds[k]);
        assert rounds[k..][0] == rounds[k] && rounds[k..][1..] == rounds[k + 1..];
        k := k + 1;
      }
      assert rounds[k..] == [];
    }

    /** world_switch: it returns when the guest it entered has trapped and the trap is handled. */
    method WorldSwitch(from: int, to: int, v: Visit)
      requires Valid() && from < pool.Length && 0 <= to < pool.Length
      modifies this`currentTrapframe, this`hw, this`halted, pool
      ensures Valid() && State() == Machine.WorldSwitch(old(State()), Pointer(from), to, v)
    {
      hide EnterGuest, LeaveGuest, Dispatch;
      SwitchIn(from, to, v);
      Capture(v.guest);
      ExceptionCommon(v.trap);
    }

    /** vcpu.c:355-389, up to the eret: save, tables, offset, latch, restore. */
    method SwitchIn(from: int, to: int, v: Visit)
      requires Valid() && from < pool.Length && 0 <= to < pool.Length
      modifies this`currentTrapframe, this`hw, pool
      ensures Valid() && State() == EnterGuest(old(State()), Pointer(from), to, v)
    {
      hide Restore, Add, Sub, VirtualCount;
      hw := Tick(hw, v.dSave);
      if from >= 0 {
        pool[from] := pool[from].(cntvct := VirtualCount(hw));
      }
      hw := hw.(vttbr := pool[to].vttbr);
      hw := Tick(hw, v.dLoad);
      var offset := Sub(pool[to].cntvct, hw.pct);
      pool[to] := pool[to].(cntvoff := offset);
      hw := hw.(cntvoff := offset);
      currentTrapframe := to;
      hw := Restore(hw, pool[to].tf);
      assert Queue() == old(Queue());
    }

    /** The guest runs until it traps; the vector fills the latched frame and clears the latch. */
    method Capture(g: Guest)
      requires Valid()
      modifies this`currentTrapframe, this`hw, pool
      ensures Valid() && State() == LeaveGuest(old(State()), g)
    {
      hide Machine.Capture, GuestStep;
      hw := GuestStep(hw, g);
      if currentTrapframe >= 0 {
        pool[currentTrapframe] := pool[currentTrapframe].(tf := Machine.Capture(hw));
        currentTrapframe := NULL;
      }
      assert Queue() == old(Queue());
    }

    // ----- core/trap.c -----

    ghost function CurrentCore(): Core
      requires Valid() && schedCurrent >= 0
      reads this, pool, runqueue
    {
      Core(hw, pool[schedCurrent])
    }

    /** The dispatch of el2_exception_common. */
    method ExceptionCommon(trap: Trap)
      requires Valid()
      modifies this`hw, this`halted, pool
      ensures Valid() && State() == Dispatch(old(State()), trap)
      ensures halted <==> old(halted) || trap == Fatal || (trap.Sysreg? && trap.reg == OTHER)
                          || (schedCurrent < 0 && trap != Wfi)
    {
      var handled := false;
      match trap {
        case Wfi =>
          var next := Add(hw.el1.elr, 4);
          hw := hw.(el1 := hw.el1.(elr := next));
          if schedCurrent >= 0 {
            var v := pool[schedCurrent];
            pool[schedCurrent] := v.(tf := v.tf.(el1 := v.tf.el1.(elr := next)), requestYield := true);
          }
          handled := true;
        case HvcReport =>
          handled := schedCurrent >= 0;
        case HvcTime =>
          handled := HandleGuestTimeOverride();
        case Sysreg(reg, rt, isRead) =>
          handled := HandleTimerSysreg(reg, rt, isRead, hw.el1.elr);
        case Fatal =>
      }
      if !handled {
        halted := true;
      }
      assert Queue() == old(Queue());
    }

    /** Overwrites register rt of a vCPU's frame; 31 is XZR. */
    method SetReg(c: nat, rt: nat, val: Word)
      requires c < pool.Length
      modifies pool
      ensures Core(hw, pool[c]) == Core(hw, old(pool[c])).SetReg(rt, val)
      ensures pool[..] == old(pool[..])[c := pool[c]]
    {
      if rt < 31 {
        var tf := pool[c].tf;
        pool[c] := pool[c].(tf := tf.(regs := tf.regs[rt := val]));
      }
    }

    method AdvanceGuestElr(c: nat, elr: Word)
      requires c < pool.Length
      modifies this`hw, pool
      ensures hw.el1.elr == Add(elr, 4) == pool[c].tf.el1.elr
      ensures Core(hw, pool[c]) == Core(old(hw), old(pool[c])).Advance(elr)
      ensures pool[..] == old(pool[..])[c := pool[c]]
    {
      var next := Add(elr, 4);
      hw := hw.(el1 := hw.el1.(elr := next));
      var tf := pool[c].tf;
      pool[c] := pool[c].(tf := tf.(el1 := tf.el1.(elr := next)));
    }

    /** handle_timer_sysreg after decoding: only the current vCPU and the hardware change. */
    method HandleTimerSysreg(reg: SysReg, rt: nat, isRead: bool, elr: Word) returns (handled: bool)
      requires Valid() && elr == hw.el1.elr
      modifies this`hw, pool
      ensures handled <==> schedCurrent >= 0 && reg != OTHER
      ensures !handled ==> hw == old(hw) && pool[..] == old(pool[..])
      ensures handled ==>
                var c' := HandleSysreg(old(CurrentCore()), reg, rt, isRead);
                hw == c'.hw && pool[..] == old(pool[..])[schedCurrent := c'.v]
    {
      hide Add, Sub, SignExtend32, VirtualCount;
      hide Core.SetReg, Core.Advance;
      if schedCurrent < 0 || reg == OTHER {
        return false;
      }
      var c := schedCurrent;
      var now := VirtualCount(hw);
      var v := pool[c];
      var arg := if rt < 31 then v.tf.regs[rt] else 0;
      handled := true;
      match reg {
        case CNTPCT =>
          if isRead {
            SetReg(c, rt, now);
          }
        case CNTVCT =>
          if isRead {
            SetReg(c, rt, now);
          }
        case CNTP_CVAL =>
          if isRead {
            var val := Add(hw.p.cval, v.cntvoff);
            pool[c] := v.(tf := v.tf.(p := v.tf.p.(cval := val)));
            SetReg(c, rt, val);
          } else {
            pool[c] := v.(tf := v.tf.(p := v.tf.p.(cval := arg)));
            hw := hw.(p := hw.p.(cval := Sub(arg, v.cntvoff)));
          }
        case CNTP_CTL =>
          if isRead {
            pool[c] := v.(tf := v.tf.(p := v.tf.p.(ctl := hw.p.ctl)));
            SetReg(c, rt, hw.p.ctl);
          } else {
            pool[c] := v.(tf := v.tf.(p := v.tf.p.(ctl := arg % 4)));
            hw := hw.(p := hw.p.(ctl := arg % 4));
          }
        case CNTP_TVAL =>
          if isRead {
            SetReg(c, rt, Sub(v.tf.p.cval, now));
          } else {
            var target := Add(now, SignExtend32(arg));
            pool[c] := v.(tf := v.tf.(p := v.tf.p.(cval := target)));
            hw := hw.(p := hw.p.(cval := Sub(target, v.cntvoff)));
          }
        case CNTV_CVAL =>
          if isRead {
            pool[c] := v.(tf := v.tf.(v := v.tf.v.(cval := hw.v.cval)));
            SetReg(c, rt, hw.v.cval);
          } else {
            pool[c] := v.(tf := v.tf.(v := v.tf.v.(cval := arg)));
            hw := hw.(v := hw.v.(cval := arg));
          }
        case CNTV_CTL =>
          if isRead {
            pool[c] := v.(tf := v.tf.(v := v.tf.v.(ctl := hw.v.ctl)));
            SetReg(c, rt, hw.v.ctl);
          } else {
            pool[c] := v.(tf := v.tf.(v := v.tf.v.(ctl := arg % 4)));
            hw := hw.(v := hw.v.(ctl := arg % 4));
          }
        case CNTV_TVAL =>
          if isRead {
            pool[c] := v.(tf := v.tf.(v := v.tf.v.(cval := hw.v.cval)));
            SetReg(c, rt, Sub(hw.v.cval, now));
          } else {
            var target := Add(now, SignExtend32(arg));
            pool[c] := v.(tf := v.tf.(v := v.tf.v.(cval := target)));
            hw := hw.(v := hw.v.(cval := target));
          }
      }
      AdvanceGuestElr(c, elr);
    }

    /** handle_guest_time_override. */
    method HandleGuestTimeOverride() returns (handled: bool)
      requires Valid()
      modifies this`hw, pool
      ensures handled <==> schedCurrent >= 0
      ensures !handled ==> hw == old(hw) && pool[..] == old(pool[..])
      ensures handled ==>
                var c' := HandleTimeOverride(old(CurrentCore()));
                hw == c'.hw && pool[..] == old(pool[..])[schedCurrent := c'.v]
    {
      if schedCurrent < 0 {
        return false;
      }
      var c := schedCurrent;
      var desired := pool[c].tf.regs[0];
      var offset := Sub(desired, hw.pct);
      pool[c] := pool[c].(cntvct := desired);
      pool[c] := pool[c].(cntvoff := offset);
      hw := hw.(cntvoff := offset);
      var tf := pool[c].tf;
      hw := hw.(p := hw.p.(cval := Sub(tf.p.cval, offset)));
      hw := hw.(p := hw.p.(ctl := tf.p.ctl % 4));
      hw := hw.(v := hw.v.(cval := tf.v.cval));
      hw := hw.(v := hw.v.(ctl := tf.v.ctl % 4));
      SetReg(c, 0, desired);
      handled := true;
    }
  }

  lemma {:induction false} FirstSlot(queue: seq<nat>, v: nat, i: nat)
    requires i < |queue| && queue[i] == v && v !in queue[..i]
    ensures FindSlot(queue, v) == i
    decreases |queue|
  {
    if i > 0 {
      assert queue[..i] == [queue[0]] + queue[1..][..i - 1];
      FirstSlot(queue[1..], v, i - 1);
    }
  }

  /** A halted run, or one with no current vCPU, goes nowhere. */
  lemma {:induction false} RoundsStop(s: Sys, rs: seq<Round>)
    requires Known(s) && (s.halted || s.sched.current.None?)
    ensures Rounds(s, rs) == s
    decreases |rs|
  {
    if rs != [] {
      RoundsStop(s, rs[1..]);
    }
  }
}
