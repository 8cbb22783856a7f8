/** arch/arm64/switch_el2.S and vectors_el2.S, instruction by instruction: the restore of a
    trapframe, the capture at the next trap, and the way back to the C caller. */
module SwitchAsm {
  import opened Words
  import opened Machine

  /** The 44 words of a trapframe_t in memory order. */
  function FrameOf(w: seq<Word>): TrapFrame
    requires |w| == 44
  {
    TrapFrame(w[..31],
              El1(w[31], w[32], w[33], w[34], w[35], w[36], w[37], w[38], w[39]),
              Timer(w[40], w[41]), Timer(w[42], w[43]))
  }

  /** What a trip through the registers keeps of a frame: all of it, with the two timer control
      words cut to the bits the switch programs. */
  function Programmed(tf: TrapFrame): TrapFrame {
    tf.(p := tf.p.(ctl := tf.p.ctl % 4), v := tf.v.(ctl := tf.v.ctl % 4))
  }

  /** Capture undoes restore for every frame and every offset, in wrap-around arithmetic. */
  lemma CaptureUndoesRestore(hw: Hw, tf: TrapFrame)
    ensures Capture(Restore(hw, tf)) == Programmed(tf)
  {
  }

  /** Restore undoes capture: a guest re-entered under the same offset finds its own registers. */
  lemma RestoreUndoesCapture(hw: Hw)
    requires hw.p.ctl < 4 && hw.v.ctl < 4
    ensures Restore(hw, Capture(hw)) == hw
  {
  }

  /** Re-entered under another offset, it finds the same virtual compare value. */
  lemma CompareSurvivesNewOffset(hw: Hw, off: Word)
    ensures var again := Restore(hw.(cntvoff := off), Capture(hw));
            Add(again.p.cval, off) == Add(hw.p.cval, hw.cntvoff) && again.v.cval == hw.v.cval
  {
  }

  class Cpu {
    // General and system registers; `sp` is SP_EL2 as an index into the EL2 stack's words.
    var hw: Hw
    var sp: nat
    const stack: array<Word>
    const saved: array<Word>            // host_saved_area
    var latch: array?<Word>             // current_trapframe
    const frameAddr: Word               // the address of the latched frame, as a register holds it
    const savedAddr: Word
    const latchAddr: Word

    ghost predicate Valid()
      reads this
    {
      && saved.Length == 16 && stack != saved && sp <= stack.Length
      && (latch != null ==> latch.Length == 44 && latch != stack && latch != saved && frameAddr != 0)
    }

    method SetX(r: nat, val: Word)
      requires r < 31
      modifies this`hw
      ensures hw == old(hw).(x := old(hw.x)[r := val])
    {
      hw := hw.(x := hw.x[r := val]);
    }

    /** `ldp xr, xq, [xb, #(8 * off)]`: the base register must still hold the address of `mem`. */
    method Ldp(r: nat, q: nat, b: nat, ghost addr: Word, mem: array<Word>, off: nat)
      requires r < 31 && q < 31 && b < 31 && off + 1 < mem.Length && hw.x[b] == addr
      modifies this`hw
      ensures hw == old(hw).(x := old(hw.x)[r := mem[off]][q := mem[off + 1]])
    {
      hw := hw.(x := hw.x[r := mem[off]][q := mem[off + 1]]);
    }

    /** `stp xr, xq, [xb, #(8 * off)]`. */
    method Stp(r: nat, q: nat, b: nat, ghost addr: Word, mem: array<Word>, off: nat)
      requires r < 31 && q < 31 && b < 31 && off + 1 < mem.Length && hw.x[b] == addr
      modifies mem
      ensures mem[..] == old(mem[..])[off := hw.x[r]][off + 1 := hw.x[q]]
    {
      mem[off] := hw.x[r];
      mem[off + 1] := hw.x[q];
    }

    /** The host context that vcpu_switch_asm leaves for the vector: x19 to x30 and SP. */
    method SaveHost()
      requires Valid()
      modifies this`hw, saved
      ensures saved[..12] == old(hw.x)[19..] && saved[12] == sp % MOD64
      ensures hw == old(hw).(x := old(hw.x)[2 := savedAddr][3 := sp % MOD64])
    {
      SetX(2, savedAddr);
      Stp(19, 20, 2, savedAddr, saved, 0);
      Stp(21, 22, 2, savedAddr, saved, 2);
      Stp(23, 24, 2, savedAddr, saved, 4);
      Stp(25, 26, 2, savedAddr, saved, 6);
      Stp(27, 28, 2, savedAddr, saved, 8);
      Stp(29, 30, 2, savedAddr, saved, 10);
      SetX(3, sp % MOD64);
      saved[12] := hw.x[3];
    }

    /** switch_el2.S:20-26: SP, ELR and SPSR, through x1. */
    method LoadReturnState(tf: array<Word>)
      requires Valid() && tf.Length == 44 && hw.x[0] == frameAddr
      modifies this`hw
      ensures hw == old(hw).(x := hw.x, el1 := old(hw).el1.(sp := tf[31], elr := tf[32], spsr := tf[33]))
      ensures hw.x[0] == frameAddr
    {
      SetX(1, tf[31]);
      hw := hw.(el1 := hw.el1.(sp := hw.x[1]));
      SetX(1, tf[32]);
      hw := hw.(el1 := hw.el1.(elr := hw.x[1]));
      SetX(1, tf[33]);
      hw := hw.(el1 := hw.el1.(spsr := hw.x[1]));
    }

    /** switch_el2.S:28-36: the EL1 context, through x1 and x2. */
    method LoadContext(tf: array<Word>)
      requires Valid() && tf.Length == 44 && hw.x[0] == frameAddr
      modifies this`hw
      ensures hw == old(hw).(x := hw.x, el1 := old(hw).el1.(ttbr0 := tf[34], ttbr1 := tf[35], tcr := tf[36],
                                                            sctlr := tf[37], tpidr := tf[38], cntkctl := tf[39]))
      ensures hw.x[0] == frameAddr
    {
      Ldp(1, 2, 0, frameAddr, tf, 34);
      hw := hw.(el1 := hw.el1.(ttbr0 := hw.x[1]));
      hw := hw.(el1 := hw.el1.(ttbr1 := hw.x[2]));
      Ldp(1, 2, 0, frameAddr, tf, 36);
      hw := hw.(el1 := hw.el1.(tcr := hw.x[1]));
      hw := hw.(el1 := hw.el1.(sctlr := hw.x[2]));
      Ldp(1, 2, 0, frameAddr, tf, 38);
      hw := hw.(el1 := hw.el1.(tpidr := hw.x[1]));
      hw := hw.(el1 := hw.el1.(cntkctl := hw.x[2]));
    }

    /** switch_el2.S:20-36: all of the EL1 state. */
    method LoadEl1(tf: array<Word>)
      requires Valid() && tf.Length == 44 && hw.x[0] == frameAddr
      modifies this`hw
      ensures hw == old(hw).(x := hw.x, el1 := FrameOf(tf[..]).el1) && hw.x[0] == frameAddr
    {
      LoadReturnState(tf);
      LoadContext(tf);
    }

    /** switch_el2.S:37-48: the timers, the compare value into the physical domain. */
    method LoadTimers(tf: array<Word>)
      requires Valid() && tf.Length == 44 && hw.x[0] == frameAddr
      modifies this`hw
      ensures hw == old(hw).(x := hw.x,
                             p := Timer(tf[40] % 4, Sub(tf[41], old(hw).cntvoff)),
                             v := Timer(tf[42] % 4, tf[43]))
      ensures hw.x[0] == frameAddr
    {
      hide Sub;
      Ldp(1, 2, 0, frameAddr, tf, 40);
      SetX(3, hw.cntvoff);
      SetX(2, Sub(hw.x[2], hw.x[3]));
      SetX(1, hw.x[1] % 4);
      hw := hw.(p := hw.p.(cval := hw.x[2]));
      hw := hw.(p := hw.p.(ctl := hw.x[1]));
      Ldp(1, 2, 0, frameAddr, tf, 42);
      SetX(1, hw.x[1] % 4);
      hw := hw.(v := hw.v.(cval := hw.x[2]));
      hw := hw.(v := hw.v.(ctl := hw.x[1]));
    }

    /** `ldp xk, x(k+1), [x0, #(8 * k)]` in the run of loads that ends with x30. */
    method LdpNext(tf: array<Word>, k: nat)
      requires Valid() && tf.Length == 44 && 1 <= k < 30 && hw.x[0] == frameAddr
      requires forall i :: 1 <= i < k ==> hw.x[i] == tf[i]
      modifies this`hw
      ensures hw == old(hw).(x := hw.x) && hw.x[0] == frameAddr
      ensures forall i :: 1 <= i < k + 2 ==> hw.x[i] == tf[i]
    {
      Ldp(k, k + 1, 0, frameAddr, tf, k);
    }

    /** switch_el2.S:50-66: x1 to x30, and x0 last because it is the base. */
    method LoadGprs(tf: array<Word>)
      requires Valid() && tf.Length == 44 && hw.x[0] == frameAddr
      modifies this`hw
      ensures hw == old(hw).(x := tf[..31])
    {
      LdpNext(tf, 1);
      LdpNext(tf, 3);
      LdpNext(tf, 5);
      LdpNext(tf, 7);
      LdpNext(tf, 9);
      LdpNext(tf, 11);
      LdpNext(tf, 13);
      LdpNext(tf, 15);
      LdpNext(tf, 17);
      LdpNext(tf, 19);
      LdpNext(tf, 21);
      LdpNext(tf, 23);
      LdpNext(tf, 25);
      LdpNext(tf, 27);
      LdpNext(tf, 29);
      SetX(0, tf[0]);
      assert hw.x == tf[..31];
    }

    /** vcpu_switch_asm up to its eret. */
    method VcpuSwitchAsm(tf: array<Word>)
      requires Valid() && tf.Length == 44 && tf != saved && hw.x[0] == frameAddr
      modifies this`hw, saved
      ensures hw == Restore(old(hw), FrameOf(tf[..]))
      ensures saved[..12] == old(hw.x)[19..] && saved[12] == sp % MOD64
    {
      SaveHost();
      LoadEl1(tf);
      LoadTimers(tf);
      LoadGprs(tf);
    }

    /** `stp xk, x(k+1), [x16, #(8 * k)]` in a run of stores that began with xlo. */
    method StpNext(tf: array<Word>, lo: nat, k: nat)
      requires Valid() && tf.Length == 44 && lo <= k < 30 && hw.x[16] == frameAddr
      requires forall i :: lo <= i < k ==> tf[i] == hw.x[i]
      modifies tf
      ensures forall i :: lo <= i < k + 2 ==> tf[i] == hw.x[i]
      ensures forall i :: 0 <= i < lo ==> tf[i] == old(tf[i])
    {
      Stp(k, k + 1, 16, frameAddr, tf, k);
    }

    /** vectors_el2.S:46-53: x0 to x15. */
    method StoreLow(tf: array<Word>)
      requires Valid() && tf.Length == 44 && hw.x[16] == frameAddr
      modifies tf
      ensures forall i :: 0 <= i < 16 ==> tf[i] == hw.x[i]
    {
      StpNext(tf, 0, 0);
      StpNext(tf, 0, 2);
      StpNext(tf, 0, 4);
      StpNext(tf, 0, 6);
      StpNext(tf, 0, 8);
      StpNext(tf, 0, 10);
      StpNext(tf, 0, 12);
      StpNext(tf, 0, 14);
    }

    /** vectors_el2.S:55-63: x16, taken back from the stack through x0, and x17 to x30. */
    method StoreHigh(tf: array<Word>)
      requires Valid() && tf.Length == 44 && tf != stack && hw.x[16] == frameAddr && sp + 2 < stack.Length
      modifies this`hw, tf
      ensures hw == old(hw).(x := old(hw.x)[0 := stack[sp + 2]])
      ensures tf[16] == stack[sp + 2] && forall i :: 17 <= i < 31 ==> tf[i] == hw.x[i]
      ensures forall i :: 0 <= i < 16 ==> tf[i] == old(tf[i])
    {
      SetX(0, stack[sp + 2]);
      Stp(0, 17, 16, frameAddr, tf, 16);
      StpNext(tf, 18, 18);
      StpNext(tf, 18, 20);
      StpNext(tf, 18, 22);
      StpNext(tf, 18, 24);
      StpNext(tf, 18, 26);
      StpNext(tf, 18, 28);
      tf[30] := hw.x[30];
    }

    /** vectors_el2.S:46-63: the guest's registers. */
    method StoreGprs(tf: array<Word>)
      requires Valid() && tf.Length == 44 && tf != stack && hw.x[16] == frameAddr && sp + 2 < stack.Length
      modifies this`hw, tf
      ensures tf[..31] == old(hw.x)[16 := stack[sp + 2]]
      ensures hw == old(hw).(x := old(hw.x)[0 := stack[sp + 2]])
    {
      StoreLow(tf);
      StoreHigh(tf);
    }

    /** vectors_el2.S:65-70: SP, ELR and SPSR, through x0. */
    method StoreReturnState(tf: array<Word>)
      requires Valid() && tf.Length == 44 && hw.x[16] == frameAddr
      modifies this`hw, tf
      ensures tf[31] == old(hw).el1.sp && tf[32] == old(hw).el1.elr && tf[33] == old(hw).el1.spsr
      ensures tf[..31] == old(tf[..31])
      ensures hw == old(hw).(x := hw.x) && hw.x[1..] == old(hw.x)[1..]
    {
      SetX(0, hw.el1.sp);
      tf[31] := hw.x[0];
      SetX(0, hw.el1.elr);
      tf[32] := hw.x[0];
      SetX(0, hw.el1.spsr);
      tf[33] := hw.x[0];
    }

    /** vectors_el2.S:72-79: the EL1 context, through x0 and x1. */
    method StoreContext(tf: array<Word>)
      requires Valid() && tf.Length == 44 && hw.x[16] == frameAddr
      modifies this`hw, tf
      ensures var el1 := old(hw).el1;
              && tf[34] == el1.ttbr0 && tf[35] == el1.ttbr1 && tf[36] == el1.tcr
              && tf[37] == el1.sctlr && tf[38] == el1.tpidr && tf[39] == el1.cntkctl
      ensures tf[..34] == old(tf[..34])
      ensures hw == old(hw).(x := hw.x) && hw.x[2..] == old(hw.x)[2..]
    {
      SetX(0, hw.el1.ttbr0);
      SetX(1, hw.el1.ttbr1);
      Stp(0, 1, 16, frameAddr, tf, 34);
      SetX(0, hw.el1.tcr);
      SetX(1, hw.el1.sctlr);
      Stp(0, 1, 16, frameAddr, tf, 36);
      SetX(0, hw.el1.tpidr);
      SetX(1, hw.el1.cntkctl);
      Stp(0, 1, 16, frameAddr, tf, 38);
    }

    /** vectors_el2.S:65-80: all of the EL1 state. */
    method StoreEl1(tf: array<Word>)
      requires Valid() && tf.Length == 44 && hw.x[16] == frameAddr
      modifies this`hw, tf
      ensures tf[..31] == old(tf[..31])
      ensures var el1 := old(hw).el1;
              && tf[31..34] == [el1.sp, el1.elr, el1.spsr]
              && tf[34..40] == [el1.ttbr0, el1.ttbr1, el1.tcr, el1.sctlr, el1.tpidr, el1.cntkctl]
      ensures hw == old(hw).(x := hw.x) && hw.x[2..] == old(hw.x)[2..]
    {
      StoreReturnState(tf);
      ghost var low, x := tf[..34], hw.x;
      assert low[..31] == tf[..31] && low[31..] == [tf[31], tf[32], tf[33]];
      assert x[2..] == x[1..][1..];
      StoreContext(tf);
      assert tf[..31] == low[..31] && tf[31..34] == low[31..];
    }

    /** vectors_el2.S:81-88: the timers, the compare value as a virtual count. */
    method StoreTimers(tf: array<Word>)
      requires Valid() && tf.Length == 44 && hw.x[16] == frameAddr
      modifies this`hw, tf
      ensures tf[..40] == old(tf[..40])
      ensures tf[40..] == [old(hw).p.ctl, Add(old(hw).p.cval, old(hw).cntvoff), old(hw).v.ctl, old(hw).v.cval]
      ensures hw == old(hw).(x := hw.x) && hw.x[3..] == old(hw.x)[3..]
    {
      hide Add;
      SetX(0, hw.p.ctl);
      SetX(1, hw.p.cval);
      SetX(2, hw.cntvoff);
      SetX(1, Add(hw.x[1], hw.x[2]));
      Stp(0, 1, 16, frameAddr, tf, 40);
      SetX(0, hw.v.ctl);
      SetX(1, hw.v.cval);
      Stp(0, 1, 16, frameAddr, tf, 42);
    }

    /** vectors_el2.S:46-88: the whole capture. */
    method StoreFrame(tf: array<Word>)
      requires Valid() && tf.Length == 44 && tf != stack && hw.x[16] == frameAddr && sp + 2 < stack.Length
      modifies this`hw, tf
      ensures FrameOf(tf[..]) == Capture(old(hw).(x := old(hw.x)[16 := stack[sp + 2]]))
      ensures hw == old(hw).(x := hw.x) && hw.x[3..] == old(hw.x)[3..]
    {
      hide Add;
      StoreGprs(tf);
      StoreEl1(tf);
      ghost var context := tf[31..40];
      assert tf[31..40] == tf[31..34] + tf[34..40];
      StoreTimers(tf);
      assert tf[..31] == tf[..40][..31];
      assert context == tf[..40][31..40];
      assert tf[40..44] == tf[40..];
    }

    method Push16()
      requires Valid() && sp >= 2
      modifies this`sp, stack
      ensures Valid() && sp == old(sp) - 2 && stack[sp] == hw.x[16]
      ensures forall i :: 0 <= i < stack.Length && i != sp ==> stack[i] == old(stack[i])
    {
      sp := sp - 2;
      stack[sp] := hw.x[16];
    }

    /** vectors_el2.S:13-14 and 36-92: x16 and the vector code on the stack, the guest into the
        latched frame, the latch cleared; without a latched frame the save is skipped. */
    method VectorSave(code: Word)
      requires Valid() && sp >= 4
      modifies this`hw, this`sp, this`latch, stack, latch
      ensures Valid() && latch == null && sp == old(sp) - 4
      ensures old(latch) != null ==> FrameOf(old(latch)[..]) == Capture(old(hw))
      ensures hw == old(hw).(x := hw.x) && hw.x[17..] == old(hw.x)[17..]
      ensures stack[sp] == code && stack[sp + 2] == old(hw.x)[16]
      ensures forall i :: old(sp) <= i < stack.Length ==> stack[i] == old(stack[i])
    {
      hide Capture, FrameOf;
      Push16();
      SetX(16, code);
      Push16();
      SetX(16, if latch == null then 0 else frameAddr);
      if hw.x[16] != 0 {
        var tf := latch;
        assert hw.x[16 := stack[sp + 2]] == old(hw.x);
        StoreFrame(tf);
        SetX(1, latchAddr);
        latch := null;
      }
    }

    /** vectors_el2.S:94-103: the two words come off the stack and the handler's arguments go into
        x0 to x4. */
    method VectorArguments(esr: Word, far: Word)
      requires Valid() && sp + 4 <= stack.Length
      modifies this`hw, this`sp
      ensures Valid() && sp == old(sp) + 4
      ensures hw == old(hw).(x := hw.x)
      ensures hw.x[..5] == [esr, hw.el1.elr, hw.el1.spsr, far, stack[old(sp)]]
      ensures hw.x[16] == stack[old(sp) + 2] && hw.x[17..] == old(hw.x)[17..]
    {
      SetX(4, stack[sp]);
      sp := sp + 2;
      SetX(16, stack[sp]);
      sp := sp + 2;
      SetX(0, esr);
      SetX(1, hw.el1.elr);
      SetX(2, hw.el1.spsr);
      SetX(3, far);
    }

    /** A vector slot and el2_vector_common up to the call of the C handler: the latched frame
        receives the whole guest, the latch is cleared, the stack is back where it was, and the
        handler's arguments are in x0 to x4. */
    method VectorEntry(code: Word, esr: Word, far: Word)
      requires Valid() && sp >= 4
      modifies this`hw, this`sp, this`latch, stack, latch
      ensures Valid() && latch == null && sp == old(sp)
      ensures old(latch) != null ==> FrameOf(old(latch)[..]) == Capture(old(hw))
      ensures hw == old(hw).(x := hw.x)
      ensures hw.x[..5] == [esr, hw.el1.elr, hw.el1.spsr, far, code]
      ensures hw.x[16] == old(hw.x)[16] && hw.x[17..] == old(hw.x)[17..]
      ensures forall i :: sp <= i < stack.Length ==> stack[i] == old(stack[i])
    {
      hide Capture, FrameOf;
      VectorSave(code);
      VectorArguments(esr, far);
    }

    /** `ldp x(19+k), x(20+k), [x2, #(8 * k)]` from host_saved_area. */
    method LdpHost(k: nat)
      requires Valid() && k < 11 && hw.x[2] == savedAddr
      requires forall i :: 0 <= i < k ==> hw.x[19 + i] == saved[i]
      modifies this`hw
      ensures hw == old(hw).(x := hw.x) && hw.x[2] == savedAddr
      ensures forall i :: 0 <= i < k + 2 ==> hw.x[19 + i] == saved[i]
    {
      Ldp(19 + k, 20 + k, 2, savedAddr, saved, k);
    }

    /** vectors_el2.S:107-120: whatever the handler did to the registers and the stack pointer, the
        host context comes back from host_saved_area; `ret` goes to the restored x30. */
    method VectorReturn()
      requires Valid() && saved[12] <= stack.Length
      modifies this`hw, this`sp
      ensures Valid() && hw.x[19..] == saved[..12] && sp == saved[12]
      ensures hw == old(hw).(x := hw.x)
    {
      SetX(2, savedAddr);
      LdpHost(0);
      LdpHost(2);
      LdpHost(4);
      LdpHost(6);
      LdpHost(8);
      LdpHost(10);
      SetX(1, saved[12]);
      sp := hw.x[1];
    }

    /** The whole trip: restore, a guest that does anything, capture, a handler that does anything
        to the registers, and back. The frame holds the trapped guest, and to its C caller
        vcpu_switch_asm looks like a function that keeps x19 to x30 and SP. */
    method SwitchAndTrap(tf: array<Word>, g: Guest, code: Word, esr: Word, far: Word, handler: Hw)
      requires Valid() && latch == tf && hw.x[0] == frameAddr && 4 <= sp <= stack.Length < MOD64
      modifies this`hw, this`sp, this`latch, stack, saved, tf
      ensures Valid() && latch == null
      ensures FrameOf(tf[..]) == Capture(GuestStep(Restore(old(hw), FrameOf(old(tf[..]))), g))
      ensures hw.x[19..] == old(hw.x)[19..] && sp == old(sp)
      ensures forall i :: sp <= i < stack.Length ==> stack[i] == old(stack[i])
    {
      VcpuSwitchAsm(tf);
      hw := GuestStep(hw, g);
      VectorEntry(code, esr, far);
      hw := handler;
      VectorReturn();
    }

    /** The two instruction sequences back to back, with no guest step between: the frame in memory
        comes back word for word, up to the two control words, and the stack is balanced. */
    method RestoreThenCapture(tf: array<Word>, code: Word, esr: Word, far: Word)
      requires Valid() && latch == tf && hw.x[0] == frameAddr && 4 <= sp <= stack.Length
      modifies this`hw, this`sp, this`latch, stack, saved, tf
      ensures Valid() && latch == null && sp == old(sp)
      ensures FrameOf(tf[..]) == Programmed(FrameOf(old(tf[..])))
      ensures forall i :: sp <= i < stack.Length ==> stack[i] == old(stack[i])
    {
      hide Restore, Capture, FrameOf, Programmed;
      CaptureUndoesRestore(hw, FrameOf(tf[..]));
      VcpuSwitchAsm(tf);
      VectorEntry(code, esr, far);
    }
  }
}
