/** The run queue of core/vcpu.c as values: a vCPU pointer is its index in the vCPU pool. */
module Scheduler {
  import opened Words

  const MAX: nat := 8  // VCPU_SCHED_MAX

  datatype Option<+T> = None | Some(value: T)

  /** sched_runqueue[..sched_len], sched_idx and sched_current. */
  datatype Sched = Sched(queue: seq<nat>, idx: nat, current: Option<nat>)

  const EMPTY := Sched([], 0, None)

  /** sched_find_slot. */
  function FindSlot(queue: seq<nat>, v: nat): (slot: int)
    ensures -1 <= slot < |queue|
    ensures slot >= 0 ==> queue[slot] == v && v !in queue[..slot]
    ensures slot < 0 <==> v !in queue
  {
    if queue == [] then -1
    else if queue[0] == v then 0
    else
      var rest := FindSlot(queue[1..], v);
      assert queue == [queue[0]] + queue[1..];
      if rest < 0 then -1 else
        assert queue[..rest + 1] == [queue[0]] + queue[1..][..rest];
        rest + 1
  }

  function Register(s: Sched, v: Option<nat>): Sched {
    if v.None? || |s.queue| >= MAX || v.value in s.queue then s
    else
      var s' := s.(queue := s.queue + [v.value]);
      if s.current.None? then s'.(current := v, idx := |s.queue|) else s'
  }

  function SetCurrent(s: Sched, v: Option<nat>): Sched {
    if v.None? then s
    else
      var slot := FindSlot(s.queue, v.value);
      if slot < 0 && |s.queue| < MAX then
        Sched(s.queue + [v.value], |s.queue|, v)
      else if slot >= 0 then s.(current := v, idx := slot)
      else s
  }

  function Next(s: Sched): nat
    requires s.queue != []
  {
    (s.idx + 1) % |s.queue|
  }

  /** The test at the top of vcpu_scheduler_yield, including the one on the target. */
  predicate CanYield(s: Sched) {
    |s.queue| > 1 && s.current.Some? && s.queue[Next(s)] != s.current.value
  }

  /** The scheduler's half of a yield; the world switch follows it. */
  function Select(s: Sched): Sched {
    if CanYield(s) then s.(current := Some(s.queue[Next(s)]), idx := Next(s)) else s
  }

  predicate Distinct(queue: seq<nat>) {
    forall i, j :: 0 <= i < j < |queue| ==> queue[i] != queue[j]
  }

  /** At most eight distinct vCPUs, and the current one is where the index says. */
  predicate Inv(s: Sched) {
    && |s.queue| <= MAX
    && Distinct(s.queue)
    && if s.queue == [] then s.current == None else s.idx < |s.queue| && s.current == Some(s.queue[s.idx])
  }

  datatype Op = OpRegister(v: Option<nat>) | OpSetCurrent(v: Option<nat>) | OpYield

  function Apply(s: Sched, op: Op): Sched {
    match op
    case OpRegister(v) => Register(s, v)
    case OpSetCurrent(v) => SetCurrent(s, v)
    case OpYield => Select(s)
  }

  function Run(s: Sched, ops: seq<Op>): Sched
    decreases |ops|
  {
    if ops == [] then s else Run(Apply(s, ops[0]), ops[1..])
  }

  lemma ApplyKeepsInv(s: Sched, op: Op)
    requires Inv(s)
    ensures Inv(Apply(s, op))
    ensures forall v :: v in s.queue ==> v in Apply(s, op).queue
  {
    if op.OpSetCurrent? && op.v.Some? {
      var slot := FindSlot(s.queue, op.v.value);
    }
  }

  /** The invariant holds after any sequence of operations from the empty scheduler. */
  lemma {:induction false} RunKeepsInv(s: Sched, ops: seq<Op>)
    requires Inv(s)
    ensures Inv(Run(s, ops))
    ensures forall v :: v in s.queue ==> v in Run(s, ops).queue
    decreases |ops|
  {
    if ops != [] {
      ApplyKeepsInv(s, ops[0]);
      RunKeepsInv(Apply(s, ops[0]), ops[1..]);
    }
  }

  /** A yield is refused exactly when there are fewer than two vCPUs: under the invariant the
      null and same-vCPU tests on the target never fire. */
  lemma YieldRefusedIff(s: Sched)
    requires Inv(s)
    ensures !CanYield(s) <==> |s.queue| < 2
    ensures CanYield(s) ==> Select(s).current.value != s.current.value
  {
    if |s.queue| >= 2 {
      assert Next(s) == if s.idx + 1 == |s.queue| then 0 else s.idx + 1;
    }
  }

  /** Registration and set_current only ever append: they take a vCPU exactly when it is known or
      there is room, set_current then makes it current, and registration displaces nobody. */
  lemma AdmissionIff(s: Sched, v: nat)
    requires Inv(s)
    ensures var admitted, r, c := v in s.queue || |s.queue| < 8, Register(s, Some(v)), SetCurrent(s, Some(v));
            && s.queue <= r.queue && r.queue == c.queue && |r.queue| <= |s.queue| + 1
            && (v in r.queue <==> admitted)
            && (forall u :: u in r.queue ==> u in s.queue || u == v)
            && (c.current == Some(v) <==> admitted || s.current == Some(v))
            && (!admitted ==> c == s)
            && (s.queue != [] ==> r.current == s.current)
  {
    var slot := FindSlot(s.queue, v);
  }

  // ----- Bounded waiting -----

  /** Yields until the vCPU in slot p runs, counting the array's free slots as occupied. */
  function Wait(s: Sched, p: nat): int {
    if s.idx <= p then p - s.idx else p + MAX - s.idx
  }

  function YieldCount(ops: seq<Op>): nat {
    if ops == [] then 0 else (if ops[0].OpYield? then 1 else 0) + YieldCount(ops[1..])
  }

  /** Registration never lengthens a wait, and a yield shortens it unless it is over. */
  lemma WaitShrinks(s: Sched, op: Op, p: nat)
    requires Inv(s) && p < |s.queue| && !op.OpSetCurrent?
    ensures 0 <= Wait(s, p) <= 7
    ensures var s' := Apply(s, op);
            && p < |s'.queue| && s'.queue[p] == s.queue[p]
            && (Wait(s', p) <= Wait(s, p) || Wait(s, p) == 0)
    ensures op.OpRegister? ==> Wait(Apply(s, op), p) == Wait(s, p)
    ensures op.OpYield? && Wait(s, p) > 0 ==> Wait(Apply(s, op), p) < Wait(s, p)
    ensures Wait(s, p) == 0 <==> s.current == Some(s.queue[p])
  {
    YieldRefusedIff(s);
    if |s.queue| >= 2 {
      assert Next(s) == if s.idx + 1 == |s.queue| then 0 else s.idx + 1;
    }
  }

  /** In any run of registrations and yields, the vCPU in slot p becomes current within
      Wait(s, p) <= 7 yields. */
  lemma {:induction false} BoundedWaiting(s: Sched, ops: seq<Op>, p: nat)
    requires Inv(s) && p < |s.queue|
    requires forall op :: op in ops ==> !op.OpSetCurrent?
    requires YieldCount(ops) >= Wait(s, p)
    ensures exists k :: 0 <= k <= |ops| && Run(s, ops[..k]).current == Some(s.queue[p])
                        && YieldCount(ops[..k]) <= Wait(s, p) <= 7
    decreases |ops|
  {
    if ops == [] || Wait(s, p) == 0 {
      WaitShrinks(s, OpYield, p);
      assert ops[..0] == [];
      assert Run(s, ops[..0]).current == Some(s.queue[p]);
    } else {
      var s', rest := Apply(s, ops[0]), ops[1..];
      WaitShrinks(s, ops[0], p);
      ApplyKeepsInv(s, ops[0]);
      BoundedWaiting(s', rest, p);
      var k :| 0 <= k <= |rest| && Run(s', rest[..k]).current == Some(s'.queue[p])
               && YieldCount(rest[..k]) <= Wait(s', p) <= 7;
      assert ops[..k + 1][0] == ops[0] && ops[..k + 1][1..] == rest[..k];
      assert Run(s, ops[..k + 1]).current == Some(s.queue[p]);
    }
  }

  function YieldTimes(s: Sched, n: nat): Sched {
    if n == 0 then s else Select(YieldTimes(s, n - 1))
  }

  /** With a fixed queue, n yields move the index n places round. */
  lemma {:induction false} RoundRobin(s: Sched, n: nat)
    requires Inv(s) && s.queue != []
    ensures var s' := YieldTimes(s, n);
            Inv(s') && s'.queue == s.queue && s'.idx == (s.idx + n) % |s.queue|
  {
    if n > 0 {
      var before, m := YieldTimes(s, n - 1), |s.queue|;
      RoundRobin(s, n - 1);
      YieldRefusedIff(before);
      ApplyKeepsInv(before, OpYield);
      ModStep(s.idx + n - 1, m);
    }
  }

  lemma ModStep(a: nat, m: nat)
    requires m > 0
    ensures (a + 1) % m == (a % m + 1) % m
  {
    var q, r := a / m, a % m;
    assert a == q * m + r;
    if r + 1 < m {
      DivModUnique(a + 1, m, q, r + 1);
      DivModUnique(r + 1, m, 0, r + 1);
    } else {
      assert (q + 1) * m == q * m + m;
      DivModUnique(a + 1, m, q + 1, 0);
      DivModUnique(m, m, 1, 0);
    }
  }

  /** The one yield, from 1 to |queue|, that makes slot p current. */
  function Turn(s: Sched, p: nat): int {
    if p > s.idx then p - s.idx else p + |s.queue| - s.idx
  }

  /** |queue| successive yields make every vCPU current exactly once, on its turn. */
  lemma EachOnce(s: Sched, p: nat, n: nat)
    requires Inv(s) && p < |s.queue| && 1 <= n <= |s.queue|
    ensures 1 <= Turn(s, p) <= |s.queue|
    ensures YieldTimes(s, n).current == Some(s.queue[p]) <==> n == Turn(s, p)
  {
    hide YieldTimes;
    RoundRobin(s, n);
    var i, m := s.idx, |s.queue|;
    if i + n < m {
      DivModUnique(i + n, m, 0, i + n);
    } else {
      DivModUnique(i + n, m, 1, i + n - m);
    }
    var s' := YieldTimes(s, n);
    assert s'.queue[s'.idx] == s.queue[p] <==> s'.idx == p;
  }
}
