/** What a backend is known to have imported: the two compare-and-swap loops on
    its head, run by any number of goroutines in any interleaving. */
module HeadKnowledge {
  import opened Words

  /** A call of ObserveHead or HeadBelow. */
  datatype Op = Observe(n: Height) | Below(n: Height)

  /** Where a goroutine is in its loop: about to load, about to swap, or returned. */
  datatype Pc = Loading | Swapping(cur: Height) | Returned

  datatype Caller = Caller(op: Op, pc: Pc)

  datatype Machine = Machine(head: Height, callers: seq<Caller>)

  /** A goroutine makes its call, or one takes its next atomic step. */
  datatype Event = Start(op: Op) | Move(caller: nat)

  /** The loop returns on the value it has just loaded. */
  predicate Settled(op: Op, cur: Height) {
    match op
    case Observe(n) => n <= cur
    case Below(n) => n == 0 || (cur != 0 && cur < n)
  }

  /** The value the loop tries to swap in. */
  function Target(op: Op): Height
    requires op.Below? ==> op.n > 0
  {
    match op
    case Observe(n) => n
    case Below(n) => n - 1
  }

  /** The next step of a caller; HeadBelow(0) returns before its loop. */
  function Moved(m: Machine, k: nat): Machine
    requires k < |m.callers|
  {
    var c := m.callers[k];
    match c.pc
    case Returned => m
    case Loading =>
      m.(callers := m.callers[k := c.(pc := if Settled(c.op, m.head) then Returned else Swapping(m.head))])
    case Swapping(cur) =>
      if m.head == cur && (c.op.Below? ==> c.op.n > 0) then
        Machine(Target(c.op), m.callers[k := c.(pc := Returned)])
      else
        m.(callers := m.callers[k := c.(pc := Loading)])
  }

  function Step(m: Machine, e: Event): Machine {
    match e
    case Start(op) => m.(callers := m.callers + [Caller(op, Loading)])
    case Move(k) => if k < |m.callers| then Moved(m, k) else m
  }

  function After(run: seq<Event>): Machine {
    if run == [] then Machine(0, []) else Step(After(run[..|run| - 1]), run[|run| - 1])
  }

  /** The call that an event completes. */
  function Completed(m: Machine, e: Event): seq<nat> {
    if e.Move? && e.caller < |m.callers| && m.callers[e.caller].pc != Returned
       && Step(m, e).callers[e.caller].pc == Returned
    then [e.caller] else []
  }

  /** The calls in the order in which they completed. */
  function Order(run: seq<Event>): seq<nat> {
    if run == [] then [] else Order(run[..|run| - 1]) + Completed(After(run[..|run| - 1]), run[|run| - 1])
  }

  /* ---------- The atomic operations ---------- */

  /** ObserveHead as an atomic maximum and HeadBelow as an atomic cap. */
  function Apply(head: Height, op: Op): Height {
    match op
    case Observe(n) => if n > head then n else head
    case Below(n) => if n == 0 then head else if head == 0 || head >= n then n - 1 else head
  }

  function ApplyAll(head: Height, ops: seq<Op>): Height {
    if ops == [] then head else Apply(ApplyAll(head, ops[..|ops| - 1]), ops[|ops| - 1])
  }

  lemma {:induction false} ApplyAllSplit(head: Height, a: seq<Op>, b: seq<Op>)
    ensures ApplyAll(head, a + b) == ApplyAll(ApplyAll(head, a), b)
  {
    if b == [] {
      assert a + b == a;
    } else {
      assert (a + b)[..|a + b| - 1] == a + b[..|b| - 1];
      ApplyAllSplit(head, a, b[..|b| - 1]);
    }
  }

  function OpsOf(m: Machine, order: seq<nat>): (ops: seq<Op>)
    requires forall j :: 0 <= j < |order| ==> order[j] < |m.callers|
    ensures |ops| == |order| && forall j :: 0 <= j < |order| ==> ops[j] == m.callers[order[j]].op
  {
    seq(|order|, j requires 0 <= j < |order| => m.callers[order[j]].op)
  }

  /** A caller about to swap has a head to swap for, and HeadBelow(0) never gets there. */
  ghost predicate Sane(m: Machine) {
    forall k :: 0 <= k < |m.callers| && m.callers[k].pc.Swapping? ==> !Settled(m.callers[k].op, m.callers[k].pc.cur)
  }

  /** One atomic step either completes one call and does what the atomic
      operation would, or leaves the head as it was. */
  lemma {:induction false} StepIsAtomic(m: Machine, e: Event)
    requires Sane(m)
    ensures var t := Step(m, e);
            && Sane(t)
            && |m.callers| <= |t.callers|
            && (forall k :: 0 <= k < |m.callers| ==> t.callers[k].op == m.callers[k].op)
            && t.head == if Completed(m, e) == [] then m.head else Apply(m.head, m.callers[Completed(m, e)[0]].op)
  {
  }

  lemma StepReturns(m: Machine, e: Event, k: nat)
    requires k < |Step(m, e).callers|
    ensures Step(m, e).callers[k].pc == Returned <==>
              (k < |m.callers| && m.callers[k].pc == Returned) || k in Completed(m, e)
    ensures k in Completed(m, e) ==> k < |m.callers| && m.callers[k].pc != Returned
  {
  }

  ghost predicate Explained(run: seq<Event>) {
    var m, order := After(run), Order(run);
    && Sane(m)
    && (forall j :: 0 <= j < |order| ==> order[j] < |m.callers|)
    && m.head == ApplyAll(0, OpsOf(m, order))
  }

  /** Every interleaving is explained by some order of atomic operations: the head
      is what the completed calls make of it, one after the other, in the order in
      which they completed. */
  lemma {:induction false} HeadIsLinearizable(run: seq<Event>)
    ensures Explained(run)
  {
    hide Step, Completed, Sane, Apply;
    if run == [] {
      assert Sane(After(run)) by { StartIsSane(); }
    } else {
      var before, e := run[..|run| - 1], run[|run| - 1];
      HeadIsLinearizable(before);
      StepExplained(After(before), e, Order(before));
    }
  }

  /** An order that explains a head still does after one more step. */
  lemma StepExplained(m: Machine, e: Event, order: seq<nat>)
    requires Sane(m) && (forall j :: 0 <= j < |order| ==> order[j] < |m.callers|)
    requires m.head == ApplyAll(0, OpsOf(m, order))
    ensures var t, next := Step(m, e), order + Completed(m, e);
            && Sane(t) && (forall j :: 0 <= j < |next| ==> next[j] < |t.callers|)
            && t.head == ApplyAll(0, OpsOf(t, next))
  {
    StepIsAtomic(m, e);
    CompletedShape(m, e);
    hide Step, Completed, Sane, Apply;
    var t := Step(m, e);
    if Completed(m, e) == [] {
      assert order + Completed(m, e) == order;
      assert OpsOf(t, order) == OpsOf(m, order);
    } else {
      var k := Completed(m, e)[0];
      assert k in Completed(m, e) && Completed(m, e) == [k];
      assert OpsOf(t, order + [k]) == OpsOf(m, order) + [m.callers[k].op];
      assert (OpsOf(m, order) + [m.callers[k].op])[..|order|] == OpsOf(m, order);
    }
  }

  lemma StartIsSane()
    ensures Sane(Machine(0, []))
  {
  }

  lemma CompletedShape(m: Machine, e: Event)
    ensures |Completed(m, e)| <= 1
    ensures forall k :: k in Completed(m, e) ==> k < |m.callers|
  {
  }

  /** A call takes effect at most once, and has taken effect exactly when it has
      returned; it completes after it starts and before it returns. */
  lemma {:induction false} EffectIsOnce(run: seq<Event>, k: nat)
    requires k < |After(run).callers|
    ensures multiset(Order(run))[k] == if After(run).callers[k].pc == Returned then 1 else 0
  {
    hide Step, Completed;
    var before, e := run[..|run| - 1], run[|run| - 1];
    var m := After(before);
    CompletedShape(m, e);
    StepReturns(m, e, k);
    StepGrows(m, e);
    if k < |m.callers| {
      EffectIsOnce(before, k);
    } else {
      NotYet(before, k);
    }
    assert multiset(Order(run)) == multiset(Order(before)) + multiset(Completed(m, e));
  }

  lemma StepGrows(m: Machine, e: Event)
    ensures |m.callers| <= |Step(m, e).callers|
  {
  }

  lemma {:induction false} NotYet(run: seq<Event>, k: nat)
    requires k >= |After(run).callers|
    ensures k !in Order(run)
  {
    hide Step, Completed;
    if run != [] {
      StepGrows(After(run[..|run| - 1]), run[|run| - 1]);
      CompletedShape(After(run[..|run| - 1]), run[|run| - 1]);
      NotYet(run[..|run| - 1], k);
    }
  }

  /* ---------- What the operations mean ---------- */

  function Largest(head: Height, ops: seq<Op>): Height {
    if ops == [] then head
    else
      var before := Largest(head, ops[..|ops| - 1]);
      if ops[|ops| - 1].n > before then ops[|ops| - 1].n else before
  }

  lemma {:induction false} LargestBounds(head: Height, ops: seq<Op>)
    ensures Largest(head, ops) >= head && forall j :: 0 <= j < |ops| ==> ops[j].n <= Largest(head, ops)
    ensures Largest(head, ops) == head || exists j :: 0 <= j < |ops| && ops[j].n == Largest(head, ops)
  {
    if ops != [] {
      var n := |ops| - 1;
      LargestBounds(head, ops[..n]);
      if Largest(head, ops) == Largest(head, ops[..n]) && Largest(head, ops) != head {
        var j :| 0 <= j < n && ops[..n][j].n == Largest(head, ops[..n]);
        assert ops[j].n == Largest(head, ops);
      }
    }
  }

  lemma {:induction false} ObservedIsLargest(head: Height, ops: seq<Op>)
    requires forall j :: 0 <= j < |ops| ==> ops[j].Observe?
    ensures ApplyAll(head, ops) == Largest(head, ops)
  {
    if ops != [] {
      ObservedIsLargest(head, ops[..|ops| - 1]);
    }
  }

  /** The head that observations follow: what a HeadBelow(n) before them left, which is
      what was known if that was below n and n - 1 otherwise. */
  function Base(ops: seq<Op>, j: nat): Height
    requires j <= |ops| && (j > 0 ==> ops[j - 1].Below? && ops[j - 1].n > 0)
  {
    if j == 0 then 0
    else
      var before := ApplyAll(0, ops[..j - 1]);
      if 0 < before < ops[j - 1].n then before else ops[j - 1].n - 1
  }

  lemma BaseIsApplied(ops: seq<Op>, j: nat)
    requires j <= |ops| && (j > 0 ==> ops[j - 1].Below? && ops[j - 1].n > 0)
    ensures ApplyAll(0, ops[..j]) == Base(ops, j)
  {
    if j > 0 {
      assert ops[..j][..j - 1] == ops[..j - 1];
    }
  }

  lemma HeadOf(ops: seq<Op>, j: nat)
    requires j <= |ops| && (j > 0 ==> ops[j - 1].Below? && ops[j - 1].n > 0)
    requires forall l :: j <= l < |ops| ==> ops[l].Observe?
    ensures ApplyAll(0, ops) == Largest(Base(ops, j), ops[j..])
  {
    hide Apply;
    assert ops == ops[..j] + ops[j..];
    ApplyAllSplit(0, ops[..j], ops[j..]);
    BaseIsApplied(ops, j);
    ObservedIsLargest(Base(ops, j), ops[j..]);
  }

  /** In any interleaving, the head is the largest block observed since the last
      HeadBelow(n), or what that call left. Without any such call it is the largest
      block observed at all. */
  lemma HeadExactly(run: seq<Event>, j: nat)
    requires var ops := Completions(run);
             && j <= |ops| && (j > 0 ==> ops[j - 1].Below? && ops[j - 1].n > 0)
             && forall l :: j <= l < |ops| ==> ops[l].Observe?
    ensures var ops, head := Completions(run), After(run).head;
            && head >= Base(ops, j) && (forall l :: j <= l < |ops| ==> ops[l].n <= head)
            && (head == Base(ops, j) || exists l :: j <= l < |ops| && ops[l].n == head)
  {
    hide After, Apply, ApplyAll, Base, Largest;
    var ops := Completions(run);
    var later := ops[j..];
    HeadOf(ops, j);
    LargestBounds(Base(ops, j), later);
    assert forall l :: j <= l < |ops| ==> later[l - j] == ops[l];
    assert forall l :: 0 <= l < |later| ==> later[l] == ops[j + l];
  }

  /* ---------- Trailing backends ---------- */

  /** The part of candidate that looks at the head. */
  predicate Reaches(head: Height, minHead: Height) {
    minHead == 0 || head == 0 || head >= minHead
  }

  /** An operation that gives a trailing backend its standing back: news of the
      block, or HeadBelow(1), which makes the head unknown. */
  predicate Restores(op: Op, n: Height) {
    (op.Observe? && op.n >= n) || op == Below(1)
  }

  /** A backend below n stays below n until an operation that restores it, and
      such an operation always does. */
  lemma {:induction false} TrailsUntilRestored(head: Height, op: Op, n: Height)
    requires !Reaches(head, n)
    ensures Reaches(Apply(head, op), n) <==> Restores(op, n)
  {
  }

  /** After HeadBelow(n), n >= 2, the backend trails n through every later
      operation up to the first that restores it; HeadBelow(1) resets instead. */
  lemma {:induction false} TrailsAfterHeadBelow(head: Height, n: Height, later: seq<Op>)
    requires n >= 2 && forall j :: 0 <= j < |later| ==> !Restores(later[j], n)
    ensures !Reaches(ApplyAll(head, [Below(n)] + later), n)
  {
    var below: seq<Op> := [Below(n)];
    ApplyAllSplit(head, below, later);
    if later == [] {
      assert below[..0] == [];
      assert below + later == below;
    } else {
      var init := later[..|later| - 1];
      TrailsAfterHeadBelow(head, n, init);
      ApplyAllSplit(head, below, init);
      TrailsUntilRestored(ApplyAll(head, below + init), later[|later| - 1], n);
    }
  }

  /** The completed calls of a run, in order. */
  ghost function Completions(run: seq<Event>): (ops: seq<Op>)
    ensures After(run).head == ApplyAll(0, ops)
  {
    HeadIsLinearizable(run);
    OpsOf(After(run), Order(run))
  }

  /** In any interleaving: once a HeadBelow(n) call has completed and no call
      that restores the backend has completed since, the backend is no candidate
      for a request that needs n or more. */
  lemma {:induction false} TrailingIsExcluded(run: seq<Event>, j: nat, n: Height, minHead: Height)
    requires j < |Completions(run)| && Completions(run)[j] == Below(n) && 2 <= n <= minHead
    requires forall l :: j < l < |Completions(run)| ==> !Restores(Completions(run)[l], n)
    ensures !Reaches(After(run).head, minHead)
  {
    hide After, Order, Apply, Restores, Sane;
    TrailsAt(Completions(run), j, n);
  }

  lemma TrailsAt(ops: seq<Op>, j: nat, n: Height)
    requires j < |ops| && n >= 2 && ops[j] == Below(n)
    requires forall l :: j < l < |ops| ==> !Restores(ops[l], n)
    ensures !Reaches(ApplyAll(0, ops), n)
  {
    hide Apply, Restores;
    var earlier, later := ops[..j], ops[j + 1..];
    assert ops == earlier + ([Below(n)] + later);
    ApplyAllSplit(0, earlier, [Below(n)] + later);
    TrailsAfterHeadBelow(ApplyAll(0, earlier), n, later);
  }
}
