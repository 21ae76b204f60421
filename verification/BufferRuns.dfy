/**
 * Whole runs of the buffer: every push is numbered, and the books say which items have
 * been popped and which overwritten.
 */
module BufferRuns {
  import opened Buffer
  import opened Sequences

  datatype Op<T> = Push(item: T) | Pop

  /**
   * contents: what the buffer holds; pushed: all items ever pushed; returned: what the pops
   * returned; popped, overwritten: the numbers of the items that left, in the order they left.
   */
  datatype Books<T> = Books(contents: seq<T>, pushed: seq<T>, returned: seq<T>, popped: seq<nat>, overwritten: seq<nat>)

  ghost predicate Sane<T>(b: Books<T>, capacity: nat) {
    |b.contents| <= capacity && |b.contents| <= |b.pushed|
  }

  /** How many items have left; also the number of the oldest one held. */
  ghost function Gone<T>(b: Books<T>): nat
    requires |b.contents| <= |b.pushed|
  {
    |b.pushed| - |b.contents|
  }

  ghost function Apply<T>(b: Books<T>, capacity: nat, op: Op<T>): (b': Books<T>)
    requires capacity > 0 && Sane(b, capacity)
    ensures Sane(b', capacity)
  {
    match op
    case Push(item) =>
      b.(contents := Pushed(b.contents, capacity, item),
         pushed := b.pushed + [item],
         overwritten := if |b.contents| == capacity then b.overwritten + [Gone(b)] else b.overwritten)
    case Pop =>
      if b.contents == [] then b
      else b.(contents := b.contents[1..],
              returned := b.returned + [b.contents[0]],
              popped := b.popped + [Gone(b)])
  }

  ghost function Run<T>(capacity: nat, ops: seq<Op<T>>): (b: Books<T>)
    requires capacity > 0
    ensures Sane(b, capacity)
  {
    if ops == [] then Books([], [], [], [], [])
    else Apply(Run(capacity, ops[..|ops| - 1]), capacity, ops[|ops| - 1])
  }

  /** The items before number `gone` have left, each in one of two ways, in order. */
  ghost predicate Parted(popped: seq<nat>, overwritten: seq<nat>, gone: nat) {
    && Increasing(popped) && Increasing(overwritten)
    && (forall i :: i in popped ==> i < gone)
    && (forall i :: i in overwritten ==> i < gone)
    && forall i :: 0 <= i < gone ==> (i in overwritten <==> i !in popped)
  }

  /** The next item leaves in one way or the other. */
  lemma OneMoreLeaves(popped: seq<nat>, overwritten: seq<nat>, gone: nat)
    requires Parted(popped, overwritten, gone)
    ensures Parted(popped + [gone], overwritten, gone + 1)
    ensures Parted(popped, overwritten + [gone], gone + 1)
  {
    IncreasingSnoc(popped, gone);
    IncreasingSnoc(overwritten, gone);
    assert forall i :: i in popped + [gone] <==> i in popped || i == gone;
    assert forall i :: i in overwritten + [gone] <==> i in overwritten || i == gone;
  }

  /** The buffer holds the newest items; each older one was popped or overwritten, not both. */
  ghost predicate Balanced<T>(b: Books<T>, capacity: nat)
    requires Sane(b, capacity)
  {
    && b.contents == b.pushed[Gone(b)..]
    && Parted(b.popped, b.overwritten, Gone(b))
    && (forall i :: i in b.overwritten ==> i + capacity < |b.pushed|)
    && |b.popped| + |b.overwritten| == Gone(b)
    && |b.returned| == |b.popped|
    && forall i :: 0 <= i < |b.popped| ==> b.popped[i] < |b.pushed| && b.returned[i] == b.pushed[b.popped[i]]
  }

  lemma {:induction false} RunIsBalanced<T>(capacity: nat, ops: seq<Op<T>>)
    requires capacity > 0
    ensures Balanced(Run(capacity, ops), capacity)
  {
    if ops != [] {
      var n := |ops| - 1;
      RunIsBalanced(capacity, ops[..n]);
      ApplyKeepsBalance(Run(capacity, ops[..n]), capacity, ops[n]);
    }
  }

  lemma ApplyKeepsBalance<T>(b: Books<T>, capacity: nat, op: Op<T>)
    requires capacity > 0 && Sane(b, capacity) && Balanced(b, capacity)
    ensures Balanced(Apply(b, capacity, op), capacity)
  {
    OneMoreLeaves(b.popped, b.overwritten, Gone(b));
    match op
    case Push(item) =>
      if |b.contents| == capacity {
        var b' := Apply(b, capacity, op);
        assert forall i :: i in b'.overwritten <==> i in b.overwritten || i == Gone(b);
      }
    case Pop =>
      if b.contents != [] {
        assert b.contents[0] == b.pushed[Gone(b)];
      }
  }

  /** ops[p] is the push of the item with the given number. */
  ghost predicate Pushes<T>(capacity: nat, ops: seq<Op<T>>, p: nat, number: nat)
    requires capacity > 0
  {
    p < |ops| && ops[p].Push? && |Run(capacity, ops[..p]).pushed| == number
  }

  /** One operation overwrites item i exactly when it is push i + N and i is not popped yet. */
  lemma OneStepOverwrites<T>(b: Books<T>, capacity: nat, op: Op<T>, i: nat)
    requires capacity > 0 && Sane(b, capacity) && Balanced(b, capacity)
    ensures i in Apply(b, capacity, op).overwritten <==>
            i in b.overwritten || (op.Push? && |b.pushed| == i + capacity && i !in b.popped)
  {
  }

  /** An item missed its chance: push i + N happened and i had not been popped. */
  ghost predicate Late<T>(capacity: nat, ops: seq<Op<T>>, i: nat)
    requires capacity > 0
  {
    exists p: nat :: Pushes(capacity, ops, p, i + capacity) && i !in Run(capacity, ops[..p]).popped
  }

  lemma LateSnoc<T>(capacity: nat, front: seq<Op<T>>, op: Op<T>, i: nat)
    requires capacity > 0
    ensures Late(capacity, front + [op], i) <==>
            Late(capacity, front, i)
            || (op.Push? && |Run(capacity, front).pushed| == i + capacity && i !in Run(capacity, front).popped)
  {
    var ops, n := front + [op], |front|;
    assert ops[..n] == front;
    forall p: nat | p < n
      ensures front[..p] == ops[..p]
    {
    }
    if Late(capacity, front, i) {
      var p: nat :| Pushes(capacity, front, p, i + capacity) && i !in Run(capacity, front[..p]).popped;
      assert Pushes(capacity, ops, p, i + capacity);
    }
    if Late(capacity, ops, i) {
      var p: nat :| Pushes(capacity, ops, p, i + capacity) && i !in Run(capacity, ops[..p]).popped;
      assert p < n ==> Pushes(capacity, front, p, i + capacity);
    }
    if op.Push? && |Run(capacity, front).pushed| == i + capacity {
      assert Pushes(capacity, ops, n, i + capacity);
    }
  }

  /** An item is overwritten exactly when it has not been popped before the push N items later. */
  lemma {:induction false} OverwrittenUnlessPopped<T>(capacity: nat, ops: seq<Op<T>>, i: nat)
    requires capacity > 0
    ensures i in Run(capacity, ops).overwritten <==> Late(capacity, ops, i)
  {
    if ops != [] {
      var n := |ops| - 1;
      OverwrittenUnlessPopped(capacity, ops[..n], i);
      RunIsBalanced(capacity, ops[..n]);
      OneStepOverwrites(Run(capacity, ops[..n]), capacity, ops[n], i);
      LateSnoc(capacity, ops[..n], ops[n], i);
      assert ops == ops[..n] + [ops[n]];
    }
  }

  /**
   * At any moment: the newest items are held, the pops returned an increasing choice of the
   * pushed items, and every push is held, popped or overwritten.
   */
  lemma BufferAccounting<T>(capacity: nat, ops: seq<Op<T>>)
    requires capacity > 0
    ensures var b := Run(capacity, ops);
            && |b.contents| <= capacity
            && b.contents == b.pushed[|b.pushed| - |b.contents|..]
            && |b.pushed| == |b.popped| + |b.overwritten| + |b.contents|
            && Increasing(b.popped) && |b.returned| == |b.popped|
            && forall i :: 0 <= i < |b.popped| ==> b.popped[i] < |b.pushed| && b.returned[i] == b.pushed[b.popped[i]]
  {
    RunIsBalanced(capacity, ops);
  }
}
