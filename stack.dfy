/** `internal/stack`: a LIFO stack over a growable slice. The mutex that makes the Go type safe
    for concurrent use is not modelled; each call here runs on its own. */
module Stacks {

  /** What `Pop` returns: the item, or the `ErrEmpty` error. */
  datatype PopResult<T> = Popped(value: T) | ErrEmpty

  /** What `Pop` does to the contents `s` (top at the end): the result and the new contents. */
  function PopOf<T>(s: seq<T>): (o: (PopResult<T>, seq<T>))
    ensures s == [] ==> o == (ErrEmpty, s)
    ensures s != [] ==> o.0 == Popped(s[|s| - 1]) && o.1 + [s[|s| - 1]] == s
  {
    if s == [] then (ErrEmpty, s) else (Popped(s[|s| - 1]), s[..|s| - 1])
  }

  class Stack<T> {
    /** The slice `s`; its last element is the top of the stack. */
    var s: seq<T>

    /** `New`: an empty stack. */
    constructor ()
      ensures s == []
    {
      s := [];
    }

    /** `Push`: `v` goes on top. */
    method Push(v: T)
      modifies this
      ensures s == old(s) + [v]
      ensures |s| == |old(s)| + 1
    {
      s := s + [v];
    }

    /** `Pop`: the top item and the stack without it, or `ErrEmpty` and the stack unchanged. */
    method Pop() returns (r: PopResult<T>)
      modifies this
      ensures (r, s) == PopOf(old(s))
    {
      if |s| == 0 {
        return ErrEmpty;
      }
      r := Popped(s[|s| - 1]);
      s := s[..|s| - 1];
    }

    /** `Size`: the number of items. */
    method Size() returns (n: nat)
      ensures n == |s|
    {
      n := |s|;
    }
  }

  // -------------------------------------------------------------------------
  // Sequences of operations

  datatype Op<T> = PushOp(v: T) | PopOp

  /** The contents after running `ops` from `s`, and every result `Pop` returned. */
  function Run<T>(s: seq<T>, ops: seq<Op<T>>): (seq<T>, seq<PopResult<T>>)
    decreases |ops|
  {
    if ops == [] then (s, []) else Step(Run(s, ops[..|ops| - 1]), ops[|ops| - 1])
  }

  /** One operation applied to the contents and the results so far. */
  function Step<T>(st: (seq<T>, seq<PopResult<T>>), op: Op<T>): (seq<T>, seq<PopResult<T>>)
  {
    match op
    case PushOp(v) => (st.0 + [v], st.1)
    case PopOp => (PopOf(st.0).1, st.1 + [PopOf(st.0).0])
  }

  function Pushes<T>(ops: seq<Op<T>>): nat
  {
    if ops == [] then 0 else Pushes(ops[..|ops| - 1]) + if ops[|ops| - 1].PushOp? then 1 else 0
  }

  function Successes<T>(out: seq<PopResult<T>>): nat
  {
    if out == [] then 0 else Successes(out[..|out| - 1]) + if out[|out| - 1].Popped? then 1 else 0
  }

  /** The size is the number of pushes minus the number of successful pops. */
  lemma {:induction false} SizeCountsOperations<T>(s: seq<T>, ops: seq<Op<T>>)
    ensures |Run(s, ops).0| == |s| + Pushes(ops) - Successes(Run(s, ops).1)
  {
    if ops != [] {
      var init := ops[..|ops| - 1];
      SizeCountsOperations(s, init);
      var st := Run(s, init);
      if ops[|ops| - 1].PopOp? {
        var out2 := st.1 + [PopOf(st.0).0];
        assert out2[..|out2| - 1] == st.1;
      }
    }
  }

  /** A push followed by a pop returns the pushed value and restores the contents. */
  lemma {:induction false} PushThenPop<T>(s: seq<T>, v: T)
    ensures Run(s, [PushOp(v), PopOp]) == (s, [Popped(v)])
  {
    var ops := [PushOp(v), PopOp];
    var one := [PushOp(v)];
    assert ops[..1] == one;
    assert one[..0] == [];
    assert Run(s, one) == (s + [v], []);
    assert (s + [v])[..|s|] == s;
    var none: seq<PopResult<T>> := [];
    assert none + [Popped(v)] == [Popped(v)];
  }

  function Pops<T>(n: nat): (ops: seq<Op<T>>)
    ensures |ops| == n && forall i :: 0 <= i < n ==> ops[i] == PopOp
  {
    if n == 0 then [] else Pops(n - 1) + [PopOp]
  }

  function PushAll<T>(xs: seq<T>): (ops: seq<Op<T>>)
    ensures |ops| == |xs| && forall i :: 0 <= i < |xs| ==> ops[i] == PushOp(xs[i])
  {
    if xs == [] then [] else PushAll(xs[..|xs| - 1]) + [PushOp(xs[|xs| - 1])]
  }

  function Reverse<T>(xs: seq<T>): (r: seq<T>)
    ensures |r| == |xs|
  {
    if xs == [] then [] else [xs[|xs| - 1]] + Reverse(xs[..|xs| - 1])
  }

  function AsPopped<T>(xs: seq<T>): (r: seq<PopResult<T>>)
    ensures |r| == |xs| && forall i :: 0 <= i < |xs| ==> r[i] == Popped(xs[i])
  {
    if xs == [] then [] else AsPopped(xs[..|xs| - 1]) + [Popped(xs[|xs| - 1])]
  }

  lemma {:induction false} RunPushAll<T>(s: seq<T>, xs: seq<T>)
    ensures Run(s, PushAll(xs)) == (s + xs, [])
  {
    if xs != [] {
      var ops := PushAll(xs);
      assert ops[..|ops| - 1] == PushAll(xs[..|xs| - 1]);
      assert Run(s, ops) == Step(Run(s, ops[..|ops| - 1]), PushOp(xs[|xs| - 1]));
      RunPushAll(s, xs[..|xs| - 1]);
      assert s + xs[..|xs| - 1] + [xs[|xs| - 1]] == s + xs;
    } else {
      assert s + xs == s;
    }
  }

  lemma {:induction false} RunAppend<T>(s: seq<T>, a: seq<Op<T>>, b: seq<Op<T>>)
    ensures Run(s, a + b).0 == Run(Run(s, a).0, b).0
    ensures Run(s, a + b).1 == Run(s, a).1 + Run(Run(s, a).0, b).1
    decreases |b|
  {
    if b == [] {
      assert a + b == a;
    } else {
      var b1 := b[..|b| - 1];
      assert (a + b)[..|a + b| - 1] == a + b1;
      RunAppend(s, a, b1);
    }
  }

  /** Popping `n` times removes the top `n` items, returning them top first. */
  lemma {:induction false} RunPops<T>(s: seq<T>, n: nat)
    requires n <= |s|
    ensures Run(s, Pops(n)) == (s[..|s| - n], AsPopped(Reverse(s[|s| - n..])))
  {
    if n > 0 {
      var ops := Pops<T>(n);
      assert ops[..|ops| - 1] == Pops(n - 1);
      assert Run(s, ops) == Step(Run(s, Pops(n - 1)), PopOp);
      RunPops(s, n - 1);
      var s1 := s[..|s| - (n - 1)];
      assert s1[..|s1| - 1] == s[..|s| - n];
      var top := s[|s| - n..];
      assert top[1..] == s[|s| - (n - 1)..];
      ReverseFront(top);
      AsPoppedAppend(Reverse(s[|s| - (n - 1)..]), s[|s| - n]);
    } else {
      assert s[..|s|] == s && s[|s|..] == [];
    }
  }

  lemma {:induction false} ReverseFront<T>(xs: seq<T>)
    requires xs != []
    ensures Reverse(xs) == Reverse(xs[1..]) + [xs[0]]
    decreases |xs|
  {
    if |xs| > 1 {
      var init := xs[..|xs| - 1];
      ReverseFront(init);
      assert init[1..] == xs[1..][..|xs[1..]| - 1];
      assert xs[1..][|xs[1..]| - 1] == xs[|xs| - 1];
    } else {
      assert xs[1..] == [] && xs[..0] == [];
    }
  }

  lemma {:induction false} AsPoppedAppend<T>(xs: seq<T>, y: T)
    ensures AsPopped(xs + [y]) == AsPopped(xs) + [Popped(y)]
  {
    assert (xs + [y])[..|xs|] == xs;
  }

  /** Last in, first out: pushing `xs` and then popping as many times returns `xs` in reverse
      order and leaves the stack as it was. */
  lemma LastInFirstOut<T>(s: seq<T>, xs: seq<T>)
    ensures Run(s, PushAll(xs) + Pops(|xs|)) == (s, AsPopped(Reverse(xs)))
  {
    RunAppend(s, PushAll(xs), Pops(|xs|));
    RunPushAll(s, xs);
    RunPops(s + xs, |xs|);
    assert (s + xs)[..|s + xs| - |xs|] == s;
    assert (s + xs)[|s + xs| - |xs|..] == xs;
    var none: seq<PopResult<T>> := [];
    assert none + AsPopped(Reverse(xs)) == AsPopped(Reverse(xs));
  }

  /** Pop on an empty stack fails and leaves it empty. */
  lemma PopEmpty<T>()
    ensures Run<T>([], [PopOp]) == ([], [ErrEmpty])
  {
    var ops: seq<Op<T>> := [PopOp];
    assert ops[..0] == [];
    assert Run<T>([], ops) == Step(([], []), PopOp);
    var none: seq<PopResult<T>> := [];
    assert none + [ErrEmpty] == [ErrEmpty];
  }
}
