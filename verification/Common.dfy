/** Shared vocabulary: optional values, fail-closed outcomes and ordered name lists. */
module Common {

  datatype Option<+T> = None | Some(value: T) {
    predicate IsFailure() { None? }
    function PropagateFailure<U>(): Option<U> requires None? { None }
    function Extract(): T requires Some? { value }
  }

  /** The result of a fail-closed step: every raised `AgentLoopError` is `Refused`. */
  datatype Outcome<+T> = Accepted(value: T) | Refused {
    predicate IsFailure() { Refused? }
    function PropagateFailure<U>(): Outcome<U> requires Refused? { Refused }
    function Extract(): T requires Accepted? { value }
  }

  function Elems<T>(xs: seq<T>): set<T> {
    set x | x in xs
  }

  predicate NoDup<T(==)>(xs: seq<T>) {
    forall i, j :: 0 <= i < j < |xs| ==> xs[i] != xs[j]
  }

  /** The members of `xs` that lie in `keep`, in the order of `xs`. */
  function Keep<T(==,!new)>(xs: seq<T>, keep: set<T>): (r: seq<T>)
    ensures |r| <= |xs|
    ensures forall x :: x in r <==> x in xs && x in keep
  {
    if xs == [] then []
    else
      var front := Keep(xs[..|xs| - 1], keep);
      var last := xs[|xs| - 1];
      assert xs == xs[..|xs| - 1] + [last];
      if last in keep then front + [last] else front
  }

  /** The members of `xs` outside `drop`, in the order of `xs`. */
  function Drop<T(==,!new)>(xs: seq<T>, drop: set<T>): (r: seq<T>)
    ensures forall x :: x in r <==> x in xs && x !in drop
  {
    Keep(xs, Elems(xs) - drop)
  }

  lemma {:induction false} KeepNoDup<T(!new)>(xs: seq<T>, keep: set<T>)
    requires NoDup(xs)
    ensures NoDup(Keep(xs, keep))
  {
    if xs != [] {
      KeepNoDup(xs[..|xs| - 1], keep);
    }
  }

  /** Filtering depends only on which members of the list are kept. */
  lemma {:induction false} KeepAgree<T(!new)>(xs: seq<T>, a: set<T>, b: set<T>)
    requires forall x :: x in xs ==> (x in a <==> x in b)
    ensures Keep(xs, a) == Keep(xs, b)
  {
    if xs != [] {
      assert xs[|xs| - 1] in xs;
      KeepAgree(xs[..|xs| - 1], a, b);
    }
  }

  lemma {:induction false} KeepTwice<T(!new)>(xs: seq<T>, a: set<T>, b: set<T>)
    ensures Keep(Keep(xs, a), b) == Keep(xs, a * b)
  {
    if xs != [] {
      var front, last := xs[..|xs| - 1], xs[|xs| - 1];
      KeepTwice(front, a, b);
      if last in a {
        assert (Keep(front, a) + [last])[..|Keep(front, a)|] == Keep(front, a);
      }
    }
  }

  lemma {:induction false} KeepAll<T(!new)>(xs: seq<T>, keep: set<T>)
    requires forall x :: x in xs ==> x in keep
    ensures Keep(xs, keep) == xs
  {
    if xs != [] {
      assert xs[|xs| - 1] in xs;
      KeepAll(xs[..|xs| - 1], keep);
    }
  }

  lemma {:induction false} KeepConcat<T(!new)>(xs: seq<T>, ys: seq<T>, keep: set<T>)
    ensures Keep(xs + ys, keep) == Keep(xs, keep) + Keep(ys, keep)
  {
    if ys == [] {
      assert xs + ys == xs;
    } else {
      var front, last := ys[..|ys| - 1], ys[|ys| - 1];
      assert (xs + ys)[..|xs + ys| - 1] == xs + front;
      KeepConcat(xs, front, keep);
    }
  }

  /** First occurrences, in order. */
  function Dedup<T(==,!new)>(names: seq<T>): (r: seq<T>)
    ensures Elems(r) == Elems(names) && NoDup(r)
  {
    if names == [] then []
    else
      var front, last := Dedup(names[..|names| - 1]), names[|names| - 1];
      assert Elems(names) == Elems(names[..|names| - 1]) + {last} by {
        assert names == names[..|names| - 1] + [last];
      }
      assert last in front <==> last in Elems(front);
      assert Elems(front + [last]) == Elems(front) + {last};
      if last in front then front else front + [last]
  }

  lemma {:induction false} DropLast<T(!new)>(xs: seq<T>, x: T, drop: set<T>)
    ensures Drop(xs + [x], drop) == if x in drop then Drop(xs, drop) else Drop(xs, drop) + [x]
  {
    assert (xs + [x])[..|xs|] == xs;
    assert x in xs + [x];
    KeepAgree(xs, Elems(xs + [x]) - drop, Elems(xs) - drop);
  }

  lemma {:induction false} DropConcat<T(!new)>(xs: seq<T>, ys: seq<T>, drop: set<T>)
    ensures Drop(xs + ys, drop) == Drop(xs, drop) + Drop(ys, drop)
  {
    hide Drop;
    if ys == [] {
      assert xs + ys == xs;
      assert Drop(ys, drop) == [] by { DropEmpty(ys, drop); }
    } else {
      var front, last := ys[..|ys| - 1], ys[|ys| - 1];
      DropConcat(xs, front, drop);
      DropLast(front, last, drop);
      DropLast(xs + front, last, drop);
      assert xs + ys == (xs + front) + [last] && ys == front + [last];
    }
  }

  lemma DropEmpty<T(!new)>(xs: seq<T>, drop: set<T>)
    requires xs == []
    ensures Drop(xs, drop) == []
  {
  }

  lemma {:induction false} DropTwice<T(!new)>(xs: seq<T>, a: set<T>, b: set<T>)
    ensures Drop(Drop(xs, a), b) == Drop(xs, a + b)
  {
    hide Drop;
    if xs == [] {
      DropEmpty(xs, a);
      DropEmpty(xs, b);
      DropEmpty(xs, a + b);
    } else {
      var front, last := xs[..|xs| - 1], xs[|xs| - 1];
      assert xs == front + [last];
      DropTwice(front, a, b);
      DropLast(front, last, a);
      DropLast(front, last, a + b);
      DropLast(Drop(front, a), last, b);
    }
  }

  lemma {:induction false} DropNone<T(!new)>(xs: seq<T>, drop: set<T>)
    requires forall x :: x in xs ==> x !in drop
    ensures Drop(xs, drop) == xs
  {
    KeepAll(xs, Elems(xs) - drop);
  }

  lemma DedupLast<T(!new)>(xs: seq<T>, x: T)
    ensures Dedup(xs + [x]) == if x in xs then Dedup(xs) else Dedup(xs) + [x]
  {
    assert (xs + [x])[..|xs|] == xs;
    assert x in xs <==> x in Elems(Dedup(xs));
  }

  /** Dropping commutes with removing repeats. */
  lemma {:induction false} DropDedup<T(!new)>(xs: seq<T>, drop: set<T>)
    ensures Drop(Dedup(xs), drop) == Dedup(Drop(xs, drop))
  {
    hide Drop, Dedup;
    if xs == [] {
      DedupEmpty(xs);
      DropEmpty(xs, drop);
    } else {
      var front, last := xs[..|xs| - 1], xs[|xs| - 1];
      assert xs == front + [last];
      DropDedup(front, drop);
      DedupLast(front, last);
      DropLast(front, last, drop);
      DropLast(Dedup(front), last, drop);
      DedupLast(Drop(front, drop), last);
    }
  }

  lemma DedupEmpty<T(!new)>(xs: seq<T>)
    requires xs == []
    ensures Dedup(xs) == []
  {
  }
}
