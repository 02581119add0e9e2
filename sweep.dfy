// What a forEach loop that splices the visited element out of its own array does.
//
// Array.prototype.forEach (section 23.1.3.15 of ECMA-262) fixes the length when it starts and
// visits index k only if k is still below the current length. When the element at k is
// spliced out, the next element shifts into slot k, which has already been visited, so that
// element is skipped for this pass and keeps its old value.

module Splice {

  /** Reference definition of a visit-step-splice pass over xs: each visited element is
      replaced by step of it, and removed when drop holds of that stepped value; the element
      right after a removed one is not visited. */
  function Sweep<T>(xs: seq<T>, step: T -> T, drop: T -> bool): seq<T>
    decreases |xs|
  {
    if xs == [] then []
    else if !drop(step(xs[0])) then [step(xs[0])] + Sweep(xs[1..], step, drop)
    else if |xs| == 1 then []
    else [xs[1]] + Sweep(xs[2..], step, drop)
  }

  /** A pass never grows the list, and removes at most every other element. */
  lemma {:induction false} SweepLength<T>(xs: seq<T>, step: T -> T, drop: T -> bool)
    ensures |Sweep(xs, step, drop)| <= |xs|
    ensures 2 * |Sweep(xs, step, drop)| + 1 >= |xs|
    decreases |xs|
  {
    if xs == [] {
    } else if !drop(step(xs[0])) {
      SweepLength(xs[1..], step, drop);
    } else if |xs| > 1 {
      SweepLength(xs[2..], step, drop);
    }
  }

  /** When no visited element would be dropped, the pass is a plain map of step. */
  lemma {:induction false} SweepKeepsAll<T>(xs: seq<T>, step: T -> T, drop: T -> bool)
    requires forall i :: 0 <= i < |xs| ==> !drop(step(xs[i]))
    ensures |Sweep(xs, step, drop)| == |xs|
    ensures forall i :: 0 <= i < |xs| ==> Sweep(xs, step, drop)[i] == step(xs[i])
    decreases |xs|
  {
    if xs != [] {
      assert !drop(step(xs[0]));
      SweepKeepsAll(xs[1..], step, drop);
    }
  }

  /** When every element would be dropped, only the ones at odd positions survive, unchanged:
      each removal shields its successor. */
  lemma {:induction false} SweepAllDropped<T>(xs: seq<T>, step: T -> T, drop: T -> bool)
    requires forall i :: 0 <= i < |xs| ==> drop(step(xs[i]))
    ensures |Sweep(xs, step, drop)| == |xs| / 2
    ensures forall i :: 0 <= i < |xs| / 2 ==> Sweep(xs, step, drop)[i] == xs[2 * i + 1]
    decreases |xs|
  {
    if |xs| >= 2 {
      assert drop(step(xs[0]));
      SweepAllDropped(xs[2..], step, drop);
      var r := Sweep(xs, step, drop);
      assert r == [xs[1]] + Sweep(xs[2..], step, drop);
      forall i | 0 <= i < |xs| / 2
        ensures r[i] == xs[2 * i + 1]
      {
        if i > 0 {
          assert r[i] == Sweep(xs[2..], step, drop)[i - 1];
        }
      }
    } else if |xs| == 1 {
      assert drop(step(xs[0]));
    }
  }

  /** Every survivor is an element of the input left untouched, or the stepped value of an
      element of the input that was not dropped. */
  lemma {:induction false} SweepSurvivor<T>(xs: seq<T>, step: T -> T, drop: T -> bool, i: int)
    requires 0 <= i < |Sweep(xs, step, drop)|
    ensures exists j :: 0 <= j < |xs| &&
              (Sweep(xs, step, drop)[i] == xs[j] ||
               (Sweep(xs, step, drop)[i] == step(xs[j]) && !drop(step(xs[j]))))
    decreases |xs|
  {
    var r := Sweep(xs, step, drop);
    if !drop(step(xs[0])) {
      if i == 0 {
        assert r[0] == step(xs[0]);
      } else {
        SweepSurvivor(xs[1..], step, drop, i - 1);
        var j :| 0 <= j < |xs[1..]| &&
                 (r[i] == xs[1..][j] || (r[i] == step(xs[1..][j]) && !drop(step(xs[1..][j]))));
        assert xs[1..][j] == xs[j + 1];
      }
    } else if i == 0 {
      assert r[0] == xs[1];
    } else {
      SweepSurvivor(xs[2..], step, drop, i - 1);
      var j :| 0 <= j < |xs[2..]| &&
               (r[i] == xs[2..][j] || (r[i] == step(xs[2..][j]) && !drop(step(xs[2..][j]))));
      assert xs[2..][j] == xs[j + 2];
    }
  }

  /** A visited element that is not dropped is never lost: its stepped value survives, or, when
      the visit was skipped because its predecessor was removed, the element itself does. */
  lemma {:induction false} SweepKeepsUndropped<T>(xs: seq<T>, step: T -> T, drop: T -> bool, j: int)
    requires 0 <= j < |xs| && !drop(step(xs[j]))
    ensures step(xs[j]) in Sweep(xs, step, drop) || xs[j] in Sweep(xs, step, drop)
    decreases |xs|
  {
    var r := Sweep(xs, step, drop);
    if !drop(step(xs[0])) {
      if j == 0 {
        assert r[0] == step(xs[0]);
      } else {
        SweepKeepsUndropped(xs[1..], step, drop, j - 1);
        assert xs[1..][j - 1] == xs[j];
        assert r == [step(xs[0])] + Sweep(xs[1..], step, drop);
      }
    } else if j == 1 {
      assert r[0] == xs[1];
    } else {
      assert j >= 2;
      SweepKeepsUndropped(xs[2..], step, drop, j - 2);
      assert xs[2..][j - 2] == xs[j];
      assert r == [xs[1]] + Sweep(xs[2..], step, drop);
    }
  }

  /** A prefix none of whose elements is dropped is stepped whole, and the pass then goes on
      over the rest exactly as it would on its own. */
  lemma {:induction false} SweepKeptPrefix<T>(a: seq<T>, b: seq<T>, step: T -> T, drop: T -> bool)
    requires forall i :: 0 <= i < |a| ==> !drop(step(a[i]))
    ensures |Sweep(a + b, step, drop)| == |a| + |Sweep(b, step, drop)|
    decreases |a|
  {
    if a == [] {
      assert a + b == b;
    } else {
      assert (a + b)[0] == a[0];
      assert (a + b)[1..] == a[1..] + b;
      SweepKeptPrefix(a[1..], b, step, drop);
    }
  }

  lemma AppendAssoc<T>(a: seq<T>, b: seq<T>, c: seq<T>)
    ensures (a + b) + c == a + (b + c)
  {
    var l, r := (a + b) + c, a + (b + c);
    assert |l| == |r|;
    forall i | 0 <= i < |l| ensures l[i] == r[i] {
      if i < |a| {
      } else if i < |a| + |b| {
      } else {
      }
    }
  }

  /** One visit of the loop, seen from the reference: a visited element that stays becomes
      step of it ... */
  lemma SweepVisitKeep<T>(done: seq<T>, rest: seq<T>, step: T -> T, drop: T -> bool)
    requires rest != [] && !drop(step(rest[0]))
    ensures (done + [step(rest[0])]) + Sweep(rest[1..], step, drop) == done + Sweep(rest, step, drop)
  {
    assert Sweep(rest, step, drop) == [step(rest[0])] + Sweep(rest[1..], step, drop);
    AppendAssoc(done, [step(rest[0])], Sweep(rest[1..], step, drop));
  }

  /** ... and one that is removed takes the visit of its successor with it. */
  lemma SweepVisitDrop<T>(done: seq<T>, rest: seq<T>, step: T -> T, drop: T -> bool)
    requires rest != [] && drop(step(rest[0]))
    ensures |rest| >= 2 ==> (done + [rest[1]]) + Sweep(rest[2..], step, drop) == done + Sweep(rest, step, drop)
    ensures |rest| == 1 ==> done == done + Sweep(rest, step, drop)
  {
    if |rest| >= 2 {
      assert Sweep(rest, step, drop) == [rest[1]] + Sweep(rest[2..], step, drop);
      AppendAssoc(done, [rest[1]], Sweep(rest[2..], step, drop));
    } else {
      assert Sweep(rest, step, drop) == [];
      assert done + [] == done;
    }
  }

  /** The seam between done and rest, one element further on. */
  lemma SeamSplit<T>(done: seq<T>, rest: seq<T>)
    requires rest != []
    ensures done + rest == (done + [rest[0]]) + rest[1..]
  {
    assert rest == [rest[0]] + rest[1..];
  }

  /** Writing slot |done| of done + rest replaces the head of rest. */
  lemma WriteAtSeam<T>(done: seq<T>, rest: seq<T>, x: T)
    requires rest != []
    ensures (done + rest)[|done| := x] == (done + [x]) + rest[1..]
  {
    var a := (done + rest)[|done| := x];
    var b := (done + [x]) + rest[1..];
    assert |a| == |b|;
    forall i | 0 <= i < |a| ensures a[i] == b[i] {
      if i > |done| {
        assert a[i] == rest[i - |done|] == rest[1..][i - |done| - 1];
      }
    }
  }

  /** Splicing out slot |done| of (done + [x]) + rest[1..] leaves done + rest[1..], whose next
      slot holds rest[1]. */
  lemma SpliceAtSeam<T>(done: seq<T>, rest: seq<T>, x: T)
    requires rest != []
    ensures var w := (done + [x]) + rest[1..];
            w[..|done|] + w[|done| + 1..] == done + rest[1..]
    ensures |rest| >= 2 ==> done + rest[1..] == (done + [rest[1]]) + rest[2..]
  {
    var w := (done + [x]) + rest[1..];
    assert w[..|done|] == done;
    assert w[|done| + 1..] == rest[1..];
    if |rest| >= 2 {
      assert rest[1..] == [rest[1]] + rest[2..];
    }
  }

  /** The bookkeeping of one visit of the loop at slot |done| of the list done + rest: the
      visited prefix and the unvisited rest after the visit, with the list the loop leaves
      there (step of the element written back, or that element spliced out) and the
      reference result unchanged. */
  lemma Advance<T>(done: seq<T>, rest: seq<T>, step: T -> T, drop: T -> bool)
    returns (done': seq<T>, rest': seq<T>)
    requires rest != []
    ensures done' + Sweep(rest', step, drop) == done + Sweep(rest, step, drop)
    ensures |rest'| < |rest| && |done'| <= |done| + 1 && (rest' != [] ==> |done'| == |done| + 1)
    ensures !drop(step(rest[0])) ==> (done + rest)[|done| := step(rest[0])] == done' + rest'
    ensures !drop(step(rest[0])) && step(rest[0]) == rest[0] ==> done + rest == done' + rest'
    ensures drop(step(rest[0])) ==>
              var w := (done + rest)[|done| := step(rest[0])];
              w[..|done|] + w[|done| + 1..] == done' + rest' &&
              (done + rest)[..|done|] + (done + rest)[|done| + 1..] == done' + rest'
  {
    var x := step(rest[0]);
    WriteAtSeam(done, rest, x);
    if !drop(x) {
      SweepVisitKeep(done, rest, step, drop);
      done', rest' := done + [x], rest[1..];
      if x == rest[0] {
        SeamSplit(done, rest);
      }
    } else {
      SweepVisitDrop(done, rest, step, drop);
      SpliceAtSeam(done, rest, x);
      SeamSplit(done, rest);
      SpliceAtSeam(done, rest, rest[0]);
      if |rest| >= 2 {
        done', rest' := done + [rest[1]], rest[2..];
      } else {
        done', rest' := done, [];
      }
    }
  }
}
