/** Sums of a function over a finite set. */
module Sums {
  ghost function Sum<T(!new)>(S: set<T>, f: T -> nat): nat {
    if S == {} then 0
    else
      var x :| x in S;
      f(x) + Sum(S - {x}, f)
  }

  lemma {:induction false} SumPick<T(!new)>(S: set<T>, f: T -> nat, y: T)
    requires y in S
    ensures Sum(S, f) == f(y) + Sum(S - {y}, f)
    decreases |S|
  {
    var x :| x in S && Sum(S, f) == f(x) + Sum(S - {x}, f);
    if x != y {
      SumPick(S - {x}, f, y);
      SumPick(S - {y}, f, x);
      assert S - {x} - {y} == S - {y} - {x};
    }
  }

  lemma OneMoreTimes(n: nat, c: nat)
    ensures (n + 1) * c == n * c + c
  {
  }

  lemma {:induction false} SumGrows<T(!new)>(S: set<T>, f: T -> nat, g: T -> nat, c: nat)
    requires forall x :: x in S ==> g(x) <= f(x) + c
    ensures Sum(S, g) <= Sum(S, f) + |S| * c
    decreases |S|
  {
    if S != {} {
      var x :| x in S;
      SumPick(S, f, x);
      SumPick(S, g, x);
      SumGrows(S - {x}, f, g, c);
      OneMoreTimes(|S - {x}|, c);
    }
  }

  lemma {:induction false} SubsetCount<T>(a: set<T>, b: set<T>)
    requires a <= b
    ensures |a| <= |b|
  {
    if a != {} {
      var x :| x in a;
      SubsetCount(a - {x}, b - {x});
    }
  }

  // What is 0 adds nothing.
  lemma {:induction false} SumOver<T(!new)>(A: set<T>, S: set<T>, f: T -> nat)
    requires A <= S && forall x :: x in S && x !in A ==> f(x) == 0
    ensures Sum(A, f) == Sum(S, f)
    decreases |S|
  {
    if A == S {
    } else {
      var x :| x in S && x !in A;
      SumPick(S, f, x);
      SumOver(A, S - {x}, f);
    }
  }

  // Only in `A` does something grow.
  lemma {:induction false} SumGrowsOn<T(!new)>(S: set<T>, A: set<T>, f: T -> nat, g: T -> nat, c: nat)
    requires A <= S && forall x :: x in S ==> g(x) <= f(x) + if x in A then c else 0
    ensures Sum(S, g) <= Sum(S, f) + |A| * c
    decreases |S|
  {
    if S != {} {
      var x :| x in S;
      SumPick(S, f, x);
      SumPick(S, g, x);
      SumGrowsOn(S - {x}, A - {x}, f, g, c);
      if x in A {
        OneMoreTimes(|A - {x}|, c);
      } else {
        assert A - {x} == A;
      }
    }
  }
}
