/** Weighted sums over a sequence, and what one update does to them. The
    state machines of the project count threads and add up amounts with it. */
module Counting {

  ghost function Sum<T>(s: seq<T>, f: T -> int): int {
    if s == [] then 0 else f(s[0]) + Sum(s[1..], f)
  }

  /** Replacing one element changes the sum by the difference of the weights. */
  lemma {:induction false} SumUpdate<T>(s: seq<T>, i: nat, x: T, f: T -> int)
    requires i < |s|
    ensures Sum(s[i := x], f) == Sum(s, f) - f(s[i]) + f(x)
  {
    if i == 0 {
      assert s[0 := x][1..] == s[1..];
    } else {
      assert s[i := x][1..] == s[1..][i - 1 := x];
      SumUpdate(s[1..], i - 1, x, f);
    }
  }

  lemma {:induction false} SumAppend<T>(s: seq<T>, x: T, f: T -> int)
    ensures Sum(s + [x], f) == Sum(s, f) + f(x)
  {
    if s == [] {
      assert s + [x] == [x];
    } else {
      assert (s + [x])[1..] == s[1..] + [x];
      SumAppend(s[1..], x, f);
    }
  }

  lemma {:induction false} SumNonNegative<T>(s: seq<T>, f: T -> int)
    requires forall i :: 0 <= i < |s| ==> f(s[i]) >= 0
    ensures Sum(s, f) >= 0
  {
    if s != [] {
      SumNonNegative(s[1..], f);
    }
  }

  /** An element's weight is at most the sum. */
  lemma {:induction false} SumAtLeastOne<T>(s: seq<T>, i: nat, f: T -> int)
    requires i < |s|
    requires forall k :: 0 <= k < |s| ==> f(s[k]) >= 0
    ensures Sum(s, f) >= f(s[i])
  {
    if i == 0 {
      SumNonNegative(s[1..], f);
    } else {
      SumAtLeastOne(s[1..], i - 1, f);
    }
  }

  /** Two elements together weigh at most the sum. */
  lemma {:induction false} SumAtLeastTwo<T>(s: seq<T>, i: nat, j: nat, f: T -> int)
    requires i < j < |s|
    requires forall k :: 0 <= k < |s| ==> f(s[k]) >= 0
    ensures Sum(s, f) >= f(s[i]) + f(s[j])
  {
    if i == 0 {
      SumAtLeastOne(s[1..], j - 1, f);
    } else {
      SumAtLeastTwo(s[1..], i - 1, j - 1, f);
    }
  }

  /** A positive sum has a positive element. */
  lemma {:induction false} SumWitness<T>(s: seq<T>, f: T -> int) returns (i: nat)
    requires Sum(s, f) > 0
    ensures i < |s| && f(s[i]) > 0
  {
    if f(s[0]) > 0 {
      i := 0;
    } else {
      var j := SumWitness(s[1..], f);
      i := j + 1;
    }
  }

  lemma {:induction false} SumZero<T>(s: seq<T>, f: T -> int)
    requires forall i :: 0 <= i < |s| ==> f(s[i]) == 0
    ensures Sum(s, f) == 0
  {
    if s != [] {
      SumZero(s[1..], f);
    }
  }

  lemma {:induction false} SumSame<T>(s: seq<T>, f: T -> int, g: T -> int)
    requires forall x :: x in s ==> f(x) == g(x)
    ensures Sum(s, f) == Sum(s, g)
  {
    if s != [] {
      assert s[0] in s && forall x :: x in s[1..] ==> x in s;
      SumSame(s[1..], f, g);
    }
  }
}
