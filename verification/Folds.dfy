/** Counting and summing over table rows and thread lists: the two folds every invariant is stated with. */
module Folds {

  /** How many elements of `s` satisfy `p`. */
  function Count<T>(s: seq<T>, p: T -> bool): nat {
    if s == [] then 0
    else Count(s[..|s| - 1], p) + if p(s[|s| - 1]) then 1 else 0
  }

  /** The sum of `f` over the elements of `s`. */
  function Sum<T>(s: seq<T>, f: T -> real): real {
    if s == [] then 0.0
    else Sum(s[..|s| - 1], f) + f(s[|s| - 1])
  }

  /** The naturals' counterpart of `Sum`, used for termination measures. */
  function Total<T>(s: seq<T>, f: T -> nat): nat {
    if s == [] then 0
    else Total(s[..|s| - 1], f) + f(s[|s| - 1])
  }

  lemma CountSnoc<T>(s: seq<T>, x: T, p: T -> bool)
    ensures Count(s + [x], p) == Count(s, p) + if p(x) then 1 else 0
  {
    assert (s + [x])[..|s|] == s;
  }

  lemma SumSnoc<T>(s: seq<T>, x: T, f: T -> real)
    ensures Sum(s + [x], f) == Sum(s, f) + f(x)
  {
    assert (s + [x])[..|s|] == s;
  }

  lemma {:induction false} CountConcat<T>(s: seq<T>, t: seq<T>, p: T -> bool)
    ensures Count(s + t, p) == Count(s, p) + Count(t, p)
  {
    if t == [] {
      assert s + t == s;
    } else {
      var n := |t| - 1;
      CountConcat(s, t[..n], p);
      assert s + t == (s + t[..n]) + [t[n]];
      CountSnoc(s + t[..n], t[n], p);
    }
  }

  /** Two lists and two tests that agree everywhere but at `k` differ by what they say at `k`. */
  lemma {:induction false} CountShift<T>(s: seq<T>, t: seq<T>, k: nat, p: T -> bool, q: T -> bool)
    requires |s| == |t| && k < |s|
    requires forall i :: 0 <= i < |s| && i != k ==> p(s[i]) == q(t[i])
    ensures Count(t, q) + (if p(s[k]) then 1 else 0) == Count(s, p) + if q(t[k]) then 1 else 0
  {
    var n := |s| - 1;
    if k == n {
      CountSame(s[..n], t[..n], p, q);
    } else {
      CountShift(s[..n], t[..n], k, p, q);
    }
  }

  /** Replacing one element changes the count by the difference the two elements make. */
  lemma CountUpdate<T>(s: seq<T>, i: nat, x: T, p: T -> bool)
    requires i < |s|
    ensures Count(s[i := x], p) + (if p(s[i]) then 1 else 0) == Count(s, p) + if p(x) then 1 else 0
  {
    CountShift(s, s[i := x], i, p, p);
  }

  lemma {:induction false} TotalUpdate<T>(s: seq<T>, i: nat, x: T, f: T -> nat)
    requires i < |s|
    ensures Total(s[i := x], f) + f(s[i]) == Total(s, f) + f(x)
  {
    var n := |s| - 1;
    if i == n {
      assert s[i := x][..n] == s[..n];
    } else {
      assert s[i := x][..n] == s[..n][i := x];
      TotalUpdate(s[..n], i, x, f);
    }
  }

  /** Two equally long lists that agree row by row have the same count. */
  lemma {:induction false} CountSame<T>(s: seq<T>, t: seq<T>, p: T -> bool, q: T -> bool)
    requires |s| == |t|
    requires forall i :: 0 <= i < |s| ==> p(s[i]) == q(t[i])
    ensures Count(s, p) == Count(t, q)
  {
    if s != [] {
      var n := |s| - 1;
      CountSame(s[..n], t[..n], p, q);
    }
  }

  /** If every row that counts in `s` counts in `t`, then `s` counts no more than `t`. */
  lemma {:induction false} CountMono<T>(s: seq<T>, t: seq<T>, p: T -> bool, q: T -> bool)
    requires |s| == |t|
    requires forall i :: 0 <= i < |s| ==> p(s[i]) ==> q(t[i])
    ensures Count(s, p) <= Count(t, q)
  {
    if s != [] {
      var n := |s| - 1;
      CountMono(s[..n], t[..n], p, q);
    }
  }

  /** Rows that count one way count in one of two other ways. */
  lemma {:induction false} CountCovered<T>(s: seq<T>, p: T -> bool, q: T -> bool, r: T -> bool)
    requires forall i :: 0 <= i < |s| && p(s[i]) ==> q(s[i]) || r(s[i])
    ensures Count(s, p) <= Count(s, q) + Count(s, r)
  {
    if s != [] {
      CountCovered(s[..|s| - 1], p, q, r);
    }
  }

  lemma {:induction false} CountZero<T>(s: seq<T>, p: T -> bool)
    ensures Count(s, p) == 0 <==> forall i :: 0 <= i < |s| ==> !p(s[i])
  {
    if s != [] {
      var n := |s| - 1;
      CountZero(s[..n], p);
      assert forall i :: 0 <= i < n ==> s[i] == s[..n][i];
    }
  }

  /** A property that holds of exactly one row is counted once. */
  lemma {:induction false} CountOne<T>(s: seq<T>, k: nat, p: T -> bool)
    requires k < |s| && p(s[k])
    requires forall i :: 0 <= i < |s| && i != k ==> !p(s[i])
    ensures Count(s, p) == 1
  {
    var n := |s| - 1;
    if k == n {
      CountZero(s[..n], p);
    } else {
      CountOne(s[..n], k, p);
    }
  }

  lemma {:induction false} SumSame<T>(s: seq<T>, t: seq<T>, f: T -> real, g: T -> real)
    requires |s| == |t|
    requires forall i :: 0 <= i < |s| ==> f(s[i]) == g(t[i])
    ensures Sum(s, f) == Sum(t, g)
  {
    if s != [] {
      var n := |s| - 1;
      SumSame(s[..n], t[..n], f, g);
    }
  }

  lemma {:induction false} SumOfZeros<T>(s: seq<T>, f: T -> real)
    requires forall i :: 0 <= i < |s| ==> f(s[i]) == 0.0
    ensures Sum(s, f) == 0.0
  {
    if s != [] {
      SumOfZeros(s[..|s| - 1], f);
    }
  }

  /** If one row's term grows by `d` and all others stay, the sum grows by `d`. */
  lemma {:induction false} SumShift<T>(s: seq<T>, k: nat, f: T -> real, g: T -> real, d: real)
    requires k < |s| && g(s[k]) == f(s[k]) + d
    requires forall i :: 0 <= i < |s| && i != k ==> g(s[i]) == f(s[i])
    ensures Sum(s, g) == Sum(s, f) + d
  {
    var n := |s| - 1;
    if k == n {
      SumSame(s[..n], s[..n], f, g);
    } else {
      SumShift(s[..n], k, f, g, d);
    }
  }
}
