/** Sums of a count over the elements of a sequence. */
module Totals {
  ghost function Total<T(!new)>(s: seq<T>, f: T -> nat): nat
  {
    if s == [] then 0 else f(s[0]) + Total(s[1..], f)
  }

  lemma {:induction false} TotalConcat<T(!new)>(a: seq<T>, b: seq<T>, f: T -> nat)
    ensures Total(a + b, f) == Total(a, f) + Total(b, f)
  {
    if a == [] {
      assert a + b == b;
    } else {
      assert (a + b)[1..] == a[1..] + b;
      TotalConcat(a[1..], b, f);
    }
  }

  lemma TotalAppend<T(!new)>(a: seq<T>, x: T, f: T -> nat)
    ensures Total(a + [x], f) == Total(a, f) + f(x)
  {
    TotalConcat(a, [x], f);
    assert [x][1..] == [];
  }

  /** Replacing one container changes the total by exactly that container's difference. */
  lemma {:induction false} TotalUpdate<T(!new)>(s: seq<T>, i: nat, x: T, f: T -> nat)
    requires i < |s|
    ensures Total(s[i := x], f) + f(s[i]) == Total(s, f) + f(x)
    ensures f(s[i]) <= Total(s, f)
  {
    if i == 0 {
      assert s[0 := x][1..] == s[1..];
    } else {
      assert s[i := x][1..] == s[1..][i - 1 := x];
      TotalUpdate(s[1..], i - 1, x, f);
    }
  }

  lemma TotalRemove<T(!new)>(s: seq<T>, i: nat, f: T -> nat)
    requires i < |s|
    ensures Total(s[..i] + s[i + 1..], f) + f(s[i]) == Total(s, f)
  {
    AroundOne(s, i);
    TotalBetween(s[..i], s[i], s[i + 1..], f);
  }

  lemma AroundOne<T>(s: seq<T>, i: nat)
    requires i < |s|
    ensures s == s[..i] + ([s[i]] + s[i + 1..])
  {
  }

  lemma TotalBetween<T(!new)>(before: seq<T>, x: T, after: seq<T>, f: T -> nat)
    ensures Total(before + ([x] + after), f) == Total(before + after, f) + f(x)
  {
    TotalConcat(before, [x] + after, f);
    TotalConcat(before, after, f);
    TotalPrepend(x, after, f);
  }

  lemma TotalPrepend<T(!new)>(x: T, s: seq<T>, f: T -> nat)
    ensures Total([x] + s, f) == f(x) + Total(s, f)
  {
    assert ([x] + s)[1..] == s;
  }

  lemma {:induction false} TotalZero<T(!new)>(s: seq<T>, f: T -> nat)
    requires forall i :: 0 <= i < |s| ==> f(s[i]) == 0
    ensures Total(s, f) == 0
  {
    if s != [] { TotalZero(s[1..], f); }
  }

  /** Whatever is counted is held by some container. */
  lemma {:induction false} TotalHolder<T(!new)>(s: seq<T>, f: T -> nat) returns (i: nat)
    requires Total(s, f) > 0
    ensures i < |s| && f(s[i]) > 0
  {
    if f(s[0]) > 0 { return 0; }
    i := TotalHolder(s[1..], f);
    i := i + 1;
  }

  lemma {:induction false} TotalPointwise<T(!new)>(a: seq<T>, b: seq<T>, f: T -> nat)
    requires |a| == |b| && forall i :: 0 <= i < |a| ==> f(a[i]) == f(b[i])
    ensures Total(a, f) == Total(b, f)
  {
    if a != [] { TotalPointwise(a[1..], b[1..], f); }
  }
}
