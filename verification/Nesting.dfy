/** Positions inside a sequence of opening and closing steps. */
module Nesting {
  import opened Objects

  /** How much is open behind the first `n` steps: a step opens (1), closes (-1) or does neither (0). */
  function Depth(steps: seq<int>, n: nat): int
    requires n <= |steps|
  {
    if n == 0 then 0 else Depth(steps, n - 1) + steps[n - 1]
  }

  /** From `j` to `n` nothing that was open at `j` is closed. */
  ghost predicate Above(steps: seq<int>, j: nat, n: nat)
  {
    j <= n <= |steps| && forall m :: j <= m <= n ==> Depth(steps, j) <= Depth(steps, m)
  }

  /** Step `j` opens what is still open at `n`. */
  ghost predicate Open(steps: seq<int>, j: nat, n: nat)
  {
    j < n <= |steps| && steps[j] == 1 && Above(steps, j + 1, n)
  }

  /** The opening steps of everything open at `n`, outermost first. */
  ghost predicate Opens(steps: seq<int>, n: nat, at: seq<nat>)
  {
    && n <= |steps| && |at| == Depth(steps, n)
    && forall k :: 0 <= k < |at| ==> at[k] < n && Depth(steps, at[k]) == k && Open(steps, at[k], n)
  }

  lemma OpeningKeepsAbove(steps: seq<int>, j: nat, n: nat)
    requires j <= n < |steps| && steps[n] >= 0
    ensures Above(steps, j, n + 1) <==> Above(steps, j, n)
  {
    assert Depth(steps, n + 1) == Depth(steps, n) + steps[n];
  }

  /** Closing takes everything back to where the matching step opened. */
  lemma ClosingRestores(steps: seq<int>, p: nat, n: nat, j: nat)
    requires n < |steps| && Open(steps, p, n) && Depth(steps, p) + 1 == Depth(steps, n) && steps[n] == -1 && j <= n
    ensures j <= p ==> (Above(steps, j, n + 1) <==> Above(steps, j, p))
    ensures j > p ==> !Above(steps, j, n + 1)
  {
    assert Depth(steps, p + 1) == Depth(steps, p) + 1;
    assert Depth(steps, n + 1) == Depth(steps, p);
  }

  lemma OpenSteps(steps: seq<int>, n: nat, at: seq<nat>) returns (next: seq<nat>)
    requires n < |steps| && Opens(steps, n, at) && -1 <= steps[n] <= 1 && (steps[n] == -1 ==> at != [])
    ensures Opens(steps, n + 1, next)
    ensures next == Stepped(steps[n], at, n)
  {
    next := Stepped(steps[n], at, n);
    forall k | 0 <= k < |next| && next[k] < n ensures Open(steps, next[k], n + 1) {
      assert Open(steps, at[k], n);
      if steps[n] >= 0 {
        OpeningKeepsAbove(steps, at[k] + 1, n);
      } else {
        assert Depth(steps, at[k] + 1) <= Depth(steps, n + 1);
      }
    }
    assert steps[n] == 1 ==> Open(steps, n, n + 1);
  }

  /** One entry for each open step, in order. */
  ghost predicate Stacked<T(!new)>(at: seq<nat>, stack: seq<T>, ok: (nat, T) -> bool)
  {
    |at| == |stack| && forall k :: 0 <= k < |at| ==> ok(at[k], stack[k])
  }

  /** A stack after a step: one more on top, one less, or the same. */
  function Stepped<T>(step: int, stack: seq<T>, top: T): seq<T>
    requires step == -1 ==> stack != []
  {
    if step == 1 then stack + [top] else if step == -1 then stack[..|stack| - 1] else stack
  }

  lemma StackSteps<T(!new)>(step: int, n: nat, at: seq<nat>, stack: seq<T>, top: T, ok: (nat, T) -> bool)
    requires Stacked(at, stack, ok) && ok(n, top) && (step == -1 ==> at != [])
    ensures Stacked(Stepped(step, at, n), Stepped(step, stack, top), ok)
  {
  }

  // ------------------------------------------------------------ the latest mark

  /** The last marked step before `n` that lies in nothing closed since. */
  ghost predicate Latest(steps: seq<int>, marks: seq<bool>, n: nat, j: nat)
  {
    && |marks| == |steps| && j < n <= |steps| && marks[j] && Above(steps, j + 1, n)
    && forall i :: j < i < n && marks[i] ==> !Above(steps, i + 1, n)
  }

  ghost function Last(steps: seq<int>, marks: seq<bool>, n: nat): (r: Option<nat>)
    ensures r.Some? ==> Latest(steps, marks, n, r.value)
    ensures r.None? ==> forall j: nat :: !Latest(steps, marks, n, j)
  {
    if exists j: nat :: Latest(steps, marks, n, j) then
      var j: nat :| Latest(steps, marks, n, j);
      Some(j)
    else None
  }

  lemma LatestIsUnique(steps: seq<int>, marks: seq<bool>, n: nat, i: nat, j: nat)
    requires Latest(steps, marks, n, i) && Latest(steps, marks, n, j)
    ensures i == j
  {
  }

  lemma SameLast(steps: seq<int>, marks: seq<bool>, n: nat, m: nat)
    requires forall j: nat :: Latest(steps, marks, n, j) <==> Latest(steps, marks, m, j)
    ensures Last(steps, marks, n) == Last(steps, marks, m)
  {
    var i, j := Last(steps, marks, n), Last(steps, marks, m);
    if i.Some? && j.Some? { LatestIsUnique(steps, marks, n, i.value, j.value); }
  }

  /** Where nothing closes and nothing is marked, the latest mark stays. */
  lemma LastStays(steps: seq<int>, marks: seq<bool>, n: nat)
    requires n < |steps| == |marks| && steps[n] >= 0 && !marks[n]
    ensures Last(steps, marks, n + 1) == Last(steps, marks, n)
  {
    forall m: nat | m <= n ensures Above(steps, m, n + 1) <==> Above(steps, m, n) { OpeningKeepsAbove(steps, m, n); }
    SameLast(steps, marks, n + 1, n);
  }

  lemma LastIsHere(steps: seq<int>, marks: seq<bool>, n: nat)
    requires n < |steps| == |marks| && marks[n]
    ensures Last(steps, marks, n + 1) == Some(n)
  {
    assert Latest(steps, marks, n + 1, n);
    LatestIsUnique(steps, marks, n + 1, n, Last(steps, marks, n + 1).value);
  }

  lemma LatestReturns(steps: seq<int>, marks: seq<bool>, p: nat, n: nat, j: nat)
    requires n < |steps| == |marks| && !marks[n]
    requires Open(steps, p, n) && Depth(steps, p) + 1 == Depth(steps, n) && steps[n] == -1
    ensures Latest(steps, marks, n + 1, j) <==> Latest(steps, marks, p, j)
  {
    if j < n { ClosingRestores(steps, p, n, j + 1); }
    forall i | j < i < n && marks[i] ensures Above(steps, i + 1, n + 1) <==> i < p && Above(steps, i + 1, p) {
      ClosingRestores(steps, p, n, i + 1);
    }
  }

  /** Closing brings back the mark that was latest at the matching step. */
  lemma LastReturns(steps: seq<int>, marks: seq<bool>, p: nat, n: nat)
    requires n < |steps| == |marks| && !marks[n]
    requires Open(steps, p, n) && Depth(steps, p) + 1 == Depth(steps, n) && steps[n] == -1
    ensures Last(steps, marks, n + 1) == Last(steps, marks, p)
  {
    forall j: nat ensures Latest(steps, marks, n + 1, j) <==> Latest(steps, marks, p, j) {
      LatestReturns(steps, marks, p, n, j);
    }
    SameLast(steps, marks, n + 1, p);
  }
}
