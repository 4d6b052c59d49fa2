/** Choosing elements of a sequence: what a filter gives, whatever loop or recursion computes it. */
module Sequences {
  /** `r` is `s` at the ascending positions `at`, which are exactly those whose element is kept. */
  ghost predicate SelectsAt<T>(s: seq<T>, keep: T -> bool, r: seq<T>, at: seq<nat>) {
    && |at| == |r|
    && (forall k | 0 <= k < |at| :: at[k] < |s| && keep(s[at[k]]) && r[k] == s[at[k]])
    && (forall j, k | 0 <= j < k < |at| :: at[j] < at[k])
    && (forall i {:trigger i in at} | 0 <= i < |s| && keep(s[i]) :: i in at)
  }

  /** `r` is the elements of `s` that satisfy `keep`, in order. */
  ghost predicate Selects<T>(s: seq<T>, keep: T -> bool, r: seq<T>) { exists at :: SelectsAt(s, keep, r, at) }

  lemma SelectsNone<T>(keep: T -> bool)
    ensures Selects([], keep, [])
  {
    assert SelectsAt([], keep, [], []);
  }

  lemma SelectsNext<T>(s: seq<T>, keep: T -> bool, r: seq<T>, x: T)
    requires Selects(s, keep, r)
    ensures Selects(s + [x], keep, if keep(x) then r + [x] else r)
  {
    var at :| SelectsAt(s, keep, r, at);
    if keep(x) {
      TakeOne(s, keep, r, at, x);
    } else {
      SkipOne(s, keep, r, at, x);
    }
  }

  lemma TakeOne<T>(s: seq<T>, keep: T -> bool, r: seq<T>, at: seq<nat>, x: T)
    requires SelectsAt(s, keep, r, at) && keep(x)
    ensures SelectsAt(s + [x], keep, r + [x], at + [|s|])
  {
    var t, q, more: seq<nat> := s + [x], r + [x], at + [|s|];
    forall k | 0 <= k < |more| ensures more[k] < |t| && keep(t[more[k]]) && q[k] == t[more[k]] {
      if k < |at| { assert t[at[k]] == s[at[k]]; } else { assert t[|s|] == x; }
    }
    forall i | 0 <= i < |t| && keep(t[i]) ensures i in more {
      if i < |s| { assert t[i] == s[i] && i in at; } else { assert more[|at|] == i; }
    }
  }

  lemma SkipOne<T>(s: seq<T>, keep: T -> bool, r: seq<T>, at: seq<nat>, x: T)
    requires SelectsAt(s, keep, r, at) && !keep(x)
    ensures SelectsAt(s + [x], keep, r, at)
  {
    var t := s + [x];
    forall k | 0 <= k < |at| ensures at[k] < |t| && keep(t[at[k]]) && r[k] == t[at[k]] {
      assert t[at[k]] == s[at[k]];
    }
    forall i | 0 <= i < |t| && keep(t[i]) ensures i in at {
      if i < |s| { assert t[i] == s[i]; }
    }
  }

  /** The last element of a list, added to what was chosen before it. */
  lemma SelectsLast<T>(s: seq<T>, keep: T -> bool, r: seq<T>)
    requires s != [] && Selects(s[..|s| - 1], keep, r)
    ensures Selects(s, keep, if keep(s[|s| - 1]) then r + [s[|s| - 1]] else r)
  {
    assert s == s[..|s| - 1] + [s[|s| - 1]];
    SelectsNext(s[..|s| - 1], keep, r, s[|s| - 1]);
  }

  /** Only one list is chosen. */
  lemma {:induction false} SelectsOnce<T>(s: seq<T>, keep: T -> bool, r: seq<T>, q: seq<T>)
    requires Selects(s, keep, r) && Selects(s, keep, q)
    ensures r == q
  {
    var at :| SelectsAt(s, keep, r, at);
    var on :| SelectsAt(s, keep, q, on);
    assert forall i :: i in at <==> i in on;
    SameAscending(at, on);
  }

  lemma {:induction false} SameAscending(a: seq<nat>, b: seq<nat>)
    requires forall j, k | 0 <= j < k < |a| :: a[j] < a[k]
    requires forall j, k | 0 <= j < k < |b| :: b[j] < b[k]
    requires forall i :: i in a <==> i in b
    ensures a == b
  {
    assert a != [] ==> a[|a| - 1] in b;
    assert b != [] ==> b[|b| - 1] in a;
    if a != [] {
      var m, n := |a| - 1, |b| - 1;
      assert a[m] == b[n];
      assert forall i :: i in a[..m] <==> i in a && i != a[m];
      assert forall i :: i in b[..n] <==> i in b && i != b[n];
      SameAscending(a[..m], b[..n]);
      assert a == a[..m] + [a[m]] && b == b[..n] + [b[n]];
    }
  }
}
