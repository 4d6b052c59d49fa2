/**
 Layered policies (services/policy_resolver.py): a child dict laid over a parent, null meaning inherit.

 A value is null, a dict, or anything else, which a merge treats as one opaque scalar (lists included).
*/
module PolicyMerge {
  import opened Outcomes

  datatype Value = Null | Scalar(x: int) | Dict(m: map<string, Value>)

  type Policy = v: Value | v.Dict? witness Dict(map[])

  /** One key of the merge: what the child says, unless it is null; two dicts are merged. */
  function Over(p: Value, c: Value): Value
    decreases c, 1
  {
    if c.Null? then p else if c.Dict? && p.Dict? then Merge(p, c) else c
  }

  /** A key survives when the parent has it or the child gives it a value. */
  predicate Kept(p: Policy, c: Policy, k: string) { k in p.m || (k in c.m && !c.m[k].Null?) }

  function Merge(p: Policy, c: Policy): (r: Policy)
    decreases c, 0
  {
    Dict(map k | k in p.m.Keys + c.m.Keys && Kept(p, c, k) ::
      if k !in c.m then p.m[k] else if k !in p.m then c.m[k] else Over(p.m[k], c.m[k]))
  }

  /** Key by key: null inherits, two dicts are merged, anything else of the child's replaces. */
  lemma MergeExactly(p: Policy, c: Policy, k: string)
    ensures k in Merge(p, c).m <==> k in p.m || (k in c.m && c.m[k] != Null)
    ensures k in Merge(p, c).m ==>
              Merge(p, c).m[k] ==
              if k !in c.m || c.m[k] == Null then p.m[k]
              else if k in p.m && p.m[k].Dict? && c.m[k].Dict? then Merge(p.m[k], c.m[k])
              else c.m[k]
  {
  }

  /** deep_merge: a missing child leaves the parent as it is. */
  function DeepMerge(p: Policy, c: Option<Policy>): Policy { if c.None? then p else Merge(p, c.value) }

  /** One more item of the child, on a key not yet seen. */
  lemma MergeKey(p: Policy, d: Policy, key: string, value: Value)
    requires key !in d.m
    ensures key in Merge(p, d).m <==> key in p.m
    ensures key in p.m ==> Merge(p, d).m[key] == p.m[key]
    ensures Merge(p, Dict(d.m[key := value])) ==
            if value.Null? then Merge(p, d)
            else Dict(Merge(p, d).m[key := if key in p.m then Over(p.m[key], value) else value])
  {
    var e, r := Dict(d.m[key := value]), Merge(p, d);
    forall k ensures Kept(p, e, k) <==> Kept(p, d, k) || (k == key && !value.Null?) {}
  }

  lemma ItemsDone(m: map<string, Value>, left: set<string>, key: string)
    requires key in left && left <= m.Keys
    ensures (m - left)[key := m[key]] == m - (left - {key})
  {
  }

  lemma NothingMerged(p: Policy, m: map<string, Value>)
    ensures Merge(p, Dict(m - m.Keys)) == p
  {
    assert m - m.Keys == map[];
    assert Merge(p, Dict(map[])).m == p.m;
  }

  /** The loop over the child's items, in whatever order they come. */
  method MergeLoop(parent: Policy, child: Policy) returns (result: Policy)
    ensures result == Merge(parent, child)
    decreases child
  {
    result := parent;
    var left := child.m.Keys;
    NothingMerged(parent, child.m);
    while left != {}
      invariant left <= child.m.Keys
      invariant result == Merge(parent, Dict(child.m - left))
    {
      var key :| key in left;
      var value := child.m[key];
      MergeKey(parent, Dict(child.m - left), key, value);
      ItemsDone(child.m, left, key);
      if value.Null? {
      } else if value.Dict? && key in result.m && result.m[key].Dict? {
        var inner := MergeLoop(result.m[key], value);
        result := Dict(result.m[key := inner]);
      } else {
        result := Dict(result.m[key := value]);
      }
      left := left - {key};
    }
    assert child.m - {} == child.m;
  }

  // ---------------------------------------------------------------- key by key

  /** One key of a merge; None where the key is absent. */
  function OverKey(p: Option<Value>, c: Option<Value>): Option<Value> {
    if c.None? || c.value.Null? then p else if p.None? then c else Some(Over(p.value, c.value))
  }

  function At(p: Policy, k: string): Option<Value> { if k in p.m then Some(p.m[k]) else None }

  lemma MergeAt(p: Policy, c: Policy, k: string)
    ensures At(Merge(p, c), k) == OverKey(At(p, k), At(c, k))
  {
  }

  lemma SamePolicy(p: Policy, q: Policy)
    ensures p == q <==> forall k :: At(p, k) == At(q, k)
  {
    if forall k :: At(p, k) == At(q, k) {
      forall k ensures k in p.m <==> k in q.m { assert At(p, k) == At(q, k); }
      forall k | k in p.m ensures p.m[k] == q.m[k] { assert At(p, k) == At(q, k); }
      assert p.m == q.m;
    }
  }

  // ---------------------------------------------------------------- merging again

  /** A policy laid over itself changes nothing. */
  lemma {:induction false} MergeSelf(p: Policy)
    ensures Merge(p, p) == p
    decreases p
  {
    forall k | k in p.m ensures Over(p.m[k], p.m[k]) == p.m[k] {
      if p.m[k].Dict? { MergeSelf(p.m[k]); }
    }
    assert Merge(p, p).m == p.m;
  }

  lemma IdempotentKey(p: Option<Value>, c: Value)
    ensures OverKey(OverKey(p, Some(c)), Some(c)) == OverKey(p, Some(c))
    decreases c, 1
  {
    if c.Dict? {
      if p.Some? && p.value.Dict? { MergeIdempotent(p.value, c); } else { MergeSelf(c); }
    }
  }

  /** Laying the same child over twice is laying it over once. */
  lemma {:induction false} MergeIdempotent(p: Policy, c: Policy)
    ensures Merge(Merge(p, c), c) == Merge(p, c)
    decreases c, 0
  {
    var r := Merge(p, c);
    forall k ensures At(Merge(r, c), k) == At(r, k) {
      MergeAt(p, c, k);
      MergeAt(r, c, k);
      if k in c.m { IdempotentKey(At(p, k), c.m[k]); }
    }
    SamePolicy(Merge(r, c), r);
  }

  // ---------------------------------------------------------------- what a path means

  /** The scalar at the end of a path, if every step before it is a dict. */
  function Leaf(p: Policy, path: seq<string>): Option<int>
    decreases |path|
  {
    if path == [] || path[0] !in p.m then None
    else
      match p.m[path[0]]
      case Null => None
      case Scalar(x) => if |path| == 1 then Some(x) else None
      case Dict(_) => Leaf(p.m[path[0]], path[1..])
  }

  /** The layer says something on the way along the path that hides whatever is below it. */
  predicate Hides(p: Policy, path: seq<string>)
    decreases |path|
  {
    path != [] && path[0] in p.m &&
    match p.m[path[0]]
    case Null => false
    case Scalar(_) => true
    case Dict(_) => |path| == 1 || Hides(p.m[path[0]], path[1..])
  }

  /** Along every path: the child's scalar if it has one, nothing if it hides the path, else the parent's scalar. */
  lemma {:induction false} PathMeaning(p: Policy, c: Policy, path: seq<string>)
    ensures Leaf(Merge(p, c), path) ==
            if Leaf(c, path).Some? then Leaf(c, path) else if Hides(c, path) then None else Leaf(p, path)
    decreases |path|
  {
    if path != [] && path[0] in p.m && path[0] in c.m && p.m[path[0]].Dict? && c.m[path[0]].Dict? {
      PathMeaning(p.m[path[0]], c.m[path[0]], path[1..]);
    }
  }

  function Layered(base: Policy, layers: seq<Policy>): Policy {
    if layers == [] then base else Merge(Layered(base, layers[..|layers| - 1]), layers[|layers| - 1])
  }

  /** The scalar a path has under layers: that of the last layer that gives one, unless a later layer hides it. */
  function Effective(base: Policy, layers: seq<Policy>, path: seq<string>): Option<int> {
    if layers == [] then Leaf(base, path)
    else
      var last := layers[|layers| - 1];
      if Leaf(last, path).Some? then Leaf(last, path)
      else if Hides(last, path) then None
      else Effective(base, layers[..|layers| - 1], path)
  }

  lemma {:induction false} LastLayerWins(base: Policy, layers: seq<Policy>, path: seq<string>)
    ensures Leaf(Layered(base, layers), path) == Effective(base, layers, path)
  {
    if layers != [] {
      var n := |layers| - 1;
      LastLayerWins(base, layers[..n], path);
      PathMeaning(Layered(base, layers[..n]), layers[n], path);
    }
  }

  // ---------------------------------------------------------------- combining layers first

  /** Laying `c` over `a` gives `c`: every key of `a` gets a value from `c`, and nulls are null in both. */
  predicate Covered(a: Policy, c: Policy)
    decreases a, 0
  {
    && (forall k | k in c.m && c.m[k].Null? :: k in a.m)
    && (forall k | k in a.m :: k in c.m && CoveredKey(a.m[k], c.m[k]))
  }

  predicate CoveredKey(a: Value, c: Value)
    decreases a, 1
  {
    if c.Null? then a.Null? else a.Dict? && c.Dict? ==> Covered(a, c)
  }

  lemma CoveredKeyExactly(a: Value, c: Value)
    ensures Over(a, c) == c <==> CoveredKey(a, c)
    decreases c, 1
  {
    if a.Dict? && c.Dict? { CoveredExactly(a, c); }
  }

  lemma {:induction false} CoveredExactly(a: Policy, c: Policy)
    ensures Merge(a, c) == c <==> Covered(a, c)
    decreases c, 0
  {
    var r := Merge(a, c);
    forall k | k in a.m && k in c.m ensures r.m[k] == c.m[k] <==> CoveredKey(a.m[k], c.m[k]) {
      assert r.m[k] == Over(a.m[k], c.m[k]);
      CoveredKeyExactly(a.m[k], c.m[k]);
    }
    assert forall k | k in a.m :: k in r.m;
    assert forall k | k in c.m && c.m[k].Null? && k !in a.m :: k !in r.m;
    if Covered(a, c) {
      assert r.m == c.m;
    }
  }

  /** Wherever `a` and `c` both have dicts, `b` does not cut between them with a scalar that matters. */
  predicate NoCut(a: Policy, b: Policy, c: Policy)
    decreases a
  {
    forall k | k in a.m && k in b.m && k in c.m && a.m[k].Dict? && c.m[k].Dict? ::
      && (b.m[k].Scalar? ==> Covered(a.m[k], c.m[k]))
      && (b.m[k].Dict? ==> NoCut(a.m[k], b.m[k], c.m[k]))
  }

  /** The condition at one key. */
  predicate NoCutAt(a: Option<Value>, b: Option<Value>, c: Option<Value>) {
    a.Some? && b.Some? && c.Some? && a.value.Dict? && c.value.Dict? ==>
      (b.value.Scalar? ==> Covered(a.value, c.value)) && (b.value.Dict? ==> NoCut(a.value, b.value, c.value))
  }

  lemma NoCutIsEverywhere(a: Policy, b: Policy, c: Policy)
    ensures NoCut(a, b, c) <==> forall k :: NoCutAt(At(a, k), At(b, k), At(c, k))
  {
    if forall k :: NoCutAt(At(a, k), At(b, k), At(c, k)) {
      forall k | k in a.m && k in b.m && k in c.m && a.m[k].Dict? && c.m[k].Dict?
        ensures (b.m[k].Scalar? ==> Covered(a.m[k], c.m[k])) && (b.m[k].Dict? ==> NoCut(a.m[k], b.m[k], c.m[k]))
      {
        assert NoCutAt(At(a, k), At(b, k), At(c, k));
      }
    }
  }

  lemma AssociativeKey(a: Option<Value>, b: Option<Value>, c: Value)
    ensures OverKey(OverKey(a, b), Some(c)) == OverKey(a, OverKey(b, Some(c))) <==> NoCutAt(a, b, Some(c))
    decreases c, 1
  {
    if a.Some? && b.Some? && a.value.Dict? && c.Dict? {
      if b.value.Scalar? {
        CoveredExactly(a.value, c);
      } else if b.value.Dict? {
        AssociativeExactly(a.value, b.value, c);
      }
    }
  }

  /** Layers may be combined first exactly when no scalar in the middle cuts a dict above from a dict below. */
  lemma {:induction false} AssociativeExactly(a: Policy, b: Policy, c: Policy)
    ensures Merge(Merge(a, b), c) == Merge(a, Merge(b, c)) <==> NoCut(a, b, c)
    decreases c, 0
  {
    var l, r := Merge(Merge(a, b), c), Merge(a, Merge(b, c));
    forall k ensures At(l, k) == At(r, k) <==> NoCutAt(At(a, k), At(b, k), At(c, k)) {
      MergeAt(a, b, k);
      MergeAt(Merge(a, b), c, k);
      MergeAt(b, c, k);
      MergeAt(a, Merge(b, c), k);
      if k in c.m { AssociativeKey(At(a, k), At(b, k), c.m[k]); }
    }
    SamePolicy(l, r);
    NoCutIsEverywhere(a, b, c);
  }

  /** No path is a dict in one policy and a scalar in the other. */
  predicate Compatible(a: Policy, b: Policy)
    decreases a
  {
    forall k | k in a.m && k in b.m ::
      && !(a.m[k].Dict? && b.m[k].Scalar?) && !(a.m[k].Scalar? && b.m[k].Dict?)
      && (a.m[k].Dict? && b.m[k].Dict? ==> Compatible(a.m[k], b.m[k]))
  }

  lemma {:induction false} CompatibleHasNoCut(a: Policy, b: Policy, c: Policy)
    requires Compatible(a, b)
    ensures NoCut(a, b, c)
    decreases a
  {
    forall k | k in a.m && k in b.m && k in c.m && a.m[k].Dict? && b.m[k].Dict? && c.m[k].Dict?
      ensures NoCut(a.m[k], b.m[k], c.m[k])
    {
      CompatibleHasNoCut(a.m[k], b.m[k], c.m[k]);
    }
  }

  /** Layers of one shape may always be combined first. */
  lemma CompatibleLayersCombine(a: Policy, b: Policy, c: Policy)
    requires Compatible(a, b)
    ensures Merge(Merge(a, b), c) == Merge(a, Merge(b, c))
  {
    CompatibleHasNoCut(a, b, c);
    AssociativeExactly(a, b, c);
  }

  /** Otherwise not: a scalar in the department layer resets a section that the application layer reopens. */
  lemma ScalarCuts()
    ensures var a, b, c := Dict(map["s" := Dict(map["x" := Scalar(1)])]), Dict(map["s" := Scalar(0)]), Dict(map["s" := Dict(map["y" := Scalar(2)])]);
            Merge(Merge(a, b), c) != Merge(a, Merge(b, c))
  {
    var a, b, c := Dict(map["s" := Dict(map["x" := Scalar(1)])]), Dict(map["s" := Scalar(0)]), Dict(map["s" := Dict(map["y" := Scalar(2)])]);
    assert !Covered(a.m["s"], c.m["s"]) by { assert "x" in a.m["s"].m && "x" !in c.m["s"].m; }
    AssociativeExactly(a, b, c);
  }
}
