/**
 * `ccm.context`: navigation along the `parent` references of instances.
 * Instances are named by their object number; `parent` maps an instance
 * to the instance its `parent` property refers to (instances without a
 * parent are not in its domain), and `props` holds the instances' own
 * properties.
 */
module Contexts {
  import opened JsValues

  /** The parent relation is acyclic: going to the parent lowers `rank`. */
  predicate Ranked(parent: map<nat, nat>, rank: map<nat, nat>)
  {
    forall x | x in parent :: x in rank && parent[x] in rank && rank[parent[x]] < rank[x]
  }

  /** The proper ancestors of `x`, nearest first. */
  ghost function Chain(parent: map<nat, nat>, rank: map<nat, nat>, x: nat): (chain: seq<nat>)
    requires Ranked(parent, rank)
    ensures x in parent <==> |chain| > 0
    ensures |chain| > 0 ==> chain[0] == parent[x]
    decreases if x in rank then rank[x] else 0
  {
    if x in parent then [parent[x]] + Chain(parent, rank, parent[x]) else []
  }

  /** The root of the context of `x`: its farthest ancestor, or `x` itself without a parent. */
  ghost function RootOf(parent: map<nat, nat>, rank: map<nat, nat>, x: nat): (root: nat)
    requires Ranked(parent, rank)
  {
    var chain := Chain(parent, rank, x);
    if |chain| == 0 then x else chain[|chain| - 1]
  }

  /** Every ancestor of an instance lies in the same context: it has the same root. */
  lemma {:induction false} RootShared(parent: map<nat, nat>, rank: map<nat, nat>, x: nat, k: nat)
    requires Ranked(parent, rank)
    requires k < |Chain(parent, rank, x)|
    ensures RootOf(parent, rank, Chain(parent, rank, x)[k]) == RootOf(parent, rank, x)
    decreases if x in rank then rank[x] else 0
  {
    if k > 0 {
      RootShared(parent, rank, parent[x], k - 1);
    }
  }

  /** The root has no parent, and it is its own root. */
  lemma {:induction false} RootHasNoParent(parent: map<nat, nat>, rank: map<nat, nat>, x: nat)
    requires Ranked(parent, rank)
    ensures RootOf(parent, rank, x) !in parent
    ensures RootOf(parent, rank, RootOf(parent, rank, x)) == RootOf(parent, rank, x)
    decreases if x in rank then rank[x] else 0
  {
    if x in parent {
      var chain := Chain(parent, rank, x);
      RootHasNoParent(parent, rank, parent[x]);
      assert chain == [parent[x]] + Chain(parent, rank, parent[x]);
    }
  }

  /** `context.root(instance)`: follows `parent` while there is one. */
  method Root(parent: map<nat, nat>, ghost rank: map<nat, nat>, start: nat) returns (root: nat)
    requires Ranked(parent, rank)
    ensures root == RootOf(parent, rank, start)
  {
    ghost var chain := Chain(parent, rank, start);
    ghost var k := 0;
    root := start;
    while root in parent
      invariant k <= |chain|
      invariant root == if k == 0 then start else chain[k - 1]
      invariant Chain(parent, rank, root) == chain[k..]
      decreases if root in rank then rank[root] else 0
    {
      root := parent[root];
      k := k + 1;
      assert chain[k - 1..] == [chain[k - 1]] + chain[k..];
    }
    assert k == |chain|;
  }

  /** `a[property]`, undefined for an object number without properties. */
  function PropOf(props: map<nat, Fields>, a: nat, property: string): Value
  {
    if a in props then Lookup(props[a], property) else Undef
  }

  /** Whether `find` stops at ancestor `a`: its `property` is set and is not the starting instance itself. */
  predicate Qualifies(props: map<nat, Fields>, a: nat, property: string, start: nat)
  {
    var v := PropOf(props, a, property);
    Truthy(v) && !((v.Inst? || v.Ref?) && v.oid == start)
  }

  /**
   * `context.find(instance, property)`: the `property` of the nearest
   * ancestor that has it set to something other than the starting
   * instance, and undefined when no ancestor has.
   */
  method Find(parent: map<nat, nat>, props: map<nat, Fields>, ghost rank: map<nat, nat>, start: nat, property: string)
    returns (found: Value)
    requires Ranked(parent, rank)
    ensures var chain := Chain(parent, rank, start);
      found.Undef? <==> forall k | 0 <= k < |chain| :: !Qualifies(props, chain[k], property, start)
    ensures var chain := Chain(parent, rank, start);
      !found.Undef? ==> exists k | 0 <= k < |chain| ::
        Qualifies(props, chain[k], property, start) && found == PropOf(props, chain[k], property) &&
        forall j | 0 <= j < k :: !Qualifies(props, chain[j], property, start)
  {
    ghost var chain := Chain(parent, rank, start);
    ghost var k := 0;
    var current := start;
    while current in parent
      invariant k <= |chain|
      invariant current == if k == 0 then start else chain[k - 1]
      invariant Chain(parent, rank, current) == chain[k..]
      invariant forall j | 0 <= j < k :: !Qualifies(props, chain[j], property, start)
      decreases if current in rank then rank[current] else 0
    {
      current := parent[current];
      k := k + 1;
      assert chain[k - 1..] == [chain[k - 1]] + chain[k..];
      if Qualifies(props, current, property, start) {
        found := PropOf(props, current, property);
        assert Qualifies(props, chain[k - 1], property, start) && found == PropOf(props, chain[k - 1], property);
        return;
      }
    }
    found := Undef;
  }
}
