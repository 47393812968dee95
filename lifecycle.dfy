/**
 * The end of `ccm.instance` (`initialize`): the created instance tree is
 * searched for the instances and datastores it holds (`find`), every one
 * of them gets its `init` hook called in the order found, then every one
 * its `ready` hook in the reverse order. A hook is deleted before or when
 * it is called, so it runs at most once per object.
 */
module Lifecycle {
  import opened JsValues
  import opened Helpers

  /*------------------------------------------ find ------------------------------------------*/

  /**
   * The values `find` goes on with (`inner`): instances other than the
   * parent and other than lazy-instance placeholders, and arrays and
   * objects that are neither DOM nodes, components nor instances.
   */
  predicate Descends(key: string, value: Value)
  {
    (IsInstance(value) && key != "parent" && !IsProxy(value)) ||
    ((value.Arr? || IsObject(value)) && !IsNode(value) && !IsComponent(value) && !IsInstance(value))
  }

  /** The values of a property list. */
  function Values(fs: Fields): (vs: seq<Value>)
    ensures |vs| == |fs| && forall i | 0 <= i < |fs| :: vs[i] == fs[i].1
  {
    seq(|fs|, i requires 0 <= i < |fs| => fs[i].1)
  }

  /** `inner`: the property values `find` goes on with, in enumeration order. */
  function Inner(fs: Fields): (inner: seq<Value>)
    ensures forall x | x in inner :: x in Values(fs)
    ensures forall i | 0 <= i < |fs| && Descends(fs[i].0, fs[i].1) :: fs[i].1 in inner
    ensures forall x | x in inner :: !IsNode(x) && !IsProxy(x)
    decreases |fs|
  {
    if |fs| == 0 then []
    else
      var rest := Inner(fs[1..]);
      assert forall i | 1 <= i < |fs| :: fs[i] == fs[1..][i - 1];
      assert forall x | x in Values(fs[1..]) :: x in Values(fs) by {
        forall x | x in Values(fs[1..]) ensures x in Values(fs) {
          var k :| 0 <= k < |fs[1..]| && Values(fs[1..])[k] == x;
          assert Values(fs)[k + 1] == x;
        }
      }
      if Descends(fs[0].0, fs[0].1) then
        assert Values(fs)[0] == fs[0].1;
        [fs[0].1] + rest
      else rest
  }

  /** The enumerated properties of a value are smaller than the value. */
  lemma EnumSmaller(v: Value)
    ensures forall x | x in Values(EnumProps(v)) :: x < v
  {
    var fs := EnumProps(v);
    forall x | x in Values(fs) ensures x < v {
      var k :| 0 <= k < |fs| && Values(fs)[k] == x;
      match v
      case Arr(items) =>
        assert x == items[k];
      case Obj(ofs) =>
        assert ofs[k] in ofs;
      case Inst(_, ifs) =>
        assert ifs[k] in ifs;
      case _ =>
    }
  }

  /** Each enumerated property value is structurally smaller than the value enumerated. */
  lemma EnumSmallerAt(v: Value, k: nat)
    requires k < |EnumProps(v)|
    ensures EnumProps(v)[k].1 < v
  {
    match v
    case Arr(items) =>
      assert EnumProps(v)[k].1 == items[k];
    case Obj(ofs) =>
      assert ofs[k] in ofs;
    case Inst(_, ifs) =>
      assert ifs[k] in ifs;
    case _ =>
  }

  /** What `find` reports among `inner`: the instances and the datastores. */
  function Reported(inner: seq<Value>): (found: seq<Value>)
    ensures forall x | x in found :: x in inner && (IsInstance(x) || IsDatastore(x))
    ensures forall x | x in inner && (IsInstance(x) || IsDatastore(x)) :: x in found
  {
    if |inner| == 0 then []
    else
      var rest := Reported(inner[1..]);
      if IsInstance(inner[0]) || IsDatastore(inner[0]) then [inner[0]] + rest else rest
  }

  /**
   * `find(obj)`: the instances and datastores directly inside `obj`, in
   * enumeration order, followed by what each inner value holds in turn.
   * Lazy-instance placeholders and components are never reported.
   */
  function Discover(v: Value): (found: seq<Value>)
    ensures forall x | x in found :: (IsInstance(x) || IsDatastore(x)) && !IsProxy(x)
    decreases v, 1
  {
    var inner := Inner(EnumProps(v));
    EnumSmaller(v);
    Reported(inner) + DiscoverAll(v, inner)
  }

  function DiscoverAll(ghost parent: Value, inner: seq<Value>): (found: seq<Value>)
    requires forall x | x in inner :: x < parent
    ensures forall x | x in found :: (IsInstance(x) || IsDatastore(x)) && !IsProxy(x)
    decreases parent, 0, |inner|
  {
    if |inner| == 0 then []
    else
      assert inner[0] in inner;
      assert forall x | x in inner[1..] :: x in inner;
      Discover(inner[0]) + DiscoverAll(parent, inner[1..])
  }

  /** `inner` lists the values of `fs` at the increasing positions `picked`. */
  predicate PicksValues(fs: Fields, picked: seq<nat>, inner: seq<Value>)
  {
    |picked| == |inner| &&
    (forall t | 0 <= t < |picked| :: picked[t] < |fs| && inner[t] == fs[picked[t]].1) &&
    (forall s, t | 0 <= s < t < |picked| :: picked[s] < picked[t])
  }

  /** Exactly the positions of `fs` whose properties `find` goes on with. */
  predicate PicksQualifying(fs: Fields, picked: seq<nat>)
  {
    (forall t | 0 <= t < |picked| :: picked[t] < |fs| && Descends(fs[picked[t]].0, fs[picked[t]].1)) &&
    (forall i | 0 <= i < |fs| && Descends(fs[i].0, fs[i].1) :: i in picked)
  }

  /**
   * `inner` is exactly the qualifying property values in enumeration order:
   * it picks them at increasing positions and misses none.
   */
  lemma {:induction false} InnerPicks(fs: Fields) returns (picked: seq<nat>)
    ensures PicksValues(fs, picked, Inner(fs)) && PicksQualifying(fs, picked)
    decreases |fs|
  {
    if |fs| == 0 {
      return [];
    }
    var rest := InnerPicks(fs[1..]);
    var shifted := seq(|rest|, t requires 0 <= t < |rest| => rest[t] + 1);
    ShiftValues(fs, rest, Inner(fs[1..]), shifted);
    ShiftQualifying(fs, rest, shifted);
    if Descends(fs[0].0, fs[0].1) {
      picked := [0] + shifted;
      assert Inner(fs) == [fs[0].1] + Inner(fs[1..]);
      ConsValues(fs, shifted, Inner(fs[1..]));
      ConsQualifying(fs, shifted);
    } else {
      picked := shifted;
      assert Inner(fs) == Inner(fs[1..]);
      assert PicksQualifying(fs, picked) by {
        forall i | 0 <= i < |fs| && Descends(fs[i].0, fs[i].1) ensures i in picked {
          assert i != 0;
        }
      }
    }
  }

  lemma ShiftValues(fs: Fields, rest: seq<nat>, inner: seq<Value>, shifted: seq<nat>)
    requires |fs| > 0 && PicksValues(fs[1..], rest, inner)
    requires shifted == seq(|rest|, t requires 0 <= t < |rest| => rest[t] + 1)
    ensures PicksValues(fs, shifted, inner)
  {
    forall t | 0 <= t < |rest| ensures fs[shifted[t]] == fs[1..][rest[t]] {
    }
  }

  lemma ShiftQualifying(fs: Fields, rest: seq<nat>, shifted: seq<nat>)
    requires |fs| > 0 && PicksQualifying(fs[1..], rest)
    requires shifted == seq(|rest|, t requires 0 <= t < |rest| => rest[t] + 1)
    ensures forall t | 0 <= t < |shifted| :: 0 < shifted[t] < |fs| && Descends(fs[shifted[t]].0, fs[shifted[t]].1)
    ensures forall i | 1 <= i < |fs| && Descends(fs[i].0, fs[i].1) :: i in shifted
  {
    forall t | 0 <= t < |rest| ensures fs[shifted[t]] == fs[1..][rest[t]] {
    }
    forall i | 1 <= i < |fs| && Descends(fs[i].0, fs[i].1) ensures i in shifted {
      assert fs[1..][i - 1] == fs[i];
      assert Descends(fs[1..][i - 1].0, fs[1..][i - 1].1);
      assert i - 1 in rest;
      var t :| 0 <= t < |rest| && rest[t] == i - 1;
      assert shifted[t] == i;
    }
  }

  lemma ConsValues(fs: Fields, shifted: seq<nat>, inner: seq<Value>)
    requires |fs| > 0 && PicksValues(fs, shifted, inner)
    requires forall t | 0 <= t < |shifted| :: shifted[t] > 0
    ensures PicksValues(fs, [0] + shifted, [fs[0].1] + inner)
  {
    var picked := [0] + shifted;
    forall s, t | 0 <= s < t < |picked| ensures picked[s] < picked[t] {
      assert picked[t] == shifted[t - 1];
      if s > 0 {
        assert picked[s] == shifted[s - 1];
      }
    }
  }

  lemma ConsQualifying(fs: Fields, shifted: seq<nat>)
    requires |fs| > 0 && Descends(fs[0].0, fs[0].1)
    requires forall t | 0 <= t < |shifted| :: 0 < shifted[t] < |fs| && Descends(fs[shifted[t]].0, fs[shifted[t]].1)
    requires forall i | 1 <= i < |fs| && Descends(fs[i].0, fs[i].1) :: i in shifted
    ensures PicksQualifying(fs, [0] + shifted)
  {
    var picked := [0] + shifted;
    forall t | 0 <= t < |picked| ensures picked[t] < |fs| && Descends(fs[picked[t]].0, fs[picked[t]].1) {
      if t > 0 {
        assert picked[t] == shifted[t - 1];
      }
    }
    forall i | 0 <= i < |fs| && Descends(fs[i].0, fs[i].1) ensures i in picked {
      if i > 0 {
        assert i in shifted;
      }
    }
  }

  /** Following only the values `find` goes on with, from `v` along `pos`. */
  predicate Descent(v: Value, pos: Position)
    decreases |pos|
  {
    |pos| == 0 ||
    (var fs := EnumProps(v);
     pos[0] < |fs| && Descends(fs[pos[0]].0, fs[pos[0]].1) && Descent(fs[pos[0]].1, pos[1..]))
  }

  /**
   * `find` misses nothing: an instance or datastore reached through values
   * `find` goes on with is reported.
   */
  lemma {:induction false} DiscoverFinds(v: Value, pos: Position)
    requires |pos| >= 1 && Descent(v, pos) && (IsInstance(At(v, pos)) || IsDatastore(At(v, pos)))
    ensures At(v, pos) in Discover(v)
    decreases v
  {
    var fs := EnumProps(v);
    var inner := Inner(fs);
    var child := fs[pos[0]].1;
    assert child in inner;
    EnumSmaller(v);
    assert Discover(v) == Reported(inner) + DiscoverAll(v, inner);
    if |pos| == 1 {
      assert At(v, pos) == child;
    } else {
      EnumSmallerAt(v, pos[0]);
      DiscoverFinds(child, pos[1..]);
      assert At(v, pos) == At(child, pos[1..]);
      var k :| 0 <= k < |inner| && inner[k] == child;
      DiscoverAllHas(v, inner, k);
    }
  }

  lemma {:induction false} DiscoverAllHas(parent: Value, inner: seq<Value>, k: nat)
    requires forall x | x in inner :: x < parent
    requires k < |inner|
    ensures forall x | x in Discover(inner[k]) :: x in DiscoverAll(parent, inner)
    decreases |inner|
  {
    assert forall x | x in inner[1..] :: x in inner;
    assert DiscoverAll(parent, inner) == Discover(inner[0]) + DiscoverAll(parent, inner[1..]);
    if k > 0 {
      DiscoverAllHas(parent, inner[1..], k - 1);
    }
  }

  /** `results`: the instance `initialize` starts with, then everything `find` reports. */
  function Results(root: Value): seq<Value>
  {
    [root] + Discover(root)
  }

  /*------------------------------------------ identities and hooks ------------------------------------------*/

  /** The object identity of an instance or datastore; plain objects have none in the model. */
  function Oid(x: Value): Option<nat>
  {
    match x
    case Inst(o, _) => Some(o)
    case Ref(o, _) => Some(o)
    case Store(o, _) => Some(o)
    case _ => None
  }

  /** The identities of a result list, in order. */
  function Ids(results: seq<Value>): (ids: seq<nat>)
    ensures forall o | o in ids :: exists i | 0 <= i < |results| :: Oid(results[i]) == Some(o)
  {
    if |results| == 0 then []
    else
      var rest := Ids(results[1..]);
      assert forall o | o in rest :: exists i | 0 <= i < |results| :: Oid(results[i]) == Some(o) by {
        forall o | o in rest ensures exists i | 0 <= i < |results| :: Oid(results[i]) == Some(o) {
          var j :| 0 <= j < |results[1..]| && Oid(results[1..][j]) == Some(o);
          assert Oid(results[j + 1]) == Some(o);
        }
      }
      match Oid(results[0])
      case Some(o) => [o] + rest
      case None => rest
  }

  /** An object with an `init` hook still to run: an instance's own `init`, a datastore not yet initialised. */
  predicate HasInit(x: Value)
  {
    match x
    case Inst(_, fs) => Truthy(Lookup(fs, "init"))
    case Store(_, pending) => pending
    case _ => false
  }

  predicate HasReady(x: Value)
  {
    x.Inst? && Truthy(Lookup(x.fields, "ready"))
  }

  /** The identities among the results that carry a hook. */
  function Hooked(results: seq<Value>, ready: bool): (s: set<nat>)
    ensures forall o | o in s :: o in Ids(results)
  {
    if |results| == 0 then {}
    else
      var rest := Hooked(results[1..], ready);
      var x := results[0];
      var has := if ready then HasReady(x) else HasInit(x);
      if has && Oid(x).Some? then {Oid(x).value} + rest else rest
  }

  /** The calls `initialize` makes. */
  datatype Event = Init(oid: nat) | Ready(oid: nat)

  /** `init()`: front to back, each object whose hook is still there has it called and deleted. */
  function InitOrder(ids: seq<nat>, pending: set<nat>): (order: seq<nat>)
    ensures forall o | o in order :: o in pending && o in ids
    decreases |ids|
  {
    if |ids| == 0 then []
    else if ids[0] in pending then [ids[0]] + InitOrder(ids[1..], pending - {ids[0]})
    else InitOrder(ids[1..], pending)
  }

  /** `ready()`: popping from the back, each object whose hook is still there has it deleted and called. */
  function ReadyOrder(ids: seq<nat>, pending: set<nat>): (order: seq<nat>)
    ensures forall o | o in order :: o in pending && o in ids
    decreases |ids|
  {
    if |ids| == 0 then []
    else
      var last := ids[|ids| - 1];
      if last in pending then [last] + ReadyOrder(ids[..|ids| - 1], pending - {last})
      else ReadyOrder(ids[..|ids| - 1], pending)
  }

  function InitEvents(order: seq<nat>): seq<Event>
  {
    seq(|order|, i requires 0 <= i < |order| => Init(order[i]))
  }

  function ReadyEvents(order: seq<nat>): seq<Event>
  {
    seq(|order|, i requires 0 <= i < |order| => Ready(order[i]))
  }

  predicate NoDuplicates(s: seq<nat>)
  {
    forall i, j | 0 <= i < j < |s| :: s[i] != s[j]
  }

  /** The objects of a list that are in a set, in list order. */
  function Filter(s: seq<nat>, keep: set<nat>): seq<nat>
  {
    if |s| == 0 then []
    else if s[0] in keep then [s[0]] + Filter(s[1..], keep)
    else Filter(s[1..], keep)
  }

  function Reverse(s: seq<nat>): (r: seq<nat>)
    ensures |r| == |s| && forall i | 0 <= i < |s| :: r[i] == s[|s| - 1 - i]
  {
    if |s| == 0 then [] else Reverse(s[1..]) + [s[0]]
  }

  /** Every `init` hook runs at most once, even for an object found twice. */
  lemma {:induction false} InitOnce(ids: seq<nat>, pending: set<nat>)
    ensures NoDuplicates(InitOrder(ids, pending))
    decreases |ids|
  {
    if |ids| > 0 {
      InitOnce(ids[1..], if ids[0] in pending then pending - {ids[0]} else pending);
    }
  }

  /** Every `ready` hook runs at most once. */
  lemma {:induction false} ReadyOnce(ids: seq<nat>, pending: set<nat>)
    ensures NoDuplicates(ReadyOrder(ids, pending))
    decreases |ids|
  {
    if |ids| > 0 {
      var last := ids[|ids| - 1];
      ReadyOnce(ids[..|ids| - 1], if last in pending then pending - {last} else pending);
    }
  }

  /** When no object is found twice, `init` runs on exactly the hooked objects in discovery order. */
  lemma {:induction false} InitInDiscoveryOrder(ids: seq<nat>, pending: set<nat>)
    requires NoDuplicates(ids)
    ensures InitOrder(ids, pending) == Filter(ids, pending)
    decreases |ids|
  {
    if |ids| > 0 {
      assert NoDuplicates(ids[1..]) by {
        forall i, j | 0 <= i < j < |ids[1..]| ensures ids[1..][i] != ids[1..][j] {
          assert ids[1..][i] == ids[i + 1] && ids[1..][j] == ids[j + 1];
        }
      }
      InitInDiscoveryOrder(ids[1..], pending - {ids[0]});
      InitInDiscoveryOrder(ids[1..], pending);
      assert ids[0] !in ids[1..] by {
        forall k | 0 <= k < |ids[1..]| ensures ids[1..][k] != ids[0] {
          assert ids[1..][k] == ids[k + 1];
        }
      }
      FilterWithout(ids[1..], pending, ids[0]);
    }
  }

  /** Leaving an absent object out of the set changes no filter. */
  lemma {:induction false} FilterWithout(s: seq<nat>, keep: set<nat>, x: nat)
    requires x !in s
    ensures Filter(s, keep - {x}) == Filter(s, keep)
    decreases |s|
  {
    if |s| > 0 {
      FilterWithout(s[1..], keep, x);
    }
  }

  /** When no object is found twice, `ready` runs on exactly the hooked objects in reverse discovery order. */
  lemma {:induction false} ReadyInReverseOrder(ids: seq<nat>, pending: set<nat>)
    requires NoDuplicates(ids)
    ensures ReadyOrder(ids, pending) == Reverse(Filter(ids, pending))
    decreases |ids|
  {
    if |ids| > 0 {
      var front, last := ids[..|ids| - 1], ids[|ids| - 1];
      assert NoDuplicates(front);
      assert ids == front + [last];
      FilterAppend(front, last, pending);
      if last in pending {
        assert last !in front;
        ReadyInReverseOrder(front, pending - {last});
        FilterWithout(front, pending, last);
        ReverseAppend(Filter(front, pending), last);
      } else {
        ReadyInReverseOrder(front, pending);
        assert Filter(front, pending) + [] == Filter(front, pending);
      }
    }
  }

  lemma {:induction false} FilterAppend(s: seq<nat>, x: nat, keep: set<nat>)
    ensures Filter(s + [x], keep) == Filter(s, keep) + (if x in keep then [x] else [])
    decreases |s|
  {
    if |s| > 0 {
      assert (s + [x])[1..] == s[1..] + [x];
      FilterAppend(s[1..], x, keep);
    }
  }

  lemma ReverseAppend(s: seq<nat>, x: nat)
    ensures Reverse(s + [x]) == [x] + Reverse(s)
  {
  }

  /**
   * For objects that carry both hooks, the `ready` calls come in exactly
   * the reverse order of the `init` calls.
   */
  lemma ReadyReversesInit(ids: seq<nat>, hooked: set<nat>)
    requires NoDuplicates(ids)
    ensures ReadyOrder(ids, hooked) == Reverse(InitOrder(ids, hooked))
  {
    InitInDiscoveryOrder(ids, hooked);
    ReadyInReverseOrder(ids, hooked);
  }

  /** The root instance comes first: when it has an `init` hook, that hook is the first call. */
  lemma RootFirst(ids: seq<nat>, pending: set<nat>)
    requires |ids| > 0 && ids[0] in pending
    ensures |InitOrder(ids, pending)| > 0 && InitOrder(ids, pending)[0] == ids[0]
  {
  }

  /*------------------------------------------ initialize ------------------------------------------*/

  /** The hooks of the objects of one `ccm.instance` call, and the calls made so far. */
  class Hooks {
    /** Objects whose `init` is still there. */
    var inits: set<nat>
    /** Objects whose `ready` is still there. */
    var readies: set<nat>
    var trace: seq<Event>

    constructor (results: seq<Value>)
      ensures inits == Hooked(results, false) && readies == Hooked(results, true) && trace == []
    {
      inits := Hooked(results, false);
      readies := Hooked(results, true);
      trace := [];
    }

    /**
     * `init()` then `ready()` over the result list. Every hook is assumed
     * to call back.
     */
    method Initialize(ids: seq<nat>)
      modifies this
      ensures trace == old(trace) + InitEvents(InitOrder(ids, old(inits))) + ReadyEvents(ReadyOrder(ids, old(readies)))
      ensures inits == old(inits) - set o | o in ids
      ensures readies == old(readies) - set o | o in ids
    {
      InitAll(ids);
      ReadyAll(ids);
    }

    /** `init()`: an index steps from the front; each hook still there is called and then deleted. */
    method InitAll(ids: seq<nat>)
      modifies this
      ensures trace == old(trace) + InitEvents(InitOrder(ids, old(inits)))
      ensures inits == old(inits) - set o | o in ids
      ensures readies == old(readies)
    {
      ghost var init0, trace0 := inits, trace;
      var i := 0;
      while i < |ids|
        invariant 0 <= i <= |ids|
        invariant inits == init0 - set o | o in ids[..i]
        invariant trace0 + InitEvents(InitOrder(ids, init0)) == trace + InitEvents(InitOrder(ids[i..], inits))
        invariant readies == old(readies)
      {
        var o := ids[i];
        assert ids[..i + 1] == ids[..i] + [o];
        assert ids[i..] == [o] + ids[i + 1..];
        if o in inits {
          InitEventsCons(o, InitOrder(ids[i + 1..], inits - {o}));
          trace := trace + [Init(o)];
          inits := inits - {o};
        }
        i := i + 1;
      }
      assert ids[i..] == [];
    }

    /** `ready()`: popping from the back, `init` and `ready` are deleted and a `ready` still there is called. */
    method ReadyAll(ids: seq<nat>)
      modifies this
      requires forall o | o in ids :: o !in inits
      ensures trace == old(trace) + ReadyEvents(ReadyOrder(ids, old(readies)))
      ensures readies == old(readies) - set o | o in ids
      ensures inits == old(inits)
    {
      ghost var ready0, trace0 := readies, trace;
      var results := ids;
      while |results| > 0
        invariant results == ids[..|results|]
        invariant inits == old(inits)
        invariant readies == ready0 - set o | o in ids[|results|..]
        invariant trace0 + ReadyEvents(ReadyOrder(ids, ready0)) == trace + ReadyEvents(ReadyOrder(results, readies))
      {
        var o := results[|results| - 1];
        var front := results[..|results| - 1];
        assert ids[|front|..] == [o] + ids[|results|..];
        results := front;
        inits := inits - {o};
        if o in readies {
          ReadyEventsCons(o, ReadyOrder(front, readies - {o}));
          readies := readies - {o};
          trace := trace + [Ready(o)];
        }
      }
    }
  }

  lemma InitEventsCons(o: nat, order: seq<nat>)
    ensures InitEvents([o] + order) == [Init(o)] + InitEvents(order)
  {
  }

  lemma ReadyEventsCons(o: nat, order: seq<nat>)
    ensures ReadyEvents([o] + order) == [Ready(o)] + ReadyEvents(order)
  {
  }
}
