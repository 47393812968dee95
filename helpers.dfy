/**
 * The data helpers of `ccm.helper` that the datastore, the registry and the
 * instantiation engine rely on: deep copy, get/set by dot path, merging of
 * priority data, the subset test used for queries, property filtering,
 * privatization of instance members and dataset keys.
 */
module Helpers {
  import opened JsStrings
  import opened JsValues

  /*------------------------------------------ property access ------------------------------------------*/

  /** Objects whose own properties the model keeps: plain objects and instance objects. */
  predicate IsRecord(v: Value) { v.Obj? || v.Inst? }

  /**
   * `obj[k]`: own properties of records, elements of arrays at array-index
   * names, and the `index` of a component or of a reference to an instance.
   */
  function Prop(obj: Value, k: string): (r: Value)
    ensures IsRecord(obj) ==> r == Lookup(PropsOf(obj), k)
    ensures obj.Undef? || obj.Null? || obj.Bool? || obj.Num? || obj.Fn? ==> r == Undef
  {
    match obj
    case Obj(fs) => Lookup(fs, k)
    case Inst(_, fs) => Lookup(fs, k)
    case Ref(_, index) => if k == "index" then Str(index) else Undef
    case Comp(index) => if k == "index" then Str(index) else Undef
    case Arr(items) =>
      if IsArrayIndex(k) && DigitsValue(k) < |items| then items[DigitsValue(k)] else Undef
    case _ => Undef
  }

  /** Whether `obj[k] = v` changes `obj` here: any property of a record, an element of an array. */
  predicate Writable(obj: Value, k: string)
  {
    IsRecord(obj) || (obj.Arr? && IsArrayIndex(k))
  }

  /**
   * `obj[k] = v`. Records take the property. An array takes the element at an
   * array index, growing to that length when the index is past its end (the
   * gap reads as undefined). Other assignments are not kept.
   */
  function SetProp(obj: Value, k: string, v: Value): (r: Value)
    ensures IsRecord(r) == IsRecord(obj) && r.Arr? == obj.Arr? && Truthy(r) == Truthy(obj)
    ensures Writable(obj, k) ==> Prop(r, k) == v
    ensures !Writable(obj, k) ==> r == obj
    ensures forall j | j != k :: Prop(r, j) == Prop(obj, j)
  {
    match obj
    case Obj(fs) =>
      forall j ensures Lookup(Put(fs, k, v), j) == if j == k then v else Lookup(fs, j) {
        LookupPut(fs, k, v, j);
      }
      Obj(Put(fs, k, v))
    case Inst(o, fs) =>
      forall j ensures Lookup(Put(fs, k, v), j) == if j == k then v else Lookup(fs, j) {
        LookupPut(fs, k, v, j);
      }
      Inst(o, Put(fs, k, v))
    case Arr(items) =>
      if IsArrayIndex(k) then
        var n := DigitsValue(k);
        var grown := if n < |items| then items[n := v] else items + seq(n - |items|, _ => Undef) + [v];
        ElementWriteFrame(items, k, v, grown);
        Arr(grown)
      else obj
    case _ => obj
  }

  /** Writing element `k` of an array changes no element at another array index. */
  lemma ElementWriteFrame(items: seq<Value>, k: string, v: Value, grown: seq<Value>)
    requires IsArrayIndex(k)
    requires var n := DigitsValue(k);
      grown == if n < |items| then items[n := v] else items + seq(n - |items|, _ => Undef) + [v]
    ensures forall j | j != k :: Prop(Arr(grown), j) == Prop(Arr(items), j)
  {
    forall j | j != k ensures Prop(Arr(grown), j) == Prop(Arr(items), j) {
      if IsArrayIndex(j) {
        NumeralsDiffer(j, k);
      }
    }
  }

  /** The properties `for (var key in v)` visits: the own properties of a record, the indices of an array. */
  function EnumProps(v: Value): (fs: Fields)
    ensures IsRecord(v) ==> fs == PropsOf(v)
    ensures v.Arr? ==> |fs| == |v.items| && forall i | 0 <= i < |fs| :: fs[i] == (NatToString(i), v.items[i])
  {
    match v
    case Obj(fs) => fs
    case Inst(_, fs) => fs
    case Arr(items) => seq(|items|, i requires 0 <= i < |items| => (NatToString(i), items[i]))
    case _ => []
  }

  /**
   * A place inside a value, as the positions of the enumerated properties
   * taken one after the other: it stands for an object or array and a key
   * in it, like the `(instance_or_array, key)` pairs the code passes on.
   */
  type Position = seq<nat>

  /** The value at a position (undefined where there is none). */
  function At(v: Value, pos: Position): Value
    decreases |pos|
  {
    if |pos| == 0 then v
    else
      var fs := EnumProps(v);
      if pos[0] < |fs| then At(fs[pos[0]].1, pos[1..]) else Undef
  }

  /*------------------------------------------ clone ------------------------------------------*/

  /** No instance object occurs anywhere inside the value. */
  predicate NoInst(v: Value)
  {
    match v
    case Inst(_, _) => false
    case Arr(items) => forall i | 0 <= i < |items| :: NoInst(items[i])
    case Obj(fs) => forall i | 0 <= i < |fs| :: NoInst(fs[i].1)
    case _ => true
  }

  /**
   * `ccm.helper.clone`: DOM nodes are kept, arrays and objects are copied
   * property by property into fresh arrays and plain objects. A copied
   * instance object becomes a plain object with the same properties.
   */
  function Clone(v: Value): (r: Value)
    ensures NoInst(r)
    ensures NoInst(v) ==> r == v
    ensures v.Inst? ==> r.Obj? && Names(r.fields) == Names(v.fields)
    ensures Truthy(r) == Truthy(v) && IsRecord(r) == IsRecord(v)
  {
    match v
    case Arr(items) =>
      var r := Arr(seq(|items|, i requires 0 <= i < |items| => Clone(items[i])));
      assert NoInst(v) ==> r.items == items;
      r
    case Obj(fs) =>
      var r := Obj(seq(|fs|, i requires 0 <= i < |fs| => (fs[i].0, Clone(fs[i].1))));
      assert NoInst(v) ==> r.fields == fs;
      r
    case Inst(_, fs) => Obj(seq(|fs|, i requires 0 <= i < |fs| => (fs[i].0, Clone(fs[i].1))))
    case _ => v
  }

  /** Cloning twice is cloning once: the copy is already free of instance objects. */
  lemma CloneIdempotent(v: Value)
    ensures Clone(Clone(v)) == Clone(v)
  {
  }

  /*------------------------------------------ deepValue ------------------------------------------*/

  /** The dot path of a key: `key.split('.')`. */
  function PathOf(key: string): (p: seq<string>)
    ensures |p| >= 1
  {
    Split(key, '.')
  }

  /** First segment of a dot path. */
  function Head(key: string): string { PathOf(key)[0] }

  /**
   * `ccm.helper.deepValue` on a path already split at the dots. The pair
   * holds the value returned and the object afterwards. An undefined
   * `value` makes it a read. Otherwise a falsy intermediate property is
   * assigned an empty object, the recursion goes on with the property as it
   * reads after that assignment, and the last property is assigned. An
   * assignment the object does not keep (see `Writable`) leaves the property
   * falsy, so the recursion then returns undefined.
   */
  function DeepPath(obj: Value, path: seq<string>, value: Value): (r: (Value, Value))
    requires |path| >= 1
    ensures value.Undef? ==> r.1 == obj
    ensures !Truthy(obj) ==> r == (Undef, obj)
    ensures !value.Undef? ==> r.0 == if Reaches(obj, path) then value else Undef
    ensures IsRecord(r.1) == IsRecord(obj) && r.1.Arr? == obj.Arr? && Truthy(r.1) == Truthy(obj)
    decreases |path|
  {
    if !Truthy(obj) then (Undef, obj)
    else
      var next := path[0];
      var cur := Prop(obj, next);
      if |path| == 1 then
        if !value.Undef? then (value, SetProp(obj, next, value)) else (cur, obj)
      else
        var child := if !Truthy(cur) && !value.Undef? && Writable(obj, next) then Obj([]) else cur;
        var sub := DeepPath(child, path[1..], value);
        (sub.0, if !value.Undef? then SetProp(obj, next, sub.1) else obj)
  }

  /**
   * A set along `path` gets to its last segment: every object on the way is
   * truthy, once each falsy intermediate property has been given the empty
   * object its parent keeps.
   */
  predicate Reaches(obj: Value, path: seq<string>)
    requires |path| >= 1
    decreases |path|
  {
    Truthy(obj) &&
    (|path| == 1 ||
     (if Truthy(Prop(obj, path[0])) then Reaches(Prop(obj, path[0]), path[1..]) else Writable(obj, path[0])))
  }

  /** `ccm.helper.deepValue(obj, key, value)` */
  function DeepValue(obj: Value, key: string, value: Value): (r: (Value, Value))
    ensures value.Undef? ==> r.1 == obj
    ensures !value.Undef? ==> r.0 == if Reaches(obj, PathOf(key)) then value else Undef
  {
    DeepPath(obj, PathOf(key), value)
  }

  /** Reading by dot path: `ccm.helper.deepValue(obj, key)`. */
  function DeepGet(obj: Value, key: string): Value
  {
    DeepValue(obj, key, Undef).0
  }

  /**
   * A path along which a set reaches its end: every object on the way takes
   * the assignment of its segment, and every intermediate property is either
   * falsy (and gets replaced by an empty object) or again such an object.
   */
  predicate Settable(obj: Value, path: seq<string>)
    requires |path| >= 1
    decreases |path|
  {
    Writable(obj, path[0]) &&
    (|path| == 1 || !Truthy(Prop(obj, path[0])) || Settable(Prop(obj, path[0]), path[1..]))
  }

  /** A set along a settable path gets to its end, so it returns the value written. */
  lemma {:induction false} SettableReaches(obj: Value, path: seq<string>)
    requires |path| >= 1 && Settable(obj, path)
    ensures Reaches(obj, path)
    decreases |path|
  {
    if |path| > 1 && Truthy(Prop(obj, path[0])) {
      SettableReaches(Prop(obj, path[0]), path[1..]);
    }
  }

  /**
   * A truthy primitive on the way does not keep the empty object assigned to
   * it: `deepValue({a: "x"}, "a.b.c", 1)` returns undefined and changes nothing.
   */
  lemma PrimitiveOnPath()
    ensures var obj := Obj([("a", Str("x"))]);
      DeepPath(obj, ["a", "b", "c"], Num(1)) == (Undef, obj)
  {
    var obj := Obj([("a", Str("x"))]);
    var path: seq<string> := ["a", "b", "c"];
    assert path[1..] == ["b", "c"] && path[1..][1..] == ["c"];
    assert Prop(obj, "a") == Str("x");
    assert Prop(Str("x"), "b") == Undef && !Writable(Str("x"), "b");
    assert DeepPath(Str("x"), path[1..], Num(1)) == (Undef, Str("x"));
    assert Put([("a", Str("x"))], "a", Str("x")) == [("a", Str("x"))];
  }

  /** After a set along a settable path, reading the same path gives the value written. */
  lemma {:induction false} DeepSetThenGet(obj: Value, path: seq<string>, value: Value)
    requires |path| >= 1 && Settable(obj, path) && !value.Undef?
    ensures DeepPath(DeepPath(obj, path, value).1, path, Undef).0 == value
    decreases |path|
  {
    var after := DeepPath(obj, path, value).1;
    if |path| > 1 {
      var cur := Prop(obj, path[0]);
      var child := if !Truthy(cur) then Obj([]) else cur;
      assert Settable(child, path[1..]) by {
        if !Truthy(cur) { ReadEmpty(path[1..]); }
      }
      DeepSetThenGet(child, path[1..], value);
      DeepSetThenGetStep(obj, path, value, DeepPath(child, path[1..], value).1);
    } else {
      assert after == SetProp(obj, path[0], value);
    }
  }

  /** One level of `DeepSetThenGet`: the object takes the child written along the rest of the path. */
  lemma DeepSetThenGetStep(obj: Value, path: seq<string>, value: Value, sub: Value)
    requires |path| > 1 && Writable(obj, path[0]) && !value.Undef?
    requires var cur := Prop(obj, path[0]);
      var child := if !Truthy(cur) then Obj([]) else cur;
      sub == DeepPath(child, path[1..], value).1 && DeepPath(sub, path[1..], Undef).0 == value
    ensures DeepPath(DeepPath(obj, path, value).1, path, Undef).0 == value
  {
    var after := DeepPath(obj, path, value).1;
    assert after == SetProp(obj, path[0], sub);
    assert Prop(after, path[0]) == sub;
  }

  /** A set leaves every path that starts with another property as it was. */
  lemma DeepSetOther(obj: Value, p: seq<string>, value: Value, q: seq<string>)
    requires |p| >= 1 && |q| >= 1 && p[0] != q[0]
    ensures DeepPath(DeepPath(obj, p, value).1, q, Undef).0 == DeepPath(obj, q, Undef).0
    ensures Settable(obj, q) ==> Settable(DeepPath(obj, p, value).1, q)
  {
    var after := DeepPath(obj, p, value).1;
    assert Prop(after, q[0]) == Prop(obj, q[0]);
  }

  /** Dot path `p` is `q` or leads into it. */
  predicate IsPrefix(p: seq<string>, q: seq<string>)
  {
    |p| <= |q| && q[..|p|] == p
  }

  /** One of two dot paths leads into the other, so a set along one can change a read along the other. */
  predicate Related(p: seq<string>, q: seq<string>)
  {
    IsPrefix(p, q) || IsPrefix(q, p)
  }

  /** Two paths with the same first segment are related when one ends there or their rests are related. */
  lemma RelatedTails(p: seq<string>, q: seq<string>)
    requires |p| >= 1 && |q| >= 1 && p[0] == q[0]
    ensures |p| == 1 || |q| == 1 || Related(p[1..], q[1..]) ==> Related(p, q)
  {
    if |p| == 1 {
      assert q[..1] == p;
    } else if |q| == 1 {
      assert p[..1] == q;
    } else if IsPrefix(p[1..], q[1..]) {
      assert q[..|p|] == [q[0]] + q[1..][..|p| - 1];
    } else if IsPrefix(q[1..], p[1..]) {
      assert p[..|q|] == [p[0]] + p[1..][..|q| - 1];
    }
  }

  /** Nothing can be read from an empty object. */
  lemma ReadEmpty(q: seq<string>)
    requires |q| >= 1
    ensures DeepPath(Obj([]), q, Undef).0 == Undef
    ensures Settable(Obj([]), q)
  {
    assert Prop(Obj([]), q[0]) == Undef;
  }

  /**
   * A set along `p` leaves every read along a path `q` that neither leads
   * into `p` nor continues it as it was, and keeps `q` settable.
   */
  lemma {:induction false} DeepSetFrame(obj: Value, p: seq<string>, value: Value, q: seq<string>)
    requires |p| >= 1 && |q| >= 1 && !Related(p, q)
    ensures DeepPath(DeepPath(obj, p, value).1, q, Undef).0 == DeepPath(obj, q, Undef).0
    ensures Settable(obj, q) ==> Settable(DeepPath(obj, p, value).1, q)
    decreases |p|
  {
    if p[0] != q[0] {
      DeepSetOther(obj, p, value, q);
    } else if Truthy(obj) && !value.Undef? {
      RelatedTails(p, q);
      var cur := Prop(obj, p[0]);
      var child := if !Truthy(cur) then Obj([]) else cur;
      var sub := DeepPath(child, p[1..], value).1;
      DeepSetFrame(child, p[1..], value, q[1..]);
      if !Truthy(cur) {
        ReadEmpty(q[1..]);
      }
      DeepSetInto(obj, p, value, q, sub);
    }
  }

  /** One level of `DeepSetFrame`: the set replaces the first property by `sub`, the set below it. */
  lemma DeepSetInto(obj: Value, p: seq<string>, value: Value, q: seq<string>, sub: Value)
    requires |p| > 1 && |q| > 1 && p[0] == q[0] && Truthy(obj) && !value.Undef?
    requires var cur := Prop(obj, p[0]);
      var child := if !Truthy(cur) then Obj([]) else cur;
      sub == DeepPath(child, p[1..], value).1 &&
      DeepPath(sub, q[1..], Undef).0 == DeepPath(cur, q[1..], Undef).0 &&
      (Settable(child, q[1..]) ==> Settable(sub, q[1..])) &&
      (!Truthy(cur) ==> Settable(child, q[1..]))
    ensures DeepPath(DeepPath(obj, p, value).1, q, Undef).0 == DeepPath(obj, q, Undef).0
    ensures Settable(obj, q) ==> Settable(DeepPath(obj, p, value).1, q)
  {
    var after := DeepPath(obj, p, value).1;
    assert after == SetProp(obj, p[0], sub);
    if Writable(obj, p[0]) {
      assert Prop(after, q[0]) == sub;
      assert DeepPath(after, q, Undef).0 == DeepPath(sub, q[1..], Undef).0;
    }
  }

  /*------------------------------------------ integrate ------------------------------------------*/

  /** The dataset after `deepValue(dataset, key, priodata[key])` for each property in turn. */
  function IntegrateFields(fs: Fields, data: Value): (r: Value)
    ensures Truthy(r) == Truthy(data) && IsRecord(r) == IsRecord(data)
    decreases |fs|
  {
    if |fs| == 0 then data
    else IntegrateFields(fs[1..], DeepValue(data, fs[0].0, fs[0].1).1)
  }

  /**
   * `ccm.helper.integrate(priodata, dataset)`: with no priority data the
   * dataset, with no dataset the priority data, otherwise the dataset with
   * every property of the priority data written in by dot path.
   */
  function Integrated(prio: Value, data: Value): (r: Value)
    ensures Truthy(r) <==> Truthy(prio) || Truthy(data)
  {
    if !Truthy(prio) then data
    else if !Truthy(data) then prio
    else IntegrateFields(EnumProps(prio), data)
  }

  /** `ccm.helper.integrate`, with the loop over the priority data's properties. */
  method Integrate(prio: Value, data: Value) returns (r: Value)
    ensures r == Integrated(prio, data)
  {
    if !Truthy(prio) { return data; }
    if !Truthy(data) { return prio; }
    var fs := EnumProps(prio);
    r := data;
    var i := 0;
    while i < |fs|
      invariant 0 <= i <= |fs|
      invariant IntegrateFields(fs[i..], r) == Integrated(prio, data)
    {
      IntegrateFieldsStep(fs, i, r);
      r := DeepValue(r, fs[i].0, fs[i].1).1;
      i := i + 1;
    }
  }

  /** Integrating from property `i` on is writing property `i`, then integrating the rest. */
  lemma IntegrateFieldsStep(fs: Fields, i: nat, data: Value)
    requires i < |fs|
    ensures IntegrateFields(fs[i..], data) == IntegrateFields(fs[i + 1..], DeepValue(data, fs[i].0, fs[i].1).1)
  {
    assert fs[i..][1..] == fs[i + 1..];
  }

  /**
   * No integrated property sets along a path related to `q` (properties
   * with an undefined value are only read).
   */
  predicate Untouched(fs: Fields, q: seq<string>)
  {
    forall i | 0 <= i < |fs| :: fs[i].1.Undef? || !Related(PathOf(fs[i].0), q)
  }

  /** Integrating properties whose paths are unrelated to `q` leaves the read along `q` unchanged. */
  lemma {:induction false} IntegrateFieldsFrame(fs: Fields, data: Value, q: seq<string>)
    requires |q| >= 1 && Untouched(fs, q)
    ensures DeepPath(IntegrateFields(fs, data), q, Undef).0 == DeepPath(data, q, Undef).0
    ensures Settable(data, q) ==> Settable(IntegrateFields(fs, data), q)
    decreases |fs|
  {
    if |fs| > 0 {
      if !fs[0].1.Undef? {
        DeepSetFrame(data, PathOf(fs[0].0), fs[0].1, q);
      }
      assert Untouched(fs[1..], q) by {
        forall i | 0 <= i < |fs[1..]| ensures fs[1..][i].1.Undef? || !Related(PathOf(fs[1..][i].0), q) {
          assert fs[1..][i] == fs[i + 1];
        }
      }
      IntegrateFieldsFrame(fs[1..], DeepValue(data, fs[0].0, fs[0].1).1, q);
    }
  }

  /** No defined property's dot path leads into another's. */
  predicate PrefixFree(fs: Fields)
  {
    forall i, j | 0 <= i < j < |fs| && !fs[i].1.Undef? && !fs[j].1.Undef? ::
      !Related(PathOf(fs[i].0), PathOf(fs[j].0))
  }

  /** Every defined property can be set along its path. */
  predicate AllSettable(fs: Fields, data: Value)
  {
    forall i | 0 <= i < |fs| && !fs[i].1.Undef? :: Settable(data, PathOf(fs[i].0))
  }

  /** Every defined property integrated along a settable path can be read back afterwards. */
  lemma {:induction false} IntegrateFieldsWrites(fs: Fields, data: Value)
    requires PrefixFree(fs) && AllSettable(fs, data)
    ensures forall i | 0 <= i < |fs| && !fs[i].1.Undef? :: DeepGet(IntegrateFields(fs, data), fs[i].0) == fs[i].1
    decreases |fs|
  {
    if |fs| > 0 {
      var k := fs[0].0;
      var next := DeepValue(data, k, fs[0].1).1;
      var rest := fs[1..];
      assert AllSettable(rest, next) by {
        forall i | 0 <= i < |rest| && !rest[i].1.Undef? ensures Settable(next, PathOf(rest[i].0)) {
          assert rest[i] == fs[i + 1];
          if !fs[0].1.Undef? {
            DeepSetFrame(data, PathOf(k), fs[0].1, PathOf(rest[i].0));
          }
        }
      }
      assert PrefixFree(rest) by {
        forall a, b | 0 <= a < b < |rest| && !rest[a].1.Undef? && !rest[b].1.Undef?
          ensures !Related(PathOf(rest[a].0), PathOf(rest[b].0))
        {
          assert rest[a] == fs[a + 1] && rest[b] == fs[b + 1];
        }
      }
      IntegrateFieldsWrites(rest, next);
      if !fs[0].1.Undef? {
        assert Untouched(rest, PathOf(k)) by {
          forall i | 0 <= i < |rest| ensures rest[i].1.Undef? || !Related(PathOf(rest[i].0), PathOf(k)) {
            assert rest[i] == fs[i + 1];
          }
        }
        IntegrateFieldsFrame(rest, next, PathOf(k));
        DeepSetThenGet(data, PathOf(k), fs[0].1);
      }
      forall i | 0 <= i < |fs| && !fs[i].1.Undef?
        ensures DeepGet(IntegrateFields(fs, data), fs[i].0) == fs[i].1
      {
        if i > 0 {
          assert fs[i] == rest[i - 1];
        }
      }
    }
  }

  /**
   * The priority data wins: after `integrate(priodata, dataset)` on two
   * records whose defined priority paths do not lead into one another,
   * every defined property of the priority data can be read back by its dot
   * path, and every path no priority path leads into or continues reads as
   * in the dataset before (so `{a: {x: 1}}` merged with `{'a.y': 9}` keeps
   * `a.x`).
   */
  lemma PriorityWins(prio: Value, data: Value)
    requires IsRecord(prio) && IsRecord(data)
    requires PrefixFree(PropsOf(prio)) && AllSettable(PropsOf(prio), data)
    ensures forall i | 0 <= i < |PropsOf(prio)| && !PropsOf(prio)[i].1.Undef? ::
      DeepGet(Integrated(prio, data), PropsOf(prio)[i].0) == PropsOf(prio)[i].1
    ensures forall q | Untouched(PropsOf(prio), PathOf(q)) :: DeepGet(Integrated(prio, data), q) == DeepGet(data, q)
  {
    var fs := PropsOf(prio);
    IntegrateFieldsWrites(fs, data);
    forall q | Untouched(fs, PathOf(q))
      ensures DeepGet(Integrated(prio, data), q) == DeepGet(data, q)
    {
      IntegrateFieldsFrame(fs, data, PathOf(q));
    }
  }

  lemma PropNoInst(obj: Value, k: string)
    requires NoInst(obj)
    ensures NoInst(Prop(obj, k))
  {
    if obj.Obj? && k in Names(obj.fields) {
      var i :| 0 <= i < |obj.fields| && obj.fields[i] == (k, Prop(obj, k));
    }
  }

  lemma SetPropNoInst(obj: Value, k: string, v: Value)
    requires NoInst(obj) && NoInst(v)
    ensures NoInst(SetProp(obj, k, v))
  {
    if obj.Obj? {
      var r := Put(obj.fields, k, v);
      forall i | 0 <= i < |r| ensures NoInst(r[i].1) {
        assert r[i] in r;
        if r[i] != (k, v) {
          var j :| 0 <= j < |obj.fields| && obj.fields[j] == r[i];
        }
      }
    } else if obj.Arr? && IsArrayIndex(k) {
      var r := SetProp(obj, k, v).items;
      var n := DigitsValue(k);
      forall i | 0 <= i < |r| ensures NoInst(r[i]) {
        if i != n {
          assert i < |obj.items| ==> r[i] == obj.items[i];
        }
      }
    }
  }

  /** Writing values free of instance objects into an object free of them keeps it so. */
  lemma {:induction false} DeepPathNoInst(obj: Value, path: seq<string>, value: Value)
    requires |path| >= 1 && NoInst(obj) && NoInst(value)
    ensures NoInst(DeepPath(obj, path, value).1)
    decreases |path|
  {
    if Truthy(obj) && !value.Undef? {
      var cur := Prop(obj, path[0]);
      PropNoInst(obj, path[0]);
      if |path| > 1 {
        var child := if !Truthy(cur) then Obj([]) else cur;
        var sub := DeepPath(child, path[1..], value).1;
        assert DeepPath(obj, path, value).1 == SetProp(obj, path[0], sub);
        DeepPathNoInst(child, path[1..], value);
        SetPropNoInst(obj, path[0], sub);
      } else {
        assert DeepPath(obj, path, value).1 == SetProp(obj, path[0], value);
        SetPropNoInst(obj, path[0], value);
      }
    }
  }

  lemma {:induction false} IntegrateFieldsNoInst(fs: Fields, data: Value)
    requires NoInst(data) && forall i | 0 <= i < |fs| :: NoInst(fs[i].1)
    ensures NoInst(IntegrateFields(fs, data))
    decreases |fs|
  {
    if |fs| > 0 {
      DeepPathNoInst(data, PathOf(fs[0].0), fs[0].1);
      IntegrateFieldsNoInst(fs[1..], DeepValue(data, fs[0].0, fs[0].1).1);
    }
  }

  /*------------------------------------------ isSubset ------------------------------------------*/

  /** `typeof v === 'object'`: null, arrays and objects. */
  predicate TypeofObject(v: Value) { v.Null? || IsObjectOrArray(v) }

  /** Every property of `query` has the same value in `other` (objects compared by content). */
  predicate Subset(query: Value, other: Value)
  {
    forall i | 0 <= i < |EnumProps(query)| :: EnumProps(query)[i].1 == Prop(other, EnumProps(query)[i].0)
  }

  /**
   * `ccm.helper.isSubset`: values that are both of type object are compared
   * by their JSON text, all others with `!==`; both come down to equality of
   * values here.
   */
  method IsSubset(query: Value, other: Value) returns (b: bool)
    ensures b <==> Subset(query, other)
  {
    var fs := EnumProps(query);
    var i := 0;
    while i < |fs|
      invariant 0 <= i <= |fs|
      invariant forall j | 0 <= j < i :: fs[j].1 == Prop(other, fs[j].0)
    {
      var mine := fs[i].1;
      var theirs := Prop(other, fs[i].0);
      if TypeofObject(mine) && TypeofObject(theirs) {
        if mine != theirs { return false; }
      } else if mine != theirs {
        return false;
      }
      i := i + 1;
    }
    return true;
  }

  /** A query without properties (`{}`) is a subset of everything. */
  lemma EmptyQueryMatchesAll(other: Value)
    ensures Subset(Obj([]), other)
  {
  }

  /*------------------------------------------ filterProperties ------------------------------------------*/

  /** `result[p] = obj[p]` for each listed property in turn, starting from `acc`. */
  function FilterInto(obj: Value, props: seq<string>, acc: Fields): (r: Fields)
    requires Distinct(acc)
    ensures Distinct(r)
    ensures forall p | p in props :: Lookup(r, p) == Prop(obj, p)
    ensures forall n | n !in props :: Lookup(r, n) == Lookup(acc, n)
    ensures forall n | n in Names(r) :: n in props || n in Names(acc)
    decreases |props|
  {
    if |props| == 0 then acc
    else
      var next := Put(acc, props[0], Prop(obj, props[0]));
      PutDistinct(acc, props[0], Prop(obj, props[0]));
      forall j ensures Lookup(next, j) == if j == props[0] then Prop(obj, props[0]) else Lookup(acc, j) {
        LookupPut(acc, props[0], Prop(obj, props[0]), j);
      }
      var r := FilterInto(obj, props[1..], next);
      assert forall p | p in props && p != props[0] :: p in props[1..];
      assert forall n | n in Names(next) :: n == props[0] || n in Names(acc);
      r
  }

  /**
   * `ccm.helper.filterProperties(obj, ...props)`: a new object holding
   * exactly the listed properties with their values in `obj`, undefined
   * ones included.
   */
  function FilterProperties(obj: Value, props: seq<string>): (r: Value)
    ensures r.Obj? && Distinct(r.fields)
    ensures forall p | p in props :: Lookup(r.fields, p) == Prop(obj, p)
    ensures forall n | n in Names(r.fields) :: n in props
  {
    Obj(FilterInto(obj, props, []))
  }

  /*------------------------------------------ privatize ------------------------------------------*/

  /** Members `privatize` never touches. */
  const KeptMembers: set<string> :=
    {"childNodes", "component", "element", "id", "index", "init", "onFinish", "parent", "ready", "render"}

  /** `instance[key].parent.index`, for a child instance. */
  function ParentIndex(v: Value): Value
  {
    Prop(Prop(v, "parent"), "index")
  }

  /** A member `privatize` leaves on the instance: a kept name, or a child instance of this one. */
  predicate Protected(inst: Fields, key: string)
  {
    var v := Lookup(inst, key);
    key in KeptMembers ||
    (IsInstance(v) && Truthy(Prop(v, "parent")) && ParentIndex(v) == Lookup(inst, "index"))
  }

  /** One call of `privatizeProperty(key)`: the instance's members and the private object afterwards. */
  function PrivatizeStep(inst: Fields, priv: Fields, key: string): (Fields, Fields)
  {
    if Protected(inst, key) then (inst, priv)
    else
      var v := Lookup(inst, key);
      (Remove(inst, key), if !v.Undef? then Put(priv, key, v) else priv)
  }

  function PrivatizeAll(inst: Fields, priv: Fields, keys: seq<string>): (Fields, Fields)
    decreases |keys|
  {
    if |keys| == 0 then (inst, priv)
    else
      var s := PrivatizeStep(inst, priv, keys[0]);
      PrivatizeAll(s.0, s.1, keys[1..])
  }

  /** The members `privatize` visits: the names given, or every member when the first one is falsy. */
  function PrivatizeKeys(inst: Fields, names: seq<string>): seq<string>
  {
    if |names| > 0 && names[0] != "" then names else Names(inst)
  }

  /**
   * `ccm.helper.privatize(instance, ...names)`: moves the visited members
   * into a new object and deletes them from the instance. Returns the
   * instance's members afterwards and the new object.
   */
  method Privatize(inst: Fields, names: seq<string>) returns (kept: Fields, priv: Fields)
    ensures (kept, priv) == PrivatizeAll(inst, [], PrivatizeKeys(inst, names))
  {
    var keys := PrivatizeKeys(inst, names);
    kept, priv := inst, [];
    var i := 0;
    while i < |keys|
      invariant 0 <= i <= |keys|
      invariant PrivatizeAll(kept, priv, keys[i..]) == PrivatizeAll(inst, [], keys)
    {
      assert keys[i..][1..] == keys[i + 1..];
      var key := keys[i];
      if !Protected(kept, key) {
        var v := Lookup(kept, key);
        if !v.Undef? {
          priv := Put(priv, key, v);
        }
        kept := Remove(kept, key);
      }
      i := i + 1;
    }
  }

  /**
   * What `privatize` achieves, member by member: a visited member that is
   * not protected is gone from the instance and its value is in the new
   * object; a protected or unvisited member stays where it was and is not
   * in the new object.
   */
  lemma {:induction false} PrivatizeMoves(inst: Fields, priv: Fields, keys: seq<string>)
    requires Distinct(inst) && Distinct(priv)
    requires forall n | n in Names(priv) :: Lookup(inst, n) == Undef && !Protected(inst, n)
    ensures var r := PrivatizeAll(inst, priv, keys);
      Distinct(r.0) && Distinct(r.1) &&
      forall n ::
        if n in keys && !Protected(inst, n) then
          Lookup(r.0, n) == Undef && Lookup(r.1, n) == (if Lookup(inst, n).Undef? then Lookup(priv, n) else Lookup(inst, n))
        else
          Lookup(r.0, n) == Lookup(inst, n) && Lookup(r.1, n) == Lookup(priv, n)
    decreases |keys|
  {
    if |keys| > 0 {
      var key := keys[0];
      var s := PrivatizeStep(inst, priv, key);
      if !Protected(inst, key) {
        var v := Lookup(inst, key);
        forall j ensures Lookup(s.0, j) == (if j == key then Undef else Lookup(inst, j))
          && Distinct(s.0) && (j in Names(s.0) <==> j in Names(inst) && j != key)
        {
          LookupRemove(inst, key, j);
        }
        if !v.Undef? {
          PutDistinct(priv, key, v);
          forall j ensures Lookup(s.1, j) == (if j == key then v else Lookup(priv, j)) {
            LookupPut(priv, key, v, j);
          }
        }
        assert key != "index";
        forall n ensures Protected(s.0, n) == (n != key && Protected(inst, n)) {
        }
        forall n | n in Names(s.1) ensures Lookup(s.0, n) == Undef && !Protected(s.0, n) {
          if n != key {
            assert n in Names(priv);
          }
        }
      }
      PrivatizeMoves(s.0, s.1, keys[1..]);
      forall n | n in keys && n !in keys[1..] ensures n == key { }
    }
  }

  /** The instance-level statement of `PrivatizeMoves`, starting from an empty private object. */
  lemma PrivatizeResult(inst: Fields, names: seq<string>)
    requires Distinct(inst)
    ensures var keys := PrivatizeKeys(inst, names);
      var r := PrivatizeAll(inst, [], keys);
      forall n ::
        if n in keys && !Protected(inst, n) then Lookup(r.0, n) == Undef && Lookup(r.1, n) == Lookup(inst, n)
        else Lookup(r.0, n) == Lookup(inst, n) && Lookup(r.1, n) == Undef
  {
    PrivatizeMoves(inst, [], PrivatizeKeys(inst, names));
  }

  /*------------------------------------------ dataset keys ------------------------------------------*/

  predicate IsKeyStart(c: char) { 'a' <= c <= 'z' || c == '_' || '0' <= c <= '9' }

  predicate IsKeyChar(c: char) { IsKeyStart(c) || 'A' <= c <= 'Z' }

  /** The `key` pattern `^[a-z_0-9][a-zA-Z_0-9]*$`, one character at a time. */
  predicate IsValidKey(s: string)
  {
    |s| > 0 && IsKeyStart(s[0]) && forall i | 1 <= i < |s| :: IsKeyChar(s[i])
  }

  /** `regex('key').test(v)`: the test looks at the value's string form. */
  predicate KeyTest(v: Value)
  {
    IsValidKey(PropName(v))
  }

  /** A key with a character outside the pattern, such as '-' or '.', is refused. */
  lemma KeyRejects(s: string, i: int)
    requires 0 <= i < |s| && !IsKeyChar(s[i])
    ensures !IsValidKey(s)
  {
  }

  /**
   * `ccm.helper.generateKey`: the current time in milliseconds, an 'X' and
   * the text of a random number from its third character on
   * (`Math.random().toString().substr(2)`); both are parameters here.
   */
  function GenerateKey(now: nat, randomText: string): (k: string)
    ensures StartsWith(k, NatToString(now) + "X")
  {
    NatToString(now) + "X" + (if |randomText| >= 2 then randomText[2..] else "")
  }

  /**
   * A random number below 10^-6 is written in exponent notation, for
   * instance "1.5e-7"; the '-' it brings along makes the generated key fail
   * the key pattern.
   */
  lemma GeneratedKeyCanFail(now: nat)
    ensures !IsValidKey(GenerateKey(now, "1.5e-7"))
  {
    var k := GenerateKey(now, "1.5e-7");
    KeyRejects(k, |NatToString(now)| + 3);
  }

  /** The digits of a string, in order. */
  function DigitsOf(s: string): (d: string)
    ensures AllDigits(d)
  {
    if |s| == 0 then ""
    else if IsDigit(s[0]) then [s[0]] + DigitsOf(s[1..])
    else DigitsOf(s[1..])
  }

  /** `generateKey` keeping only the digits of the random part, so that every key it makes is valid. */
  function GenerateValidKey(now: nat, randomText: string): (k: string)
    ensures IsValidKey(k)
  {
    var t := NatToString(now);
    var k := t + "X" + DigitsOf(if |randomText| >= 2 then randomText[2..] else "");
    assert k[0] == t[0];
    k
  }

  /** On the usual rendering of a random number ("0." and digits) both generators give the same key. */
  lemma {:induction false} GeneratedKeysAgree(now: nat, randomText: string)
    requires |randomText| >= 2 && AllDigits(randomText[2..])
    ensures GenerateValidKey(now, randomText) == GenerateKey(now, randomText)
  {
    DigitsOfDigits(randomText[2..]);
  }

  lemma {:induction false} DigitsOfDigits(s: string)
    requires AllDigits(s)
    ensures DigitsOf(s) == s
    decreases |s|
  {
    if |s| > 0 {
      DigitsOfDigits(s[1..]);
    }
  }
}
