/**
 * The bookkeeping of `ccm.instance`: how a new instance object is
 * configured and numbered, the walk that finds the dependencies in its
 * configuration, and the counter and waitlist that decide when the whole
 * instance tree is complete.
 */
module Instances {
  import opened JsStrings
  import opened JsValues
  import opened Helpers
  import opened Registry
  import opened Lifecycle

  /*------------------------------------------ positions in a value ------------------------------------------*/

  /** `instance_or_array[key] = value` at a position; places that do not exist are left alone. */
  function SetAt(v: Value, pos: Position, x: Value): Value
    decreases |pos|
  {
    if |pos| == 0 then x
    else
      var i := pos[0];
      match v
      case Obj(fs) => if i < |fs| then Obj(fs[i := (fs[i].0, SetAt(fs[i].1, pos[1..], x))]) else v
      case Inst(o, fs) => if i < |fs| then Inst(o, fs[i := (fs[i].0, SetAt(fs[i].1, pos[1..], x))]) else v
      case Arr(items) => if i < |items| then Arr(items[i := SetAt(items[i], pos[1..], x)]) else v
      case _ => v
  }

  /** A position every step of which exists. */
  predicate Exists(v: Value, pos: Position)
    decreases |pos|
  {
    |pos| == 0 || (pos[0] < |EnumProps(v)| && Exists(EnumProps(v)[pos[0]].1, pos[1..]))
  }

  /** A value written at an existing position is read back there. */
  lemma {:induction false} AtSetAt(v: Value, pos: Position, x: Value)
    requires Exists(v, pos)
    ensures At(SetAt(v, pos, x), pos) == x
    decreases |pos|
  {
    if |pos| > 0 {
      AtSetAt(EnumProps(v)[pos[0]].1, pos[1..], x);
    }
  }

  /** Neither position lies inside the other. */
  predicate Apart(p: Position, q: Position)
  {
    exists k | 0 <= k < |p| && k < |q| :: p[k] != q[k] && p[..k] == q[..k]
  }

  /** Writing below property `p[0]` changes that property's value and no other property. */
  lemma EnumSetAt(v: Value, p: Position, x: Value)
    requires |p| > 0
    ensures |EnumProps(SetAt(v, p, x))| == |EnumProps(v)|
    ensures forall j | 0 <= j < |EnumProps(v)| && j != p[0] :: EnumProps(SetAt(v, p, x))[j] == EnumProps(v)[j]
    ensures p[0] < |EnumProps(v)| ==> EnumProps(SetAt(v, p, x))[p[0]].1 == SetAt(EnumProps(v)[p[0]].1, p[1..], x)
  {
  }

  /** Writing at one position leaves every position apart from it unchanged. */
  lemma {:induction false} SetAtOther(v: Value, p: Position, q: Position, x: Value)
    requires Apart(p, q)
    ensures At(SetAt(v, p, x), q) == At(v, q)
    decreases |p|
  {
    var k :| 0 <= k < |p| && k < |q| && p[k] != q[k] && p[..k] == q[..k];
    EnumSetAt(v, p, x);
    if k > 0 {
      assert p[0] == q[0] by {
        assert p[..k][0] == q[..k][0];
      }
      assert Apart(p[1..], q[1..]) by {
        assert p[1..][k - 1] != q[1..][k - 1];
        assert p[1..][..k - 1] == p[..k][1..];
        assert q[1..][..k - 1] == q[..k][1..];
      }
      if p[0] < |EnumProps(v)| {
        SetAtOther(EnumProps(v)[p[0]].1, p[1..], q[1..], x);
      }
    }
  }

  /*------------------------------------------ solveDependencies ------------------------------------------*/

  /** A dependency descriptor found in a configuration, and where it sits. */
  datatype Dependency = Dependency(pos: Position, tag: Tag, action: Value)

  /** The dependency `action` found at `pos`, with the operation its head names. */
  function Found(pos: Position, action: Value): (d: Dependency)
    requires IsDependency(action)
    ensures d.pos == pos && d.action == action && DependencyTag(action) == Some(d.tag)
  {
    Dependency(pos, DependencyTag(action).value, action)
  }

  /** Values the walk does not enter although they are objects. */
  predicate Skipped(v: Value)
  {
    IsNode(v) || IsInstance(v) || IsComponent(v)
  }

  /** Every step strictly inside a position passes through an object or array the walk enters. */
  predicate Entered(v: Value, pos: Position)
    decreases |pos|
  {
    |pos| <= 1 ||
    (pos[0] < |EnumProps(v)| &&
     var c := EnumProps(v)[pos[0]].1;
     IsObjectOrArray(c) && !Skipped(c) && !IsDependency(c) && Entered(c, pos[1..]))
  }

  function Prefixed(i: nat, deps: seq<Dependency>): (r: seq<Dependency>)
    ensures |r| == |deps| && forall j | 0 <= j < |deps| :: r[j] == deps[j].(pos := [i] + deps[j].pos)
  {
    seq(|deps|, j requires 0 <= j < |deps| => deps[j].(pos := [i] + deps[j].pos))
  }

  /**
   * `solveDependencies(instance_or_array)`: the dependencies among the
   * enumerated properties, in enumeration order; objects and arrays that
   * are not DOM nodes, instances or components are searched in place.
   * Every dependency found is where the walk says, and the walk never
   * passes through a node, an instance, a component or another dependency.
   */
  function Walk(v: Value): (deps: seq<Dependency>)
    ensures forall d | d in deps :: DependencyTag(d.action) == Some(d.tag) && |d.pos| >= 1 && At(v, d.pos) == d.action && Entered(v, d.pos)
    decreases v, 1
  {
    WalkFrom(v, EnumProps(v), 0)
  }

  function WalkFrom(ghost parent: Value, fs: Fields, start: nat): (deps: seq<Dependency>)
    requires fs == EnumProps(parent)
    ensures forall d | d in deps ::
      DependencyTag(d.action) == Some(d.tag) && |d.pos| >= 1 && start <= d.pos[0] < |fs| &&
      At(fs[d.pos[0]].1, d.pos[1..]) == d.action &&
      (|d.pos| > 1 ==>
        IsObjectOrArray(fs[d.pos[0]].1) && !Skipped(fs[d.pos[0]].1) && !IsDependency(fs[d.pos[0]].1) &&
        Entered(fs[d.pos[0]].1, d.pos[1..]))
    decreases parent, 0, |fs| - start
  {
    if start >= |fs| then []
    else
      var value := fs[start].1;
      EnumSmallerAt(parent, start);
      var rest := WalkFrom(parent, fs, start + 1);
      if IsDependency(value) then [Found([start], value)] + rest
      else if IsObjectOrArray(value) && !Skipped(value) then
        var inner := Walk(value);
        var here := Prefixed(start, inner);
        assert forall j | 0 <= j < |here| :: here[j].pos[1..] == inner[j].pos && inner[j] in inner;
        here + rest
      else rest
  }

  /**
   * The walk misses nothing: a dependency reached through objects and
   * arrays the walk enters is reported with its position.
   */
  lemma {:induction false} WalkFinds(v: Value, pos: Position)
    requires |pos| >= 1 && Exists(v, pos) && Entered(v, pos) && IsDependency(At(v, pos))
    ensures Found(pos, At(v, pos)) in Walk(v)
    decreases v
  {
    var fs := EnumProps(v);
    var i := pos[0];
    var child := fs[i].1;
    if |pos| > 1 {
      EnumSmallerAt(v, i);
      WalkFinds(child, pos[1..]);
      var inner := Walk(child);
      var j :| 0 <= j < |inner| && inner[j] == Found(pos[1..], At(child, pos[1..]));
      assert [i] + pos[1..] == pos;
      assert Prefixed(i, inner)[j] == Found(pos, At(v, pos));
      WalkFromHead(v, fs, i, Prefixed(i, inner), Found(pos, At(v, pos)));
      WalkFromSuffix(v, fs, 0, i);
      SuffixHas(WalkFrom(v, fs, i), WalkFrom(v, fs, 0), Found(pos, At(v, pos)));
    } else {
      assert pos == [i];
      assert At(v, pos) == At(child, pos[1..]) == child;
      WalkFromHead(v, fs, i, [Found([i], child)], Found(pos, At(v, pos)));
      WalkFromSuffix(v, fs, 0, i);
      SuffixHas(WalkFrom(v, fs, i), WalkFrom(v, fs, 0), Found(pos, At(v, pos)));
    }
  }

  /** `b` ends `a`. */
  predicate IsSuffix(b: seq<Dependency>, a: seq<Dependency>)
  {
    |b| <= |a| && a[|a| - |b|..] == b
  }

  lemma SuffixTrans(c: seq<Dependency>, b: seq<Dependency>, a: seq<Dependency>)
    requires IsSuffix(c, b) && IsSuffix(b, a)
    ensures IsSuffix(c, a)
  {
    assert a[|a| - |c|..] == a[|a| - |b|..][|b| - |c|..];
  }

  lemma SuffixHas(b: seq<Dependency>, a: seq<Dependency>, x: Dependency)
    requires IsSuffix(b, a) && x in b
    ensures x in a
  {
    var k :| 0 <= k < |b| && b[k] == x;
    assert a[|a| - |b| + k] == x;
  }

  /** The walk from property `i` on ends the walk from any earlier property on. */
  lemma {:induction false} WalkFromSuffix(parent: Value, fs: Fields, start: nat, i: nat)
    requires fs == EnumProps(parent)
    requires start <= i < |fs|
    ensures IsSuffix(WalkFrom(parent, fs, i), WalkFrom(parent, fs, start))
    decreases i - start
  {
    var tail := WalkFrom(parent, fs, i);
    if start == i {
      assert tail[0..] == tail;
    } else {
      var mid := WalkFrom(parent, fs, start + 1);
      var all := WalkFrom(parent, fs, start);
      WalkFromSuffix(parent, fs, start + 1, i);
      WalkFromTail(parent, fs, start);
      SuffixTrans(tail, mid, all);
    }
  }

  /** The walk from property `start` on ends with the walk from the next property on. */
  lemma WalkFromTail(parent: Value, fs: Fields, start: nat)
    requires fs == EnumProps(parent)
    requires start < |fs|
    ensures IsSuffix(WalkFrom(parent, fs, start + 1), WalkFrom(parent, fs, start))
  {
    var rest := WalkFrom(parent, fs, start + 1);
    var all := WalkFrom(parent, fs, start);
    assert all[|all| - |rest|..] == rest;
  }

  /** The walk from property `i` on begins with what property `i` itself yields. */
  lemma WalkFromHead(parent: Value, fs: Fields, i: nat, here: seq<Dependency>, d: Dependency)
    requires fs == EnumProps(parent)
    requires i < |fs| && d in here
    requires IsDependency(fs[i].1) ==> here == [Found([i], fs[i].1)]
    requires !IsDependency(fs[i].1) ==> IsObjectOrArray(fs[i].1) && !Skipped(fs[i].1) && here == Prefixed(i, Walk(fs[i].1))
    ensures d in WalkFrom(parent, fs, i)
  {
  }


  /*------------------------------------------ a new instance ------------------------------------------*/

  /** `isElementNode(cfg)`: an element node alone stands for `{element: node}`. */
  function ElementConfig(cfg: Value): (r: Value)
    ensures cfg.Dom? ==> IsRecord(r) && Prop(r, "element") == cfg
    ensures !cfg.Dom? ==> r == cfg
  {
    if cfg.Dom? then Obj([("element", cfg)]) else cfg
  }

  /** The instance object as its constructor leaves it, with `parent` set when there is one. */
  function Fresh(ctor: Fields, parent: Value): (r: Value)
    ensures r.Obj?
  {
    if Truthy(parent) then Obj(Put(ctor, "parent", parent)) else Obj(ctor)
  }

  /** `if (parent) instance.parent = parent`: the constructor's properties, and the parent when there is one. */
  lemma FreshParent(ctor: Fields, parent: Value, k: string)
    ensures Prop(Fresh(ctor, parent), k) == if k == "parent" && Truthy(parent) then parent else Lookup(ctor, k)
  {
    LookupPut(ctor, "parent", parent, k);
  }

  /** The instance after the default configuration: a copy of the component's `config` integrated into it. */
  function Defaulted(ctor: Fields, defaults: Value, parent: Value): (r: Value)
    ensures IsRecord(r)
  {
    Integrated(Clone(defaults), Fresh(ctor, parent))
  }

  /** The instance after its own configuration, integrated second. */
  function Configured(ctor: Fields, defaults: Value, cfg: Value, parent: Value): (r: Value)
    ensures IsRecord(r)
  {
    var d := Defaulted(ctor, defaults, parent);
    var c := ElementConfig(cfg);
    if Truthy(c) then Integrated(c, d) else d
  }

  /** The names `proceed` sets last, over any configuration. */
  predicate IsStamp(k: string)
  {
    k == "id" || k == "index" || k == "component"
  }

  /** The index of the `id`-th instance of the component `key`. */
  function InstanceIndex(key: string, id: nat): string
  {
    key + "-" + NatToString(id)
  }

  /** `id`, `index` and `component` written over the properties of a configured instance. */
  function Stamped(fs: Fields, key: string, id: nat): Fields
  {
    Put(Put(Put(fs, "id", Num(id)), "index", Str(InstanceIndex(key, id))), "component", Comp(key))
  }

  /** What the stamped properties read. */
  lemma StampedReads(fs: Fields, key: string, id: nat, k: string)
    ensures Lookup(Stamped(fs, key, id), k) ==
      if k == "component" then Comp(key)
      else if k == "index" then Str(InstanceIndex(key, id))
      else if k == "id" then Num(id)
      else Lookup(fs, k)
  {
    var f1 := Put(fs, "id", Num(id));
    var f2 := Put(f1, "index", Str(InstanceIndex(key, id)));
    LookupPut(fs, "id", Num(id), k);
    LookupPut(f1, "index", Str(InstanceIndex(key, id)), k);
    LookupPut(f2, "component", Comp(key), k);
  }

  /**
   * `proceed(cfg)`: a new instance object of the component registered under
   * `key`, whose counter already counts it. The default configuration
   * is integrated first and the instance configuration second; then `id`
   * is the counter, `index` is the component index, '-' and the id, and
   * `component` is the registered component.
   */
  function Created(oid: nat, ctor: Fields, key: string, c: Component, cfg: Value, parent: Value): (inst: Value)
    ensures inst.Inst? && inst.oid == oid
  {
    Inst(oid, Stamped(PropsOf(Configured(ctor, c.config, cfg, parent)), key, c.instances))
  }

  /** The three properties `proceed` sets last: the id is the component's counter. */
  lemma CreatedStamps(oid: nat, ctor: Fields, key: string, c: Component, cfg: Value, parent: Value)
    ensures var inst := Created(oid, ctor, key, c, cfg, parent);
      Prop(inst, "id") == Num(c.instances) &&
      Prop(inst, "index") == Str(InstanceIndex(key, c.instances)) &&
      Prop(inst, "component") == Comp(key)
  {
    var fs := PropsOf(Configured(ctor, c.config, cfg, parent));
    var inst := Created(oid, ctor, key, c, cfg, parent);
    assert IsRecord(inst) && PropsOf(inst) == Stamped(fs, key, c.instances);
    StampedStamps(fs, key, c.instances);
  }

  /** The stamped properties hold the id, the index and the component. */
  lemma StampedStamps(fs: Fields, key: string, id: nat)
    ensures Lookup(Stamped(fs, key, id), "id") == Num(id)
    ensures Lookup(Stamped(fs, key, id), "index") == Str(InstanceIndex(key, id))
    ensures Lookup(Stamped(fs, key, id), "component") == Comp(key)
  {
    StampedReads(fs, key, id, "id");
    StampedReads(fs, key, id, "index");
    StampedReads(fs, key, id, "component");
  }

  /** Apart from `id`, `index` and `component`, a created instance has the properties its configuration gave it. */
  lemma CreatedKeeps(oid: nat, ctor: Fields, key: string, c: Component, cfg: Value, parent: Value, k: string)
    requires !IsStamp(k)
    ensures Prop(Created(oid, ctor, key, c, cfg, parent), k) == Prop(Configured(ctor, c.config, cfg, parent), k)
  {
    StampedReads(PropsOf(Configured(ctor, c.config, cfg, parent)), key, c.instances, k);
  }

  /** A created instance is an instance and not a lazy placeholder. */
  lemma CreatedIsInstance(oid: nat, ctor: Fields, key: string, c: Component, cfg: Value, parent: Value)
    ensures IsInstance(Created(oid, ctor, key, c, cfg, parent)) && !IsProxy(Created(oid, ctor, key, c, cfg, parent))
  {
    CreatedStamps(oid, ctor, key, c, cfg, parent);
  }

  /** Two records with the same properties read the same along every path. */
  lemma SameProps(a: Value, b: Value, q: seq<string>)
    requires IsRecord(a) && IsRecord(b) && |q| >= 1
    requires forall k :: Prop(a, k) == Prop(b, k)
    ensures DeepPath(a, q, Undef).0 == DeepPath(b, q, Undef).0
  {
    assert Prop(a, q[0]) == Prop(b, q[0]);
  }

  /** Reading a created instance along a path that does not start with `id`, `index` or `component`. */
  lemma CreatedReads(oid: nat, ctor: Fields, key: string, c: Component, cfg: Value, parent: Value, q: string)
    requires !IsStamp(Head(q))
    ensures DeepGet(Created(oid, ctor, key, c, cfg, parent), q) == DeepGet(Configured(ctor, c.config, cfg, parent), q)
  {
    var conf := Configured(ctor, c.config, cfg, parent);
    var inst := Created(oid, ctor, key, c, cfg, parent);
    var p := PathOf(q);
    CreatedKeeps(oid, ctor, key, c, cfg, parent, p[0]);
  }

  /**
   * The instance configuration wins: every defined property it gives (other
   * than the ones `proceed` sets last) can be read back from the instance by
   * its dot path, whatever the component's default configuration said.
   */
  lemma InstanceConfigWins(oid: nat, ctor: Fields, key: string, c: Component, cfg: Value, parent: Value)
    requires IsRecord(cfg)
    requires PrefixFree(PropsOf(cfg)) && AllSettable(PropsOf(cfg), Defaulted(ctor, c.config, parent))
    requires forall i | 0 <= i < |PropsOf(cfg)| && !PropsOf(cfg)[i].1.Undef? :: !IsStamp(Head(PropsOf(cfg)[i].0))
    ensures forall i | 0 <= i < |PropsOf(cfg)| && !PropsOf(cfg)[i].1.Undef? ::
      DeepGet(Created(oid, ctor, key, c, cfg, parent), PropsOf(cfg)[i].0) == PropsOf(cfg)[i].1
  {
    var fs := PropsOf(cfg);
    PriorityWins(cfg, Defaulted(ctor, c.config, parent));
    forall i | 0 <= i < |fs| && !fs[i].1.Undef?
      ensures DeepGet(Created(oid, ctor, key, c, cfg, parent), fs[i].0) == fs[i].1
    {
      CreatedReads(oid, ctor, key, c, cfg, parent, fs[i].0);
    }
  }

  /**
   * The default configuration applies where the instance configuration is
   * silent: a path that no path the instance configuration sets leads into
   * or continues reads as after the defaults alone.
   */
  lemma DefaultsApply(oid: nat, ctor: Fields, key: string, c: Component, cfg: Value, parent: Value, q: string)
    requires IsRecord(cfg) || !Truthy(cfg)
    requires !IsStamp(Head(q))
    requires Untouched(PropsOf(cfg), PathOf(q))
    ensures DeepGet(Created(oid, ctor, key, c, cfg, parent), q) == DeepGet(Defaulted(ctor, c.config, parent), q)
  {
    CreatedReads(oid, ctor, key, c, cfg, parent, q);
    ConfiguredDefaults(ctor, c.config, cfg, parent, q);
  }

  /** `DefaultsApply` before the stamps: the configured instance reads as the defaulted one off the configuration's paths. */
  lemma ConfiguredDefaults(ctor: Fields, defaults: Value, cfg: Value, parent: Value, q: string)
    requires IsRecord(cfg) || !Truthy(cfg)
    requires Untouched(PropsOf(cfg), PathOf(q))
    ensures DeepGet(Configured(ctor, defaults, cfg, parent), q) == DeepGet(Defaulted(ctor, defaults, parent), q)
  {
    var d := Defaulted(ctor, defaults, parent);
    if Truthy(cfg) {
      assert Configured(ctor, defaults, cfg, parent) == IntegrateFields(EnumProps(cfg), d);
      IntegrateFieldsFrame(EnumProps(cfg), d, PathOf(q));
    }
  }

  /*------------------------------------------ the engine ------------------------------------------*/

  /** A nested instantiation waiting its turn: component, configuration, the place for it, its parent. */
  datatype Job = Job(comp: Value, cfg: Value, slot: Position, parent: Value)

  /** What a step of the engine leads to. */
  datatype Status =
    | Waiting              // dependencies are still loading
    | Next(job: Job)       // the next nested instance is to be created now
    | Done(result: Value)  // everything is solved: `initialize` runs and the callback gets the result

  /** The lazy-instance placeholder `proxy` puts where a `ccm.proxy` dependency was. */
  function Placeholder(comp: Value, parent: Value): Value
  {
    Obj([("component", comp), ("parent", parent), ("render", Fn(ProxyRender))])
  }

  /** The placeholder counts as a lazy instance exactly when its component is given as a URL. */
  lemma PlaceholderIsProxy(comp: Value, parent: Value)
    ensures IsProxy(Placeholder(comp, parent)) <==> comp.Str? && comp.s != ""
  {
  }

  /** The dependencies whose result arrives later and is counted: load, component, store and dataset. */
  predicate Counted(d: Dependency)
  {
    d.tag == LoadTag || d.tag == ComponentTag || d.tag == StoreTag || d.tag == DatasetTag
  }

  /** `ccm.instance` dependencies, which wait on the waitlist. */
  predicate Nested(d: Dependency)
  {
    d.tag == InstanceTag
  }

  /** The places of the first `n` counted dependencies, relative to `base`: what `setResult` will fill in. */
  function Slots(deps: seq<Dependency>, n: nat, base: Position): (slots: multiset<Position>)
    requires n <= |deps|
  {
    if n == 0 then multiset{}
    else
      var d := deps[n - 1];
      Slots(deps, n - 1, base) + if Counted(d) then multiset{base + d.pos} else multiset{}
  }

  /** The waitlist entries for the `ccm.instance` dependencies among the first `n`, in order. */
  function Jobs(deps: seq<Dependency>, n: nat, base: Position, parent: Value): (jobs: seq<Job>)
    requires n <= |deps|
  {
    if n == 0 then []
    else
      var d := deps[n - 1];
      Jobs(deps, n - 1, base, parent) +
        if Nested(d) then [Job(Arg(d.action, 1), Arg(d.action, 2), base + d.pos, parent)] else []
  }

  /** The tree with each of the first `n` `ccm.proxy` dependencies replaced by its placeholder. */
  function Proxied(deps: seq<Dependency>, n: nat, base: Position, parent: Value, tree: Value): (r: Value)
    requires n <= |deps|
  {
    if n == 0 then tree
    else
      var d := deps[n - 1];
      var t := Proxied(deps, n - 1, base, parent, tree);
      if d.tag == ProxyTag then SetAt(t, base + d.pos, Placeholder(Arg(d.action, 1), parent)) else t
  }

  /**
   * The loop of `solveDependencies` over the dependencies found: counted
   * ones give the places waiting for a result, `ccm.instance` ones the
   * waitlist entries, `ccm.proxy` ones a placeholder in the tree.
   */
  method Solve(deps: seq<Dependency>, base: Position, parent: Value, tree: Value)
    returns (slots: multiset<Position>, jobs: seq<Job>, t: Value)
    ensures slots == Slots(deps, |deps|, base)
    ensures jobs == Jobs(deps, |deps|, base, parent)
    ensures t == Proxied(deps, |deps|, base, parent, tree)
  {
    slots, jobs, t := multiset{}, [], tree;
    var i := 0;
    while i < |deps|
      invariant 0 <= i <= |deps|
      invariant slots == Slots(deps, i, base)
      invariant jobs == Jobs(deps, i, base, parent)
      invariant t == Proxied(deps, i, base, parent, tree)
    {
      var d := deps[i];
      var slot := base + d.pos;
      SolveStep(deps, i, base, parent, tree);
      if Counted(d) {
        slots := slots + multiset{slot};
      } else if Nested(d) {
        jobs := jobs + [Job(Arg(d.action, 1), Arg(d.action, 2), slot, parent)];
      } else if d.tag == ProxyTag {
        t := SetAt(t, slot, Placeholder(Arg(d.action, 1), parent));
      }
      i := i + 1;
    }
  }

  /** What dependency `i` adds to the slots, the waitlist entries and the placeholders of those before it. */
  lemma SolveStep(deps: seq<Dependency>, i: nat, base: Position, parent: Value, tree: Value)
    requires i < |deps|
    ensures var d := deps[i];
      Slots(deps, i + 1, base) == Slots(deps, i, base) + (if Counted(d) then multiset{base + d.pos} else multiset{}) &&
      Jobs(deps, i + 1, base, parent) == Jobs(deps, i, base, parent) +
        (if Nested(d) then [Job(Arg(d.action, 1), Arg(d.action, 2), base + d.pos, parent)] else []) &&
      Proxied(deps, i + 1, base, parent, tree) ==
        (var t := Proxied(deps, i, base, parent, tree);
         if d.tag == ProxyTag then SetAt(t, base + d.pos, Placeholder(Arg(d.action, 1), parent)) else t)
  {
  }

  /** A place waits for a result exactly when a counted dependency sits there. */
  lemma {:induction false} SlotsAreCounted(deps: seq<Dependency>, n: nat, base: Position, slot: Position)
    requires n <= |deps|
    ensures slot in Slots(deps, n, base) <==> exists i | 0 <= i < n :: Counted(deps[i]) && slot == base + deps[i].pos
  {
    if n > 0 {
      SlotsAreCounted(deps, n - 1, base, slot);
    }
  }

  /** The positions among the first `n` dependencies that are `ccm.instance` ones, in order. */
  function NestedAt(deps: seq<Dependency>, n: nat): (r: seq<nat>)
    requires n <= |deps|
    ensures forall j | 0 <= j < |r| :: r[j] < n && Nested(deps[r[j]])
  {
    if n == 0 then []
    else NestedAt(deps, n - 1) + if Nested(deps[n - 1]) then [n - 1] else []
  }

  /**
   * The waitlist keeps breadth-first order: the nested instantiations of
   * an instance join it in the order the walk found them, each with the
   * component, configuration and place of its descriptor.
   */
  lemma {:induction false} JobsInWalkOrder(deps: seq<Dependency>, n: nat, base: Position, parent: Value)
    requires n <= |deps|
    ensures |Jobs(deps, n, base, parent)| == |NestedAt(deps, n)|
    ensures forall j | 0 <= j < |NestedAt(deps, n)| ::
      var d := deps[NestedAt(deps, n)[j]];
      Jobs(deps, n, base, parent)[j] == Job(Arg(d.action, 1), Arg(d.action, 2), base + d.pos, parent)
  {
    if n > 0 {
      JobsInWalkOrder(deps, n - 1, base, parent);
    }
  }

  /**
   * `prev_cfg[prev_key] = instance` and `if (!result) result = instance`:
   * the instance goes to its place, and the first one becomes the result.
   */
  function Placed(tree: Value, slot: Option<Position>, inst: Value): Value
  {
    var t := if slot.Some? then SetAt(tree, slot.value, inst) else tree;
    if Truthy(t) then t else inst
  }

  /** A placed instance is found at its place; without a place it becomes the result unless there is one. */
  lemma PlacedAt(tree: Value, slot: Option<Position>, inst: Value)
    requires inst.Inst?
    ensures slot.Some? && Exists(tree, slot.value) ==> At(Placed(tree, slot, inst), slot.value) == inst
    ensures slot.None? ==> Placed(tree, slot, inst) == if Truthy(tree) then tree else inst
  {
    if slot.Some? && Exists(tree, slot.value) {
      AtSetAt(tree, slot.value, inst);
      SetAtTruthy(tree, slot.value, inst);
    }
  }

  /** Writing a truthy value into an existing place keeps the whole truthy. */
  lemma SetAtTruthy(v: Value, pos: Position, x: Value)
    requires Exists(v, pos) && Truthy(x)
    ensures Truthy(SetAt(v, pos, x))
  {
    if |pos| > 0 {
      assert EnumProps(v) != [];
    }
  }

  /** The place of a nested instance, under which its own dependencies sit; the result instance is at the root. */
  function Base(slot: Option<Position>): Position
  {
    if slot.Some? then slot.value else []
  }

  /** The reference a nested instance or placeholder keeps to its parent instance. */
  function RefOf(inst: Value): Value
  {
    match inst
    case Inst(o, fs) => Ref(o, PropName(Lookup(fs, "index")))
    case _ => Undef
  }

  /**
   * One call of `ccm.instance`: the counter of loading resources, the
   * waitlist of nested instantiations, the places that wait for a result,
   * and the result instance with everything solved so far.
   */
  class Engine {
    const registry: Components
    var counter: int
    var waiter: seq<Job>
    var outstanding: multiset<Position>
    var tree: Value
    /** The identity the next instance object gets. */
    var nextOid: nat

    /** Every counted resource still loading has a place waiting for it. */
    predicate Valid()
      reads this
    {
      counter == |outstanding|
    }

    constructor (registry: Components, firstOid: nat)
      ensures Valid() && this.registry == registry
      ensures counter == 0 && waiter == [] && outstanding == multiset{} && tree == Undef && nextOid == firstOid
    {
      this.registry := registry;
      counter := 0;
      waiter := [];
      outstanding := multiset{};
      tree := Undef;
      nextOid := firstOid;
    }

    /**
     * `check()`: one resource less is loading; at 0 the next nested
     * instantiation is taken from the front of the waitlist, and with an
     * empty waitlist the result is complete.
     */
    method Check() returns (status: Status)
      modifies this
      ensures counter == old(counter) - 1
      ensures outstanding == old(outstanding) && tree == old(tree) && nextOid == old(nextOid)
      ensures counter != 0 ==> status == Waiting && waiter == old(waiter)
      ensures counter == 0 && old(waiter) != [] ==> status == Next(old(waiter)[0]) && waiter == old(waiter)[1..]
      ensures counter == 0 && old(waiter) == [] ==> status == Done(tree) && waiter == []
    {
      counter := counter - 1;
      if counter != 0 {
        return Waiting;
      }
      if |waiter| > 0 {
        status := Next(waiter[0]);
        waiter := waiter[1..];
      } else {
        status := Done(tree);
      }
    }

    /**
     * The `switch` of `solveDependency` over the dependencies of a new
     * instance, in walk order: counted ones raise the counter and wait for
     * their result, `ccm.instance` ones join the waitlist, `ccm.proxy` ones
     * are replaced by a placeholder. The loop collects the effects and
     * they are applied together at its end.
     */
    method SolveDependencies(deps: seq<Dependency>, base: Position, parent: Value)
      modifies this
      ensures outstanding == old(outstanding) + Slots(deps, |deps|, base)
      ensures counter == old(counter) + |Slots(deps, |deps|, base)|
      ensures waiter == old(waiter) + Jobs(deps, |deps|, base, parent)
      ensures tree == Proxied(deps, |deps|, base, parent, old(tree))
      ensures nextOid == old(nextOid)
    {
      var slots, jobs, t := Solve(deps, base, parent, tree);
      counter := counter + |slots|;
      outstanding := outstanding + slots;
      waiter := waiter + jobs;
      tree := t;
    }

    /**
     * The new instance counted, created and put in its place (or made the
     * result when there is none yet); `nextOid` moves on.
     */
    method Place(key: string, ctor: Fields, cfg: Value, slot: Option<Position>, parent: Value) returns (inst: Value)
      requires key in registry.components
      modifies this, registry
      ensures key in registry.components
      ensures registry.components == old(registry.components)[key := registry.components[key]]
      ensures registry.components[key] == old(registry.components[key]).(instances := old(registry.components[key].instances) + 1)
      ensures inst == Created(old(nextOid), ctor, key, registry.components[key], cfg, parent)
      ensures tree == Placed(old(tree), slot, inst)
      ensures counter == old(counter) + 1 && nextOid == old(nextOid) + 1
      ensures waiter == old(waiter) && outstanding == old(outstanding)
    {
      counter := counter + 1;
      var id := registry.CountInstance(key);
      inst := Created(nextOid, ctor, key, registry.components[key], cfg, parent);
      nextOid := nextOid + 1;
      tree := Placed(tree, slot, inst);
    }

    /**
     * `recursive(comp, cfg, prev_cfg, prev_key, parent)` once the component
     * is registered under `key` and the configuration is at hand: the
     * instance is created and placed, its dependencies are solved, and
     * `check()` decides what comes next. Nothing is done before every
     * counted dependency has arrived and the waitlist is empty.
     */
    method Recursive(key: string, ctor: Fields, cfg: Value, slot: Option<Position>, parent: Value) returns (inst: Value, status: Status)
      requires Valid() && key in registry.components
      modifies this, registry
      ensures Valid() && key in registry.components
      ensures registry.components == old(registry.components)[key := registry.components[key]]
      ensures registry.components[key] == old(registry.components[key]).(instances := old(registry.components[key].instances) + 1)
      ensures inst == Created(old(nextOid), ctor, key, registry.components[key], cfg, parent)
      ensures nextOid == old(nextOid) + 1
      ensures var deps := Walk(inst);
        outstanding == old(outstanding) + Slots(deps, |deps|, Base(slot)) &&
        tree == Proxied(deps, |deps|, Base(slot), RefOf(inst), Placed(old(tree), slot, inst))
      ensures var deps := Walk(inst);
        var queue := old(waiter) + Jobs(deps, |deps|, Base(slot), RefOf(inst));
        (status.Waiting? <==> counter != 0) &&
        (status.Waiting? ==> waiter == queue) &&
        (status.Next? ==> |queue| > 0 && status.job == queue[0] && waiter == queue[1..]) &&
        (status.Done? ==> queue == [] && waiter == [] && outstanding == multiset{} && status.result == tree)
    {
      inst := Place(key, ctor, cfg, slot, parent);
      SolveDependencies(Walk(inst), Base(slot), RefOf(inst));
      status := Check();
    }

    /**
     * `setResult(result)`: a counted dependency has arrived; it replaces the
     * descriptor at its place, and `check()` decides what comes next.
     */
    method Settle(slot: Position, result: Value) returns (status: Status)
      requires Valid() && slot in outstanding
      modifies this
      ensures Valid()
      ensures outstanding == old(outstanding) - multiset{slot}
      ensures tree == SetAt(old(tree), slot, result) && nextOid == old(nextOid)
      ensures counter != 0 ==> status == Waiting && waiter == old(waiter)
      ensures counter == 0 && old(waiter) != [] ==> status == Next(old(waiter)[0]) && waiter == old(waiter)[1..]
      ensures counter == 0 && old(waiter) == [] ==> status == Done(tree) && waiter == [] && outstanding == multiset{}
    {
      tree := SetAt(tree, slot, result);
      outstanding := outstanding - multiset{slot};
      status := Check();
    }
  }
}
