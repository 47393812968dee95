/**
 * The JavaScript values the framework works on. Plain objects keep their
 * properties as a list of name/value pairs in the order `for ... in` visits
 * them (array-index names ascending, then the others in insertion order);
 * objects with an identity that the framework creates (instances, datastores,
 * components) and DOM nodes get constructors of their own.
 */
module JsValues {
  import opened JsStrings

  datatype Option<T> = None | Some(value: T)

  /** Functions that can occur as values: the framework's own entry points and any other function. */
  datatype Func =
    | CcmLoad | CcmComponent | CcmInstance | CcmProxy | CcmRender | CcmStore | CcmDataset
    | ProxyRender          // the deferred `render` of a lazy-instance placeholder
    | Callback(id: nat)    // any other function (hooks, callbacks), told apart by identity

  type Fields = seq<(string, Value)>

  datatype Value =
    | Undef
    | Null
    | Bool(b: bool)
    | Num(n: int)
    | Str(s: string)
    | Arr(items: seq<Value>)
    | Obj(fields: Fields)
    | Fn(f: Func)
    | Dom(node: nat)                      // an HTML element node, kept by reference
    | Inst(oid: nat, fields: Fields)      // a ccm instance object with its own properties
    | Ref(oid: nat, index: string)        // a reference to an instance that is owned elsewhere (the parent edge)
    | Store(oid: nat, initPending: bool)  // a ccm datastore; initPending: its `init` has not run yet
    | Comp(index: string)                 // a registered component object

  /*------------------------------------------ property lists ------------------------------------------*/

  function Names(fs: Fields): (ns: seq<string>)
    ensures |ns| == |fs| && forall i | 0 <= i < |fs| :: ns[i] == fs[i].0
  {
    seq(|fs|, i requires 0 <= i < |fs| => fs[i].0)
  }

  /** No property name occurs twice, as in every JavaScript object. */
  predicate Distinct(fs: Fields)
  {
    forall i, j | 0 <= i < j < |fs| :: fs[i].0 != fs[j].0
  }

  lemma NamesCons(p: (string, Value), fs: Fields)
    ensures Names([p] + fs) == [p.0] + Names(fs)
  {
  }

  /** `obj[k]` on a property list: undefined for a missing property. */
  function Lookup(fs: Fields, k: string): (r: Value)
    ensures k !in Names(fs) ==> r == Undef
    ensures k in Names(fs) ==> (k, r) in fs
    decreases |fs|
  {
    if |fs| == 0 then Undef
    else
      assert fs == [fs[0]] + fs[1..];
      NamesCons(fs[0], fs[1..]);
      if fs[0].0 == k then fs[0].1 else Lookup(fs[1..], k)
  }

  /**
   * The names `for (var k in obj)` visits first, in ascending numeric order:
   * array indices, the numerals below 2^32 - 1.
   */
  predicate IsArrayIndex(k: string)
  {
    IsNumeral(k) && DigitsValue(k) < 0xFFFF_FFFF
  }

  /** Whether a new property `k` goes in front of the property named `n`. */
  predicate GoesBefore(k: string, n: string)
  {
    IsArrayIndex(k) && (!IsArrayIndex(n) || DigitsValue(k) < DigitsValue(n))
  }

  /**
   * The order in which `for ... in` enumerates an object: array-index names
   * first, ascending by value, then the other names in insertion order.
   */
  predicate EnumOrdered(fs: Fields)
  {
    forall i, j | 0 <= i < j < |fs| && IsArrayIndex(fs[j].0) ::
      IsArrayIndex(fs[i].0) && DigitsValue(fs[i].0) < DigitsValue(fs[j].0)
  }

  /**
   * `obj[k] = v`: overwrite in place; a new array-index name goes in front of
   * the first name it precedes, any other new name at the end.
   */
  function Put(fs: Fields, k: string, v: Value): (r: Fields)
    ensures k in Names(fs) ==> Names(r) == Names(fs)
    ensures k !in Names(fs) && !IsArrayIndex(k) ==> r == fs + [(k, v)]
    ensures k !in Names(fs) ==> |r| == |fs| + 1 && forall n :: n in Names(r) <==> n in Names(fs) || n == k
    ensures forall p | p in r :: p in fs || p == (k, v)
    decreases |fs|
  {
    if |fs| == 0 then
      assert Names([(k, v)]) == [k];
      [(k, v)]
    else
      assert fs == [fs[0]] + fs[1..];
      NamesCons(fs[0], fs[1..]);
      if fs[0].0 == k then
        NamesCons((k, v), fs[1..]);
        [(k, v)] + fs[1..]
      else if k !in Names(fs) && GoesBefore(k, fs[0].0) then
        NamesCons((k, v), fs);
        [(k, v)] + fs
      else
        var rest := Put(fs[1..], k, v);
        NamesCons(fs[0], rest);
        [fs[0]] + rest
  }

  /** `delete obj[k]` */
  function Remove(fs: Fields, k: string): (r: Fields)
    ensures k !in Names(r)
    ensures forall p | p in r :: p in fs
    decreases |fs|
  {
    if |fs| == 0 then []
    else
      var rest := Remove(fs[1..], k);
      if fs[0].0 == k then rest
      else
        NamesCons(fs[0], rest);
        [fs[0]] + rest
  }

  /** Reading a property after writing it gives the written value; other properties are unchanged. */
  lemma {:induction false} LookupPut(fs: Fields, k: string, v: Value, j: string)
    ensures Lookup(Put(fs, k, v), j) == if j == k then v else Lookup(fs, j)
    decreases |fs|
  {
    if |fs| > 0 && fs[0].0 != k {
      LookupPut(fs[1..], k, v, j);
    }
  }

  lemma DistinctCons(p: (string, Value), fs: Fields)
    ensures Distinct([p] + fs) <==> p.0 !in Names(fs) && Distinct(fs)
  {
    var r := [p] + fs;
    if Distinct(r) {
      forall a, b | 0 <= a < b < |fs| ensures fs[a].0 != fs[b].0 {
        assert r[a + 1] == fs[a] && r[b + 1] == fs[b];
      }
      forall x | 0 <= x < |fs| ensures Names(fs)[x] != p.0 {
        assert r[0] == p && r[x + 1] == fs[x];
        assert r[0].0 != r[x + 1].0;
      }
    }
    if p.0 !in Names(fs) && Distinct(fs) {
      forall a, b | 0 <= a < b < |r| ensures r[a].0 != r[b].0 {
        if a == 0 {
          assert r[b].0 == Names(fs)[b - 1];
        } else {
          assert r[a] == fs[a - 1] && r[b] == fs[b - 1];
        }
      }
    }
  }

  /** Writing a property keeps the names distinct. */
  lemma {:induction false} PutDistinct(fs: Fields, k: string, v: Value)
    requires Distinct(fs)
    ensures Distinct(Put(fs, k, v))
    decreases |fs|
  {
    if |fs| > 0 {
      assert fs == [fs[0]] + fs[1..];
      DistinctCons(fs[0], fs[1..]);
      if fs[0].0 == k {
        DistinctCons((k, v), fs[1..]);
      } else if k !in Names(fs) && GoesBefore(k, fs[0].0) {
        NamesCons(fs[0], fs[1..]);
        DistinctCons((k, v), fs);
      } else {
        PutDistinct(fs[1..], k, v);
        var rest := Put(fs[1..], k, v);
        DistinctCons(fs[0], rest);
      }
    }
  }

  /** Writing a property keeps a list in enumeration order. */
  lemma {:induction false} PutOrdered(fs: Fields, k: string, v: Value)
    requires EnumOrdered(fs)
    ensures EnumOrdered(Put(fs, k, v))
    decreases |fs|
  {
    if |fs| > 0 && fs[0].0 != k {
      if k !in Names(fs) && GoesBefore(k, fs[0].0) {
        InsertFrontOrdered(fs, (k, v));
      } else {
        PutOrdered(fs[1..], k, v);
        var rest := Put(fs[1..], k, v);
        assert IsArrayIndex(k) ==> IsArrayIndex(fs[0].0) && DigitsValue(fs[0].0) < DigitsValue(k) by {
          if IsArrayIndex(k) {
            if k in Names(fs) {
              var x :| 0 <= x < |fs| && fs[x].0 == k;
            } else {
              NumeralsDiffer(k, fs[0].0);
            }
          }
        }
        ConsOrdered(fs, rest);
      }
    }
  }

  lemma InsertFrontOrdered(fs: Fields, p: (string, Value))
    requires EnumOrdered(fs) && |fs| > 0 && GoesBefore(p.0, fs[0].0)
    ensures EnumOrdered([p] + fs)
  {
    var r := [p] + fs;
    forall i, j | 0 <= i < j < |r| && IsArrayIndex(r[j].0)
      ensures IsArrayIndex(r[i].0) && DigitsValue(r[i].0) < DigitsValue(r[j].0)
    {
      if i == 0 && j > 1 {
        assert r[j] == fs[j - 1] && r[1] == fs[0];
      } else if i > 0 {
        assert r[i] == fs[i - 1] && r[j] == fs[j - 1];
      }
    }
  }

  lemma ConsOrdered(fs: Fields, rest: Fields)
    requires EnumOrdered(fs) && |fs| > 0 && EnumOrdered(rest)
    requires forall p | p in rest && IsArrayIndex(p.0) ::
      p in fs[1..] || (IsArrayIndex(fs[0].0) && DigitsValue(fs[0].0) < DigitsValue(p.0))
    ensures EnumOrdered([fs[0]] + rest)
  {
    var r := [fs[0]] + rest;
    forall i, j | 0 <= i < j < |r| && IsArrayIndex(r[j].0)
      ensures IsArrayIndex(r[i].0) && DigitsValue(r[i].0) < DigitsValue(r[j].0)
    {
      if i > 0 {
        assert r[i] == rest[i - 1] && r[j] == rest[j - 1];
      } else {
        assert r[j] == rest[j - 1];
        if r[j] in fs[1..] {
          var x :| 0 <= x < |fs[1..]| && fs[1..][x] == r[j];
          assert fs[x + 1] == r[j];
        }
      }
    }
  }

  /** Deleting a property makes it undefined, leaves the others as they were and keeps the names distinct. */
  lemma {:induction false} LookupRemove(fs: Fields, k: string, j: string)
    requires Distinct(fs)
    ensures Lookup(Remove(fs, k), j) == if j == k then Undef else Lookup(fs, j)
    ensures Distinct(Remove(fs, k))
    ensures forall n :: n in Names(Remove(fs, k)) <==> n in Names(fs) && n != k
    decreases |fs|
  {
    if |fs| > 0 {
      assert fs == [fs[0]] + fs[1..];
      DistinctCons(fs[0], fs[1..]);
      NamesCons(fs[0], fs[1..]);
      LookupRemove(fs[1..], k, j);
      var rest := Remove(fs[1..], k);
      if fs[0].0 != k {
        NamesCons(fs[0], rest);
        DistinctCons(fs[0], rest);
      }
    }
  }

  /** Deleting a property keeps a list in enumeration order. */
  lemma {:induction false} RemoveOrdered(fs: Fields, k: string)
    requires EnumOrdered(fs)
    ensures EnumOrdered(Remove(fs, k))
    decreases |fs|
  {
    if |fs| > 0 {
      RemoveOrdered(fs[1..], k);
      var rest := Remove(fs[1..], k);
      if fs[0].0 != k {
        ConsOrdered(fs, rest);
      }
    }
  }

  /*------------------------------------------ JavaScript tests ------------------------------------------*/

  /** JavaScript truthiness (`if (v)`). */
  predicate Truthy(v: Value)
  {
    match v
    case Undef => false
    case Null => false
    case Bool(b) => b
    case Num(n) => n != 0
    case Str(s) => s != ""
    case _ => true
  }

  /** `ccm.helper.isObject`: typeof 'object', not null and not an array. */
  predicate IsObject(v: Value)
  {
    v.Obj? || v.Inst? || v.Ref? || v.Store? || v.Comp? || v.Dom?
  }

  /** `typeof v === 'object' && v !== null`: objects and arrays. */
  predicate IsObjectOrArray(v: Value)
  {
    IsObject(v) || v.Arr?
  }

  /** `ccm.helper.isNode` (a DOM node) and `isElementNode`: every node modelled is an element. */
  predicate IsNode(v: Value) { v.Dom? }

  /** Own properties of an object value (empty for values whose properties are not modelled). */
  function PropsOf(v: Value): Fields
  {
    match v
    case Obj(fs) => fs
    case Inst(_, fs) => fs
    case _ => []
  }

  /** `ccm.helper.isInstance`: an object with a truthy `component` property. */
  predicate IsInstance(v: Value)
  {
    match v
    case Obj(fs) => Truthy(Lookup(fs, "component"))
    case Inst(_, fs) => Truthy(Lookup(fs, "component"))
    case Ref(_, _) => true
    case _ => false
  }

  /** `ccm.helper.isProxy`: an instance whose `component` is a string (a lazy-instance placeholder). */
  predicate IsProxy(v: Value)
  {
    IsInstance(v) && Lookup(PropsOf(v), "component").Str?
  }

  /** `ccm.helper.isComponent`: an object with a truthy `Instance` constructor. */
  predicate IsComponent(v: Value)
  {
    v.Comp? || ((v.Obj? || v.Inst?) && Truthy(Lookup(PropsOf(v), "Instance")))
  }

  /** `ccm.helper.isDatastore`: an object with truthy `get`, `set` and `del`. */
  predicate IsDatastore(v: Value)
  {
    v.Store? ||
    ((v.Obj? || v.Inst?) &&
     Truthy(Lookup(PropsOf(v), "get")) && Truthy(Lookup(PropsOf(v), "set")) && Truthy(Lookup(PropsOf(v), "del")))
  }

  /*------------------------------------------ dependency descriptors ------------------------------------------*/

  /** The operations a dependency descriptor can name. */
  datatype Tag = LoadTag | ComponentTag | InstanceTag | ProxyTag | RenderTag | StoreTag | DatasetTag

  /** The operation named by the head of a descriptor: the function itself or its name as a string. */
  function TagOf(head: Value): Option<Tag>
  {
    match head
    case Fn(CcmLoad) => Some(LoadTag)
    case Fn(CcmComponent) => Some(ComponentTag)
    case Fn(CcmInstance) => Some(InstanceTag)
    case Fn(CcmProxy) => Some(ProxyTag)
    case Fn(CcmRender) => Some(RenderTag)
    case Fn(CcmStore) => Some(StoreTag)
    case Fn(CcmDataset) => Some(DatasetTag)
    case Str(s) =>
      if s == "ccm.load" then Some(LoadTag)
      else if s == "ccm.component" then Some(ComponentTag)
      else if s == "ccm.instance" then Some(InstanceTag)
      else if s == "ccm.proxy" then Some(ProxyTag)
      else if s == "ccm.render" then Some(RenderTag)
      else if s == "ccm.store" then Some(StoreTag)
      else if s == "ccm.dataset" then Some(DatasetTag)
      else None
    case _ => None
  }

  function DependencyTag(v: Value): Option<Tag>
  {
    if v.Arr? && |v.items| > 0 then TagOf(v.items[0]) else None
  }

  /** `ccm.helper.isDependency`: a non-empty array whose head names a framework operation. */
  predicate IsDependency(v: Value)
  {
    DependencyTag(v).Some?
  }

  /** `action[k]` of a descriptor, undefined past its end. */
  function Arg(v: Value, k: nat): Value
  {
    if v.Arr? && k < |v.items| then v.items[k] else Undef
  }

  /*------------------------------------------ property names ------------------------------------------*/

  /** The property name JavaScript uses for `obj[v]` (and the text `RegExp.test(v)` looks at). */
  function PropName(v: Value): string
    decreases v, 1, 0
  {
    match v
    case Undef => "undefined"
    case Null => "null"
    case Bool(b) => if b then "true" else "false"
    case Num(n) => IntToString(n)
    case Str(s) => s
    case Arr(items) => ItemsText(v, items)
    case Fn(_) => "function"
    case Dom(_) => "[object HTMLElement]"
    case _ => "[object Object]"
  }

  /** `String(array)`: the items joined by ',' with null and undefined shown as ''. */
  function ItemsText(ghost parent: Value, items: seq<Value>): string
    requires forall x | x in items :: x < parent
    decreases parent, 0, |items|
  {
    if |items| == 0 then ""
    else
      assert items[0] in items;
      var first := if items[0].Undef? || items[0].Null? then "" else PropName(items[0]);
      if |items| == 1 then first
      else
        assert forall x | x in items[1..] :: x in items;
        first + "," + ItemsText(parent, items[1..])
  }
}
