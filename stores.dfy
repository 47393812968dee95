/**
 * `ccm.store`: settings normalisation, the source a datastore is known by,
 * and the `stores` map that hands out one datastore per source.
 */
module Interning {
  import opened JsValues
  import opened Helpers
  import opened Datastores

  /*------------------------------------------ settings ------------------------------------------*/

  /** Settings that already say where the data lives or how it is handled. */
  predicate Specified(s: Value)
  {
    Truthy(Prop(s, "local")) || Truthy(Prop(s, "store")) || Truthy(Prop(s, "url")) ||
    Truthy(Prop(s, "delayed")) || Truthy(Prop(s, "user"))
  }

  /** A URL, or an object that says none of that, stands for the initial datasets of the local cache. */
  predicate Wrapped(s: Value)
  {
    s.Str? || (IsObject(s) && !Specified(s))
  }

  /** The properties of a copied record are the copies of its properties. */
  lemma {:induction false} CloneLookup(fs: Fields, k: string)
    ensures Lookup(seq(|fs|, i requires 0 <= i < |fs| => (fs[i].0, Clone(fs[i].1))), k) == Clone(Lookup(fs, k))
    decreases |fs|
  {
    var cs := seq(|fs|, i requires 0 <= i < |fs| => (fs[i].0, Clone(fs[i].1)));
    if |fs| > 0 {
      var rest := seq(|fs| - 1, i requires 0 <= i < |fs| - 1 => (fs[1..][i].0, Clone(fs[1..][i].1)));
      assert cs[1..] == rest;
      CloneLookup(fs[1..], k);
    }
  }

  lemma CloneProp(v: Value, k: string)
    requires IsRecord(v)
    ensures Prop(Clone(v), k) == Clone(Prop(v, k))
  {
    CloneLookup(PropsOf(v), k);
  }

  /**
   * The settings `store` works with: none (or a callback in their place)
   * become `{}`; a URL or an object
   * that is only datasets becomes `{local: ...}`; then a deep copy. Objects
   * that come out always say where their data lives, and the original of
   * settings that already did is kept as it was.
   */
  function Normalized(given: Value): (s: Value)
    ensures !Wrapped(given) && Truthy(given) && !given.Fn? ==> s == Clone(given)
    ensures given.Str? && given.s != "" ==> s == Obj([("local", given)])
    ensures !Truthy(given) || given.Fn? ==> s == Obj([("local", Obj([]))])
  {
    var g := if Truthy(given) && !given.Fn? then given else Obj([]);
    Clone(if Wrapped(g) then Obj([("local", g)]) else g)
  }

  /** Normalised settings that are objects always say where their data lives. */
  lemma NormalizedSpecified(given: Value)
    ensures Normalized(given).Obj? ==> Specified(Normalized(given))
  {
    var g := if Truthy(given) && !given.Fn? then given else Obj([]);
    var pre := if Wrapped(g) then Obj([("local", g)]) else g;
    assert Normalized(given) == Clone(pre);
    if Wrapped(g) {
      WrappedSpecified(g);
    } else if IsRecord(g) {
      ClonedSpecified(g);
    }
  }

  /** Wrapped settings, copied, say where their data lives: in the local cache. */
  lemma WrappedSpecified(g: Value)
    requires Truthy(g)
    ensures Specified(Clone(Obj([("local", g)])))
  {
    var pre := Obj([("local", g)]);
    CloneProp(pre, "local");
    assert Prop(pre, "local") == g;
  }

  /** A copy of settings that say where their data lives says so too. */
  lemma ClonedSpecified(g: Value)
    requires IsRecord(g) && Specified(g)
    ensures Specified(Clone(g))
  {
    CloneProp(g, "local");
    CloneProp(g, "store");
    CloneProp(g, "url");
    CloneProp(g, "delayed");
    CloneProp(g, "user");
  }

  /** Normalising settings a second time changes nothing. */
  lemma NormalizeIdempotent(given: Value)
    ensures Normalized(Normalized(given)) == Normalized(given)
  {
    var s := Normalized(given);
    NormalizedSpecified(given);
    CloneIdempotent(if Truthy(given) && !given.Fn? then given else Obj([]));
    if s.Obj? {
      assert !Wrapped(s) && Truthy(s);
    } else {
      assert !IsObject(s) && !s.Str?;
    }
  }

  /*------------------------------------------ sources ------------------------------------------*/

  /**
   * The source a datastore is known by: the `url`, `db` and `store`
   * settings (as `JSON.stringify` of them would tell them apart), or a
   * number when none of them is given.
   */
  datatype Source = Described(url: Value, db: Value, store: Value) | Numbered(n: nat)

  /** What `JSON.stringify` keeps of a property: undefined values and functions are dropped. */
  function InJson(v: Value): (r: Value)
    ensures r.Undef? <==> v.Undef? || v.Fn?
  {
    if v.Fn? then Undef else v
  }

  /**
   * `getSource(settings)`, with the number of registered datastores given
   * as `count`: the `url`, `db` and `store` properties (the only ones
   * `filterProperties` keeps), or the count when none of them survives.
   */
  function SourceOf(settings: Value, count: nat): (src: Source)
    ensures src.Numbered? <==> InJson(Prop(settings, "url")).Undef? && InJson(Prop(settings, "db")).Undef? && InJson(Prop(settings, "store")).Undef?
    ensures src.Numbered? ==> src.n == count
  {
    var u := InJson(Prop(settings, "url"));
    var d := InJson(Prop(settings, "db"));
    var st := InJson(Prop(settings, "store"));
    if u.Undef? && d.Undef? && st.Undef? then Numbered(count) else Described(u, d, st)
  }

  /**
   * Two settings name the same source exactly when they agree on `url`,
   * `db` and `store` and give at least one of them; the rest of the
   * settings and the number of registered datastores play no part.
   */
  lemma SameSource(a: Value, b: Value, n: nat, m: nat)
    requires SourceOf(a, n).Described?
    ensures SourceOf(a, n) == SourceOf(b, m) <==>
      InJson(Prop(a, "url")) == InJson(Prop(b, "url")) &&
      InJson(Prop(a, "db")) == InJson(Prop(b, "db")) &&
      InJson(Prop(a, "store")) == InJson(Prop(b, "store"))
  {
  }

  /** A source that is described does not depend on how many datastores exist. */
  lemma SourceIgnoresCount(settings: Value, n: nat, m: nat)
    requires SourceOf(settings, n).Described?
    ensures SourceOf(settings, m) == SourceOf(settings, n)
  {
  }

  /** Every numbered source in the map is below the map's size. */
  ghost predicate NumberedBelow(stores: map<Source, Datastore>)
  {
    forall src | src in stores :: src.Numbered? ==> src.n < |stores|
  }

  /**
   * The number `getSource` hands out is not taken yet, so numbered sources
   * do not collide among requests handled one after another (the model
   * registers each datastore before the next request starts).
   */
  lemma NumberedIsNew(stores: map<Source, Datastore>)
    requires NumberedBelow(stores)
    ensures Numbered(|stores|) !in stores
  {
  }

  /** Registering a new source keeps the numbered ones below the size. */
  lemma RegisterKeepsNumbers(stores: map<Source, Datastore>, src: Source, store: Datastore)
    requires NumberedBelow(stores) && src !in stores
    requires src.Numbered? ==> src.n == |stores|
    ensures NumberedBelow(stores[src := store])
  {
    assert |stores[src := store]| == |stores| + 1;
  }

  /*------------------------------------------ the stores map ------------------------------------------*/

  /** The initial datasets of the local cache: the `local` setting, `{}` without one, the loaded data for a URL. */
  function InitialLocal(settings: Value, loaded: Value): (local: Value)
    ensures Prop(settings, "local").Str? && Prop(settings, "local").s != "" ==> local == loaded
    ensures !Truthy(Prop(settings, "local")) ==> local == Obj([])
  {
    var l := Prop(settings, "local");
    var l' := if Truthy(l) then l else Obj([]);
    if l'.Str? then loaded else l'
  }

  /** `stores`: the datastores created so far, by source. */
  class Stores {
    var stores: map<Source, Datastore>

    ghost predicate Valid()
      reads this
    {
      NumberedBelow(stores)
    }

    constructor ()
      ensures Valid() && stores == map[]
    {
      stores := map[];
    }

    /**
     * `store(settings)`: the datastore registered for the source of the
     * normalised settings if there is one, untouched; otherwise a new
     * datastore over the initial datasets (`loaded` is the data behind a
     * `local` URL), registered under that source. `initialized` says
     * whether `init` ran, which it does unless the settings are `delayed`.
     */
    method Store(given: Value, loaded: Value) returns (store: Datastore, initialized: bool)
      requires Valid()
      requires var local := PropsOf(InitialLocal(Normalized(given), loaded));
        Distinct(local) && EnumOrdered(local)
      modifies this
      ensures Valid()
      ensures var s := Normalized(given);
        var src := SourceOf(s, |old(stores)|);
        src in old(stores) ==> store == old(stores)[src] && stores == old(stores) && !initialized
      ensures var s := Normalized(given);
        var src := SourceOf(s, |old(stores)|);
        src !in old(stores) ==>
          fresh(store) && stores == old(stores)[src := store] &&
          store.local == PropsOf(InitialLocal(s, loaded)) && store.callbacks == [] &&
          store.db == Prop(s, "db") && store.storeName == Prop(s, "store") &&
          store.onChange == Truthy(Prop(s, "onChange")) &&
          initialized == !Truthy(Prop(s, "delayed"))
    {
      var s := Normalized(given);
      var src := SourceOf(s, |stores|);
      if src in stores {
        return stores[src], false;
      }
      NumberedIsNew(stores);
      var local := InitialLocal(s, loaded);
      store := new Datastore(PropsOf(local), Truthy(Prop(s, "onChange")), Prop(s, "db"), Prop(s, "store"));
      initialized := !Truthy(Prop(s, "delayed"));
      RegisterKeepsNumbers(stores, src, store);
      stores := stores[src := store];
    }
  }
}
