/**
 * A ccm datastore restricted to its local cache (`my.local`), together with
 * the realtime path: requests sent over a websocket with a 1-based reply
 * slot, and the dispatch of incoming server messages.
 */
module Datastores {
  import opened JsStrings
  import opened JsValues
  import opened Helpers

  /*------------------------------------------ the cache as a value ------------------------------------------*/

  /** The cache property a dataset key selects: `my.local[key]` uses the key's string form. */
  function CacheName(key: Value): string { PropName(key) }

  /**
   * The priority data `set` works on: a deep copy, with the key
   * `generateKey` made for this call (`generated`) when it has none.
   */
  function Keyed(priodata: Value, generated: string): Value
  {
    var p := Clone(priodata);
    if !Truthy(Prop(p, "key")) then SetProp(p, "key", Str(generated)) else p
  }

  /**
   * The cache after `updateLocal(priodata)`: a cached record is merged with
   * the priority data (which wins), otherwise the priority data is cached.
   */
  function Updated(local: Fields, priodata: Value): (r: Fields)
    ensures var name := CacheName(Prop(priodata, "key"));
      var existing := Lookup(local, name);
      Lookup(r, name) == (if Truthy(existing) then Integrated(priodata, existing) else priodata) &&
      forall n | n != name :: Lookup(r, n) == Lookup(local, n)
    ensures Distinct(local) ==> Distinct(r)
    ensures EnumOrdered(local) ==> EnumOrdered(r)
  {
    var name := CacheName(Prop(priodata, "key"));
    var existing := Lookup(local, name);
    var record := if Truthy(existing) then Integrated(priodata, existing) else priodata;
    forall n ensures Lookup(Put(local, name, record), n) == if n == name then record else Lookup(local, n) {
      LookupPut(local, name, record, n);
    }
    assert Distinct(local) ==> Distinct(Put(local, name, record)) by {
      if Distinct(local) { PutDistinct(local, name, record); }
    }
    assert EnumOrdered(local) ==> EnumOrdered(Put(local, name, record)) by {
      if EnumOrdered(local) { PutOrdered(local, name, record); }
    }
    Put(local, name, record)
  }

  /** `getLocal(key)` for a single key: a deep copy of the cached record, or null. */
  function Fetch(local: Fields, key: Value): (r: Value)
    ensures r == Null || Truthy(r)
    ensures NoInst(r)
  {
    var copy := Clone(Lookup(local, CacheName(key)));
    if Truthy(copy) then copy else Null
  }

  /** What `getLocal(key)` returns: no key or an object is a query, anything else a single key. */
  function LocalResult(local: Fields, key: Value): Value
  {
    if key.Undef? || IsObject(key) then Arr(Query(local, key)) else Fetch(local, key)
  }

  /** `getLocal(query)`: deep copies of the cached records the query is a subset of, in cache order. */
  function Query(local: Fields, query: Value): (rs: seq<Value>)
    ensures |rs| <= |local|
    decreases |local|
  {
    if |local| == 0 then []
    else
      var last := local[|local| - 1].1;
      Query(local[..|local| - 1], query) + (if Subset(query, last) then [Clone(last)] else [])
  }

  /** The loop of `getLocal(query)` over the cached records. */
  method QueryRecords(records: Fields, query: Value) returns (results: seq<Value>)
    ensures results == Query(records, query)
  {
    results := [];
    var i := 0;
    while i < |records|
      invariant 0 <= i <= |records|
      invariant results == Query(records[..i], query)
    {
      QueryExtended(records, query, i);
      var matches := IsSubset(query, records[i].1);
      if matches {
        results := results + [Clone(records[i].1)];
      }
      i := i + 1;
    }
    assert records[..|records|] == records;
  }

  /** The query over one more record adds its copy when it matches. */
  lemma QueryExtended(records: Fields, query: Value, i: nat)
    requires i < |records|
    ensures Query(records[..i + 1], query) ==
      Query(records[..i], query) + (if Subset(query, records[i].1) then [Clone(records[i].1)] else [])
  {
    assert records[..i + 1][..i] == records[..i];
  }

  /**
   * A server notification applied to the cache: an object is merged in as by
   * `updateLocal` and the result is the record now stored under its key;
   * anything else is a key deleted as by `delLocal`.
   */
  predicate ChangeApplied(before: Fields, message: Value, dataset: Value, after: Fields)
  {
    if IsObject(message) then
      after == Updated(before, message) && dataset == LocalResult(after, Prop(message, "key"))
    else
      (dataset, after) == Deleted(before, message)
  }

  /** The cache and the deleted value after `delLocal(key)`; no key clears the whole cache. */
  function Deleted(local: Fields, key: Value): (r: (Value, Fields))
  {
    if key.Undef? then (Obj(local), [])
    else (Lookup(local, CacheName(key)), Remove(local, CacheName(key)))
  }

  /**
   * The result and the cache after `set(priodata)` on the local cache: a key
   * that fails the key pattern gives null and changes nothing.
   */
  function Stored(local: Fields, priodata: Value, generated: string): (Value, Fields)
  {
    var p := Keyed(priodata, generated);
    if !KeyTest(Prop(p, "key")) then (Null, local)
    else
      var after := Updated(local, p);
      (LocalResult(after, Prop(p, "key")), after)
  }

  /** Some cached record matches `query` and `x` is the copy of it. */
  ghost predicate CopyOfMatch(local: Fields, query: Value, x: Value)
  {
    exists i | 0 <= i < |local| :: Subset(query, local[i].1) && x == Clone(local[i].1)
  }

  /** The query results are exactly the copies of the matching records. */
  lemma {:induction false} QueryExactly(local: Fields, query: Value)
    ensures forall x :: x in Query(local, query) <==> CopyOfMatch(local, query, x)
    decreases |local|
  {
    if |local| > 0 {
      var init := local[..|local| - 1];
      QueryExactly(init, query);
      forall x ensures x in Query(local, query) <==> CopyOfMatch(local, query, x) {
        QueryExactlyStep(local, query, x);
      }
    }
  }

  /** One step of `QueryExactly`: adding the last record keeps the results exact. */
  lemma QueryExactlyStep(local: Fields, query: Value, x: Value)
    requires |local| > 0
    requires var init := local[..|local| - 1];
      x in Query(init, query) <==> CopyOfMatch(init, query, x)
    ensures x in Query(local, query) <==> CopyOfMatch(local, query, x)
  {
    var init := local[..|local| - 1];
    var last := local[|local| - 1].1;
    var added := if Subset(query, last) then [Clone(last)] else [];
    assert Query(local, query) == Query(init, query) + added;
    if x in Query(local, query) {
      QueryResultMatches(local, init, query, added, x);
    }
    if CopyOfMatch(local, query, x) {
      MatchInQuery(local, init, query, added, x);
    }
  }

  /** A result of the query over one more record copies a matching record. */
  lemma QueryResultMatches(local: Fields, init: Fields, query: Value, added: seq<Value>, x: Value)
    requires |local| > 0 && init == local[..|local| - 1]
    requires added == if Subset(query, local[|local| - 1].1) then [Clone(local[|local| - 1].1)] else []
    requires x in Query(init, query) + added
    requires x in Query(init, query) ==> CopyOfMatch(init, query, x)
    ensures CopyOfMatch(local, query, x)
  {
    if x in Query(init, query) {
      var i :| 0 <= i < |init| && Subset(query, init[i].1) && x == Clone(init[i].1);
      assert local[i] == init[i];
    } else {
      assert x in added;
      var i := |local| - 1;
      assert Subset(query, local[i].1) && x == Clone(local[i].1);
    }
  }

  /** A copy of a matching record is among the results of the query over one more record. */
  lemma MatchInQuery(local: Fields, init: Fields, query: Value, added: seq<Value>, x: Value)
    requires |local| > 0 && init == local[..|local| - 1]
    requires added == if Subset(query, local[|local| - 1].1) then [Clone(local[|local| - 1].1)] else []
    requires CopyOfMatch(local, query, x)
    requires CopyOfMatch(init, query, x) ==> x in Query(init, query)
    ensures x in Query(init, query) + added
  {
    var i :| 0 <= i < |local| && Subset(query, local[i].1) && x == Clone(local[i].1);
    if i < |local| - 1 {
      assert local[i] == init[i];
      assert CopyOfMatch(init, query, x);
    } else {
      assert added == [x];
    }
  }

  /** An empty query (also what `get()` with no key asks) returns a copy of every cached record. */
  lemma {:induction false} EmptyQueryReturnsAll(local: Fields)
    ensures Query(local, Obj([])) == seq(|local|, i requires 0 <= i < |local| => Clone(local[i].1))
    decreases |local|
  {
    if |local| > 0 {
      var init := local[..|local| - 1];
      EmptyQueryReturnsAll(init);
      EmptyQueryMatchesAll(local[|local| - 1].1);
    }
  }

  /** `set` with a key outside the key pattern gives null and leaves the cache as it was. */
  lemma SetRejectsInvalidKey(local: Fields, priodata: Value, generated: string)
    requires Truthy(Prop(Clone(priodata), "key")) && !KeyTest(Prop(Clone(priodata), "key"))
    ensures Stored(local, priodata, generated) == (Null, local)
  {
    assert Keyed(priodata, generated) == Clone(priodata);
  }

  /** The keyed priority data is a plain object free of instance objects, with a truthy key or the generated one. */
  lemma KeyedShape(priodata: Value, generated: string)
    requires IsRecord(priodata)
    ensures var p := Keyed(priodata, generated);
      p.Obj? && NoInst(p) && (Truthy(Prop(p, "key")) || Prop(p, "key") == Str(generated))
  {
    var c := Clone(priodata);
    if !Truthy(Prop(c, "key")) {
      SetPropNoInst(c, "key", Str(generated));
    }
  }

  /** A truthy key that passes the key pattern is not an object, so it selects one record. */
  lemma ValidKeyIsSingle(key: Value)
    requires Truthy(key) && KeyTest(key)
    ensures !key.Undef? && !IsObject(key)
  {
  }

  /** A record without a key is stored under a generated key, which always passes the key pattern. */
  lemma SetGeneratesKey(local: Fields, priodata: Value, now: nat, randomText: string)
    requires IsRecord(priodata) && !Truthy(Prop(Clone(priodata), "key"))
    ensures var key := GenerateValidKey(now, randomText);
      Stored(local, priodata, key).0 != Null &&
      Lookup(Stored(local, priodata, key).1, key) != Undef
  {
    var key := GenerateValidKey(now, randomText);
    var p := Keyed(priodata, key);
    assert Prop(p, "key") == Str(key);
    KeyedShape(priodata, key);
    StoredUnderKey(local, p, key);
  }

  /**
   * `set` as written, with the key of `generateKey`: a record without a key
   * is refused when the random number prints in exponent notation, and the
   * cache stays as it was.
   */
  lemma SetAsWrittenRejects(local: Fields, priodata: Value, now: nat)
    requires IsRecord(priodata) && !Truthy(Prop(Clone(priodata), "key"))
    ensures Stored(local, priodata, GenerateKey(now, "1.5e-7")) == (Null, local)
  {
    var key := GenerateKey(now, "1.5e-7");
    GeneratedKeyCanFail(now);
    assert Prop(Keyed(priodata, key), "key") == Str(key);
  }

  /** On the usual rendering of a random number, `set` as written and the corrected `set` do the same. */
  lemma SetAsWrittenAgrees(local: Fields, priodata: Value, now: nat, randomText: string)
    requires |randomText| >= 2 && AllDigits(randomText[2..])
    ensures Stored(local, priodata, GenerateKey(now, randomText)) == Stored(local, priodata, GenerateValidKey(now, randomText))
  {
    GeneratedKeysAgree(now, randomText);
  }

  /** A record with a valid string key is cached under that key, and `getLocal` finds it there. */
  lemma StoredUnderKey(local: Fields, p: Value, key: string)
    requires p.Obj? && Prop(p, "key") == Str(key) && IsValidKey(key)
    ensures var after := Updated(local, p);
      Truthy(Lookup(after, key)) && LocalResult(after, Str(key)) != Null
  {
    var after := Updated(local, p);
    assert CacheName(Str(key)) == key;
    assert Truthy(Lookup(after, key));
  }

  /**
   * Set, then get, with a key not cached yet: the record cached (and handed
   * out as a copy) is the deep copy of the priority data, keyed.
   */
  lemma SetThenGetNewKey(local: Fields, priodata: Value, generated: string)
    requires IsRecord(priodata)
    requires var p := Keyed(priodata, generated);
      KeyTest(Prop(p, "key")) && !Truthy(Lookup(local, CacheName(Prop(p, "key"))))
    ensures var p := Keyed(priodata, generated);
      var r := Stored(local, priodata, generated);
      r.0 == p && Lookup(r.1, CacheName(Prop(p, "key"))) == p
  {
    var p := Keyed(priodata, generated);
    KeyedShape(priodata, generated);
    ValidKeyIsSingle(Prop(p, "key"));
  }

  /**
   * Set, then get, with a key already cached: every defined property of the
   * priority data can be read back by its dot path from the returned copy,
   * and every path that no defined priority path leads into or continues
   * reads as before.
   */
  lemma SetThenGetExistingKey(local: Fields, priodata: Value, generated: string)
    requires IsRecord(priodata)
    requires var p := Keyed(priodata, generated);
      var existing := Lookup(local, CacheName(Prop(p, "key")));
      KeyTest(Prop(p, "key")) && IsRecord(existing) && NoInst(existing) &&
      PrefixFree(PropsOf(p)) && AllSettable(PropsOf(p), existing)
    ensures var p := Keyed(priodata, generated);
      var existing := Lookup(local, CacheName(Prop(p, "key")));
      var got := Stored(local, priodata, generated).0;
      (forall i | 0 <= i < |PropsOf(p)| && !PropsOf(p)[i].1.Undef? :: DeepGet(got, PropsOf(p)[i].0) == PropsOf(p)[i].1) &&
      (forall q | Untouched(PropsOf(p), PathOf(q)) :: DeepGet(got, q) == DeepGet(existing, q))
  {
    var p := Keyed(priodata, generated);
    var existing := Lookup(local, CacheName(Prop(p, "key")));
    KeyedShape(priodata, generated);
    ValidKeyIsSingle(Prop(p, "key"));
    PriorityWins(p, existing);
    IntegrateFieldsNoInst(PropsOf(p), existing);
    assert Stored(local, priodata, generated).0 == Integrated(p, existing);
  }

  /** A set touches no other cached record. */
  lemma SetKeepsOtherRecords(local: Fields, priodata: Value, generated: string, other: Value)
    requires CacheName(other) != CacheName(Prop(Keyed(priodata, generated), "key"))
    ensures Fetch(Stored(local, priodata, generated).1, other) == Fetch(local, other)
  {
  }

  /** After deleting a key, getting it gives null; other records stay; no key empties the cache. */
  lemma DeleteThenGet(local: Fields, key: Value, other: Value)
    requires Distinct(local)
    ensures !key.Undef? ==> Fetch(Deleted(local, key).1, key) == Null
    ensures !key.Undef? && CacheName(other) != CacheName(key) ==>
      Fetch(Deleted(local, key).1, other) == Fetch(local, other)
    ensures key.Undef? ==> Query(Deleted(local, key).1, Obj([])) == []
    ensures Distinct(Deleted(local, key).1)
  {
    if !key.Undef? {
      LookupRemove(local, CacheName(key), CacheName(key));
      LookupRemove(local, CacheName(key), CacheName(other));
    }
  }

  /*------------------------------------------ websocket replies ------------------------------------------*/

  /** What a reply to one of the store's own requests finishes: a set or a delete on the server. */
  datatype Pending = SetReply | DelReply(key: Value)

  /** The handler `callbacks[n - 1]` a reply numbered `n` reaches, if any. */
  function Handler(callbacks: seq<Pending>, slot: Value): (h: Option<Pending>)
    ensures h.Some? <==> slot.Num? && 1 <= slot.n <= |callbacks|
  {
    if slot.Num? && 1 <= slot.n <= |callbacks| then Some(callbacks[slot.n - 1]) else None
  }

  /** Slots are stable: registering more handlers never changes where an earlier reply goes. */
  lemma SlotsAreStable(callbacks: seq<Pending>, more: seq<Pending>, slot: nat)
    requires 1 <= slot <= |callbacks|
    ensures Handler(callbacks + more, Num(slot)) == Handler(callbacks, Num(slot)) == Some(callbacks[slot - 1])
  {
  }

  /** `checkResponse`: a string from the server is an error message. */
  function CheckResponse(response: Value): (ok: bool)
    ensures ok <==> !response.Str?
  {
    !response.Str?
  }

  /** How an incoming server message was handled. */
  datatype Dispatch =
    | Replied(slot: nat)     // handed to the reply handler in that slot
    | Changed(dataset: Value) // a change pushed by the server, applied to the cache
    | Fault                  // the handler throws: a null message, a set reply without data, or a reply number with no handler

  class Datastore {
    /** `my.local`: cached records under their key's string form, in insertion order. */
    var local: Fields
    /** The websocket reply handlers, addressed by 1-based slot numbers. */
    var callbacks: seq<Pending>
    /** Messages sent over the websocket, in order. */
    var sent: seq<Value>
    /** The datasets `onChange` was called with, in order. */
    var changes: seq<Value>
    /** Whether an `onChange` callback is configured. */
    const onChange: bool
    /** The `db` and `store` settings sent along with every server request. */
    const db: Value
    const storeName: Value

    ghost predicate Valid()
      reads this
    {
      Distinct(local) && EnumOrdered(local)
    }

    constructor (local: Fields, onChange: bool, db: Value, storeName: Value)
      requires Distinct(local) && EnumOrdered(local)
      ensures Valid()
      ensures this.local == local && callbacks == [] && sent == [] && changes == []
      ensures this.onChange == onChange && this.db == db && this.storeName == storeName
    {
      this.local := local;
      this.callbacks := [];
      this.sent := [];
      this.changes := [];
      this.onChange := onChange;
      this.db := db;
      this.storeName := storeName;
    }

    /** `getLocal(key)`: a query (no key or an object) or a single key. */
    method GetLocal(key: Value) returns (r: Value)
      ensures r == LocalResult(local, key)
    {
      if key.Undef? || IsObject(key) {
        var results := QueryRecords(local, key);
        r := Arr(results);
      } else {
        var copy := Clone(Lookup(local, CacheName(key)));
        r := if Truthy(copy) then copy else Null;
      }
    }

    /**
     * `get(key_or_query)` on the local cache: a function in first place is
     * the callback, and no key asks for every record.
     */
    method Get(keyOrQuery: Value) returns (r: Value)
      ensures var k := if keyOrQuery.Fn? || keyOrQuery.Undef? then Obj([]) else keyOrQuery;
        r == LocalResult(local, k)
    {
      var k := if keyOrQuery.Fn? || keyOrQuery.Undef? then Obj([]) else keyOrQuery;
      r := GetLocal(k);
    }

    /** `setLocal(dataset)`: cache the dataset under its key, if it has a truthy one. */
    method SetLocal(dataset: Value)
      requires Valid()
      modifies this
      ensures Valid()
      ensures var key := Prop(dataset, "key");
        local == if Truthy(key) then Put(old(local), CacheName(key), dataset) else old(local)
      ensures callbacks == old(callbacks) && sent == old(sent) && changes == old(changes)
    {
      var key := Prop(dataset, "key");
      if Truthy(key) {
        PutDistinct(local, CacheName(key), dataset);
        PutOrdered(local, CacheName(key), dataset);
        local := Put(local, CacheName(key), dataset);
      }
    }

    /**
     * `updateLocal(priodata)`: merge into or insert the record, and hand out
     * a copy of it. Reading `priodata.key` throws on `null` and `undefined`,
     * so callers never pass those.
     */
    method UpdateLocal(priodata: Value) returns (r: Value)
      requires Valid() && !priodata.Null? && !priodata.Undef?
      modifies this
      ensures Valid()
      ensures local == Updated(old(local), priodata)
      ensures r == LocalResult(local, Prop(priodata, "key"))
      ensures callbacks == old(callbacks) && sent == old(sent) && changes == old(changes)
    {
      Merge(priodata);
      r := GetLocal(Prop(priodata, "key"));
    }

    /** The first half of `updateLocal`: merge the new values into the record under the key, or insert it. */
    method Merge(priodata: Value)
      requires Valid()
      modifies this
      ensures Valid()
      ensures local == Updated(old(local), priodata)
      ensures callbacks == old(callbacks) && sent == old(sent) && changes == old(changes)
    {
      var name := CacheName(Prop(priodata, "key"));
      var existing := Lookup(local, name);
      if Truthy(existing) {
        var merged := Integrate(priodata, existing);
        local := Put(local, name, merged);
      } else {
        local := Put(local, name, priodata);
      }
      assert local == Updated(old(local), priodata);
    }

    /** `delLocal(key)`: delete one record, or with no key take the whole cache and start afresh. */
    method DelLocal(key: Value) returns (r: Value)
      requires Valid()
      modifies this
      ensures Valid()
      ensures (r, local) == Deleted(old(local), key)
      ensures callbacks == old(callbacks) && sent == old(sent) && changes == old(changes)
    {
      if key.Undef? {
        r := Obj(local);
        local := [];
      } else {
        r := Lookup(local, CacheName(key));
        LookupRemove(local, CacheName(key), CacheName(key));
        RemoveOrdered(local, CacheName(key));
        local := Remove(local, CacheName(key));
      }
    }

    /** `set(priodata)` on the local cache. */
    method Set(priodata: Value, now: nat, randomText: string) returns (r: Value)
      requires Valid() && IsRecord(priodata)
      modifies this
      ensures Valid()
      ensures (r, local) == Stored(old(local), priodata, GenerateValidKey(now, randomText))
      ensures callbacks == old(callbacks) && sent == old(sent) && changes == old(changes)
    {
      var p := Clone(priodata);
      if !Truthy(Prop(p, "key")) {
        p := SetProp(p, "key", Str(GenerateValidKey(now, randomText)));
      }
      if !KeyTest(Prop(p, "key")) {
        return Null;
      }
      r := UpdateLocal(p);
    }

    /** `del(key)` on the local cache. */
    method Del(key: Value) returns (r: Value)
      requires Valid()
      modifies this
      ensures Valid()
      ensures (r, local) == Deleted(old(local), key)
      ensures callbacks == old(callbacks) && sent == old(sent) && changes == old(changes)
    {
      r := DelLocal(key);
    }

    /** `prepareData(data)`: the request with the store's `db` and `store` settings. */
    function Prepared(data: Value): Value
      reads this
    {
      Integrated(data, Obj([("db", db), ("store", storeName)]))
    }

    /** `useWebsocket(data, callback)`: register the handler, number the request with its slot, send it. */
    method UseWebsocket(data: Value, handler: Pending) returns (slot: nat)
      modifies this
      ensures callbacks == old(callbacks) + [handler] && slot == |callbacks|
      ensures Handler(callbacks, Num(slot)) == Some(handler)
      ensures sent == old(sent) + [SetProp(data, "callback", Num(slot))]
      ensures local == old(local) && changes == old(changes)
    {
      callbacks := callbacks + [handler];
      slot := |callbacks|;
      sent := sent + [SetProp(data, "callback", Num(slot))];
    }

    /** `set(priodata)` on a realtime server store: validated as on the cache, then sent with a reply slot. */
    method RequestSet(priodata: Value, now: nat, randomText: string) returns (r: Value, slot: Option<nat>)
      requires IsRecord(priodata)
      modifies this
      ensures var p := Keyed(priodata, GenerateValidKey(now, randomText));
        if KeyTest(Prop(p, "key")) then
          r == Undef && slot.Some? && callbacks == old(callbacks) + [SetReply] && slot.value == |callbacks| &&
          sent == old(sent) + [SetProp(Prepared(Obj([("dataset", p)])), "callback", Num(slot.value))]
        else
          r == Null && slot == None && callbacks == old(callbacks) && sent == old(sent)
      ensures local == old(local) && changes == old(changes)
    {
      var p := Clone(priodata);
      if !Truthy(Prop(p, "key")) {
        p := SetProp(p, "key", Str(GenerateValidKey(now, randomText)));
      }
      if !KeyTest(Prop(p, "key")) {
        return Null, None;
      }
      var s := UseWebsocket(Prepared(Obj([("dataset", p)])), SetReply);
      r, slot := Undef, Some(s);
    }

    /** `del(key)` on a realtime server store: sent with a reply slot. */
    method RequestDel(key: Value) returns (slot: nat)
      modifies this
      ensures callbacks == old(callbacks) + [DelReply(key)] && slot == |callbacks|
      ensures sent == old(sent) + [SetProp(Prepared(Obj([("del", key)])), "callback", Num(slot))]
      ensures local == old(local) && changes == old(changes)
    {
      slot := UseWebsocket(Prepared(Obj([("del", key)])), DelReply(key));
    }

    /**
     * `socket.onmessage`: a message with a truthy `callback` number is the
     * reply to request number `callback` and goes to that handler; any other
     * message is a change pushed by the server: an object updates the cache,
     * anything else is a key to delete, and `onChange` hears about it. A
     * `null` message throws when its `callback` is read, and so does a set
     * reply without data when its key is read.
     */
    method OnMessage(message: Value) returns (d: Dispatch)
      requires Valid()
      modifies this
      ensures Valid()
      ensures callbacks == old(callbacks) && sent == old(sent)
      ensures message.Null? || message.Undef? ==> d == Fault && local == old(local) && changes == old(changes)
      ensures var cb := Prop(message, "callback");
        var data := Prop(message, "data");
        Truthy(cb) ==>
          match Handler(callbacks, cb)
          case None => d == Fault && local == old(local) && changes == old(changes)
          case Some(SetReply) =>
            if data.Null? || data.Undef? then d == Fault && local == old(local) && changes == old(changes)
            else
              d == Replied(cb.n) && changes == old(changes) &&
              local == (if CheckResponse(data) then Updated(old(local), data) else old(local))
          case Some(DelReply(key)) =>
            d == Replied(cb.n) && changes == old(changes) &&
            local == (if CheckResponse(data) then Deleted(old(local), key).1 else old(local))
      ensures !message.Null? && !message.Undef? && !Truthy(Prop(message, "callback")) ==>
        d.Changed? && ChangeApplied(old(local), message, d.dataset, local) &&
        changes == old(changes) + (if onChange then [d.dataset] else [])
    {
      if message.Null? || message.Undef? {
        return Fault;
      }
      var cb := Prop(message, "callback");
      if Truthy(cb) {
        d := OnReply(cb, Prop(message, "data"));
      } else {
        d := OnChange(message);
      }
    }

    /**
     * A numbered reply: its handler runs, and a set or delete takes effect
     * only when `checkResponse` passes. A set reply without data (`null` or
     * missing) passes `checkResponse` and then throws in `updateLocal` at
     * `priodata.key`, leaving the cache as it was.
     */
    method OnReply(cb: Value, data: Value) returns (d: Dispatch)
      requires Valid() && Truthy(cb)
      modifies this
      ensures Valid()
      ensures callbacks == old(callbacks) && sent == old(sent) && changes == old(changes)
      ensures match Handler(callbacks, cb)
        case None => d == Fault && local == old(local)
        case Some(SetReply) =>
          if data.Null? || data.Undef? then d == Fault && local == old(local)
          else d == Replied(cb.n) && local == (if CheckResponse(data) then Updated(old(local), data) else old(local))
        case Some(DelReply(key)) =>
          d == Replied(cb.n) && local == (if CheckResponse(data) then Deleted(old(local), key).1 else old(local))
    {
      var h := Handler(callbacks, cb);
      if h.None? {
        return Fault;
      }
      match h.value {
        case SetReply =>
          if data.Null? || data.Undef? {
            return Fault;
          }
          if CheckResponse(data) {
            var _ := UpdateLocal(data);
          }
        case DelReply(key) =>
          if CheckResponse(data) {
            var _ := DelLocal(key);
          }
      }
      return Replied(cb.n);
    }

    /** A change another client made: an object updates the cache, anything else deletes; `onChange` hears the result. */
    method OnChange(message: Value) returns (d: Dispatch)
      requires Valid()
      modifies this
      ensures Valid()
      ensures callbacks == old(callbacks) && sent == old(sent)
      ensures d.Changed? && ChangeApplied(old(local), message, d.dataset, local)
      ensures changes == old(changes) + (if onChange then [d.dataset] else [])
    {
      var dataset := ApplyChange(message);
      changes := changes + (if onChange then [dataset] else []);
      d := Changed(dataset);
    }

    /** The change a server notification makes to the cache: an object is an update, anything else a key to delete. */
    method ApplyChange(message: Value) returns (dataset: Value)
      requires Valid()
      modifies this
      ensures Valid()
      ensures callbacks == old(callbacks) && sent == old(sent) && changes == old(changes)
      ensures ChangeApplied(old(local), message, dataset, local)
    {
      if IsObject(message) {
        dataset := UpdateLocal(message);
      } else {
        dataset := DelLocal(message);
      }
    }
  }
}
