/**
 * `ccm.load`: the resource cache shared by all load calls, the per-URL
 * waitlists, and each call's counter and results. Transports are not
 * modelled: a fetch that has been issued sits in `fetches` until
 * `Complete` reports its outcome, and the calls a completed resource
 * releases, as well as the steps of serial loading, wait in `agenda` until
 * `Step` runs them.
 */
module Loading {
  import opened JsStrings
  import opened JsValues

  /*------------------------------------------ suffixes ------------------------------------------*/

  /** `s` ends `url`, holds no dot, and is either all of `url` or follows a dot. */
  predicate LastSegment(url: string, s: string)
  {
    '.' !in s && EndsWith(url, s) && (s == url || url[|url| - |s| - 1] == '.')
  }

  /** `url.split('.').pop()`: what follows the last dot, or the whole URL without one. */
  function Suffix(url: string): (s: string)
    ensures LastSegment(url, s)
    decreases |url|
  {
    var k := IndexOf(url, '.');
    if k == -1 then url
    else
      var t := url[k + 1..];
      var s := Suffix(t);
      assert url[|url| - |s|..] == t[|t| - |s|..];
      assert s == t ==> url[|url| - |s| - 1] == url[k];
      assert s != t ==> url[|url| - |s| - 1] == t[|t| - |s| - 1];
      s
  }

  /** A last segment is at least as long as any dot-free ending of the same URL. */
  lemma LastSegmentLongest(url: string, s: string, t: string)
    requires LastSegment(url, s) && '.' !in t && EndsWith(url, t)
    ensures |t| <= |s|
  {
  }

  /** A URL has one last segment. */
  lemma LastSegmentUnique(url: string, s: string, t: string)
    requires LastSegment(url, s) && LastSegment(url, t)
    ensures s == t
  {
    LastSegmentLongest(url, s, t);
    LastSegmentLongest(url, t, s);
  }

  /** Ending in `.ext` is ending in `ext` after a dot. */
  lemma DotEnding(url: string, ext: string)
    ensures EndsWith(url, "." + ext) <==> |ext| < |url| && EndsWith(url, ext) && url[|url| - |ext| - 1] == '.'
  {
    if |ext| < |url| {
      var n := |url| - |ext|;
      assert url[n - 1..] == [url[n - 1]] + url[n..];
    }
  }

  /** The suffix of a URL is `ext` exactly when the URL is `ext` or ends in `.ext`. */
  lemma SuffixIs(url: string, ext: string)
    requires '.' !in ext
    ensures Suffix(url) == ext <==> url == ext || EndsWith(url, "." + ext)
  {
    DotEnding(url, ext);
    if url == ext || EndsWith(url, "." + ext) {
      assert LastSegment(url, ext);
      LastSegmentUnique(url, Suffix(url), ext);
    }
  }

  /** How a resource is fetched, by its suffix. */
  datatype Kind = Html | Css | Image | Js | Json | Data

  /** The loader for a suffix (the `switch` of `loadResource`). */
  function KindOf(suffix: string): (kind: Kind)
  {
    if suffix == "html" then Html
    else if suffix == "css" then Css
    else if suffix == "jpg" || suffix == "gif" || suffix == "png" || suffix == "svg" then Image
    else if suffix == "js" then Js
    else if suffix == "json" then Json
    else Data
  }

  function Classify(url: string): (kind: Kind)
  {
    KindOf(Suffix(url))
  }

  lemma KindOfScripts(suffix: string)
    ensures KindOf(suffix) == Js <==> suffix == "js"
    ensures KindOf(suffix) == Json <==> suffix == "json"
  {
  }

  /** A script is loaded for exactly the URLs that end in `.js` (or are `js`), and likewise for JSON. */
  lemma ClassifyScripts(url: string)
    ensures Classify(url) == Js <==> url == "js" || EndsWith(url, ".js")
    ensures Classify(url) == Json <==> url == "json" || EndsWith(url, ".json")
  {
    var s := Suffix(url);
    KindOfScripts(s);
    DottedSuffixes();
    ClassifiedBySuffix(url, "js", ".js", Js);
    ClassifiedBySuffix(url, "json", ".json", Json);
  }

  lemma DottedSuffixes()
    ensures ".js" == "." + "js" && ".json" == "." + "json"
  {
  }

  /** A kind chosen by exactly one suffix `ext` is chosen for exactly the URLs `ext` and `*.ext`. */
  lemma ClassifiedBySuffix(url: string, ext: string, dotted: string, kind: Kind)
    requires '.' !in ext && dotted == "." + ext
    requires KindOf(Suffix(url)) == kind <==> Suffix(url) == ext
    ensures Classify(url) == kind <==> url == ext || EndsWith(url, dotted)
  {
    SuffixIs(url, ext);
  }

  /** Kinds whose fetch delivers content (through `successData`) rather than only signalling `onload`. */
  predicate Delivers(kind: Kind)
  {
    kind == Html || kind == Json || kind == Data
  }

  /*------------------------------------------ calls ------------------------------------------*/

  /**
   * An argument of a load call: a URL, a URL with GET parameters for a data
   * exchange, or an array of arguments, which a call loads one after the
   * other (and which, one level down inside such an array, are loaded in
   * parallel as the arguments of a call of their own).
   */
  datatype Resource = Url(url: string) | Exchange(url: string, data: Value) | Group(items: seq<Resource>)

  /** What happens with a call's results: nothing, a callback of the caller, or the next serial step of another call. */
  datatype Callback = NoCallback | Deliver(id: nat) | SerialStep(parent: nat, index: nat, rest: seq<Resource>)

  /** A load call as it can be repeated: its arguments with the callback. */
  datatype Request = Request(args: seq<Resource>, callback: Callback)

  /** The local state of one load call. */
  datatype Call = Call(request: Request, counter: int, results: seq<Value>, waiting: bool)

  /** A fetch that has been issued and not yet completed, for argument `index` of call `call`. */
  datatype Fetch = Fetch(call: nat, index: nat, url: string, kind: Kind)

  /** Deferred work: a waiting call to run again, or serial loading to carry on with a result. */
  datatype Task = Reissue(request: Request) | Serial(parent: nat, index: nat, rest: seq<Resource>, result: Option<Value>)

  /** `results[i]` of a sparse array. */
  function Get(results: seq<Value>, i: nat): Value
  {
    if i < |results| then results[i] else Undef
  }

  /** `results[i] = v`: the array grows to `i + 1` with holes when needed. */
  function Assign(results: seq<Value>, i: nat, v: Value): (r: seq<Value>)
    ensures |r| == if i < |results| then |results| else i + 1
    ensures Get(r, i) == v
    ensures forall j: nat | j != i :: Get(r, j) == Get(results, j)
  {
    if i < |results| then results[i := v] else results + seq(i - |results|, _ => Undef) + [v]
  }

  /** The results handed over when a call finishes: a single result (or none) is not wrapped in an array. */
  function Unwrapped(results: seq<Value>): (r: Value)
    ensures |results| >= 2 ==> r == Arr(results)
    ensures |results| == 1 ==> r == results[0]
    ensures |results| == 0 ==> r.Undef?
  {
    if |results| == 0 then Undef else if |results| == 1 then results[0] else Arr(results)
  }

  /** The caller's callbacks that run when a call finishes with `v`. */
  function Notified(cb: Callback, v: Value): seq<(nat, Value)>
  {
    if cb.Deliver? then [(cb.id, v)] else []
  }

  /** The serial step that a call finishing with `v` schedules. */
  function Continued(cb: Callback, v: Value): seq<Task>
  {
    if cb.SerialStep? then [Serial(cb.parent, cb.index, cb.rest, Some(v))] else []
  }

  /** The calls of a waitlist, in the order its draining pops them: last queued first. */
  function Popped(queue: seq<Request>): (tasks: seq<Task>)
    ensures |tasks| == |queue|
    ensures forall k | 0 <= k < |queue| :: tasks[k] == Reissue(queue[|queue| - 1 - k])
  {
    if |queue| == 0 then [] else Popped(queue[1..]) + [Reissue(queue[0])]
  }

  /** The waitlist of `url`, empty when there is none. */
  function Waitlist(waiter: map<string, seq<Request>>, url: string): seq<Request>
  {
    if url in waiter then waiter[url] else []
  }

  /** The arguments of the call that loads the next serial item: an array is loaded in parallel, anything else alone. */
  function ArgsOf(next: Resource): seq<Resource>
  {
    if next.Group? then next.items else [next]
  }

  /** The items collected so far by serial loading. */
  function Items(v: Value): seq<Value>
  {
    if v.Arr? then v.items else []
  }

  /** A resource that `caching` guards: a plain URL whose suffix has a loader of its own. */
  predicate Cacheable(r: Resource)
  {
    r.Url? && Classify(r.url) != Data
  }

  predicate Linked(cb: Callback, n: nat)
  {
    cb.SerialStep? ==> cb.parent < n
  }

  predicate TaskLinked(t: Task, n: nat)
  {
    match t
    case Reissue(r) => Linked(r.callback, n)
    case Serial(p, _, _, _) => p < n
  }

  /** Every value of `args` names a URL with a cached value. */
  predicate Cached(args: seq<Resource>, resources: map<string, Value>)
  {
    forall k | 0 <= k < |args| :: !args[k].Group? && args[k].url in resources
  }

  /** Every value of `args` is a cacheable URL already loaded with a truthy value. */
  predicate AllLoaded(args: seq<Resource>, resources: map<string, Value>)
  {
    Cached(args, resources) &&
    forall k | 0 <= k < |args| :: Cacheable(args[k]) && Truthy(resources[args[k].url])
  }

  /** The cached values of `args[..n]`. */
  function LoadedValues(args: seq<Resource>, resources: map<string, Value>, n: nat): (vs: seq<Value>)
    requires n <= |args| && Cached(args, resources)
    ensures |vs| == n
    ensures forall k | 0 <= k < n :: vs[k] == resources[args[k].url]
  {
    if n == 0 then [] else LoadedValues(args, resources, n - 1) + [resources[args[n - 1].url]]
  }

  predicate FetchesLinked(fetches: seq<Fetch>, n: nat)
  {
    forall f | f in fetches :: f.call < n
  }

  predicate CallsLinked(calls: seq<Call>)
  {
    forall c | c in calls :: Linked(c.request.callback, |calls|)
  }

  predicate WaitersLinked(waiter: map<string, seq<Request>>, n: nat)
  {
    forall u | u in waiter :: forall r | r in waiter[u] :: Linked(r.callback, n)
  }

  predicate AgendaLinked(agenda: seq<Task>, n: nat)
  {
    forall t | t in agenda :: TaskLinked(t, n)
  }

  /*------------------------------------------ the loader ------------------------------------------*/

  class Loader {
    /** Loaded values by URL; `Null` marks a resource that is loading. */
    var resources: map<string, Value>
    /** The calls waiting for a loading resource, by URL. */
    var waiter: map<string, seq<Request>>
    /** Every load call so far, by call number. */
    var calls: seq<Call>
    /** Fetches in flight. */
    var fetches: seq<Fetch>
    /** Released calls and serial steps not yet run. */
    var agenda: seq<Task>
    /** The caller callbacks performed, with their results. */
    var delivered: seq<(nat, Value)>

    /** Everything in flight or pending refers to a call that exists. */
    ghost predicate Valid()
      reads this
    {
      FetchesLinked(fetches, |calls|) && CallsLinked(calls) && WaitersLinked(waiter, |calls|) && AgendaLinked(agenda, |calls|)
    }

    constructor ()
      ensures Valid()
      ensures resources == map[] && waiter == map[] && calls == [] && fetches == [] && agenda == [] && delivered == []
    {
      resources, waiter, calls, fetches, agenda, delivered := map[], map[], [], [], [], [];
    }

    /**
     * `check`: one resource of call `c` fewer to wait for. When none is
     * left the results are handed over, unwrapped when there is at most
     * one, to the call's callback.
     */
    method Check(c: nat) returns (result: Option<Value>)
      requires Valid() && c < |calls|
      modifies this
      ensures Valid()
      ensures calls == old(calls)[c := old(calls[c]).(counter := old(calls[c].counter) - 1)]
      ensures result.Some? <==> old(calls[c].counter) == 1
      ensures result.Some? ==> result.value == Unwrapped(calls[c].results)
      ensures delivered == old(delivered) + (if result.Some? then Notified(calls[c].request.callback, result.value) else [])
      ensures agenda == old(agenda) + (if result.Some? then Continued(calls[c].request.callback, result.value) else [])
      ensures resources == old(resources) && waiter == old(waiter) && fetches == old(fetches)
    {
      var call := calls[c];
      calls := calls[c := call.(counter := call.counter - 1)];
      if call.counter - 1 == 0 {
        var v := Unwrapped(call.results);
        delivered := delivered + Notified(call.request.callback, v);
        agenda := agenda + Continued(call.request.callback, v);
        assert forall t | t in Continued(call.request.callback, v) :: TaskLinked(t, |calls|) by {
          assert call in old(calls);
        }
        result := Some(v);
      } else {
        result := None;
      }
    }

    /**
     * The waiting loop of `success`: the calls on the waitlist of `url`
     * are popped one by one, last queued first, and released.
     */
    method Drain(url: string)
      requires Valid()
      modifies this
      ensures Valid()
      ensures waiter == if url in old(waiter) then old(waiter)[url := []] else old(waiter)
      ensures agenda == old(agenda) + Popped(Waitlist(old(waiter), url))
      ensures calls == old(calls) && resources == old(resources) && fetches == old(fetches) && delivered == old(delivered)
    {
      var queue := Waitlist(waiter, url);
      assert forall r | r in queue :: Linked(r.callback, |calls|);
      var m := |queue|;
      assert url in old(waiter) ==> waiter == old(waiter)[url := queue[..m]] by {
        if url in old(waiter) {
          assert queue[..m] == old(waiter)[url];
        }
      }
      while m > 0
        invariant 0 <= m <= |queue|
        invariant url in old(waiter) ==> waiter == old(waiter)[url := queue[..m]]
        invariant url !in old(waiter) ==> waiter == old(waiter) && queue == []
        invariant agenda == old(agenda) + Popped(queue[m..])
        invariant calls == old(calls) && resources == old(resources) && fetches == old(fetches) && delivered == old(delivered)
        invariant forall r | r in queue :: Linked(r.callback, |calls|)
        invariant WaitersLinked(waiter, |calls|) && AgendaLinked(agenda, |calls|)
      {
        assert Popped(queue[m - 1..]) == Popped(queue[m..]) + [Reissue(queue[m - 1])] by {
          assert queue[m - 1..][1..] == queue[m..];
        }
        assert queue[m - 1] in queue;
        assert forall r | r in queue[..m - 1] :: r in queue;
        m := m - 1;
        agenda := agenda + [Reissue(queue[m])];
        waiter := waiter[url := queue[..m]];
      }
      assert queue[0..] == queue;
    }

    /**
     * `success`: argument `i` of call `c` is loaded. Without a value of
     * its own its result (and the cached value) is the URL; every call on
     * the URL's waitlist is released, last queued first; then `check`.
     */
    method Success(c: nat, i: nat, url: string) returns (result: Option<Value>)
      requires Valid() && c < |calls|
      modifies this
      ensures Valid()
      ensures var unset := Get(old(calls[c].results), i).Undef?;
        resources == (if unset then old(resources)[url := Str(url)] else old(resources)) &&
        calls == old(calls)[c := old(calls[c]).(counter := old(calls[c].counter) - 1,
          results := if unset then Assign(old(calls[c].results), i, Str(url)) else old(calls[c].results))]
      ensures waiter == if url in old(waiter) then old(waiter)[url := []] else old(waiter)
      ensures fetches == old(fetches)
      ensures result.Some? <==> old(calls[c].counter) == 1
      ensures result.Some? ==> result.value == Unwrapped(calls[c].results)
      ensures delivered == old(delivered) + (if result.Some? then Notified(calls[c].request.callback, result.value) else [])
      ensures agenda == old(agenda) + Popped(Waitlist(old(waiter), url)) +
        (if result.Some? then Continued(calls[c].request.callback, result.value) else [])
    {
      if Get(calls[c].results, i).Undef? {
        calls := calls[c := calls[c].(results := Assign(calls[c].results, i, Str(url)))];
        resources := resources[url := Str(url)];
      }
      Drain(url);
      result := Check(c);
    }

    /**
     * `caching`, for a guarded URL that `loadResource` has just marked
     * loading (`resource` is what the cache held before): a URL that was
     * loading puts the call on the URL's waitlist, once per call, and is
     * not fetched again; a URL loaded with a truthy value reuses it and
     * succeeds at once; any other URL is fetched.
     */
    method Caching(c: nat, i: nat, url: string, resource: Option<Value>)
      requires Valid() && c < |calls| && calls[c].counter >= 2
      requires url in resources && resources[url] == Null
      modifies this
      ensures Valid() && delivered == old(delivered)
      ensures resource == Some(Null) ==>
        calls == old(calls)[c := old(calls[c]).(waiting := true)] &&
        resources == old(resources) && fetches == old(fetches) && agenda == old(agenda) &&
        waiter == (if old(calls[c].waiting) then old(waiter)
                   else old(waiter)[url := Waitlist(old(waiter), url) + [old(calls[c].request)]])
      ensures resource.Some? && Truthy(resource.value) ==>
        calls == old(calls)[c := old(calls[c]).(counter := old(calls[c].counter) - 1,
          results := Assign(old(calls[c].results), i, resource.value))] &&
        resources == old(resources)[url := resource.value] && fetches == old(fetches) &&
        waiter == (if url in old(waiter) then old(waiter)[url := []] else old(waiter)) &&
        agenda == old(agenda) + Popped(Waitlist(old(waiter), url))
      ensures resource != Some(Null) && !(resource.Some? && Truthy(resource.value)) ==>
        calls == old(calls) && resources == old(resources) && waiter == old(waiter) && agenda == old(agenda) &&
        fetches == old(fetches) + [Fetch(c, i, url, Classify(url))]
    {
      if resource == Some(Null) {
        if !calls[c].waiting {
          assert calls[c] in calls;
          waiter := waiter[url := Waitlist(waiter, url) + [calls[c].request]];
          calls := calls[c := calls[c].(waiting := true)];
        } else {
          calls := calls[c := calls[c].(waiting := true)];
          assert calls == old(calls);
        }
        return;
      }
      if resource.Some? && Truthy(resource.value) {
        calls := calls[c := calls[c].(results := Assign(calls[c].results, i, resource.value))];
        resources := resources[url := resource.value];
        var ignored := Success(c, i, url);
        return;
      }
      fetches := fetches + [Fetch(c, i, url, Classify(url))];
    }

    /**
     * Argument `i` of call `c` (`loadResource`): the counter goes up by
     * one; an array starts serial loading with an empty result array; a
     * URL is marked loading, and then a data exchange is fetched unless
     * the call already waits for another resource, while any other URL
     * goes through `Caching`: a cached truthy value is reused and releases
     * the URL's waiters, a URL still loading makes the call wait, and
     * anything else is fetched.
     */
    method LoadResource(c: nat, i: nat, r: Resource)
      requires Valid() && c < |calls| && calls[c].counter >= 1
      modifies this
      ensures Valid() && delivered == old(delivered)
      ensures |calls| == |old(calls)| && calls == old(calls)[c := calls[c]]
      ensures calls[c].request == old(calls[c].request) && calls[c].counter >= 1
      ensures old(fetches) <= fetches && forall k | |old(fetches)| <= k < |fetches| :: fetches[k].call == c
      ensures r.Group? ==>
        calls[c] == old(calls[c]).(counter := old(calls[c].counter) + 1, results := Assign(old(calls[c].results), i, Arr([]))) &&
        agenda == old(agenda) + [Serial(c, i, r.items, None)] &&
        resources == old(resources) && waiter == old(waiter) && fetches == old(fetches)
      ensures !r.Group? && !Cacheable(r) ==>
        calls[c] == old(calls[c]).(counter := old(calls[c].counter) + 1) &&
        resources == old(resources)[r.url := Null] && waiter == old(waiter) && agenda == old(agenda) &&
        fetches == old(fetches) + (if old(calls[c].waiting) then [] else [Fetch(c, i, r.url, Data)])
      ensures Cacheable(r) ==>
        fetches == old(fetches) || fetches == old(fetches) + [Fetch(c, i, r.url, Classify(r.url))]
      ensures Cacheable(r) && r.url in old(resources) && Truthy(old(resources)[r.url]) ==>
        calls[c] == old(calls[c]).(results := Assign(old(calls[c].results), i, old(resources)[r.url])) &&
        resources == old(resources) && fetches == old(fetches) &&
        waiter == (if r.url in old(waiter) then old(waiter)[r.url := []] else old(waiter)) &&
        agenda == old(agenda) + Popped(Waitlist(old(waiter), r.url))
      ensures Cacheable(r) && r.url in old(resources) && old(resources)[r.url] == Null ==>
        calls[c] == old(calls[c]).(counter := old(calls[c].counter) + 1, waiting := true) &&
        resources == old(resources) && fetches == old(fetches) && agenda == old(agenda) &&
        waiter == (if old(calls[c].waiting) then old(waiter)
                   else old(waiter)[r.url := Waitlist(old(waiter), r.url) + [old(calls[c].request)]])
      ensures Cacheable(r) && !(r.url in old(resources) && (Truthy(old(resources)[r.url]) || old(resources)[r.url] == Null)) ==>
        calls[c] == old(calls[c]).(counter := old(calls[c].counter) + 1) &&
        resources == old(resources)[r.url := Null] && waiter == old(waiter) && agenda == old(agenda) &&
        fetches == old(fetches) + [Fetch(c, i, r.url, Classify(r.url))]
    {
      if r.Group? {
        BeginSerial(c, i, r.items);
      } else {
        LoadUrl(c, i, r);
      }
    }

    /** A URL argument of `ccm.load`: a data exchange is always fetched, any other URL goes through the cache. */
    method LoadUrl(c: nat, i: nat, r: Resource)
      requires Valid() && c < |calls| && calls[c].counter >= 1 && !r.Group?
      modifies this
      ensures Valid() && delivered == old(delivered)
      ensures |calls| == |old(calls)| && calls == old(calls)[c := calls[c]]
      ensures calls[c].request == old(calls[c].request) && calls[c].counter >= 1
      ensures old(fetches) <= fetches && forall k | |old(fetches)| <= k < |fetches| :: fetches[k].call == c
      ensures !Cacheable(r) ==>
        calls[c] == old(calls[c]).(counter := old(calls[c].counter) + 1) &&
        resources == old(resources)[r.url := Null] && waiter == old(waiter) && agenda == old(agenda) &&
        fetches == old(fetches) + (if old(calls[c].waiting) then [] else [Fetch(c, i, r.url, Data)])
      ensures Cacheable(r) ==>
        fetches == old(fetches) || fetches == old(fetches) + [Fetch(c, i, r.url, Classify(r.url))]
      ensures Cacheable(r) && r.url in old(resources) && Truthy(old(resources)[r.url]) ==>
        calls[c] == old(calls[c]).(results := Assign(old(calls[c].results), i, old(resources)[r.url])) &&
        resources == old(resources) && fetches == old(fetches) &&
        waiter == (if r.url in old(waiter) then old(waiter)[r.url := []] else old(waiter)) &&
        agenda == old(agenda) + Popped(Waitlist(old(waiter), r.url))
      ensures Cacheable(r) && r.url in old(resources) && old(resources)[r.url] == Null ==>
        calls[c] == old(calls[c]).(counter := old(calls[c].counter) + 1, waiting := true) &&
        resources == old(resources) && fetches == old(fetches) && agenda == old(agenda) &&
        waiter == (if old(calls[c].waiting) then old(waiter)
                   else old(waiter)[r.url := Waitlist(old(waiter), r.url) + [old(calls[c].request)]])
      ensures Cacheable(r) && !(r.url in old(resources) && (Truthy(old(resources)[r.url]) || old(resources)[r.url] == Null)) ==>
        calls[c] == old(calls[c]).(counter := old(calls[c].counter) + 1) &&
        resources == old(resources)[r.url := Null] && waiter == old(waiter) && agenda == old(agenda) &&
        fetches == old(fetches) + [Fetch(c, i, r.url, Classify(r.url))]
    {
      if !Cacheable(r) {
        MarkLoading(c, r.url);
        Exchange(c, i, r.url);
      } else {
        LoadCached(c, i, r.url);
      }
    }

    /**
     * A cacheable URL: marked loading and counted, then its cached value
     * decides. A truthy value is reused, a URL still loading waits, and
     * anything else (no entry, or a falsy value other than the `null`
     * sentinel) is fetched.
     */
    method LoadCached(c: nat, i: nat, url: string)
      requires Valid() && c < |calls| && calls[c].counter >= 1
      modifies this
      ensures Valid() && delivered == old(delivered)
      ensures |calls| == |old(calls)| && calls == old(calls)[c := calls[c]]
      ensures calls[c].request == old(calls[c].request) && calls[c].counter >= 1
      ensures fetches == old(fetches) || fetches == old(fetches) + [Fetch(c, i, url, Classify(url))]
      ensures url in old(resources) && Truthy(old(resources)[url]) ==>
        calls[c] == old(calls[c]).(results := Assign(old(calls[c].results), i, old(resources)[url])) &&
        resources == old(resources) && fetches == old(fetches) &&
        waiter == (if url in old(waiter) then old(waiter)[url := []] else old(waiter)) &&
        agenda == old(agenda) + Popped(Waitlist(old(waiter), url))
      ensures url in old(resources) && old(resources)[url] == Null ==>
        calls[c] == old(calls[c]).(counter := old(calls[c].counter) + 1, waiting := true) &&
        resources == old(resources) && fetches == old(fetches) && agenda == old(agenda) &&
        waiter == (if old(calls[c].waiting) then old(waiter)
                   else old(waiter)[url := Waitlist(old(waiter), url) + [old(calls[c].request)]])
      ensures !(url in old(resources) && (Truthy(old(resources)[url]) || old(resources)[url] == Null)) ==>
        calls[c] == old(calls[c]).(counter := old(calls[c].counter) + 1) &&
        resources == old(resources)[url := Null] && waiter == old(waiter) && agenda == old(agenda) &&
        fetches == old(fetches) + [Fetch(c, i, url, Classify(url))]
    {
      var resource := if url in resources then Some(resources[url]) else None;
      MarkLoading(c, url);
      Caching(c, i, url, resource);
      if resource.Some? && Truthy(resource.value) {
        assert resources == old(resources);
      } else if resource == Some(Null) {
        assert old(resources)[url := Null] == old(resources);
      }
    }

    /** An array argument: counted, with an empty result array, and its first item scheduled. */
    method BeginSerial(c: nat, i: nat, items: seq<Resource>)
      requires Valid() && c < |calls|
      modifies this
      ensures Valid()
      ensures calls == old(calls)[c := old(calls[c]).(counter := old(calls[c].counter) + 1, results := Assign(old(calls[c].results), i, Arr([])))]
      ensures agenda == old(agenda) + [Serial(c, i, items, None)]
      ensures resources == old(resources) && waiter == old(waiter) && fetches == old(fetches) && delivered == old(delivered)
    {
      calls := calls[c := calls[c].(counter := calls[c].counter + 1, results := Assign(calls[c].results, i, Arr([])))];
      agenda := agenda + [Serial(c, i, items, None)];
    }

    /** A URL argument: marked loading and counted. */
    method MarkLoading(c: nat, url: string)
      requires Valid() && c < |calls|
      modifies this
      ensures Valid()
      ensures calls == old(calls)[c := old(calls[c]).(counter := old(calls[c].counter) + 1)]
      ensures resources == old(resources)[url := Null]
      ensures agenda == old(agenda) && waiter == old(waiter) && fetches == old(fetches) && delivered == old(delivered)
    {
      calls := calls[c := calls[c].(counter := calls[c].counter + 1)];
      resources := resources[url := Null];
    }

    /** `exchangeData`: fetched, unless the call already waits for another resource. */
    method Exchange(c: nat, i: nat, url: string)
      requires Valid() && c < |calls|
      modifies this
      ensures Valid()
      ensures fetches == old(fetches) + (if old(calls[c].waiting) then [] else [Fetch(c, i, url, Data)])
      ensures calls == old(calls) && resources == old(resources) && agenda == old(agenda) && waiter == old(waiter) && delivered == old(delivered)
    {
      if !calls[c].waiting {
        fetches := fetches + [Fetch(c, i, url, Data)];
      }
    }

    /**
     * The loop of `ccm.load` over the arguments of call `c`. New fetches
     * all belong to `c`, and arguments that are all loaded already are
     * reused as they are: no fetch, and their cached values as results.
     */
    method LoadAll(c: nat)
      requires Valid() && c < |calls| && calls[c].counter >= 1
      modifies this
      ensures Valid() && delivered == old(delivered)
      ensures |calls| == |old(calls)| && calls == old(calls)[c := calls[c]]
      ensures calls[c].request == old(calls[c].request) && calls[c].counter >= 1
      ensures old(fetches) <= fetches && forall k | |old(fetches)| <= k < |fetches| :: fetches[k].call == c
      ensures var args := old(calls[c].request.args);
        AllLoaded(args, old(resources)) && old(calls[c].results) == [] ==>
          fetches == old(fetches) && resources == old(resources) && calls[c].counter == old(calls[c].counter) &&
          calls[c].results == LoadedValues(args, old(resources), |args|)
    {
      var args := calls[c].request.args;
      ghost var loaded := AllLoaded(args, resources) && calls[c].results == [];
      ghost var counter0 := calls[c].counter;
      var i := 0;
      while i < |args|
        invariant 0 <= i <= |args|
        invariant Valid() && delivered == old(delivered)
        invariant |calls| == |old(calls)| && calls == old(calls)[c := calls[c]]
        invariant calls[c].request == old(calls[c].request) && calls[c].counter >= 1
        invariant old(fetches) <= fetches && forall k | |old(fetches)| <= k < |fetches| :: fetches[k].call == c
        invariant loaded ==>
          fetches == old(fetches) && resources == old(resources) && calls[c].counter == counter0 &&
          calls[c].results == LoadedValues(args, old(resources), i)
      {
        LoadArgument(c, i, loaded, old(resources), counter0);
        i := i + 1;
      }
    }

    /** One pass of the loop of `LoadAll`: argument `i` is loaded, and a loaded argument only adds its cached value. */
    method LoadArgument(c: nat, i: nat, ghost loaded: bool, ghost resources0: map<string, Value>, ghost counter0: nat)
      requires Valid() && c < |calls| && calls[c].counter >= 1 && i < |calls[c].request.args|
      requires var args := calls[c].request.args;
        loaded ==> (AllLoaded(args, resources0) && resources == resources0 && calls[c].counter == counter0 &&
                    calls[c].results == LoadedValues(args, resources0, i))
      modifies this
      ensures Valid() && delivered == old(delivered)
      ensures |calls| == |old(calls)| && calls == old(calls)[c := calls[c]]
      ensures calls[c].request == old(calls[c].request) && calls[c].counter >= 1
      ensures old(fetches) <= fetches && forall k | |old(fetches)| <= k < |fetches| :: fetches[k].call == c
      ensures var args := calls[c].request.args;
        loaded ==> (fetches == old(fetches) && resources == resources0 && calls[c].counter == counter0 &&
                    calls[c].results == LoadedValues(args, resources0, i + 1))
    {
      var args := calls[c].request.args;
      ghost var prior := calls[c].results;
      LoadResource(c, i, args[i]);
      if loaded {
        assert calls[c].results == LoadedValues(args, resources0, i + 1) by {
          assert calls[c].results == Assign(prior, i, resources0[args[i].url]);
        }
      }
    }

    /**
     * `ccm.load(...args, callback)`: a new call with counter 1 goes through
     * its arguments in order and then runs `check`, so it finishes at
     * once when nothing had to be fetched or waited for. Arguments that
     * are all loaded already are reused as they are, with no fetch, and
     * their values are the result.
     */
    method Start(request: Request) returns (c: nat, result: Option<Value>)
      requires Valid() && Linked(request.callback, |calls|)
      modifies this
      ensures Valid()
      ensures c == |old(calls)| && |calls| == c + 1 && old(calls) <= calls && calls[c].request == request
      ensures old(fetches) <= fetches && forall k | |old(fetches)| <= k < |fetches| :: fetches[k].call == c
      ensures result.Some? <==> calls[c].counter == 0
      ensures result.Some? ==> result.value == Unwrapped(calls[c].results)
      ensures delivered == old(delivered) + (if result.Some? then Notified(request.callback, result.value) else [])
      ensures AllLoaded(request.args, old(resources)) ==>
        fetches == old(fetches) && resources == old(resources) &&
        result == Some(Unwrapped(LoadedValues(request.args, old(resources), |request.args|)))
    {
      c := |calls|;
      calls := calls + [Call(request, 1, [], false)];
      ghost var added := calls;
      LoadAll(c);
      assert old(calls) <= calls by {
        assert calls[..c] == added[..c];
      }
      result := Check(c);
    }

    /**
     * A fetch completes (the transport's callback): a fetch that delivers
     * content stores it as the result and the cached value (`successData`),
     * then `success` runs as for every kind.
     */
    method Complete(f: nat, received: Value) returns (result: Option<Value>)
      requires Valid() && f < |fetches|
      modifies this
      ensures Valid()
      ensures fetches == old(fetches[..f] + fetches[f + 1..])
      ensures var ft := old(fetches[f]);
        var results0 := if Delivers(ft.kind) then Assign(old(calls[ft.call].results), ft.index, received) else old(calls[ft.call].results);
        var resources0 := if Delivers(ft.kind) then old(resources)[ft.url := received] else old(resources);
        var unset := Get(results0, ft.index).Undef?;
        resources == (if unset then resources0[ft.url := Str(ft.url)] else resources0) &&
        calls == old(calls)[ft.call := old(calls[ft.call]).(counter := old(calls[ft.call].counter) - 1,
          results := if unset then Assign(results0, ft.index, Str(ft.url)) else results0)] &&
        waiter == (if ft.url in old(waiter) then old(waiter)[ft.url := []] else old(waiter)) &&
        (result.Some? <==> old(calls[ft.call].counter) == 1) &&
        (result.Some? ==> result.value == Unwrapped(calls[ft.call].results)) &&
        delivered == old(delivered) + (if result.Some? then Notified(calls[ft.call].request.callback, result.value) else []) &&
        agenda == old(agenda) + Popped(Waitlist(old(waiter), ft.url)) +
          (if result.Some? then Continued(calls[ft.call].request.callback, result.value) else [])
    {
      var ft := fetches[f];
      assert ft in fetches;
      fetches := fetches[..f] + fetches[f + 1..];
      if Delivers(ft.kind) {
        calls := calls[ft.call := calls[ft.call].(results := Assign(calls[ft.call].results, ft.index, received))];
        resources := resources[ft.url := received];
      }
      result := Success(ft.call, ft.index, ft.url);
    }

    /**
     * Runs the next deferred task: a released call starts over as a new
     * call with the same arguments and callback; a serial step adds the
     * result it carries to the collected ones unless it is `null` (`serial`
     * skips a `null` result) and loads the next item, or
     * runs `check` on its call when no item is left.
     */
    method Step() returns (result: Option<Value>)
      requires Valid() && |agenda| > 0
      modifies this
      ensures Valid()
      ensures old(agenda[0]).Reissue? ==> |calls| == |old(calls)| + 1 && calls[|old(calls)|].request == old(agenda[0]).request
      ensures old(agenda[0]).Serial? && |old(agenda[0]).rest| > 0 ==>
        var t := old(agenda[0]);
        |calls| == |old(calls)| + 1 &&
        calls[|old(calls)|].request == Request(ArgsOf(t.rest[0]), SerialStep(t.parent, t.index, t.rest[1..]))
      ensures old(agenda[0]).Serial? && |old(agenda[0]).rest| == 0 && old(agenda[0]).parent < |old(calls)| ==>
        var t := old(agenda[0]);
        var collected := Get(old(calls[t.parent].results), t.index);
        var results := if t.result.Some? && !t.result.value.Null? then Assign(old(calls[t.parent].results), t.index, Arr(Items(collected) + [t.result.value]))
                       else old(calls[t.parent].results);
        calls == old(calls)[t.parent := old(calls[t.parent]).(counter := old(calls[t.parent].counter) - 1, results := results)] &&
        (result.Some? <==> old(calls[t.parent].counter) == 1) &&
        (result.Some? ==> result.value == Unwrapped(results)) &&
        agenda == old(agenda[1..]) + (if result.Some? then Continued(calls[t.parent].request.callback, result.value) else [])
    {
      var t := agenda[0];
      assert t in agenda;
      agenda := agenda[1..];
      match t
      case Reissue(request) =>
        var c;
        c, result := Start(request);
      case Serial(parent, index, rest, carried) =>
        if carried.Some? && !carried.value.Null? {
          var collected := Get(calls[parent].results, index);
          calls := calls[parent := calls[parent].(results := Assign(calls[parent].results, index, Arr(Items(collected) + [carried.value])))];
        }
        if |rest| > 0 {
          var c;
          c, result := Start(Request(ArgsOf(rest[0]), SerialStep(parent, index, rest[1..])));
        } else {
          result := Check(parent);
        }
    }
  }
}
