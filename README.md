# ccm core, modelled in Dafny

This project models the core of `ccm.js`, the *client-side component model*
framework, and proves properties of that model. The framework registers
components, creates instances from them, and resolves the dependencies
declared in instance configurations (`ccm.load`, `ccm.component`,
`ccm.instance`, `ccm.proxy`, `ccm.store`, `ccm.dataset`). It also hands out
datastores over a local record cache. The model covers these modules:

- `JsStrings` (`strings.dfy`) and `JsValues` (`values.dfy`): the JavaScript
  values the framework works on.
  - Objects are property lists kept in the order `for ... in` visits them:
    array-index names first, ascending, then the other names in insertion
    order. `Put` inserts a new name at its place in that order.
  - Instances, datastores, components and DOM nodes each have a constructor
    of their own.
  - Truthiness, `isObject`, `isInstance`, `isProxy`, `isComponent`,
    `isDatastore` and `isDependency` are modelled.
- `Helpers` (`helpers.dfy`): the data helpers of `ccm.helper`.
  - `clone`, `deepValue`, `integrate`, `isSubset`, `filterProperties`,
    `privatize`.
  - The `key` pattern, checked one character at a time.
  - `generateKey`.
- `Datastores` (`datastore.dfy`): a `Datastore` class over the local cache
  `my.local`.
  - `get`, `set`, `del`, `getLocal`, `setLocal`, `updateLocal`, `delLocal`.
  - The realtime path: `useWebsocket` with 1-based reply slots,
    `checkResponse`, and the `onmessage` dispatch.
- `Registry` (`registry.dfy`): `ccm.component`.
  - `getIndex`, `setIndex`.
  - First-time-only registration, with its `setup`.
  - `finish`, with an overriding default configuration.
- `Instances` (`instance.dfy`): the bookkeeping of `ccm.instance`.
  - How an instance is configured and numbered.
  - The dependency walk of `solveDependencies`.
  - The switch of `solveDependency`.
  - The counter and FIFO waitlist that `check` drives.
  - `setResult`.
- `Lifecycle` (`lifecycle.dfy`): `initialize`.
  - `find` discovers the instances and datastores of an instance tree.
  - `init` hooks then run in discovery order, and `ready` hooks in reverse
    order.
  - Both are recorded as a trace of events.
- `Interning` (`stores.dfy`): `ccm.store`.
  - Settings normalisation.
  - `getSource`.
  - The `stores` map, which hands out one datastore per source.
- `Loading` (`loader.dfy`): `ccm.load`.
  - The shared `resources` cache, where `null` marks a resource that is still
    loading.
  - The per-URL `waiter` lists.
  - Each call's counter and results.
  - `caching`, `success`, `successData`, `check`, serial loading, and suffix
    classification.
- `Contexts` (`context.dfy`): `ccm.context.find` and `ccm.context.root` along
  the `parent` chain.

Asynchronous callbacks are modelled as explicit steps:

- The completion of a fetch is `Loading.Loader.Complete`.
- The arrival of a dependency result is `Instances.Engine.Settle`.
- A server message is `Datastores.Datastore.OnMessage`.

The clock and the random number of `generateKey` are parameters.

Where the code and its doc comments disagree, the model follows the code:

- The `filename` pattern requires the `ccm.` prefix, although a doc comment
  calls it optional.
- `context.find` returns the property of the *nearest* qualifying ancestor.
  Its doc comment says "highest".
- `integrate` skips properties whose value is `undefined`, because
  `deepValue` with an undefined value only reads. A doc example shows such a
  property being written.

## Model

| member | source | states |
|---|---|---|
| Helpers.Clone | ccm/ccm.js:2499-2518 | the copy contains no instance object. Values without instance objects are copied to an equal value. An instance becomes a plain object with the same property names. Truthiness and the kind of record are kept |
| JsValues.PutOrdered | ccm/ccm.js:827 | writing a property keeps a property list in `for ... in` order: array-index names first, ascending, then the others in insertion order |
| JsValues.RemoveOrdered | ccm/ccm.js:862-863 | deleting a property keeps a property list in `for ... in` order |
| Helpers.CloneIdempotent | ccm/ccm.js:2499-2518 | copying a copy gives the same copy |
| Helpers.DeepPath | ccm/ccm.js:2597-2606 | reading leaves the object unchanged. A falsy object gives undefined and is not changed. A set returns the value written exactly when it gets to the last segment (`Reaches`), and undefined otherwise, as when a truthy primitive sits on the path. The object keeps its kind (record, array or other) and its truthiness |
| Helpers.SetProp | ccm/ccm.js:2602 | `obj[next] = value`: a record takes the property and an array the element at an array index, growing to reach it. Every other property reads as before. Anything else is left as it was. Kind and truthiness are kept |
| Helpers.DeepValue | ccm/ccm.js:2590-2608 | a read (undefined value) leaves the object unchanged. A set returns the value written when it gets to the last segment of the key, and undefined otherwise |
| Helpers.SettableReaches | ccm/ccm.js:2597-2606 | a set along a path whose objects keep their assignments gets to its end, so it returns the value written |
| Helpers.PrimitiveOnPath | ccm/ccm.js:2602-2603 | `deepValue({a: "x"}, "a.b.c", 1)` returns undefined and leaves the object as it was: the string drops `{}` assigned to its property `b` |
| Helpers.DeepSetThenGet | ccm/ccm.js:2597-2606 | after a set along a path whose objects take the assignment (records, and arrays at an array index) and whose intermediate properties are such objects or falsy, reading that path gives the value written |
| Helpers.DeepSetFrame | ccm/ccm.js:2597-2606 | a set along one dot path leaves every read along a path that neither leads into it nor continues it as it was, and keeps that path settable |
| Helpers.DeepSetOther | ccm/ccm.js:2597-2606 | a set leaves every path that starts with another property reading as before, and settable |
| Helpers.Integrated | ccm/ccm.js:3103-3122 | the result is truthy exactly when the priority data or the dataset is |
| Helpers.Integrate | ccm/ccm.js:3103-3122 | the loop over the priority data's properties computes `Integrated` (no priority data gives the dataset; no dataset gives the priority data) |
| Helpers.IntegrateFieldsFrame | ccm/ccm.js:3114-3119 | properties whose dot paths neither lead into a path nor continue it (or whose value is undefined) leave that path reading as before and keep it settable |
| Helpers.IntegrateFieldsWrites | ccm/ccm.js:3114-3119 | when no defined property's dot path leads into another's, every defined property written along a settable path reads back afterwards |
| Helpers.PriorityWins | ccm/ccm.js:3103-3122 | after integrating two records whose defined priority paths do not lead into one another, every defined priority property reads back by its dot path. Every path that no defined priority path leads into or continues reads as in the dataset, so `{a: {x: 1}}` merged with `{'a.y': 9}` keeps `a.x` |
| Helpers.IsSubset | ccm/ccm.js:3273-3285 | true exactly when every property of the query has an equal value in the other object. Objects are compared by content |
| Helpers.EmptyQueryMatchesAll | ccm/ccm.js:3273-3285 | `{}` is a subset of every value |
| Helpers.FilterProperties | ccm/ccm.js:2673-2680 | the result is a plain object with distinct names. It holds each listed property with its value in the source object, and no other property |
| Helpers.Privatize | ccm/ccm.js:3392-3422 | the loop over the given names (or over every member when the first name is falsy) computes the specified moves |
| Helpers.PrivatizeMoves | ccm/ccm.js:3403-3419 | a visited member that is not protected is deleted and its defined value moves to the private object. Protected members are the ten kept names and child instances of this instance. Protected and unvisited members stay put |
| Helpers.PrivatizeResult | ccm/ccm.js:3392-3422 | per member name: either gone from the instance and its value in the returned object, or left on the instance and absent from the returned object |
| Helpers.KeyRejects | ccm/ccm.js:3463 | a key with a character outside `[a-zA-Z_0-9]` fails the key pattern |
| Helpers.GenerateKey | ccm/ccm.js:2897-2901 | the key starts with the time's digits and `X` |
| Helpers.GeneratedKeyCanFail | ccm/ccm.js:2897-2901 | the key made from the random text "1.5e-7" fails the key pattern |
| Helpers.GenerateValidKey | ccm/ccm.js:2897-2901 | every key it makes passes the key pattern |
| Helpers.GeneratedKeysAgree | ccm/ccm.js:2897-2901 | on random text of the form "0.digits", both generators give the same key |
| Datastores.Updated | ccm/ccm.js:820-832 | the record under the key becomes the merge of the priority data into the cached record (or the priority data when none is cached). Other records are unchanged. Distinct names are kept |
| Datastores.QueryExactly | ccm/ccm.js:650-693 | the query results are exactly the copies of the cached records the query is a subset of |
| Datastores.QueryRecords | ccm/ccm.js:650-693 | the loop over the cached records gives `Query`: copies of the records the query is a subset of, in cache order, which is the `for ... in` order of `my.local` |
| Datastores.EmptyQueryReturnsAll | ccm/ccm.js:257-260 | an omitted or empty query returns a copy of every cached record, in cache order (the `for ... in` order of `my.local`) |
| Datastores.SetRejectsInvalidKey | ccm/ccm.js:441-453 | `set` with a truthy key outside the key pattern returns `null` and leaves the cache as it was |
| Datastores.KeyedShape | ccm/ccm.js:444-447 | after cloning and key generation, the priority data is a plain object with a truthy key or the generated one |
| Datastores.ValidKeyIsSingle | ccm/ccm.js:632 | a truthy key that passes the pattern selects one record, not a query |
| Datastores.SetGeneratesKey | ccm/ccm.js:447 | a record without a key is stored under the key of the corrected generator, and `set` returns a non-null result |
| Datastores.SetAsWrittenRejects | ccm/ccm.js:441-453 | `set` with the key `generateKey` makes as written: a record without a key is refused with `null` when the random number prints as "1.5e-7", and the cache stays as it was |
| Datastores.SetAsWrittenAgrees | ccm/ccm.js:441-453 | when the random number's text is all digits after its first two characters (as in "0.123"), `set` with the key as written and with the corrected key give the same result and cache |
| Datastores.SetThenGetNewKey | ccm/ccm.js:820-832 | `set` with a new key caches the cloned, keyed priority data and returns it |
| Datastores.SetThenGetExistingKey | ccm/ccm.js:820-832 | `set` with a cached key returns a record in which every defined priority property reads back by dot path. Every path that no defined priority path leads into or continues reads as in the old record |
| Datastores.SetKeepsOtherRecords | ccm/ccm.js:820-832 | `set` changes no other record |
| Datastores.DeleteThenGet | ccm/ccm.js:841-873 | after deleting a key, getting it gives `null` and other records stay. With no key, the whole cache is emptied |
| Datastores.Handler | ccm/ccm.js:181 | a reply numbered n reaches a handler exactly when 1 <= n <= the number of handlers |
| Datastores.SlotsAreStable | ccm/ccm.js:916-917 | registering more handlers never changes where an earlier reply goes |
| Datastores.CheckResponse | ccm/ccm.js:940-953 | a response passes exactly when it is not a string |
| Datastores.Datastore.constructor | ccm/ccm.js:138-166 | a datastore over the given cache, with no handlers, messages or changes |
| Datastores.Datastore.GetLocal | ccm/ccm.js:629-708 | no key or an object key is a query over the cache. Anything else is the copy of one record, or `null` |
| Datastores.Datastore.Get | ccm/ccm.js:254-275 | a function or no argument asks for every record. Otherwise the result is `getLocal` of the key or query |
| Datastores.Datastore.SetLocal | ccm/ccm.js:807-811 | a dataset with a truthy key is cached under it. Without one, nothing changes |
| Datastores.Datastore.UpdateLocal | ccm/ccm.js:820-832 | for priority data other than `null` and undefined (on which reading `priodata.key` throws), the cache becomes `Updated`, and the result is the copy of the record now cached |
| Datastores.Datastore.Merge | ccm/ccm.js:820-832 | the cache becomes `Updated` (merge into the cached record, or insert), and the handlers, messages and changes stay |
| Datastores.Datastore.DelLocal | ccm/ccm.js:841-873 | returns the deleted record, or with no key the whole cache, and removes it |
| Datastores.Datastore.Set | ccm/ccm.js:441-470 | clone, give a missing key the corrected generated key, reject a key outside the pattern with `null`, else `updateLocal` |
| Datastores.Datastore.Del | ccm/ccm.js:546-561 | the local-cache `del` is `delLocal` |
| Datastores.Datastore.UseWebsocket | ccm/ccm.js:914-920 | the handler is appended, the request is numbered with its 1-based slot and sent, and that slot reaches the handler |
| Datastores.Datastore.RequestSet | ccm/ccm.js:441-523 | a valid keyed request (a missing key is generated by the corrected generator) is sent with a fresh reply slot. An invalid key gives `null` and sends nothing |
| Datastores.Datastore.RequestDel | ccm/ccm.js:588-614 | the delete request is sent with a fresh reply slot |
| Datastores.Datastore.OnMessage | ccm/ccm.js:175-194 | a `null` message is a fault and changes nothing. A numbered reply goes to its handler. A set reply without data (`null` or missing) is a fault and changes nothing. Otherwise a set or delete takes effect only when `checkResponse` passes. An unknown slot is a fault. Any other message updates the cache when it is an object, and otherwise deletes. `onChange` hears the result |
| Datastores.Datastore.OnReply | ccm/ccm.js:497-614 | an unknown slot is a fault and changes nothing. A set reply without data is a fault and changes nothing, because `updateLocal` throws at `priodata.key`. Any other set reply that passes `checkResponse` updates the cache, and a delete reply that passes removes its key. A failing reply changes nothing |
| Datastores.Datastore.OnChange | ccm/ccm.js:184-191 | the cache takes the change (`ChangeApplied`), and `onChange` hears the resulting dataset exactly when it is set |
| Datastores.Datastore.ApplyChange | ccm/ccm.js:187 | an object is merged in as by `updateLocal` and the record now cached is returned. Anything else is deleted as by `delLocal`, which returns the deleted record |
| Registry.GetIndexAsWritten | ccm/ccm.js:1499-1522 | a string without `.js` is returned unchanged. A URL whose file name fails the pattern gives '' |
| Registry.GetIndex | ccm/ccm.js:1499-1522 | a string without `.js` is returned unchanged. A URL whose file name fails the pattern gives '' |
| Registry.FileMatches | ccm/ccm.js:3462 | "ccm." + name[-x.y.z] + [".min"] + ".js" matches the `filename` pattern |
| Registry.FilenameIndex | ccm/ccm.js:1499-1522 | the index of "ccm.<core>.js" and of "ccm.<core>.min.js" is <core>, for example "dummy-3.2.1" |
| Registry.FileIndexOfCore | ccm/ccm.js:1514-1520 | stripping "ccm", "js" and "min" gives back the name and version |
| Registry.UrlIndex | ccm/ccm.js:1508 | only the last path segment of a URL matters |
| Registry.MinNamedComponentLost | ccm/ccm.js:1511-1520 | "ccm.min.js" matches the pattern with the name "min", yet the code gives '' while the corrected index is "min" |
| Registry.MinFileIndexAsWritten | ccm/ccm.js:1516-1519 | as written, the index of "ccm.min.js" is '' |
| Registry.SetIndex | ccm/ccm.js:1527-1557 | a declared index gives the name before '-'. The index is rebuilt as the name, plus '-' and the joined version when there is one |
| Registry.ParseNumeral | ccm/ccm.js:1545 | a numeral parses to its value and prints back unchanged |
| Registry.SetIndexKeepsIndex | ccm/ccm.js:1527-1557 | every index the filename pattern allows survives `setIndex` unchanged |
| Registry.SetIndexOfVersioned | ccm/ccm.js:1527-1557 | "name-x.y.z" with numeral parts is rebuilt unchanged |
| Registry.VersionRoundTrip | ccm/ccm.js:1543-1555 | a version in the pattern's form is parsed and joined back unchanged |
| Registry.UrlFindsDeclared | ccm/ccm.js:1476-1482 | with the corrected `getIndex`, a component file whose declared index matches its file name is found under its URL's index, anywhere it is placed |
| Registry.RegisterMinAsWritten | ccm/ccm.js:1475-1476 | `ccm.component` as written, given the URL of a registered component named "min", looks it up under '' and misses it; the corrected index finds it |
| Registry.Finished | ccm/ccm.js:1600-1620 | `finish` keeps the identity and the counter. Without a given default configuration, the configuration is a copy of the registered one |
| Registry.SetupConfig | ccm/ccm.js:1572 | a new component always has a truthy default configuration (`{}` when none is given) |
| Registry.FinishOverrides | ccm/ccm.js:1609-1612 | every defined property of a given default configuration reads back from the finished component's configuration. Paths that no given path leads into or continues keep the registered values |
| Registry.Components.constructor | ccm/ccm.js:1469 | the registry starts empty |
| Registry.Components.Finish | ccm/ccm.js:1600-1620 | returns `Finished` of the registered component |
| Registry.Components.Register | ccm/ccm.js:1469-1572 | a known index changes nothing. A new index is registered once, with counter 0 and `SetupConfig`, and its `init` runs once. The result is always `finish` |
| Registry.Components.RegisterByUrl | ccm/ccm.js:1475-1476 | a URL whose corrected index is registered is finished at once. Otherwise the component must be loaded first |
| Registry.Components.CountInstance | ccm/ccm.js:1717-1723 | the component's counter goes up by one, and the new value is the id of the new instance |
| Lifecycle.Inner | ccm/ccm.js:1951-1969 | `inner` holds every value that qualifies (non-parent, non-proxy instances; objects and arrays that are not nodes, components or instances). It holds nothing else and never a node or a proxy |
| Lifecycle.InnerPicks | ccm/ccm.js:1951-1969 | `inner` is exactly the qualifying values in enumeration order: it picks them at increasing positions and misses none |
| Lifecycle.Reported | ccm/ccm.js:1974 | exactly the instances and datastores among `inner` |
| Lifecycle.Discover | ccm/ccm.js:1945-1979 | `find` reports only instances and datastores, never a lazy-instance placeholder |
| Lifecycle.DiscoverFinds | ccm/ccm.js:1945-1979 | `find` misses nothing: every instance or datastore reached through values `find` goes on with is reported |
| Lifecycle.InitOnce | ccm/ccm.js:1996 | every `init` hook runs at most once, even for an object found twice |
| Lifecycle.ReadyOnce | ccm/ccm.js:2014-2017 | every `ready` hook runs at most once |
| Lifecycle.InitInDiscoveryOrder | ccm/ccm.js:1984-1997 | without duplicates, `init` runs on exactly the hooked objects in discovery order |
| Lifecycle.ReadyInReverseOrder | ccm/ccm.js:2003-2019 | without duplicates, `ready` runs on exactly the hooked objects in reverse discovery order |
| Lifecycle.ReadyReversesInit | ccm/ccm.js:1984-2019 | for objects with both hooks, the `ready` calls are exactly the reverse of the `init` calls |
| Lifecycle.RootFirst | ccm/ccm.js:1930-1939 | the root instance's `init` is the first call |
| Lifecycle.Hooks.constructor | ccm/ccm.js:1930-1933 | the pending hooks are those of the results, and the trace is empty |
| Lifecycle.Hooks.Initialize | ccm/ccm.js:1939-2020 | the trace is the `init` calls in `InitOrder` followed by the `ready` calls in `ReadyOrder`, and every visited hook is deleted |
| Lifecycle.Hooks.InitAll | ccm/ccm.js:1984-1997 | the index loop calls and deletes each pending `init` in order |
| Lifecycle.Hooks.ReadyAll | ccm/ccm.js:2003-2019 | the popping loop deletes `init`, and deletes then calls each pending `ready`, from the back |
| Instances.AtSetAt | ccm/ccm.js:1841-1846 | a value written at an existing place reads back there |
| Instances.SetAtOther | ccm/ccm.js:1841-1846 | writing at one place leaves every place apart from it unchanged |
| Instances.Walk | ccm/ccm.js:1751-1776 | every dependency reported sits at its position, and the walk reaches it only through objects and arrays it enters (not nodes, instances, components or dependencies) |
| Instances.WalkFinds | ccm/ccm.js:1751-1776 | the walk misses nothing: every dependency reachable through entered values is reported with its position |
| Instances.ElementConfig | ccm/ccm.js:1708 | an element node stands for `{element: node}` |
| Instances.FreshParent | ccm/ccm.js:1719 | `parent` is set only when there is a parent |
| Instances.CreatedStamps | ccm/ccm.js:1725-1727 | `id` is the component's counter, `index` is the component index + '-' + id, and `component` is the registered component |
| Instances.CreatedKeeps | ccm/ccm.js:1723-1727 | every other property is as the configurations left it |
| Instances.CreatedIsInstance | ccm/ccm.js:1727 | a created instance counts as an instance and not as a lazy placeholder |
| Instances.CreatedReads | ccm/ccm.js:1723-1727 | paths not starting with `id`, `index` or `component` read as in the configured instance |
| Instances.InstanceConfigWins | ccm/ccm.js:1723-1724 | when the paths the instance configuration sets do not lead into one another, every defined property of it reads back from the instance, whatever the defaults said |
| Instances.DefaultsApply | ccm/ccm.js:1723-1724 | a path that no path set by the instance configuration leads into or continues reads as after the defaults alone |
| Instances.ConfiguredDefaults | ccm/ccm.js:1723-1724 | before the stamps, a path that no path set by the instance configuration leads into or continues reads as after the defaults alone |
| Instances.PlaceholderIsProxy | ccm/ccm.js:1859-1885 | the placeholder counts as a lazy instance exactly when its component is a non-empty URL string |
| Instances.SlotsAreCounted | ccm/ccm.js:1795-1830 | a place waits for a result exactly when a counted dependency (load, component, store, dataset) sits there |
| Instances.JobsInWalkOrder | ccm/ccm.js:1813 | the waitlist receives one entry per `ccm.instance` dependency, in walk order, each with its component, configuration and place |
| Instances.PlacedAt | ccm/ccm.js:1718-1720 | a placed instance is found at its place. Without a place, it becomes the result unless there already is one |
| Instances.Engine.constructor | ccm/ccm.js:1657-1669 | counter 0, empty waitlist, no result |
| Instances.Engine.Check | ccm/ccm.js:1893-1917 | the counter drops by one. At 0 the head of the FIFO waitlist runs next, or with an empty waitlist the result is complete. Otherwise it waits |
| Instances.Engine.SolveDependencies | ccm/ccm.js:1783-1835 | counted dependencies raise the counter and wait at their places, `ccm.instance` ones join the waitlist in order, and `ccm.proxy` ones are replaced by placeholders |
| Instances.Solve | ccm/ccm.js:1754-1835 | the loop over the walked dependencies gives the counted places, the waitlist entries in walk order, and the tree with every `ccm.proxy` replaced by its placeholder |
| Instances.Engine.Place | ccm/ccm.js:1686-1727 | the counter and the component's instance counter go up by one. The created instance goes to its place |
| Instances.Engine.Recursive | ccm/ccm.js:1683-1748 | creation, dependency solving and `check` together. The result is complete only when no counted dependency is outstanding and the waitlist is empty |
| Instances.Engine.Settle | ccm/ccm.js:1841-1850 | the result replaces the descriptor at its place, it is no longer outstanding, and `check` decides what comes next |
| Interning.CloneProp | ccm/ccm.js:2499-2518 | a property of a copied record is the copy of the property |
| Interning.Normalized | ccm/ccm.js:2093-2102 | no settings (or a callback) become `{local: {}}`. A non-empty URL becomes `{local: url}`. Settings that already say where the data lives are deep-copied as they are |
| Interning.NormalizedSpecified | ccm/ccm.js:2099-2102 | normalised settings that are objects always say where their data lives |
| Interning.NormalizeIdempotent | ccm/ccm.js:2093-2102 | normalising twice is normalising once |
| Interning.SourceOf | ccm/ccm.js:3508-3520 | the source is a number exactly when none of `url`, `db` and `store` survives in JSON. The number is the count of registered datastores |
| Interning.SameSource | ccm/ccm.js:3508-3520 | two settings name the same described source exactly when they agree on `url`, `db` and `store`. Other settings play no part |
| Interning.SourceIgnoresCount | ccm/ccm.js:3508-3520 | a described source does not depend on how many datastores exist |
| Interning.NumberedIsNew | ccm/ccm.js:3517 | the number handed out is not registered yet |
| Interning.RegisterKeepsNumbers | ccm/ccm.js:2287 | registering keeps every numbered source below the map's size |
| Interning.InitialLocal | ccm/ccm.js:2125-2128 | no `local` gives `{}`, and a URL gives the data loaded from it |
| Interning.Stores.constructor | ccm/ccm.js:2090 | no datastore registered |
| Interning.Stores.Store | ccm/ccm.js:2090-2295 | a known source returns its datastore and creates nothing. A new source registers a new datastore over the initial datasets, with the `db`/`store`/`onChange` settings, initialised unless delayed. Requests are handled one after another |
| Loading.Suffix | ccm/ccm.js:1116 | the suffix contains no dot and ends the URL, right after a dot or as the whole URL |
| Loading.SuffixIs | ccm/ccm.js:1116 | the suffix is `ext` exactly when the URL is `ext` or ends in `.ext` |
| Loading.LastSegmentUnique | ccm/ccm.js:1116 | a URL has exactly one last dot-free segment after a dot |
| Loading.KindOfScripts | ccm/ccm.js:1116-1135 | a script is loaded exactly for suffix "js", and JSON for "json" |
| Loading.ClassifyScripts | ccm/ccm.js:1116-1135 | a script is loaded exactly for URLs ending in `.js`, and JSON for URLs ending in `.json` |
| Loading.Unwrapped | ccm/ccm.js:1442 | a single result is not wrapped, and two or more are an array |
| Loading.Popped | ccm/ccm.js:1403-1404 | the waitlist is released last-queued first |
| Loading.Loader.constructor | ccm/ccm.js:1025 | empty caches, waitlists and calls |
| Loading.Loader.Check | ccm/ccm.js:1433-1452 | the counter drops by one. Exactly when it reaches 0, the results are handed over, unwrapped, to the callback (or to the next serial step) |
| Loading.Loader.Drain | ccm/ccm.js:1403-1404 | the waitlist of the URL is emptied and its calls are released in pop order |
| Loading.Loader.Success | ccm/ccm.js:1397-1409 | a result without a value becomes the URL, in the results and the cache. The waiters are released, then `check` runs |
| Loading.Loader.Caching | ccm/ccm.js:1345-1378 | a loading URL queues the call once and is not fetched again. A loaded truthy value is reused and succeeds. Anything else is fetched |
| Loading.Loader.LoadResource | ccm/ccm.js:1078-1135 | an array starts serial loading. A URL is marked loading and counted. A data exchange is fetched unless the call waits. For a cacheable URL: a cached truthy value is reused without a fetch and releases the URL's waiters. A URL still loading puts the call on its waitlist once. Any other URL is fetched once |
| Loading.Loader.LoadUrl | ccm/ccm.js:1097-1135 | a data exchange marks the URL loading, is counted, and is fetched unless the call waits. For a cacheable URL: a cached truthy value becomes the result with no fetch, the cache as before and the URL's waiters released. A URL still loading puts the call on its waitlist once, with no fetch and the cache as before. Any other URL is marked loading, counted and fetched once. New fetches belong to this call |
| Loading.Loader.LoadCached | ccm/ccm.js:1097-1135 | a cached truthy value becomes the result with no fetch, the cache as before and the URL's waiters released. A URL still loading puts the call on its waitlist once (marking it waiting), with no fetch and the cache as before. Any other URL (no entry, or a falsy value other than `null`) is marked loading, counted and fetched once |
| Loading.Loader.BeginSerial | ccm/ccm.js:1093 | counted, with an empty result array, and the first serial step scheduled |
| Loading.Loader.MarkLoading | ccm/ccm.js:1101-1107 | the URL is marked loading (`null`) and the call's counter goes up |
| Loading.Loader.Exchange | ccm/ccm.js:1265-1268 | the exchange is fetched unless the call already waits |
| Loading.Loader.LoadAll | ccm/ccm.js:1068 | new fetches belong to this call. Arguments that are all loaded are reused with no fetch, and their cached values are the results |
| Loading.Loader.LoadArgument | ccm/ccm.js:1068 | one argument is loaded, and new fetches belong to the call. If every argument is cached and truthy, it adds only that argument's cached value to the results |
| Loading.Loader.Start | ccm/ccm.js:1025-1070 | a new call starts with counter 1 and finishes at once when nothing is loading. Arguments all loaded give no fetch, and their values unwrapped are the result |
| Loading.Loader.Complete | ccm/ccm.js:1384-1409 | a completed fetch stores delivered content (`successData`), then `success` runs |
| Loading.Loader.Step | ccm/ccm.js:1306-1339 | a released call starts over with the same arguments. A serial step with items left loads the next one. The last serial step appends the result it carries, unless that result is `null`, and runs `check` on its call |
| Contexts.RootShared | ccm/ccm.js:2353-2360 | every ancestor has the same root |
| Contexts.RootHasNoParent | ccm/ccm.js:2353-2360 | the root has no parent and is its own root |
| Contexts.Root | ccm/ccm.js:2353-2360 | the loop returns the farthest ancestor, or the instance itself |
| Contexts.Find | ccm/ccm.js:2339-2347 | undefined exactly when no ancestor has the property set to something other than the start instance. Otherwise, the property of the nearest ancestor that has |

## Left out

- DOM and custom-element glue: `createCustomElement`, the element `switch`
  on 'name'/'parent' during instance creation, `render`, and the HTML
  helpers. DOM nodes are opaque values.
- Transports and persistence.
  - XHR, jQuery/JSONP and script tags are not modelled. A fetch waits in
    `fetches` until `Loading.Loader.Complete` reports its outcome.
  - `onFail` and its `alert` are not modelled: a failed fetch simply never
    completes.
  - IndexedDB, the server-side tiers of `get`/`set`/`del` over HTTP, and
    `prepareDB` are not modelled.
  - Opening the WebSocket connection and its initial message are not
    modelled. Only the reply/change protocol over an existing socket is.
- `prepareData` adds the user's key and token for logged-in users. The user
  object is not modelled, so requests carry only `db` and `store`.
- The data-dependency resolution inside `getLocal`
  (`solveDependencies`/`solveDependency` on datasets): cached records hold
  plain data.
- Aliasing. Values are immutable in the model, so a copy handed out by `get`
  can never change the cache. This holds by construction and is not stated
  as a lemma.
- `action` and `executeByName`, which look functions up by name on `window`.
  Dependency descriptors are a closed set of tags.
- `format`, `dataset`, `dataSource`, `convertComponentTags` and the other
  helpers outside the data helpers listed above.
- Callback asynchrony in general. Callbacks run as explicit, sequential
  steps.
- Loading.Loader.Step: the released calls and the serial steps that `success`
  and `check` run synchronously are queued on `agenda` and run one at a time
  by `Step`. `url.shift()` mutating the shared argument array is modelled by
  passing the remaining items on. For a new call, `Step` states only the
  call's request; `Start`'s contract holds the rest.
- Loading.Loader.Start: the full result is stated only when every argument is
  already loaded. Otherwise it states that new fetches belong to the call and
  when the result is handed over.
- Instances.Engine.Recursive: component registration by URL
  (`ccm.component`'s load) and a configuration given as a dependency
  (`ccm.dataset`) are resolved before the call. Registration appears as the
  precondition that the component is registered, and the configuration is
  passed in ready.
- Instances.Engine.SolveDependencies: the dependencies of a `ccm.store`
  (`delayed: true`), `ccm.load`, `ccm.component` and `ccm.dataset` are
  counted and wait for `Settle`. What they load is left to the loader and
  the store models. A `ccm.proxy` configuration that is itself a dependency
  is not resolved. The loop collects its effects and applies them together
  at its end, which is the same because the walk's positions are distinct.
- Instances: the `parent` of a nested instance is a reference
  (`Ref(oid, index)`) and not the parent object itself. This is how the
  model excludes the back edge, as `find` does for the key `parent`.
- Interning.Stores.Store: the datastore is registered immediately, not after
  the initial datasets have been loaded and the socket has connected. So
  interning and distinct numbers hold only for requests handled one after
  another. In `ccm.store`, the lookup (ccm.js:2111) comes before the
  asynchronous loading and the registration (ccm.js:2287) after it. Two
  overlapping requests for one source therefore create two datastores. Two
  overlapping requests without `url`, `db` and `store` get the same number,
  because `getSource` counts only registered datastores (ccm.js:3517).
  Overlapping requests are not modelled. The `source` setting written back
  onto the settings is not modelled. The string form of a source is
  modelled by the values it is built from.
- Contexts: the parent relation is a finite map that is assumed acyclic
  (a ghost rank decreases along it). Instances are named by object number.
- `Num` values are unbounded integers; JavaScript numbers are doubles. No
  arithmetic in the core comes near the difference.
- Loading.Loader.Drain: a JSON resource whose content is `null` leaves its
  URL marked as loading, because `null` is the loading sentinel. In the
  source, `success` re-runs each waiting `ccm.load` synchronously inside
  its `while (waiter[url] ...)` loop (ccm.js:1403). Each re-run finds the
  sentinel and puts itself back on the waitlist, so that loop never ends.
  The model queues the re-issued loads on `agenda` instead. When `Step`
  runs them they go back on the waitlist and wait there. The endless loop
  is not captured.
- Helpers.SetProp: an assignment to a named (non-index) property of an
  array, to an index at or above 2^32 - 1, or to a function, datastore,
  component, reference or DOM node is not kept. The core never writes to a
  function. Growing an array fills the gap with
  undefined elements where JavaScript leaves holes that `for ... in` skips.
- Helpers.DeepPath: reads of an array's `length` or a string's characters
  give undefined. A set through a named property of an array, or through a
  datastore, component or reference, returns undefined, because those
  assignments are not kept (see Helpers.SetProp). In JavaScript it returns
  the value written. The same holds for Helpers.DeepValue.
- Helpers.Clone: datastores, registered components and references to an
  instance's parent are handles in the model. They have no properties to
  read, except the `index` of a component or reference, and `clone` returns
  them unchanged. In JavaScript they are ordinary objects, which `clone`
  copies into fresh plain objects (ccm.js:2505-2512). The core does not
  depend on this. Cached records, store settings and default configurations
  hold plain data and dependency descriptors, and an instance's own
  datastores and components are reached through `find` and the registry,
  not by reading their properties.
- JsValues.PutOrdered: the `for ... in` order is proved to be kept for the
  datastore cache (`Datastore.Valid`). Objects given to the other operations
  as parameters are taken to be in that order already.
- Datastores.SetGeneratesKey: it states `set` with the corrected key
  generator. `set` as written is covered by Datastores.SetAsWrittenRejects
  (the refused record) and Datastores.SetAsWrittenAgrees (the usual case).
- Datastores.Datastore.Set: a missing key comes from the corrected generator,
  as in Datastores.SetGeneratesKey.
- Datastores.Datastore.RequestSet: a missing key comes from the corrected
  generator, as in Datastores.SetGeneratesKey.
- Datastores.Datastore.OnMessage: a `callback` given as a numeric string or
  as `true` is turned into a number by `message.callback - 1` (ccm.js:180)
  in the source. The model takes only numbers and treats the rest as a
  fault. The same holds for Datastores.Handler.
- Registry.UrlFindsDeclared: it states the lookup under the corrected
  `getIndex`. The lookup as written is covered by Registry.RegisterMinAsWritten.
- Registry.Components.RegisterByUrl: it looks the URL up under the corrected
  `getIndex`, as in Registry.UrlFindsDeclared.
- Datastores.Datastore.Get: only the local tier is modelled. `get` on a
  realtime server store (ccm.js:331-371) is not modelled. It answers a key
  from the cache when it is there (`checkLocal`), and otherwise sends the
  request over the socket. The reply is then cached by `setLocal`: a
  dataset directly, and an array one element at a time. The reply slots of
  the model are for `set` and `del` only.
- Registry.SetIndex: `parseInt` is modelled by the value of a version part's
  leading digits (`Registry.ParseInt`). Leading white space, a sign and the
  "0x" prefix, which `parseInt` also accepts, are not modelled. Version parts
  in component file names are plain digits.

## Findings

| source | as written | input that shows it | evidently intended | confidence | as-written member | corrected member |
|---|---|---|---|---|---|---|
| ccm/ccm.js:2897-2901 | the random part of `generateKey` is `Math.random().toString().substr(2)`. A random number below 1e-6 prints in exponent notation | random text "1.5e-7" gives a key containing '-', which the key pattern of `set` rejects, so `set` returns `null` | generated keys always pass the key pattern | not executed | Helpers.GeneratedKeyCanFail | Helpers.GenerateValidKey |
| ccm/ccm.js:1516-1519 | `getIndex` pops a final "min" part even when it is the component's name | "ccm.min.js" (which the `filename` pattern accepts with name "min") gives '' | drop "min" only when a name remains before it, giving "min" | not executed | Registry.MinNamedComponentLost | Registry.GetIndex |
