# garden-service: dependant-task resolver and namespace provisioner

This project models two parts of garden-service in Dafny and proves properties about them.

**The dependant-task resolver** (`getDependantTasksForModule` in `garden-service/src/tasks/helpers.ts`) decides which work has to run again when a module changes. The model is in `tasks.dfy`, module `Tasks`, with lodash's `uniq` and `intersection` in `collections.dfy`. The configuration graph's three queries (`getServices`, `getDependantsForMany`, `getDependantsForModule`) are fields of a `ConfigGraph` datatype, each a total function. The pruning filter that the resolver builds is passed to those queries as a value (`DependantFilter`). As a result, every property below holds for any graph. Tasks are the datatype `Task = Push(...) | Deploy(...)`. `DependantTasks` writes the three-way decision out as a function. `GetDependantTasksForModule` is the imperative version: it appends to `pushTasks` and reassigns `services` in each branch. Its postcondition says it returns exactly `DependantTasks`.

**The namespace provisioner** (`garden-service/src/plugins/kubernetes/namespace.ts`) lives in `namespace.dfy`, module `Namespace`. The module-level state is a class, `NamespaceProvisioner`, with three fields:

- `created`: the `created` cache as a `set<string>`;
- `gardenVersion`: read once when the module loads;
- `log`: a ghost log of the requests that `ensureNamespace`, `createNamespace` and `getNamespace` make (list namespaces, create namespace, read the local config store).

What the cluster would return for a namespace listing is a parameter (`items`) of each operation that may list. What the local config store holds is also a parameter. `EnsuredCache` and `EnsureRequests` describe `ensureNamespace`'s new cache and its requests. The `EnsureNamespace` method is proved against them, and the lemmas are proved about them. `DeriveNamespace` is the name `getNamespace` returns, or the `AuthenticationError` it throws. The `GetNamespace` method builds the name step by step and is proved against it.

Three points of the resolver are easy to misread; the model follows the code:

- Dependant Push tasks carry `force: forceBuild`, not `true` (helpers.ts:63-64). Only the changed module's own Push, in the no-hot-reload branch, is forced regardless of `forceBuild`.
- The hot-reload branch starts the traversal from `module.serviceNames` (helpers.ts:50), not from the hot-reload service names.
- The resolver deduplicates nothing (helpers.ts:59, 63-77). A service returned twice gets two Deploy tasks.

## Model

| member | source | states |
|---|---|---|
| Collections.Uniq | garden-service/src/tasks/helpers.ts:86 | lodash `uniq`: the result has no repeated value and holds exactly the values of its input |
| Collections.UniqOfDistinct | garden-service/src/tasks/helpers.ts:86 | a list without repeats is its own `uniq`, so `uniq` is idempotent |
| Collections.Intersection | garden-service/src/tasks/helpers.ts:48 | lodash `intersection`: no repeats, and a value is in it exactly when it is in both lists |
| Collections.IntersectionNonEmpty | garden-service/src/tasks/helpers.ts:48 | the intersection's length is non-zero exactly when the module has a hot-reloading service |
| Tasks.GetModuleNames | garden-service/src/tasks/helpers.ts:84-87 | a duplicate-free list of exactly the names of the modules owning the services the graph returns for the hot-reload names |
| Tasks.DependantFilter | garden-service/src/tasks/helpers.ts:45-46 | the closure `dependantFilterFn`: a node passes when its `moduleName` is not among the hot-reload module names (its meaning is stated by `DependantFilterAccepts`) |
| Tasks.DependantFilterAccepts | garden-service/src/tasks/helpers.ts:43-46 | the filter accepts a node exactly when no hot-reload service belongs to the node's module |
| Tasks.DependantTasks | garden-service/src/tasks/helpers.ts:35-77 | the three-way decision as a function of the graph's answers. Every Push precedes every Deploy. Without dependants, or without a hot-reloading service, the first task is the module's own Push, forced by `forceBuild` or by `true` respectively |
| Tasks.GetDependantTasksForModule | garden-service/src/tasks/helpers.ts:19-82 | the imperative accumulation of `pushTasks` and `services` returns exactly the decision-table list `DependantTasks` |
| Tasks.WithoutDependants | garden-service/src/tasks/helpers.ts:39-41 | without dependants: one Push for the module with `force = forceBuild` first, then one Deploy per service of `getServices(module.serviceNames)` in order, and there are no other Push tasks |
| Tasks.HotReloadDependants | garden-service/src/tasks/helpers.ts:48-53 | with dependants and a hot-reloading service: Push tasks exactly for `serviceDeps.build` with `force = forceBuild`, in order, then Deploy tasks exactly for `serviceDeps.service`; the changed module gets no Push of its own |
| Tasks.HotReloadSkipsChangedModule | garden-service/src/tasks/helpers.ts:43-53 | with dependants and a hot-reloading service, if the graph maps a hot-reload service to the module and honours the filter, then no Push task names the changed module |
| Tasks.NoHotReloadDependants | garden-service/src/tasks/helpers.ts:54-64 | with dependants and no hot-reloading service: first a Push for the module with `force = true`, then Push for each `dependants.build` with `force = forceBuild`, then Deploy for the module's services followed by `dependants.service` |
| Tasks.TasksShareContext | garden-service/src/tasks/helpers.ts:63-77 | every Push precedes every Deploy; every task carries the call's `fromWatch` and hot-reload names; every Deploy carries the call's `force` and `forceBuild` |
| Tasks.NoDeduplication | garden-service/src/tasks/helpers.ts:66-77 | in every branch the last tasks are one Deploy per collected service, in order, with that service; so whenever two positions hold the same service, their Deploy tasks are equal (no deduplication) |
| Tasks.DefaultFlags | garden-service/src/tasks/helpers.ts:20-21 | with every flag defaulted to false: an unforced Push for the module, then unforced Deploy tasks for its services |
| Tasks.MakeTestTaskName | garden-service/src/tasks/helpers.ts:89-91 | the name is one character longer than the module and test names together (the dot); its inverse is `TestTaskNameRoundTrip` |
| Tasks.TestTaskNameRoundTrip | garden-service/src/tasks/helpers.ts:89-91 | `makeTestTaskName(m, t)` is `m`, a dot, then `t`: splitting it at the first dot gives back `(m, t)` when `m` has no dot |
| Namespace.EnsuredCache | garden-service/src/plugins/kubernetes/namespace.ts:20-35 | the cache after `ensureNamespace(ns)`: it contains `ns` and everything cached before |
| Namespace.EnsureRequests | garden-service/src/plugins/kubernetes/namespace.ts:21-34 | the requests of `ensureNamespace(ns)`: none exactly when `ns` is cached; otherwise a listing first, and at most one more request |
| Namespace.ActiveNamesExactly | garden-service/src/plugins/kubernetes/namespace.ts:24-28 | the listing loop marks a name exactly when some listed item with that name has phase "Active" |
| Namespace.EnsureOutcome | garden-service/src/plugins/kubernetes/namespace.ts:20-35 | after `ensureNamespace(ns)`, `ns` is cached and no entry has been removed. Each added entry is `ns` or an Active listed name. When `ns` missed the cache, every Active listed name is cached. When `ns` was cached, no request is made and the cache is unchanged |
| Namespace.InactiveNotCached | garden-service/src/plugins/kubernetes/namespace.ts:24-28 | a listed name whose items are all not Active is not added by the listing |
| Namespace.EnsureCreatesOnlyMissing | garden-service/src/plugins/kubernetes/namespace.ts:21-34 | one call creates at most one namespace, `ns` itself, and only when `ns` was neither cached nor Active in the listing |
| Namespace.EnsureTwice | garden-service/src/plugins/kubernetes/namespace.ts:21 | a second call with the same name makes no request and leaves the cache unchanged |
| Namespace.EnsurePreservesAtMostOnce | garden-service/src/plugins/kubernetes/namespace.ts:18-35 | the invariant "no namespace created twice, every created one cached" survives every `ensureNamespace` call, whatever the listing |
| Namespace.NamespaceManifest | garden-service/src/plugins/kubernetes/namespace.ts:41-51 | the manifest is named after the namespace; the rest of its shape is stated by `ManifestIdentifiesNamespace` |
| Namespace.ManifestIdentifiesNamespace | garden-service/src/plugins/kubernetes/namespace.ts:38-52 | the manifest is a v1 `Namespace` named `ns` with annotations `garden.io/generated = "true"` and `garden.io/version = GARDEN_VERSION`; different names give different manifests |
| Namespace.EnsureRequestsAsWritten | garden-service/src/plugins/kubernetes/namespace.ts:18-34 | the requests of `ensureNamespace` with the object lookup as written: none exactly when `created[ns]` is truthy, counting keys inherited from `Object.prototype`; otherwise a listing first, and at most one more request |
| Namespace.ConstructorNamespaceNeverCreated | garden-service/src/plugins/kubernetes/namespace.ts:18-21 | as written, `ensureNamespace("constructor")` on an empty cache and cluster makes no request, while the name-keyed cache creates it once (see Findings) |
| Namespace.AsWrittenAgreesOtherwise | garden-service/src/plugins/kubernetes/namespace.ts:18-34 | for any name that is not an inherited `Object.prototype` key, the code as written and the name-keyed cache make the same requests |
| Namespace.DeriveNamespace | garden-service/src/plugins/kubernetes/namespace.ts:62-93 | the name `getNamespace` returns or the error it throws. It fails only without a configured namespace, and then with an error naming the provider. A derived name is at least two characters longer than the project name |
| Namespace.ExplicitNamespace | garden-service/src/plugins/kubernetes/namespace.ts:67-68 | a configured namespace, even `""`, is used verbatim, with `--suffix` appended when the suffix is truthy; the result does not depend on the local config |
| Namespace.DerivedNamespace | garden-service/src/plugins/kubernetes/namespace.ts:69-89 | with no configured namespace, derivation fails exactly when both the stored username and `defaultUsername` are falsy. The error names the provider and carries the previous usernames. Otherwise the name is `username--projectName`, and the stored username wins |
| Namespace.SuffixAppended | garden-service/src/plugins/kubernetes/namespace.ts:91-93 | a truthy suffix appends `--suffix` to the unsuffixed name and does not change whether derivation fails; an empty or absent suffix changes nothing |
| Namespace.AliceExample | garden-service/src/plugins/kubernetes/namespace.ts:88-93 | username `alice`, project `app`: `alice--app`, and `alice--app--metadata` with the suffix `metadata` |
| Namespace.AllNamespaces | garden-service/src/plugins/kubernetes/namespace.ts:120-124 | `getAllNamespaces`: every listed name, in listing order, whatever its phase |
| Namespace.ActiveNamesAreListed | garden-service/src/plugins/kubernetes/namespace.ts:120-124 | every name the cache would take from a listing is among `getAllNamespaces` of that listing |
| Namespace.NamespaceProvisioner.constructor | garden-service/src/plugins/kubernetes/namespace.ts:17-18 | the cache starts empty, the log is empty, and the version is fixed for the provisioner's lifetime |
| Namespace.NamespaceProvisioner.CreateNamespace | garden-service/src/plugins/kubernetes/namespace.ts:38-52 | `createNamespace` sends the create request unconditionally and leaves the cache alone |
| Namespace.NamespaceProvisioner.EnsureNamespace | garden-service/src/plugins/kubernetes/namespace.ts:20-36 | the loop over the listing leaves the cache at `EnsuredCache` and the log extended by exactly `EnsureRequests`; it preserves the at-most-once invariant |
| Namespace.NamespaceProvisioner.GetNamespace | garden-service/src/plugins/kubernetes/namespace.ts:62-101 | returns `DeriveNamespace`. It reads the local config store only when no namespace is configured. It runs `ensureNamespace` on the returned name unless `skipCreate` is set, and does nothing else when it fails |
| Namespace.NamespaceProvisioner.GetAppNamespace | garden-service/src/plugins/kubernetes/namespace.ts:103-109 | returns the unsuffixed `DeriveNamespace`. On success the cache becomes `EnsuredCache` and the log gains the store read (when no namespace is configured) and `EnsureRequests`. On failure only the store read is logged. The at-most-once invariant is preserved |
| Namespace.NamespaceProvisioner.GetMetadataNamespace | garden-service/src/plugins/kubernetes/namespace.ts:111-118 | returns `DeriveNamespace` with suffix `metadata`. On success the cache becomes `EnsuredCache` and the log gains the store read (when no namespace is configured) and `EnsureRequests`. On failure only the store read is logged. The at-most-once invariant is preserved |
| Namespace.EnsureNamespaceTwice | garden-service/src/plugins/kubernetes/namespace.ts:20-36 | two sequential `ensureNamespace` calls with the same name add at most one create request for it |

## Findings

| source | as written | input that shows it | evidently intended | confidence | as-written member | corrected member |
|---|---|---|---|---|---|---|
| garden-service/src/plugins/kubernetes/namespace.ts:18-21 | `created` is a plain object literal. `created[namespace]` is therefore truthy for keys inherited from `Object.prototype`, so `ensureNamespace` treats such a namespace as existing | `ensureNamespace(api, "constructor")`: `constructor` is a valid Kubernetes namespace name, yet it is never listed or created, even on an empty cluster (`Namespace.ConstructorNamespaceNeverCreated`) | a namespace is cached only once it has been seen Active or has been created; `Namespace.EnsureCreatesOnlyMissing` proves that for the name-keyed cache | high; not executed | Namespace.EnsureRequestsAsWritten | Namespace.EnsureRequests |

The rest of the model (`EnsureNamespace`, `GetNamespace`) uses the name-keyed cache.

## Left out

- The configuration graph (`ConfigGraph`) is not part of this model. Its queries are arbitrary total functions. Traversal and pruning inside those queries, and the failure of `getServices` on an unknown name, are not modelled. Dependant query results keep only their `build` and `service` parts; the resolver never reads `test` or `task`.
- The `PushTask` and `DeployTask` constructors, their dependencies, `getBaseKey`, and the task executor with its result cache are not part of this model. A task is the record of its constructor arguments, without `garden` and `log`, and, for Deploy tasks, without `graph`.
- `Service` keeps only its name and its module's name (`s.module.name`), which is all the resolver reads.
- Tasks.HotReloadSkipsChangedModule: assumes the graph maps one of the module's hot-reload services to the module, and that it honours the filter on the build nodes it returns. Both are properties of the graph, which this model leaves abstract.
- That the changed module is never pushed, and that nothing reachable only through hot-reloading services is emitted, depends on graph traversal, so only the form above is proved.
- Kubernetes API calls (`listNamespace`, `createNamespace`) and `ConfigStore.get()` are foreign I/O. The listing is a parameter and the local config is a value. The ghost log records the calls. Failures and rejections of these calls are not modelled. Neither is building a `KubeApi` from `provider.config.context`.
- Two concurrent `ensureNamespace` callers can both pass the cache check before either completes (namespace.ts:21-33). The model covers sequential calls only.
- AllNamespaces: the listing request that `getAllNamespaces` makes (namespace.ts:121) is not added to the ghost log, because the function is modelled as the pure map over a given listing.
- `getPackageVersion()` is a constant fixed when the provisioner is constructed. Its value is not modelled.
- `log.silly` output in the resolver is logging only and is not modelled.
- The provider name imported from `./kubernetes` is assumed to be `"kubernetes"`; that file is not part of this model.
- JavaScript truthiness is modelled for strings only: absent or empty. Non-string config values are outside the model.
- `previous-usernames` is only attached to the authentication error, as in the code.
- UI and configuration-schema code is not modelled.
