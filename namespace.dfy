/**
 * The namespace provisioner of garden-service's Kubernetes plugin: how the
 * target namespace's name is derived, and how the process-wide cache of
 * namespaces known to exist keeps the provisioner from listing and creating
 * namespaces more often than needed.
 *
 * The cluster and the local config store are not part of this model. What
 * the cluster would answer to a namespace listing is a parameter of each
 * operation that may list, what the store holds is a parameter of name
 * derivation, and a ghost log records the requests that `ensureNamespace`,
 * `createNamespace` and `getNamespace` make.
 */
module Namespace {
  import opened Wrappers

  /** The provider's registered name, as the authentication error reports it. */
  const ProviderName: string := "kubernetes"

  /** An item of a namespace listing: the namespace's name and its status phase. */
  datatype NamespaceStatus = NamespaceStatus(name: string, phase: string)

  datatype ObjectMeta = ObjectMeta(name: string, annotations: map<string, string>)

  /** The resource sent to the cluster by a create request. */
  datatype Manifest = Manifest(apiVersion: string, kind: string, metadata: ObjectMeta)

  /** A request the provisioner makes of the cluster or of the local config store. */
  datatype Request =
    | ListNamespaces
    | CreateRequest(manifest: Manifest)
    | ReadLocalConfig

  /** The `kubernetes` section of the local config store. */
  datatype KubernetesLocalConfig = KubernetesLocalConfig(username: Option<string>, previousUsernames: Option<seq<string>>)

  datatype LocalConfig = LocalConfig(kubernetes: Option<KubernetesLocalConfig>)

  /** The part of the provider configuration the provisioner reads. */
  datatype ProviderConfig = ProviderConfig(namespace: Option<string>, defaultUsername: Option<string>)

  datatype PluginContext = PluginContext(projectName: string, localConfig: LocalConfig)

  datatype AuthenticationError = AuthenticationError(message: string, previousUsernames: Option<seq<string>>, provider: string)

  /** JavaScript truthiness of an optional string: present and not empty. */
  predicate Truthy(s: Option<string>) {
    s.Some? && s.value != ""
  }

  // ---------------------------------------------------------------------
  // The existence cache
  // ---------------------------------------------------------------------

  /** The names of the listed namespaces whose phase is "Active". */
  function ActiveNames(items: seq<NamespaceStatus>): set<string> {
    if items == [] then {}
    else
      var last := items[|items| - 1];
      ActiveNames(items[..|items| - 1]) + (if last.phase == "Active" then {last.name} else {})
  }

  /** A name is among the active names exactly when some listed item with that name is Active. */
  lemma {:induction false} ActiveNamesExactly(items: seq<NamespaceStatus>, name: string)
    ensures name in ActiveNames(items) <==>
      exists i :: 0 <= i < |items| && items[i].name == name && items[i].phase == "Active"
  {
    if items != [] {
      var init := items[..|items| - 1];
      ActiveNamesExactly(init, name);
      if exists i :: 0 <= i < |init| && init[i].name == name && init[i].phase == "Active" {
        var i :| 0 <= i < |init| && init[i].name == name && init[i].phase == "Active";
        assert items[i] == init[i];
      }
      if exists i :: 0 <= i < |items| && items[i].name == name && items[i].phase == "Active" {
        var i :| 0 <= i < |items| && items[i].name == name && items[i].phase == "Active";
        if i < |items| - 1 {
          assert init[i] == items[i];
        }
      }
    }
  }

  /** The manifest `createNamespace` sends: a v1 Namespace stamped with garden's annotations. */
  function NamespaceManifest(namespace: string, gardenVersion: string): (m: Manifest)
    ensures m.metadata.name == namespace
  {
    Manifest("v1", "Namespace", ObjectMeta(namespace, map["garden.io/generated" := "true", "garden.io/version" := gardenVersion]))
  }

  /** A manifest garden generated for a namespace, with the given version. */
  predicate IsGardenNamespace(m: Manifest, gardenVersion: string) {
    && m.apiVersion == "v1" && m.kind == "Namespace"
    && "garden.io/generated" in m.metadata.annotations && m.metadata.annotations["garden.io/generated"] == "true"
    && "garden.io/version" in m.metadata.annotations && m.metadata.annotations["garden.io/version"] == gardenVersion
  }

  /** Every manifest is a garden-generated Namespace named after its argument, so distinct namespaces get distinct manifests. */
  lemma ManifestIdentifiesNamespace(a: string, b: string, gardenVersion: string)
    ensures IsGardenNamespace(NamespaceManifest(a, gardenVersion), gardenVersion)
    ensures NamespaceManifest(a, gardenVersion) == NamespaceManifest(b, gardenVersion) <==> a == b
  {
    if NamespaceManifest(a, gardenVersion) == NamespaceManifest(b, gardenVersion) {
      assert NamespaceManifest(a, gardenVersion).metadata.name == NamespaceManifest(b, gardenVersion).metadata.name;
    }
  }

  /** The cache after `ensureNamespace(namespace)`, given the cache before and the listing. */
  function EnsuredCache(created: set<string>, items: seq<NamespaceStatus>, namespace: string): (after: set<string>)
    ensures namespace in after && created <= after
  {
    if namespace in created then created else created + ActiveNames(items) + {namespace}
  }

  /** The requests `ensureNamespace(namespace)` makes, given the cache before and the listing. */
  function EnsureRequests(created: set<string>, items: seq<NamespaceStatus>, namespace: string, gardenVersion: string): (requests: seq<Request>)
    ensures requests == [] <==> namespace in created
    ensures requests != [] ==> requests[0] == ListNamespaces && |requests| <= 2
  {
    if namespace in created then []
    else if namespace in ActiveNames(items) then [ListNamespaces]
    else [ListNamespaces, CreateRequest(NamespaceManifest(namespace, gardenVersion))]
  }

  /** The number of create requests for `namespace` in a request log. */
  function CreateCount(log: seq<Request>, namespace: string): nat {
    if log == [] then 0
    else
      var last := log[|log| - 1];
      CreateCount(log[..|log| - 1], namespace) + (if last.CreateRequest? && last.manifest.metadata.name == namespace then 1 else 0)
  }

  lemma {:induction false} CreateCountAppend(a: seq<Request>, b: seq<Request>, namespace: string)
    ensures CreateCount(a + b, namespace) == CreateCount(a, namespace) + CreateCount(b, namespace)
  {
    if b == [] {
      assert a + b == a;
    } else {
      assert (a + b)[..|a + b| - 1] == a + b[..|b| - 1];
      CreateCountAppend(a, b[..|b| - 1], namespace);
    }
  }

  /**
   * One `ensureNamespace` call creates at most one namespace, `namespace`
   * itself, and only when it was neither cached nor Active in the listing.
   */
  lemma EnsureCreatesOnlyMissing(created: set<string>, items: seq<NamespaceStatus>, namespace: string, gardenVersion: string, other: string)
    ensures CreateCount(EnsureRequests(created, items, namespace, gardenVersion), other)
      == if other == namespace && namespace !in created && namespace !in ActiveNames(items) then 1 else 0
  {
    var listing := [ListNamespaces];
    assert listing[..0] == [];
    if namespace !in created && namespace !in ActiveNames(items) {
      var create := CreateRequest(NamespaceManifest(namespace, gardenVersion));
      assert [ListNamespaces, create][..1] == listing;
      assert CreateCount(listing, other) == 0;
      assert CreateCount([ListNamespaces, create], other) == if other == namespace then 1 else 0;
    }
  }

  /**
   * After `ensureNamespace`: the namespace is cached, nothing left the cache,
   * and what was added is the namespace itself or an Active listed name;
   * a cached namespace makes no request and leaves the cache as it was.
   */
  lemma EnsureOutcome(created: set<string>, items: seq<NamespaceStatus>, namespace: string, gardenVersion: string)
    ensures var after := EnsuredCache(created, items, namespace);
      && namespace in after
      && created <= after
      && (forall n :: n in after && n !in created ==> n == namespace || n in ActiveNames(items))
      && (namespace !in created ==> ActiveNames(items) <= after)
      && (namespace in created ==> after == created && EnsureRequests(created, items, namespace, gardenVersion) == [])
  {
  }

  /**
   * A listed namespace that is not Active (under any item with its name) is
   * not added to the cache by the listing.
   */
  lemma InactiveNotCached(created: set<string>, items: seq<NamespaceStatus>, namespace: string, name: string)
    requires forall i :: 0 <= i < |items| && items[i].name == name ==> items[i].phase != "Active"
    requires name != namespace && name !in created
    ensures name !in EnsuredCache(created, items, namespace)
  {
    ActiveNamesExactly(items, name);
  }

  /** A second `ensureNamespace` of the same name makes no request and changes nothing. */
  lemma EnsureTwice(created: set<string>, items1: seq<NamespaceStatus>, items2: seq<NamespaceStatus>, namespace: string, gardenVersion: string)
    ensures var once := EnsuredCache(created, items1, namespace);
      && EnsureRequests(once, items2, namespace, gardenVersion) == []
      && EnsuredCache(once, items2, namespace) == once
  {
  }

  /**
   * The invariant that makes `ensureNamespace` idempotent across a run: no
   * namespace has been created twice, and every created one is cached.
   */
  ghost predicate CreatesAtMostOnce(created: set<string>, log: seq<Request>) {
    forall n :: CreateCount(log, n) <= 1 && (CreateCount(log, n) == 1 ==> n in created)
  }

  /** `ensureNamespace` preserves that invariant, whatever the listing. */
  lemma EnsurePreservesAtMostOnce(created: set<string>, log: seq<Request>, items: seq<NamespaceStatus>, namespace: string, gardenVersion: string)
    requires CreatesAtMostOnce(created, log)
    ensures CreatesAtMostOnce(EnsuredCache(created, items, namespace), log + EnsureRequests(created, items, namespace, gardenVersion))
  {
    var after := EnsuredCache(created, items, namespace);
    var requests := EnsureRequests(created, items, namespace, gardenVersion);
    forall n ensures CreateCount(log + requests, n) <= 1 && (CreateCount(log + requests, n) == 1 ==> n in after) {
      CreateCountAppend(log, requests, n);
      EnsureCreatesOnlyMissing(created, items, namespace, gardenVersion, n);
    }
  }

  // ---------------------------------------------------------------------
  // The cache as the source's code has it (see Findings in README.md)
  // ---------------------------------------------------------------------

  /** The properties every plain JavaScript object inherits from Object.prototype. */
  const ObjectPrototypeKeys: set<string> := {
    "constructor", "hasOwnProperty", "isPrototypeOf", "propertyIsEnumerable", "toLocaleString",
    "toString", "valueOf", "__proto__", "__defineGetter__", "__defineSetter__",
    "__lookupGetter__", "__lookupSetter__"}

  /** `created[name]` is truthy: set by the provisioner, or inherited from Object.prototype. */
  predicate CachedAsWritten(created: set<string>, namespace: string) {
    namespace in created || namespace in ObjectPrototypeKeys
  }

  /** The requests of `ensureNamespace` with the cache lookup as written. */
  function EnsureRequestsAsWritten(created: set<string>, items: seq<NamespaceStatus>, namespace: string, gardenVersion: string): (requests: seq<Request>)
    ensures requests == [] <==> CachedAsWritten(created, namespace)
    ensures requests != [] ==> requests[0] == ListNamespaces && |requests| <= 2
  {
    if CachedAsWritten(created, namespace) then []
    else if CachedAsWritten(created + ActiveNames(items), namespace) then [ListNamespaces]
    else [ListNamespaces, CreateRequest(NamespaceManifest(namespace, gardenVersion))]
  }

  /**
   * As written, a namespace called "constructor" (a valid Kubernetes name)
   * is never listed nor created, even on an empty cluster, while the cache
   * keyed by names alone creates it.
   */
  lemma ConstructorNamespaceNeverCreated(gardenVersion: string)
    ensures EnsureRequestsAsWritten({}, [], "constructor", gardenVersion) == []
    ensures CreateCount(EnsureRequests({}, [], "constructor", gardenVersion), "constructor") == 1
  {
    EnsureCreatesOnlyMissing({}, [], "constructor", gardenVersion, "constructor");
  }

  /** Outside the inherited keys the code as written agrees with the model of the cache. */
  lemma AsWrittenAgreesOtherwise(created: set<string>, items: seq<NamespaceStatus>, namespace: string, gardenVersion: string)
    requires namespace !in ObjectPrototypeKeys
    ensures EnsureRequestsAsWritten(created, items, namespace, gardenVersion) == EnsureRequests(created, items, namespace, gardenVersion)
  {
  }

  // ---------------------------------------------------------------------
  // Namespace names
  // ---------------------------------------------------------------------

  /** The username, from the local config store, else the provider's default. */
  function ResolveUsername(localConfig: LocalConfig, provider: ProviderConfig): Option<string> {
    var k8sConfig := localConfig.kubernetes.GetOr(KubernetesLocalConfig(None, None));
    if Truthy(k8sConfig.username) then k8sConfig.username else provider.defaultUsername
  }

  /** The error raised when no username can be resolved. */
  function NotLoggedIn(localConfig: LocalConfig): AuthenticationError {
    var k8sConfig := localConfig.kubernetes.GetOr(KubernetesLocalConfig(None, None));
    AuthenticationError(
      "User not logged into provider " + ProviderName + ". Please specify defaultUsername in provider "
        + "config or run garden init.",
      k8sConfig.previousUsernames, ProviderName)
  }

  /** The namespace name `getNamespace` returns, or the error it raises. */
  function DeriveNamespace(projectName: string, localConfig: LocalConfig, provider: ProviderConfig,
                           suffix: Option<string> := None): (r: Result<string, AuthenticationError>)
    ensures r.Failure? ==> provider.namespace.None? && r.error.provider == ProviderName
    ensures r.Success? && provider.namespace.None? ==> |r.value| >= 2 + |projectName|
  {
    var base :=
      if provider.namespace.Some? then Success(provider.namespace.value)
      else
        var username := ResolveUsername(localConfig, provider);
        if !Truthy(username) then Failure(NotLoggedIn(localConfig))
        else Success(username.value + "--" + projectName);
    if base.Failure? then base
    else if Truthy(suffix) then Success(base.value + "--" + suffix.value)
    else base
  }

  /**
   * A configured namespace, even the empty string, is used verbatim (with
   * the suffix, if any), whatever the local config store holds.
   */
  lemma ExplicitNamespace(projectName: string, localConfig: LocalConfig, provider: ProviderConfig, suffix: Option<string>, otherConfig: LocalConfig)
    requires provider.namespace.Some?
    ensures DeriveNamespace(projectName, localConfig, provider, suffix)
      == Success(if Truthy(suffix) then provider.namespace.value + "--" + suffix.value else provider.namespace.value)
    ensures DeriveNamespace(projectName, localConfig, provider, suffix) == DeriveNamespace(projectName, otherConfig, provider, suffix)
  {
  }

  /**
   * Without a configured namespace the name is `username--project`: the
   * stored username when it is non-empty, else the provider's default; with
   * neither, the derivation fails with an authentication error naming the
   * provider and carrying the stored previous usernames.
   */
  lemma DerivedNamespace(projectName: string, localConfig: LocalConfig, provider: ProviderConfig)
    requires provider.namespace.None?
    ensures var k8s := localConfig.kubernetes.GetOr(KubernetesLocalConfig(None, None));
      var r := DeriveNamespace(projectName, localConfig, provider);
      && (r.Failure? <==> !Truthy(k8s.username) && !Truthy(provider.defaultUsername))
      && (r.Failure? ==> r.error.provider == ProviderName && r.error.previousUsernames == k8s.previousUsernames)
      && (Truthy(k8s.username) ==> r == Success(k8s.username.value + "--" + projectName))
      && (!Truthy(k8s.username) && Truthy(provider.defaultUsername) ==>
            r == Success(provider.defaultUsername.value + "--" + projectName))
  {
  }

  /**
   * A non-empty suffix appends `--suffix` to the name derived without it
   * and does not change whether derivation fails; an empty or absent suffix
   * changes nothing.
   */
  lemma SuffixAppended(projectName: string, localConfig: LocalConfig, provider: ProviderConfig, suffix: Option<string>)
    ensures var plain := DeriveNamespace(projectName, localConfig, provider);
      var r := DeriveNamespace(projectName, localConfig, provider, suffix);
      && (r.Failure? <==> plain.Failure?)
      && (plain.Success? && Truthy(suffix) ==> r == Success(plain.value + "--" + suffix.value))
      && (!Truthy(suffix) ==> r == plain)
  {
  }

  /** With username "alice" and project "app": "alice--app", and "alice--app--metadata" with the metadata suffix. */
  lemma AliceExample(provider: ProviderConfig)
    requires provider.namespace.None?
    ensures var store := LocalConfig(Some(KubernetesLocalConfig(Some("alice"), None)));
      && DeriveNamespace("app", store, provider) == Success("alice--app")
      && DeriveNamespace("app", store, provider, Some("metadata")) == Success("alice--app--metadata")
  {
    assert "alice" + "--" + "app" == "alice--app";
    assert "alice--app" + "--" + "metadata" == "alice--app--metadata";
  }

  /** `getAllNamespaces`: the names of all listed namespaces, in listing order, whatever their phase. */
  function AllNamespaces(items: seq<NamespaceStatus>): (names: seq<string>)
    ensures |names| == |items|
    ensures forall i :: 0 <= i < |items| ==> names[i] == items[i].name
  {
    seq(|items|, i requires 0 <= i < |items| => items[i].name)
  }

  /** Every Active name of a listing is among all its names. */
  lemma ActiveNamesAreListed(items: seq<NamespaceStatus>, name: string)
    requires name in ActiveNames(items)
    ensures name in AllNamespaces(items)
  {
    ActiveNamesExactly(items, name);
    var i :| 0 <= i < |items| && items[i].name == name && items[i].phase == "Active";
    assert AllNamespaces(items)[i] == name;
  }

  // ---------------------------------------------------------------------
  // The provisioner's state
  // ---------------------------------------------------------------------

  /**
   * The module-level state of the provisioner: the `created` cache, the
   * garden version read once when the module loads, and a ghost log of the
   * requests made so far.
   */
  class NamespaceProvisioner {
    const gardenVersion: string
    var created: set<string>
    ghost var log: seq<Request>

    constructor (gardenVersion: string)
      ensures this.gardenVersion == gardenVersion
      ensures created == {} && log == []
      ensures CreatesAtMostOnce(created, log)
    {
      this.gardenVersion := gardenVersion;
      created := {};
      log := [];
    }

    /** `createNamespace`: sends the create request, without looking at the cache. */
    method CreateNamespace(namespace: string)
      modifies this
      ensures created == old(created)
      ensures log == old(log) + [CreateRequest(NamespaceManifest(namespace, gardenVersion))]
    {
      log := log + [CreateRequest(NamespaceManifest(namespace, gardenVersion))];
    }

    /**
     * `ensureNamespace`: when the namespace is not cached, lists the
     * cluster's namespaces (`items`), caches every Active one, and creates
     * the namespace if it is still not cached.
     */
    method EnsureNamespace(items: seq<NamespaceStatus>, namespace: string)
      modifies this
      ensures created == EnsuredCache(old(created), items, namespace)
      ensures log == old(log) + EnsureRequests(old(created), items, namespace, gardenVersion)
      ensures old(CreatesAtMostOnce(created, log)) ==> CreatesAtMostOnce(created, log)
    {
      ghost var before, logBefore := created, log;
      if namespace !in created {
        log := log + [ListNamespaces];
        for i := 0 to |items|
          invariant created == before + ActiveNames(items[..i])
          invariant log == logBefore + [ListNamespaces]
        {
          assert items[..i + 1][..i] == items[..i];
          if items[i].phase == "Active" {
            created := created + {items[i].name};
          }
        }
        assert items[..|items|] == items;
        assert created == before + ActiveNames(items);
        if namespace !in created {
          CreateNamespace(namespace);
          created := created + {namespace};
        }
      }
      assert created == EnsuredCache(before, items, namespace);
      assert log == logBefore + EnsureRequests(before, items, namespace, gardenVersion);
      if CreatesAtMostOnce(before, logBefore) {
        EnsurePreservesAtMostOnce(before, logBefore, items, namespace, gardenVersion);
      }
    }

    /**
     * `getNamespace`: derives the name step by step, reading the local
     * config store only when no namespace is configured, and ensures the
     * namespace exists unless `skipCreate` is set.
     */
    method GetNamespace(projectName: string, localConfigStore: LocalConfig, provider: ProviderConfig,
                        items: seq<NamespaceStatus>, suffix: Option<string> := None, skipCreate: bool := false)
      returns (r: Result<string, AuthenticationError>)
      modifies this
      ensures r == DeriveNamespace(projectName, localConfigStore, provider, suffix)
      ensures var storeReads := if provider.namespace.None? then [ReadLocalConfig] else [];
        if r.Success? && !skipCreate then
          && created == EnsuredCache(old(created), items, r.value)
          && log == old(log) + storeReads + EnsureRequests(old(created), items, r.value, gardenVersion)
        else
          created == old(created) && log == old(log) + storeReads
      ensures old(CreatesAtMostOnce(created, log)) ==> CreatesAtMostOnce(created, log)
    {
      var namespace: string;
      if provider.namespace.Some? {
        namespace := provider.namespace.value;
      } else {
        log := log + [ReadLocalConfig];
        var localConfig := localConfigStore;
        var k8sConfig := localConfig.kubernetes.GetOr(KubernetesLocalConfig(None, None));
        var username := k8sConfig.username;
        if !Truthy(username) {
          username := provider.defaultUsername;
        }
        if !Truthy(username) {
          return Failure(NotLoggedIn(localConfig));
        }
        namespace := username.value + "--" + projectName;
      }
      if Truthy(suffix) {
        namespace := namespace + "--" + suffix.value;
      }
      ghost var logBefore := log;
      if !skipCreate {
        EnsureNamespace(items, namespace);
      }
      assert CreatesAtMostOnce(old(created), old(log)) ==> CreatesAtMostOnce(old(created), logBefore) by {
        if provider.namespace.None? && CreatesAtMostOnce(old(created), old(log)) {
          forall n ensures CreateCount(logBefore, n) == CreateCount(old(log), n) {
            CreateCountAppend(old(log), [ReadLocalConfig], n);
            assert [ReadLocalConfig][..0] == [];
          }
        }
      }
      r := Success(namespace);
    }

    /** `getAppNamespace`: the project's namespace, created if missing. */
    method GetAppNamespace(ctx: PluginContext, provider: ProviderConfig, items: seq<NamespaceStatus>)
      returns (r: Result<string, AuthenticationError>)
      modifies this
      ensures r == DeriveNamespace(ctx.projectName, ctx.localConfig, provider)
      ensures var storeReads := if provider.namespace.None? then [ReadLocalConfig] else [];
        if r.Success? then
          && created == EnsuredCache(old(created), items, r.value)
          && log == old(log) + storeReads + EnsureRequests(old(created), items, r.value, gardenVersion)
        else
          created == old(created) && log == old(log) + storeReads
      ensures old(CreatesAtMostOnce(created, log)) ==> CreatesAtMostOnce(created, log)
    {
      r := GetNamespace(ctx.projectName, ctx.localConfig, provider, items);
    }

    /** `getMetadataNamespace`: the project's namespace with the suffix "metadata", created if missing. */
    method GetMetadataNamespace(ctx: PluginContext, provider: ProviderConfig, items: seq<NamespaceStatus>)
      returns (r: Result<string, AuthenticationError>)
      modifies this
      ensures r == DeriveNamespace(ctx.projectName, ctx.localConfig, provider, Some("metadata"))
      ensures var storeReads := if provider.namespace.None? then [ReadLocalConfig] else [];
        if r.Success? then
          && created == EnsuredCache(old(created), items, r.value)
          && log == old(log) + storeReads + EnsureRequests(old(created), items, r.value, gardenVersion)
        else
          created == old(created) && log == old(log) + storeReads
      ensures old(CreatesAtMostOnce(created, log)) ==> CreatesAtMostOnce(created, log)
    {
      r := GetNamespace(ctx.projectName, ctx.localConfig, provider, items, Some("metadata"));
    }
  }

  /** Two sequential `ensureNamespace` calls with the same name create it at most once. */
  method EnsureNamespaceTwice(p: NamespaceProvisioner, items1: seq<NamespaceStatus>, items2: seq<NamespaceStatus>, namespace: string)
    modifies p
    ensures CreateCount(p.log, namespace) <= CreateCount(old(p.log), namespace) + 1
    ensures namespace in p.created
  {
    ghost var log0 := p.log;
    p.EnsureNamespace(items1, namespace);
    ghost var log1 := p.log;
    p.EnsureNamespace(items2, namespace);
    CreateCountAppend(log0, EnsureRequests(old(p.created), items1, namespace, p.gardenVersion), namespace);
    EnsureCreatesOnlyMissing(old(p.created), items1, namespace, p.gardenVersion, namespace);
    assert p.log == log1;
  }
}
