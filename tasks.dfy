/**
 * The dependant-task resolver of garden-service's task helpers: after a module
 * changes, which Push and Deploy tasks have to run again.
 *
 * The configuration graph is not part of this model. Its three queries are
 * given as functions (`ConfigGraph`), so every statement below holds for any
 * graph, and the pruning filter the resolver builds is passed to them as a
 * value.
 */
module Tasks {
  import opened Wrappers
  import opened Collections

  datatype Module = Module(name: string, serviceNames: seq<string>)

  /** A service and the name of the module that contributes it. */
  datatype Service = Service(name: string, moduleName: string)

  datatype NodeType = BuildNode | ServiceNode | TestNode | TaskNode

  /** A node of the dependency graph, as the pruning filter sees it. */
  datatype DependencyGraphNode = DependencyGraphNode(nodeType: NodeType, name: string, moduleName: string)

  /** The build and service part of a dependant query's answer. */
  datatype Dependants = Dependants(build: seq<Module>, service: seq<Service>)

  /**
   * The graph queries the resolver uses: `getServices(names)`,
   * `getDependantsForMany(type, names, recursive, filter)` and
   * `getDependantsForModule(module, filter)`.
   */
  datatype ConfigGraph = ConfigGraph(
    getServices: seq<string> -> seq<Service>,
    getDependantsForMany: (NodeType, seq<string>, bool, DependencyGraphNode -> bool) -> Dependants,
    getDependantsForModule: (Module, DependencyGraphNode -> bool) -> Dependants)

  /**
   * The task variants the resolver creates. Every task carries the run's
   * `fromWatch` flag and hot-reload service names.
   */
  datatype Task =
    | Push(mod: Module, force: bool, fromWatch: bool, hotReloadServiceNames: seq<string>)
    | Deploy(service: Service, force: bool, forceBuild: bool, fromWatch: bool, hotReloadServiceNames: seq<string>)

  /** One Push task per module, in order. */
  function PushTasks(modules: seq<Module>, force: bool, fromWatch: bool, hotReloadServiceNames: seq<string>): (r: seq<Task>)
    ensures |r| == |modules|
    ensures forall i :: 0 <= i < |r| ==> r[i] == Push(modules[i], force, fromWatch, hotReloadServiceNames)
  {
    seq(|modules|, i requires 0 <= i < |modules| => Push(modules[i], force, fromWatch, hotReloadServiceNames))
  }

  /** One Deploy task per service, in order. */
  function DeployTasks(services: seq<Service>, force: bool, forceBuild: bool, fromWatch: bool,
                       hotReloadServiceNames: seq<string>): (r: seq<Task>)
    ensures |r| == |services|
    ensures forall i :: 0 <= i < |r| ==> r[i] == Deploy(services[i], force, forceBuild, fromWatch, hotReloadServiceNames)
  {
    seq(|services|, i requires 0 <= i < |services| => Deploy(services[i], force, forceBuild, fromWatch, hotReloadServiceNames))
  }

  function ModuleNamesOf(services: seq<Service>): (r: seq<string>)
    ensures |r| == |services|
    ensures forall i :: 0 <= i < |r| ==> r[i] == services[i].moduleName
  {
    seq(|services|, i requires 0 <= i < |services| => services[i].moduleName)
  }

  /** The distinct names of the modules that own the given services. */
  function GetModuleNames(graph: ConfigGraph, hotReloadServiceNames: seq<string>): (r: seq<string>)
    ensures NoDuplicates(r)
    ensures forall name :: name in r <==>
      exists s :: s in graph.getServices(hotReloadServiceNames) && s.moduleName == name
  {
    var services := graph.getServices(hotReloadServiceNames);
    var names := ModuleNamesOf(services);
    assert forall name :: name in names <==> exists s :: s in services && s.moduleName == name by {
      forall name | name in names ensures exists s :: s in services && s.moduleName == name {
        var i :| 0 <= i < |names| && names[i] == name;
        assert services[i] in services;
      }
      forall name | exists s :: s in services && s.moduleName == name ensures name in names {
        var s :| s in services && s.moduleName == name;
        var i :| 0 <= i < |services| && services[i] == s;
        assert names[i] == name;
      }
    }
    Uniq(names)
  }

  /** The pruning filter: it rejects the nodes of the given modules. */
  function DependantFilter(hotReloadModuleNames: seq<string>): DependencyGraphNode -> bool {
    (dependantNode: DependencyGraphNode) => dependantNode.moduleName !in hotReloadModuleNames
  }

  /**
   * The filter the resolver builds accepts a node exactly when the node's
   * module owns none of the hot-reload services.
   */
  lemma DependantFilterAccepts(graph: ConfigGraph, hotReloadServiceNames: seq<string>, node: DependencyGraphNode)
    ensures DependantFilter(GetModuleNames(graph, hotReloadServiceNames))(node) <==>
      forall s :: s in graph.getServices(hotReloadServiceNames) ==> s.moduleName != node.moduleName
  {
  }

  /** Whether one of the module's services is being hot-reloaded. */
  predicate HasHotReloadService(mod: Module, hotReloadServiceNames: seq<string>) {
    exists name :: name in mod.serviceNames && name in hotReloadServiceNames
  }

  /**
   * The resolver's decision table, as a function of the graph's answers.
   * Without dependants: the module's Push task and its services' Deploy
   * tasks. With dependants and a hot-reloading service: the Push and Deploy
   * tasks of what depends on the module's services, and no Push task for
   * the module. With dependants and no hot-reloading service: a forced Push
   * for the module, Push tasks for its dependant modules, Deploy tasks for
   * its own and its dependant services.
   */
  function DependantTasks(graph: ConfigGraph, mod: Module, hotReloadServiceNames: seq<string>,
                          force: bool := false, forceBuild: bool := false, fromWatch: bool := false,
                          includeDependants: bool := false): (r: seq<Task>)
    ensures PushesBeforeDeploys(r)
    ensures !includeDependants || !HasHotReloadService(mod, hotReloadServiceNames) ==>
      |r| > 0 && r[0] == Push(mod, includeDependants || forceBuild, fromWatch, hotReloadServiceNames)
  {
    var hr := hotReloadServiceNames;
    if !includeDependants then
      [Push(mod, forceBuild, fromWatch, hr)]
        + DeployTasks(graph.getServices(mod.serviceNames), force, forceBuild, fromWatch, hr)
    else
      var filter := DependantFilter(GetModuleNames(graph, hr));
      if HasHotReloadService(mod, hr) then
        assert HasHotReloadService(mod, hotReloadServiceNames);
        var serviceDeps := graph.getDependantsForMany(ServiceNode, mod.serviceNames, true, filter);
        PushTasks(serviceDeps.build, forceBuild, fromWatch, hr)
          + DeployTasks(serviceDeps.service, force, forceBuild, fromWatch, hr)
      else
        var dependants := graph.getDependantsForModule(mod, filter);
        [Push(mod, true, fromWatch, hr)] + PushTasks(dependants.build, forceBuild, fromWatch, hr)
          + DeployTasks(graph.getServices(mod.serviceNames) + dependants.service, force, forceBuild, fromWatch, hr)
  }

  /**
   * `getDependantTasksForModule`: collects the Push tasks in a list that
   * each branch appends to, then appends one Deploy task per service.
   */
  method GetDependantTasksForModule(graph: ConfigGraph, mod: Module, hotReloadServiceNames: seq<string>,
                                    force: bool := false, forceBuild: bool := false, fromWatch: bool := false,
                                    includeDependants: bool := false)
    returns (outputTasks: seq<Task>)
    ensures outputTasks == DependantTasks(graph, mod, hotReloadServiceNames, force, forceBuild, fromWatch, includeDependants)
  {
    var pushTasks: seq<Task> := [];
    var dependantBuildModules: seq<Module> := [];
    var services: seq<Service> := [];

    if !includeDependants {
      pushTasks := pushTasks + [Push(mod, forceBuild, fromWatch, hotReloadServiceNames)];
      services := graph.getServices(mod.serviceNames);
      assert pushTasks == [Push(mod, forceBuild, fromWatch, hotReloadServiceNames)];
      assert PushTasks(dependantBuildModules, forceBuild, fromWatch, hotReloadServiceNames) == [];
    } else {
      var hotReloadModuleNames := GetModuleNames(graph, hotReloadServiceNames);
      var dependantFilterFn := DependantFilter(hotReloadModuleNames);
      IntersectionNonEmpty(mod.serviceNames, hotReloadServiceNames);
      if |Intersection(mod.serviceNames, hotReloadServiceNames)| > 0 {
        assert HasHotReloadService(mod, hotReloadServiceNames);
        var serviceDeps := graph.getDependantsForMany(ServiceNode, mod.serviceNames, true, dependantFilterFn);
        dependantBuildModules := serviceDeps.build;
        services := serviceDeps.service;
        assert pushTasks == [];
      } else {
        assert !HasHotReloadService(mod, hotReloadServiceNames);
        var dependants := graph.getDependantsForModule(mod, dependantFilterFn);
        pushTasks := pushTasks + [Push(mod, true, fromWatch, hotReloadServiceNames)];
        dependantBuildModules := dependants.build;
        services := graph.getServices(mod.serviceNames) + dependants.service;
        assert pushTasks == [Push(mod, true, fromWatch, hotReloadServiceNames)];
      }
    }

    pushTasks := pushTasks + PushTasks(dependantBuildModules, forceBuild, fromWatch, hotReloadServiceNames);
    var deployTasks := DeployTasks(services, force, forceBuild, fromWatch, hotReloadServiceNames);
    outputTasks := pushTasks + deployTasks;
  }

  /** Every Push task of the list comes before every Deploy task. */
  predicate PushesBeforeDeploys(tasks: seq<Task>) {
    forall i, j :: 0 <= i < j < |tasks| && tasks[j].Push? ==> tasks[i].Push?
  }

  /** The number of Push tasks in the list. */
  function PushCount(tasks: seq<Task>): nat {
    if tasks == [] then 0 else (if tasks[0].Push? then 1 else 0) + PushCount(tasks[1..])
  }

  lemma {:induction false} PushCountAppend(a: seq<Task>, b: seq<Task>)
    ensures PushCount(a + b) == PushCount(a) + PushCount(b)
  {
    if a == [] {
      assert a + b == b;
    } else {
      assert (a + b)[1..] == a[1..] + b;
      PushCountAppend(a[1..], b);
    }
  }

  lemma {:induction false} PushCountOfPushTasks(modules: seq<Module>, force: bool, fromWatch: bool, hr: seq<string>)
    ensures PushCount(PushTasks(modules, force, fromWatch, hr)) == |modules|
  {
    if modules != [] {
      assert PushTasks(modules, force, fromWatch, hr)[1..] == PushTasks(modules[1..], force, fromWatch, hr);
      PushCountOfPushTasks(modules[1..], force, fromWatch, hr);
    }
  }

  lemma {:induction false} PushCountOfDeployTasks(services: seq<Service>, force: bool, forceBuild: bool, fromWatch: bool, hr: seq<string>)
    ensures PushCount(DeployTasks(services, force, forceBuild, fromWatch, hr)) == 0
  {
    if services != [] {
      assert DeployTasks(services, force, forceBuild, fromWatch, hr)[1..] == DeployTasks(services[1..], force, forceBuild, fromWatch, hr);
      PushCountOfDeployTasks(services[1..], force, forceBuild, fromWatch, hr);
    }
  }

  /**
   * Without dependants: exactly one Push task, for the module and forced
   * only when `forceBuild` is, then one Deploy task per service of the
   * module, in the order the graph returns them.
   */
  lemma WithoutDependants(graph: ConfigGraph, mod: Module, hr: seq<string>, force: bool, forceBuild: bool, fromWatch: bool)
    ensures var r := DependantTasks(graph, mod, hr, force, forceBuild, fromWatch, false);
      var services := graph.getServices(mod.serviceNames);
      && |r| == 1 + |services|
      && r[0] == Push(mod, forceBuild, fromWatch, hr)
      && (forall i :: 0 <= i < |services| ==> r[1 + i] == Deploy(services[i], force, forceBuild, fromWatch, hr))
      && PushCount(r) == 1
  {
    var services := graph.getServices(mod.serviceNames);
    PushCountAppend([Push(mod, forceBuild, fromWatch, hr)], DeployTasks(services, force, forceBuild, fromWatch, hr));
    PushCountOfDeployTasks(services, force, forceBuild, fromWatch, hr);
  }

  /**
   * With dependants and a hot-reloading service: the Push tasks are exactly
   * those of the dependant build modules the graph returns for the module's
   * services (forced only when `forceBuild` is), and the Deploy tasks
   * exactly those of the dependant services it returns.
   */
  lemma HotReloadDependants(graph: ConfigGraph, mod: Module, hr: seq<string>, force: bool, forceBuild: bool, fromWatch: bool)
    requires HasHotReloadService(mod, hr)
    ensures var r := DependantTasks(graph, mod, hr, force, forceBuild, fromWatch, true);
      var deps := graph.getDependantsForMany(ServiceNode, mod.serviceNames, true, DependantFilter(GetModuleNames(graph, hr)));
      && |r| == |deps.build| + |deps.service|
      && (forall i :: 0 <= i < |deps.build| ==> r[i] == Push(deps.build[i], forceBuild, fromWatch, hr))
      && (forall i :: 0 <= i < |deps.service| ==> r[|deps.build| + i] == Deploy(deps.service[i], force, forceBuild, fromWatch, hr))
      && PushCount(r) == |deps.build|
  {
    var deps := graph.getDependantsForMany(ServiceNode, mod.serviceNames, true, DependantFilter(GetModuleNames(graph, hr)));
    var pushes := PushTasks(deps.build, forceBuild, fromWatch, hr);
    var deploys := DeployTasks(deps.service, force, forceBuild, fromWatch, hr);
    var r := DependantTasks(graph, mod, hr, force, forceBuild, fromWatch, true);
    assert r == pushes + deploys;
    assert forall i :: 0 <= i < |deps.build| ==> r[i] == pushes[i];
    assert forall i :: 0 <= i < |deps.service| ==> r[|deps.build| + i] == deploys[i];
    PushCountAppend(pushes, deploys);
    PushCountOfPushTasks(deps.build, forceBuild, fromWatch, hr);
    PushCountOfDeployTasks(deps.service, force, forceBuild, fromWatch, hr);
  }

  /**
   * The graph honours the filter on the build modules it returns: each
   * returned module's build node passes the filter.
   */
  predicate HonoursFilterOnBuilds(deps: Dependants, filter: DependencyGraphNode -> bool) {
    forall m :: m in deps.build ==> filter(DependencyGraphNode(BuildNode, m.name, m.name))
  }

  /**
   * With dependants and a hot-reloading service, no Push task for the
   * changed module is emitted, provided the graph resolves one of the
   * hot-reload services to this module and honours the filter.
   */
  lemma HotReloadSkipsChangedModule(graph: ConfigGraph, mod: Module, hr: seq<string>, force: bool, forceBuild: bool, fromWatch: bool)
    requires HasHotReloadService(mod, hr)
    requires exists s :: s in graph.getServices(hr) && s.moduleName == mod.name
    requires HonoursFilterOnBuilds(
      graph.getDependantsForMany(ServiceNode, mod.serviceNames, true, DependantFilter(GetModuleNames(graph, hr))),
      DependantFilter(GetModuleNames(graph, hr)))
    ensures forall t :: t in DependantTasks(graph, mod, hr, force, forceBuild, fromWatch, true) && t.Push? ==>
      t.mod.name != mod.name
  {
    var names := GetModuleNames(graph, hr);
    assert mod.name in names;
    var deps := graph.getDependantsForMany(ServiceNode, mod.serviceNames, true, DependantFilter(names));
    var pushes := PushTasks(deps.build, forceBuild, fromWatch, hr);
    var deploys := DeployTasks(deps.service, force, forceBuild, fromWatch, hr);
    assert DependantTasks(graph, mod, hr, force, forceBuild, fromWatch, true) == pushes + deploys;
    assert forall t :: t in deploys ==> t.Deploy?;
    forall m | m in deps.build ensures m.name != mod.name {
      assert DependantFilter(names)(DependencyGraphNode(BuildNode, m.name, m.name));
    }
    forall t | t in pushes + deploys && t.Push? ensures t.mod.name != mod.name {
      assert t in pushes;
      var k :| 0 <= k < |pushes| && pushes[k] == t;
      assert t.mod == deps.build[k];
    }
  }

  /**
   * With dependants and no hot-reloading service: first a forced Push task
   * for the module, then Push tasks for the dependant build modules (forced
   * only when `forceBuild` is), then Deploy tasks for the module's own
   * services followed by the dependant services.
   */
  lemma NoHotReloadDependants(graph: ConfigGraph, mod: Module, hr: seq<string>, force: bool, forceBuild: bool, fromWatch: bool)
    requires !HasHotReloadService(mod, hr)
    ensures var r := DependantTasks(graph, mod, hr, force, forceBuild, fromWatch, true);
      var deps := graph.getDependantsForModule(mod, DependantFilter(GetModuleNames(graph, hr)));
      var services := graph.getServices(mod.serviceNames) + deps.service;
      && |r| == 1 + |deps.build| + |services|
      && r[0] == Push(mod, true, fromWatch, hr)
      && (forall i :: 0 <= i < |deps.build| ==> r[1 + i] == Push(deps.build[i], forceBuild, fromWatch, hr))
      && (forall i :: 0 <= i < |services| ==> r[1 + |deps.build| + i] == Deploy(services[i], force, forceBuild, fromWatch, hr))
      && PushCount(r) == 1 + |deps.build|
  {
    var deps := graph.getDependantsForModule(mod, DependantFilter(GetModuleNames(graph, hr)));
    var services := graph.getServices(mod.serviceNames) + deps.service;
    var first := [Push(mod, true, fromWatch, hr)];
    var pushes := PushTasks(deps.build, forceBuild, fromWatch, hr);
    var deploys := DeployTasks(services, force, forceBuild, fromWatch, hr);
    var r := DependantTasks(graph, mod, hr, force, forceBuild, fromWatch, true);
    assert r == first + pushes + deploys;
    assert forall i :: 0 <= i < |deps.build| ==> r[1 + i] == pushes[i];
    assert forall i :: 0 <= i < |services| ==> r[1 + |deps.build| + i] == deploys[i];
    PushCountAppend(first, pushes);
    PushCountAppend(first + pushes, deploys);
    PushCountOfPushTasks(deps.build, forceBuild, fromWatch, hr);
    PushCountOfDeployTasks(services, force, forceBuild, fromWatch, hr);
  }

  /**
   * In every case the list is all Push tasks followed by all Deploy tasks,
   * every task carries the call's `fromWatch` and hot-reload names, and
   * every Deploy task the call's `force` and `forceBuild`.
   */
  lemma TasksShareContext(graph: ConfigGraph, mod: Module, hr: seq<string>, force: bool, forceBuild: bool,
                          fromWatch: bool, includeDependants: bool)
    ensures var r := DependantTasks(graph, mod, hr, force, forceBuild, fromWatch, includeDependants);
      && PushesBeforeDeploys(r)
      && (forall t :: t in r ==> t.fromWatch == fromWatch && t.hotReloadServiceNames == hr)
      && (forall t :: t in r && t.Deploy? ==> t.force == force && t.forceBuild == forceBuild)
  {
    var filter := DependantFilter(GetModuleNames(graph, hr));
    var pushes: seq<Task>, services: seq<Service>;
    if !includeDependants {
      pushes := [Push(mod, forceBuild, fromWatch, hr)];
      services := graph.getServices(mod.serviceNames);
    } else if HasHotReloadService(mod, hr) {
      var deps := graph.getDependantsForMany(ServiceNode, mod.serviceNames, true, filter);
      pushes := PushTasks(deps.build, forceBuild, fromWatch, hr);
      services := deps.service;
    } else {
      var deps := graph.getDependantsForModule(mod, filter);
      pushes := [Push(mod, true, fromWatch, hr)] + PushTasks(deps.build, forceBuild, fromWatch, hr);
      services := graph.getServices(mod.serviceNames) + deps.service;
    }
    var deploys := DeployTasks(services, force, forceBuild, fromWatch, hr);
    assert DependantTasks(graph, mod, hr, force, forceBuild, fromWatch, includeDependants) == pushes + deploys;
    assert forall t :: t in pushes ==> t.Push? && t.fromWatch == fromWatch && t.hotReloadServiceNames == hr;
    assert forall t :: t in deploys ==> t.Deploy? && t.fromWatch == fromWatch && t.hotReloadServiceNames == hr
                                        && t.force == force && t.forceBuild == forceBuild;
  }

  /** The services a branch of the resolver deploys, in the order it deploys them. */
  function CollectedServices(graph: ConfigGraph, mod: Module, hr: seq<string>, includeDependants: bool): seq<Service> {
    var filter := DependantFilter(GetModuleNames(graph, hr));
    if !includeDependants then graph.getServices(mod.serviceNames)
    else if HasHotReloadService(mod, hr) then graph.getDependantsForMany(ServiceNode, mod.serviceNames, true, filter).service
    else graph.getServices(mod.serviceNames) + graph.getDependantsForModule(mod, filter).service
  }

  /** The last `|services|` tasks of `r` are one Deploy task per service, in order. */
  predicate DeploysAtEnd(r: seq<Task>, services: seq<Service>) {
    && |services| <= |r|
    && forall k :: |r| - |services| <= k < |r| ==> r[k].Deploy? && r[k].service == services[k - (|r| - |services|)]
  }

  /** Two positions among the last `|services|` tasks that hold the same service hold the same task. */
  predicate EqualServicesEqualDeploys(r: seq<Task>, services: seq<Service>) {
    && |services| <= |r|
    && forall i, j :: 0 <= i < |services| && 0 <= j < |services| && services[i] == services[j] ==>
         r[|r| - |services| + i] == r[|r| - |services| + j]
  }

  /** Deploy tasks appended to any prefix sit at the end, one per service, equal wherever the services are. */
  lemma DeploysAtEndFollowServices(prefix: seq<Task>, services: seq<Service>, force: bool, forceBuild: bool,
                                   fromWatch: bool, hr: seq<string>)
    ensures var r := prefix + DeployTasks(services, force, forceBuild, fromWatch, hr);
      DeploysAtEnd(r, services) && EqualServicesEqualDeploys(r, services)
  {
    var deploys := DeployTasks(services, force, forceBuild, fromWatch, hr);
    var r := prefix + deploys;
    forall k | |prefix| <= k < |r|
      ensures r[k] == Deploy(services[k - |prefix|], force, forceBuild, fromWatch, hr)
    {
      assert r[k] == deploys[k - |prefix|];
    }
  }

  /**
   * The resolver does not deduplicate, in any branch: the Deploy tasks are
   * the last tasks, one per service the branch collects, so a service the
   * graph returns twice gets two identical Deploy tasks.
   */
  lemma NoDeduplication(graph: ConfigGraph, mod: Module, hr: seq<string>, force: bool, forceBuild: bool, fromWatch: bool,
                        includeDependants: bool)
    ensures var r := DependantTasks(graph, mod, hr, force, forceBuild, fromWatch, includeDependants);
      var services := CollectedServices(graph, mod, hr, includeDependants);
      DeploysAtEnd(r, services) && EqualServicesEqualDeploys(r, services)
  {
    var services := CollectedServices(graph, mod, hr, includeDependants);
    var filter := DependantFilter(GetModuleNames(graph, hr));
    var prefix;
    if !includeDependants {
      prefix := [Push(mod, forceBuild, fromWatch, hr)];
    } else if HasHotReloadService(mod, hr) {
      var deps := graph.getDependantsForMany(ServiceNode, mod.serviceNames, true, filter);
      prefix := PushTasks(deps.build, forceBuild, fromWatch, hr);
    } else {
      var deps := graph.getDependantsForModule(mod, filter);
      prefix := [Push(mod, true, fromWatch, hr)] + PushTasks(deps.build, forceBuild, fromWatch, hr);
    }
    assert DependantTasks(graph, mod, hr, force, forceBuild, fromWatch, includeDependants)
        == prefix + DeployTasks(services, force, forceBuild, fromWatch, hr);
    DeploysAtEndFollowServices(prefix, services, force, forceBuild, fromWatch, hr);
  }

  /**
   * With every flag left at its default, the list is an unforced Push task
   * for the module followed by unforced Deploy tasks of its services.
   */
  lemma DefaultFlags(graph: ConfigGraph, mod: Module, hr: seq<string>)
    ensures DependantTasks(graph, mod, hr)
      == [Push(mod, false, false, hr)] + DeployTasks(graph.getServices(mod.serviceNames), false, false, false, hr)
  {
  }

  /** `makeTestTaskName`: the module name and the test name joined by a dot. */
  function MakeTestTaskName(moduleName: string, testConfigName: string): (r: string)
    ensures |r| == |moduleName| + 1 + |testConfigName|
  {
    moduleName + "." + testConfigName
  }

  /** The index of the first dot in `s`, if there is one. */
  function FirstDot(s: string): (r: Option<nat>)
    ensures r.Some? ==> r.value < |s| && s[r.value] == '.' && '.' !in s[..r.value]
    ensures r.None? ==> '.' !in s
  {
    if s == [] then None
    else if s[0] == '.' then Some(0)
    else match FirstDot(s[1..])
      case None => None
      case Some(k) => assert s[..k + 1] == [s[0]] + s[1..][..k]; Some(k + 1)
  }

  /** Splits a test task name into its module name and test name at the first dot. */
  function SplitTestTaskName(name: string): Option<(string, string)> {
    match FirstDot(name)
    case None => None
    case Some(k) => Some((name[..k], name[k + 1..]))
  }

  /**
   * A test task name gives back its module and test names when the module
   * name has no dot (module names are identifiers).
   */
  lemma {:induction false} TestTaskNameRoundTrip(moduleName: string, testConfigName: string)
    requires '.' !in moduleName
    ensures SplitTestTaskName(MakeTestTaskName(moduleName, testConfigName)) == Some((moduleName, testConfigName))
  {
    var name := MakeTestTaskName(moduleName, testConfigName);
    assert name[..|moduleName|] == moduleName;
    assert name[|moduleName|] == '.';
    assert name[|moduleName| + 1..] == testConfigName;
  }
}
