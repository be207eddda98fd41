/**
 The compose-file builder, on the services section: enabled modules are merged in, services
 claimed by disabled modules are removed, and dependencies on absent services are dropped.
 */
module Compose {
  import opened Options
  import opened Runs
  import opened Text

  type ServiceKey = string

  /** depends_on: absent, a list of names, or an object from names to conditions. */
  datatype DependsOn =
    | Absent
    | Names(list: seq<ServiceKey>)
    | Conditions(conditions: map<ServiceKey, string>)

  datatype Service = Service(dependsOn: DependsOn, command: string, rest: string)

  type Services = map<ServiceKey, Service>

  datatype Module = Module(
    key: string,
    enabled: bool,
    file: Option<Services>,                             // its compose file's services, if the file exists
    serviceKeys: set<ServiceKey>,
    addDependsOn: map<ServiceKey, map<ServiceKey, string>>,
    addCommandOn: map<ServiceKey, string>,
    dependsOn: Option<map<ServiceKey, string>>
  )

  const Empty := Service(Absent, "", "")

  /** { ...depends_on, ...more }: a list is spread to its indices. */
  function ExtendClause(d: DependsOn, more: map<ServiceKey, string>): DependsOn {
    Conditions(
      match d
      case Absent => more
      case Names(list) => SpreadArray(list) + more
      case Conditions(conditions) => conditions + more)
  }

  function Extend(service: Service, more: map<ServiceKey, string>): Service {
    service.(dependsOn := ExtendClause(service.dependsOn, more))
  }

  function At(services: Services, key: ServiceKey): Service {
    if key in services then services[key] else Empty
  }

  function AddDependencies(services: Services, add: map<ServiceKey, map<ServiceKey, string>>): Services {
    map key | key in services.Keys + add.Keys ::
      if key in add then Extend(At(services, key), add[key]) else services[key]
  }

  function AddCommands(services: Services, add: map<ServiceKey, string>): Services {
    map key | key in services :: if key in add then services[key].(command := add[key]) else services[key]
  }

  function AddOwnDependencies(services: Services, m: Module): Services {
    if m.dependsOn.None? then services
    else services[m.key := Extend(At(services, m.key), m.dependsOn.value)]
  }

  function Merge(services: Services, m: Module): Services {
    if !m.enabled || m.file.None? then services
    else AddOwnDependencies(AddCommands(AddDependencies(services + m.file.value, m.addDependsOn), m.addCommandOn), m)
  }

  /** The modules are processed in order. */
  ghost function MergeAll(services: Services, modules: seq<Module>): Services {
    Run(Merge, services, modules)
  }

  /** The services of disabled modules. */
  function Claimed(modules: seq<Module>): set<ServiceKey> {
    set i, key | 0 <= i < |modules| && !modules[i].enabled && key in modules[i].serviceKeys :: key
  }

  function Present(list: seq<ServiceKey>, keys: set<ServiceKey>): seq<ServiceKey> {
    if list == [] then [] else (if list[0] in keys then [list[0]] else []) + Present(list[1..], keys)
  }

  /** Names that every object answers to, by its prototype: a dependency of that name counts as present. */
  const INHERITED: set<ServiceKey> := {
    "__proto__", "constructor", "hasOwnProperty", "isPrototypeOf", "propertyIsEnumerable", "toLocaleString",
    "toString", "valueOf", "__defineGetter__", "__defineSetter__", "__lookupGetter__", "__lookupSetter__"
  }

  function CleanDependencies(d: DependsOn, keys: set<ServiceKey>): DependsOn {
    match d
    case Absent => Absent
    case Names(list) =>
      var kept := Present(list, keys);
      if kept == [] then Absent else Names(kept)
    case Conditions(conditions) =>
      var kept := map dep | dep in conditions && dep in keys :: conditions[dep];
      if kept == map[] then Absent else Conditions(kept)
  }

  function CleanDependsOn(services: Services): Services {
    map key | key in services ::
      services[key].(dependsOn := CleanDependencies(services[key].dependsOn, services.Keys + INHERITED))
  }

  ghost function Build(base: Services, modules: seq<Module>): Services {
    CleanDependsOn(MergeAll(base, modules) - Claimed(modules))
  }

  /** The services a dependency clause names. */
  function Targets(d: DependsOn): set<ServiceKey> {
    match d
    case Absent => {}
    case Names(list) => set dep | dep in list
    case Conditions(conditions) => conditions.Keys
  }

  lemma {:induction false} PresentMember(list: seq<ServiceKey>, keys: set<ServiceKey>, dep: ServiceKey)
    ensures dep in Present(list, keys) <==> dep in list && dep in keys
  {
    if list != [] {
      PresentMember(list[1..], keys, dep);
      assert list == [list[0]] + list[1..];
    }
  }

  lemma {:induction false} PresentAll(list: seq<ServiceKey>, keys: set<ServiceKey>)
    requires forall dep :: dep in list ==> dep in keys
    ensures Present(list, keys) == list
  {
    if list != [] {
      PresentAll(list[1..], keys);
      assert list[0] in list;
    }
  }

  /** Cleaning keeps exactly the dependencies on present services, and leaves no empty clause. */
  lemma CleanKeepsExactlyPresent(d: DependsOn, keys: set<ServiceKey>)
    ensures Targets(CleanDependencies(d, keys)) == Targets(d) * keys
    ensures CleanDependencies(d, keys).Absent? <==> Targets(d) * keys == {}
  {
    if d.Names? {
      forall dep ensures dep in Present(d.list, keys) <==> dep in d.list && dep in keys {
        PresentMember(d.list, keys, dep);
      }
      if Present(d.list, keys) != [] {
        assert Present(d.list, keys)[0] in Targets(d) * keys;
      }
    } else if d.Conditions? {
      var kept := map dep | dep in d.conditions && dep in keys :: d.conditions[dep];
      assert kept.Keys == Targets(d) * keys;
    }
  }

  lemma CleanTwice(d: DependsOn, keys: set<ServiceKey>)
    ensures CleanDependencies(CleanDependencies(d, keys), keys) == CleanDependencies(d, keys)
  {
    if d.Names? {
      forall dep | dep in Present(d.list, keys) ensures dep in keys {
        PresentMember(d.list, keys, dep);
      }
      PresentAll(Present(d.list, keys), keys);
    } else if d.Conditions? {
      var kept := map dep | dep in d.conditions && dep in keys :: d.conditions[dep];
      assert (map dep | dep in kept && dep in keys :: kept[dep]) == kept;
    }
  }

  /** What one module can bring into the services section. */
  function Brings(m: Module): set<ServiceKey> {
    if !m.enabled || m.file.None? then {}
    else m.file.value.Keys + m.addDependsOn.Keys + (if m.dependsOn.Some? then {m.key} else {})
  }

  function BringsAll(modules: seq<Module>): set<ServiceKey> {
    set i, key | 0 <= i < |modules| && key in Brings(modules[i]) :: key
  }

  lemma {:induction false} MergedKeys(services: Services, modules: seq<Module>)
    ensures MergeAll(services, modules).Keys == services.Keys + BringsAll(modules)
    decreases |modules|
  {
    if modules == [] {
    } else {
      MergedKeys(Merge(services, modules[0]), modules[1..]);
      assert Merge(services, modules[0]).Keys == services.Keys + Brings(modules[0]);
      assert BringsAll(modules) == Brings(modules[0]) + BringsAll(modules[1..]) by {
        assert forall i :: 0 <= i < |modules| - 1 ==> modules[1..][i] == modules[i + 1];
        forall key | key in BringsAll(modules[1..]) ensures key in BringsAll(modules) {
          var i :| 0 <= i < |modules| - 1 && key in Brings(modules[1..][i]);
          assert key in Brings(modules[i + 1]);
        }
        forall key | key in BringsAll(modules) ensures key in Brings(modules[0]) + BringsAll(modules[1..]) {
          var i :| 0 <= i < |modules| && key in Brings(modules[i]);
          assert i > 0 ==> key in Brings(modules[1..][i - 1]);
        }
      }
    }
  }

  /**
   Main result: the built services are exactly those of the base file and of enabled modules that no
   disabled module claims, so none of a disabled module and all unclaimed ones of an enabled one.
   */
  lemma BuiltServices(base: Services, modules: seq<Module>)
    ensures Build(base, modules).Keys == base.Keys + BringsAll(modules) - Claimed(modules)
  {
    MergedKeys(base, modules);
  }

  lemma EnabledAndDisabledModules(base: Services, modules: seq<Module>, i: nat, key: ServiceKey)
    requires i < |modules|
    ensures !modules[i].enabled && key in modules[i].serviceKeys ==> key !in Build(base, modules)
    ensures modules[i].enabled && modules[i].file.Some? && key in modules[i].file.value ==>
              (key in Build(base, modules) <==> key !in Claimed(modules))
  {
    BuiltServices(base, modules);
    if modules[i].enabled && modules[i].file.Some? && key in modules[i].file.value {
      assert key in Brings(modules[i]);
    }
  }

  /**
   Every dependency clause of a built file is non-empty, and it has lost exactly the dependencies on
   services that are not there, unless their names are inherited ones.
   */
  lemma BuiltDependencies(base: Services, modules: seq<Module>, key: ServiceKey)
    requires key in Build(base, modules)
    ensures var built := Build(base, modules);
            && (!built[key].dependsOn.Absent? ==> Targets(built[key].dependsOn) != {})
            && Targets(built[key].dependsOn)
               == Targets(MergeAll(base, modules)[key].dependsOn) * (built.Keys + INHERITED)
  {
    var kept := MergeAll(base, modules) - Claimed(modules);
    CleanKeepsExactlyPresent(kept[key].dependsOn, kept.Keys + INHERITED);
    assert Build(base, modules).Keys == kept.Keys;
  }

  ghost predicate NoInheritedTargets(services: Services, built: Services) {
    forall key :: key in built && key in services ==> Targets(services[key].dependsOn) * INHERITED <= built.Keys
  }

  /** All dependencies of a built file are on built services if and only if none was merged in on an inherited name. */
  lemma DependenciesAreBuiltIff(base: Services, modules: seq<Module>)
    ensures var built := Build(base, modules);
            (forall key :: key in built ==> Targets(built[key].dependsOn) <= built.Keys)
            <==> NoInheritedTargets(MergeAll(base, modules), built)
  {
    var built := Build(base, modules);
    forall key | key in built
      ensures Targets(built[key].dependsOn) == Targets(MergeAll(base, modules)[key].dependsOn) * (built.Keys + INHERITED)
    {
      BuiltDependencies(base, modules, key);
    }
  }

  /** What a service is, apart from its command and dependencies: the last definition of it counts. */
  function Definition(base: Services, modules: seq<Module>, key: ServiceKey): string
    decreases |modules|
  {
    if modules == [] then At(base, key).rest
    else
      var last := modules[|modules| - 1];
      if last.enabled && last.file.Some? && key in last.file.value then last.file.value[key].rest
      else Definition(base, modules[..|modules| - 1], key)
  }

  /** The module sets the command of a service that is there once its file and dependencies are in. */
  predicate SetsCommand(m: Module, key: ServiceKey, earlier: set<ServiceKey>)
    requires m.file.Some?
  {
    key in m.addCommandOn && (key in earlier || key in m.file.value || key in m.addDependsOn)
  }

  /** The command of a service: set by the last enabled module that does, or part of its last definition. */
  function Command(base: Services, modules: seq<Module>, key: ServiceKey): string
    decreases |modules|
  {
    if modules == [] then At(base, key).command
    else
      var earlier := modules[..|modules| - 1];
      var last := modules[|modules| - 1];
      if !last.enabled || last.file.None? then Command(base, earlier, key)
      else if SetsCommand(last, key, base.Keys + BringsAll(earlier)) then last.addCommandOn[key]
      else if key in last.file.value then last.file.value[key].command
      else Command(base, earlier, key)
  }

  lemma MergeDefines(services: Services, m: Module, key: ServiceKey)
    ensures At(Merge(services, m), key).rest
         == if m.enabled && m.file.Some? && key in m.file.value then m.file.value[key].rest else At(services, key).rest
  {
  }

  lemma MergeCommands(services: Services, m: Module, key: ServiceKey)
    ensures At(Merge(services, m), key).command
         == if !m.enabled || m.file.None? then At(services, key).command
            else if SetsCommand(m, key, services.Keys) then m.addCommandOn[key]
            else if key in m.file.value then m.file.value[key].command
            else At(services, key).command
  {
  }

  /** The last enabled module that defines a service, or sets its command, wins over earlier ones and the base file. */
  lemma {:induction false} LastDefinitionWins(base: Services, modules: seq<Module>, key: ServiceKey)
    ensures At(MergeAll(base, modules), key).rest == Definition(base, modules, key)
    ensures At(MergeAll(base, modules), key).command == Command(base, modules, key)
    decreases |modules|
  {
    if modules == [] {
    } else {
      var last := |modules| - 1;
      var earlier := modules[..last];
      LastDefinitionWins(base, earlier, key);
      MergedKeys(base, earlier);
      assert modules == earlier + [modules[last]];
      RunAppend(Merge, base, earlier, modules[last]);
      MergeDefines(MergeAll(base, earlier), modules[last], key);
      MergeCommands(MergeAll(base, earlier), modules[last], key);
    }
  }

  /** A built service is what the last definition of it and the last setting of its command say. */
  lemma BuiltDefinitions(base: Services, modules: seq<Module>, key: ServiceKey)
    requires key in Build(base, modules)
    ensures Build(base, modules)[key].rest == Definition(base, modules, key)
    ensures Build(base, modules)[key].command == Command(base, modules, key)
  {
    LastDefinitionWins(base, modules, key);
  }

  /** The dependency clause of a service: of its last definition, extended by what later modules add to it. */
  function Clause(base: Services, modules: seq<Module>, key: ServiceKey): DependsOn
    decreases |modules|
  {
    if modules == [] then At(base, key).dependsOn
    else
      var earlier := Clause(base, modules[..|modules| - 1], key);
      var last := modules[|modules| - 1];
      if !last.enabled || last.file.None? then earlier
      else
        var defined := if key in last.file.value then last.file.value[key].dependsOn else earlier;
        var added := if key in last.addDependsOn then ExtendClause(defined, last.addDependsOn[key]) else defined;
        if last.dependsOn.Some? && last.key == key then ExtendClause(added, last.dependsOn.value) else added
  }

  /** The condition under which a service waits for another; a list names no conditions, and "" stands for them. */
  function ConditionOf(d: DependsOn, dep: ServiceKey): string {
    if d.Conditions? && dep in d.conditions then d.conditions[dep] else ""
  }

  /** An extended clause has the new dependencies with their conditions, and the others it had as an object. */
  lemma ExtendedClauseIs(d: DependsOn, more: map<ServiceKey, string>, dep: ServiceKey)
    ensures ExtendClause(d, more).Conditions?
    ensures dep in more ==> dep in Targets(ExtendClause(d, more)) && ConditionOf(ExtendClause(d, more), dep) == more[dep]
    ensures !d.Names? && dep !in more ==>
              && (dep in Targets(ExtendClause(d, more)) <==> dep in Targets(d))
              && ConditionOf(ExtendClause(d, more), dep) == ConditionOf(d, dep)
  {
  }

  lemma AddedClause(services: Services, add: map<ServiceKey, map<ServiceKey, string>>, key: ServiceKey)
    ensures At(AddDependencies(services, add), key).dependsOn
         == if key in add then ExtendClause(At(services, key).dependsOn, add[key]) else At(services, key).dependsOn
  {
  }

  lemma CommandsKeepClauses(services: Services, add: map<ServiceKey, string>, key: ServiceKey)
    ensures At(AddCommands(services, add), key).dependsOn == At(services, key).dependsOn
  {
  }

  lemma OwnClause(services: Services, m: Module, key: ServiceKey)
    ensures At(AddOwnDependencies(services, m), key).dependsOn
         == if m.dependsOn.Some? && m.key == key then ExtendClause(At(services, key).dependsOn, m.dependsOn.value)
            else At(services, key).dependsOn
  {
  }

  lemma MergeClause(services: Services, m: Module, key: ServiceKey)
    ensures At(Merge(services, m), key).dependsOn == Clause(services, [m], key)
  {
    assert [m][..0] == [];
    if m.enabled && m.file.Some? {
      var defined := services + m.file.value;
      var added := AddDependencies(defined, m.addDependsOn);
      AddedClause(defined, m.addDependsOn, key);
      CommandsKeepClauses(added, m.addCommandOn, key);
      OwnClause(AddCommands(added, m.addCommandOn), m, key);
    }
  }

  lemma ClauseAppend(base: Services, earlier: seq<Module>, m: Module, services: Services, key: ServiceKey)
    requires At(services, key).dependsOn == Clause(base, earlier, key)
    ensures Clause(base, earlier + [m], key) == Clause(services, [m], key)
  {
    assert (earlier + [m])[..|earlier|] == earlier && [m][..0] == [];
  }

  /** After all merges, a service's clause is that of its last definition with all that was added since. */
  lemma {:induction false} LastClauseExtended(base: Services, modules: seq<Module>, key: ServiceKey)
    ensures At(MergeAll(base, modules), key).dependsOn == Clause(base, modules, key)
    decreases |modules|
  {
    if modules == [] {
    } else {
      var last := |modules| - 1;
      var earlier := modules[..last];
      LastClauseExtended(base, earlier, key);
      assert modules == earlier + [modules[last]];
      RunAppend(Merge, base, earlier, modules[last]);
      MergeClause(MergeAll(base, earlier), modules[last], key);
      ClauseAppend(base, earlier, modules[last], MergeAll(base, earlier), key);
    }
  }

  /**
   What a built service depends on: of the clause that the modules gave it, exactly the dependencies on built
   services or inherited names, under the same conditions, and a list in the same order.
   */
  lemma BuiltClause(base: Services, modules: seq<Module>, key: ServiceKey, dep: ServiceKey)
    requires key in Build(base, modules)
    ensures var built, given := Build(base, modules), Clause(base, modules, key);
            var present := built.Keys + INHERITED;
            && (dep in Targets(built[key].dependsOn) <==> dep in Targets(given) && dep in present)
            && (dep in Targets(built[key].dependsOn) ==> ConditionOf(built[key].dependsOn, dep) == ConditionOf(given, dep))
            && (given.Names? && !built[key].dependsOn.Absent? ==>
                  built[key].dependsOn == Names(Present(given.list, present)))
            && (given.Conditions? && !built[key].dependsOn.Absent? ==> built[key].dependsOn.Conditions?)
  {
    LastClauseExtended(base, modules, key);
    BuiltDependencies(base, modules, key);
    var kept := MergeAll(base, modules) - Claimed(modules);
    assert Build(base, modules).Keys == kept.Keys;
    CleanKeepsExactlyPresent(kept[key].dependsOn, kept.Keys + INHERITED);
  }

  /** A list is filtered name by name, in order. */
  lemma {:induction false} PresentInOrder(a: seq<ServiceKey>, b: seq<ServiceKey>, keys: set<ServiceKey>)
    ensures Present(a + b, keys) == Present(a, keys) + Present(b, keys)
  {
    if a == [] {
      assert a + b == b;
    } else {
      var kept := if a[0] in keys then [a[0]] else [];
      assert (a + b)[1..] == a[1..] + b;
      PresentInOrder(a[1..], b, keys);
      assert kept + (Present(a[1..], keys) + Present(b, keys)) == kept + Present(a[1..], keys) + Present(b, keys);
    }
  }

  lemma PresentAlone(dep: ServiceKey, keys: set<ServiceKey>)
    ensures Present([dep], keys) == if dep in keys then [dep] else []
  {
  }

  ghost predicate Depends(services: Services, key: ServiceKey, dep: ServiceKey) {
    key in services && services[key].dependsOn.Conditions? && dep in services[key].dependsOn.conditions
  }

  /** No module of the list replaces the service by its file. */
  ghost predicate Untouched(modules: seq<Module>, key: ServiceKey) {
    forall i :: 0 <= i < |modules| && modules[i].enabled && modules[i].file.Some? ==> key !in modules[i].file.value
  }

  lemma {:induction false} DependencyStays(services: Services, modules: seq<Module>, key: ServiceKey, dep: ServiceKey)
    requires Depends(services, key, dep) && Untouched(modules, key)
    ensures Depends(MergeAll(services, modules), key, dep)
    decreases |modules|
  {
    if modules == [] {
    } else {
      var m := modules[0];
      assert m.enabled && m.file.Some? ==> (services + m.file.value)[key] == services[key];
      DependencyStays(Merge(services, m), modules[1..], key, dep);
    }
  }

  /**
   A dependency added by an enabled module is in the built file whenever both services are, unless a
   later module's file replaces the service.
   */
  lemma AddedDependencyIsBuilt(base: Services, before: seq<Module>, m: Module, after: seq<Module>,
                               key: ServiceKey, dep: ServiceKey)
    requires m.enabled && m.file.Some? && key in m.addDependsOn && dep in m.addDependsOn[key]
    requires Untouched(after, key)
    ensures var built := Build(base, before + [m] + after);
            key in built && dep in built ==> dep in Targets(built[key].dependsOn)
  {
    var modules := before + [m] + after;
    RunConcat(Merge, base, before + [m], after);
    RunAppend(Merge, base, before, m);
    var merged := MergeAll(base, before + [m]);
    assert Depends(merged, key, dep);
    DependencyStays(merged, after, key, dep);
    if key in Build(base, modules) {
      BuiltDependencies(base, modules, key);
    }
  }

  /** A second dependency cleanup changes nothing. */
  lemma SecondCleanupChangesNothing(services: Services)
    ensures CleanDependsOn(CleanDependsOn(services)) == CleanDependsOn(services)
  {
    var once := CleanDependsOn(services);
    assert once.Keys == services.Keys;
    forall key | key in services ensures CleanDependsOn(once)[key] == once[key] {
      CleanTwice(services[key].dependsOn, services.Keys + INHERITED);
    }
  }

  /**
   Adding dependencies to a service that lists its own loses the listed ones: a name survives
   exactly when it is added again or looks like an index of the list.
   */
  lemma ExtendingAListLosesIt(service: Service, more: map<ServiceKey, string>, dep: ServiceKey)
    requires service.dependsOn.Names?
    ensures dep in Targets(Extend(service, more).dependsOn)
            <==> dep in more || IsIndex(dep, |service.dependsOn.list|)
  {
  }

  /** The builder, with the services section it updates in place. */
  class Builder {
    var services: Services

    constructor (base: Services)
      ensures services == base
    {
      services := base;
    }

    method AddDependsOn(add: map<ServiceKey, map<ServiceKey, string>>)
      modifies this
      ensures services == AddDependencies(old(services), add)
    {
      var todo := add.Keys;
      while todo != {}
        invariant todo <= add.Keys
        invariant services == AddDependencies(old(services), map key | key in add && key !in todo :: add[key])
        decreases todo
      {
        var key :| key in todo;
        services := services[key := Extend(At(services, key), add[key])];
        todo := todo - {key};
      }
      assert (map key | key in add && key !in todo :: add[key]) == add;
    }

    method AddCommandOn(add: map<ServiceKey, string>)
      modifies this
      ensures services == AddCommands(old(services), add)
    {
      var todo := add.Keys;
      while todo != {}
        invariant todo <= add.Keys
        invariant services == AddCommands(old(services), map key | key in add && key !in todo :: add[key])
        decreases todo
      {
        var key :| key in todo;
        if key in services {
          services := services[key := services[key].(command := add[key])];
        }
        todo := todo - {key};
      }
      assert (map key | key in add && key !in todo :: add[key]) == add;
    }

    method ProcessModule(m: Module)
      modifies this
      ensures services == Merge(old(services), m)
    {
      if !m.enabled || m.file.None? {
        return;
      }
      services := services + m.file.value;
      AddDependsOn(m.addDependsOn);
      AddCommandOn(m.addCommandOn);
      if m.dependsOn.Some? {
        services := services[m.key := Extend(At(services, m.key), m.dependsOn.value)];
      }
    }

    method RemoveServices(serviceKeys: set<ServiceKey>)
      modifies this
      ensures services == old(services) - serviceKeys
    {
      var todo := serviceKeys;
      while todo != {}
        invariant todo <= serviceKeys && services == old(services) - (serviceKeys - todo)
        decreases todo
      {
        var key :| key in todo;
        if key in services {
          services := services - {key};
        }
        todo := todo - {key};
      }
    }

    method CleanUp()
      modifies this
      ensures services == CleanDependsOn(old(services))
    {
      var todo := services.Keys;
      while todo != {}
        invariant todo <= services.Keys == old(services).Keys
        invariant forall key :: key in services ==>
                    services[key] == if key in todo then old(services)[key] else CleanDependsOn(old(services))[key]
        decreases todo
      {
        var key :| key in todo;
        services := services[key := services[key].(
                      dependsOn := CleanDependencies(services[key].dependsOn, services.Keys + INHERITED))];
        todo := todo - {key};
      }
    }

    method BuildDockerCompose(modules: seq<Module>)
      modifies this
      ensures services == Build(old(services), modules)
    {
      for i := 0 to |modules|
        invariant MergeAll(services, modules[i..]) == MergeAll(old(services), modules)
      {
        assert modules[i..][0] == modules[i] && modules[i..][1..] == modules[i + 1..];
        ProcessModule(modules[i]);
      }
      ghost var merged := services;
      assert merged == MergeAll(old(services), modules);
      for i := 0 to |modules|
        invariant services == merged - Claimed(modules[..i])
      {
        assert Claimed(modules[..i + 1]) == Claimed(modules[..i])
               + (if modules[i].enabled then {} else modules[i].serviceKeys) by {
          ClaimedAppend(modules[..i], modules[i]);
          assert modules[..i + 1] == modules[..i] + [modules[i]];
        }
        if !modules[i].enabled {
          RemoveServices(modules[i].serviceKeys);
        }
      }
      assert modules[..|modules|] == modules;
      CleanUp();
    }
  }

  lemma ClaimedAppend(modules: seq<Module>, m: Module)
    ensures Claimed(modules + [m]) == Claimed(modules) + if m.enabled then {} else m.serviceKeys
  {
    var all := modules + [m];
    forall key | key in Claimed(modules) ensures key in Claimed(all) {
      var i :| 0 <= i < |modules| && !modules[i].enabled && key in modules[i].serviceKeys;
      assert all[i] == modules[i];
    }
    assert all[|modules|] == m;
  }
}
