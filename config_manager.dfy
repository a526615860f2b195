/** The configuration registry: configurators keyed by type id, the configured objects of each
    type keyed by name, deferred loading of persisted parameter sets, and lookup. */
module ConfigManager {
  import opened Wrappers
  import opened ConfigTypes
  import opened PairMaps
  import opened Strings
  import ConfigXml

  /** name -> (parameter key -> value), as loadAllParameters returns it. */
  type ParameterSets = map<string, map<string, Option<string>>>

  /** The user on whose behalf a lookup is made (a RepositoryAccessor). */
  datatype Accessor = Accessor(user: string)

  /** (key, declaration) for every declaration, in list order. */
  function KeyedTypes(types: seq<ParameterType>): seq<(string, ParameterType)>
  {
    seq(|types|, i requires 0 <= i < |types| => (types[i].key, types[i]))
  }

  /** parameterListToMap: key -> declaration, a later declaration of a key replacing an
      earlier one. */
  method ParameterListToMap(types: seq<ParameterType>) returns (result: map<string, ParameterType>)
    ensures result == MapOfPairs(KeyedTypes(types))
  {
    result := map[];
    for i := 0 to |types|
      invariant result == MapOfPairs(KeyedTypes(types[..i]))
    {
      assert KeyedTypes(types[..i + 1]) == KeyedTypes(types[..i]) + [(types[i].key, types[i])];
      MapOfPairsSnoc(KeyedTypes(types[..i]), (types[i].key, types[i]));
      result := result[types[i].key := types[i]];
    }
    assert types[..|types|] == types;
  }

  /** A key is declared exactly when some declaration carries it, and the last such one wins. */
  lemma ParameterListToMapLastWins(types: seq<ParameterType>, k: string, i: int)
    requires 0 <= i < |types| && types[i].key == k
    requires forall j :: i < j < |types| ==> types[j].key != k
    ensures k in MapOfPairs(KeyedTypes(types)) && MapOfPairs(KeyedTypes(types))[k] == types[i]
  {
    assert LastWith(KeyedTypes(types), k, i);
    MapOfPairsLastWins(KeyedTypes(types), k, i);
  }

  /** The parameter values handed to Configurator.create for one loaded entry. */
  function Translated(values: map<string, Option<string>>, types: map<string, ParameterType>): map<string, Option<string>>
  {
    map k | k in values :: if values[k].None? && k in types then types[k].defaultValue else values[k]
  }

  /** The inner loop of loadConfiguration: copies every value, putting a declared default in
      place of a null one. */
  method TranslateParameters(values: map<string, Option<string>>, types: map<string, ParameterType>)
    returns (translated: map<string, Option<string>>)
    ensures translated.Keys == values.Keys
    ensures forall k :: k in values && values[k].Some? ==> translated[k] == values[k]
    ensures forall k :: k in values && values[k].None? && k in types ==> translated[k] == types[k].defaultValue
    ensures forall k :: k in values && values[k].None? && k !in types ==> translated[k] == None
  {
    translated := map[];
    var rest := values.Keys;
    while rest != {}
      invariant rest <= values.Keys
      invariant translated.Keys == values.Keys - rest
      invariant forall k :: k in translated ==> translated[k] == Translated(values, types)[k]
      decreases |rest|
    {
      var paramKey :| paramKey in rest;
      var paramValue := values[paramKey];
      if paramValue.None? && paramKey in types {
        paramValue := types[paramKey].defaultValue;
      }
      translated := translated[paramKey := paramValue];
      rest := rest - {paramKey};
    }
  }

  /** What Configurator.create answers for the loaded entry n. */
  ghost function CreatedFrom(cfg: Configurator, params: ParameterSets, n: string): Result<Configurable, string>
    requires n in params
  {
    cfg.create(n, Translated(params[n], MapOfPairs(KeyedTypes(cfg.parameterTypes))))
  }

  /** One entry of loadConfiguration: the declarations by key, the values with defaults put
      in, and the configurator's create called with the entry's name. */
  method CreateEntry(cfg: Configurator, params: ParameterSets, name: string) returns (created: Result<Configurable, string>)
    requires name in params
    ensures created == CreatedFrom(cfg, params, name)
  {
    var types := ParameterListToMap(cfg.parameterTypes);
    var translated := TranslateParameters(params[name], types);
    assert translated == Translated(params[name], types);
    created := cfg.create(name, translated);
  }

  /** Entry n makes create return an object named k. */
  ghost predicate CreatesName(cfg: Configurator, params: ParameterSets, n: string, k: string)
  {
    n in params && CreatedFrom(cfg, params, n).Success? && CreatedFrom(cfg, params, n).value.name == k
  }

  /** The table of one type after the entries of order, taken in that order (the iteration
      order of the HashMap loadAllParameters returns), have been created and registered on top
      of before: a successful create files the object under the object's own name, replacing
      one of the same name; a failed create is skipped. */
  ghost function Registered(cfg: Configurator, params: ParameterSets, order: seq<string>,
                            before: map<string, Configurable>): map<string, Configurable>
    requires forall n :: n in order ==> n in params
    decreases |order|
  {
    if order == [] then before
    else
      var table := Registered(cfg, params, order[..|order| - 1], before);
      match CreatedFrom(cfg, params, order[|order| - 1])
      case Success(c) => table[c.name := c]
      case Failure(_) => table
  }

  /** order lists every element of keys exactly once. */
  ghost predicate IsOrderOf(order: seq<string>, keys: set<string>)
  {
    && (forall i, j :: 0 <= i < j < |order| ==> order[i] != order[j])
    && (forall n :: n in order <==> n in keys)
  }

  /** Every successful create among the entries of order returned an object carrying the
      entry's own name. */
  ghost predicate NamesKept(cfg: Configurator, params: ParameterSets, order: seq<string>)
  {
    forall n :: n in order && n in params && CreatedFrom(cfg, params, n).Success? ==>
      CreatedFrom(cfg, params, n).value.name == n
  }

  /** The names of the objects created from the entries of order. */
  ghost function CreatedNames(cfg: Configurator, params: ParameterSets, order: seq<string>): set<string>
  {
    set n | n in order && n in params && CreatedFrom(cfg, params, n).Success? :: CreatedFrom(cfg, params, n).value.name
  }

  /** The objects created from the entries of order, keyed by entry. */
  ghost function CreatedObjects(cfg: Configurator, params: ParameterSets, order: seq<string>): map<string, Configurable>
  {
    map n | n in order && n in params && CreatedFrom(cfg, params, n).Success? :: CreatedFrom(cfg, params, n).value
  }

  /** The effect of loading one type: nothing if its parameters could not be loaded, otherwise
      every entry created and registered, in the iteration order order. */
  ghost predicate TypeLoaded(cfg: Configurator, loaded: Result<ParameterSets, string>, order: seq<string>,
                             before: map<string, Configurable>, after: map<string, Configurable>)
  {
    if loaded.Failure? then after == before
    else IsOrderOf(order, loaded.value.Keys) && after == Registered(cfg, loaded.value, order, before)
  }

  /** Every object is filed under its own name. */
  ghost predicate FiledByName(table: map<string, Configurable>)
  {
    forall n :: n in table ==> table[n].name == n
  }

  class ConfigurationManager {
    var configurators: map<string, Configurator>
    var configurables: map<string, map<string, Configurable>>
    var initialized: bool

    /** The persistence boundary a concrete manager supplies; a Failure is a ConfigurationException. */
    const loadAllParameters: Configurator -> Result<ParameterSets, string>
    /** The access hook; the default implementation answers Pass for everyone. */
    const checkAccess: (string, string, Accessor) -> Outcome<string>

    ghost predicate Valid()
      reads this
    {
      && configurators.Keys == configurables.Keys
      && (forall t :: t in configurators ==> configurators[t].typeId == Some(t))
      && (forall t :: t in configurables ==> FiledByName(configurables[t]))
    }

    constructor (loadAllParameters: Configurator -> Result<ParameterSets, string>,
                 checkAccess: (string, string, Accessor) -> Outcome<string>)
      ensures Valid()
      ensures configurators == map[] && configurables == map[] && !initialized
      ensures this.loadAllParameters == loadAllParameters && this.checkAccess == checkAccess
    {
      configurators := map[];
      configurables := map[];
      initialized := false;
      this.loadAllParameters := loadAllParameters;
      this.checkAccess := checkAccess;
    }

    /** register: stores the configurator under its type id and gives that type a fresh, empty
        table of objects (objects registered before under the same id are discarded). */
    method Register(configurator: Option<Configurator>) returns (r: Outcome<ConfigError>)
      requires Valid()
      modifies this
      ensures Valid()
      ensures initialized == old(initialized)
      ensures configurator.None? ==> r == Fail(NullConfigurator)
      ensures configurator.Some? && configurator.value.typeId.None? ==> r == Fail(NullTypeId)
      ensures r.Fail? ==> configurators == old(configurators) && configurables == old(configurables)
      ensures configurator.Some? && configurator.value.typeId.Some? ==>
        var t := configurator.value.typeId.value;
        && r == Pass
        && configurators == old(configurators)[t := configurator.value]
        && configurables == old(configurables)[t := map[]]
        && GetConfigurator(t) == configurator
    {
      if configurator.None? {
        return Fail(NullConfigurator);
      }
      var typeId := configurator.value.typeId;
      if typeId.None? {
        return Fail(NullTypeId);
      }
      configurators := configurators[typeId.value := configurator.value];
      configurables := configurables[typeId.value := map[]];
      return Pass;
    }

    /** getConfigurator: the configurator registered under typeId, or null. */
    function GetConfigurator(typeId: string): (r: Option<Configurator>)
      reads this
      ensures r.Some? <==> typeId in configurators
      ensures r.Some? ==> r.value == configurators[typeId]
      ensures Valid() && r.Some? ==> r.value.typeId == Some(typeId) && typeId in configurables
    {
      if typeId in configurators then Some(configurators[typeId]) else None
    }

    /** getAllTypeIds: every registered type id once, in ascending order (TreeMap key order). */
    method GetAllTypeIds() returns (ids: seq<string>)
      ensures StrictlyAscending(ids)
      ensures forall t :: t in ids <==> t in configurators
      ensures |ids| == |configurators|
    {
      ids := SortedKeys(configurators.Keys);
    }

    /** lookup: the access hook first, then the type's table, then the name. */
    function Lookup(typeId: string, name: string, accessor: Accessor): (r: Result<Configurable, ConfigError>)
      requires Valid()
      reads this
      ensures checkAccess(typeId, name, accessor).Fail? ==>
        r == Failure(AccessDenied(checkAccess(typeId, name, accessor).error))
      ensures checkAccess(typeId, name, accessor).Pass? && typeId !in configurators ==>
        r == Failure(NoSuchType(typeId))
      ensures checkAccess(typeId, name, accessor).Pass? && typeId in configurators && name !in configurables[typeId] ==>
        r == Failure(NoSuchObject(name, configurators[typeId].name))
      ensures r.Success? <==>
        checkAccess(typeId, name, accessor).Pass? && typeId in configurables && name in configurables[typeId]
      ensures r.Success? ==> r.value == configurables[typeId][name] && r.value.name == name
    {
      match checkAccess(typeId, name, accessor)
      case Fail(reason) => Failure(AccessDenied(reason))
      case Pass =>
        if typeId !in configurables then Failure(NoSuchType(typeId))
        else if name !in configurables[typeId] then Failure(NoSuchObject(name, configurators[typeId].name))
        else Success(configurables[typeId][name])
    }

    /** registerConfigurable: files the object under its own name in its type's table,
        replacing an object of the same name; other types are untouched. */
    method RegisterConfigurable(typeId: string, configurable: Configurable) returns (r: Outcome<ConfigError>)
      requires Valid()
      modifies this`configurables
      ensures Valid()
      ensures typeId !in old(configurables) ==> r == Fail(NoSuchType(typeId)) && configurables == old(configurables)
      ensures typeId in old(configurables) ==>
        r == Pass && configurables == old(configurables)[typeId := old(configurables)[typeId][configurable.name := configurable]]
    {
      if typeId !in configurables {
        return Fail(NoSuchType(typeId));
      }
      configurables := configurables[typeId := configurables[typeId][configurable.name := configurable]];
      return Pass;
    }

    /** initialize: loads the persisted configuration the first time only. */
    method Initialize() returns (ghost orders: map<string, seq<string>>)
      requires Valid()
      modifies this
      ensures Valid()
      ensures initialized
      ensures configurators == old(configurators)
      ensures old(initialized) ==> configurables == old(configurables)
      ensures !old(initialized) ==> configurables.Keys == old(configurables).Keys
      ensures !old(initialized) ==> forall t :: t in configurators ==>
        t in orders && TypeLoaded(configurators[t], loadAllParameters(configurators[t]), orders[t], old(configurables)[t], configurables[t])
    {
      if initialized {
        return map[];
      }
      orders := LoadConfiguration();
      initialized := true;
    }

    /** loadConfiguration: for each type in id order, load its parameter sets (a failure skips
        the type), and create and register one object per entry (a failure skips the entry). */
    method LoadConfiguration() returns (ghost orders: map<string, seq<string>>)
      requires Valid()
      modifies this`configurables
      ensures Valid()
      ensures configurables.Keys == old(configurables).Keys
      ensures forall t :: t in configurators ==>
        t in orders && TypeLoaded(configurators[t], loadAllParameters(configurators[t]), orders[t], old(configurables)[t], configurables[t])
    {
      var typeIds := SortedKeys(configurators.Keys);
      orders := map[];
      var i := 0;
      while i < |typeIds|
        invariant 0 <= i <= |typeIds|
        invariant Valid()
        invariant configurables.Keys == old(configurables).Keys
        invariant forall t :: t in configurators && t !in typeIds[..i] ==> configurables[t] == old(configurables)[t]
        invariant TypesLoaded(configurators, loadAllParameters, orders, old(configurables), configurables, typeIds[..i])
      {
        orders := LoadTypeAt(typeIds, i, old(configurables), orders);
        i := i + 1;
      }
      TypesLoadedAll(configurators, loadAllParameters, orders, old(configurables), configurables, typeIds);
    }

    /** One pass of loadConfiguration's outer loop, over the type id at index i of the
        ascending list typeIds, keeps the loop's invariant (start is the table before the loop). */
    method LoadTypeAt(typeIds: seq<string>, i: int, ghost start: map<string, map<string, Configurable>>,
                      ghost orders: map<string, seq<string>>) returns (ghost orders': map<string, seq<string>>)
      requires Valid() && StrictlyAscending(typeIds) && 0 <= i < |typeIds| && typeIds[i] in configurators
      requires configurables.Keys == start.Keys
      requires forall t :: t in configurators && t !in typeIds[..i] ==> configurables[t] == start[t]
      requires TypesLoaded(configurators, loadAllParameters, orders, start, configurables, typeIds[..i])
      modifies this`configurables
      ensures Valid()
      ensures configurables.Keys == start.Keys
      ensures forall t :: t in configurators && t !in typeIds[..i + 1] ==> configurables[t] == start[t]
      ensures TypesLoaded(configurators, loadAllParameters, orders', start, configurables, typeIds[..i + 1])
    {
      var t := typeIds[i];
      AscendingFresh(typeIds, i);
      ghost var prev := configurables;
      var order := LoadType(t);
      orders' := orders[t := order];
      TypesUntouchedStep(configurators, start, prev, configurables, typeIds, i);
      TypesLoadedStep(configurators, loadAllParameters, orders, order, start, prev, configurables, typeIds, i);
    }

    /** Loading the parameter sets of one type and creating its objects. */
    method LoadType(t: string) returns (ghost order: seq<string>)
      requires Valid() && t in configurators
      modifies this`configurables
      ensures Valid()
      ensures configurables.Keys == old(configurables).Keys
      ensures forall u :: u in configurables && u != t ==> configurables[u] == old(configurables)[u]
      ensures TypeLoaded(configurators[t], loadAllParameters(configurators[t]), order, old(configurables)[t], configurables[t])
    {
      var configurator := configurators[t];
      var loaded := loadAllParameters(configurator);
      if loaded.Failure? {
        return [];
      }
      order := LoadEntries(t, configurator, loaded.value);
    }

    /** The inner loop of loadConfiguration: every entry of parameters, each once, in some order,
        is created and, when create succeeds, registered under type t. */
    method LoadEntries(t: string, configurator: Configurator, parameters: ParameterSets) returns (ghost order: seq<string>)
      requires Valid() && t in configurables
      modifies this`configurables
      ensures Valid()
      ensures configurables.Keys == old(configurables).Keys
      ensures forall u :: u in configurables && u != t ==> configurables[u] == old(configurables)[u]
      ensures IsOrderOf(order, parameters.Keys)
      ensures configurables[t] == Registered(configurator, parameters, order, old(configurables)[t])
    {
      ghost var before := configurables[t];
      var rest := parameters.Keys;
      order := [];
      while rest != {}
        invariant Valid()
        invariant rest <= parameters.Keys
        invariant forall n :: n in order <==> n in parameters && n !in rest
        invariant forall i, j :: 0 <= i < j < |order| ==> order[i] != order[j]
        invariant configurables.Keys == old(configurables).Keys
        invariant forall u :: u in configurables && u != t ==> configurables[u] == old(configurables)[u]
        invariant configurables[t] == Registered(configurator, parameters, order, before)
        decreases |rest|
      {
        var name :| name in rest;
        LoadEntry(t, configurator, parameters, name);
        RegisteredSnoc(configurator, parameters, order, before, name);
        OrderStep(order, rest, parameters.Keys, name);
        order := order + [name];
        rest := rest - {name};
      }
    }

    /** One pass of loadConfiguration's inner loop: create the object of entry name and, when
        create succeeds, register it. */
    method LoadEntry(t: string, configurator: Configurator, parameters: ParameterSets, name: string)
      requires Valid() && t in configurables && name in parameters
      modifies this`configurables
      ensures Valid()
      ensures configurables.Keys == old(configurables).Keys
      ensures forall u :: u in configurables && u != t ==> configurables[u] == old(configurables)[u]
      ensures configurables[t] == Registered(configurator, parameters, [name], old(configurables)[t])
    {
      var created := CreateEntry(configurator, parameters, name);
      if created.Success? {
        var ok := RegisterConfigurable(t, created.value);
      }
    }

    /** create: a new object of the given type built from empty parameters and registered. */
    method Create(typeId: string, name: string) returns (r: Result<Configurable, ConfigError>)
      requires Valid()
      modifies this`configurables
      ensures Valid()
      ensures typeId !in configurators ==> r == Failure(UnknownType(typeId))
      ensures typeId in configurators && configurators[typeId].create(name, map[]).Failure? ==>
        r == Failure(CreateFailed(configurators[typeId].create(name, map[]).error))
      ensures r.Failure? ==> configurables == old(configurables)
      ensures r.Success? ==>
        && typeId in configurators
        && configurators[typeId].create(name, map[]) == Success(r.value)
        && configurables == old(configurables)[typeId := old(configurables)[typeId][r.value.name := r.value]]
      ensures r.Success? ==> forall a :: checkAccess(typeId, r.value.name, a).Pass? ==>
        Lookup(typeId, r.value.name, a) == Success(r.value)
    {
      if typeId !in configurators {
        return Failure(UnknownType(typeId));
      }
      var configurator := configurators[typeId];
      var created := configurator.create(name, map[]);
      if created.Failure? {
        return Failure(CreateFailed(created.error));
      }
      var ok := RegisterConfigurable(typeId, created.value);
      return Success(created.value);
    }

    /** getConfigurablesAsXML(configurator); an unregistered type is a NullPointerException,
        here NoSuchType. */
    method GetConfigurablesAsXml(typeId: string) returns (r: Result<ConfigXml.Document, ConfigError>)
      requires Valid()
      ensures typeId !in configurables ==> r == Failure(NoSuchType(typeId))
      ensures typeId in configurables ==>
        (r.Failure? <==> !ConfigXml.AllWritable(typeId, configurables[typeId]))
      ensures r.Success? ==>
        && typeId in configurables
        && ConfigXml.Configurations(r.value, typeId)
             == Success(map n | n in configurables[typeId] :: ConfigXml.StringValues(configurables[typeId][n].parameters))
    {
      if typeId !in configurables {
        return Failure(NoSuchType(typeId));
      }
      r := ConfigXml.ConfigurablesAsXml(typeId, configurables[typeId]);
      if r.Success? {
        ghost var names :| StrictlyAscending(names) && ConfigXml.DocumentOf(r.value, typeId, configurables[typeId], names);
        ConfigXml.XmlRoundTrip(r.value, typeId, configurables[typeId], names);
      }
    }
  }

  /** TypeLoaded holds for every type of ids, with the iteration order recorded in orders. */
  ghost predicate TypesLoaded(cfgs: map<string, Configurator>, loadAll: Configurator -> Result<ParameterSets, string>,
                              orders: map<string, seq<string>>, start: map<string, map<string, Configurable>>,
                              cur: map<string, map<string, Configurable>>, ids: seq<string>)
  {
    if ids == [] then true
    else
      var u := ids[|ids| - 1];
      && TypesLoaded(cfgs, loadAll, orders, start, cur, ids[..|ids| - 1])
      && u in cfgs && u in orders && u in start && u in cur
      && TypeLoaded(cfgs[u], loadAll(cfgs[u]), orders[u], start[u], cur[u])
  }

  /** Loading another type leaves what was loaded for the types of ids in place. */
  lemma {:induction false} TypesLoadedKept(cfgs: map<string, Configurator>, loadAll: Configurator -> Result<ParameterSets, string>,
                                           orders: map<string, seq<string>>, orders': map<string, seq<string>>,
                                           start: map<string, map<string, Configurable>>, prev: map<string, map<string, Configurable>>,
                                           cur: map<string, map<string, Configurable>>, ids: seq<string>, t: string)
    requires t !in ids
    requires TypesLoaded(cfgs, loadAll, orders, start, prev, ids)
    requires forall u :: u in orders && u != t ==> u in orders' && orders'[u] == orders[u]
    requires forall u :: u in prev && u != t ==> u in cur && cur[u] == prev[u]
    ensures TypesLoaded(cfgs, loadAll, orders', start, cur, ids)
  {
    if ids != [] {
      TypesLoadedKept(cfgs, loadAll, orders, orders', start, prev, cur, ids[..|ids| - 1], t);
    }
  }

  /** Loading the type at index i of a list touches no type that comes later in the list. */
  lemma TypesUntouchedStep(cfgs: map<string, Configurator>, start: map<string, map<string, Configurable>>,
                           prev: map<string, map<string, Configurable>>, cur: map<string, map<string, Configurable>>,
                           ids: seq<string>, i: int)
    requires 0 <= i < |ids|
    requires cfgs.Keys == start.Keys && prev.Keys == start.Keys && cur.Keys == start.Keys
    requires forall t :: t in cfgs && t !in ids[..i] ==> prev[t] == start[t]
    requires forall u :: u in cur && u != ids[i] ==> cur[u] == prev[u]
    ensures forall t :: t in cfgs && t !in ids[..i + 1] ==> cur[t] == start[t]
  {
    assert ids[..i + 1] == ids[..i] + [ids[i]];
  }

  /** Loading the type at index i of ids, which does not occur before it, adds it to the
      types loaded. */
  lemma TypesLoadedStep(cfgs: map<string, Configurator>, loadAll: Configurator -> Result<ParameterSets, string>,
                        orders: map<string, seq<string>>, order: seq<string>,
                        start: map<string, map<string, Configurable>>, prev: map<string, map<string, Configurable>>,
                        cur: map<string, map<string, Configurable>>, ids: seq<string>, i: int)
    requires 0 <= i < |ids| && ids[i] !in ids[..i]
    requires ids[i] in cfgs && ids[i] in start && ids[i] in prev && ids[i] in cur && prev[ids[i]] == start[ids[i]]
    requires TypesLoaded(cfgs, loadAll, orders, start, prev, ids[..i])
    requires forall u :: u in prev && u != ids[i] ==> u in cur && cur[u] == prev[u]
    requires TypeLoaded(cfgs[ids[i]], loadAll(cfgs[ids[i]]), order, prev[ids[i]], cur[ids[i]])
    ensures TypesLoaded(cfgs, loadAll, orders[ids[i] := order], start, cur, ids[..i + 1])
  {
    TypesLoadedKept(cfgs, loadAll, orders, orders[ids[i] := order], start, prev, cur, ids[..i], ids[i]);
    assert ids[..i + 1][..i] == ids[..i];
  }

  /** The type at index i of an ascending list does not occur before it. */
  lemma AscendingFresh(ids: seq<string>, i: int)
    requires StrictlyAscending(ids) && 0 <= i < |ids|
    ensures ids[i] !in ids[..i]
  {
    LexLessIrreflexive(ids[i]);
  }

  /** What TypesLoaded means for each type of ids. */
  lemma {:induction false} TypesLoadedEach(cfgs: map<string, Configurator>, loadAll: Configurator -> Result<ParameterSets, string>,
                                           orders: map<string, seq<string>>, start: map<string, map<string, Configurable>>,
                                           cur: map<string, map<string, Configurable>>, ids: seq<string>)
    requires TypesLoaded(cfgs, loadAll, orders, start, cur, ids)
    ensures forall u :: u in ids ==>
      u in cfgs && u in orders && u in start && u in cur && TypeLoaded(cfgs[u], loadAll(cfgs[u]), orders[u], start[u], cur[u])
  {
    if ids != [] {
      TypesLoadedEach(cfgs, loadAll, orders, start, cur, ids[..|ids| - 1]);
      assert ids == ids[..|ids| - 1] + [ids[|ids| - 1]];
    }
  }

  /** The same, for every type once ids lists them all. */
  lemma TypesLoadedAll(cfgs: map<string, Configurator>, loadAll: Configurator -> Result<ParameterSets, string>,
                       orders: map<string, seq<string>>, start: map<string, map<string, Configurable>>,
                       cur: map<string, map<string, Configurable>>, ids: seq<string>)
    requires TypesLoaded(cfgs, loadAll, orders, start, cur, ids[..|ids|])
    requires forall u :: u in cfgs ==> u in ids
    ensures forall u :: u in cfgs ==>
      u in orders && u in start && u in cur && TypeLoaded(cfgs[u], loadAll(cfgs[u]), orders[u], start[u], cur[u])
  {
    assert ids[..|ids|] == ids;
    TypesLoadedEach(cfgs, loadAll, orders, start, cur, ids);
  }

  /** Registering one more entry. */
  lemma RegisteredSnoc(cfg: Configurator, params: ParameterSets, order: seq<string>,
                       before: map<string, Configurable>, n: string)
    requires forall m :: m in order ==> m in params
    requires n in params
    ensures Registered(cfg, params, order + [n], before)
         == Registered(cfg, params, [n], Registered(cfg, params, order, before))
  {
    assert (order + [n])[..|order|] == order;
  }

  /** Moving n from the entries still to visit to the end of the iteration order. */
  lemma OrderStep(order: seq<string>, rest: set<string>, keys: set<string>, n: string)
    requires n in rest && rest <= keys
    requires forall m :: m in order <==> m in keys && m !in rest
    requires forall i, j :: 0 <= i < j < |order| ==> order[i] != order[j]
    ensures rest - {n} <= keys
    ensures forall m :: m in order + [n] <==> m in keys && m !in rest - {n}
    ensures forall i, j :: 0 <= i < j < |order + [n]| ==> (order + [n])[i] != (order + [n])[j]
  {
  }

  /** A name is in the table exactly when it was there before or some entry created an object
      of that name. */
  lemma {:induction false} RegisteredKeys(cfg: Configurator, params: ParameterSets, order: seq<string>,
                                          before: map<string, Configurable>)
    requires forall n :: n in order ==> n in params
    ensures Registered(cfg, params, order, before).Keys == before.Keys + CreatedNames(cfg, params, order)
  {
    if order != [] {
      var init := order[..|order| - 1];
      var last := order[|order| - 1];
      RegisteredKeys(cfg, params, init, before);
      assert order == init + [last];
      if CreatedFrom(cfg, params, last).Success? {
        assert CreatedNames(cfg, params, order)
            == CreatedNames(cfg, params, init) + {CreatedFrom(cfg, params, last).value.name};
      } else {
        assert CreatedNames(cfg, params, order) == CreatedNames(cfg, params, init);
      }
    }
  }

  /** A name no entry creates keeps what it had before. */
  lemma {:induction false} RegisteredUntouched(cfg: Configurator, params: ParameterSets, order: seq<string>,
                                               before: map<string, Configurable>, k: string)
    requires forall n :: n in order ==> n in params
    requires forall n :: n in order ==> !CreatesName(cfg, params, n, k)
    ensures k in Registered(cfg, params, order, before) <==> k in before
    ensures k in before ==> Registered(cfg, params, order, before)[k] == before[k]
  {
    if order != [] {
      RegisteredUntouched(cfg, params, order[..|order| - 1], before, k);
    }
  }

  /** The object filed under a name is the one created by the last entry, in the iteration
      order, whose create returned an object of that name. */
  lemma {:induction false} RegisteredLastWins(cfg: Configurator, params: ParameterSets, order: seq<string>,
                                              before: map<string, Configurable>, k: string, i: int)
    requires forall n :: n in order ==> n in params
    requires 0 <= i < |order| && CreatesName(cfg, params, order[i], k)
    requires forall j :: i < j < |order| ==> !CreatesName(cfg, params, order[j], k)
    ensures k in Registered(cfg, params, order, before)
    ensures Registered(cfg, params, order, before)[k] == CreatedFrom(cfg, params, order[i]).value
  {
    if i < |order| - 1 {
      var init := order[..|order| - 1];
      assert init[i] == order[i];
      RegisteredLastWins(cfg, params, init, before, k, i);
    }
  }

  /** When every object carries its entry's name the iteration order does not matter: the
      table is before overridden by the objects created. */
  lemma {:induction false} RegisteredNamesKept(cfg: Configurator, params: ParameterSets, order: seq<string>,
                                               before: map<string, Configurable>)
    requires forall n :: n in order ==> n in params
    requires NamesKept(cfg, params, order)
    ensures Registered(cfg, params, order, before) == before + CreatedObjects(cfg, params, order)
  {
    if order != [] {
      var init := order[..|order| - 1];
      var last := order[|order| - 1];
      assert order == init + [last];
      assert NamesKept(cfg, params, init);
      RegisteredNamesKept(cfg, params, init, before);
      var created := CreatedFrom(cfg, params, last);
      if created.Success? {
        assert CreatedObjects(cfg, params, order) == CreatedObjects(cfg, params, init)[last := created.value];
        OverrideThenUpdate(before, CreatedObjects(cfg, params, init), last, created.value);
      } else {
        assert CreatedObjects(cfg, params, order) == CreatedObjects(cfg, params, init);
      }
    }
  }

  lemma OverrideThenUpdate<K, V>(b: map<K, V>, c: map<K, V>, k: K, v: V)
    ensures (b + c)[k := v] == b + c[k := v]
  {
  }
}
