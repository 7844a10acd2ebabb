/** The injector: it rewrites an identifier through its aliases, answers from its cache, and
    otherwise asks the first resolver of its chain that can build the identifier, caching what that
    resolver builds. Types are built by an `ObjectFactory`, which asks the same injector for every
    constructor parameter. */
module Injection {
  import opened Failures
  import opened Constants
  import opened Inflect
  import opened TypeLookup
  import opened Resolvers

  /** A value stored in the configuration hash. Only the `:aliases` entry is ever read, as
      `aliases[identifier]`: a hash looks the identifier up, a string answers with a substring
      equal to the identifier or `nil`, and `nil` raises. */
  datatype Setting = Table(entries: map<string, string>) | Text(text: string) | Nil

  type Configuration = map<string, Setting>

  const AliasesKey: string := "aliases"

  /** `{ aliases: {} }`, the configuration an injector starts with. */
  const DefaultConfiguration: Configuration := map[AliasesKey := Table(map[])]

  /** `configuration.merge!(settings)`: a shallow merge in which the settings win. */
  function Merge(configuration: Configuration, settings: Configuration): (r: Configuration)
    ensures r.Keys == configuration.Keys + settings.Keys
    ensures forall k :: k in settings ==> r[k] == settings[k]
    ensures forall k :: k in configuration && k !in settings ==> r[k] == configuration[k]
  {
    configuration + settings
  }

  /** `configuration[:aliases]`; `nil` when the key is absent. */
  function AliasesOf(configuration: Configuration): Setting {
    if AliasesKey in configuration then configuration[AliasesKey] else Nil
  }

  /** `aliases[identifier] || identifier`. */
  function Rewrite(aliases: Setting, identifier: string): Result<string> {
    match aliases
    case Table(entries) => Ok(if identifier in entries then entries[identifier] else identifier)
    case Text(_) => Ok(identifier)
    case Nil => Err(NoMethodOnNil("[]"))
  }

  /** The alias map is applied once: an alias whose target is itself an alias is not followed. */
  lemma RewriteDoesNotChain(entries: map<string, string>, identifier: string)
    requires identifier in entries && entries[identifier] in entries
    ensures Rewrite(Table(entries), identifier) == Ok(entries[identifier])
  {
  }

  /** An identifier with no alias is its own key. */
  lemma RewriteUnaliased(aliases: Setting, identifier: string)
    requires !aliases.Nil? && !(aliases.Table? && identifier in aliases.entries)
    ensures Rewrite(aliases, identifier) == Ok(identifier)
  {
  }

  /** The default configuration rewrites nothing. */
  lemma DefaultRewritesNothing(identifier: string)
    ensures Rewrite(AliasesOf(DefaultConfiguration), identifier) == Ok(identifier)
  {
  }

  /** `configure(aliases: m)` replaces the whole alias map with `m`: entries of the old one that
      `m` lacks are gone. */
  lemma ConfigureReplacesAliases(configuration: Configuration, m: map<string, string>, identifier: string)
    ensures AliasesOf(Merge(configuration, map[AliasesKey := Table(m)])) == Table(m)
    ensures identifier !in m ==>
              Rewrite(AliasesOf(Merge(configuration, map[AliasesKey := Table(m)])), identifier) == Ok(identifier)
  {
  }

  /** Settings without `:aliases` leave the aliases as they were. */
  lemma ConfigureKeepsAliases(configuration: Configuration, settings: Configuration)
    requires AliasesKey !in settings
    ensures AliasesOf(Merge(configuration, settings)) == AliasesOf(configuration)
  {
  }

  /** `r` is the outcome `failure` predicts: a value when it is `None`, otherwise the error it
      names. */
  predicate RaisesAs<T>(r: Result<T>, failure: Option<Error>) {
    if r.Ok? then failure.None? else failure == Some(r.error)
  }

  /** `newer` keeps every entry of `older`. */
  ghost predicate Extends<K, V>(older: map<K, V>, newer: map<K, V>) {
    forall k :: k in older ==> k in newer && newer[k] == older[k]
  }

  /** Every key of `newer` that `older` lacks is one of `allowed`. */
  ghost predicate AddedWithin<V>(older: map<string, V>, newer: map<string, V>, allowed: set<string>) {
    forall k :: k in newer && k !in older ==> k in allowed
  }

  /** Argument `j` is the cached object of the key parameter `j`'s name rewrites to. */
  ghost predicate Fetched(cache: map<string, Instance>, aliases: Setting, params: seq<Param>,
                          keys: seq<string>, args: seq<Instance>) {
    |keys| == |params| && |args| == |params| &&
    forall j :: 0 <= j < |params| ==>
      Rewrite(aliases, params[j].name) == Ok(keys[j]) && keys[j] in cache && cache[keys[j]] == args[j]
  }

  lemma FetchedExtend(cache: map<string, Instance>, aliases: Setting, params: seq<Param>, i: nat,
                      keys: seq<string>, args: seq<Instance>, key: string, arg: Instance)
    requires i < |params| && Fetched(cache, aliases, params[..i], keys, args)
    requires Rewrite(aliases, params[i].name) == Ok(key) && key in cache && cache[key] == arg
    ensures Fetched(cache, aliases, params[..i + 1], keys + [key], args + [arg])
  {
    assert forall j :: 0 <= j < i ==> params[..i + 1][j] == params[..i][j];
  }

  lemma FetchedGrow(older: map<string, Instance>, newer: map<string, Instance>, aliases: Setting,
                    params: seq<Param>, keys: seq<string>, args: seq<Instance>)
    requires Fetched(older, aliases, params, keys, args) && Extends(older, newer)
    ensures Fetched(newer, aliases, params, keys, args)
  {
  }

  class Injector {
    /** The constant table of the program the injector runs in. */
    const reg: Registry
    /** `@resolvers`. */
    const resolvers: seq<Resolver>
    /** `@configuration`. */
    var configuration: Configuration
    /** `@cache`, keyed by identifiers after alias rewriting. */
    var cache: map<string, Instance>
    /** For each object an `ObjectFactory` built for this injector, the cache keys its constructor
        arguments were fetched under. */
    ghost var argKeys: map<Instance, seq<string>>

    /** `Injector.new`, with `@resolvers` and `@configuration` at their lazily assigned values. */
    constructor (reg: Registry)
      ensures this.reg == reg && resolvers == [InlineType]
      ensures configuration == DefaultConfiguration && cache == map[] && argKeys == map[]
      ensures Valid()
    {
      this.reg := reg;
      resolvers := [InlineType];
      configuration := DefaultConfiguration;
      cache := map[];
      argKeys := map[];
    }

    function Aliases(): Setting
      reads this`configuration
    {
      AliasesOf(configuration)
    }

    /** The type the chain constructs for a rewritten identifier, if the resolver it picks is a
        type-finding one. */
    ghost function KeyTarget(key: string): Option<Path> {
      match FindResolver(reg, resolvers, key)
      case Ok(Some(res)) => TypeTarget(reg, res, key)
      case _ => None
    }

    /** Every constructed object's arguments are the cached objects of its keys. */
    ghost predicate Coherent()
      reads this
    {
      forall v :: v in argKeys ==>
        |v.args| == |argKeys[v]| &&
        forall i :: 0 <= i < |v.args| ==> argKeys[v][i] in cache && cache[argKeys[v][i]] == v.args[i]
    }

    /** A cached key whose resolver constructs a type holds an object of that type built here. */
    ghost predicate CacheTyped()
      reads this
    {
      forall k :: k in cache && KeyTarget(k).Some? ==>
        cache[k] in argKeys && cache[k].typePath == KeyTarget(k).value
    }

    ghost predicate Valid()
      reads this
    {
      Coherent() && CacheTyped()
    }

    /** Between two states of the cache and of the record of built objects: no entry of either is
        replaced or removed, every new cache key's dependency height is at most `bound`, and every
        newly built object fetched its arguments under `aliases`. */
    ghost predicate GrewWithin(c0: map<string, Instance>, c1: map<string, Instance>,
                               a0: map<Instance, seq<string>>, a1: map<Instance, seq<string>>,
                               aliases: Setting, rank: Path -> nat, bound: int) {
      Extends(c0, c1) && Extends(a0, a1) &&
      (forall k :: k in c1 && k !in c0 ==> KeyHeight(k, rank) <= bound) &&
      (forall v :: v in a1 && v !in a0 ==> KeyedBy(a1, aliases, v))
    }

    /** Growth composes. */
    lemma GrewTrans(c0: map<string, Instance>, c1: map<string, Instance>, c2: map<string, Instance>,
                    a0: map<Instance, seq<string>>, a1: map<Instance, seq<string>>, a2: map<Instance, seq<string>>,
                    aliases: Setting, rank: Path -> nat, bound: int, inner: int)
      requires GrewWithin(c0, c1, a0, a1, aliases, rank, bound)
      requires GrewWithin(c1, c2, a1, a2, aliases, rank, inner) && inner <= bound
      ensures GrewWithin(c0, c2, a0, a2, aliases, rank, bound)
    {
      forall v | v in a2 && v !in a0
        ensures KeyedBy(a2, aliases, v)
      {
        if v in a1 {
          assert a2[v] == a1[v];
        }
      }
    }

    /** `v`'s arguments were fetched under the keys `aliases` gives its type's constructor
        parameters. */
    ghost predicate KeyedBy(a: map<Instance, seq<string>>, aliases: Setting, v: Instance)
      requires v in a
    {
      var params := ParamsOf(reg, v.typePath);
      |a[v]| == |params| &&
      forall j :: 0 <= j < |params| ==> Rewrite(aliases, params[j].name) == Ok(a[v][j])
    }

    /** What one call may do to the injector: the configuration is untouched and the cache and the
        record of built objects grew within `bound`. */
    twostate predicate Grown(rank: Path -> nat, bound: int)
      reads this
    {
      configuration == old(configuration) &&
      GrewWithin(old(cache), cache, old(argKeys), argKeys, Aliases(), rank, bound)
    }

    /** Dependency height of a resolver's build: one more than the rank of the type it constructs. */
    ghost function BuildDepth(res: Resolver, key: string, rank: Path -> nat): nat {
      match TypeTarget(reg, res, key)
      case Some(p) => rank(p) + 1
      case None => 0
    }

    ghost function KeyHeight(key: string, rank: Path -> nat): nat {
      match KeyTarget(key)
      case Some(p) => rank(p) + 1
      case None => 0
    }

    ghost function Height(identifier: string, rank: Path -> nat): nat
      reads this`configuration
    {
      match Rewrite(Aliases(), identifier)
      case Ok(key) => KeyHeight(key, rank)
      case Err(_) => 0
    }

    /** `rank` decreases along every constructor parameter: the type each parameter resolves to
        ranks below the type that declares it. */
    ghost predicate Acyclic(rank: Path -> nat)
      reads this`configuration
    {
      forall p: Path, j :: 0 <= j < |ParamsOf(reg, p)| ==> Height(ParamsOf(reg, p)[j].name, rank) <= rank(p)
    }

    /** The error `get(identifier)` raises when nothing it needs is cached yet, or `None` when it
        returns an object: the rewrite, the choice of resolver and the resolver's build, where a
        type's build fails with the first constructor parameter whose `get` fails. */
    ghost function Failure(identifier: string, rank: Path -> nat): Option<Error>
      reads this`configuration
      requires Acyclic(rank)
      decreases Height(identifier, rank), 4, 0
    {
      match Rewrite(Aliases(), identifier)
      case Err(e) => Some(e)
      case Ok(key) => KeyFailure(key, rank)
    }

    /** `cache_fetch`'s block for a rewritten key: `UnknownServiceError` when no resolver can build
        it. */
    ghost function KeyFailure(key: string, rank: Path -> nat): Option<Error>
      reads this`configuration
      requires Acyclic(rank)
      decreases KeyHeight(key, rank), 3, 0
    {
      match FindResolver(reg, resolvers, key)
      case Err(e) => Some(e)
      case Ok(None) => Some(UnknownService(key))
      case Ok(Some(res)) => BuildFailure(res, key, rank)
    }

    /** `resolver.build(key)`. */
    ghost function BuildFailure(res: Resolver, key: string, rank: Path -> nat): Option<Error>
      reads this`configuration
      requires Acyclic(rank)
      decreases BuildDepth(res, key, rank), 2, 0
    {
      match res
      case Values(values) => if key in values then None else Some(KeyError(key))
      case Procs(factories) => if key in factories then None else Some(KeyError(key))
      case _ =>
        match ResolveType(reg, res, key)
        case Err(e) => Some(e)
        case Ok(p) => ConstructFailure(p, rank)
    }

    /** `ObjectFactory#build(type)` for the constant at `p`. */
    ghost function ConstructFailure(p: Path, rank: Path -> nat): Option<Error>
      reads this`configuration
      requires Acyclic(rank)
      decreases rank(p) + 1, 1, 0
    {
      if !IsClass(reg, p) then Some(NotAClass(p)) else ParamsFailure(ParamsOf(reg, p), rank(p), rank)
    }

    /** `resolve_dependencies`: the failure of the first parameter whose `get` fails. */
    ghost function ParamsFailure(params: seq<Param>, bound: nat, rank: Path -> nat): Option<Error>
      reads this`configuration
      requires Acyclic(rank)
      requires forall j :: 0 <= j < |params| ==> Height(params[j].name, rank) <= bound
      decreases bound + 1, 0, |params|
    {
      if params == [] then None
      else match Failure(params[0].name, rank)
        case Some(e) => Some(e)
        case None => ParamsFailure(params[1..], bound, rank)
    }

    /** The keys a `get(identifier)` may cache: those of the key the identifier rewrites to. */
    ghost function NameReach(identifier: string, rank: Path -> nat): set<string>
      reads this`configuration
      requires Acyclic(rank)
      decreases Height(identifier, rank), 3, 0
    {
      match Rewrite(Aliases(), identifier)
      case Ok(key) => Reach(key, rank)
      case Err(_) => {}
    }

    /** The keys a `get` of `key` may cache: the key itself and, when its resolver constructs a
        type, the keys of that type's constructor parameters, and theirs in turn. */
    ghost function Reach(key: string, rank: Path -> nat): set<string>
      reads this`configuration
      requires Acyclic(rank)
      decreases KeyHeight(key, rank), 2, 0
    {
      {key} + match KeyTarget(key)
              case Some(p) => ConstructReach(p, rank)
              case None => {}
    }

    /** The keys an `ObjectFactory#build` of the constant at `p` may cache. */
    ghost function ConstructReach(p: Path, rank: Path -> nat): set<string>
      reads this`configuration
      requires Acyclic(rank)
      decreases rank(p) + 1, 1, 0
    {
      ParamsReach(ParamsOf(reg, p), rank(p), rank)
    }

    /** The keys `resolve_dependencies` of `params` may cache: those each parameter's `get` may. */
    ghost function ParamsReach(params: seq<Param>, bound: nat, rank: Path -> nat): set<string>
      reads this`configuration
      requires Acyclic(rank)
      requires forall j :: 0 <= j < |params| ==> Height(params[j].name, rank) <= bound
      decreases bound + 1, 0, |params|
    {
      if params == [] then {}
      else NameReach(params[0].name, rank) + ParamsReach(params[1..], bound, rank)
    }

    /** What any one parameter's `get` may cache is within what the whole list may. */
    lemma {:induction false} ParamsReachCovers(params: seq<Param>, bound: nat, rank: Path -> nat, i: nat)
      requires Acyclic(rank)
      requires forall j :: 0 <= j < |params| ==> Height(params[j].name, rank) <= bound
      requires i < |params|
      ensures NameReach(params[i].name, rank) <= ParamsReach(params, bound, rank)
      decreases i
    {
      if i > 0 {
        assert params[1..][i - 1] == params[i];
        ParamsReachCovers(params[1..], bound, rank, i - 1);
      }
    }

    /** `get(identifier)` returns an object whatever the cache holds. */
    ghost predicate Ready(identifier: string, rank: Path -> nat)
      reads this`configuration
      requires Acyclic(rank)
    {
      Failure(identifier, rank).None?
    }

    /** Every cached key is one that `get` builds without failing: what a fresh `get` would answer
        is what the cache answers. Keys are only cached after a successful build, so `get` keeps
        this; `configure` can break it by changing the aliases the cached objects were built under. */
    ghost predicate CacheSound(rank: Path -> nat)
      reads this`cache, this`configuration
      requires Acyclic(rank)
    {
      forall k {:trigger KeyFailure(k, rank)} :: k in cache ==> KeyFailure(k, rank).None?
    }

    /** `resolve_dependencies` succeeds exactly when every parameter's `get` does. */
    lemma {:induction false} ParamsFailureNone(params: seq<Param>, bound: nat, rank: Path -> nat)
      requires Acyclic(rank)
      requires forall j :: 0 <= j < |params| ==> Height(params[j].name, rank) <= bound
      ensures ParamsFailure(params, bound, rank).None? <==>
                forall j :: 0 <= j < |params| ==> Failure(params[j].name, rank).None?
      decreases |params|
    {
      if params != [] {
        ParamsFailureNone(params[1..], bound, rank);
        assert forall j :: 1 <= j < |params| ==> params[j] == params[1..][j - 1];
      }
    }

    /** `resolve_dependencies` stops at the first parameter whose `get` fails, with that failure. */
    lemma {:induction false} ParamsFailureFirst(params: seq<Param>, bound: nat, rank: Path -> nat, i: nat)
      requires Acyclic(rank)
      requires forall j :: 0 <= j < |params| ==> Height(params[j].name, rank) <= bound
      requires i < |params| && Failure(params[i].name, rank).Some?
      requires forall j :: 0 <= j < i ==> Failure(params[j].name, rank).None?
      ensures ParamsFailure(params, bound, rank) == Failure(params[i].name, rank)
      decreases i
    {
      if i > 0 {
        var tail := params[1..];
        assert forall j :: 0 <= j < i - 1 ==> tail[j] == params[j + 1];
        assert Failure(params[0].name, rank).None?;
        ParamsFailureFirst(tail, bound, rank, i - 1);
      }
    }

    /** The parameters from `i` on fail as parameter `i` does, or else as those after it. */
    lemma ParamsFailureStep(params: seq<Param>, bound: nat, rank: Path -> nat, i: nat)
      requires Acyclic(rank)
      requires forall j :: 0 <= j < |params| ==> Height(params[j].name, rank) <= bound
      requires i < |params|
      ensures ParamsFailure(params[i..], bound, rank) ==
                if Failure(params[i].name, rank).Some? then Failure(params[i].name, rank)
                else ParamsFailure(params[i + 1..], bound, rank)
    {
      assert params[i..][0] == params[i] && params[i..][1..] == params[i + 1..];
    }

    /** `KeyFailure` reads the configuration only through its aliases: a change that keeps them
        keeps every key's failure. */
    twostate lemma KeyFailureKept(new key: string, new rank: Path -> nat)
      requires old(Aliases()) == Aliases()
      requires old(Acyclic(rank))
      requires Acyclic(rank)
      ensures old(KeyFailure(key, rank)) == KeyFailure(key, rank)
      decreases KeyHeight(key, rank), 1
    {
      var found := FindResolver(reg, resolvers, key);
      if found.Ok? && found.value.Some? {
        var res := found.value.value;
        if !res.Values? && !res.Procs? && ResolveType(reg, res, key).Ok? {
          var p := ResolveType(reg, res, key).value;
          assert old(BuildFailure(res, key, rank)) == old(ConstructFailure(p, rank));
          assert BuildFailure(res, key, rank) == ConstructFailure(p, rank);
          if IsClass(reg, p) {
            ParamsFailureKept(ParamsOf(reg, p), rank(p), rank);
          }
        }
      }
    }

    /** The same for the parameters of a constructor. */
    twostate lemma ParamsFailureKept(new params: seq<Param>, new bound: nat, new rank: Path -> nat)
      requires old(Acyclic(rank)) && Acyclic(rank) && old(Aliases()) == Aliases()
      requires forall j :: 0 <= j < |params| ==> old(Height(params[j].name, rank)) <= bound
      requires forall j :: 0 <= j < |params| ==> Height(params[j].name, rank) <= bound
      ensures old(ParamsFailure(params, bound, rank)) == ParamsFailure(params, bound, rank)
      decreases bound + 1, 0, |params|
    {
      if params != [] {
        var name := params[0].name;
        var rewritten := Rewrite(Aliases(), name);
        assert old(Failure(name, rank)) == if rewritten.Err? then Some(rewritten.error) else old(KeyFailure(rewritten.value, rank));
        if rewritten.Ok? {
          KeyFailureKept(rewritten.value, rank);
        }
        ParamsFailureKept(params[1..], bound, rank);
      }
    }

    /** Notes the keys a newly constructed object's arguments were fetched under. */
    method Record(v: Instance, ghost keys: seq<string>)
      requires Valid() && v !in argKeys
      requires Fetched(cache, Aliases(), ParamsOf(reg, v.typePath), keys, v.args)
      modifies this`argKeys
      ensures Valid() && argKeys == old(argKeys)[v := keys]
      ensures KeyedBy(argKeys, Aliases(), v)
    {
      argKeys := argKeys[v := keys];
    }

    /** `configure(settings)`. */
    method Configure(settings: Configuration, ghost rank: Path -> nat)
      requires Valid()
      modifies this`configuration
      ensures Valid()
      ensures configuration == Merge(old(configuration), settings)
      ensures AliasesKey !in settings && old(Acyclic(rank)) ==> Acyclic(rank)
      ensures AliasesKey !in settings && old(Acyclic(rank)) && old(CacheSound(rank)) ==> CacheSound(rank)
    {
      configuration := configuration + settings;
      if AliasesKey !in settings && old(Acyclic(rank)) {
        ConfigureKeepsAliases(old(configuration), settings);
        assert Acyclic(rank);
        if old(CacheSound(rank)) {
          forall k | k in cache
            ensures KeyFailure(k, rank).None?
          {
            KeyFailureKept(k, rank);
          }
        }
      }
    }

    /** `get(identifier)`: rewrite the identifier once through the aliases, then fetch it from the
        cache or build it. */
    method Get(identifier: string, ghost rank: Path -> nat) returns (r: Result<Instance>)
      requires Valid() && Acyclic(rank)
      modifies this`cache, this`argKeys
      ensures Valid() && Grown(rank, Height(identifier, rank))
      ensures Rewrite(Aliases(), identifier).Err? ==>
                r == Err(Rewrite(Aliases(), identifier).error) && cache == old(cache)
      ensures Rewrite(Aliases(), identifier).Ok? ==>
                var key := Rewrite(Aliases(), identifier).value;
                (key in old(cache) ==> r == Ok(old(cache)[key]) && cache == old(cache)) &&
                (key !in old(cache) && FindResolver(reg, resolvers, key).Err? ==>
                   r == Err(FindResolver(reg, resolvers, key).error) && cache == old(cache)) &&
                (key !in old(cache) && FindResolver(reg, resolvers, key) == Ok(None) ==>
                   r == Err(UnknownService(key)) && cache == old(cache)) &&
                (r.Ok? ==> key in cache && cache[key] == r.value) &&
                (r.Err? ==> key !in cache) &&
                (r.Ok? && key !in old(cache) && KeyTarget(key).Some? ==> fresh(r.value))
      ensures AddedWithin(old(cache), cache, NameReach(identifier, rank))
      ensures Ready(identifier, rank) ==> r.Ok?
      ensures old(CacheSound(rank)) ==> CacheSound(rank) && RaisesAs(r, Failure(identifier, rank))
      decreases Height(identifier, rank), 4
    {
      var rewritten := Rewrite(Aliases(), identifier);
      if rewritten.Err? {
        return Err(rewritten.error);
      }
      r := CacheFetch(rewritten.value, rank);
    }

    /** `cache_fetch(key) { ... }`: the cached object if there is one; otherwise the block, which
        picks the first resolver that can build the key and raises `UnknownServiceError` when none
        can, and whose result is stored under the key. */
    method CacheFetch(key: string, ghost rank: Path -> nat) returns (r: Result<Instance>)
      requires Valid() && Acyclic(rank)
      modifies this`cache, this`argKeys
      ensures Valid() && Grown(rank, KeyHeight(key, rank))
      ensures key in old(cache) ==> r == Ok(old(cache)[key]) && cache == old(cache)
      ensures key !in old(cache) && FindResolver(reg, resolvers, key).Err? ==>
                r == Err(FindResolver(reg, resolvers, key).error) && cache == old(cache)
      ensures key !in old(cache) && FindResolver(reg, resolvers, key) == Ok(None) ==>
                r == Err(UnknownService(key)) && cache == old(cache)
      ensures r.Ok? ==> key in cache && cache[key] == r.value
      ensures r.Err? ==> key !in cache
      ensures r.Ok? && key !in old(cache) && KeyTarget(key).Some? ==> fresh(r.value)
      ensures AddedWithin(old(cache), cache, Reach(key, rank))
      ensures KeyFailure(key, rank).None? ==> r.Ok?
      ensures old(CacheSound(rank)) ==> CacheSound(rank) && RaisesAs(r, KeyFailure(key, rank))
      decreases KeyHeight(key, rank), 3
    {
      if key in cache {
        return Ok(cache[key]);
      }
      var found := FindResolver(reg, resolvers, key);
      if found.Err? {
        return Err(found.error);
      }
      if found.value.None? {
        return Err(UnknownService(key));
      }
      r := Build(found.value.value, key, rank);
      if r.Ok? {
        cache := cache[key := r.value];
      }
    }

    /** `resolver.build(identifier)` for a resolver created with this injector. */
    method Build(res: Resolver, identifier: string, ghost rank: Path -> nat) returns (r: Result<Instance>)
      requires Valid() && Acyclic(rank)
      modifies this`cache, this`argKeys
      ensures Valid() && Grown(rank, BuildDepth(res, identifier, rank) - 1)
      ensures res.Values? ==> r == BuildValue(res.values, identifier) && cache == old(cache)
      ensures res.Procs? ==>
                (r.Ok? <==> identifier in res.factories) && cache == old(cache) &&
                (r.Ok? ==> fresh(r.value) && r.value.typePath == res.factories[identifier].produces) &&
                (r.Err? ==> r.error == KeyError(identifier))
      ensures res.FindsType() && ResolveType(reg, res, identifier).Err? ==>
                r == Err(ResolveType(reg, res, identifier).error) && cache == old(cache)
      ensures res.FindsType() && ResolveType(reg, res, identifier).Ok? ==>
                var p := ResolveType(reg, res, identifier).value;
                (!IsClass(reg, p) ==> r == Err(NotAClass(p))) &&
                (r.Ok? ==> fresh(r.value) && r.value.typePath == p && r.value in argKeys) &&
                AddedWithin(old(cache), cache, ConstructReach(p, rank))
      ensures BuildFailure(res, identifier, rank).None? ==> r.Ok?
      ensures old(CacheSound(rank)) ==> CacheSound(rank) && RaisesAs(r, BuildFailure(res, identifier, rank))
      decreases BuildDepth(res, identifier, rank), 2
    {
      match res
      case Values(values) =>
        r := BuildValue(values, identifier);
      case Procs(factories) =>
        r := BuildProc(factories, identifier);
      case _ =>
        var t := ResolveType(reg, res, identifier);
        if t.Err? {
          return Err(t.error);
        }
        ResolveTypeFindsConstant(reg, res, identifier);
        var factory := new ObjectFactory(this);
        r := factory.Build(t.value, rank);
    }
  }

  /** `ObjectFactory`: constructs a type, asking its injector for every constructor parameter. */
  class ObjectFactory {
    const injector: Injector

    constructor (injector: Injector)
      ensures this.injector == injector
    {
      this.injector := injector;
    }

    /** `build(type)`: `type.new(*args)` with the arguments `resolve_dependencies` fetched. */
    method Build(p: Path, ghost rank: Path -> nat) returns (r: Result<Instance>)
      requires injector.Valid() && injector.Acyclic(rank) && ConstantAt(injector.reg, p).Some?
      modifies injector`cache, injector`argKeys
      ensures injector.Valid() && injector.Grown(rank, rank(p))
      ensures !IsClass(injector.reg, p) ==> r == Err(NotAClass(p)) && injector.cache == old(injector.cache)
      ensures r.Ok? ==>
                fresh(r.value) && r.value.typePath == p && r.value in injector.argKeys &&
                r.value !in old(injector.argKeys)
      ensures IsClass(injector.reg, p) && ParamsOf(injector.reg, p) == [] ==>
                r.Ok? && injector.cache == old(injector.cache)
      ensures AddedWithin(old(injector.cache), injector.cache, injector.ConstructReach(p, rank))
      ensures injector.ConstructFailure(p, rank).None? ==> r.Ok?
      ensures old(injector.CacheSound(rank)) ==>
                injector.CacheSound(rank) && RaisesAs(r, injector.ConstructFailure(p, rank))
      decreases rank(p) + 1, 1
    {
      if !IsClass(injector.reg, p) {
        return Err(NotAClass(p));
      }
      var params := ParamsOf(injector.reg, p);
      var deps, keys := ResolveDependencies(params, rank(p), rank);
      if deps.Err? {
        return Err(deps.error);
      }
      var v := new Instance(p, deps.value);
      injector.Record(v, keys);
      r := Ok(v);
    }

    /** `resolve_dependencies`: `injector.get` of every parameter's name, in declared order and
        whatever the parameter's kind, stopping at the first that raises. Argument `j` is what the
        cache holds for parameter `j`'s rewritten name. */
    method ResolveDependencies(params: seq<Param>, ghost bound: nat, ghost rank: Path -> nat)
      returns (r: Result<seq<Instance>>, ghost keys: seq<string>)
      requires injector.Valid() && injector.Acyclic(rank)
      requires forall j :: 0 <= j < |params| ==> injector.Height(params[j].name, rank) <= bound
      modifies injector`cache, injector`argKeys
      ensures injector.Valid() && injector.Grown(rank, bound)
      ensures r.Ok? ==> Fetched(injector.cache, injector.Aliases(), params, keys, r.value)
      ensures params == [] ==>
                r == Ok([]) && injector.cache == old(injector.cache) && injector.argKeys == old(injector.argKeys)
      ensures AddedWithin(old(injector.cache), injector.cache, injector.ParamsReach(params, bound, rank))
      ensures injector.ParamsFailure(params, bound, rank).None? ==> r.Ok?
      ensures old(injector.CacheSound(rank)) ==>
                injector.CacheSound(rank) && RaisesAs(r, injector.ParamsFailure(params, bound, rank))
      decreases bound + 1, 0
    {
      var args: seq<Instance> := [];
      keys := [];
      ghost var sound := injector.CacheSound(rank);
      ghost var failure := injector.ParamsFailure(params, bound, rank);
      ghost var allowed := injector.ParamsReach(params, bound, rank);
      var i := 0;
      r := Ok([]);
      while i < |params|
        invariant r.Ok?
        invariant 0 <= i <= |params| && |args| == i && |keys| == i
        invariant injector.Valid() && injector.Grown(rank, bound)
        invariant Fetched(injector.cache, injector.Aliases(), params[..i], keys, args)
        invariant i == 0 ==> injector.cache == old(injector.cache) && injector.argKeys == old(injector.argKeys)
        invariant failure.None? ==> injector.ParamsFailure(params[i..], bound, rank).None?
        invariant AddedWithin(old(injector.cache), injector.cache, allowed)
        invariant sound ==> injector.CacheSound(rank) && injector.ParamsFailure(params[i..], bound, rank) == failure
      {
        var a, key := FetchNext(params, i, bound, rank, keys, args, old(injector.cache), old(injector.argKeys), allowed);
        if a.Err? {
          r := Err(a.error);
          break;
        }
        keys := keys + [key];
        args := args + [a.value];
        i := i + 1;
      }
      if r.Ok? {
        assert params[..i] == params;
        r := Ok(args);
      }
    }

    /** One step of `resolve_dependencies`: `injector.get` of parameter `i`'s name, once the
        parameters before it have their arguments. */
    method FetchNext(params: seq<Param>, i: nat, ghost bound: nat, ghost rank: Path -> nat,
                     ghost keys: seq<string>, args: seq<Instance>,
                     ghost c0: map<string, Instance>, ghost a0: map<Instance, seq<string>>,
                     ghost allowed: set<string>)
      returns (a: Result<Instance>, ghost key: string)
      requires injector.Valid() && injector.Acyclic(rank) && i < |params|
      requires forall j :: 0 <= j < |params| ==> injector.Height(params[j].name, rank) <= bound
      requires Fetched(injector.cache, injector.Aliases(), params[..i], keys, args)
      requires injector.GrewWithin(c0, injector.cache, a0, injector.argKeys, injector.Aliases(), rank, bound)
      requires allowed == injector.ParamsReach(params, bound, rank) && AddedWithin(c0, injector.cache, allowed)
      modifies injector`cache, injector`argKeys
      ensures injector.Valid() && injector.configuration == old(injector.configuration)
      ensures injector.GrewWithin(c0, injector.cache, a0, injector.argKeys, injector.Aliases(), rank, bound)
      ensures AddedWithin(c0, injector.cache, allowed)
      ensures a.Ok? ==> Fetched(injector.cache, injector.Aliases(), params[..i + 1], keys + [key], args + [a.value])
      ensures injector.ParamsFailure(params[i..], bound, rank).None? ==>
                a.Ok? && injector.ParamsFailure(params[i + 1..], bound, rank).None?
      ensures old(injector.CacheSound(rank)) ==>
                injector.CacheSound(rank) &&
                if a.Ok? then injector.ParamsFailure(params[i..], bound, rank) == injector.ParamsFailure(params[i + 1..], bound, rank)
                else injector.ParamsFailure(params[i..], bound, rank) == Some(a.error)
      decreases injector.Height(params[i].name, rank), 5
    {
      ghost var c1, a1 := injector.cache, injector.argKeys;
      a := injector.Get(params[i].name, rank);
      injector.GrewTrans(c0, c1, injector.cache, a0, a1, injector.argKeys,
                         injector.Aliases(), rank, bound, injector.Height(params[i].name, rank));
      injector.ParamsFailureStep(params, bound, rank, i);
      injector.ParamsReachCovers(params, bound, rank, i);
      key := "";
      if a.Ok? {
        key := Rewrite(injector.Aliases(), params[i].name).value;
        FetchedGrow(c1, injector.cache, injector.Aliases(), params[..i], keys, args);
        FetchedExtend(injector.cache, injector.Aliases(), params, i, keys, args, key, a.value);
      }
    }
  }

  /** Within one injector, two constructed objects whose parameters were fetched under the same
      key received the very same object: a dependency reached along two paths is shared. */
  lemma SharedDependency(inj: Injector, u: Instance, i: nat, w: Instance, j: nat)
    requires inj.Valid() && u in inj.argKeys && w in inj.argKeys
    requires i < |inj.argKeys[u]| && j < |inj.argKeys[w]| && inj.argKeys[u][i] == inj.argKeys[w][j]
    ensures u.args[i] == w.args[j]
  {
  }

  /** An object built under the current aliases holds, as argument `j`, the object cached under
      the key its constructor parameter `j` rewrites to, which is what `get` returned for it. */
  lemma ArgumentCached(inj: Injector, v: Instance, j: nat)
    requires inj.Valid() && v in inj.argKeys && inj.KeyedBy(inj.argKeys, inj.Aliases(), v)
    requires j < |ParamsOf(inj.reg, v.typePath)|
    ensures |v.args| == |ParamsOf(inj.reg, v.typePath)|
    ensures Rewrite(inj.Aliases(), ParamsOf(inj.reg, v.typePath)[j].name) == Ok(inj.argKeys[v][j])
    ensures inj.argKeys[v][j] in inj.cache && v.args[j] == inj.cache[inj.argKeys[v][j]]
  {
  }
}
