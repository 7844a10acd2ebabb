/** The behaviour the injector's own specs describe, replayed on the model: two services, two
    consumers of them and a consumer of both consumers, where the first service is reached along
    two constructor paths. The scenarios are stated for any five identifiers that classify to five
    distinct top-level classes; `ExampleCast`, `ExampleClasses` and `ExampleRegistry` are one such choice. */
module Scenarios {
  import opened Failures
  import opened Constants
  import opened Inflect
  import opened TypeLookup
  import opened Resolvers
  import opened Injection

  /** One string for each role of the scenario: the services `db` and `log`, their consumers
      `repo(db, log)` and `audit(db = nil)`, and `app(repo, audit)`, which consumes both
      consumers. Used once for the identifiers and once for the class names. */
  datatype Cast = Cast(db: string, log: string, repo: string, audit: string, app: string)

  /** `classify(identifier)` is the plain constant name `name`, without `::`. */
  predicate Names(identifier: string, name: string) {
    Classify(identifier) == name && name != [] && NoColon(name)
  }

  /** Each identifier classifies to the class name of its role. */
  predicate Named(ids: Cast, cls: Cast) {
    Names(ids.db, cls.db) && Names(ids.log, cls.log) && Names(ids.repo, cls.repo) &&
    Names(ids.audit, cls.audit) && Names(ids.app, cls.app)
  }

  /** The registry holds exactly the five top-level classes, whose constructor parameters are
      named by the identifiers. */
  predicate Registered(reg: Registry, ids: Cast, cls: Cast) {
    cls.db != cls.log && cls.repo != cls.app &&
    reg.Keys == {[cls.db], [cls.log], [cls.repo], [cls.audit], [cls.app]} &&
    reg[[cls.db]] == TypeConst(TypeDesc([])) &&
    reg[[cls.log]] == TypeConst(TypeDesc([])) &&
    reg[[cls.repo]] == TypeConst(TypeDesc([Param(Req, ids.db), Param(Req, ids.log)])) &&
    reg[[cls.audit]] == TypeConst(TypeDesc([Param(Opt, ids.db)])) &&
    reg[[cls.app]] == TypeConst(TypeDesc([Param(Req, ids.repo), Param(Req, ids.audit)]))
  }

  predicate Shaped(reg: Registry, ids: Cast, cls: Cast) {
    Named(ids, cls) && Registered(reg, ids, cls)
  }

  /** A rank under which every constructor parameter resolves below its class. */
  predicate Ranked(cls: Cast, rank: Path -> nat) {
    rank([cls.db]) == 0 && rank([cls.log]) == 0 &&
    rank([cls.repo]) == 1 && rank([cls.audit]) == 1 && rank([cls.app]) == 2
  }

  function CastRank(cls: Cast, p: Path): nat {
    if p == [cls.app] then 2 else if p == [cls.repo] || p == [cls.audit] then 1 else 0
  }

  lemma CastRanked(reg: Registry, ids: Cast, cls: Cast)
    requires Registered(reg, ids, cls)
    ensures Ranked(cls, p => CastRank(cls, p))
  {
  }

  /** Aliases that leave the five identifiers alone. */
  predicate KeepsNames(ids: Cast, aliases: Setting) {
    aliases.Table? &&
    ids.db !in aliases.entries && ids.log !in aliases.entries && ids.repo !in aliases.entries &&
    ids.audit !in aliases.entries && ids.app !in aliases.entries
  }

  /** The constructor parameters of each path of the registry. */
  lemma CastParams(reg: Registry, ids: Cast, cls: Cast, p: Path)
    requires Registered(reg, ids, cls)
    ensures ParamsOf(reg, p) ==
              if p == [cls.repo] then [Param(Req, ids.db), Param(Req, ids.log)]
              else if p == [cls.audit] then [Param(Opt, ids.db)]
              else if p == [cls.app] then [Param(Req, ids.repo), Param(Req, ids.audit)]
              else []
  {
  }

  /** An identifier that classifies to the name of a top-level class is built by the inline type
      resolver as that class. */
  lemma TypeFor(inj: Injector, n: string, c: string, rank: Path -> nat)
    requires inj.resolvers == [InlineType] && Names(n, c) && [c] in inj.reg
    ensures FindResolver(inj.reg, inj.resolvers, n) == Ok(Some(InlineType))
    ensures ResolveType(inj.reg, InlineType, n) == Ok([c])
    ensures inj.KeyTarget(n) == Some([c]) && inj.KeyHeight(n, rank) == rank([c]) + 1
  {
    SplitName(c);
    assert [] + [c] == [c];
    assert [c][1..] == [];
    assert c[0] != ':' && RootedSegments(c) == [c];
    assert WalkGuarded(inj.reg, [], [c]) == Some([c]);
    assert LoadQualified(inj.reg, c) == Some([c]);
    assert inj.resolvers[1..] == [];
  }

  /** The inline type resolver cannot build an identifier whose class is not defined. */
  lemma NoTypeFor(inj: Injector, n: string, c: string)
    requires inj.resolvers == [InlineType] && Names(n, c) && [c] !in inj.reg
    ensures FindResolver(inj.reg, inj.resolvers, n) == Ok(None)
    ensures inj.KeyTarget(n) == None
  {
    SplitName(c);
    assert [] + [c] == [c];
    assert c[0] != ':' && RootedSegments(c) == [c];
    assert WalkGuarded(inj.reg, [], [c]) == None;
    assert LoadQualified(inj.reg, c) == None;
    assert inj.resolvers[1..] == [];
  }

  /** Constructor parameter `j` of the class at `p` resolves below `p`. */
  lemma ParamBelow(inj: Injector, ids: Cast, cls: Cast, rank: Path -> nat, p: Path, j: nat)
    requires Shaped(inj.reg, ids, cls) && inj.resolvers == [InlineType]
    requires KeepsNames(ids, inj.Aliases()) && Ranked(cls, rank)
    requires j < |ParamsOf(inj.reg, p)|
    ensures inj.Height(ParamsOf(inj.reg, p)[j].name, rank) <= rank(p)
  {
    CastParams(inj.reg, ids, cls, p);
    if p == [cls.repo] {
      if j == 0 {
        NameBelow(inj, ids.db, cls.db, rank, p);
      } else {
        NameBelow(inj, ids.log, cls.log, rank, p);
      }
    } else if p == [cls.audit] {
      NameBelow(inj, ids.db, cls.db, rank, p);
    } else {
      if j == 0 {
        NameBelow(inj, ids.repo, cls.repo, rank, p);
      } else {
        NameBelow(inj, ids.audit, cls.audit, rank, p);
      }
    }
  }

  /** An unaliased identifier naming a class ranked below `p` has height at most `rank(p)`. */
  lemma NameBelow(inj: Injector, n: string, c: string, rank: Path -> nat, p: Path)
    requires inj.resolvers == [InlineType] && Names(n, c) && [c] in inj.reg
    requires Rewrite(inj.Aliases(), n) == Ok(n) && rank([c]) < rank(p)
    ensures inj.Height(n, rank) <= rank(p)
  {
    TypeFor(inj, n, c, rank);
  }

  /** The registry's dependency graph is acyclic. */
  lemma CastAcyclic(inj: Injector, ids: Cast, cls: Cast, rank: Path -> nat)
    requires Shaped(inj.reg, ids, cls) && inj.resolvers == [InlineType]
    requires KeepsNames(ids, inj.Aliases()) && Ranked(cls, rank)
    ensures inj.Acyclic(rank)
  {
    forall p: Path, j | 0 <= j < |ParamsOf(inj.reg, p)|
      ensures inj.Height(ParamsOf(inj.reg, p)[j].name, rank) <= rank(p)
    {
      ParamBelow(inj, ids, cls, rank, p, j);
    }
  }

  /** A key whose class has constructor parameters that can all be got can be got itself. */
  lemma ReadyFromParams(inj: Injector, n: string, c: string, rank: Path -> nat)
    requires inj.Acyclic(rank) && inj.resolvers == [InlineType] && Rewrite(inj.Aliases(), n) == Ok(n)
    requires Names(n, c) && IsClass(inj.reg, [c])
    requires forall j :: 0 <= j < |ParamsOf(inj.reg, [c])| ==> inj.Ready(ParamsOf(inj.reg, [c])[j].name, rank)
    ensures inj.Ready(n, rank)
  {
    TypeFor(inj, n, c, rank);
    inj.ParamsFailureNone(ParamsOf(inj.reg, [c]), rank([c]), rank);
    assert inj.ConstructFailure([c], rank) == None;
    assert inj.BuildFailure(InlineType, n, rank) == None;
    assert inj.KeyFailure(n, rank) == None;
  }

  /** Every one of the five identifiers can be got. */
  lemma CastReady(inj: Injector, ids: Cast, cls: Cast, rank: Path -> nat)
    requires Shaped(inj.reg, ids, cls) && inj.resolvers == [InlineType]
    requires KeepsNames(ids, inj.Aliases()) && Ranked(cls, rank)
    ensures inj.Acyclic(rank)
    ensures inj.Ready(ids.db, rank) && inj.Ready(ids.log, rank) && inj.Ready(ids.repo, rank)
    ensures inj.Ready(ids.audit, rank) && inj.Ready(ids.app, rank)
  {
    CastAcyclic(inj, ids, cls, rank);
    LeafReady(inj, ids, cls, rank, ids.db, cls.db);
    LeafReady(inj, ids, cls, rank, ids.log, cls.log);
    RepoReady(inj, ids, cls, rank);
    AuditReady(inj, ids, cls, rank);
    AppReady(inj, ids, cls, rank);
  }

  /** A service whose class takes no parameters can be got. */
  lemma LeafReady(inj: Injector, ids: Cast, cls: Cast, rank: Path -> nat, n: string, c: string)
    requires Shaped(inj.reg, ids, cls) && inj.resolvers == [InlineType]
    requires KeepsNames(ids, inj.Aliases()) && inj.Acyclic(rank)
    requires (n, c) == (ids.db, cls.db) || (n, c) == (ids.log, cls.log)
    ensures inj.Ready(n, rank)
  {
    CastParams(inj.reg, ids, cls, [c]);
    ReadyFromParams(inj, n, c, rank);
  }

  lemma RepoReady(inj: Injector, ids: Cast, cls: Cast, rank: Path -> nat)
    requires Shaped(inj.reg, ids, cls) && inj.resolvers == [InlineType]
    requires KeepsNames(ids, inj.Aliases()) && inj.Acyclic(rank)
    requires inj.Ready(ids.db, rank) && inj.Ready(ids.log, rank)
    ensures inj.Ready(ids.repo, rank)
  {
    CastParams(inj.reg, ids, cls, [cls.repo]);
    var ps := ParamsOf(inj.reg, [cls.repo]);
    assert |ps| == 2 && ps[0].name == ids.db && ps[1].name == ids.log;
    ReadyFromParams(inj, ids.repo, cls.repo, rank);
  }

  lemma AuditReady(inj: Injector, ids: Cast, cls: Cast, rank: Path -> nat)
    requires Shaped(inj.reg, ids, cls) && inj.resolvers == [InlineType]
    requires KeepsNames(ids, inj.Aliases()) && inj.Acyclic(rank)
    requires inj.Ready(ids.db, rank)
    ensures inj.Ready(ids.audit, rank)
  {
    CastParams(inj.reg, ids, cls, [cls.audit]);
    ReadyFromParams(inj, ids.audit, cls.audit, rank);
  }

  lemma AppReady(inj: Injector, ids: Cast, cls: Cast, rank: Path -> nat)
    requires Shaped(inj.reg, ids, cls) && inj.resolvers == [InlineType]
    requires KeepsNames(ids, inj.Aliases()) && inj.Acyclic(rank)
    requires inj.Ready(ids.repo, rank) && inj.Ready(ids.audit, rank)
    ensures inj.Ready(ids.app, rank)
  {
    CastParams(inj.reg, ids, cls, [cls.app]);
    var ps := ParamsOf(inj.reg, [cls.app]);
    assert |ps| == 2 && ps[0].name == ids.repo && ps[1].name == ids.audit;
    ReadyFromParams(inj, ids.app, cls.app, rank);
  }

  /** Every object recorded so far fetched its arguments under the current aliases. */
  ghost predicate AllKeyed(inj: Injector)
    reads inj
  {
    forall v | v in inj.argKeys :: inj.KeyedBy(inj.argKeys, inj.Aliases(), v)
  }

  /** Under aliases that rewrite nothing, the object cached for an identifier of a top-level class
      has that class, and its argument `j` is the object cached for its parameter `j`'s name. */
  lemma CachedObject(inj: Injector, n: string, c: string, rank: Path -> nat)
    requires inj.Valid() && inj.resolvers == [InlineType] && inj.Aliases() == Table(map[]) && AllKeyed(inj)
    requires Names(n, c) && [c] in inj.reg && n in inj.cache
    ensures inj.cache[n].typePath == [c]
    ensures |inj.cache[n].args| == |ParamsOf(inj.reg, [c])|
    ensures forall j | 0 <= j < |ParamsOf(inj.reg, [c])| ::
              ParamsOf(inj.reg, [c])[j].name in inj.cache &&
              inj.cache[n].args[j] == inj.cache[ParamsOf(inj.reg, [c])[j].name]
  {
    TypeFor(inj, n, c, rank);
    var v := inj.cache[n];
    assert inj.KeyedBy(inj.argKeys, inj.Aliases(), v);
    forall j | 0 <= j < |ParamsOf(inj.reg, [c])|
      ensures ParamsOf(inj.reg, [c])[j].name in inj.cache
      ensures v.args[j] == inj.cache[ParamsOf(inj.reg, [c])[j].name]
    {
      ArgumentCached(inj, v, j);
    }
  }

  /** The cached `app` was built from the cached `repo` and `audit`. */
  lemma CachedApp(inj: Injector, ids: Cast, cls: Cast, rank: Path -> nat)
    requires inj.Valid() && inj.resolvers == [InlineType] && inj.Aliases() == Table(map[]) && AllKeyed(inj)
    requires Registered(inj.reg, ids, cls) && Names(ids.app, cls.app) && ids.app in inj.cache
    ensures ids.repo in inj.cache && ids.audit in inj.cache
    ensures inj.cache[ids.app].typePath == [cls.app]
    ensures inj.cache[ids.app].args == [inj.cache[ids.repo], inj.cache[ids.audit]]
  {
    CastParams(inj.reg, ids, cls, [cls.app]);
    CachedObject(inj, ids.app, cls.app, rank);
    var ps := ParamsOf(inj.reg, [cls.app]);
    assert ps[0].name == ids.repo && ps[1].name == ids.audit;
  }

  /** The cached `repo` was built from the cached `db` and `log`. */
  lemma CachedRepo(inj: Injector, ids: Cast, cls: Cast, rank: Path -> nat)
    requires inj.Valid() && inj.resolvers == [InlineType] && inj.Aliases() == Table(map[]) && AllKeyed(inj)
    requires Registered(inj.reg, ids, cls) && Names(ids.repo, cls.repo) && ids.repo in inj.cache
    ensures ids.db in inj.cache && ids.log in inj.cache
    ensures inj.cache[ids.repo].typePath == [cls.repo]
    ensures inj.cache[ids.repo].args == [inj.cache[ids.db], inj.cache[ids.log]]
  {
    CastParams(inj.reg, ids, cls, [cls.repo]);
    CachedObject(inj, ids.repo, cls.repo, rank);
    var ps := ParamsOf(inj.reg, [cls.repo]);
    assert ps[0].name == ids.db && ps[1].name == ids.log;
  }

  /** The cached `audit` was built from the cached `db`. */
  lemma CachedAudit(inj: Injector, ids: Cast, cls: Cast, rank: Path -> nat)
    requires inj.Valid() && inj.resolvers == [InlineType] && inj.Aliases() == Table(map[]) && AllKeyed(inj)
    requires Registered(inj.reg, ids, cls) && Names(ids.audit, cls.audit) && ids.audit in inj.cache
    ensures ids.db in inj.cache
    ensures inj.cache[ids.audit].typePath == [cls.audit]
    ensures inj.cache[ids.audit].args == [inj.cache[ids.db]]
  {
    CastParams(inj.reg, ids, cls, [cls.audit]);
    CachedObject(inj, ids.audit, cls.audit, rank);
    var ps := ParamsOf(inj.reg, [cls.audit]);
    assert ps[0].name == ids.db;
  }

  /** A cached service has the class its identifier names. */
  lemma CachedService(inj: Injector, n: string, c: string, rank: Path -> nat)
    requires inj.Valid() && inj.resolvers == [InlineType]
    requires Names(n, c) && [c] in inj.reg && n in inj.cache
    ensures inj.cache[n].typePath == [c]
  {
    TypeFor(inj, n, c, rank);
  }

  /** `specs/injector_spec.rb`, "same instance within a request": both consumers of `app` hold
      the one `db` object. */
  method SharedWithinRequest(reg: Registry, ids: Cast, cls: Cast) returns (app: Instance)
    requires Shaped(reg, ids, cls)
    ensures app.typePath == [cls.app] && |app.args| == 2
    ensures app.args[0].typePath == [cls.repo] && app.args[1].typePath == [cls.audit]
    ensures |app.args[0].args| == 2 && |app.args[1].args| == 1
    ensures app.args[0].args[0].typePath == [cls.db] && app.args[0].args[1].typePath == [cls.log]
    ensures app.args[0].args[0] == app.args[1].args[0]
  {
    var inj := new Injector(reg);
    ghost var rank: Path -> nat := p => CastRank(cls, p);
    CastRanked(reg, ids, cls);
    CastReady(inj, ids, cls, rank);
    var r := inj.Get(ids.app, rank);
    app := r.value;
    CachedApp(inj, ids, cls, rank);
    CachedRepo(inj, ids, cls, rank);
    CachedAudit(inj, ids, cls, rank);
    CachedService(inj, ids.db, cls.db, rank);
    CachedService(inj, ids.log, cls.log, rank);
  }

  /** `specs/injector_spec.rb`, "same instance for life": a second `get` returns the object the
      first one built. */
  method SameForLife(reg: Registry, ids: Cast, cls: Cast) returns (first: Instance, second: Instance)
    requires Shaped(reg, ids, cls)
    ensures first.typePath == [cls.db] && first == second
  {
    var inj := new Injector(reg);
    ghost var rank: Path -> nat := p => CastRank(cls, p);
    CastRanked(reg, ids, cls);
    CastReady(inj, ids, cls, rank);
    TypeFor(inj, ids.db, cls.db, rank);
    var r := inj.Get(ids.db, rank);
    first := r.value;
    var r2 := inj.Get(ids.db, rank);
    second := r2.value;
  }

  /** What a `get` of a service without parameters may cache: the service alone. */
  lemma LeafReach(inj: Injector, ids: Cast, cls: Cast, rank: Path -> nat, n: string, c: string)
    requires Shaped(inj.reg, ids, cls) && inj.resolvers == [InlineType]
    requires inj.Aliases() == Table(map[]) && inj.Acyclic(rank)
    requires (n, c) == (ids.db, cls.db) || (n, c) == (ids.log, cls.log)
    ensures inj.NameReach(n, rank) == {n}
  {
    TypeFor(inj, n, c, rank);
    CastParams(inj.reg, ids, cls, [c]);
    assert inj.ConstructReach([c], rank) == {};
    assert inj.Reach(n, rank) == {n};
  }

  /** A `get` caches the identifier and the dependencies it fetched, and nothing else: on a fresh
      injector, `get(log)` of a class without parameters caches `log` alone, and not `db`. */
  method OnlyDependenciesCached(reg: Registry, ids: Cast, cls: Cast) returns (keys: set<string>)
    requires Shaped(reg, ids, cls)
    ensures keys == {ids.log}
  {
    var inj := new Injector(reg);
    ghost var rank: Path -> nat := p => CastRank(cls, p);
    CastRanked(reg, ids, cls);
    CastReady(inj, ids, cls, rank);
    LeafReach(inj, ids, cls, rank, ids.log, cls.log);
    var r := inj.Get(ids.log, rank);
    KeysExactly(inj.cache, {ids.log});
    keys := inj.cache.Keys;
  }

  /** A cache that started empty, gained only keys of `allowed`, and holds all of them. */
  lemma KeysExactly(cache: map<string, Instance>, allowed: set<string>)
    requires AddedWithin(map[], cache, allowed) && allowed <= cache.Keys
    ensures cache.Keys == allowed
  {
  }

  /** `specs/injector_spec.rb`, "separate injectors": two injectors never hand out the same
      object for the same identifier. */
  method SeparateInjectors(reg: Registry, ids: Cast, cls: Cast) returns (first: Instance, second: Instance)
    requires Shaped(reg, ids, cls)
    ensures first.typePath == [cls.db] && second.typePath == [cls.db]
    ensures first != second
  {
    ghost var rank: Path -> nat := p => CastRank(cls, p);
    CastRanked(reg, ids, cls);
    var one := new Injector(reg);
    CastReady(one, ids, cls, rank);
    TypeFor(one, ids.db, cls.db, rank);
    var r := one.Get(ids.db, rank);
    first := r.value;
    var other := new Injector(reg);
    CastReady(other, ids, cls, rank);
    TypeFor(other, ids.db, cls.db, rank);
    var r2 := other.Get(ids.db, rank);
    second := r2.value;
  }

  /** `specs/injector_spec.rb`, "unknown service": `UnknownServiceError` for the identifier, and
      nothing is cached under it. */
  method UnknownServiceRaises(reg: Registry, ids: Cast, cls: Cast, missing: string, name: string)
    returns (r: Result<Instance>, cached: bool)
    requires Shaped(reg, ids, cls) && Names(missing, name) && [name] !in reg
    ensures r == Err(UnknownService(missing)) && !cached
  {
    ghost var rank: Path -> nat := p => CastRank(cls, p);
    CastRanked(reg, ids, cls);
    var inj := new Injector(reg);
    CastAcyclic(inj, ids, cls, rank);
    NoTypeFor(inj, missing, name);
    r := inj.Get(missing, rank);
    cached := missing in inj.cache;
  }

  /** `specs/injector_spec.rb`, aliases: after `configure(aliases: { alias => db })`, getting the
      alias gets the service itself, and the service's own identifier then answers from the cache
      with the same object. */
  method AliasResolves(reg: Registry, ids: Cast, cls: Cast, alias: string) returns (first: Instance, second: Instance)
    requires Shaped(reg, ids, cls)
    requires alias != ids.db && alias != ids.log && alias != ids.repo && alias != ids.audit && alias != ids.app
    ensures first.typePath == [cls.db] && first == second
  {
    ghost var rank: Path -> nat := p => CastRank(cls, p);
    CastRanked(reg, ids, cls);
    var inj := new Injector(reg);
    inj.Configure(map[AliasesKey := Table(map[alias := ids.db])], rank);
    assert inj.Aliases() == Table(map[alias := ids.db]);
    CastReady(inj, ids, cls, rank);
    TypeFor(inj, ids.db, cls.db, rank);
    assert inj.Ready(alias, rank);
    var r := inj.Get(alias, rank);
    first := r.value;
    var r2 := inj.Get(ids.db, rank);
    second := r2.value;
  }

  /** A top-level configuration key is not an alias: `configure(special => db)` leaves `get` of
      `special` to the resolvers, which raise `UnknownServiceError` when `special` names no
      class. */
  method TopLevelKeyIsNotAnAlias(reg: Registry, ids: Cast, cls: Cast, special: string, name: string)
    returns (r: Result<Instance>)
    requires Shaped(reg, ids, cls) && special != AliasesKey && Names(special, name) && [name] !in reg
    ensures r == Err(UnknownService(special))
  {
    ghost var rank: Path -> nat := p => CastRank(cls, p);
    CastRanked(reg, ids, cls);
    var inj := new Injector(reg);
    inj.Configure(map[special := Text(ids.db)], rank);
    assert inj.Aliases() == Table(map[]);
    CastAcyclic(inj, ids, cls, rank);
    NoTypeFor(inj, special, name);
    r := inj.Get(special, rank);
  }

  /** The registry of `specs/injector_keyword_args_spec.rb`'s last example: one class whose only
      constructor parameter, a required keyword, names no class. */
  predicate Unresolvable(reg: Registry, n: string, c: string, m: string, name: string) {
    Names(n, c) && Names(m, name) && c != name &&
    reg == map[[c] := TypeConst(TypeDesc([Param(KeyReq, m)]))]
  }

  /** Nothing in that registry depends on anything it can build, so every rank orders it. */
  lemma UnresolvableAcyclic(inj: Injector, n: string, c: string, m: string, name: string)
    requires Unresolvable(inj.reg, n, c, m, name) && inj.resolvers == [InlineType]
    requires inj.Aliases() == Table(map[])
    ensures inj.Acyclic(p => 0)
    ensures FindResolver(inj.reg, inj.resolvers, m) == Ok(None)
  {
    NoTypeFor(inj, m, name);
    assert inj.Height(m, p => 0) == 0;
    forall p: Path, j | 0 <= j < |ParamsOf(inj.reg, p)|
      ensures inj.Height(ParamsOf(inj.reg, p)[j].name, p => 0) <= 0
    {
      assert p == [c] && ParamsOf(inj.reg, p) == [Param(KeyReq, m)];
    }
  }

  /** `specs/injector_keyword_args_spec.rb`, "exceptions when a required keyword argument can't
      resolve": `get` of the class raises the `UnknownServiceError` of the parameter's `get`, the
      constructor is never reached, and nothing is cached. */
  method UnresolvableDependencyRaises(reg: Registry, n: string, c: string, m: string, name: string)
    returns (r: Result<Instance>, cached: bool)
    requires Unresolvable(reg, n, c, m, name)
    ensures r == Err(UnknownService(m)) && !cached
  {
    var inj := new Injector(reg);
    ghost var rank: Path -> nat := p => 0;
    UnresolvableAcyclic(inj, n, c, m, name);
    TypeFor(inj, n, c, rank);
    assert Rewrite(inj.Aliases(), n) == Ok(n) && Rewrite(inj.Aliases(), m) == Ok(m);
    assert ParamsOf(reg, [c]) == [Param(KeyReq, m)];
    assert inj.KeyFailure(m, rank) == Some(UnknownService(m));
    assert inj.ParamsFailure(ParamsOf(reg, [c]), rank([c]), rank) == Some(UnknownService(m));
    assert inj.ConstructFailure([c], rank) == Some(UnknownService(m));
    assert inj.BuildFailure(InlineType, n, rank) == Some(UnknownService(m));
    assert inj.KeyFailure(n, rank) == Some(UnknownService(m));
    assert inj.Failure(n, rank) == Some(UnknownService(m));
    r := inj.Get(n, rank);
    cached := n in inj.cache;
  }

  /** `ProcResolver#build` calls the factory every time: two builds give two objects. */
  method ProcBuildsAfresh(factories: map<string, Factory>, identifier: string) returns (first: Instance, second: Instance)
    requires identifier in factories
    ensures first.typePath == factories[identifier].produces && second.typePath == factories[identifier].produces
    ensures first != second
  {
    var r := BuildProc(factories, identifier);
    first := r.value;
    var r2 := BuildProc(factories, identifier);
    second := r2.value;
  }

  // ---------------------------------------------------------------------------------------------
  // One concrete cast

  const ExampleCast: Cast := Cast("db", "log", "repo", "audit", "app")

  const ExampleClasses: Cast := Cast("Db", "Log", "Repo", "Audit", "App")

  /** `Db`, `Log`, `Repo(db, log)`, `Audit(db = nil)` and `App(repo, audit)`. */
  const ExampleRegistry: Registry :=
    map[["Db"] := TypeConst(TypeDesc([])),
        ["Log"] := TypeConst(TypeDesc([])),
        ["Repo"] := TypeConst(TypeDesc([Param(Req, "db"), Param(Req, "log")])),
        ["Audit"] := TypeConst(TypeDesc([Param(Opt, "db")])),
        ["App"] := TypeConst(TypeDesc([Param(Req, "repo"), Param(Req, "audit")]))]

  /** A lower-case word classifies to itself with its first letter upcased. */
  lemma NamesWord(n: string, c: string)
    requires n != [] && AllLowerOrDigit(n) && c == [Upcase(n[0])] + n[1..]
    ensures Names(n, c)
  {
    ClassifyWithoutSeparators(n);
  }

  lemma NamesDb() ensures Names("db", "Db") { NamesWord("db", "Db"); }
  lemma NamesLog() ensures Names("log", "Log") { NamesWord("log", "Log"); }
  lemma NamesRepo() ensures Names("repo", "Repo") { NamesWord("repo", "Repo"); }
  lemma NamesAudit() ensures Names("audit", "Audit") { NamesWord("audit", "Audit"); }
  lemma NamesApp() ensures Names("app", "App") { NamesWord("app", "App"); }
  lemma NamesMissing() ensures Names("missing", "Missing") { NamesWord("missing", "Missing"); }
  lemma NamesSpecial() ensures Names("special", "Special") { NamesWord("special", "Special"); }

  /** The example identifiers classify to the example class names. */
  lemma ExampleNamed()
    ensures Named(ExampleCast, ExampleClasses)
  {
    NamesDb();
    NamesLog();
    NamesRepo();
    NamesAudit();
    NamesApp();
  }

  /** The example registry holds the five classes and neither `Missing` nor `Special`. */
  lemma ExampleRegistered()
    ensures Registered(ExampleRegistry, ExampleCast, ExampleClasses)
    ensures ["Missing"] !in ExampleRegistry && ["Special"] !in ExampleRegistry
  {
  }

  /** A class `Repo(missing:)` with no class `Missing` defined. */
  lemma ExampleUnresolvable()
    ensures Unresolvable(map[["Repo"] := TypeConst(TypeDesc([Param(KeyReq, "missing")]))],
                         "repo", "Repo", "missing", "Missing")
  {
    NamesRepo();
    NamesMissing();
  }

  /** The example names meet every scenario's requirement. */
  lemma ExampleShaped()
    ensures Shaped(ExampleRegistry, ExampleCast, ExampleClasses)
    ensures Names("missing", "Missing") && ["Missing"] !in ExampleRegistry
    ensures Names("special", "Special") && ["Special"] !in ExampleRegistry && "special" != AliasesKey
  {
    ExampleNamed();
    ExampleRegistered();
    NamesMissing();
    NamesSpecial();
  }
}
