/** The resolvers an injector can consult: each answers `can_build?(identifier)` and has a
    `build(identifier)`. The type-finding resolvers hand their type to an `ObjectFactory`; that
    part of `build` needs the injector and lives with it. */
module Resolvers {
  import opened Failures
  import opened Constants
  import opened Inflect
  import opened TypeLookup

  /** A zero-argument factory registered with a `ProcResolver`, modelled as a closure that
      constructs a new object of one type with no arguments (`-> { Widget.new }`). */
  class Factory {
    const produces: Path

    constructor (produces: Path)
      ensures this.produces == produces
    {
      this.produces := produces;
    }

    /** `factory.call`: every call constructs a new object. */
    method Call() returns (v: Instance)
      ensures fresh(v) && v.typePath == produces && v.args == []
    {
      v := new Instance(produces, []);
    }
  }

  datatype Resolver =
    /** The `TypeResolver` defined inside `injector.rb`: `Object.const_defined?(classify(id))`. */
    | InlineType
    /** The `TypeResolver` of `type_resolver.rb`, whose segment walk has no `nil` guard. */
    | WalkingType
    /** `ClassResolver`: asks its `ClassLoader`. */
    | ClassType(loader: ClassLoader)
    /** `ValueResolver`: a map from identifiers to ready-made values. */
    | Values(values: map<string, Instance>)
    /** `ProcResolver`: a map from identifiers to zero-argument factories. */
    | Procs(factories: map<string, Factory>)
  {
    /** The resolvers whose `build` looks a type up and constructs it. */
    predicate FindsType() {
      InlineType? || WalkingType? || ClassType?
    }
  }

  /** `resolver.can_build?(identifier)`, read for its truthiness; the walking type resolver can
      raise instead of answering. */
  function CanBuild(reg: Registry, r: Resolver, identifier: string): Result<bool> {
    match r
    case InlineType => Ok(LoadQualified(reg, Classify(identifier)).Some?)
    case WalkingType =>
      (match LoadTypeUnguarded(reg, Classify(identifier))
       case Found(_) => Ok(true)
       case Missing => Ok(false)
       case NilReceiver(_) => Err(NoMethodOnNil("const_defined?")))
    case ClassType(loader) => Ok(loader.Load(reg, identifier).Some?)
    case Values(values) => Ok(identifier in values)
    case Procs(factories) => Ok(identifier in factories)
  }

  /** `resolve_type(identifier)` of a type-finding resolver, with the failure `build` meets when
      there is no such type: `const_get` raises for the inline resolver, and the others hand `nil`
      to the object factory, which sends it `instance_method`. */
  function ResolveType(reg: Registry, r: Resolver, identifier: string): Result<Path>
    requires r.FindsType()
  {
    match r
    case InlineType =>
      (match LoadQualified(reg, Classify(identifier))
       case Some(p) => Ok(p)
       case None => Err(UninitializedConstant(Classify(identifier))))
    case WalkingType =>
      (match LoadTypeUnguarded(reg, Classify(identifier))
       case Found(p) => Ok(p)
       case Missing => Err(NoMethodOnNil("instance_method"))
       case NilReceiver(_) => Err(NoMethodOnNil("const_defined?")))
    case ClassType(loader) =>
      (match loader.Load(reg, identifier)
       case Some(p) => Ok(p)
       case None => Err(NoMethodOnNil("instance_method")))
  }

  /** The type a type-finding resolver resolves to is a constant of the registry. */
  lemma ResolveTypeFindsConstant(reg: Registry, r: Resolver, identifier: string)
    requires r.FindsType() && ResolveType(reg, r, identifier).Ok?
    ensures ConstantAt(reg, ResolveType(reg, r, identifier).value).Some?
  {
    var name := Classify(identifier);
    match r
    case InlineType =>
      WalkFindsConstant(reg, RootedSegments(name));
    case WalkingType =>
      WalksAgree(reg, [], Split(name));
      WalkFindsConstant(reg, Split(name));
    case ClassType(loader) =>
      SearchScopesFindsConstant(reg, loader.namespaces, name);
  }

  /** The type a resolver's `build` would construct, if it constructs one. */
  function TypeTarget(reg: Registry, r: Resolver, identifier: string): Option<Path> {
    if r.FindsType() && ResolveType(reg, r, identifier).Ok? then Some(ResolveType(reg, r, identifier).value)
    else None
  }

  /** `resolvers.detect { |h| h.can_build?(identifier) }`: the first resolver that can build the
      identifier, `nil` if none can, or the error the first failing `can_build?` raises. */
  function FindResolver(reg: Registry, chain: seq<Resolver>, identifier: string): Result<Option<Resolver>>
    decreases |chain|
  {
    if chain == [] then Ok(None)
    else match CanBuild(reg, chain[0], identifier)
      case Err(e) => Err(e)
      case Ok(true) => Ok(Some(chain[0]))
      case Ok(false) => FindResolver(reg, chain[1..], identifier)
  }

  /** `detect` returns the first resolver in chain order whose `can_build?` is truthy, is `nil`
      exactly when every `can_build?` is falsy, and raises what the first raising `can_build?`
      raises when it comes before any truthy one. */
  lemma {:induction false} FindResolverSpec(reg: Registry, chain: seq<Resolver>, identifier: string)
    ensures FindResolver(reg, chain, identifier) == Ok(None) <==>
              forall i :: 0 <= i < |chain| ==> CanBuild(reg, chain[i], identifier) == Ok(false)
    ensures FindResolver(reg, chain, identifier).Ok? && FindResolver(reg, chain, identifier).value.Some? ==>
              exists i :: 0 <= i < |chain| && chain[i] == FindResolver(reg, chain, identifier).value.value &&
                CanBuild(reg, chain[i], identifier) == Ok(true) &&
                forall j :: 0 <= j < i ==> CanBuild(reg, chain[j], identifier) == Ok(false)
    ensures FindResolver(reg, chain, identifier).Err? ==>
              exists i :: 0 <= i < |chain| &&
                CanBuild(reg, chain[i], identifier) == Err(FindResolver(reg, chain, identifier).error) &&
                forall j :: 0 <= j < i ==> CanBuild(reg, chain[j], identifier) == Ok(false)
    decreases |chain|
  {
    if chain != [] && CanBuild(reg, chain[0], identifier) == Ok(false) {
      var tail := chain[1..];
      FindResolverSpec(reg, tail, identifier);
      assert forall i :: 1 <= i < |chain| ==> chain[i] == tail[i - 1];
      var found := FindResolver(reg, tail, identifier);
      if found.Ok? && found.value.Some? {
        var i :| 0 <= i < |tail| && tail[i] == found.value.value &&
          CanBuild(reg, tail[i], identifier) == Ok(true) &&
          forall j :: 0 <= j < i ==> CanBuild(reg, tail[j], identifier) == Ok(false);
        assert chain[i + 1] == tail[i];
      } else if found.Err? {
        var i :| 0 <= i < |tail| && CanBuild(reg, tail[i], identifier) == Err(found.error) &&
          forall j :: 0 <= j < i ==> CanBuild(reg, tail[j], identifier) == Ok(false);
        assert chain[i + 1] == tail[i];
      }
    }
  }

  /** The resolver `detect` picks is one of the chain's. */
  lemma FindResolverInChain(reg: Registry, chain: seq<Resolver>, identifier: string)
    requires FindResolver(reg, chain, identifier).Ok? && FindResolver(reg, chain, identifier).value.Some?
    ensures FindResolver(reg, chain, identifier).value.value in chain
  {
    FindResolverSpec(reg, chain, identifier);
  }

  /** `can_build?` and `build` of a type-finding resolver perform the same lookup: `can_build?` is
      truthy exactly when `build` has a type to construct, and raises exactly when `build` does
      before reaching the factory. */
  lemma CanBuildIffTarget(reg: Registry, r: Resolver, identifier: string)
    requires r.FindsType()
    ensures CanBuild(reg, r, identifier) == Ok(true) <==> TypeTarget(reg, r, identifier).Some?
    ensures CanBuild(reg, r, identifier).Err? <==>
              ResolveType(reg, r, identifier) == Err(NoMethodOnNil("const_defined?"))
  {
  }

  /** The inline type resolver can build an identifier exactly when every segment of its
      classified name, a leading `::` dropped, names a constant, and its target is then that full
      path. */
  lemma InlineCanBuildIff(reg: Registry, identifier: string)
    ensures CanBuild(reg, InlineType, identifier) == Ok(true) <==>
              AllStepsDefined(reg, [], RootedSegments(Classify(identifier)))
    ensures CanBuild(reg, InlineType, identifier) == Ok(true) ==>
              TypeTarget(reg, InlineType, identifier) == Some(RootedSegments(Classify(identifier)))
  {
    WalkGuardedSpec(reg, [], RootedSegments(Classify(identifier)));
    assert [] + RootedSegments(Classify(identifier)) == RootedSegments(Classify(identifier));
  }

  /** For a classified name that does not start with `::`, the walking type resolver agrees with
      the inline one wherever it answers, and raises only where the inline one answers `false`. */
  lemma WalkingAgreesWithInline(reg: Registry, identifier: string)
    ensures !StartsWithSeparator(Classify(identifier)) ==>
              (CanBuild(reg, WalkingType, identifier) == Ok(true) <==> CanBuild(reg, InlineType, identifier) == Ok(true))
    ensures !StartsWithSeparator(Classify(identifier)) && CanBuild(reg, WalkingType, identifier).Err? ==>
              CanBuild(reg, InlineType, identifier) == Ok(false)
    ensures !StartsWithSeparator(Classify(identifier)) ==>
              TypeTarget(reg, WalkingType, identifier) == TypeTarget(reg, InlineType, identifier)
  {
    WalksAgree(reg, [], Split(Classify(identifier)));
  }

  /** The walking type resolver answers `false` exactly when every segment of the classified name
      but the last is defined and the last is not. */
  lemma {:induction false} WalkingAnswersFalse(reg: Registry, identifier: string)
    ensures var segs := Split(Classify(identifier));
            CanBuild(reg, WalkingType, identifier) == Ok(false) <==>
              |segs| >= 1 && segs !in reg && WalkGuarded(reg, [], segs[..|segs| - 1]).Some?
  {
    LoadTypeUnguardedMissing(reg, Classify(identifier));
  }

  /** An identifier starting with `/` classifies to a name starting with `::`. The inline resolver
      looks the rest up from `Object`; the walking resolver takes the empty piece in front of `::`
      for a constant name, finds none, and raises on the next piece. */
  lemma RootedNameResolvers(reg: Registry, identifier: string)
    requires NonEmptyNames(reg)
    requires StartsWithSeparator(Classify(identifier)) && Split(Classify(identifier)[2..]) != []
    ensures CanBuild(reg, InlineType, identifier) == Ok(true) <==>
              AllStepsDefined(reg, [], Split(Classify(identifier)[2..]))
    ensures CanBuild(reg, WalkingType, identifier) == Err(NoMethodOnNil("const_defined?"))
  {
    var name := Classify(identifier);
    RootedWalks(reg, name);
    WalkGuardedSpec(reg, [], Split(name[2..]));
    assert [] + Split(name[2..]) == Split(name[2..]);
  }

  /** A `ClassResolver` can build exactly what its loader finds, and that is what it builds. */
  lemma ClassResolverTarget(reg: Registry, loader: ClassLoader, identifier: string)
    ensures CanBuild(reg, ClassType(loader), identifier) == Ok(true) <==> loader.Load(reg, identifier).Some?
    ensures TypeTarget(reg, ClassType(loader), identifier) == loader.Load(reg, identifier)
  {
  }

  /** `ValueResolver#build`: `values.fetch(identifier)`, the stored object itself. */
  function BuildValue(values: map<string, Instance>, identifier: string): Result<Instance> {
    if identifier in values then Ok(values[identifier]) else Err(KeyError(identifier))
  }

  /** `can_build?` of a `ValueResolver` holds exactly when its `build` does not raise, and what
      that `build` answers is the very object configured; otherwise it raises `KeyError`. */
  lemma ValueCanBuildIffBuilds(values: map<string, Instance>, identifier: string)
    ensures CanBuild(map[], Values(values), identifier) == Ok(true) <==> BuildValue(values, identifier).Ok?
    ensures CanBuild(map[], Values(values), identifier) == Ok(true) ==>
              BuildValue(values, identifier) == Ok(values[identifier])
    ensures CanBuild(map[], Values(values), identifier) == Ok(false) ==>
              BuildValue(values, identifier) == Err(KeyError(identifier))
  {
  }

  /** `ProcResolver#build`: fetch the factory, raising `KeyError` when there is none, and call it.
      Nothing is remembered between calls. */
  method BuildProc(factories: map<string, Factory>, identifier: string) returns (r: Result<Instance>)
    ensures r.Ok? <==> identifier in factories
    ensures r.Ok? ==> fresh(r.value) && r.value.typePath == factories[identifier].produces
    ensures r.Err? ==> r.error == KeyError(identifier)
  {
    if identifier !in factories {
      return Err(KeyError(identifier));
    }
    var v := factories[identifier].Call();
    r := Ok(v);
  }
}
