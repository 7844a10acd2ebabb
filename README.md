# Ruse resolution engine in Dafny

This project models the core of Ruse, a small Ruby dependency injector. `Injector#get(identifier)`
does four things in order:

1. It rewrites the identifier once through the `:aliases` entry of the configuration.
2. It answers from a per-injector cache keyed by the rewritten identifier.
3. On a miss, it asks the first resolver of its chain whose `can_build?` holds to `build` the
   identifier, and caches the result.
4. It raises `UnknownServiceError` when no resolver can build the identifier.

Resolvers that find a type turn the identifier into a constant name with `classify`. They look that
name up in the constant table and construct the type through an `ObjectFactory`. The factory calls
`get` on the same injector for every constructor parameter, in declared order.

Files and modules:

- `failures.dfy` (`Failures`): `Option`, `Result`, and the errors the code can raise.
  - `UnknownServiceError`.
  - `NoMethodError` on `nil`.
  - The `NameError` of `const_get` for an undefined constant.
  - `KeyError` from `fetch`.
  - Constructing something that is not a class.
- `inflect.dfy` (`Inflect`): `classify`. It is defined once, though the source has three identical
  copies. Its three steps are:
  - the anchored `sub` of `^[a-z\d]*`;
  - the `gsub` of `(?:_|(\/))([a-z\d]*)` with the case-insensitive flag;
  - `gsub('/', '::')`.
- `constants.dfy` (`Constants`):
  - The Ruby constant table, made explicit as a registry from constant paths to scopes and classes.
    A class is given by its constructor's parameters, each a kind and a name.
  - Ruby's `String#split('::')`.
  - The objects the injector hands out (`Instance`). They are allocated with `new`, so "the same
    instance" is reference equality.
- `type_lookup.dfy` (`TypeLookup`): the two segment walks of `load_type`.
  - `type_resolver.rb` has no `nil` guard.
  - `class_loader.rb` has one.
  - Also here: the `ClassLoader`, with its `try_load_type` loop (the root first, then each
    namespace in order).
- `resolvers.dfy` (`Resolvers`): the resolvers, as one datatype searched first-match by `detect`.
  - The `TypeResolver` inside `injector.rb`.
  - The stand-alone `TypeResolver`.
  - `ClassResolver`.
  - `ValueResolver`.
  - `ProcResolver`.
- `injector.dfy` (`Injection`):
  - The `Injector` class. Its fields are the registry, the resolver chain, `@configuration`,
    `@cache`, and a ghost record of the cache keys each built object's arguments were fetched under.
  - The `ObjectFactory` class. `Get`, `CacheFetch`, the resolver `Build`, `ObjectFactory.Build` and
    `ResolveDependencies` are mutually recursive methods.
  - Termination rests on a ghost rank of the types. The rank must decrease along every constructor
    parameter (`Acyclic`). The source has no cycle detection, so this is a precondition.
  - `Failure` states, as a ghost function of the configuration, the error `get` raises, or `None`
    when it returns an object. It follows the rewrite, the choice of resolver, the resolver's
    build, and the constructor's parameters in declared order. The methods are proved against it.
- `scenarios.dfy` (`Scenarios`): the behaviour of `specs/injector_spec.rb`, proved as methods that
  call the model's `Get`.
  - They use any five identifiers that classify to five top-level classes.
  - `db` and `log` take no parameters, `repo(db, log)`, `audit(db = nil)` and `app(repo, audit)`.
  - So `db` is reached along two constructor paths.
  - `ExampleCast`, `ExampleClasses` and `ExampleRegistry` are one such choice, and `ExampleShaped`
    shows that it qualifies.

Where the repository's specs and its code disagree, the model follows the code.

- `specs/injector_spec.rb:31-34` configures `special_service: "ServiceA"` at the top level and
  expects `get(:special_service)` to find `ServiceA`. The code only reads `configuration[:aliases]`
  (`lib/ruse/injector.rb:31-33`), so a top-level key is not an alias. `TopLevelKeyIsNotAnAlias`
  proves that such a `get` raises `UnknownServiceError`. `AliasResolves` shows what the code does
  support: `configure(aliases: {...})`.
- The keyword and optional default fallback of `specs/injector_keyword_args_spec.rb:10-22` is not
  in the code. The factory asks the injector for every parameter whatever its kind, and a failure
  propagates.
- The per-call overrides of `specs/request_specific_config_spec.rb` are not in the code.
- `can_resolve` and namespaces configured on the injector are not in the code.

## Model

| member | source | states |
|---|---|---|
| Inflect.LowerRunSpec | lib/ruse/type_resolver.rb:20 | the leading run step 1 capitalizes is the greedy match of `^[a-z\d]*`: all its characters are lower-case letters or digits, and the next character is not |
| Inflect.AlnumRunSpec | lib/ruse/type_resolver.rb:21 | the run step 2 takes after a separator consists of letters and digits of either case (the `/i` flag), and it is the greedy match: the character after it, if any, is neither |
| Inflect.CapitalizeLowerRun | lib/ruse/type_resolver.rb:20 | `capitalize` of a run of lower-case letters and digits only upcases its first character |
| Inflect.CapitalizeAlnum | lib/ruse/type_resolver.rb:21 | `capitalize` of an alphanumeric run is alphanumeric |
| Inflect.CapitalizeHeadOfWord | lib/ruse/type_resolver.rb:20 | step 1 on a lower-case run `w` followed by a text not starting with `[a-z\d]` capitalizes `w` and leaves the rest alone |
| Inflect.CapitalizeHeadOfPlain | lib/ruse/type_resolver.rb:20 | step 1 changes only the first character of a non-empty term, which it upcases |
| Inflect.CapitalizeHeadFixed | lib/ruse/type_resolver.rb:20 | step 1 is the identity on a term whose first character is not a lower-case letter |
| Inflect.CamelizePlainPrefix | lib/ruse/type_resolver.rb:21 | step 2 copies a prefix without `_` and `/` unchanged and rewrites only what follows |
| Inflect.CamelizeSeparatedWord | lib/ruse/type_resolver.rb:21 | step 2 replaces a separator and the alphanumeric run after it by the capitalized run, keeping a `/` and dropping a `_` |
| Inflect.CamelizeDropsUnderscores | lib/ruse/type_resolver.rb:21 | step 2 leaves no `_` in its output |
| Inflect.CamelizeWithoutSeparators | lib/ruse/type_resolver.rb:21 | step 2 is the identity on a text without `_` and `/` |
| Inflect.CamelizeHeadNotLower | lib/ruse/type_resolver.rb:21 | step 2 never produces a lower-case first letter from a text that lacks one |
| Inflect.ExpandSlashesKeeps | lib/ruse/type_resolver.rb:21 | step 3 leaves no `/`, adds no `_`, and is the identity on a text without `/` |
| Inflect.ExpandSlashesAppend | lib/ruse/type_resolver.rb:21 | step 3 works character by character: it distributes over concatenation |
| Inflect.ClassifyHasNoSeparators | lib/ruse/injector.rb:65-70 | the output of `classify` contains no `_` and no `/` |
| Inflect.ClassifyWithoutSeparators | lib/ruse/type_resolver.rb:17-22 | a term without `_` and `/` changes at most in its first character, which is upcased; the empty term stays empty |
| Inflect.ClassifyIdempotent | lib/ruse/class_loader.rb:12-19 | `classify(classify(t)) == classify(t)` for every term `t` |
| Inflect.ClassifySnakePair | lib/ruse/type_resolver.rb:20-21 | `w1_w2` classifies to `capitalize(w1) + capitalize(w2)` for a lower-case `w1` and an alphanumeric `w2` |
| Inflect.ClassifyNamespacePair | lib/ruse/type_resolver.rb:20-21 | `w1/w2` classifies to `capitalize(w1) + "::" + capitalize(w2)` |
| Inflect.ClassifySnakeCaseExample | specs/injector_spec.rb:82-85 | `classify("camel_case") == "CamelCase"` |
| Inflect.ClassifyPascalCaseExample | specs/class_loader_spec.rb:12-15 | `classify("PascalCase") == "PascalCase"` |
| Inflect.ClassifyNamespacedExample | lib/ruse/class_loader.rb:16-18 | `classify("ns/foo") == "Ns::Foo"` |
| Constants.DropTrailingEmpty | lib/ruse/type_resolver.rb:31 | `split` drops the trailing empty pieces and only those: the result is a prefix of the pieces, every dropped piece is empty, and the last kept piece is not |
| Constants.JoinRawSplit | lib/ruse/type_resolver.rb:31 | splitting at `::` loses nothing: joining the pieces with `::` gives back the text |
| Constants.RawSplitPiece | lib/ruse/class_loader.rb:40 | a piece without `:` in front of `::` is split off whole |
| Constants.RawSplitPlain | lib/ruse/class_loader.rb:40 | a text without `:` is a single piece |
| Constants.SplitName | lib/ruse/class_loader.rb:40 | a non-empty name without `:` splits into itself alone |
| Constants.SplitQualified | lib/ruse/class_loader.rb:33 | `"ns::name".split('::')` is `[ns, name]` for names without `:` |
| Constants.SplitRooted | lib/ruse/type_resolver.rb:31 | a name that starts with `::` splits into an empty first piece followed by the pieces of the rest |
| Constants.SplitEmpty | lib/ruse/class_loader.rb:40 | the empty text and `::` alone split into no segments |
| TypeLookup.WalkGuardedSpec | lib/ruse/class_loader.rb:39-44 | the guarded fold finds the full path exactly when every step along it is a defined constant, and is `nil` otherwise, whichever segment is missing |
| TypeLookup.WalksAgree | lib/ruse/type_resolver.rb:30-36 | the unguarded fold finds what the guarded one finds; it is `nil` exactly when every segment but the last is defined and the last is not, and otherwise fails where the guarded fold is `nil` |
| TypeLookup.LoadTypeUnguardedMissing | lib/ruse/type_resolver.rb:30-36 | the stand-alone `load_type` answers `nil` exactly when every segment of the name but the last is defined and the last is not |
| TypeLookup.WalkFindsConstant | lib/ruse/class_loader.rb:40-43 | a path the walk finds names a constant of the registry |
| TypeLookup.RootedWalks | lib/ruse/injector.rb:57 | `const_defined?` strips a leading `::` and looks the rest up from the root. In the model the unguarded walk instead asks the root for the empty first piece, finds nothing, and then calls `const_defined?` on `nil`; Ruby raises `NameError` one step earlier, at the empty piece |
| TypeLookup.EmptyTypeNameIsRoot | lib/ruse/class_loader.rb:39-44 | a type name with no segments yields the root scope itself, for both folds |
| TypeLookup.SearchNamespacesSpec | lib/ruse/class_loader.rb:32-35 | the namespace search returns the lookup of the first namespace in list order under which the name is found, and `nil` exactly when it is found under none |
| TypeLookup.SearchNamespacesFindsConstant | lib/ruse/class_loader.rb:32-35 | what the namespace search finds names a constant |
| TypeLookup.SearchScopesFindsConstant | lib/ruse/class_loader.rb:29-37 | what the root-then-namespaces search finds names a constant |
| TypeLookup.ClassLoader.TryLoadType | lib/ruse/class_loader.rb:29-37 | the loop with its early returns computes the root-first, then namespace-by-namespace search |
| TypeLookup.LoadPrefersRoot | lib/ruse/class_loader.rb:30-31 | a name found at the root is what `load` returns, whatever the namespaces |
| TypeLookup.LoadWithoutNamespaces | lib/ruse/class_loader.rb:3-5 | with the default empty namespace list, `load` is the lookup at the root only |
| TypeLookup.LoadNilIff | lib/ruse/class_loader.rb:7-10 | `load` is `nil` exactly when the classified name is found neither at the root nor under any namespace |
| Resolvers.ResolveTypeFindsConstant | lib/ruse/injector.rb:78-81 | the type a type-finding resolver resolves to is a constant of the registry |
| Resolvers.FindResolverSpec | lib/ruse/injector.rb:35-39 | `detect` returns the first resolver in chain order whose `can_build?` holds, is `nil` exactly when none holds, and raises what the first raising `can_build?` raises when it comes first |
| Resolvers.FindResolverInChain | lib/ruse/injector.rb:35-39 | the resolver picked is one of the chain |
| Resolvers.CanBuildIffTarget | lib/ruse/type_resolver.rb:7-15 | `can_build?` and `build` perform the same lookup: `can_build?` holds exactly when `build` has a type to construct, and raises exactly when the lookup in `build` raises `NoMethodError` |
| Resolvers.InlineCanBuildIff | lib/ruse/injector.rb:55-58 | the resolver inside `injector.rb` can build an identifier exactly when every segment of `classify(identifier)` names a constant, with a leading `::` stripped first, and it then builds that path |
| Resolvers.WalkingAgreesWithInline | lib/ruse/type_resolver.rb:42-45 | for a classified name without a leading `::`, the stand-alone type resolver can build exactly what the inline one can and resolves to the same type; it raises only where the inline one answers false |
| Resolvers.WalkingAnswersFalse | lib/ruse/type_resolver.rb:7-10 | the stand-alone type resolver's `can_build?` answers `false` exactly when every segment of the classified name but the last is defined and the last is not |
| Resolvers.RootedNameResolvers | lib/ruse/type_resolver.rb:30-36 | for a classified name with a leading `::`, the inline resolver can build it exactly when every segment after the `::` names a constant, while the stand-alone resolver's `can_build?` raises `NoMethodError` |
| Resolvers.ClassResolverTarget | lib/ruse/class_resolver.rb:10-17 | a `ClassResolver` can build exactly what its loader finds, and it builds that type |
| Resolvers.ValueCanBuildIffBuilds | lib/ruse/value_resolver.rb:9-15 | `can_build?` holds exactly when `build` does not raise. `build` then returns the stored object itself, and otherwise raises `KeyError` for the key |
| Resolvers.BuildProc | lib/ruse/proc_resolver.rb:10-13 | `build` succeeds exactly when the key is present, then returning a new object of the factory's type, and raises `KeyError` for the key otherwise |
| Resolvers.Factory.Call | lib/ruse/proc_resolver.rb:12 | every call of a factory constructs a new object |
| Injection.Merge | lib/ruse/injector.rb:12-14 | `merge!` is shallow and key-wise: the keys of both, the settings' values where they have them, the old values elsewhere |
| Injection.RewriteDoesNotChain | lib/ruse/injector.rb:4 | the alias map is applied once: an alias whose target is itself aliased is not followed |
| Injection.RewriteUnaliased | lib/ruse/injector.rb:4 | an identifier without an alias is its own cache key |
| Injection.DefaultRewritesNothing | lib/ruse/injector.rb:27-29 | under the default configuration `{aliases: {}}` every identifier is its own key |
| Injection.ConfigureReplacesAliases | lib/ruse/injector.rb:12-14 | `configure(aliases: m)` replaces the whole alias map with `m`, so an identifier `m` lacks is no longer aliased |
| Injection.ConfigureKeepsAliases | lib/ruse/injector.rb:31-33 | settings without `:aliases` leave the aliases as they were |
| Injection.Injector.ParamsFailureNone | lib/ruse/object_factory.rb:16-20 | resolving the parameters fails exactly when the `get` of some parameter fails |
| Injection.Injector.ParamsFailureFirst | lib/ruse/object_factory.rb:16-20 | resolving the parameters fails with the failure of the first parameter, in declared order, whose `get` fails |
| Injection.Injector.constructor | lib/ruse/injector.rb:23-29 | a new injector has an empty cache, the configuration `{aliases: {}}` and the chain of one inline type resolver (lines 41-45) |
| Injection.Injector.Configure | lib/ruse/injector.rb:12-14 | the configuration becomes the merge of the old one with the settings; nothing else changes. Settings without `:aliases` keep the registry acyclic and keep every cached key rebuildable without failure |
| Injection.Injector.KeyFailureKept | lib/ruse/injector.rb:3-10 | while the aliases stay the same, the failure a fresh `get` of a key would raise does not depend on the rest of the configuration |
| Injection.Injector.ParamsFailureKept | lib/ruse/object_factory.rb:9-20 | while the aliases stay the same, the failure of the first failing parameter lookup does not depend on the rest of the configuration |
| Injection.Injector.Get | lib/ruse/injector.rb:3-10 | the identifier is rewritten once and the rewritten key is the cache key. A cached key returns the cached object and changes nothing. A miss with no resolver raises `UnknownServiceError(key)` and caches nothing. Success leaves the result cached under the key, and failure leaves the key uncached. New objects are fresh, the configuration is untouched, and cache entries are never replaced or removed. The only keys a `get` adds are in `NameReach` of the identifier: its rewritten key and, transitively, the rewritten names of the constructor parameters of the type that key builds. `get` succeeds when the identifier is `Ready`. When every cached key could be rebuilt without failing, that stays so, and `get` raises exactly the error `Failure` gives, or none: a failed dependency fails the whole `get` |
| Injection.Injector.CacheFetch | lib/ruse/injector.rb:18-21 | a cached key is returned without consulting any resolver. Otherwise the block's result is stored under the key, and the error it raises leaves the key uncached. The first resolver that can build is used, and `UnknownServiceError` comes when none can. Every key added is the key itself or one its build fetched, transitively (`Reach`). When every cached key could be rebuilt without failing, the error raised is exactly the one `KeyFailure` gives |
| Injection.Injector.Build | lib/ruse/injector.rb:60-63 | a value resolver returns the stored value, and a proc resolver a new object. A type-finding resolver raises what its lookup raises, and otherwise constructs a fresh object of exactly the type it resolved, adding to the cache only keys its constructor's parameters reach. When every cached key could be rebuilt without failing, the error raised is exactly the one `BuildFailure` gives, a failed constructor argument included |
| Injection.ObjectFactory.Build | lib/ruse/object_factory.rb:9-12 | `type.new(*args)`: a fresh object of the type recorded with the keys of its arguments. A non-class raises. A class without parameters is built without touching the cache, and any other adds only keys its parameters reach (`ConstructReach`). Construction succeeds when every parameter can be got. When every cached key could be rebuilt without failing, a failing parameter's error is the error of the construction, as `ConstructFailure` gives it |
| Injection.ObjectFactory.ResolveDependencies | lib/ruse/object_factory.rb:16-20 | one argument per declared parameter whatever its kind: argument `j` is what the cache holds under parameter `j`'s rewritten name, got in declared order. No parameters means no injector call. The cache gains only keys the parameters' `get`s reach (`ParamsReach`), even when a later parameter fails after earlier ones were cached. When every cached key could be rebuilt without failing, the result raises exactly what `ParamsFailure` gives, which is the error of the first parameter whose `get` fails |
| Injection.ObjectFactory.FetchNext | lib/ruse/object_factory.rb:18 | the `get` of one parameter, which extends the arguments fetched so far and adds to the cache only keys within the whole list's `ParamsReach`. When the parameters from this one on cannot fail, it succeeds. When every cached key could be rebuilt without failing, it fails exactly with the failure of the parameters from this one on, and on success passes that failure to the parameters after it |
| Injection.SharedDependency | lib/ruse/injector.rb:18-21 | two objects built by one injector whose parameters were fetched under the same key hold the very same argument object |
| Injection.ArgumentCached | lib/ruse/object_factory.rb:16-20 | an object built under the current aliases holds, as argument `j`, the object cached under the key parameter `j` rewrites to |
| Scenarios.TypeFor | lib/ruse/injector.rb:55-58 | an identifier classifying to a defined top-level class is built by the inline resolver as that class |
| Scenarios.NoTypeFor | lib/ruse/injector.rb:55-58 | an identifier classifying to an undefined name has no resolver in the default chain |
| Scenarios.CachedRepo | specs/injector_spec.rb:24-29 | the cached `repo` has its class and holds, as its two arguments, the objects cached under `db` and `log`, in declared order |
| Scenarios.SharedWithinRequest | specs/injector_spec.rb:36-39 | within one `get`, the two consumers of `app` hold the very same `db` object, and every object has the class its identifier names |
| Scenarios.OnlyDependenciesCached | lib/ruse/injector.rb:18-21 | on a fresh injector, `get(log)` of a class without constructor parameters leaves exactly `log` in the cache and nothing else, `db` included |
| Scenarios.SameForLife | specs/injector_spec.rb:41-45 | a second `get` of an identifier returns the object the first one built |
| Scenarios.SeparateInjectors | specs/injector_spec.rb:47-51 | two injectors hand out different objects for the same identifier |
| Scenarios.UnknownServiceRaises | specs/injector_spec.rb:18-22 | `get` of an identifier naming no class raises `UnknownServiceError` for it and caches nothing under it |
| Scenarios.UnresolvableDependencyRaises | specs/injector_keyword_args_spec.rb:30-35 | `get` of a class whose required keyword parameter names no class raises the `UnknownServiceError` of that parameter, and caches nothing under the class's identifier |
| Scenarios.AliasResolves | lib/ruse/injector.rb:3-5 | after `configure(aliases: {a => db})`, `get(a)` builds a `db` object, and `get(db)` then returns that same object from the cache |
| Scenarios.TopLevelKeyIsNotAnAlias | specs/injector_spec.rb:31-34 | a top-level configuration key is not an alias: `get` of it still raises `UnknownServiceError` when it names no class |
| Scenarios.ProcBuildsAfresh | lib/ruse/proc_resolver.rb:10-13 | `ProcResolver` does not memoize: two builds give two different objects of the factory's type |
| Scenarios.ExampleShaped | specs/injector_spec.rb:53-77 | the example cast of five names classifies to five distinct top-level classes with the registered constructors, and the example's unknown names name no class |

## Left out

- Ruby reflection is replaced by the explicit registry: `const_defined?`, `const_get` and
  `instance_method(:initialize).parameters`. Constant lookup through ancestors and through
  lexically enclosing scopes is not modelled: a constant is defined in a scope only when the
  registry holds its full path.
- `NameError` for a name that is not a valid constant name is not modelled. This covers a leading
  digit, and also the empty name (`Object.const_defined?("")` raises, while the model walks zero
  segments to the root). An identifier ending in `/` classifies to a name ending in `::`, which
  splits without its empty last piece: in the model `CanBuild(map[["A"] := …], InlineType, "a/")`
  is `Ok(true)`, and `"/"` (classified `"::"`, no segments) builds `Object`, while Ruby raises
  `NameError` for `"A::"` and for `"::"`. An interior `//` (`"a//b"` classifies to `"A::::B"`)
  gives an empty middle segment: the inline resolver answers `false` and the stand-alone fold
  raises `NoMethodError` on `nil`, while Ruby raises `NameError` at the empty piece.
- Ruby's binding of the arguments in `type.new(*args)` is not modelled: the object is built with
  one argument per parameter whatever the kinds. Ruby raises `ArgumentError` when, for example, a
  required keyword parameter receives a positional argument. The example registry therefore uses
  only positional and optional parameters.
- Injection.ObjectFactory.Build: "the constructor is never called after a failed lookup" is not
  stated as a separate contract. In the model a constructor has no effect besides the object it
  returns, and a failed lookup returns the error without one.
- The lazily memoised `@object_factory` of each resolver, and the `@resolvers` array itself, are not
  modelled as separate state. A factory keeps no state of its own, and the chain is fixed when the
  injector is made, so reuse is not observable.
- Injection.Injector.constructor: the chain is always the one inline type resolver, as
  `lib/ruse/injector.rb:41-45` builds it. The other resolvers are modelled and proved on their own,
  and `Build` handles all of them, but nothing in the code puts them in an injector's chain.
- A `ProcResolver` factory is modelled as a closure that constructs a new object of one type with
  no arguments. Side effects inside the closure are not modelled.
- Cyclic dependency graphs are not modelled. The code recurses without bound on them, so
  acyclicity of the whole registry is a precondition of `get`.
- The resolvers hold no reference to their injector. `lib/ruse/class_resolver.rb:5-7` and
  `lib/ruse/injector.rb:41-45` hand each resolver an injector, and its factory calls `get` on that
  one. The chain is built by the injector itself with `self`, so the model's `Build` always
  constructs through the injector it belongs to. A resolver shared with another injector is not
  modelled.
- `classify` is modelled on ASCII text. Ruby's `capitalize` and the `/i` flag of step 2 also fold
  the case of non-ASCII letters, for example `classify("a_ſ")`. The model treats every non-ASCII
  character as neither a letter nor a digit.
- Injection.Injector.Configure: `CacheSound` (every cached key could be rebuilt without failing)
  is kept by `get`, and by a `configure` without `:aliases`, but not by a `configure` that carries
  `:aliases`. A cached object stays cached when the aliases change, even though a fresh `get`
  might fail under the new aliases. After such a `configure`, the model promises only that `get`
  succeeds when the identifier is `Ready`, not which error it raises.
- TypeLookup.RootedWalks: the model's unguarded walk reaches `nil` at the empty first piece of a
  name with a leading `::` and then raises `NoMethodError`. Ruby raises `NameError` one step
  earlier, because `Object.const_defined?("")` rejects the empty name.
- Resolvers.RootedNameResolvers: the model's stand-alone resolver raises `NoMethodError` on `nil`
  for a name with a leading `::`. Ruby raises `NameError` one step earlier, for the same reason.
- Identifiers are strings. The difference between a Symbol and a String as a hash key is not
  modelled. As a result, in the model `get("db")` and a constructor parameter named `db` share one
  cache entry. In Ruby, `"db"` and `:db` are two different cache keys, so two objects are built.
- The `:aliases` setting may be a hash, a string or `nil`; other kinds of Ruby object are not
  modelled. A string answers `string[identifier]`, which is the identifier itself or `nil`, so
  either way the identifier is kept.
- `lib/ruse/activesupport.rb` delegates to ActiveSupport's `safe_constantize`, whose behaviour is not
  part of this model. The `require` glue of `lib/ruse.rb` is not modelled either.
- The scenarios use identifiers that classify to top-level classes. Namespaced identifiers are
  covered by the lemmas on `classify`, the walks and the class loader, not by the scenarios.
