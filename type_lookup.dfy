/** Looking a type name up in the constant registry: the segment walks of the stand-alone type
    resolver and of the class loader, and the class loader's search of its namespaces. */
module TypeLookup {
  import opened Failures
  import opened Constants
  import opened Inflect

  /** Outcome of the type resolver's fold: the constant found, `nil` for a missing last segment,
      or the `NoMethodError` of sending `const_defined?` to `nil`. */
  datatype Walk = Found(path: Path) | Missing | NilReceiver(segment: string)

  /** The type resolver's fold over the segments from `scope`: it has no guard for `nil`, so a
      missing segment that is not the last makes the next step fail. */
  function WalkUnguarded(reg: Registry, scope: Path, segs: seq<string>): Walk
    decreases |segs|
  {
    if segs == [] then Found(scope)
    else if ConstDefined(reg, scope, segs[0]) then WalkUnguarded(reg, scope + [segs[0]], segs[1..])
    else if |segs| == 1 then Missing
    else NilReceiver(segs[1])
  }

  /** The class loader's fold: `nil` as soon as any segment is undefined. */
  function WalkGuarded(reg: Registry, scope: Path, segs: seq<string>): Option<Path>
    decreases |segs|
  {
    if segs == [] then Some(scope)
    else if ConstDefined(reg, scope, segs[0]) then WalkGuarded(reg, scope + [segs[0]], segs[1..])
    else None
  }

  /** Every step of the path `scope + segs` names a constant. */
  predicate AllStepsDefined(reg: Registry, scope: Path, segs: seq<string>) {
    forall k :: 1 <= k <= |segs| ==> scope + segs[..k] in reg
  }

  /** The guarded walk finds `scope + segs` exactly when every step along it is defined. */
  lemma {:induction false} WalkGuardedSpec(reg: Registry, scope: Path, segs: seq<string>)
    ensures WalkGuarded(reg, scope, segs) ==
              if AllStepsDefined(reg, scope, segs) then Some(scope + segs) else None
    decreases |segs|
  {
    if segs != [] {
      var next := scope + [segs[0]];
      assert scope + segs[..1] == next;
      WalkGuardedSpec(reg, next, segs[1..]);
      assert scope + segs == next + segs[1..];
      forall k | 1 <= k <= |segs[1..]|
        ensures next + segs[1..][..k] == scope + segs[..k + 1]
      {
        assert segs[..k + 1] == [segs[0]] + segs[1..][..k];
      }
      if ConstDefined(reg, scope, segs[0]) && AllStepsDefined(reg, next, segs[1..]) {
        forall k | 1 <= k <= |segs|
          ensures scope + segs[..k] in reg
        {
          if k > 1 {
            assert next + segs[1..][..k - 1] == scope + segs[..k];
          }
        }
      }
      if AllStepsDefined(reg, scope, segs) {
        forall k | 1 <= k <= |segs[1..]|
          ensures next + segs[1..][..k] in reg
        {
          assert scope + segs[..k + 1] in reg;
        }
      }
    } else {
      assert scope + segs == scope;
    }
  }

  /** The two folds agree wherever the unguarded one does not fail, and it fails only when the
      guarded one gives `nil`. The unguarded fold is `nil` exactly when every segment but the last
      is defined and the last is not; a missing earlier segment is an error for the type resolver. */
  lemma {:induction false} WalksAgree(reg: Registry, scope: Path, segs: seq<string>)
    ensures WalkUnguarded(reg, scope, segs).Found? <==> WalkGuarded(reg, scope, segs).Some?
    ensures WalkUnguarded(reg, scope, segs).Found? ==>
              WalkUnguarded(reg, scope, segs).path == WalkGuarded(reg, scope, segs).value
    ensures WalkUnguarded(reg, scope, segs).Missing? <==>
              |segs| >= 1 && scope + segs !in reg &&
              WalkGuarded(reg, scope, segs[..|segs| - 1]).Some?
    decreases |segs|
  {
    if segs != [] && ConstDefined(reg, scope, segs[0]) {
      var next := scope + [segs[0]];
      WalksAgree(reg, next, segs[1..]);
      assert scope + segs == next + segs[1..];
      if |segs| == 1 {
        assert scope + segs == next;
      } else {
        assert segs[..|segs| - 1][0] == segs[0];
        assert segs[..|segs| - 1][1..] == segs[1..][..|segs[1..]| - 1];
      }
    } else if |segs| == 1 {
      assert scope + segs == scope + [segs[0]];
    } else if |segs| > 1 {
      assert segs[..|segs| - 1][0] == segs[0];
    }
  }

  /** A path the walk finds names a constant. */
  lemma WalkFindsConstant(reg: Registry, segs: seq<string>)
    requires WalkGuarded(reg, [], segs).Some?
    ensures ConstantAt(reg, WalkGuarded(reg, [], segs).value).Some?
  {
    WalkGuardedSpec(reg, [], segs);
    assert [] + segs == segs;
    if segs != [] {
      assert [] + segs[..|segs|] == segs;
      assert segs in reg;
    }
  }

  /** `load_type` of the stand-alone type resolver. */
  function LoadTypeUnguarded(reg: Registry, typeName: string): Walk {
    WalkUnguarded(reg, [], Split(typeName))
  }

  /** The stand-alone `load_type` is `nil` exactly when every segment but the last is defined and
      the last is not. */
  lemma {:induction false} LoadTypeUnguardedMissing(reg: Registry, typeName: string)
    ensures LoadTypeUnguarded(reg, typeName).Missing? <==>
              |Split(typeName)| >= 1 && Split(typeName) !in reg &&
              WalkGuarded(reg, [], Split(typeName)[..|Split(typeName)| - 1]).Some?
  {
    WalksAgree(reg, [], Split(typeName));
    assert [] + Split(typeName) == Split(typeName);
  }

  /** `load_type` of the class loader. */
  function LoadType(reg: Registry, typeName: string): Option<Path> {
    WalkGuarded(reg, [], Split(typeName))
  }

  /** The segments `Object.const_defined?` and `Object.const_get` walk for a qualified name: a
      leading `::` with a name after it only says that the lookup starts at `Object`, and is
      dropped. */
  function RootedSegments(typeName: string): seq<string> {
    if StartsWithSeparator(typeName) && |typeName| > 2 then Split(typeName[2..]) else Split(typeName)
  }

  /** `Object.const_defined?(typeName)`, and `Object.const_get(typeName)` where that holds, as the
      resolver inside the injector asks them. */
  function LoadQualified(reg: Registry, typeName: string): Option<Path> {
    WalkGuarded(reg, [], RootedSegments(typeName))
  }

  /** A name starting with `::`: `const_defined?` looks the rest up from `Object`. In the model the
      stand-alone fold asks `Object` for the empty first piece, which names no constant, and then
      sends `const_defined?` to `nil`; Ruby raises `NameError` one step earlier, at the empty
      piece. */
  lemma RootedWalks(reg: Registry, typeName: string)
    requires NonEmptyNames(reg)
    requires StartsWithSeparator(typeName) && Split(typeName[2..]) != []
    ensures LoadQualified(reg, typeName) == LoadType(reg, typeName[2..])
    ensures LoadTypeUnguarded(reg, typeName) == NilReceiver(Split(typeName[2..])[0])
  {
    SplitEmpty();
    assert |typeName| > 2;
    SplitRooted(typeName);
    var segs := Split(typeName);
    assert segs[0] == "" && segs[1] == Split(typeName[2..])[0];
    assert [] + [""] == [""];
  }

  /** A name with no segments is the root scope itself, for both folds. */
  lemma EmptyTypeNameIsRoot(reg: Registry)
    ensures LoadType(reg, "") == Some([])
    ensures LoadTypeUnguarded(reg, "") == Found([])
  {
    SplitEmpty();
  }

  /** The class loader's search after the root: `ns::typeName` for each namespace in order. */
  function SearchNamespaces(reg: Registry, namespaces: seq<string>, typeName: string): Option<Path>
    decreases |namespaces|
  {
    if namespaces == [] then None
    else match LoadType(reg, namespaces[0] + "::" + typeName)
      case Some(p) => Some(p)
      case None => SearchNamespaces(reg, namespaces[1..], typeName)
  }

  /** `try_load_type`: the root first, then the namespaces. */
  function SearchScopes(reg: Registry, namespaces: seq<string>, typeName: string): Option<Path> {
    match LoadType(reg, typeName)
    case Some(p) => Some(p)
    case None => SearchNamespaces(reg, namespaces, typeName)
  }

  /** The namespace search returns the first namespace, in list order, under which the name is
      found, and `nil` exactly when it is found under none. */
  lemma {:induction false} SearchNamespacesSpec(reg: Registry, namespaces: seq<string>, typeName: string)
    ensures SearchNamespaces(reg, namespaces, typeName).None? <==>
              forall i :: 0 <= i < |namespaces| ==> LoadType(reg, namespaces[i] + "::" + typeName).None?
    ensures SearchNamespaces(reg, namespaces, typeName).Some? ==>
              exists i :: 0 <= i < |namespaces| &&
                LoadType(reg, namespaces[i] + "::" + typeName) == SearchNamespaces(reg, namespaces, typeName) &&
                forall j :: 0 <= j < i ==> LoadType(reg, namespaces[j] + "::" + typeName).None?
    decreases |namespaces|
  {
    if namespaces != [] {
      var tail := namespaces[1..];
      SearchNamespacesSpec(reg, tail, typeName);
      if LoadType(reg, namespaces[0] + "::" + typeName).None? {
        assert forall i :: 1 <= i < |namespaces| ==> namespaces[i] == tail[i - 1];
        if SearchNamespaces(reg, tail, typeName).Some? {
          var i :| 0 <= i < |tail| &&
            LoadType(reg, tail[i] + "::" + typeName) == SearchNamespaces(reg, tail, typeName) &&
            forall j :: 0 <= j < i ==> LoadType(reg, tail[j] + "::" + typeName).None?;
          assert namespaces[i + 1] == tail[i];
          assert forall j :: 1 <= j < i + 1 ==> namespaces[j] == tail[j - 1];
        }
      }
    }
  }

  /** Whatever the namespace search finds names a constant. */
  lemma {:induction false} SearchNamespacesFindsConstant(reg: Registry, namespaces: seq<string>, typeName: string)
    requires SearchNamespaces(reg, namespaces, typeName).Some?
    ensures ConstantAt(reg, SearchNamespaces(reg, namespaces, typeName).value).Some?
    decreases |namespaces|
  {
    var full := namespaces[0] + "::" + typeName;
    if LoadType(reg, full).Some? {
      WalkFindsConstant(reg, Split(full));
    } else {
      SearchNamespacesFindsConstant(reg, namespaces[1..], typeName);
    }
  }

  /** Whatever the root-then-namespaces search finds names a constant. */
  lemma SearchScopesFindsConstant(reg: Registry, namespaces: seq<string>, typeName: string)
    requires SearchScopes(reg, namespaces, typeName).Some?
    ensures ConstantAt(reg, SearchScopes(reg, namespaces, typeName).value).Some?
  {
    if LoadType(reg, typeName).Some? {
      WalkFindsConstant(reg, Split(typeName));
    } else {
      SearchNamespacesFindsConstant(reg, namespaces, typeName);
    }
  }

  /** `ClassLoader`: classifies an identifier and searches the root, then its namespaces. */
  datatype ClassLoader = ClassLoader(namespaces: seq<string>) {

    /** `load(identifier)`. */
    function Load(reg: Registry, identifier: string): Option<Path> {
      SearchScopes(reg, namespaces, Classify(identifier))
    }

    /** `try_load_type`: the loop over the namespaces with its early returns. */
    method TryLoadType(reg: Registry, typeName: string) returns (loaded: Option<Path>)
      ensures loaded == SearchScopes(reg, namespaces, typeName)
    {
      loaded := LoadType(reg, typeName);
      if loaded.Some? {
        return;
      }
      var i := 0;
      while i < |namespaces|
        invariant 0 <= i <= |namespaces|
        invariant SearchScopes(reg, namespaces, typeName) == SearchNamespaces(reg, namespaces[i..], typeName)
      {
        loaded := LoadType(reg, namespaces[i] + "::" + typeName);
        if loaded.Some? {
          return;
        }
        i := i + 1;
      }
      loaded := None;
    }
  }

  /** `load` tries the bare name at the root first; a name found there wins. */
  lemma LoadPrefersRoot(loader: ClassLoader, reg: Registry, identifier: string)
    requires LoadType(reg, Classify(identifier)).Some?
    ensures loader.Load(reg, identifier) == LoadType(reg, Classify(identifier))
  {
  }

  /** With no namespaces, `load` is a lookup at the root only. */
  lemma LoadWithoutNamespaces(reg: Registry, identifier: string)
    ensures ClassLoader([]).Load(reg, identifier) == LoadType(reg, Classify(identifier))
  {
  }

  /** `load` is `nil` exactly when the name is found neither at the root nor under any namespace. */
  lemma LoadNilIff(loader: ClassLoader, reg: Registry, identifier: string)
    ensures loader.Load(reg, identifier).None? <==>
              LoadType(reg, Classify(identifier)).None? &&
              forall i :: 0 <= i < |loader.namespaces| ==>
                LoadType(reg, loader.namespaces[i] + "::" + Classify(identifier)).None?
  {
    SearchNamespacesSpec(reg, loader.namespaces, Classify(identifier));
  }
}
