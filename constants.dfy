/** The Ruby constant table the resolvers search, made explicit: a registry from constant paths
    (`["Ruse", "Injector"]` for `Ruse::Injector`) to scopes and constructible types, each type
    given by its constructor's declared parameters. Also the objects the injector hands out. */
module Constants {
  import opened Failures

  type Path = seq<string>

  /** The kinds Ruby's `Method#parameters` reports. */
  datatype ParamKind = Req | Opt | Rest | KeyReq | Key | KeyRest | Block

  datatype Param = Param(kind: ParamKind, name: string)

  /** A class: the ordered parameters of its `initialize`. */
  datatype TypeDesc = TypeDesc(params: seq<Param>)

  /** What a constant names: a plain module (a scope only) or a class, which is also a scope. */
  datatype Constant = Scope | TypeConst(desc: TypeDesc)

  type Registry = map<Path, Constant>

  /** `Object`, the root scope, is a class whose `initialize` takes no parameters. */
  const ObjectType: TypeDesc := TypeDesc([])

  /** The constant a path names; the empty path is the root scope `Object`. */
  function ConstantAt(reg: Registry, p: Path): Option<Constant> {
    if p == [] then Some(TypeConst(ObjectType)) else if p in reg then Some(reg[p]) else None
  }

  /** The path names a class, which has a constructor. */
  predicate IsClass(reg: Registry, p: Path) {
    ConstantAt(reg, p).Some? && ConstantAt(reg, p).value.TypeConst?
  }

  /** `type.instance_method(:initialize).parameters` of the class at `p`; none for anything else. */
  function ParamsOf(reg: Registry, p: Path): seq<Param> {
    if IsClass(reg, p) then ConstantAt(reg, p).value.desc.params else []
  }

  /** `scope.const_defined?(name)` when `scope` is the constant at `scope`. */
  predicate ConstDefined(reg: Registry, scope: Path, name: string) {
    scope + [name] in reg
  }

  /** An object handed out by the injector: built from a class with the given arguments, or a
      value configured elsewhere. Identity is reference identity. */
  class Instance {
    const typePath: Path
    const args: seq<Instance>

    constructor (typePath: Path, args: seq<Instance>)
      ensures this.typePath == typePath && this.args == args
    {
      this.typePath := typePath;
      this.args := args;
    }
  }

  // -----------------------------------------------------------------------------------------------
  // Ruby's `String#split('::')`

  predicate StartsWithSeparator(s: string) {
    |s| >= 2 && s[0] == ':' && s[1] == ':'
  }

  /** The pieces between the leftmost non-overlapping occurrences of `::`, empty pieces kept. */
  function RawSplit(s: string): (parts: seq<string>)
    ensures |parts| >= 1
    decreases |s|
  {
    if StartsWithSeparator(s) then [""] + RawSplit(s[2..])
    else if s == [] then [""]
    else
      var rest := RawSplit(s[1..]);
      [[s[0]] + rest[0]] + rest[1..]
  }

  /** `parts.join('::')`. */
  function Join(parts: seq<string>): string
    requires |parts| >= 1
  {
    if |parts| == 1 then parts[0] else parts[0] + "::" + Join(parts[1..])
  }

  /** Ruby's `split` drops trailing empty pieces. */
  function DropTrailingEmpty(parts: seq<string>): (r: seq<string>)
    ensures |r| <= |parts| && r == parts[..|r|]
    ensures forall i :: |r| <= i < |parts| ==> parts[i] == ""
    ensures r == [] || r[|r| - 1] != ""
  {
    if parts == [] then []
    else if parts[|parts| - 1] == "" then DropTrailingEmpty(parts[..|parts| - 1])
    else parts
  }

  function Split(s: string): seq<string> {
    DropTrailingEmpty(RawSplit(s))
  }

  /** Ruby constant names are never empty, so no path of the registry has an empty segment. */
  predicate NonEmptyNames(reg: Registry) {
    forall p :: p in reg ==> forall i :: 0 <= i < |p| ==> p[i] != ""
  }

  /** A piece in front of pieces that are not all empty survives the drop. */
  lemma {:induction false} DropTrailingEmptyCons(x: string, parts: seq<string>)
    requires DropTrailingEmpty(parts) != []
    ensures DropTrailingEmpty([x] + parts) == [x] + DropTrailingEmpty(parts)
    decreases |parts|
  {
    var whole := [x] + parts;
    if parts[|parts| - 1] == "" {
      var init := parts[..|parts| - 1];
      assert whole[..|whole| - 1] == [x] + init;
      DropTrailingEmptyCons(x, init);
    }
  }

  /** A text starting with `::` splits into an empty first piece and the pieces of the rest, as
      long as the rest has any. */
  lemma SplitRooted(s: string)
    requires StartsWithSeparator(s) && Split(s[2..]) != []
    ensures Split(s) == [""] + Split(s[2..])
  {
    DropTrailingEmptyCons("", RawSplit(s[2..]));
  }

  /** Splitting loses nothing: joining the pieces gives back the text. */
  lemma {:induction false} JoinRawSplit(s: string)
    ensures Join(RawSplit(s)) == s
    decreases |s|
  {
    if StartsWithSeparator(s) {
      var rest := RawSplit(s[2..]);
      JoinRawSplit(s[2..]);
      assert ([""] + rest)[1..] == rest;
      assert s == "::" + s[2..];
    } else if s != [] {
      var rest := RawSplit(s[1..]);
      JoinRawSplit(s[1..]);
      JoinConsHead(s[0], rest);
      assert s == [s[0]] + s[1..];
    }
  }

  /** Prefixing a character to the first piece prefixes it to the joined text. */
  lemma JoinConsHead(c: char, parts: seq<string>)
    requires |parts| >= 1
    ensures Join([[c] + parts[0]] + parts[1..]) == [c] + Join(parts)
  {
    var consed := [[c] + parts[0]] + parts[1..];
    assert |consed| == |parts| && consed[0] == [c] + parts[0] && consed[1..] == parts[1..];
    if |parts| > 1 {
      var tail := Join(parts[1..]);
      assert Join(consed) == [c] + parts[0] + "::" + tail;
      assert Join(parts) == parts[0] + "::" + tail;
      ConsAssociates(c, parts[0], "::", tail);
    }
  }

  lemma ConsAssociates(c: char, x: string, y: string, z: string)
    ensures [c] + x + y + z == [c] + (x + y + z)
  {
  }

  predicate NoColon(s: string) {
    forall i :: 0 <= i < |s| ==> s[i] != ':'
  }

  /** A piece without `:` in front of `::` is split off whole. */
  lemma {:induction false} RawSplitPiece(a: string, rest: string)
    requires NoColon(a)
    ensures RawSplit(a + "::" + rest) == [a] + RawSplit(rest)
    decreases |a|
  {
    var s := a + "::" + rest;
    if a == [] {
      assert s == "::" + rest;
      assert s[2..] == rest;
    } else {
      assert s[0] == a[0] && !StartsWithSeparator(s);
      assert s[1..] == a[1..] + "::" + rest;
      RawSplitPiece(a[1..], rest);
      assert [a[0]] + a[1..] == a;
    }
  }

  /** A text without `:` is one piece. */
  lemma {:induction false} RawSplitPlain(a: string)
    requires NoColon(a)
    ensures RawSplit(a) == [a]
    decreases |a|
  {
    if a != [] {
      RawSplitPlain(a[1..]);
      assert [a[0]] + a[1..] == a;
    }
  }

  /** A non-empty name without `:` splits into itself alone. */
  lemma SplitName(a: string)
    requires a != [] && NoColon(a)
    ensures Split(a) == [a]
  {
    RawSplitPlain(a);
  }

  /** `"a::b".split('::')` is `["a", "b"]` for non-empty names without `:`. */
  lemma SplitQualified(a: string, b: string)
    requires NoColon(a) && b != [] && NoColon(b)
    ensures Split(a + "::" + b) == [a, b]
  {
    RawSplitPiece(a, b);
    RawSplitPlain(b);
  }

  /** The empty text, and `::` alone, split into no pieces at all. */
  lemma SplitEmpty()
    ensures Split("") == []
    ensures Split("::") == []
  {
    assert RawSplit("::") == [""] + RawSplit("");
  }
}
