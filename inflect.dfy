/** The identifier classifier: the string rewrite that turns a `snake_case` or `a/b` identifier
    into the constant name `PascalCase` or `A::B`. The injector, the stand-alone type resolver and
    the class loader each carry a copy of the same three-step rewrite; it is defined once here. */
module Inflect {

  /** The characters of the regular expression class `[a-z\d]`. */
  predicate IsLowerOrDigit(c: char) {
    'a' <= c <= 'z' || '0' <= c <= '9'
  }

  /** The characters of `[a-z\d]` under the case-insensitive flag. */
  predicate IsAlnum(c: char) {
    IsLowerOrDigit(c) || 'A' <= c <= 'Z'
  }

  predicate IsSeparator(c: char) {
    c == '_' || c == '/'
  }

  function Upcase(c: char): char {
    if 'a' <= c <= 'z' then (c as int - 32) as char else c
  }

  function Downcase(c: char): char {
    if 'A' <= c <= 'Z' then (c as int + 32) as char else c
  }

  function DowncaseAll(s: string): (r: string)
    ensures |r| == |s|
  {
    if s == [] then [] else [Downcase(s[0])] + DowncaseAll(s[1..])
  }

  /** Ruby's `String#capitalize` on ASCII text: first character up, the rest down. */
  function Capitalize(w: string): (r: string)
    ensures |r| == |w|
  {
    if w == [] then [] else [Upcase(w[0])] + DowncaseAll(w[1..])
  }

  /** Length of the leading run of `[a-z\d]` characters of `s` (a greedy match at the start). */
  function LowerRun(s: string): (n: nat)
    ensures n <= |s|
  {
    if s == [] || !IsLowerOrDigit(s[0]) then 0 else 1 + LowerRun(s[1..])
  }

  /** Length of the leading run of alphanumeric characters of `s`. */
  function AlnumRun(s: string): (n: nat)
    ensures n <= |s|
  {
    if s == [] || !IsAlnum(s[0]) then 0 else 1 + AlnumRun(s[1..])
  }

  // Step 1, `sub` of the anchored pattern `^[a-z\d]*` by its capitalization: capitalize the
  // leading run of lower-case letters and digits.
  function CapitalizeHead(s: string): string {
    var k := LowerRun(s);
    Capitalize(s[..k]) + s[k..]
  }

  /** What one separator and the alphanumeric run after it become in step 2. */
  function Replacement(sep: char, run: string): string {
    (if sep == '/' then "/" else "") + Capitalize(run)
  }

  // Step 2, the case-insensitive `gsub` of `(?:_|(\/))([a-z\d]*)`: every `_` or `/` with the
  // alphanumeric run after it becomes the capitalized run, the `/` kept and the `_` dropped.
  function Camelize(s: string): string
    decreases |s|
  {
    if s == [] then []
    else if IsSeparator(s[0]) then
      var k := AlnumRun(s[1..]);
      Replacement(s[0], s[1..1 + k]) + Camelize(s[1 + k..])
    else [s[0]] + Camelize(s[1..])
  }

  /** Step 3, `gsub('/', '::')`. */
  function ExpandSlashes(s: string): string {
    if s == [] then []
    else (if s[0] == '/' then "::" else [s[0]]) + ExpandSlashes(s[1..])
  }

  /** `classify(term)`. */
  function Classify(term: string): string {
    ExpandSlashes(Camelize(CapitalizeHead(term)))
  }

  predicate NoSeparators(s: string) {
    forall i :: 0 <= i < |s| ==> !IsSeparator(s[i])
  }

  predicate AllAlnum(s: string) {
    forall i :: 0 <= i < |s| ==> IsAlnum(s[i])
  }

  predicate AllLowerOrDigit(s: string) {
    forall i :: 0 <= i < |s| ==> IsLowerOrDigit(s[i])
  }

  // ---------------------------------------------------------------------------------------------
  // Character-level facts

  lemma {:induction false} LowerRunSpec(s: string)
    ensures AllLowerOrDigit(s[..LowerRun(s)])
    ensures LowerRun(s) < |s| ==> !IsLowerOrDigit(s[LowerRun(s)])
    decreases |s|
  {
    if s != [] && IsLowerOrDigit(s[0]) {
      LowerRunSpec(s[1..]);
      assert s[..LowerRun(s)] == [s[0]] + s[1..][..LowerRun(s[1..])];
    }
  }

  lemma {:induction false} AlnumRunSpec(s: string)
    ensures AllAlnum(s[..AlnumRun(s)])
    ensures AlnumRun(s) < |s| ==> !IsAlnum(s[AlnumRun(s)])
    decreases |s|
  {
    if s != [] && IsAlnum(s[0]) {
      AlnumRunSpec(s[1..]);
      assert s[..AlnumRun(s)] == [s[0]] + s[1..][..AlnumRun(s[1..])];
    }
  }

  lemma {:induction false} DowncaseAllAlnum(s: string)
    requires AllAlnum(s)
    ensures AllAlnum(DowncaseAll(s))
    decreases |s|
  {
    if s != [] {
      DowncaseAllAlnum(s[1..]);
      assert DowncaseAll(s) == [Downcase(s[0])] + DowncaseAll(s[1..]);
    }
  }

  lemma {:induction false} DowncaseAllLower(s: string)
    requires AllLowerOrDigit(s)
    ensures DowncaseAll(s) == s
    decreases |s|
  {
    if s != [] {
      DowncaseAllLower(s[1..]);
    }
  }

  /** Capitalizing an alphanumeric run yields an alphanumeric run. */
  lemma CapitalizeAlnum(w: string)
    requires AllAlnum(w)
    ensures AllAlnum(Capitalize(w))
  {
    if w != [] {
      DowncaseAllAlnum(w[1..]);
      assert Capitalize(w) == [Upcase(w[0])] + DowncaseAll(w[1..]);
    }
  }

  /** On a run of lower-case letters and digits, `capitalize` only upcases the first character. */
  lemma CapitalizeLowerRun(w: string)
    requires w != [] && AllLowerOrDigit(w)
    ensures Capitalize(w) == [Upcase(w[0])] + w[1..]
  {
    DowncaseAllLower(w[1..]);
  }

  // ---------------------------------------------------------------------------------------------
  // Properties of the steps

  /** Step 2 copies a separator-free prefix unchanged and goes on after it. */
  lemma {:induction false} CamelizePlainPrefix(c: string, t: string)
    requires NoSeparators(c)
    ensures Camelize(c + t) == c + Camelize(t)
    decreases |c|
  {
    if c == [] {
      assert c + t == t;
    } else {
      var s := c + t;
      assert s[0] == c[0] && !IsSeparator(s[0]);
      assert s[1..] == c[1..] + t;
      CamelizePlainPrefix(c[1..], t);
      var tail := Camelize(t);
      assert Camelize(s) == [c[0]] + (c[1..] + tail);
      PrefixConcat(c[0], c[1..], tail);
      assert [c[0]] + c[1..] == c;
    }
  }

  /** One separator step of `Camelize`. */
  lemma CamelizeAtSeparator(s: string)
    requires s != [] && IsSeparator(s[0])
    ensures Camelize(s) == Replacement(s[0], s[1..1 + AlnumRun(s[1..])]) + Camelize(s[1 + AlnumRun(s[1..])..])
  {
  }

  /** Step 2 leaves no `_`. */
  lemma {:induction false} CamelizeDropsUnderscores(s: string)
    ensures forall i :: 0 <= i < |Camelize(s)| ==> Camelize(s)[i] != '_'
    decreases |s|
  {
    if s == [] {
    } else if IsSeparator(s[0]) {
      var k := AlnumRun(s[1..]);
      AlnumRunSpec(s[1..]);
      assert s[1..][..k] == s[1..1 + k];
      CapitalizeAlnum(s[1..1 + k]);
      CamelizeDropsUnderscores(s[1 + k..]);
    } else {
      CamelizeDropsUnderscores(s[1..]);
    }
  }

  /** Step 2 is the identity on text without separators. */
  lemma {:induction false} CamelizeWithoutSeparators(s: string)
    requires NoSeparators(s)
    ensures Camelize(s) == s
    decreases |s|
  {
    if s != [] {
      CamelizeWithoutSeparators(s[1..]);
    }
  }

  /** Step 3 leaves no `/`, adds no `_`, and changes nothing in a text without `/`. */
  lemma {:induction false} ExpandSlashesKeeps(s: string)
    ensures forall i :: 0 <= i < |ExpandSlashes(s)| ==> ExpandSlashes(s)[i] != '/'
    ensures (forall i :: 0 <= i < |s| ==> s[i] != '_') ==>
              forall i :: 0 <= i < |ExpandSlashes(s)| ==> ExpandSlashes(s)[i] != '_'
    ensures (forall i :: 0 <= i < |s| ==> s[i] != '/') ==> ExpandSlashes(s) == s
    decreases |s|
  {
    if s != [] {
      ExpandSlashesKeeps(s[1..]);
    }
  }

  // ---------------------------------------------------------------------------------------------
  // Properties of classify

  /** The output of `classify` contains no `_` and no `/`. */
  lemma ClassifyHasNoSeparators(term: string)
    ensures NoSeparators(Classify(term))
  {
    CamelizeDropsUnderscores(CapitalizeHead(term));
    ExpandSlashesKeeps(Camelize(CapitalizeHead(term)));
  }

  /** Step 1 changes only the first character of a term, which it upcases. */
  lemma CapitalizeHeadOfPlain(term: string)
    requires term != []
    ensures CapitalizeHead(term) == [Upcase(term[0])] + term[1..]
  {
    var k := LowerRun(term);
    LowerRunSpec(term);
    var w, rest := term[..k], term[k..];
    assert CapitalizeHead(term) == Capitalize(w) + rest;
    if k == 0 {
      assert !IsLowerOrDigit(term[0]) && Upcase(term[0]) == term[0];
      assert Capitalize(w) == [] && rest == term;
      assert term == [term[0]] + term[1..];
    } else {
      CapitalizeLowerRun(w);
      assert w[0] == term[0];
      assert w[1..] + rest == term[1..];
      PrefixConcat(Upcase(term[0]), w[1..], rest);
    }
  }

  lemma PrefixConcat(c: char, x: string, y: string)
    ensures [c] + x + y == [c] + (x + y)
  {
  }

  /** A term without `_` and `/` changes at most in its first character, which is upcased. */
  lemma ClassifyWithoutSeparators(term: string)
    requires NoSeparators(term)
    ensures term == [] ==> Classify(term) == []
    ensures term != [] ==> Classify(term) == [Upcase(term[0])] + term[1..]
  {
    if term != [] {
      CapitalizeHeadOfPlain(term);
      var h := CapitalizeHead(term);
      assert NoSeparators(h) by {
        assert forall i :: 1 <= i < |h| ==> h[i] == term[i];
      }
      CamelizeWithoutSeparators(h);
      ExpandSlashesKeeps(h);
    }
  }

  /** Step 1 changes nothing when the first character is not a lower-case letter. */
  lemma CapitalizeHeadFixed(s: string)
    requires s == [] || !('a' <= s[0] <= 'z')
    ensures CapitalizeHead(s) == s
  {
    if s != [] {
      CapitalizeHeadOfPlain(s);
    }
  }

  /** Step 2 never produces a text that starts with a lower-case letter from one that does not. */
  lemma {:induction false} CamelizeHeadNotLower(s: string)
    requires s == [] || !('a' <= s[0] <= 'z')
    ensures Camelize(s) == [] || !('a' <= Camelize(s)[0] <= 'z')
    decreases |s|
  {
    if s != [] && IsSeparator(s[0]) {
      if s[0] == '/' {
        CamelizeSlashHead(s);
      } else if AlnumRun(s[1..]) == 0 {
        assert s == ['_'] + s[1..];
        CamelizeEmptyRun(s[1..]);
        CamelizeHeadNotLower(s[1..]);
      } else {
        CamelizeRunHead(s);
      }
    }
  }

  lemma CamelizeSlashHead(s: string)
    requires s != [] && s[0] == '/'
    ensures Camelize(s) != [] && Camelize(s)[0] == '/'
  {
    CamelizeAtSeparator(s);
  }

  lemma CamelizeEmptyRun(t: string)
    requires AlnumRun(t) == 0
    ensures Camelize(['_'] + t) == Camelize(t)
    ensures t == [] || !('a' <= t[0] <= 'z')
  {
    var s := ['_'] + t;
    assert s[1..] == t && s[1..1] == [];
    CamelizeAtSeparator(s);
    assert Replacement('_', []) == [];
  }

  lemma CamelizeRunHead(s: string)
    requires s != [] && s[0] == '_' && AlnumRun(s[1..]) > 0
    ensures Camelize(s) != [] && Camelize(s)[0] == Upcase(s[1])
  {
    var k := AlnumRun(s[1..]);
    CamelizeAtSeparator(s);
    assert Replacement(s[0], s[1..1 + k]) == Capitalize(s[1..1 + k]);
  }

  /** `classify` is idempotent: a term already in constant-name form is echoed. */
  lemma ClassifyIdempotent(term: string)
    ensures Classify(Classify(term)) == Classify(term)
  {
    var h := CapitalizeHead(term);
    assert h == [] || !('a' <= h[0] <= 'z') by {
      if term != [] {
        var k := LowerRun(term);
        if k > 0 {
          assert h[0] == Capitalize(term[..k])[0] == Upcase(term[0]);
        } else {
          assert h == term[k..] == term;
          LowerRunSpec(term);
        }
      }
    }
    CamelizeHeadNotLower(h);
    var c := Camelize(h);
    var t := Classify(term);
    assert t == [] || !('a' <= t[0] <= 'z') by {
      if c != [] {
        assert ExpandSlashes(c) == (if c[0] == '/' then "::" else [c[0]]) + ExpandSlashes(c[1..]);
      }
    }
    ClassifyHasNoSeparators(term);
    CapitalizeHeadFixed(t);
    CamelizeWithoutSeparators(t);
    ExpandSlashesKeeps(t);
  }

  // ---------------------------------------------------------------------------------------------
  // The documented conversions

  lemma {:induction false} LowerRunOfWord(w: string, r: string)
    requires AllLowerOrDigit(w)
    requires r == [] || !IsLowerOrDigit(r[0])
    ensures LowerRun(w + r) == |w|
    decreases |w|
  {
    if w == [] {
      assert w + r == r;
    } else {
      assert (w + r)[1..] == w[1..] + r;
      LowerRunOfWord(w[1..], r);
    }
  }

  lemma {:induction false} AlnumRunOfWord(w: string, r: string)
    requires AllAlnum(w)
    requires r == [] || !IsAlnum(r[0])
    ensures AlnumRun(w + r) == |w|
    decreases |w|
  {
    if w == [] {
      assert w + r == r;
    } else {
      assert (w + r)[1..] == w[1..] + r;
      AlnumRunOfWord(w[1..], r);
    }
  }

  /** Step 1 on a term that starts with the run `w`. */
  lemma CapitalizeHeadOfWord(w: string, r: string)
    requires AllLowerOrDigit(w)
    requires r == [] || !IsLowerOrDigit(r[0])
    ensures CapitalizeHead(w + r) == Capitalize(w) + r
  {
    LowerRunOfWord(w, r);
    assert (w + r)[..|w|] == w;
    assert (w + r)[|w|..] == r;
  }

  /** Step 2 on a separator followed by the alphanumeric run `w`. */
  lemma CamelizeSeparatedWord(sep: char, w: string, r: string)
    requires IsSeparator(sep)
    requires AllAlnum(w)
    requires r == [] || !IsAlnum(r[0])
    ensures Camelize([sep] + w + r) == Replacement(sep, w) + Camelize(r)
  {
    var s := [sep] + w + r;
    assert s[1..] == w + r;
    AlnumRunOfWord(w, r);
    assert s[1..1 + |w|] == w;
    assert s[1 + |w|..] == r;
  }

  lemma AlnumHasNoSeparators(s: string)
    requires AllAlnum(s)
    ensures NoSeparators(s)
    ensures forall i :: 0 <= i < |s| ==> s[i] != '_' && s[i] != '/'
  {
  }

  /** Step 2 on a separator-free text followed by one separated alphanumeric run. */
  lemma CamelizeWordThenRun(c: string, sep: char, w: string)
    requires NoSeparators(c) && IsSeparator(sep) && AllAlnum(w)
    ensures Camelize(c + ([sep] + w)) == c + Replacement(sep, w)
  {
    CamelizePlainPrefix(c, [sep] + w);
    assert [sep] + w == [sep] + w + [];
    CamelizeSeparatedWord(sep, w, []);
  }

  /** Steps 1 and 2 on `w1` followed by one separated run `w2`. */
  lemma CamelizePair(w1: string, sep: char, w2: string)
    requires w1 != [] && AllLowerOrDigit(w1) && IsSeparator(sep) && AllAlnum(w2)
    ensures Camelize(CapitalizeHead(w1 + ([sep] + w2))) == Capitalize(w1) + Replacement(sep, w2)
  {
    CapitalizeHeadOfWord(w1, [sep] + w2);
    assert AllAlnum(w1);
    CapitalizeAlnum(w1);
    AlnumHasNoSeparators(Capitalize(w1));
    CamelizeWordThenRun(Capitalize(w1), sep, w2);
  }

  /** Two snake-case words: `w1_w2` becomes `W1W2`. */
  lemma ClassifySnakePair(w1: string, w2: string)
    requires w1 != [] && AllLowerOrDigit(w1) && AllAlnum(w2)
    ensures Classify(w1 + ("_" + w2)) == Capitalize(w1) + Capitalize(w2)
  {
    CamelizePair(w1, '_', w2);
    assert Replacement('_', w2) == Capitalize(w2);
    var c := Capitalize(w1) + Capitalize(w2);
    assert AllAlnum(c) by {
      assert AllAlnum(w1);
      CapitalizeAlnum(w1);
      CapitalizeAlnum(w2);
    }
    AlnumHasNoSeparators(c);
    ExpandSlashesKeeps(c);
  }

  /** A namespaced pair: `w1/w2` becomes `W1::W2`. */
  lemma ClassifyNamespacePair(w1: string, w2: string)
    requires w1 != [] && AllLowerOrDigit(w1) && AllAlnum(w2)
    ensures Classify(w1 + ("/" + w2)) == Capitalize(w1) + "::" + Capitalize(w2)
  {
    CamelizePair(w1, '/', w2);
    var c1, c2 := Capitalize(w1), Capitalize(w2);
    assert AllAlnum(w1);
    CapitalizeAlnum(w1);
    CapitalizeAlnum(w2);
    AlnumHasNoSeparators(c1);
    AlnumHasNoSeparators(c2);
    assert c1 + Replacement('/', w2) == c1 + ("/" + c2);
    ExpandSlashesAppend(c1, "/" + c2);
    ExpandSlashesKeeps(c1);
    ExpandSlashesAppend("/", c2);
    ExpandSlashesKeeps(c2);
  }

  lemma {:induction false} ExpandSlashesAppend(a: string, b: string)
    ensures ExpandSlashes(a + b) == ExpandSlashes(a) + ExpandSlashes(b)
    decreases |a|
  {
    if a == [] {
      assert a + b == b;
    } else {
      assert (a + b)[0] == a[0];
      assert (a + b)[1..] == a[1..] + b;
      ExpandSlashesAppend(a[1..], b);
    }
  }

  /** The documented conversion of a snake-case term: `camel_case` becomes `CamelCase`. */
  lemma ClassifySnakeCaseExample()
    ensures Classify("camel_case") == "CamelCase"
  {
    SnakeCaseWords();
    ClassifySnakePair("camel", "case");
  }

  /** The pieces of `camel_case` and their capitalizations. */
  lemma SnakeCaseWords()
    ensures "camel_case" == "camel" + ("_" + "case") && "Camel" + "Case" == "CamelCase"
    ensures AllLowerOrDigit("camel") && AllAlnum("case")
    ensures Capitalize("camel") == "Camel" && Capitalize("case") == "Case"
  {
  }

  /** The documented echo of a term already in constant-name form. */
  lemma ClassifyPascalCaseExample()
    ensures Classify("PascalCase") == "PascalCase"
  {
    ClassifyWithoutSeparators("PascalCase");
  }

  /** A `/` becomes the namespace separator `::`. */
  lemma ClassifyNamespacedExample()
    ensures Classify("ns/foo") == "Ns::Foo"
  {
    NamespacedWords();
    ClassifyNamespacePair("ns", "foo");
  }

  /** The pieces of `ns/foo` and their capitalizations. */
  lemma NamespacedWords()
    ensures "ns/foo" == "ns" + ("/" + "foo") && "Ns" + "::" + "Foo" == "Ns::Foo"
    ensures AllLowerOrDigit("ns") && AllAlnum("foo")
    ensures Capitalize("ns") == "Ns" && Capitalize("foo") == "Foo"
  {
  }
}
