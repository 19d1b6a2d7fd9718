/** The builder generator: for each curated Swing class it derives the DSL function's name
    and type-parameter declarations, groups the classes by their package below
    `javax.swing`, and writes one `SwingBuilders.kt` per group into the matching package
    below `ca.weblite.ktswing`. */
module CodeGen {
  import opened Text

  /** A type variable of a generic class: its name and the `typeName`s of its bounds. */
  datatype TypeVar = TypeVar(name: string, bounds: seq<string>)

  /** A loaded Swing class as the generator reads it. */
  datatype SwingClass = SwingClass(name: string, packageName: string, simpleName: string, typeParams: seq<TypeVar>)

  /** `isUpperCase()` and `lowercase()` on a single character, for the ASCII letters. */
  predicate IsUpper(c: char) {
    'A' <= c <= 'Z'
  }

  function Lower(c: char): (r: char)
    ensures !IsUpper(r)
    ensures IsUpper(c) ==> r as int == c as int + 32
    ensures !IsUpper(c) ==> r == c
  {
    if IsUpper(c) then (c as int + 32) as char else c
  }

  function Upper(c: char): char {
    if 'a' <= c <= 'z' then (c as int - 32) as char else c
  }

  /** `replaceFirstChar { it.lowercase() }`. */
  function LowerFirst(s: string): (r: string)
    ensures |r| == |s| && (s != [] ==> r[0] == Lower(s[0]) && r[1..] == s[1..])
  {
    if s == [] then s else [Lower(s[0])] + s[1..]
  }

  /** The builder-function name rule: a `J` followed by an upper-case letter loses the `J`. */
  predicate DropsJ(simpleName: string) {
    |simpleName| >= 2 && simpleName[0] == 'J' && IsUpper(simpleName[1])
  }

  /** `deriveFunctionName(simpleName)`. */
  function DeriveFunctionName(simpleName: string): (r: string)
    ensures DropsJ(simpleName) ==> |r| == |simpleName| - 1 && r[1..] == simpleName[2..]
    ensures !DropsJ(simpleName) ==> |r| == |simpleName| && (r != [] ==> r[1..] == simpleName[1..])
    ensures r != [] ==> !IsUpper(r[0])
  {
    if DropsJ(simpleName) then LowerFirst(simpleName[1..]) else LowerFirst(simpleName)
  }

  /** For a class named `J` plus an upper-case letter, the builder name gives the class name
      back: upper-case its first letter and put the `J` in front. */
  lemma FunctionNameRecoversClass(simpleName: string)
    requires DropsJ(simpleName)
    ensures var r := DeriveFunctionName(simpleName); "J" + [Upper(r[0])] + r[1..] == simpleName
  {
    var r := DeriveFunctionName(simpleName);
    assert Upper(r[0]) == simpleName[1];
    assert simpleName == [simpleName[0]] + [simpleName[1]] + simpleName[2..];
  }

  /** Any other name keeps its characters after the first, which is lower-cased. */
  lemma FunctionNameOtherwise(simpleName: string)
    requires !DropsJ(simpleName) && simpleName != []
    ensures DeriveFunctionName(simpleName) == [Lower(simpleName[0])] + simpleName[1..]
  {
  }

  lemma FunctionNameExamples()
    ensures DeriveFunctionName("JButton") == "button"
    ensures DeriveFunctionName("JComboBox") == "comboBox"
    ensures DeriveFunctionName("Box") == "box"
    ensures DeriveFunctionName("Jx") == "jx"
    ensures DeriveFunctionName("") == ""
  {
    assert DropsJ("JButton") && DropsJ("JComboBox");
    assert "JButton"[1..] == "Button" && "JComboBox"[1..] == "ComboBox";
    assert "Button"[1..] == "utton" && "ComboBox"[1..] == "omboBox" && "Box"[1..] == "ox";
  }

  /** `buildTypeParamDecl(typeVar)`. */
  function BuildTypeParamDecl(tv: TypeVar): (r: string)
    ensures |r| >= |tv.name| && r[..|tv.name|] == tv.name
  {
    if |tv.bounds| == 1 then
      if tv.bounds[0] == "java.lang.Object" then tv.name
      else tv.name + " : " + SubstringAfterLast(tv.bounds[0], '.')
    else tv.name
  }

  /** The declaration is the bare name unless there is exactly one bound other than
      `java.lang.Object`; then it is the name, " : " and the bound's simple name, which is
      the bound's text after its last dot and holds no dot. */
  lemma TypeParamDeclShape(tv: TypeVar)
    ensures BuildTypeParamDecl(tv) != tv.name <==> |tv.bounds| == 1 && tv.bounds[0] != "java.lang.Object"
    ensures BuildTypeParamDecl(tv) != tv.name ==>
      var simple := BuildTypeParamDecl(tv)[|tv.name| + 3..];
      && BuildTypeParamDecl(tv)[|tv.name|..|tv.name| + 3] == " : "
      && '.' !in simple
      && simple == tv.bounds[0][|tv.bounds[0]| - |simple|..]
      && (simple == tv.bounds[0] || tv.bounds[0][|tv.bounds[0]| - |simple| - 1] == '.')
  {
    if |tv.bounds| == 1 && tv.bounds[0] != "java.lang.Object" {
      var r := BuildTypeParamDecl(tv);
      var simple := SubstringAfterLast(tv.bounds[0], '.');
      assert r[|tv.name| + 3..] == simple;
      assert r[|tv.name|..|tv.name| + 3] == " : ";
    }
  }

  /** The simple name of a qualified name is the part after its last dot. */
  lemma AfterLastDot(pkg: string, simple: string)
    requires '.' !in simple
    ensures SubstringAfterLast(pkg + "." + simple, '.') == simple
  {
    var s := pkg + "." + simple;
    assert s[|s| - |simple| - 1] == '.';
    assert s[|s| - |simple|..] == simple;
  }

  lemma TypeParamDeclExamples()
    ensures BuildTypeParamDecl(TypeVar("E", ["java.lang.Object"])) == "E"
    ensures BuildTypeParamDecl(TypeVar("T", [])) == "T"
    ensures BuildTypeParamDecl(TypeVar("T", ["A", "B"])) == "T"
  {
  }

  /** A single bound `pkg.Simple` other than Object is declared as `name : Simple`. */
  lemma QualifiedBoundDecl(name: string, pkg: string, simple: string)
    requires '.' !in simple && pkg + "." + simple != "java.lang.Object"
    ensures BuildTypeParamDecl(TypeVar(name, [pkg + "." + simple])) == name + " : " + simple
  {
    AfterLastDot(pkg, simple);
  }

  /** The key a class's package is grouped under: its package with `javax.swing` and then
      a `.` removed from the front. */
  function SubPackage(packageName: string): (r: string)
    ensures packageName == "javax.swing" ==> r == ""
    ensures StartsWith(packageName, "javax.swing.") ==> packageName == "javax.swing." + r
    ensures !StartsWith(packageName, "javax.swing") && !StartsWith(packageName, ".") ==> r == packageName
  {
    var once := RemovePrefix(packageName, "javax.swing");
    if StartsWith(packageName, "javax.swing.") then
      assert packageName[..11] == "javax.swing";
      assert once == packageName[11..];
      assert StartsWith(once, ".");
      RemovePrefix(once, ".")
    else
      RemovePrefix(once, ".")
  }

  /** The package the group's builders are written into. */
  function NewPackage(subPkg: string): (r: string)
    ensures StartsWith(r, "ca.weblite.ktswing")
  {
    "ca.weblite.ktswing" + (if subPkg != "" then "." + subPkg else "")
  }

  /** The Swing package a group's classes come from, as named in the generated file. */
  function SwingPackage(subPkg: string): string {
    "javax.swing" + (if subPkg != "" then "." + subPkg else "")
  }

  /** Every group key is given back by the Swing package written for it. */
  lemma SwingPackageInverse(subPkg: string)
    ensures SubPackage(SwingPackage(subPkg)) == subPkg
  {
    var r := SwingPackage(subPkg);
    assert subPkg != "" ==> r == "javax.swing." + subPkg && StartsWith(r, "javax.swing.");
  }

  /** The directory of a package: its dots replaced by slashes. */
  function PackagePath(pkg: string): (r: string)
    ensures |r| == |pkg| && '.' !in r
  {
    ReplaceChar(pkg, '.', '/')
  }

  /** A package `javax.swing` or below it is given back by its group key. */
  lemma SubPackageRoundTrip(packageName: string)
    requires packageName == "javax.swing" || (StartsWith(packageName, "javax.swing.") && |packageName| > 12)
    ensures SwingPackage(SubPackage(packageName)) == packageName
  {
    var once := RemovePrefix(packageName, "javax.swing");
    assert packageName == "javax.swing" + once;
    if packageName != "javax.swing" {
      assert packageName[..12] == "javax.swing.";
      assert once == packageName[11..];
      assert StartsWith(once, ".");
      var sub := SubPackage(packageName);
      assert once == "." + sub;
    }
  }

  lemma SubPackageExamples()
    ensures SubPackage("javax.swing") == ""
    ensures SubPackage("javax.swing.text") == "text"
  {
    var top, text := "javax.swing", "javax.swing.text";
    assert text[..11] == top;
    var once := RemovePrefix(text, top);
    assert once == text[11..];
    assert once[..1] == ".";
  }

  /** Two different group keys are written to two different directories, so no group's
      file overwrites another's (package names hold no slash). */
  lemma DistinctGroupsDistinctPaths(a: string, b: string)
    requires a != b && '/' !in a && '/' !in b
    ensures PackagePath(NewPackage(a)) != PackagePath(NewPackage(b))
  {
    var pa, pb := NewPackage(a), NewPackage(b);
    if |pa| == |pb| {
      assert a != "" && b != "" && |a| == |b|;
      var k :| 0 <= k < |a| && a[k] != b[k];
      var i := 19 + k;
      assert pa[i] == a[k] && pb[i] == b[k];
      assert PackagePath(pa)[i] != PackagePath(pb)[i];
    }
  }

  /** The group a class belongs to. */
  function Key(c: SwingClass): string {
    SubPackage(c.packageName)
  }

  /** The classes of a list that fall in the group `key`, in list order. */
  function Members(cs: seq<SwingClass>, key: string): (r: seq<SwingClass>)
    ensures |r| <= |cs|
  {
    if cs == [] then []
    else Members(cs[..|cs| - 1], key) + (if Key(cs[|cs| - 1]) == key then [cs[|cs| - 1]] else [])
  }

  /** The group keys of a list in order of first appearance. */
  function KeyOrder(cs: seq<SwingClass>): (r: seq<string>)
  {
    if cs == [] then []
    else
      var init := KeyOrder(cs[..|cs| - 1]);
      var last := Key(cs[|cs| - 1]);
      if last in init then init else init + [last]
  }

  /** A group holds exactly the list's classes with that key. */
  lemma {:induction false} MembersIn(cs: seq<SwingClass>, key: string, c: SwingClass)
    ensures c in Members(cs, key) <==> c in cs && Key(c) == key
  {
    if cs != [] {
      var init, last := cs[..|cs| - 1], cs[|cs| - 1];
      MembersIn(init, key, c);
      assert Members(cs, key) == Members(init, key) + (if Key(last) == key then [last] else []);
      assert c in cs <==> c in init || c == last by {
        assert cs == init + [last];
      }
    }
  }

  /** Every class's key is among the keys. */
  lemma {:induction false} KeyOrderCovers(cs: seq<SwingClass>, c: SwingClass)
    requires c in cs
    ensures Key(c) in KeyOrder(cs)
  {
    var init := cs[..|cs| - 1];
    assert cs == init + [cs[|cs| - 1]];
    if c != cs[|cs| - 1] {
      KeyOrderCovers(init, c);
    }
  }

  /** No key is listed twice. */
  lemma {:induction false} KeyOrderDistinct(cs: seq<SwingClass>)
    ensures forall i, j :: 0 <= i < j < |KeyOrder(cs)| ==> KeyOrder(cs)[i] != KeyOrder(cs)[j]
  {
    if cs != [] {
      KeyOrderDistinct(cs[..|cs| - 1]);
    }
  }

  /** A key not yet listed has no members yet. */
  lemma {:induction false} UnlistedKeyEmpty(cs: seq<SwingClass>, key: string)
    requires key !in KeyOrder(cs)
    ensures Members(cs, key) == []
  {
    if cs != [] {
      UnlistedKeyEmpty(cs[..|cs| - 1], key);
    }
  }

  /** Each class is in exactly one group: the one of its own key, which is listed. */
  lemma ExactlyOneGroup(cs: seq<SwingClass>, c: SwingClass, key: string)
    requires c in cs
    ensures c in Members(cs, key) <==> key == Key(c)
    ensures Key(c) in KeyOrder(cs)
  {
    MembersIn(cs, key, c);
    KeyOrderCovers(cs, c);
  }

  /** Strict `sortedBy { it.name }` order as `String.compareTo` gives it. */
  predicate NameLess(a: string, b: string) {
    if a == [] then b != []
    else if b == [] then false
    else a[0] < b[0] || (a[0] == b[0] && NameLess(a[1..], b[1..]))
  }

  predicate SortedByName(cs: seq<SwingClass>) {
    forall i, j :: 0 <= i < j < |cs| ==> !NameLess(cs[j].name, cs[i].name)
  }

  /** A group keeps the list's order: the members of a name-sorted list are sorted. */
  lemma {:induction false} MembersSorted(cs: seq<SwingClass>, key: string)
    requires SortedByName(cs)
    ensures SortedByName(Members(cs, key))
  {
    if cs != [] {
      var init := cs[..|cs| - 1];
      var last := cs[|cs| - 1];
      assert SortedByName(init);
      MembersSorted(init, key);
      var m := Members(init, key);
      if Key(last) == key {
        var r := m + [last];
        forall i, j | 0 <= i < j < |r|
          ensures !NameLess(r[j].name, r[i].name)
        {
          if j == |r| - 1 {
            MembersIn(init, key, r[i]);
            var i' :| 0 <= i' < |init| && init[i'] == r[i];
            assert cs[i'] == r[i] && cs[|cs| - 1] == last;
          } else {
            assert r[i] == m[i] && r[j] == m[j];
          }
        }
      }
    }
  }

  /** Grouping by subpackage, as the loop that fills `pkgMap` with `getOrPut(...).add(cls)`
      does: the keys in first-appearance order and, per key, its classes in list order. */
  method GroupBySubpackage(cs: seq<SwingClass>) returns (keys: seq<string>, groups: map<string, seq<SwingClass>>)
    ensures keys == KeyOrder(cs)
    ensures forall k :: k in groups <==> k in keys
    ensures forall k :: k in groups ==> groups[k] == Members(cs, k) && groups[k] != []
  {
    keys, groups := [], map[];
    var i := 0;
    while i < |cs|
      invariant 0 <= i <= |cs|
      invariant keys == KeyOrder(cs[..i])
      invariant forall k :: k in groups <==> k in keys
      invariant forall k :: k in groups ==> groups[k] == Members(cs[..i], k) && groups[k] != []
    {
      var c := cs[i];
      var sub := SubPackage(c.packageName);
      ghost var keys0, groups0 := keys, groups;
      if sub !in groups {
        keys := keys + [sub];
        groups := groups[sub := []];
      }
      groups := groups[sub := groups[sub] + [c]];
      GroupsStep(cs, i, keys0, groups0, keys, groups);
      i := i + 1;
    }
    assert cs[..|cs|] == cs;
  }

  /** The loop body keeps its invariants: the new class lands at the end of its own
      group, opening the group and listing its key when the key is new. */
  lemma GroupsStep(cs: seq<SwingClass>, i: nat, keys: seq<string>, groups: map<string, seq<SwingClass>>,
                   keys': seq<string>, groups': map<string, seq<SwingClass>>)
    requires i < |cs|
    requires keys == KeyOrder(cs[..i])
    requires forall k :: k in groups <==> k in keys
    requires forall k :: k in groups ==> groups[k] == Members(cs[..i], k) && groups[k] != []
    requires keys' == if Key(cs[i]) in groups then keys else keys + [Key(cs[i])]
    requires groups' == groups[Key(cs[i]) := (if Key(cs[i]) in groups then groups[Key(cs[i])] else []) + [cs[i]]]
    ensures keys' == KeyOrder(cs[..i + 1])
    ensures forall k :: k in groups' <==> k in keys'
    ensures forall k :: k in groups' ==> groups'[k] == Members(cs[..i + 1], k) && groups'[k] != []
  {
    var sub := Key(cs[i]);
    GroupStep(cs, i);
    forall k | k in groups'
      ensures groups'[k] == Members(cs[..i + 1], k) && groups'[k] != []
    {
      if k != sub {
        assert groups'[k] == groups[k];
      }
    }
  }

  /** One more class extends the key order and the groups as the loop body does. */
  lemma GroupStep(cs: seq<SwingClass>, i: nat)
    requires i < |cs|
    ensures var sub, keys := Key(cs[i]), KeyOrder(cs[..i]);
      && KeyOrder(cs[..i + 1]) == (if sub in keys then keys else keys + [sub])
      && (sub !in keys ==> Members(cs[..i], sub) == [])
      && forall k :: Members(cs[..i + 1], k) == Members(cs[..i], k) + (if k == sub then [cs[i]] else [])
  {
    assert cs[..i + 1][..i] == cs[..i];
    if Key(cs[i]) !in KeyOrder(cs[..i]) {
      UnlistedKeyEmpty(cs[..i], Key(cs[i]));
    }
  }

  /** The builder function generated for one class: which template, and the names the
      template is filled with. */
  datatype Builder =
    | Plain(functionName: string, simpleName: string)
    | Generic(functionName: string, simpleName: string, paramDecls: string, paramNames: string)

  function Decls(tvs: seq<TypeVar>): (r: seq<string>)
    ensures |r| == |tvs| && forall i :: 0 <= i < |tvs| ==> r[i] == BuildTypeParamDecl(tvs[i])
  {
    if tvs == [] then [] else [BuildTypeParamDecl(tvs[0])] + Decls(tvs[1..])
  }

  function Names(tvs: seq<TypeVar>): (r: seq<string>)
    ensures |r| == |tvs| && forall i :: 0 <= i < |tvs| ==> r[i] == tvs[i].name
  {
    if tvs == [] then [] else [tvs[0].name] + Names(tvs[1..])
  }

  /** `generateBuilderFunction(cls)`: the generic template exactly when the class has type
      parameters, both named by `deriveFunctionName` of the simple name. */
  function GenerateBuilder(cls: SwingClass): (r: Builder)
    ensures r.Generic? <==> cls.typeParams != []
    ensures r.functionName == DeriveFunctionName(cls.simpleName) && r.simpleName == cls.simpleName
  {
    if cls.typeParams == [] then Plain(DeriveFunctionName(cls.simpleName), cls.simpleName)
    else Generic(DeriveFunctionName(cls.simpleName), cls.simpleName,
                 Join(Decls(cls.typeParams), ", "), Join(Names(cls.typeParams), ", "))
  }

  /** One generated file: its directory, its package, the Swing package it covers and its
      builders in class order. */
  datatype GeneratedFile = GeneratedFile(dir: string, pkg: string, swingPkg: string, builders: seq<Builder>)

  function BuildersOf(cs: seq<SwingClass>): (r: seq<Builder>)
    ensures |r| == |cs| && forall i :: 0 <= i < |cs| ==> r[i] == GenerateBuilder(cs[i])
  {
    if cs == [] then [] else [GenerateBuilder(cs[0])] + BuildersOf(cs[1..])
  }

  /** The file written for one group. */
  function FileFor(subPkg: string, classes: seq<SwingClass>): (r: GeneratedFile)
    ensures r.dir == PackagePath(r.pkg) && r.pkg == NewPackage(subPkg)
    ensures |r.builders| == |classes|
  {
    GeneratedFile(PackagePath(NewPackage(subPkg)), NewPackage(subPkg), SwingPackage(subPkg), BuildersOf(classes))
  }

  /** The second loop of `main`: one file per group, in key order. */
  method WriteGroups(keys: seq<string>, groups: map<string, seq<SwingClass>>) returns (files: seq<GeneratedFile>)
    requires forall k :: k in keys ==> k in groups
    ensures |files| == |keys|
    ensures forall i :: 0 <= i < |keys| ==> files[i] == FileFor(keys[i], groups[keys[i]])
  {
    files := [];
    for i := 0 to |keys|
      invariant |files| == i
      invariant forall j :: 0 <= j < i ==> files[j] == FileFor(keys[j], groups[keys[j]])
    {
      files := files + [FileFor(keys[i], groups[keys[i]])];
    }
  }

  /** A listed key is the key of some class of the list. */
  lemma {:induction false} KeyOrderListed(cs: seq<SwingClass>, k: string)
    requires k in KeyOrder(cs)
    ensures exists d :: d in cs && Key(d) == k
  {
    var init := cs[..|cs| - 1];
    if k in KeyOrder(init) {
      KeyOrderListed(init, k);
      var d :| d in init && Key(d) == k;
      assert d in cs;
    } else {
      assert cs[|cs| - 1] in cs;
    }
  }

  /** A package name without a slash gives a key without one. */
  lemma SubPackageNoSlash(packageName: string)
    requires '/' !in packageName
    ensures '/' !in SubPackage(packageName)
  {
    var once := RemovePrefix(packageName, "javax.swing");
    assert forall x :: x in once ==> x in packageName;
    var twice := RemovePrefix(once, ".");
    assert forall x :: x in twice ==> x in once;
  }

  /** Generation from the class list: every class is in exactly one group, its own, and no
      two groups' files share a directory (Java package names hold no slash). */
  lemma GenerationCoversEachClassOnce(cs: seq<SwingClass>, c: SwingClass)
    requires c in cs && forall d :: d in cs ==> '/' !in d.packageName
    ensures var keys := KeyOrder(cs);
      && Key(c) in keys
      && (forall i :: 0 <= i < |keys| ==> (c in Members(cs, keys[i]) <==> keys[i] == Key(c)))
      && (forall i, j :: 0 <= i < j < |keys| ==> FileFor(keys[i], Members(cs, keys[i])).dir != FileFor(keys[j], Members(cs, keys[j])).dir)
  {
    var keys := KeyOrder(cs);
    KeyOrderCovers(cs, c);
    forall i | 0 <= i < |keys|
      ensures c in Members(cs, keys[i]) <==> keys[i] == Key(c)
    {
      MembersIn(cs, keys[i], c);
    }
    KeyOrderDistinct(cs);
    forall i, j | 0 <= i < j < |keys|
      ensures FileFor(keys[i], Members(cs, keys[i])).dir != FileFor(keys[j], Members(cs, keys[j])).dir
    {
      KeyOrderListed(cs, keys[i]);
      KeyOrderListed(cs, keys[j]);
      var di :| di in cs && Key(di) == keys[i];
      var dj :| dj in cs && Key(dj) == keys[j];
      SubPackageNoSlash(di.packageName);
      SubPackageNoSlash(dj.packageName);
      DistinctGroupsDistinctPaths(keys[i], keys[j]);
    }
  }
}
