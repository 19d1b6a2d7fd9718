/** The selector shapes the library's demo and tests use, worked out in general. Where a
    test expects descendant or true child-combinator semantics, these lemmas record what
    the matcher as written does instead. */
module SelectorExamples {
  import opened Wrappers
  import opened Text
  import opened Swing
  import opened Selectors

  /** A class name usable in a one-class clause: a token free of '.'. */
  predicate ClassName(name: string) {
    Word(name) && '.' !in name
  }

  /** `.name` is a token whose clause is the class-only clause with that single class. */
  lemma OneClassClause(name: string)
    requires ClassName(name)
    ensures Word("." + name)
    ensures ParseClause("." + name) == Classes([name])
  {
    ParseDot(name);
    IndexOfFound(name, '.');
    assert Split(name, '.') == [name];
    assert forall k :: 1 <= k < |"." + name| ==> ("." + name)[k] == name[k - 1];
  }

  /** `>` and `*` are globs. */
  lemma CombinatorIsGlob()
    ensures Word(">") && Word("*")
    ensures ParseClause(">") == Glob && ParseClause("*") == Glob
  {
    assert ">"[..1][0] == '>';
    assert "*"[..1][0] == '*';
  }

  /** `a > *` is the tokens a, `>` and `*` separated by single spaces. */
  lemma ChildText(a: string)
    ensures a + " > *" == a + " " + ">" + " " + "*"
  {
    var s, t := a + " > *", a + " " + ">" + " " + "*";
    assert |s| == |t|;
    forall k | 0 <= k < |s|
      ensures s[k] == t[k]
    {
      if k >= |a| {
        assert s[k] == " > *"[k - |a|];
      }
    }
  }

  /** `.name > *` parses to three clauses: a glob for the component, a glob (the `>`) for
      its parent and `.name` for its grandparent. */
  lemma ClassChildParse(name: string)
    requires ClassName(name)
    ensures Parse("." + name + " > *") ==
      Selector(Some(Selector(Some(Selector(None, Classes([name]))), Glob)), Glob)
  {
    var a1 := "." + name;
    var a2 := a1 + " " + ">";
    OneClassClause(name);
    CombinatorIsGlob();
    assert a2[0] == '.' && a2[|a2| - 1] == '>';
    calc {
      Parse("." + name + " > *");
      { ChildText(a1); }
      Parse(a2 + " " + "*");
      { ParseSpace(a2, "*"); }
      Selector(Some(Parse(a2)), Glob);
      { ParseSpace(a1, ">"); }
      Selector(Some(Selector(Some(Parse(a1)), Glob)), Glob);
      { ParseWord(a1); }
      Selector(Some(Selector(Some(Selector(None, Classes([name]))), Glob)), Glob);
    }
  }

  /** The selector `.name > *` parses to, matched one level at a time. */
  lemma GrandparentClassMatches(name: string, top: Comp, p: Path)
    requires ValidPath(top, p)
    ensures Matches(Selector(Some(Selector(Some(Selector(None, Classes([name]))), Glob)), Glob), top, Node(p)) <==>
      && |p| >= 2
      && var g := NodeAt(top, Ancestor(top, p, 2));
         IsJComponent(g.cls) ==> g.cssClasses.Some? && name in Split(g.cssClasses.value, ' ')
  {
    var s1 := Selector(None, Classes([name]));
    var s2 := Selector(Some(s1), Glob);
    var s3 := Selector(Some(s2), Glob);
    if |p| >= 2 {
      var q := Parent(p);
      assert Parent(q) == Ancestor(top, p, 2);
      assert Matches(s3, top, Node(p)) == Matches(s2, top, Node(q));
      assert Matches(s2, top, Node(q)) == Matches(s1, top, Node(Parent(q)));
      var g := NodeAt(top, Parent(q));
      assert Matches(s1, top, Node(Parent(q))) == LocalMatch(Classes([name]), g);
      assert [name][0] == name;
      assert MatchClass(g, [name]) <==>
        IsJComponent(g.cls) && g.cssClasses.Some? && name in Split(g.cssClasses.value, ' ');
    } else if p != [] {
      assert !Matches(s2, top, Node(Parent(p)));
    }
  }

  /** `.name > *` (the demo's rule for the children of its panels) matches a component
      exactly when it has a grandparent and that grandparent passes the `.name` test: it
      reaches grandchildren, not children, because `>` is a glob that takes the parent's
      level, and a grandparent that is not a JComponent always passes. */
  lemma ClassChildSelector(name: string, top: Comp, p: Path)
    requires ClassName(name) && ValidPath(top, p)
    ensures Matches(Parse("." + name + " > *"), top, Node(p)) <==>
      && |p| >= 2
      && var g := NodeAt(top, Ancestor(top, p, 2));
         IsJComponent(g.cls) ==> g.cssClasses.Some? && name in Split(g.cssClasses.value, ' ')
  {
    ClassChildParse(name);
    GrandparentClassMatches(name, top, p);
  }
}
