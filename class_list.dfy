/** `Component.classList`: a mutable set view over a JComponent's `cssClasses` client
    property, a space-separated string. Every read re-parses the property (split on single
    spaces, empty pieces dropped, duplicates dropped keeping the first); `add` and `remove`
    write the whole set back, joined by single spaces. A component that is not a JComponent
    gets a new empty set on every access. */
module ClassList {
  import opened Wrappers
  import opened Text
  import opened Swing
  import Selectors

  predicate NoDuplicates(xs: seq<string>) {
    forall i, j :: 0 <= i < j < |xs| ==> xs[i] != xs[j]
  }

  /** A class name the property can hold and give back: non-empty and free of spaces. */
  predicate PlainToken(e: string) {
    e != "" && ' ' !in e
  }

  predicate AllPlain(xs: seq<string>) {
    forall i :: 0 <= i < |xs| ==> PlainToken(xs[i])
  }

  /** `filter { it.isNotEmpty() }`. */
  function NonEmpty(xs: seq<string>): (r: seq<string>)
    ensures |r| <= |xs|
    ensures forall x :: x in r <==> x in xs && x != ""
  {
    if xs == [] then []
    else (if xs[0] == "" then [] else [xs[0]]) + NonEmpty(xs[1..])
  }

  /** `toMutableSet()`: a LinkedHashSet, which keeps the first occurrence of each element in
      order. */
  function Distinct(xs: seq<string>): (r: seq<string>)
    ensures |r| <= |xs| && NoDuplicates(r)
    ensures forall x :: x in r <==> x in xs
  {
    if xs == [] then []
    else
      var d, x := Distinct(xs[..|xs| - 1]), xs[|xs| - 1];
      assert forall y :: y in xs <==> y in xs[..|xs| - 1] || y == x by {
        assert xs == xs[..|xs| - 1] + [x];
      }
      if x in d then d else d + [x]
  }

  /** The `delegate` of the view: the class names the property holds, in order, each once. */
  function Tokens(prop: Option<string>): (r: seq<string>)
    ensures NoDuplicates(r)
    ensures forall x :: x in r <==> prop.Some? && x != "" && x in Split(prop.value, ' ')
  {
    if prop.None? then [] else Distinct(NonEmpty(Split(prop.value, ' ')))
  }

  /** `flush(del)`: the property value written back, `del.joinToString(" ")`. Splitting it
      on spaces gives the plain names back, one piece each. */
  function Serialize(xs: seq<string>): (r: string)
    ensures xs == [] ==> r == ""
    ensures xs != [] && AllPlain(xs) ==> Split(r, ' ') == xs
  {
    var r := Join(xs, " ");
    if xs != [] && AllPlain(xs) then
      assert forall i :: 0 <= i < |xs| ==> ' ' !in xs[i] by {
        forall i | 0 <= i < |xs|
          ensures ' ' !in xs[i]
        {
          assert PlainToken(xs[i]);
        }
      }
      SplitJoin(xs, ' ');
      r
    else r
  }

  /** `remove(e)` on a LinkedHashSet: e gone, the rest in order. */
  function Without(xs: seq<string>, e: string): (r: seq<string>)
    ensures forall x :: x in r <==> x in xs && x != e
    ensures NoDuplicates(xs) ==> NoDuplicates(r)
    ensures AllPlain(xs) ==> AllPlain(r)
  {
    if xs == [] then []
    else
      var rest := Without(xs[1..], e);
      assert NoDuplicates(xs) ==> xs[0] !in xs[1..] && NoDuplicates(xs[1..]);
      assert AllPlain(xs) ==> PlainToken(xs[0]) && AllPlain(xs[1..]);
      if xs[0] == e then rest else [xs[0]] + rest
  }

  /** Every name the property yields is a plain token. */
  lemma TokensArePlain(prop: Option<string>)
    ensures AllPlain(Tokens(prop))
  {
    if prop.Some? {
      SplitPieces(prop.value, ' ');
      var r := Tokens(prop);
      forall i | 0 <= i < |r|
        ensures PlainToken(r[i])
      {
        assert r[i] in Split(prop.value, ' ');
      }
    }
  }

  lemma {:induction false} NonEmptyOfNonEmpty(xs: seq<string>)
    requires forall i :: 0 <= i < |xs| ==> xs[i] != ""
    ensures NonEmpty(xs) == xs
  {
    if xs != [] {
      NonEmptyOfNonEmpty(xs[1..]);
    }
  }

  lemma {:induction false} DistinctOfDistinct(xs: seq<string>)
    requires NoDuplicates(xs)
    ensures Distinct(xs) == xs
  {
    if xs != [] {
      var init := xs[..|xs| - 1];
      DistinctOfDistinct(init);
      assert xs[|xs| - 1] !in init;
      assert init + [xs[|xs| - 1]] == xs;
    }
  }

  /** Reading back what `flush` wrote gives the same names in the same order, when they are
      plain tokens and distinct. */
  lemma TokensRoundTrip(xs: seq<string>)
    requires NoDuplicates(xs) && AllPlain(xs)
    ensures Tokens(Some(Serialize(xs))) == xs
  {
    if xs == [] {
      assert Split("", ' ') == [""];
    } else {
      SplitJoin(xs, ' ');
      assert Serialize(xs) == Join(xs, [' ']);
      NonEmptyOfNonEmpty(xs);
      DistinctOfDistinct(xs);
    }
  }

  /** After a successful `add(e)`, reading the property back gives the old names then e. */
  lemma AddedTokens(prop: Option<string>, e: string)
    requires PlainToken(e) && e !in Tokens(prop)
    ensures Tokens(Some(Serialize(Tokens(prop) + [e]))) == Tokens(prop) + [e]
  {
    var xs := Tokens(prop) + [e];
    TokensArePlain(prop);
    assert AllPlain(xs) by {
      forall i | 0 <= i < |xs|
        ensures PlainToken(xs[i])
      {
        if i < |xs| - 1 {
          assert xs[i] == Tokens(prop)[i];
        }
      }
    }
    assert NoDuplicates(xs) by {
      forall i, j | 0 <= i < j < |xs|
        ensures xs[i] != xs[j]
      {
        if j == |xs| - 1 {
          assert xs[i] in Tokens(prop);
        } else {
          assert xs[i] == Tokens(prop)[i] && xs[j] == Tokens(prop)[j];
        }
      }
    }
    TokensRoundTrip(xs);
  }

  /** After a successful `remove(e)`, reading the property back gives the old names
      without e. */
  lemma RemovedTokens(prop: Option<string>, e: string)
    ensures Tokens(Some(Serialize(Without(Tokens(prop), e)))) == Without(Tokens(prop), e)
  {
    TokensArePlain(prop);
    TokensRoundTrip(Without(Tokens(prop), e));
  }

  /** A component as `classList` sees it: its runtime class and its `cssClasses` client
      property. */
  class ClientComponent {
    const cls: JClass
    var cssClasses: Option<string>

    constructor(cls: JClass, cssClasses: Option<string>)
      ensures this.cls == cls && this.cssClasses == cssClasses
    {
      this.cls := cls;
      this.cssClasses := cssClasses;
    }

    /** The elements `classList` iterates over (its `size` is their number): the property's
        names for a JComponent, none for any other component. */
    function ClassList(): (r: seq<string>)
      reads this
      ensures NoDuplicates(r)
      ensures forall x :: x in r <==>
        IsJComponent(cls) && cssClasses.Some? && x != "" && x in Split(cssClasses.value, ' ')
    {
      if IsJComponent(cls) then Tokens(cssClasses) else []
    }

    /** `classList.add(e)`. On a JComponent: true and the property rewritten with e added
        when e was absent, false and nothing written when it was present. On any other
        component the set is a new empty one, so the call returns true and changes nothing. */
    method Add(e: string) returns (added: bool)
      modifies this
      ensures IsJComponent(cls) ==> (added <==> e !in old(ClassList()))
      ensures IsJComponent(cls) && added ==> cssClasses == Some(Serialize(old(ClassList()) + [e]))
      ensures PlainToken(e) ==> ClassList() == old(ClassList()) + (if added && IsJComponent(cls) then [e] else [])
      ensures !added || !IsJComponent(cls) ==> cssClasses == old(cssClasses)
      ensures !IsJComponent(cls) ==> added
    {
      if IsJComponent(cls) {
        var tmp := Tokens(cssClasses);
        if e !in tmp {
          if PlainToken(e) {
            AddedTokens(cssClasses, e);
          }
          Flush(tmp + [e]);
          added := true;
        } else {
          added := false;
        }
      } else {
        var newSet: seq<string> := [];
        added := e !in newSet;
      }
    }

    /** `classList.remove(e)`. On a JComponent: true and the property rewritten without e
        when e was present, false and nothing written when it was absent. On any other
        component the set is a new empty one, so the call returns false. */
    method Remove(e: string) returns (removed: bool)
      modifies this
      ensures removed <==> e in old(ClassList())
      ensures removed ==> cssClasses == Some(Serialize(Without(old(ClassList()), e)))
      ensures ClassList() == Without(old(ClassList()), e)
      ensures !removed ==> cssClasses == old(cssClasses)
    {
      if IsJComponent(cls) {
        var tmp := Tokens(cssClasses);
        if e in tmp {
          RemovedTokens(cssClasses, e);
          Flush(Without(tmp, e));
          removed := true;
        } else {
          WithoutAbsent(tmp, e);
          removed := false;
        }
      } else {
        var newSet: seq<string> := [];
        removed := e in newSet;
      }
    }

    /** `flush(del)`: writes the names joined by single spaces. */
    method Flush(del: seq<string>)
      modifies this
      ensures cssClasses == Some(Serialize(del))
    {
      cssClasses := Some(Serialize(del));
    }
  }

  /** The selector's class test reads the same property: a component passes it for
      non-empty class names exactly when it is a JComponent whose `classList` holds them. */
  lemma MatchClassIsClassList(c: Comp, classes: seq<string>)
    requires forall k :: 0 <= k < |classes| ==> classes[k] != ""
    ensures Selectors.MatchClass(c, classes) <==>
      IsJComponent(c.cls) && c.cssClasses.Some? && forall k :: 0 <= k < |classes| ==> classes[k] in Tokens(c.cssClasses)
  {
  }

  /** After `classList.add(e)` on a JComponent, the component passes the class test for e,
      whether the name was added or already there. */
  lemma AddedClassMatches(c: Comp, e: string)
    requires IsJComponent(c.cls) && PlainToken(e)
    ensures var prop := if e in Tokens(c.cssClasses) then c.cssClasses else Some(Serialize(Tokens(c.cssClasses) + [e]));
      Selectors.MatchClass(c.(cssClasses := prop), [e])
  {
    var prop := if e in Tokens(c.cssClasses) then c.cssClasses else Some(Serialize(Tokens(c.cssClasses) + [e]));
    if e !in Tokens(c.cssClasses) {
      AddedTokens(c.cssClasses, e);
      assert e in Tokens(prop);
    }
    MatchClassIsClassList(c.(cssClasses := prop), [e]);
  }

  /** Removing an absent name changes nothing. */
  lemma {:induction false} WithoutAbsent(xs: seq<string>, e: string)
    requires e !in xs
    ensures Without(xs, e) == xs
  {
    if xs != [] {
      WithoutAbsent(xs[1..], e);
    }
  }
}
