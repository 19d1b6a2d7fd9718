/** CssSelector: a selector text is cut at its last space into the selector the parent
    must match and the clause the component itself must match. A clause is `#id(.c)*`,
    `.c(.c)*` or anything else (a glob). Matching tests the clause on the component and the
    parent selector on the IMMEDIATE parent only, one level per clause, so a `>` token is a
    glob that uses up one ancestor level, and there is no "any ancestor" search. */
module Selectors {
  import opened Wrappers
  import opened Text
  import opened Swing

  /** SelectorDescription: an id with classes, classes alone, or a glob. */
  datatype Clause = Id(id: string, classes: seq<string>) | Classes(classes: seq<string>) | Glob

  /** A parsed selector: the clause for the component itself and, when the text had a space,
      the selector its parent must match. */
  datatype Selector = Selector(parent: Option<Selector>, local: Clause)

  /** The SelectorDescription constructor. */
  function ParseClause(s: string): (r: Clause)
    ensures r.Glob? <==> !StartsWith(s, "#") && !StartsWith(s, ".")
    ensures r.Classes? ==> |r.classes| >= 1
  {
    if StartsWith(s, "#") then ParseIdBody(s[1..])
    else if StartsWith(s, ".") then Classes(Split(s[1..], '.'))
    else Glob
  }

  /** The `#` branch of the SelectorDescription constructor, given the text after `#`: the
      id runs up to the first '.', and the rest, split at '.', are the classes. */
  function ParseIdBody(body: string): (r: Clause)
    ensures r.Id? && '.' !in r.id
    ensures '.' in body <==> r.classes != []
  {
    IndexOfFound(body, '.');
    if '.' in body then
      var dot := IndexOf(body, '.');
      Id(body[..dot], Split(body[dot + 1..], '.'))
    else
      Id(body, [])
  }

  /** The text a clause is written as; a glob is written `*`. */
  function ClauseText(c: Clause): string {
    match c
    case Id(id, classes) => "#" + (if classes == [] then id else id + "." + Join(classes, "."))
    case Classes(classes) => "." + Join(classes, ".")
    case Glob => "*"
  }

  /** A clause the parser can produce: ids and class names free of '.', and a class-only
      clause with at least one (possibly empty) class name. */
  predicate WellFormedClause(c: Clause) {
    match c
    case Id(id, classes) => '.' !in id && forall k :: 0 <= k < |classes| ==> '.' !in classes[k]
    case Classes(classes) => |classes| >= 1 && forall k :: 0 <= k < |classes| ==> '.' !in classes[k]
    case Glob => true
  }

  /** `#body` goes to the `#` branch with body. */
  lemma ParseHash(body: string)
    ensures ParseClause("#" + body) == ParseIdBody(body)
  {
    var s := "#" + body;
    assert s[..1] == "#" && s[1..] == body;
  }

  /** `.body` goes to the `.` branch with body. */
  lemma ParseDot(body: string)
    ensures ParseClause("." + body) == Classes(Split(body, '.'))
  {
    var s := "." + body;
    assert s[..1] == "." && s[1..] == body;
  }

  /** The clause parsed from `#body` is well formed. */
  lemma IdClauseWellFormed(body: string)
    ensures WellFormedClause(ParseClause("#" + body))
  {
    ParseHash(body);
    IndexOfFound(body, '.');
    if '.' in body {
      SplitPieces(body[IndexOf(body, '.') + 1..], '.');
    }
  }

  /** Parsing `#body` and writing the clause back gives `#body`. */
  lemma IdClauseRoundTrip(body: string)
    ensures ClauseText(ParseClause("#" + body)) == "#" + body
  {
    ParseHash(body);
    IndexOfFound(body, '.');
    if '.' in body {
      var dot := IndexOf(body, '.');
      var rest := body[dot + 1..];
      calc {
        ClauseText(ParseIdBody(body));
        "#" + (body[..dot] + "." + Join(Split(rest, '.'), "."));
        { JoinSplit(rest, '.'); }
        "#" + (body[..dot] + "." + rest);
        { CutAt(body, dot); }
        "#" + body;
      }
    }
  }

  /** Parsing `.body` and writing the clause back gives `.body`. */
  lemma ClassesClauseRoundTrip(body: string)
    ensures WellFormedClause(ParseClause("." + body))
    ensures ClauseText(ParseClause("." + body)) == "." + body
  {
    ParseDot(body);
    SplitPieces(body, '.');
    JoinSplit(body, '.');
  }

  /** Parsing a `#` or `.` clause and writing it back gives the same text. */
  lemma ClauseRoundTrip(s: string)
    requires StartsWith(s, "#") || StartsWith(s, ".")
    ensures WellFormedClause(ParseClause(s))
    ensures ClauseText(ParseClause(s)) == s
  {
    var body := s[1..];
    if StartsWith(s, "#") {
      assert s == "#" + body;
      IdClauseWellFormed(body);
      IdClauseRoundTrip(body);
    } else {
      assert s == "." + body;
      ClassesClauseRoundTrip(body);
    }
  }

  /** The text after `#` of an id clause with classes splits back into the id and classes. */
  lemma IdBodyParses(id: string, classes: seq<string>)
    requires classes != []
    requires WellFormedClause(Id(id, classes))
    ensures ParseIdBody(id + "." + Join(classes, ".")) == Id(id, classes)
  {
    var rest := Join(classes, ".");
    var body := id + "." + rest;
    FirstDot(id, rest);
    IndexOfFound(body, '.');
    assert body[|id|] == '.';
    SplitJoin(classes, '.');
  }

  /** The first '.' of `id.rest` is the one after id when id has none. */
  lemma FirstDot(id: string, rest: string)
    requires '.' !in id
    ensures IndexOf(id + "." + rest, '.') == |id|
    ensures (id + "." + rest)[..|id|] == id && (id + "." + rest)[|id| + 1..] == rest
  {
    var body := id + "." + rest;
    assert body[|id|] == '.' && body[..|id|] == id;
  }

  /** A class-only clause, written and parsed back, is the same clause. */
  lemma ClassesParses(classes: seq<string>)
    requires WellFormedClause(Classes(classes))
    ensures ParseClause(ClauseText(Classes(classes))) == Classes(classes)
  {
    ParseDot(Join(classes, "."));
    SplitJoin(classes, '.');
  }

  /** An id clause without classes, written and parsed back, is the same clause. */
  lemma IdAloneParses(id: string)
    requires '.' !in id
    ensures ParseClause(ClauseText(Id(id, []))) == Id(id, [])
  {
    ParseHash(id);
    IndexOfFound(id, '.');
    assert ClauseText(Id(id, [])) == "#" + id;
  }

  /** An id clause with classes, written and parsed back, is the same clause. */
  lemma IdWithClassesParses(id: string, classes: seq<string>)
    requires classes != []
    requires WellFormedClause(Id(id, classes))
    ensures ParseClause(ClauseText(Id(id, classes))) == Id(id, classes)
  {
    var body := id + "." + Join(classes, ".");
    assert ClauseText(Id(id, classes)) == "#" + body;
    ParseHash(body);
    IdBodyParses(id, classes);
  }

  /** `*` parses back to a glob. */
  lemma GlobParses()
    ensures ParseClause(ClauseText(Glob)) == Glob
  {
    assert "*"[0] == '*';
  }

  /** Writing a well-formed clause and parsing it back gives the same clause. */
  lemma ClauseTextParses(c: Clause)
    requires WellFormedClause(c)
    ensures ParseClause(ClauseText(c)) == c
  {
    match c
    case Id(id, classes) =>
      if classes == [] {
        IdAloneParses(id);
      } else {
        IdWithClassesParses(id, classes);
      }
    case Classes(classes) =>
      ClassesParses(classes);
    case Glob =>
      GlobParses();
  }

  /** The CssSelector constructor: trim the text, then cut it. */
  function Parse(s: string): (r: Selector)
    ensures r.parent.None? <==> ' ' !in Trim(s)
    ensures r.parent.None? ==> r.local == ParseClause(Trim(s))
    decreases |s|, 1
  {
    Cut(Trim(s))
  }

  /** The constructor on trimmed text t: with no space, t is the local clause and there is
      no parent selector; otherwise the trimmed text before the last space is parsed as the
      parent selector and the trimmed text from that space on is the local clause. */
  function Cut(t: string): (r: Selector)
    ensures r.parent.None? <==> ' ' !in t
    ensures r.parent.None? ==> r.local == ParseClause(t)
    decreases |t|, 0
  {
    var sp := LastIndexOf(t, ' ');
    if sp == -1 then
      Selector(None, ParseClause(t))
    else
      Selector(Some(Parse(Trim(t[..sp]))), ParseClause(Trim(t[sp..])))
  }

  /** A space-separated token of selector text: non-empty and free of whitespace. */
  predicate Word(t: string)
    ensures Word(t) ==> Trimmed(t) && ' ' !in t
  {
    assert IsWhitespace(' ');
    t != [] && NoWhitespace(t)
  }

  /** Whitespace-free tokens joined by single spaces start and end with a token character. */
  lemma {:induction false} JoinWordsEnds(toks: seq<string>)
    requires |toks| >= 1 && forall i :: 0 <= i < |toks| ==> Word(toks[i])
    ensures Join(toks, " ") != []
    ensures !IsWhitespace(Join(toks, " ")[0]) && !IsWhitespace(Join(toks, " ")[|Join(toks, " ")| - 1])
  {
    if |toks| > 1 {
      var rest := toks[1..];
      assert toks == [toks[0]] + rest;
      JoinCons(toks[0], rest, " ");
      JoinWordsEnds(rest);
    }
  }

  /** A single token parses to its clause with no parent selector. */
  lemma ParseWord(t: string)
    requires Word(t)
    ensures Parse(t) == Selector(None, ParseClause(t))
  {
    TrimOfTrimmed(t);
    assert ' ' !in t by {
      assert IsWhitespace(' ');
    }
  }

  /** Text `a x`, with a trimmed and x a token, parses to x's clause under the parent
      selector parsed from a. */
  lemma ParseSpace(a: string, x: string)
    requires a != [] && !IsWhitespace(a[0]) && !IsWhitespace(a[|a| - 1])
    requires Word(x)
    ensures Parse(a + " " + x) == Selector(Some(Parse(a)), ParseClause(x))
  {
    var t := a + " " + x;
    assert ' ' !in x by {
      assert IsWhitespace(' ');
    }
    assert t[0] == a[0] && t[|t| - 1] == x[|x| - 1];
    TrimOfTrimmed(t);
    LastIndexAfter(a, x, ' ');
    assert t[..|a|] == a;
    TrimOfTrimmed(a);
    assert t[|a|..] == " " + x;
    TrimSpaceBefore(x);
  }

  /** The clauses of the tokens, last token first. */
  function ClausesRightToLeft(toks: seq<string>): (r: seq<Clause>)
    ensures |r| == |toks|
    ensures forall j :: 0 <= j < |toks| ==> r[j] == ParseClause(toks[|toks| - 1 - j])
  {
    if toks == [] then [] else [ParseClause(toks[|toks| - 1])] + ClausesRightToLeft(toks[..|toks| - 1])
  }

  /** k whitespace-free tokens joined by single spaces parse to a chain of k clauses, the
      last token's clause first. */
  lemma {:induction false} ParseTokens(toks: seq<string>)
    requires |toks| >= 1 && forall i :: 0 <= i < |toks| ==> Word(toks[i])
    ensures Chain(Parse(Join(toks, " "))) == ClausesRightToLeft(toks)
  {
    var n := |toks|;
    if n == 1 {
      ParseWord(toks[0]);
      assert Join(toks, " ") == toks[0];
    } else {
      var ps, x := toks[..n - 1], toks[n - 1];
      assert toks == ps + [x];
      ParseSnoc(ps, x);
      ParseTokens(ps);
      calc {
        Chain(Parse(Join(toks, " ")));
        Chain(Selector(Some(Parse(Join(ps, " "))), ParseClause(x)));
        [ParseClause(x)] + Chain(Parse(Join(ps, " ")));
        [ParseClause(x)] + ClausesRightToLeft(ps);
      }
    }
  }

  /** One more token at the end of the text becomes the local clause, and the text before
      it the parent selector. */
  lemma ParseSnoc(ps: seq<string>, x: string)
    requires |ps| >= 1 && forall i :: 0 <= i < |ps| ==> Word(ps[i])
    requires Word(x)
    ensures Parse(Join(ps + [x], " ")) == Selector(Some(Parse(Join(ps, " "))), ParseClause(x))
  {
    JoinSnoc(ps, x, " ");
    JoinWordsEnds(ps);
    ParseSpace(Join(ps, " "), x);
  }

  /** Parsing trims first, so surrounding whitespace does not matter. */
  lemma ParseTrimmed(s: string)
    ensures Parse(Trim(s)) == Parse(s)
  {
    calc {
      Parse(Trim(s));
      Cut(Trim(Trim(s)));
      { TrimTwice(s); }
      Cut(Trim(s));
      Parse(s);
    }
  }

  /** The clauses of a selector from right to left: the component's own clause first, then
      its parent's, and so on. */
  function Chain(sel: Selector): (r: seq<Clause>)
    ensures |r| >= 1 && r[0] == sel.local
  {
    [sel.local] + match sel.parent case None => [] case Some(ps) => Chain(ps)
  }

  /** `matchId`: the component's name equals the id (a null name never does). */
  predicate MatchId(c: Comp, id: string)
    ensures c.name.None? ==> !MatchId(c, id)
  {
    c.name == Some(id)
  }

  /** `matchClass`: a JComponent whose "cssClasses" property is set and whose space-separated
      pieces include every required class. */
  predicate MatchClass(c: Comp, classes: seq<string>)
    ensures !IsJComponent(c.cls) || c.cssClasses.None? ==> !MatchClass(c, classes)
  {
    && IsJComponent(c.cls)
    && c.cssClasses.Some?
    && forall k :: 0 <= k < |classes| ==> classes[k] in Split(c.cssClasses.value, ' ')
  }

  /** The test `matches` makes on the component itself before the parent test: an id clause
      needs the id and the classes; a class-only clause is checked only on a JComponent;
      a glob always passes. */
  predicate LocalMatch(cl: Clause, c: Comp)
    ensures cl.Glob? ==> LocalMatch(cl, c)
    ensures cl.Classes? && !IsJComponent(c.cls) ==> LocalMatch(cl, c)
    ensures cl.Id? && (c.name.None? || !IsJComponent(c.cls) || c.cssClasses.None?) ==> !LocalMatch(cl, c)
  {
    match cl
    case Id(id, classes) => MatchId(c, id) && MatchClass(c, classes)
    case Classes(classes) => (IsJComponent(c.cls) && |classes| > 0) ==> MatchClass(c, classes)
    case Glob => true
  }

  /** `matches(target)`. */
  predicate Matches(sel: Selector, top: Comp, target: Target)
    requires target.Node? ==> ValidPath(top, target.path)
    ensures target.NotAComponent? ==> !Matches(sel, top, target)
    decreases sel, 1
  {
    match target
    case NotAComponent => false
    case Node(p) => LocalMatch(sel.local, NodeAt(top, p)) && MatchParent(sel, top, p)
  }

  /** `matchParent(target)`: no parent selector passes; otherwise the component needs a
      parent, and the parent must match the parent selector. */
  predicate MatchParent(sel: Selector, top: Comp, p: Path)
    requires ValidPath(top, p)
    ensures sel.parent.None? ==> MatchParent(sel, top, p)
    ensures sel.parent.Some? && p == [] ==> !MatchParent(sel, top, p)
    decreases sel, 0
  {
    match sel.parent
    case None => true
    case Some(ps) => p != [] && Matches(ps, top, Node(Parent(p)))
  }

  /** Clause j of the chain (counted from the right) passes the local test on the j-th
      ancestor of p, for every clause, and p has enough ancestors for all of them. */
  predicate ChainHolds(sel: Selector, top: Comp, p: Path)
    requires ValidPath(top, p)
  {
    var ch := Chain(sel);
    && |ch| <= |p| + 1
    && forall j :: 0 <= j < |ch| ==> LocalMatch(ch[j], NodeAt(top, Ancestor(top, p, j)))
  }

  /** The j-th ancestor of p is the (j-1)-th ancestor of p's parent. */
  lemma AncestorOfParent(top: Comp, p: Path, j: nat)
    requires ValidPath(top, p) && p != [] && 1 <= j <= |p|
    ensures Ancestor(top, p, j) == Ancestor(top, Parent(p), j - 1)
  {
  }

  /** The clauses of a selector with a parent selector, shifted by one, are the parent's,
      and the ancestors of p, shifted by one, are those of p's parent. */
  lemma ChainShift(sel: Selector, top: Comp, p: Path)
    requires ValidPath(top, p) && p != [] && sel.parent.Some?
    ensures Chain(sel) == [sel.local] + Chain(sel.parent.value)
    ensures Ancestor(top, p, 0) == p
    ensures forall j :: 1 <= j <= |p| ==> Ancestor(top, p, j) == Ancestor(top, Parent(p), j - 1)
  {
    forall j | 1 <= j <= |p|
      ensures Ancestor(top, p, j) == Ancestor(top, Parent(p), j - 1)
    {
      AncestorOfParent(top, p, j);
    }
  }

  /** The chain of a selector with a parent selector holds at p only when its own clause
      passes at p and the parent's chain holds at p's parent. */
  lemma ChainHoldsTail(sel: Selector, top: Comp, p: Path)
    requires ValidPath(top, p) && p != [] && sel.parent.Some?
    requires ChainHolds(sel, top, p)
    ensures LocalMatch(sel.local, NodeAt(top, p)) && ChainHolds(sel.parent.value, top, Parent(p))
  {
    var ps, q := sel.parent.value, Parent(p);
    var ch := Chain(sel);
    ChainShift(sel, top, p);
    forall j | 0 <= j < |Chain(ps)|
      ensures LocalMatch(Chain(ps)[j], NodeAt(top, Ancestor(top, q, j)))
    {
      assert LocalMatch(ch[j + 1], NodeAt(top, Ancestor(top, p, j + 1)));
    }
  }

  /** Conversely, the own clause at p and the parent's chain at p's parent make the chain
      hold at p. */
  lemma ChainHoldsCons(sel: Selector, top: Comp, p: Path)
    requires ValidPath(top, p) && p != [] && sel.parent.Some?
    requires LocalMatch(sel.local, NodeAt(top, p)) && ChainHolds(sel.parent.value, top, Parent(p))
    ensures ChainHolds(sel, top, p)
  {
    var ps, q := sel.parent.value, Parent(p);
    var ch := Chain(sel);
    ChainShift(sel, top, p);
    forall j | 0 <= j < |ch|
      ensures LocalMatch(ch[j], NodeAt(top, Ancestor(top, p, j)))
    {
      if j > 0 {
        assert LocalMatch(Chain(ps)[j - 1], NodeAt(top, Ancestor(top, q, j - 1)));
      }
    }
  }

  /** A selector of k clauses matches the component at p exactly when clause j (counted
      from the right) passes the local test on the j-th ancestor, for every j < k; so a
      component with fewer than k - 1 ancestors never matches. */
  lemma {:induction false} MatchesChain(sel: Selector, top: Comp, p: Path)
    requires ValidPath(top, p)
    ensures Matches(sel, top, Node(p)) <==> ChainHolds(sel, top, p)
    decreases sel
  {
    match sel.parent
    case None =>
      assert Chain(sel) == [sel.local];
      assert Ancestor(top, p, 0) == p;
    case Some(ps) =>
      if p == [] {
        assert |Chain(sel)| == 1 + |Chain(ps)|;
      } else {
        MatchesChain(ps, top, Parent(p));
        if ChainHolds(sel, top, p) {
          ChainHoldsTail(sel, top, p);
        }
        if Matches(sel, top, Node(p)) {
          assert MatchParent(sel, top, p);
          ChainHoldsCons(sel, top, p);
        }
      }
  }

  /** A selector written as k space-separated tokens matches the component at p exactly when
      the j-th token from the right passes the local test on the j-th ancestor, for every
      j < k: one ancestor level per token, `>` included. */
  lemma MatchesTokens(toks: seq<string>, top: Comp, p: Path)
    requires |toks| >= 1 && forall i :: 0 <= i < |toks| ==> Word(toks[i])
    requires ValidPath(top, p)
    ensures Matches(Parse(Join(toks, " ")), top, Node(p)) <==>
      && |toks| <= |p| + 1
      && forall j :: 0 <= j < |toks| ==> LocalMatch(ParseClause(toks[|toks| - 1 - j]), NodeAt(top, Ancestor(top, p, j)))
  {
    var sel := Parse(Join(toks, " "));
    MatchesChain(sel, top, p);
    ParseTokens(toks);
  }

  /** A selector `a x` matches at p exactly when x's clause passes at p and `a` matches at
      p's parent, which must exist. */
  lemma MatchesSpace(a: string, x: string, top: Comp, p: Path)
    requires a != [] && !IsWhitespace(a[0]) && !IsWhitespace(a[|a| - 1])
    requires Word(x) && ValidPath(top, p)
    ensures Matches(Parse(a + " " + x), top, Node(p)) <==>
      LocalMatch(ParseClause(x), NodeAt(top, p)) && p != [] && Matches(Parse(a), top, Node(Parent(p)))
  {
    var sel := Selector(Some(Parse(a)), ParseClause(x));
    calc {
      Matches(Parse(a + " " + x), top, Node(p));
      { ParseSpace(a, x); }
      Matches(sel, top, Node(p));
      LocalMatch(ParseClause(x), NodeAt(top, p)) && MatchParent(sel, top, p);
    }
  }

  /** A one-token selector has no parent selector, so only the local test counts. */
  lemma MatchesWord(t: string, top: Comp, p: Path)
    requires Word(t) && ValidPath(top, p)
    ensures Matches(Parse(t), top, Node(p)) <==> LocalMatch(ParseClause(t), NodeAt(top, p))
  {
    calc {
      Matches(Parse(t), top, Node(p));
      { ParseWord(t); }
      Matches(Selector(None, ParseClause(t)), top, Node(p));
      LocalMatch(ParseClause(t), NodeAt(top, p)) && MatchParent(Selector(None, ParseClause(t)), top, p);
      LocalMatch(ParseClause(t), NodeAt(top, p));
    }
  }

  /** A one-token selector `#id.c1...` matches exactly the components named id that are
      JComponents with the "cssClasses" property set and holding every listed class; with
      no classes, any value of the property will do, but it must be set. */
  lemma IdSelectorMatches(t: string, top: Comp, p: Path)
    requires Word(t) && StartsWith(t, "#")
    requires ValidPath(top, p)
    ensures var cl, c := ParseClause(t), NodeAt(top, p);
      Matches(Parse(t), top, Node(p)) <==>
        && c.name == Some(cl.id)
        && IsJComponent(c.cls)
        && c.cssClasses.Some?
        && forall k :: 0 <= k < |cl.classes| ==> cl.classes[k] in Split(c.cssClasses.value, ' ')
  {
    MatchesWord(t, top, p);
  }

  /** A one-token selector `.c1.c2...` on a JComponent needs the property set and holding
      every class; on any other component it always matches; the name plays no part. */
  lemma ClassSelectorMatches(t: string, top: Comp, p: Path)
    requires Word(t) && StartsWith(t, ".")
    requires ValidPath(top, p)
    ensures var cl, c := ParseClause(t), NodeAt(top, p);
      Matches(Parse(t), top, Node(p)) <==>
        (IsJComponent(c.cls) ==>
          c.cssClasses.Some? && forall k :: 0 <= k < |cl.classes| ==> cl.classes[k] in Split(c.cssClasses.value, ' '))
  {
    assert !StartsWith(t, "#") by {
      assert t[..1][0] == '.';
    }
    var cl := ParseClause(t);
    assert cl.Classes? && |cl.classes| > 0;
    MatchesWord(t, top, p);
  }

  /** A one-token selector that starts with neither `#` nor `.` (such as `*`, `>` or
      `button`) matches every component. */
  lemma GlobMatchesEverything(t: string, top: Comp, p: Path)
    requires Word(t) && !StartsWith(t, "#") && !StartsWith(t, ".")
    requires ValidPath(top, p)
    ensures Matches(Parse(t), top, Node(p))
  {
    MatchesWord(t, top, p);
  }
}
