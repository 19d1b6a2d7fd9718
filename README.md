# ktswing core, modelled in Dafny

ktswing is a Kotlin DSL over Swing. This project models its core and proves properties of the model:

- **CSS selectors** (`selector.dfy`, module `Selectors`). The `CssSelector` constructor trims the text and cuts it at its last space. The part before the space becomes the parent selector and the last token the component's own clause: `#id.c1.c2`, `.c1.c2`, or anything else, which is a glob. `matches` tests the own clause on the component and the parent selector on its direct parent. The space is therefore a child combinator, not a descendant one. `selector_examples.dfy` works out the shapes the demo uses, such as `.name > *`, where `>` is itself a glob clause.
- **Stylesheets and chainable styles** (`styles.dfy`, `style_props.dfy`, `style_frames.dfy`, `chain_add.dfy`, `traversal.dfy`):
  - A style is a `Lambda` (the AbstractStyle that `register(selector, cls, fn)` makes) or a reference to a `ChainableStyle` object. Those objects live in a store, because they are shared and extended in place by `add`.
  - Applying a stylesheet is modelled by the sequence of lambda calls it makes. The `Apply*` methods run the loops of `Stylesheet.apply` and `ChainableStyle.apply` and are proved equal to the log functions.
  - The lemmas state three things about a hierarchy: it is walked in post-order, each component exactly once; only the root's subtree is touched; and exactly the styles whose class and selector pass are run.
  - `add` appends one child sheet and changes nothing else.
  - The reference graph stays acyclic, which is what makes `apply` terminate. A ghost rank, lifted as needed by each `add`, records this; `add` only asks that the argument cannot reach the object it is added to.
- **Component extensions** (`class_list.dfy`, `mouse_listeners.dfy`):
  - `classList` is a set view over the space-separated `cssClasses` client property. Writing and reading back is proved to be a round trip.
  - The keyed `onMouse*(id, fn)` functions keep at most one attached adapter per (component, event key, id). This consistency of the registry with the attached listeners is proved to be preserved.
- **Container extensions** (`containers.dfy`):
  - `isAutoAddEnabled` is modelled, including a null layout as an error result.
  - `layoutRequiresParameters` is modelled.
  - The per-container factory maps are a class, and `getFactoryForComponent` finds the nearest factory up the parent chain. The lookup through the lazily created maps is proved equal to the value-level `Lookup`.
- **Code generator** (`codegen.dfy`):
  - builder-function naming (`JButton` → `button`);
  - type-parameter declarations;
  - sub-package grouping: a loop proved to build exactly the groups, in first-appearance order;
  - the package and directory of each generated file.

Supporting modules:
- `swing.dfy`: Java classes with `isAssignableFrom`, and component hierarchies addressed by child-index paths.
- `text.dfy`: the Kotlin string functions the code uses (`trim`, `split`, `joinToString`, `indexOf`, `lastIndexOf`, `removePrefix`, `substringAfterLast`, `replace`).
- `wrappers.dfy`: `Option` and `Result`.

`AbstractStyle` (main/src/main/kotlin/ca/weblite/ktswing/style/AbstractStyle.kt) only stores a target class and a selector. It appears as the `target` and `selector` fields of `Style.Lambda` and `ChainableStyle`, and as the functions `GetTargetClass` and `GetSelector`.

Where the tests and the code disagree, the model follows the code:
- `CssSelectorTest.kt` expects `#parent #child` to match through an intermediate ancestor, but the code only looks at the direct parent.
- `CssSelectorTest.kt` expects a component with a null `cssClasses` to pass an id selector, but `matchClass` returns false when the property is null.

## Model

| member | source | states |
|---|---|---|
| `Selectors.ParseClause` | main/src/main/kotlin/ca/weblite/ktswing/style/CssSelector.kt:15-30 | The clause is a glob exactly when the text starts with neither `#` nor `.`; a class-only clause always has at least one class name (split never returns an empty list). |
| `Selectors.ParseIdBody` | main/src/main/kotlin/ca/weblite/ktswing/style/CssSelector.kt:16-24 | The `#` branch gives an id clause whose id holds no `.`, and it has classes exactly when the text after `#` contains a `.`. |
| `Selectors.ParseHash` | main/src/main/kotlin/ca/weblite/ktswing/style/CssSelector.kt:16-17 | Text starting with `#` takes the id branch with the rest of the text. |
| `Selectors.ParseDot` | main/src/main/kotlin/ca/weblite/ktswing/style/CssSelector.kt:25-26 | Text starting with `.` gives the class-only clause whose classes are the rest split on `.`. |
| `Selectors.IdClauseWellFormed` | main/src/main/kotlin/ca/weblite/ktswing/style/CssSelector.kt:16-24 | The clause parsed from `#body` has an id and class names free of `.`. |
| `Selectors.IdClauseRoundTrip` | main/src/main/kotlin/ca/weblite/ktswing/style/CssSelector.kt:16-24 | Writing back the clause parsed from `#body` gives `#body` again. |
| `Selectors.ClassesClauseRoundTrip` | main/src/main/kotlin/ca/weblite/ktswing/style/CssSelector.kt:25-26 | The clause parsed from `.body` is well formed and writes back to `.body`. |
| `Selectors.ClauseRoundTrip` | main/src/main/kotlin/ca/weblite/ktswing/style/CssSelector.kt:15-30 | Any `#`/`.` clause text parses to a well-formed clause that writes back to the same text. |
| `Selectors.IdBodyParses` | main/src/main/kotlin/ca/weblite/ktswing/style/CssSelector.kt:18-21 | `id.c1.c2…` with a dot-free id splits back into exactly that id and those classes. |
| `Selectors.FirstDot` | main/src/main/kotlin/ca/weblite/ktswing/style/CssSelector.kt:19-20 | The first `.` of `id.rest` (id dot-free) is at the end of id, and the two substrings are id and rest. |
| `Selectors.ClassesParses` | main/src/main/kotlin/ca/weblite/ktswing/style/CssSelector.kt:25-26 | A well-formed class-only clause, written and parsed back, is the same clause. |
| `Selectors.IdAloneParses` | main/src/main/kotlin/ca/weblite/ktswing/style/CssSelector.kt:16-24 | An id clause without classes, written and parsed back, is the same clause. |
| `Selectors.IdWithClassesParses` | main/src/main/kotlin/ca/weblite/ktswing/style/CssSelector.kt:16-24 | An id clause with classes, written and parsed back, is the same clause. |
| `Selectors.GlobParses` | main/src/main/kotlin/ca/weblite/ktswing/style/CssSelector.kt:27-29 | `*` parses to a glob. |
| `Selectors.ClauseTextParses` | main/src/main/kotlin/ca/weblite/ktswing/style/CssSelector.kt:15-30 | Parsing inverts writing on every well-formed clause. |
| `Selectors.JoinWordsEnds` | main/src/main/kotlin/ca/weblite/ktswing/style/CssSelector.kt:33-42 | Whitespace-free tokens joined by single spaces neither start nor end with whitespace, so trimming leaves them. |
| `Selectors.ParseWord` | main/src/main/kotlin/ca/weblite/ktswing/style/CssSelector.kt:34-37 | A selector text with no space has no parent selector; its own clause is the text's clause. |
| `Selectors.ParseSpace` | main/src/main/kotlin/ca/weblite/ktswing/style/CssSelector.kt:38-41 | `a x` parses to x's clause under the selector parsed from `a`. |
| `Selectors.Parse` | main/src/main/kotlin/ca/weblite/ktswing/style/CssSelector.kt:33-42 | The `CssSelector(text)` constructor: no parent selector exactly when the trimmed text has no space, and then the own clause is the clause of the trimmed text. |
| `Selectors.Cut` | main/src/main/kotlin/ca/weblite/ktswing/style/CssSelector.kt:34-41 | The cut at the last space of trimmed text: no parent exactly when the text has no space, and then the own clause is the text's clause. |
| `Selectors.Word` | main/src/main/kotlin/ca/weblite/ktswing/style/CssSelector.kt:34-37 | A word (the case with no parent selector) is trimmed text holding no space. |
| `Selectors.ClausesRightToLeft` | main/src/main/kotlin/ca/weblite/ktswing/style/CssSelector.kt:33-42 | Entry j is the clause of the j-th token counted from the right. |
| `Selectors.ParseTokens` | main/src/main/kotlin/ca/weblite/ktswing/style/CssSelector.kt:33-42 | k tokens joined by spaces parse to a chain of exactly k clauses, the last token's first. |
| `Selectors.ParseSnoc` | main/src/main/kotlin/ca/weblite/ktswing/style/CssSelector.kt:38-41 | One more token at the end becomes the own clause and the text before it becomes the parent selector. |
| `Selectors.ParseTrimmed` | main/src/main/kotlin/ca/weblite/ktswing/style/CssSelector.kt:34 | Parsing trims first: surrounding whitespace does not change the selector. |
| `Selectors.Chain` | main/src/main/kotlin/ca/weblite/ktswing/style/CssSelector.kt:7-8 | The chain is never empty and starts with the selector's own clause. |
| `Selectors.Matches` | main/src/main/kotlin/ca/weblite/ktswing/style/CssSelector.kt:43-56 | A target that is not a Component never matches. |
| `Selectors.MatchId` | main/src/main/kotlin/ca/weblite/ktswing/style/CssSelector.kt:75-77 | A component without a name never passes the id test. |
| `Selectors.MatchClass` | main/src/main/kotlin/ca/weblite/ktswing/style/CssSelector.kt:79-94 | A component that is not a JComponent, or whose `cssClasses` property is null, never passes the class test. |
| `Selectors.LocalMatch` | main/src/main/kotlin/ca/weblite/ktswing/style/CssSelector.kt:43-53 | A glob clause always passes; a class-only clause passes on every component that is not a JComponent; an id clause fails when the name is null, the component is not a JComponent or its property is null. |
| `Selectors.MatchParent` | main/src/main/kotlin/ca/weblite/ktswing/style/CssSelector.kt:58-73 | No parent selector passes; with a parent selector the root, which has no parent, fails. |
| `Selectors.AncestorOfParent` | main/src/main/kotlin/ca/weblite/ktswing/style/CssSelector.kt:65-68 | The j-th ancestor of a component is the (j-1)-th ancestor of its parent. |
| `Selectors.ChainShift` | main/src/main/kotlin/ca/weblite/ktswing/style/CssSelector.kt:58-73 | The chain of a selector with a parent is its own clause followed by the parent's chain, against ancestors shifted by one. |
| `Selectors.ChainHoldsTail` | main/src/main/kotlin/ca/weblite/ktswing/style/CssSelector.kt:43-73 | If the chain holds at p, the own clause holds at p and the parent's chain holds at p's parent. |
| `Selectors.ChainHoldsCons` | main/src/main/kotlin/ca/weblite/ktswing/style/CssSelector.kt:43-73 | Conversely, own clause at p plus the parent's chain at p's parent make the chain hold at p. |
| `Selectors.MatchesChain` | main/src/main/kotlin/ca/weblite/ktswing/style/CssSelector.kt:43-73 | A selector matches at p exactly when p has enough ancestors and clause j passes at the j-th ancestor for every j (a child combinator, not a descendant one). |
| `Selectors.MatchesTokens` | main/src/main/kotlin/ca/weblite/ktswing/style/CssSelector.kt:33-73 | A selector of k space-separated tokens matches at p exactly when token k-1-j's clause passes at the j-th ancestor, for all j. |
| `Selectors.MatchesSpace` | main/src/main/kotlin/ca/weblite/ktswing/style/CssSelector.kt:43-73 | `a x` matches at p exactly when x's clause passes at p, p has a parent, and `a` matches at the parent. |
| `Selectors.MatchesWord` | main/src/main/kotlin/ca/weblite/ktswing/style/CssSelector.kt:43-56 | A one-token selector matches exactly when its own clause passes locally. |
| `Selectors.IdSelectorMatches` | main/src/main/kotlin/ca/weblite/ktswing/style/CssSelector.kt:43-94 | `#id.c…` matches exactly the components named id that are JComponents whose `cssClasses` property is set and contains every class (both directions). |
| `Selectors.ClassSelectorMatches` | main/src/main/kotlin/ca/weblite/ktswing/style/CssSelector.kt:43-94 | `.c…` matches a JComponent exactly when its property is set and contains every class, and matches every non-JComponent. |
| `Selectors.GlobMatchesEverything` | main/src/main/kotlin/ca/weblite/ktswing/style/CssSelector.kt:43-56 | A one-token selector starting with neither `#` nor `.` matches every component. |
| `SelectorExamples.OneClassClause` | main/src/main/kotlin/ca/weblite/ktswing/style/CssSelector.kt:25-26 | `.name` is a single token whose clause is the class-only clause with that one class. |
| `SelectorExamples.CombinatorIsGlob` | main/src/main/kotlin/ca/weblite/ktswing/style/CssSelector.kt:27-29 | `>` and `*` are tokens that parse to globs, so `>` is not a combinator. |
| `SelectorExamples.ChildText` | main/src/main/kotlin/ca/weblite/ktswing/style/CssSelector.kt:33-42 | `a > *` is the tokens a, `>` and `*` separated by single spaces. |
| `SelectorExamples.ClassChildParse` | main/src/main/kotlin/ca/weblite/ktswing/style/CssSelector.kt:33-42 | `.name > *` parses to three clauses: glob, glob, and the one-class clause. |
| `SelectorExamples.GrandparentClassMatches` | main/src/main/kotlin/ca/weblite/ktswing/style/CssSelector.kt:43-73 | That three-clause selector matches at p exactly when p has a grandparent carrying the class. |
| `SelectorExamples.ClassChildSelector` | main/src/main/kotlin/ca/weblite/ktswing/style/CssSelector.kt:43-94 | `.name > *` matches a component exactly when its grandparent (not its parent) is a JComponent with the class, or a non-JComponent. |
| `Swing.AssignableTransitive` | main/src/main/kotlin/ca/weblite/ktswing/style/Stylesheet.kt:36 | `isAssignableFrom` is transitive. |
| `Swing.AssignableDepth` | main/src/main/kotlin/ca/weblite/ktswing/style/Stylesheet.kt:36 | A supertype sits no deeper than its subtype, and equally deep only when it is the same class. |
| `Swing.AssignableAntisymmetric` | main/src/main/kotlin/ca/weblite/ktswing/style/Stylesheet.kt:36 | `isAssignableFrom` both ways means the same class. |
| `Swing.Supers` | main/src/main/kotlin/ca/weblite/ktswing/style/Stylesheet.kt:36 | The superclass chain of a class starts at the class and has one entry per level up to the root. |
| `Swing.AssignableInSupers` | main/src/main/kotlin/ca/weblite/ktswing/style/Stylesheet.kt:36 | `target.isAssignableFrom(cls)` holds exactly when target is on the superclass chain of cls (both directions). |
| `Swing.Implements` | main/src/main/kotlin/ca/weblite/ktswing/extensions/ContainerExtensions.kt:40 | A class implements an interface exactly when some class on its superclass chain declares it (both directions). |
| `Swing.PrefixValid` | main/src/main/kotlin/ca/weblite/ktswing/style/CssSelector.kt:65-68 | Every ancestor of a component in the hierarchy exists. |
| `Swing.Ancestor` | main/src/main/kotlin/ca/weblite/ktswing/style/CssSelector.kt:65-68 | The j-th ancestor is a valid prefix of the path, j levels up. |
| `Swing.ChildPath` | main/src/main/kotlin/ca/weblite/ktswing/style/Stylesheet.kt:30-31 | `getComponent(i)` for an index below the child count is the i-th child. |
| `Text.TrimStart` | main/src/main/kotlin/ca/weblite/ktswing/style/CssSelector.kt:34 | The result is a suffix, everything dropped is whitespace, and it does not start with whitespace. |
| `Text.TrimEnd` | main/src/main/kotlin/ca/weblite/ktswing/style/CssSelector.kt:34 | The result is a prefix, everything dropped is whitespace, and it does not end with whitespace. |
| `Text.Trim` | main/src/main/kotlin/ca/weblite/ktswing/style/CssSelector.kt:34 | The result is the part of the text between its leading and its trailing whitespace: it sits in the text at some position with only whitespace before and after it; it has no whitespace at either end, and it is empty exactly when the text is all whitespace. |
| `Text.TrimEndPadded` | main/src/main/kotlin/ca/weblite/ktswing/style/CssSelector.kt:34 | Trimming the end of a suffix left after the leading whitespace leaves a piece of the text with only whitespace around it. |
| `Text.TrimOfTrimmed` | main/src/main/kotlin/ca/weblite/ktswing/style/CssSelector.kt:37-40 | Text with no whitespace at either end is its own trim. |
| `Text.TrimTwice` | main/src/main/kotlin/ca/weblite/ktswing/style/CssSelector.kt:37-40 | Trimming is idempotent. |
| `Text.IndexOf` | main/src/main/kotlin/ca/weblite/ktswing/style/CssSelector.kt:19-20 | The result is -1 or a position holding c, and no earlier position holds c. |
| `Text.IndexOfFound` | main/src/main/kotlin/ca/weblite/ktswing/style/CssSelector.kt:19-20 | IndexOf finds c exactly when c occurs. |
| `Text.LastIndexOf` | main/src/main/kotlin/ca/weblite/ktswing/style/CssSelector.kt:34 | The result is -1 or a position holding c, and no later position holds c. |
| `Text.LastIndexOfFound` | main/src/main/kotlin/ca/weblite/ktswing/style/CssSelector.kt:34 | LastIndexOf finds c exactly when c occurs. |
| `Text.Split` | main/src/main/kotlin/ca/weblite/ktswing/style/CssSelector.kt:21 | Split always yields at least one piece. |
| `Text.SplitPieces` | main/src/main/kotlin/ca/weblite/ktswing/extensions/ComponentExtensions.kt:23 | No piece of a split holds the separator. |
| `Text.JoinSplit` | main/src/main/kotlin/ca/weblite/ktswing/style/CssSelector.kt:21 | Joining the pieces of a split with the separator gives the text back. |
| `Text.SplitJoin` | main/src/main/kotlin/ca/weblite/ktswing/extensions/ComponentExtensions.kt:21-50 | Splitting a join of separator-free pieces gives the pieces back. |
| `Text.SplitAtFirst` | main/src/main/kotlin/ca/weblite/ktswing/style/CssSelector.kt:18-21 | The first separator of `p c rest` (p separator-free) splits off p. |
| `Text.JoinSnoc` | main/src/main/kotlin/ca/weblite/ktswing/extensions/ComponentExtensions.kt:50 | Joining one more piece puts the separator before it. |
| `Text.LastIndexAfter` | main/src/main/kotlin/ca/weblite/ktswing/style/CssSelector.kt:34-40 | The last separator of `a c b` (b separator-free) is right after a. |
| `Text.TrimSpaceBefore` | main/src/main/kotlin/ca/weblite/ktswing/style/CssSelector.kt:40 | A leading space is trimmed off whitespace-free text. |
| `Text.RemovePrefix` | codegen/src/main/kotlin/ca/weblite/ktswing/codegen/CodeGenerator.kt:101-103 | The text is the prefix followed by the result when it starts with the prefix; otherwise it is unchanged. |
| `Text.SubstringAfterLast` | codegen/src/main/kotlin/ca/weblite/ktswing/codegen/CodeGenerator.kt:242 | The result is a suffix free of c, and it is either the whole text or preceded by c. |
| `Text.ReplaceChar` | codegen/src/main/kotlin/ca/weblite/ktswing/codegen/CodeGenerator.kt:117 | Same length, and every `from` replaced by `to`, every other character kept. |
| `Traversal.ChildWellFormed` | main/src/main/kotlin/ca/weblite/ktswing/style/Stylesheet.kt:28-31 | The children of a well-formed component are reached by their index and are well formed. |
| `Traversal.PostOrderMembers` | main/src/main/kotlin/ca/weblite/ktswing/style/Stylesheet.kt:27-44 | The subtree walk at p visits exactly the components at or below p. |
| `Traversal.SubtreesMembers` | main/src/main/kotlin/ca/weblite/ktswing/style/Stylesheet.kt:28-33 | The walk of the first k children visits exactly the components strictly below p under a child index below k. |
| `Traversal.AppendInPostOrder` | main/src/main/kotlin/ca/weblite/ktswing/style/Stylesheet.kt:27-44 | Two post-ordered walks, the first wholly before the second, concatenate to a post-ordered walk. |
| `Traversal.SiblingsBefore` | main/src/main/kotlin/ca/weblite/ktswing/style/Stylesheet.kt:30-32 | A component under an earlier child comes before one under a later child. |
| `Traversal.PostOrderSorted` | main/src/main/kotlin/ca/weblite/ktswing/style/Stylesheet.kt:27-44 | The subtree walk is in strict post-order: descendants and earlier siblings first. |
| `Traversal.SubtreesSorted` | main/src/main/kotlin/ca/weblite/ktswing/style/Stylesheet.kt:28-33 | The walk of the first k children is in strict post-order. |
| `Traversal.VisitsEachOnce` | main/src/main/kotlin/ca/weblite/ktswing/style/Stylesheet.kt:27-44 | `apply(root)` visits every component of the subtree exactly once, each after its children, the root last. |
| `Styles.KnownBelowHigh` | main/src/main/kotlin/ca/weblite/ktswing/style/Stylesheet.kt:34-43 | In a well-ranked store every style a sheet refers to is ranked below the top, so applying it terminates. |
| `Styles.StyleStore.NewChainable` | main/src/main/kotlin/ca/weblite/ktswing/style/ChainableStyle.kt:5-9 | A fresh object with the given target class and selector, no wrapped style and no child sheets; all other objects kept; the store stays well ranked. |
| `Styles.StyleStore.Wrap` | main/src/main/kotlin/ca/weblite/ktswing/style/ChainableStyle.kt:11-13 | A fresh object copying the wrapped style's target class and selector and wrapping it; all other objects kept; the store stays well ranked. |
| `Styles.StyleStore.AsChainable` | main/src/main/kotlin/ca/weblite/ktswing/style/ChainableStyle.kt:28-31 | A chainable argument is returned itself with nothing changed; a plain one gets a fresh wrapper. |
| `Styles.StyleStore.Add` | main/src/main/kotlin/ca/weblite/ktswing/style/ChainableStyle.kt:20-26 | As written: for any argument that does not lead back to c, a sheet holding `registered` is appended to c and nothing else changes; the handle has the argument's class and selector; for a plain style handle and registered are two distinct fresh wrappers and nothing refers to the handle. |
| `Styles.StyleStore.AddExisting` | main/src/main/kotlin/ca/weblite/ktswing/style/ChainableStyle.kt:20-26 | With a chainable argument both `asChainable` calls give it, so it is both registered and returned and no object is created. |
| `Styles.StyleStore.AddPlain` | main/src/main/kotlin/ca/weblite/ktswing/style/ChainableStyle.kt:20-26 | With a plain style two equal fresh wrappers are made; the second is registered and the first returned, and no object refers to the first. |
| `Styles.StyleStore.AddIntended` | main/src/main/kotlin/ca/weblite/ktswing/style/ChainableStyle.kt:20-26 | Corrected: the returned object is exactly the one registered in the new child sheet. |
| `Styles.StyleStore.AppendChildSheet` | main/src/main/kotlin/ca/weblite/ktswing/style/ChainableStyle.kt:24 | For any w from which c cannot be reached, c's child sheets gain a sheet holding only w, every other object is unchanged, and the store stays acyclic (its ghost ranks are lifted to fit). |
| `Styles.AddedChildAfterGrowth` | main/src/main/kotlin/ca/weblite/ktswing/style/ChainableStyle.kt:20-26 | Appending after creating wrappers is, seen from the store before, still appending one sheet to c. |
| `Styles.WrapperBelow` | main/src/main/kotlin/ca/weblite/ktswing/style/ChainableStyle.kt:11-13 | A new wrapper refers only to lower-ranked objects. |
| `Styles.Grown` | main/src/main/kotlin/ca/weblite/ktswing/style/ChainableStyle.kt:11-13 | Adding objects that refer downwards keeps the store well ranked. |
| `Styles.BelowGrown` | main/src/main/kotlin/ca/weblite/ktswing/style/ChainableStyle.kt:11-13 | References to lower ranks stay so when the store grows. |
| `Styles.BelowRaised` | main/src/main/kotlin/ca/weblite/ktswing/style/ChainableStyle.kt:24 | A reference into a set stays below its referrer when no rank in the set rises more than the referrer's. |
| `Styles.Reranked` | main/src/main/kotlin/ca/weblite/ktswing/style/ChainableStyle.kt:24 | Appending a sheet holding w to c, where a closed set holds w and not c, leaves the store acyclic once the objects outside that set are lifted above w. |
| `Styles.ObjectInGrown` | main/src/main/kotlin/ca/weblite/ktswing/style/ChainableStyle.kt:20-26 | References into a set stay inside any superset. |
| `Styles.ObjectRefsExist` | main/src/main/kotlin/ca/weblite/ktswing/style/ChainableStyle.kt:15-18 | In a well-ranked store every reference an object holds is to an existing object. |
| `Styles.PlainAdded` | main/src/main/kotlin/ca/weblite/ktswing/style/ChainableStyle.kt:20-26 | The two wraps and the append of `add` with a plain style amount to appending w to c, two distinct equal new objects, and a handle nothing refers to. |
| `Styles.NoOneRefersToHandle` | main/src/main/kotlin/ca/weblite/ktswing/style/ChainableStyle.kt:22-25 | After `add` with a plain style the set of all objects but the returned handle is closed under references. |
| `Styles.Passes` | main/src/main/kotlin/ca/weblite/ktswing/style/Stylesheet.kt:34-43 | A style passes at a component exactly when its target class is assignable from the component's class and every clause of its selector holds at the matching ancestor (both directions). |
| `Styles.WithinChild` | main/src/main/kotlin/ca/weblite/ktswing/style/Stylesheet.kt:30-31 | Calls on a child's subtree are calls on its parent's subtree. |
| `Styles.SheetLog` | main/src/main/kotlin/ca/weblite/ktswing/style/Stylesheet.kt:27-44 | Applying a sheet at p only calls lambdas on p or its descendants. |
| `Styles.ChildrenLog` | main/src/main/kotlin/ca/weblite/ktswing/style/Stylesheet.kt:28-33 | The child loop only calls lambdas within p's subtree. |
| `Styles.StylesLog` | main/src/main/kotlin/ca/weblite/ktswing/style/Stylesheet.kt:34-43 | The style loop only calls lambdas within p's subtree. |
| `Styles.StyleLog` | main/src/main/kotlin/ca/weblite/ktswing/style/Stylesheet.kt:40 | One style applied at p only calls lambdas within p's subtree. |
| `Styles.ChainLog` | main/src/main/kotlin/ca/weblite/ktswing/style/ChainableStyle.kt:15-18 | A chainable style applied at p only calls lambdas within p's subtree. |
| `Styles.SheetsLog` | main/src/main/kotlin/ca/weblite/ktswing/style/ChainableStyle.kt:17 | Child sheets applied at p only call lambdas within p's subtree. |
| `Styles.Log` | main/src/main/kotlin/ca/weblite/ktswing/style/Stylesheet.kt:27-44 | `apply(root)` only calls lambdas on root or its descendants. |
| `Styles.ApplySheet` | main/src/main/kotlin/ca/weblite/ktswing/style/Stylesheet.kt:27-44 | The lambda calls made are exactly SheetLog: children's subtrees first (only for a Container), then the passing styles. |
| `Styles.ApplyChildren` | main/src/main/kotlin/ca/weblite/ktswing/style/Stylesheet.kt:28-33 | The child loop makes exactly the calls of the children's subtrees, in index order. |
| `Styles.ApplyStyles` | main/src/main/kotlin/ca/weblite/ktswing/style/Stylesheet.kt:34-43 | The style loop makes exactly the calls of the styles that pass, in list order. |
| `Styles.ApplyStyle` | main/src/main/kotlin/ca/weblite/ktswing/style/Stylesheet.kt:15-21 | A lambda style calls its lambda once on the component; a chainable style makes ChainLog's calls. |
| `Styles.ApplyChainable` | main/src/main/kotlin/ca/weblite/ktswing/style/ChainableStyle.kt:15-18 | The wrapped style's calls, then each child sheet's, in insertion order. |
| `Styles.ApplySheets` | main/src/main/kotlin/ca/weblite/ktswing/style/ChainableStyle.kt:17 | The child sheets applied to the target in order, one log after the other. |
| `Styles.Stylesheet.constructor` | main/src/main/kotlin/ca/weblite/ktswing/style/Stylesheet.kt:6-8 | A new stylesheet has no styles. |
| `Styles.Stylesheet.Register` | main/src/main/kotlin/ca/weblite/ktswing/style/Stylesheet.kt:10-13 | The style is appended at the end. |
| `Styles.Stylesheet.RegisterSelector` | main/src/main/kotlin/ca/weblite/ktswing/style/Stylesheet.kt:15-21 | Appends a lambda style with that class, the parsed selector and the lambda. |
| `Styles.Stylesheet.RegisterClass` | main/src/main/kotlin/ca/weblite/ktswing/style/Stylesheet.kt:23-25 | Appends a lambda style whose selector is the parsed `*`. |
| `Styles.Stylesheet.Apply` | main/src/main/kotlin/ca/weblite/ktswing/style/Stylesheet.kt:27-44 | The calls made are Log of the sheet at the root; they depend only on store, hierarchy and styles. |
| `StyleFrames.FrameSheet` | main/src/main/kotlin/ca/weblite/ktswing/style/Stylesheet.kt:27-44 | A sheet whose styles refer into a closed set makes the same calls in any store that agrees on that set, whatever the ranks. |
| `StyleFrames.FrameChildren` | main/src/main/kotlin/ca/weblite/ktswing/style/Stylesheet.kt:28-33 | Likewise for the child loop. |
| `StyleFrames.FrameStyles` | main/src/main/kotlin/ca/weblite/ktswing/style/Stylesheet.kt:34-43 | Likewise for the style loop. |
| `StyleFrames.FrameStyle` | main/src/main/kotlin/ca/weblite/ktswing/style/Stylesheet.kt:40 | Likewise for one style. |
| `StyleFrames.FrameChain` | main/src/main/kotlin/ca/weblite/ktswing/style/ChainableStyle.kt:15-18 | A chainable object in the closed set does the same in both stores. |
| `StyleFrames.FrameSheets` | main/src/main/kotlin/ca/weblite/ktswing/style/ChainableStyle.kt:17 | Likewise for a list of child sheets. |
| `StyleFrames.LogFrame` | main/src/main/kotlin/ca/weblite/ktswing/style/Stylesheet.kt:27-44 | A top-level sheet referring into a closed set is unaffected by any change outside it. |
| `StyleFrames.Lower` | main/src/main/kotlin/ca/weblite/ktswing/style/ChainableStyle.kt:20-26 | The objects ranked below r: a closed set without r. |
| `StyleFrames.ObjectInLower` | main/src/main/kotlin/ca/weblite/ktswing/style/ChainableStyle.kt:15-18 | Everything r refers to lies below r. |
| `StyleFrames.BelowCannotReach` | main/src/main/kotlin/ca/weblite/ktswing/style/ChainableStyle.kt:20-26 | An object ranked below c cannot reach c, so adding it to c makes no cycle. |
| `StyleFrames.RankableNeedsNoPath` | main/src/main/kotlin/ca/weblite/ktswing/style/ChainableStyle.kt:20-26 | If the store with w added to c is acyclic at all, c could not be reached from w before: the requirement of `add` is exactly the absence of a cycle. |
| `StyleFrames.NoSelfAdd` | main/src/main/kotlin/ca/weblite/ktswing/style/ChainableStyle.kt:20-26 | `s.add(s)` is the one add that can never meet the requirement. |
| `StyleFrames.AddExtendsChainLog` | main/src/main/kotlin/ca/weblite/ktswing/style/ChainableStyle.kt:20-26 | After `c.add(…)` registered w, applying c makes its old calls and then those of the new sheet holding w. |
| `StyleFrames.LowerAgrees` | main/src/main/kotlin/ca/weblite/ktswing/style/ChainableStyle.kt:20-26 | `add` on c leaves every object ranked below c as it was. |
| `StyleFrames.OldPartsAgree` | main/src/main/kotlin/ca/weblite/ktswing/style/ChainableStyle.kt:20-26 | `add` on c changes neither what c wraps nor what its earlier child sheets do. |
| `StyleFrames.ExtendedSheets` | main/src/main/kotlin/ca/weblite/ktswing/style/ChainableStyle.kt:20-26 | The unfolding step of AddExtendsChainLog: old ChainLog followed by the new sheet's log. |
| `StyleFrames.SheetsLogSnoc` | main/src/main/kotlin/ca/weblite/ktswing/style/ChainableStyle.kt:17 | One more child sheet appends its calls at the end. |
| `StyleProps.NodesLogAppend` | main/src/main/kotlin/ca/weblite/ktswing/style/Stylesheet.kt:27-44 | Style loops over two component lists concatenate. |
| `StyleProps.AllBelowAppend` | main/src/main/kotlin/ca/weblite/ktswing/style/Stylesheet.kt:34-43 | Two style lists that refer below a bound refer below it together. |
| `StyleProps.SheetLogIsPostOrder` | main/src/main/kotlin/ca/weblite/ktswing/style/Stylesheet.kt:27-44 | On a well-formed hierarchy, `apply(root)` runs the style loop at every component of the subtree in post-order. |
| `StyleProps.ChildrenLogIsSubtrees` | main/src/main/kotlin/ca/weblite/ktswing/style/Stylesheet.kt:28-33 | The child loop runs the style loops of the children's subtrees in post-order. |
| `StyleProps.StylesAppend` | main/src/main/kotlin/ca/weblite/ktswing/style/Stylesheet.kt:34-43 | The style loop over two lists is the loop over the first then over the second. |
| `StyleProps.StyleThatFailsIsSkipped` | main/src/main/kotlin/ca/weblite/ktswing/style/Stylesheet.kt:35-38 | A style whose class or selector does not pass contributes nothing. |
| `StyleProps.EmptySheetQuiet` | main/src/main/kotlin/ca/weblite/ktswing/style/Stylesheet.kt:27-44 | A sheet with no styles calls nothing anywhere in the subtree. |
| `StyleProps.EmptySheetChildrenQuiet` | main/src/main/kotlin/ca/weblite/ktswing/style/Stylesheet.kt:28-33 | Likewise for the child loop. |
| `StyleProps.LambdaStylesLog` | main/src/main/kotlin/ca/weblite/ktswing/style/Stylesheet.kt:34-43 | At one component a lambda-only sheet calls exactly the lambdas of the styles that pass there (both directions). |
| `StyleProps.LambdaNodesLog` | main/src/main/kotlin/ca/weblite/ktswing/style/Stylesheet.kt:27-44 | Over a list of components, exactly the (component, lambda) pairs whose style passes there. |
| `StyleProps.LambdaSheetFires` | main/src/main/kotlin/ca/weblite/ktswing/style/Stylesheet.kt:27-44 | `apply(root)` with a lambda-only sheet calls lambda a on q exactly when q is in the subtree and a style with lambda a passes at q. |
| `StyleProps.EveryComponentStyle` | main/src/main/kotlin/ca/weblite/ktswing/style/Stylesheet.kt:23-25 | A `register(cls, fn)` style passes exactly at the components whose class cls is assignable from. |
| `ChainAdd.AddToHandleIsLost` | main/src/main/kotlin/ca/weblite/ktswing/style/ChainableStyle.kt:20-26 | As written: an `add` on the detached handle leaves every top-level sheet's calls unchanged. |
| `ChainAdd.ParentUnchangedByHandleAdd` | main/src/main/kotlin/ca/weblite/ktswing/style/ChainableStyle.kt:20-26 | As written: the object `add` was first called on does exactly what it did before. |
| `ChainAdd.ChainedAdds` | main/src/main/kotlin/ca/weblite/ktswing/style/ChainableStyle.kt:20-26 | Two adds in a row, the second on the object the first registered, amount to registering that object under c. |
| `ChainAdd.ChainedAddReaches` | main/src/main/kotlin/ca/weblite/ktswing/style/ChainableStyle.kt:20-26 | Intended: applying a runs the new handle's sheet, and applying the handle runs x's sheet. |
| `ChainAdd.ChainedAddFires` | main/src/main/kotlin/ca/weblite/ktswing/style/ChainableStyle.kt:20-26 | Intended: wherever the handle passes, every call x's sheet makes is also made when a is applied. |
| `ChainAdd.AddInEitherOrder` | main/src/main/kotlin/ca/weblite/ktswing/style/ChainableStyle.kt:5-26 | `b = ChainableStyle(..); a = ChainableStyle(..); a.add(b); b.add(x)` is accepted whatever the creation order: a's only sheet holds b and b gains a sheet. |
| `ClassList.NonEmpty` | main/src/main/kotlin/ca/weblite/ktswing/extensions/ComponentExtensions.kt:24 | Keeps exactly the non-empty pieces. |
| `ClassList.Distinct` | main/src/main/kotlin/ca/weblite/ktswing/extensions/ComponentExtensions.kt:25 | No duplicates, same members, never longer. |
| `ClassList.Tokens` | main/src/main/kotlin/ca/weblite/ktswing/extensions/ComponentExtensions.kt:20-25 | The names read are distinct and are exactly the non-empty pieces of the property split on spaces (none when unset). |
| `ClassList.Serialize` | main/src/main/kotlin/ca/weblite/ktswing/extensions/ComponentExtensions.kt:49-51 | `joinToString(" ")`: empty for no names, and for plain names split on spaces gives them back one piece each. |
| `ClassList.Without` | main/src/main/kotlin/ca/weblite/ktswing/extensions/ComponentExtensions.kt:41 | Removes exactly e, keeping distinctness and plainness. |
| `ClassList.TokensArePlain` | main/src/main/kotlin/ca/weblite/ktswing/extensions/ComponentExtensions.kt:20-25 | Every name read is non-empty and free of spaces. |
| `ClassList.NonEmptyOfNonEmpty` | main/src/main/kotlin/ca/weblite/ktswing/extensions/ComponentExtensions.kt:24 | Filtering a list with no empty pieces keeps it. |
| `ClassList.DistinctOfDistinct` | main/src/main/kotlin/ca/weblite/ktswing/extensions/ComponentExtensions.kt:25 | Deduplicating a duplicate-free list keeps it in order. |
| `ClassList.TokensRoundTrip` | main/src/main/kotlin/ca/weblite/ktswing/extensions/ComponentExtensions.kt:48-51 | Reading back what `flush` wrote gives the same names in the same order, for distinct plain names. |
| `ClassList.AddedTokens` | main/src/main/kotlin/ca/weblite/ktswing/extensions/ComponentExtensions.kt:30-37 | After a successful `add(e)`, reading back gives the old names then e. |
| `ClassList.RemovedTokens` | main/src/main/kotlin/ca/weblite/ktswing/extensions/ComponentExtensions.kt:39-46 | After a successful `remove(e)`, reading back gives the old names without e. |
| `ClassList.WithoutAbsent` | main/src/main/kotlin/ca/weblite/ktswing/extensions/ComponentExtensions.kt:39-46 | Removing an absent name changes nothing. |
| `ClassList.MatchClassIsClassList` | main/src/main/kotlin/ca/weblite/ktswing/style/CssSelector.kt:79-94 | The selector's class test and `classList` read the same property: non-empty names pass exactly when the component is a JComponent whose `classList` holds them. |
| `ClassList.AddedClassMatches` | main/src/main/kotlin/ca/weblite/ktswing/extensions/ComponentExtensions.kt:30-37 | After `classList.add(e)` on a JComponent, the component passes the class test for e. |
| `ClassList.ClientComponent.ClassList` | main/src/main/kotlin/ca/weblite/ktswing/extensions/ComponentExtensions.kt:15-28 | The set's elements: the property's distinct non-empty names for a JComponent, none otherwise. |
| `ClassList.ClientComponent.Add` | main/src/main/kotlin/ca/weblite/ktswing/extensions/ComponentExtensions.kt:30-52 | On a JComponent: true iff e was absent, and then the property becomes the old names plus e; false leaves it alone. Elsewhere: true and nothing changes. |
| `ClassList.ClientComponent.Remove` | main/src/main/kotlin/ca/weblite/ktswing/extensions/ComponentExtensions.kt:39-52 | True iff e was present, and then the property becomes the names without e; otherwise nothing changes. |
| `ClassList.ClientComponent.Flush` | main/src/main/kotlin/ca/weblite/ktswing/extensions/ComponentExtensions.kt:48-51 | The property becomes the names joined by single spaces. |
| `MouseListeners.EventKeysDistinct` | main/src/main/kotlin/ca/weblite/ktswing/extensions/ComponentExtensions.kt:98-165 | The five keyed forms use five different event keys. |
| `MouseListeners.EventKey` | main/src/main/kotlin/ca/weblite/ktswing/extensions/ComponentExtensions.kt:99-157 | Every event key is a `mouse…` name. |
| `MouseListeners.Dispatch` | main/src/main/kotlin/ca/weblite/ktswing/extensions/ComponentExtensions.kt:54-82 | An event runs exactly the lambdas of the attached adapters of that kind. |
| `MouseListeners.DispatchAttach` | main/src/main/kotlin/ca/weblite/ktswing/extensions/ComponentExtensions.kt:54-58 | Attaching an adapter adds its lambda at the end for its own event only. |
| `MouseListeners.DispatchCons` | main/src/main/kotlin/ca/weblite/ktswing/extensions/ComponentExtensions.kt:54-82 | An adapter in front runs before the rest. |
| `MouseListeners.DispatchDetachOther` | main/src/main/kotlin/ca/weblite/ktswing/extensions/ComponentExtensions.kt:98-109 | Detaching an adapter for another event leaves this event's lambdas as they were. |
| `MouseListeners.KeyedDispatch` | main/src/main/kotlin/ca/weblite/ktswing/extensions/ComponentExtensions.kt:98-109 | After a keyed call an event runs the lambdas of the list without the adapter recorded before, then the new lambda for the call's own event; an event the old adapter did not react to runs what it ran before. |
| `MouseListeners.Detach` | main/src/main/kotlin/ca/weblite/ktswing/extensions/ComponentExtensions.kt:102 | Removes exactly that adapter. |
| `MouseListeners.Register` | main/src/main/kotlin/ca/weblite/ktswing/extensions/ComponentExtensions.kt:88-91 | Only the (component, key) map changes; every other one reads as before. |
| `MouseListeners.RegisterTwice` | main/src/main/kotlin/ca/weblite/ktswing/extensions/ComponentExtensions.kt:100-107 | Setting the same entry twice keeps the second value. |
| `MouseListeners.AtMostOneKeyedListener` | main/src/main/kotlin/ca/weblite/ktswing/extensions/ComponentExtensions.kt:98-109 | In a consistent registry at most one attached adapter comes from a given (component, event key, id). |
| `MouseListeners.DetachRecorded` | main/src/main/kotlin/ca/weblite/ktswing/extensions/ComponentExtensions.kt:102 | The list loses exactly the adapter recorded under id, if any. |
| `MouseListeners.MouseRegistry.constructor` | main/src/main/kotlin/ca/weblite/ktswing/extensions/ComponentExtensions.kt:12-13 | Starts empty and consistent. |
| `MouseListeners.MouseRegistry.AddMouseListener` | main/src/main/kotlin/ca/weblite/ktswing/extensions/ComponentExtensions.kt:108 | Appends the adapter to the component's list; nothing else changes. |
| `MouseListeners.MouseRegistry.RemoveMouseListener` | main/src/main/kotlin/ca/weblite/ktswing/extensions/ComponentExtensions.kt:102 | Removes the adapter from the component's list; nothing else changes. |
| `MouseListeners.MouseRegistry.GetMouseListenerMapFor` | main/src/main/kotlin/ca/weblite/ktswing/extensions/ComponentExtensions.kt:88-91 | Returns the recorded map (empty when none) and records it, creating the entries; an existing entry is left as it is. |
| `MouseListeners.MouseRegistry.OnMouse` | main/src/main/kotlin/ca/weblite/ktswing/extensions/ComponentExtensions.kt:54-82 | A new adapter for that event and lambda, attached at the end every time, never recorded. |
| `MouseListeners.MouseRegistry.OnMouseKeyed` | main/src/main/kotlin/ca/weblite/ktswing/extensions/ComponentExtensions.kt:98-165 | The adapter recorded for (component, key, id) is detached, a new one recorded and attached, the registry stays consistent, and the call's event then runs the remaining lambdas followed by the new one. |
| `MouseListeners.KeyedStep` | main/src/main/kotlin/ca/weblite/ktswing/extensions/ComponentExtensions.kt:98-109 | The steps of a keyed call together give the stated registry, list and a consistent registry. |
| `MouseListeners.RegisterGrows` | main/src/main/kotlin/ca/weblite/ktswing/extensions/ComponentExtensions.kt:88-91 | Creating the empty map for (c, key) keeps the registry consistent. |
| `MouseListeners.KeyedPreserves` | main/src/main/kotlin/ca/weblite/ktswing/extensions/ComponentExtensions.kt:98-109 | After detaching the old adapter and recording and attaching the new one, the registry is consistent. |
| `Containers.LayoutsNeedingParameters` | main/src/main/kotlin/ca/weblite/ktswing/extensions/ContainerExtensions.kt:47-55 | BorderLayout, CardLayout and GridBagLayout require parameters; FlowLayout and GridLayout do not. |
| `Containers.LayoutRequiresParameters` | main/src/main/kotlin/ca/weblite/ktswing/extensions/ContainerExtensions.kt:47-55 | True exactly when the layout's class is, or extends, BorderLayout, CardLayout or GridBagLayout (both directions). |
| `Containers.LayoutRequiresParametersInherited` | main/src/main/kotlin/ca/weblite/ktswing/extensions/ContainerExtensions.kt:47-55 | A subclass of such a layout requires them too (`is` tests). |
| `Containers.IsAutoAddEnabled` | main/src/main/kotlin/ca/weblite/ktswing/extensions/ContainerExtensions.kt:34-45 | An error exactly when the layout is null; false whenever the layout requires parameters. |
| `Containers.AutoAddExactly` | main/src/main/kotlin/ca/weblite/ktswing/extensions/ContainerExtensions.kt:34-45 | True exactly when the layout is set, takes no parameters, and the container is neither a JSplitPane nor AutoAddDisabled. |
| `Containers.BorderPaneNeverAutoAdds` | main/src/main/kotlin/ca/weblite/ktswing/extensions/ContainerExtensions.kt:34-45 | A BorderPane or any subclass never auto-adds. |
| `Containers.ImplementsInherited` | main/src/main/kotlin/ca/weblite/ktswing/extensions/ContainerExtensions.kt:40 | A declared interface holds for every subclass. |
| `Containers.JPanelAutoAdd` | main/src/main/kotlin/ca/weblite/ktswing/extensions/ContainerExtensions.kt:34-55 | A JPanel auto-adds with FlowLayout, not with BorderLayout; a JSplitPane never. |
| `Containers.LookupNearest` | main/src/main/kotlin/ca/weblite/ktswing/extensions/ContainerExtensions.kt:57-61 | None exactly when no container from p up holds a factory for the class; otherwise the factory of the nearest one that does. |
| `Containers.LookupOwnFirst` | main/src/main/kotlin/ca/weblite/ktswing/extensions/ContainerExtensions.kt:58 | A container's own factory shadows its ancestors'. |
| `Containers.LookupIgnoresEmpty` | main/src/main/kotlin/ca/weblite/ktswing/extensions/ContainerExtensions.kt:20-21 | Creating an empty map for a container changes no lookup. |
| `Containers.FactoryRegistry.constructor` | main/src/main/kotlin/ca/weblite/ktswing/extensions/ContainerExtensions.kt:10-11 | No container has a map yet. |
| `Containers.FactoryRegistry.Factories` | main/src/main/kotlin/ca/weblite/ktswing/extensions/ContainerExtensions.kt:20-21 | The existing map, or a new empty one that is stored. |
| `Containers.FactoryRegistry.SetFactory` | main/src/main/kotlin/ca/weblite/ktswing/extensions/ContainerExtensions.kt:63-65 | The container's entry for the class becomes f; nothing else changes. |
| `Containers.FactoryRegistry.GetFactoryForComponent` | main/src/main/kotlin/ca/weblite/ktswing/extensions/ContainerExtensions.kt:57-61 | Returns the nearest factory from the container up; maps that existed keep their entries, and the maps it creates are empty and belong to containers on p's parent chain, so no lookup changes. |
| `Containers.LookupAfterAccess` | main/src/main/kotlin/ca/weblite/ktswing/extensions/ContainerExtensions.kt:20-21 | The first access of the `factory` property leaves every lookup unchanged. |
| `Containers.SetFactoryEffect` | main/src/main/kotlin/ca/weblite/ktswing/extensions/ContainerExtensions.kt:57-65 | After `factory(cls, f)` on p, p finds f, and lookups of other classes or from outside p's subtree are unchanged. |
| `Containers.SetFactoryReachesBelow` | main/src/main/kotlin/ca/weblite/ktswing/extensions/ContainerExtensions.kt:57-65 | A container below p finds f unless a container between them holds its own factory for the class. |
| `CodeGen.Lower` | codegen/src/main/kotlin/ca/weblite/ktswing/codegen/CodeGenerator.kt:256 | Lower-cases an ASCII upper-case letter and keeps every other character. |
| `CodeGen.LowerFirst` | codegen/src/main/kotlin/ca/weblite/ktswing/codegen/CodeGenerator.kt:256-258 | Same length; only the first character is lower-cased. |
| `CodeGen.DeriveFunctionName` | codegen/src/main/kotlin/ca/weblite/ktswing/codegen/CodeGenerator.kt:254-260 | `J` plus an upper-case letter drops the J; otherwise the length is kept; the first character is never upper-case. |
| `CodeGen.FunctionNameRecoversClass` | codegen/src/main/kotlin/ca/weblite/ktswing/codegen/CodeGenerator.kt:254-260 | For `J` plus upper-case names, the class name is recovered from the function name. |
| `CodeGen.FunctionNameOtherwise` | codegen/src/main/kotlin/ca/weblite/ktswing/codegen/CodeGenerator.kt:257-258 | Any other name only has its first character lower-cased. |
| `CodeGen.FunctionNameExamples` | codegen/src/main/kotlin/ca/weblite/ktswing/codegen/CodeGenerator.kt:250-260 | JButton→button, JComboBox→comboBox, Box→box, Jx→jx, empty→empty. |
| `CodeGen.BuildTypeParamDecl` | codegen/src/main/kotlin/ca/weblite/ktswing/codegen/CodeGenerator.kt:229-248 | The declaration starts with the type variable's name. |
| `CodeGen.TypeParamDeclShape` | codegen/src/main/kotlin/ca/weblite/ktswing/codegen/CodeGenerator.kt:229-248 | The declaration is more than the name exactly when there is one bound other than `java.lang.Object`, and then it is `name : ` plus the bound after its last dot. |
| `CodeGen.AfterLastDot` | codegen/src/main/kotlin/ca/weblite/ktswing/codegen/CodeGenerator.kt:242 | The simple name of `pkg.Simple` (Simple dot-free) is Simple. |
| `CodeGen.TypeParamDeclExamples` | codegen/src/main/kotlin/ca/weblite/ktswing/codegen/CodeGenerator.kt:229-248 | An Object bound, no bound, or two bounds each give the bare name. |
| `CodeGen.QualifiedBoundDecl` | codegen/src/main/kotlin/ca/weblite/ktswing/codegen/CodeGenerator.kt:237-244 | One qualified bound other than Object gives `name : Simple`. |
| `CodeGen.NewPackage` | codegen/src/main/kotlin/ca/weblite/ktswing/codegen/CodeGenerator.kt:109-115 | Every generated package lies under `ca.weblite.ktswing`. |
| `CodeGen.PackagePath` | codegen/src/main/kotlin/ca/weblite/ktswing/codegen/CodeGenerator.kt:117 | Same length and no dots left. |
| `CodeGen.SubPackage` | codegen/src/main/kotlin/ca/weblite/ktswing/codegen/CodeGenerator.kt:101-103 | `javax.swing` gives the empty key, `javax.swing.x` gives x, and a package starting with neither `javax.swing` nor `.` is its own key. |
| `CodeGen.SwingPackageInverse` | codegen/src/main/kotlin/ca/weblite/ktswing/codegen/CodeGenerator.kt:101-116 | The Swing package written for a group key gives that key back. |
| `CodeGen.SubPackageRoundTrip` | codegen/src/main/kotlin/ca/weblite/ktswing/codegen/CodeGenerator.kt:101-116 | For `javax.swing` or a package below it, the group's Swing package is the class's own package. |
| `CodeGen.SubPackageExamples` | codegen/src/main/kotlin/ca/weblite/ktswing/codegen/CodeGenerator.kt:100-103 | `javax.swing` gives the empty key, `javax.swing.text` gives `text`. |
| `CodeGen.DistinctGroupsDistinctPaths` | codegen/src/main/kotlin/ca/weblite/ktswing/codegen/CodeGenerator.kt:108-118 | Different slash-free keys are written to different directories. |
| `CodeGen.Members` | codegen/src/main/kotlin/ca/weblite/ktswing/codegen/CodeGenerator.kt:98-105 | A group is never longer than the class list. |
| `CodeGen.MembersIn` | codegen/src/main/kotlin/ca/weblite/ktswing/codegen/CodeGenerator.kt:98-105 | A group holds exactly the classes with its key. |
| `CodeGen.KeyOrderCovers` | codegen/src/main/kotlin/ca/weblite/ktswing/codegen/CodeGenerator.kt:98-105 | Every class's key is listed. |
| `CodeGen.KeyOrderDistinct` | codegen/src/main/kotlin/ca/weblite/ktswing/codegen/CodeGenerator.kt:98-105 | No key is listed twice. |
| `CodeGen.UnlistedKeyEmpty` | codegen/src/main/kotlin/ca/weblite/ktswing/codegen/CodeGenerator.kt:104 | A key not listed has no members. |
| `CodeGen.ExactlyOneGroup` | codegen/src/main/kotlin/ca/weblite/ktswing/codegen/CodeGenerator.kt:97-105 | Each class is in exactly the group of its own key, and that key is listed. |
| `CodeGen.MembersSorted` | codegen/src/main/kotlin/ca/weblite/ktswing/codegen/CodeGenerator.kt:93-105 | Groups of a name-sorted list are name-sorted. |
| `CodeGen.GroupBySubpackage` | codegen/src/main/kotlin/ca/weblite/ktswing/codegen/CodeGenerator.kt:98-105 | The loop builds keys in order of first appearance and each group as exactly its members, never empty. |
| `CodeGen.GroupStep` | codegen/src/main/kotlin/ca/weblite/ktswing/codegen/CodeGenerator.kt:104 | One more class extends the key order and its own group as the loop body does. |
| `CodeGen.GroupsStep` | codegen/src/main/kotlin/ca/weblite/ktswing/codegen/CodeGenerator.kt:99-105 | The loop body keeps the loop's invariants: keys in first-appearance order, and each group exactly its members so far. |
| `CodeGen.Decls` | codegen/src/main/kotlin/ca/weblite/ktswing/codegen/CodeGenerator.kt:190 | One declaration per type variable, in order. |
| `CodeGen.Names` | codegen/src/main/kotlin/ca/weblite/ktswing/codegen/CodeGenerator.kt:192 | One name per type variable, in order. |
| `CodeGen.GenerateBuilder` | codegen/src/main/kotlin/ca/weblite/ktswing/codegen/CodeGenerator.kt:158-221 | The generic template exactly when the class has type parameters; the function name is derived and the simple name kept. |
| `CodeGen.BuildersOf` | codegen/src/main/kotlin/ca/weblite/ktswing/codegen/CodeGenerator.kt:121-123 | One builder per class, in group order. |
| `CodeGen.FileFor` | codegen/src/main/kotlin/ca/weblite/ktswing/codegen/CodeGenerator.kt:108-146 | The file's package is the derived one, its directory is that package's path, one builder per class. |
| `CodeGen.WriteGroups` | codegen/src/main/kotlin/ca/weblite/ktswing/codegen/CodeGenerator.kt:108-148 | One file per key, in key order, each for that key's group. |
| `CodeGen.KeyOrderListed` | codegen/src/main/kotlin/ca/weblite/ktswing/codegen/CodeGenerator.kt:98-105 | A listed key is the key of some class. |
| `CodeGen.SubPackageNoSlash` | codegen/src/main/kotlin/ca/weblite/ktswing/codegen/CodeGenerator.kt:101-103 | A slash-free package gives a slash-free key. |
| `CodeGen.GenerationCoversEachClassOnce` | codegen/src/main/kotlin/ca/weblite/ktswing/codegen/CodeGenerator.kt:97-148 | Every class lands in exactly one group, its own, and distinct groups get distinct directories. |

## Left out

- `Styles.StyleStore.Add`: requires that c cannot be reached from an existing chainable argument through wrapped styles and child sheets, so that no cycle forms. The source also accepts `s.add(s)` or an add that closes a longer cycle, after which `apply` recurses until the stack overflows; that behaviour is not modelled. Every add that forms no cycle is accepted, in any creation order.
- `Styles.StyleStore.AddExisting`: the same no-cycle requirement as `Add`, for the same reason.
- `Styles.StyleStore.AddIntended`: the same no-cycle requirement as `Add`, for the same reason.
- `Styles.StyleStore.AppendChildSheet`: the same no-cycle requirement as `Add`, for the same reason.
- User-written `Style` and `Selector` implementations are not modelled. A style is either the lambda style that `register` makes or a `ChainableStyle`, and a selector is a `CssSelector`.
- The bodies of user lambdas (style actions, mouse handlers, component factories) are not modelled. They appear as opaque ids, and applying a stylesheet is observed only as the sequence of lambda calls it makes. The lambdas are assumed not to change the hierarchy or the stylesheets while they run.
- `WeakHashMap` garbage collection of the mouse-listener and factory registries is not modelled; entries are kept forever.
- Swing's own listener lists and event dispatch are not modelled: a listener list is a sequence, and an event runs the matching adapters in order.
- `JComponent.at(pos)` (ContainerExtensions.kt:23-27) is not modelled. It only forwards to `Container.add` with a client property that the core does not otherwise read.
- `CodeGen.DeriveFunctionName`: `isUpperCase` and `lowercase` are taken on ASCII letters only; Unicode case mapping is not modelled.
- The reflection, class loading and filtering of `CodeGenerator.main` (lines 67-95) is not modelled. Its output is taken as the input list, already sorted by name. `sortedBy` itself is not modelled; `CodeGen.MembersSorted` shows that the grouping keeps that order.
- The text of the generated Kotlin templates (CodeGenerator.kt:126-143, 166-219) is not modelled. A generated file is modelled by its package, directory, Swing package and builder list, and a builder by its template choice and names.
- File-system writes and console output are not modelled.
- Concurrency and the Swing event-dispatch thread are not modelled.
- The `coroutines`, `jgoodies` and `swingx` modules, and the `BorderPane` properties other than its class and its `AutoAddDisabled` marker, are not part of this model.

## Findings

| source | as written | input that shows it | evidently intended | confidence | as-written member | corrected member |
|---|---|---|---|---|---|---|
| main/src/main/kotlin/ca/weblite/ktswing/style/ChainableStyle.kt:20-26 | `add` calls `asChainable(style)` twice. For a plain (non-chainable) style this makes two different wrappers: the one registered in the new child sheet, and a different one that is returned. | `a.add(b).add(x)` with `b` a lambda style: `x` is attached to the returned wrapper, which no stylesheet refers to, so applying `a` never runs `x`. | The returned `ChainableStyle` is the one registered, so `x` runs under `b` under `a`. | not executed | `ChainAdd.AddToHandleIsLost` | `Styles.StyleStore.AddIntended` |
