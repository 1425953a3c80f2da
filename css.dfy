/** The CSS syntax tree as css-tree hands it to the ripper, reduced to what the
    ripper looks at, and the tree walks the ripper performs on it: pruning
    unused selectors, collecting selector names, and renaming them. The
    simple selectors are those of section 6 of the W3C "Selectors Level 3"
    recommendation; css-tree represents the universal selector `*` as a type
    selector named `*`. */
module Css {
  import opened Names

  datatype Component =
    | TypeSelector(name: string)
    | ClassSelector(name: string)
    | IdSelector(name: string)
    | AttributeSelector(text: string)
    | PseudoSelector(text: string)
    | Combinator(text: string)

  /** One item of a comma-separated selector list. */
  type Selector = seq<Component>

  /** A node of a list of CSS nodes: a rule with its selector list and its
      (uninspected) declaration block, an at-rule such as `@media` with its
      nested nodes, or a comment. */
  datatype Node =
    | Rule(selectors: seq<Selector>, block: string)
    | Atrule(name: string, prelude: string, children: seq<Node>)
    | Comment(text: string)

  type Stylesheet = seq<Node>

  /** The two renamed kinds of simple selector. */
  datatype Kind = ClassKind | IdKind

  predicate OfKind(c: Component, kind: Kind)
  {
    match kind
    case ClassKind => c.ClassSelector?
    case IdKind => c.IdSelector?
  }

  // ---------------------------------------------------------------------
  // What a walk sees, in walk order
  // ---------------------------------------------------------------------

  /** Every selector of every rule, at every depth, in document order. */
  function SelectorsOf(ns: seq<Node>): seq<Selector>
    decreases ns
  {
    if ns == [] then [] else SelectorsOf(ns[..|ns| - 1]) + NodeSelectors(ns[|ns| - 1])
  }

  function NodeSelectors(n: Node): seq<Selector>
    decreases n
  {
    match n
    case Rule(sels, _) => sels
    case Atrule(_, _, kids) => SelectorsOf(kids)
    case Comment(_) => []
  }

  function Flatten(sels: seq<Selector>): seq<Component>
  {
    if sels == [] then [] else Flatten(sels[..|sels| - 1]) + sels[|sels| - 1]
  }

  /** The cleaned names of the components of one kind, in order: what a
      `cssTree.walk` visiting `ClassSelector` or `IdSelector` reads. */
  function NamesOfKind(cs: seq<Component>, kind: Kind): seq<string>
  {
    if cs == [] then []
    else NamesOfKind(cs[..|cs| - 1], kind)
         + (if OfKind(cs[|cs| - 1], kind) then [Clean(cs[|cs| - 1].name)] else [])
  }

  /** The cleaned names of all selectors of one kind in a list of nodes. */
  function SheetNames(ns: seq<Node>, kind: Kind): seq<string>
  {
    NamesOfKind(Flatten(SelectorsOf(ns)), kind)
  }

  /** Every at-rule, at every depth, as (name, prelude), in document order. */
  function AtrulesOf(ns: seq<Node>): seq<(string, string)>
    decreases ns
  {
    if ns == [] then [] else AtrulesOf(ns[..|ns| - 1]) + NodeAtrules(ns[|ns| - 1])
  }

  function NodeAtrules(n: Node): seq<(string, string)>
    decreases n
  {
    match n
    case Atrule(name, prelude, kids) => [(name, prelude)] + AtrulesOf(kids)
    case _ => []
  }

  /** No comment at any depth. */
  predicate NoComments(ns: seq<Node>)
    decreases ns
  {
    forall i :: 0 <= i < |ns| ==> NodeHasNoComments(ns[i])
  }

  predicate NodeHasNoComments(n: Node)
    decreases n
  {
    match n
    case Comment(_) => false
    case Atrule(_, _, kids) => NoComments(kids)
    case Rule(_, _) => true
  }

  /** Every rule, at every depth, has at least one selector. */
  predicate RulesNonEmpty(ns: seq<Node>)
    decreases ns
  {
    forall i :: 0 <= i < |ns| ==> NodeRulesNonEmpty(ns[i])
  }

  predicate NodeRulesNonEmpty(n: Node)
    decreases n
  {
    match n
    case Rule(sels, _) => |sels| > 0
    case Atrule(_, _, kids) => RulesNonEmpty(kids)
    case Comment(_) => true
  }

  lemma {:induction false} SelectorsOfAppend(a: seq<Node>, b: seq<Node>)
    ensures SelectorsOf(a + b) == SelectorsOf(a) + SelectorsOf(b)
  {
    if b == [] {
      assert a + b == a;
    } else {
      assert (a + b)[..|a + b| - 1] == a + b[..|b| - 1];
      assert (a + b)[|a + b| - 1] == b[|b| - 1];
      SelectorsOfAppend(a, b[..|b| - 1]);
    }
  }

  lemma {:induction false} AtrulesOfAppend(a: seq<Node>, b: seq<Node>)
    ensures AtrulesOf(a + b) == AtrulesOf(a) + AtrulesOf(b)
  {
    if b == [] {
      assert a + b == a;
    } else {
      assert (a + b)[..|a + b| - 1] == a + b[..|b| - 1];
      assert (a + b)[|a + b| - 1] == b[|b| - 1];
      AtrulesOfAppend(a, b[..|b| - 1]);
    }
  }

  lemma {:induction false} FlattenAppend(a: seq<Selector>, b: seq<Selector>)
    ensures Flatten(a + b) == Flatten(a) + Flatten(b)
  {
    if b == [] {
      assert a + b == a;
    } else {
      assert (a + b)[..|a + b| - 1] == a + b[..|b| - 1];
      assert (a + b)[|a + b| - 1] == b[|b| - 1];
      FlattenAppend(a, b[..|b| - 1]);
    }
  }

  lemma {:induction false} NamesOfKindAppend(a: seq<Component>, b: seq<Component>, kind: Kind)
    ensures NamesOfKind(a + b, kind) == NamesOfKind(a, kind) + NamesOfKind(b, kind)
  {
    if b == [] {
      assert a + b == a;
    } else {
      assert (a + b)[..|a + b| - 1] == a + b[..|b| - 1];
      assert (a + b)[|a + b| - 1] == b[|b| - 1];
      NamesOfKindAppend(a, b[..|b| - 1], kind);
    }
  }

  /** A name read by a walk comes from a component of that kind. */
  lemma {:induction false} NamesOfKindMembers(cs: seq<Component>, kind: Kind)
    ensures forall x :: x in NamesOfKind(cs, kind) <==>
      exists i :: 0 <= i < |cs| && OfKind(cs[i], kind) && Clean(cs[i].name) == x
  {
    if cs != [] {
      var init := cs[..|cs| - 1];
      NamesOfKindMembers(init, kind);
      forall x ensures x in NamesOfKind(cs, kind) <==>
        exists i :: 0 <= i < |cs| && OfKind(cs[i], kind) && Clean(cs[i].name) == x
      {
        if x in NamesOfKind(init, kind) {
          var i :| 0 <= i < |init| && OfKind(init[i], kind) && Clean(init[i].name) == x;
          assert cs[i] == init[i];
        }
        if exists i :: 0 <= i < |cs| && OfKind(cs[i], kind) && Clean(cs[i].name) == x {
          var i :| 0 <= i < |cs| && OfKind(cs[i], kind) && Clean(cs[i].name) == x;
          if i < |init| {
            assert init[i] == cs[i];
          }
        }
      }
    }
  }

  /** The cleaned names of one kind over a list of sheets, file by file. */
  function SheetsNames(sheets: seq<Stylesheet>, kind: Kind): seq<string>
  {
    if sheets == [] then []
    else SheetsNames(sheets[..|sheets| - 1], kind) + SheetNames(sheets[|sheets| - 1], kind)
  }

  lemma {:induction false} SheetsNamesAppend(a: seq<Stylesheet>, b: seq<Stylesheet>, kind: Kind)
    ensures SheetsNames(a + b, kind) == SheetsNames(a, kind) + SheetsNames(b, kind)
  {
    if b == [] {
      assert a + b == a;
    } else {
      var init, last := b[..|b| - 1], b[|b| - 1];
      assert (a + b)[..|a + b| - 1] == a + init;
      assert (a + b)[|a + b| - 1] == last;
      SheetsNamesAppend(a, init, kind);
      calc {
        SheetsNames(a + b, kind);
        SheetsNames(a + init, kind) + SheetNames(last, kind);
        (SheetsNames(a, kind) + SheetsNames(init, kind)) + SheetNames(last, kind);
        SheetsNames(a, kind) + (SheetsNames(init, kind) + SheetNames(last, kind));
      }
    }
  }

  /** A name read from a list of sheets is read from one of them. */
  lemma {:induction false} SheetsNamesSource(sheets: seq<Stylesheet>, kind: Kind, x: string) returns (i: nat)
    requires x in SheetsNames(sheets, kind)
    ensures i < |sheets| && x in SheetNames(sheets[i], kind)
  {
    var init := sheets[..|sheets| - 1];
    if x in SheetsNames(init, kind) {
      i := SheetsNamesSource(init, kind, x);
    } else {
      i := |sheets| - 1;
    }
  }

  // ---------------------------------------------------------------------
  // Pruning (removeUnusedCSS / removeUnusedSelectors in rip.ts, the `Rule`
  // walks of styleripper.ts and styleripper.js). Which components count as
  // unused is the caller's `used` predicate.
  // ---------------------------------------------------------------------

  /** A selector survives when none of its components is unused. */
  predicate SelectorUsed(sel: Selector, used: Component -> bool)
  {
    forall i :: 0 <= i < |sel| ==> used(sel[i])
  }

  /** The test the pruning walks of styleripper.ts and styleripper.js apply
      to one component: a class selector must have an entry in the class
      table; every other component passes. */
  predicate ClassUsed(c: Component, classes: set<string>)
  {
    !c.ClassSelector? || Clean(c.name) in classes
  }

  function ClassesUsed(classes: set<string>): Component -> bool
  {
    c => ClassUsed(c, classes)
  }

  /** The selector list after removing every selector that holds an unused
      component; the order of the survivors is kept. */
  function KeepUsed(sels: seq<Selector>, used: Component -> bool): seq<Selector>
  {
    if sels == [] then []
    else KeepUsed(sels[..|sels| - 1], used)
         + (if SelectorUsed(sels[|sels| - 1], used) then [sels[|sels| - 1]] else [])
  }

  /** The selector-list loop with removal during iteration: css-tree's
      `List.each` keeps its cursor valid across `list.remove(item)`, so no
      selector is skipped. A selector is removed at its first unused
      component; the rule is to be removed when the list has become empty. */
  method RemoveUnusedSelectors(sels: seq<Selector>, used: Component -> bool)
    returns (kept: seq<Selector>, removeRule: bool)
    ensures kept == KeepUsed(sels, used)
    ensures removeRule <==> |sels| > 0 && kept == []
    ensures forall s :: s in kept ==> s in sels && SelectorUsed(s, used)
    ensures forall s :: s in sels && SelectorUsed(s, used) ==> s in kept
  {
    kept := [];
    removeRule := false;
    var i := 0;
    while i < |sels|
      invariant 0 <= i <= |sels|
      invariant kept == KeepUsed(sels[..i], used)
      invariant removeRule <==> i > 0 && i == |sels| && kept == []
    {
      var sel := sels[i];
      var removed := false;
      var j := 0;
      while j < |sel| && !removed
        invariant 0 <= j <= |sel|
        invariant removed <==> exists k :: 0 <= k < j && !used(sel[k])
        invariant !removed ==> forall k :: 0 <= k < j ==> used(sel[k])
      {
        if !used(sel[j]) {
          removed := true;
        }
        j := j + 1;
      }
      assert sels[..i + 1][..i] == sels[..i];
      if !removed {
        kept := kept + [sel];
      }
      // `list.isEmpty()`: nothing kept so far and nothing left to visit.
      if |kept| + (|sels| - (i + 1)) == 0 {
        removeRule := true;
      }
      i := i + 1;
    }
    assert sels[..i] == sels;
    KeepUsedSpec(sels, used);
  }

  lemma {:induction false} KeepUsedSpec(sels: seq<Selector>, used: Component -> bool)
    ensures forall s :: s in KeepUsed(sels, used) ==> s in sels && SelectorUsed(s, used)
    ensures forall s :: s in sels && SelectorUsed(s, used) ==> s in KeepUsed(sels, used)
    ensures |KeepUsed(sels, used)| <= |sels|
  {
    if sels != [] {
      var init := sels[..|sels| - 1];
      assert sels == init + [sels[|sels| - 1]];
      KeepUsedSpec(init, used);
    }
  }

  lemma {:induction false} KeepUsedAppend(a: seq<Selector>, b: seq<Selector>, used: Component -> bool)
    ensures KeepUsed(a + b, used) == KeepUsed(a, used) + KeepUsed(b, used)
  {
    if b == [] {
      assert a + b == a;
    } else {
      assert (a + b)[..|a + b| - 1] == a + b[..|b| - 1];
      assert (a + b)[|a + b| - 1] == b[|b| - 1];
      KeepUsedAppend(a, b[..|b| - 1], used);
    }
  }

  lemma {:induction false} KeepUsedAll(sels: seq<Selector>, used: Component -> bool)
    requires forall i :: 0 <= i < |sels| ==> SelectorUsed(sels[i], used)
    ensures KeepUsed(sels, used) == sels
  {
    if sels != [] {
      KeepUsedAll(sels[..|sels| - 1], used);
    }
  }

  /** The pruning walk over a list of nodes: comments are dropped when
      `dropComments` is set, rules lose their unused selectors and disappear
      when that empties a non-empty selector list, and at-rules are kept,
      with their nested nodes pruned, even when that leaves them empty. */
  function PruneNodes(ns: seq<Node>, used: Component -> bool, dropComments: bool): seq<Node>
    decreases ns
  {
    if ns == [] then []
    else PruneNodes(ns[..|ns| - 1], used, dropComments) + PruneNode(ns[|ns| - 1], used, dropComments)
  }

  function PruneNode(n: Node, used: Component -> bool, dropComments: bool): seq<Node>
    decreases n
  {
    match n
    case Comment(_) => if dropComments then [] else [n]
    case Rule(sels, block) =>
      var kept := KeepUsed(sels, used);
      if |sels| > 0 && kept == [] then [] else [Rule(kept, block)]
    case Atrule(name, prelude, kids) => [Atrule(name, prelude, PruneNodes(kids, used, dropComments))]
  }

  /** The pruning walk as the source runs it: each node of the list in
      turn, each rule through the selector-list loop, each at-rule's nested
      list recursively. */
  method RemoveUnusedCss(ns: seq<Node>, used: Component -> bool, dropComments: bool) returns (r: seq<Node>)
    ensures r == PruneNodes(ns, used, dropComments)
    decreases ns
  {
    r := [];
    for i := 0 to |ns|
      invariant r == PruneNodes(ns[..i], used, dropComments)
    {
      assert ns[..i + 1][..i] == ns[..i];
      var pruned := RemoveUnusedNode(ns[i], used, dropComments);
      r := r + pruned;
    }
    assert ns[..|ns|] == ns;
  }

  method RemoveUnusedNode(n: Node, used: Component -> bool, dropComments: bool) returns (r: seq<Node>)
    ensures r == PruneNode(n, used, dropComments)
    decreases n
  {
    match n
    case Comment(_) =>
      r := if dropComments then [] else [n];
    case Rule(sels, block) =>
      var kept, removeRule := RemoveUnusedSelectors(sels, used);
      r := if removeRule then [] else [Rule(kept, block)];
    case Atrule(name, prelude, kids) =>
      var prunedKids := RemoveUnusedCss(kids, used, dropComments);
      r := [Atrule(name, prelude, prunedKids)];
  }

  lemma {:induction false} PruneNodesAppend(a: seq<Node>, b: seq<Node>, used: Component -> bool, d: bool)
    ensures PruneNodes(a + b, used, d) == PruneNodes(a, used, d) + PruneNodes(b, used, d)
  {
    if b == [] {
      assert a + b == a;
    } else {
      assert (a + b)[..|a + b| - 1] == a + b[..|b| - 1];
      assert (a + b)[|a + b| - 1] == b[|b| - 1];
      PruneNodesAppend(a, b[..|b| - 1], used, d);
    }
  }

  /** Soundness and completeness of pruning at once: the selectors left in
      the pruned tree are exactly the used selectors of the original tree,
      in their original order. */
  lemma {:induction false} PruneSelectors(ns: seq<Node>, used: Component -> bool, d: bool)
    ensures SelectorsOf(PruneNodes(ns, used, d)) == KeepUsed(SelectorsOf(ns), used)
    decreases ns
  {
    if ns != [] {
      var init, last := ns[..|ns| - 1], ns[|ns| - 1];
      PruneSelectors(init, used, d);
      PruneNodeSelectors(last, used, d);
      SelectorsOfAppend(PruneNodes(init, used, d), PruneNode(last, used, d));
      KeepUsedAppend(SelectorsOf(init), NodeSelectors(last), used);
    }
  }

  lemma {:induction false} PruneNodeSelectors(n: Node, used: Component -> bool, d: bool)
    ensures SelectorsOf(PruneNode(n, used, d)) == KeepUsed(NodeSelectors(n), used)
    decreases n
  {
    match n
    case Comment(_) =>
      if !d {
        assert SelectorsOf([n]) == SelectorsOf([]) + NodeSelectors(n);
      }
    case Rule(sels, block) =>
      if !(|sels| > 0 && KeepUsed(sels, used) == []) {
        assert SelectorsOf([Rule(KeepUsed(sels, used), block)])
          == SelectorsOf([]) + NodeSelectors(Rule(KeepUsed(sels, used), block));
      }
    case Atrule(name, prelude, kids) =>
      PruneSelectors(kids, used, d);
      var a := Atrule(name, prelude, PruneNodes(kids, used, d));
      assert SelectorsOf([a]) == SelectorsOf([]) + NodeSelectors(a);
  }

  /** Pruning never removes an at-rule, and keeps them in order. */
  lemma {:induction false} PruneKeepsAtrules(ns: seq<Node>, used: Component -> bool, d: bool)
    ensures AtrulesOf(PruneNodes(ns, used, d)) == AtrulesOf(ns)
    decreases ns
  {
    if ns != [] {
      var init, last := ns[..|ns| - 1], ns[|ns| - 1];
      PruneKeepsAtrules(init, used, d);
      PruneNodeKeepsAtrules(last, used, d);
      AtrulesOfAppend(PruneNodes(init, used, d), PruneNode(last, used, d));
    }
  }

  lemma {:induction false} PruneNodeKeepsAtrules(n: Node, used: Component -> bool, d: bool)
    ensures AtrulesOf(PruneNode(n, used, d)) == NodeAtrules(n)
    decreases n
  {
    match n
    case Comment(_) =>
      if !d {
        assert AtrulesOf([n]) == AtrulesOf([]) + NodeAtrules(n);
      }
    case Rule(sels, block) =>
      if !(|sels| > 0 && KeepUsed(sels, used) == []) {
        var r := Rule(KeepUsed(sels, used), block);
        assert AtrulesOf([r]) == AtrulesOf([]) + NodeAtrules(r);
      }
    case Atrule(name, prelude, kids) =>
      PruneKeepsAtrules(kids, used, d);
      var a := Atrule(name, prelude, PruneNodes(kids, used, d));
      assert AtrulesOf([a]) == AtrulesOf([]) + NodeAtrules(a);
  }

  /** With comment removal on, no comment survives at any depth. */
  lemma {:induction false} PruneDropsComments(ns: seq<Node>, used: Component -> bool)
    ensures NoComments(PruneNodes(ns, used, true))
    decreases ns
  {
    if ns != [] {
      var init, last := ns[..|ns| - 1], ns[|ns| - 1];
      PruneDropsComments(init, used);
      PruneNodeDropsComments(last, used);
    }
  }

  lemma {:induction false} PruneNodeDropsComments(n: Node, used: Component -> bool)
    ensures NoComments(PruneNode(n, used, true))
    decreases n
  {
    match n
    case Comment(_) =>
    case Rule(_, _) =>
    case Atrule(_, _, kids) => PruneDropsComments(kids, used);
  }

  /** Rules whose selector list was not empty never come out empty: the
      "empty rule is removed from its list" invariant. */
  lemma {:induction false} PruneRulesNonEmpty(ns: seq<Node>, used: Component -> bool, d: bool)
    requires RulesNonEmpty(ns)
    ensures RulesNonEmpty(PruneNodes(ns, used, d))
    decreases ns
  {
    if ns != [] {
      var init, last := ns[..|ns| - 1], ns[|ns| - 1];
      PruneRulesNonEmpty(init, used, d);
      PruneNodeRulesNonEmpty(last, used, d);
    }
  }

  lemma {:induction false} PruneNodeRulesNonEmpty(n: Node, used: Component -> bool, d: bool)
    requires NodeRulesNonEmpty(n)
    ensures RulesNonEmpty(PruneNode(n, used, d))
    decreases n
  {
    match n
    case Comment(_) =>
    case Rule(_, _) =>
    case Atrule(_, _, kids) => PruneRulesNonEmpty(kids, used, d);
  }

  /** Pruning brings no comment back: a tree without comments stays so. */
  lemma {:induction false} PruneNoComments(ns: seq<Node>, used: Component -> bool, d: bool)
    requires NoComments(ns)
    ensures NoComments(PruneNodes(ns, used, d))
    decreases ns
  {
    if ns != [] {
      var init, last := ns[..|ns| - 1], ns[|ns| - 1];
      PruneNoComments(init, used, d);
      PruneNodeNoComments(last, used, d);
    }
  }

  lemma {:induction false} PruneNodeNoComments(n: Node, used: Component -> bool, d: bool)
    requires NodeHasNoComments(n)
    ensures NoComments(PruneNode(n, used, d))
    decreases n
  {
    match n
    case Comment(_) =>
    case Rule(_, _) =>
    case Atrule(_, _, kids) => PruneNoComments(kids, used, d);
  }

  /** When every selector of a tree passes, pruning that keeps comments
      changes nothing at all. */
  lemma {:induction false} PruneNothingUnused(ns: seq<Node>, used: Component -> bool)
    requires forall s :: s in SelectorsOf(ns) ==> SelectorUsed(s, used)
    ensures PruneNodes(ns, used, false) == ns
    decreases ns
  {
    if ns != [] {
      var init, last := ns[..|ns| - 1], ns[|ns| - 1];
      PruneNothingUnused(init, used);
      PruneNodeNothingUnused(last, used);
      assert ns == init + [last];
    }
  }

  lemma {:induction false} PruneNodeNothingUnused(n: Node, used: Component -> bool)
    requires forall s :: s in NodeSelectors(n) ==> SelectorUsed(s, used)
    ensures PruneNode(n, used, false) == [n]
    decreases n
  {
    match n
    case Comment(_) =>
    case Rule(sels, _) => KeepUsedAll(sels, used);
    case Atrule(_, _, kids) => PruneNothingUnused(kids, used);
  }

  /** Pruning an already pruned tree with the same table changes nothing. */
  lemma {:induction false} PruneIdempotent(ns: seq<Node>, used: Component -> bool, d: bool)
    ensures PruneNodes(PruneNodes(ns, used, d), used, d) == PruneNodes(ns, used, d)
    decreases ns
  {
    if ns != [] {
      var init, last := ns[..|ns| - 1], ns[|ns| - 1];
      PruneIdempotent(init, used, d);
      PruneNodeIdempotent(last, used, d);
      PruneNodesAppend(PruneNodes(init, used, d), PruneNode(last, used, d), used, d);
    }
  }

  lemma {:induction false} PruneNodeIdempotent(n: Node, used: Component -> bool, d: bool)
    ensures PruneNodes(PruneNode(n, used, d), used, d) == PruneNode(n, used, d)
    decreases n
  {
    match n
    case Comment(_) =>
      if !d {
        assert PruneNodes([n], used, d) == PruneNodes([], used, d) + PruneNode(n, used, d);
      }
    case Rule(sels, block) =>
      var kept := KeepUsed(sels, used);
      if !(|sels| > 0 && kept == []) {
        KeepUsedSpec(sels, used);
        KeepUsedAll(kept, used);
        var r := Rule(kept, block);
        assert PruneNodes([r], used, d) == PruneNodes([], used, d) + PruneNode(r, used, d);
      }
    case Atrule(name, prelude, kids) =>
      PruneIdempotent(kids, used, d);
      var a := Atrule(name, prelude, PruneNodes(kids, used, d));
      assert PruneNodes([a], used, d) == PruneNodes([], used, d) + PruneNode(a, used, d);
  }

  /** Every component of a flattened selector list comes from one of its
      selectors. */
  lemma {:induction false} FlattenMembers(sels: seq<Selector>, c: Component)
    requires c in Flatten(sels)
    ensures exists s :: s in sels && c in s
  {
    var init := sels[..|sels| - 1];
    if c in Flatten(init) {
      FlattenMembers(init, c);
      var s :| s in init && c in s;
      assert s in sels;
    } else {
      assert c in sels[|sels| - 1];
    }
  }

  /** After pruning, every name a walk of either kind reads comes from a
      component the `used` test accepted. */
  lemma PrunedNamesUsed(ns: seq<Node>, used: Component -> bool, d: bool, kind: Kind)
    ensures forall x :: x in SheetNames(PruneNodes(ns, used, d), kind) ==>
      exists c :: OfKind(c, kind) && Clean(c.name) == x && used(c)
  {
    var p := PruneNodes(ns, used, d);
    var cs := Flatten(SelectorsOf(p));
    PruneSelectors(ns, used, d);
    KeepUsedSpec(SelectorsOf(ns), used);
    NamesOfKindMembers(cs, kind);
    forall x | x in SheetNames(p, kind)
      ensures exists c :: OfKind(c, kind) && Clean(c.name) == x && used(c)
    {
      var i :| 0 <= i < |cs| && OfKind(cs[i], kind) && Clean(cs[i].name) == x;
      FlattenMembers(SelectorsOf(p), cs[i]);
      var s :| s in SelectorsOf(p) && cs[i] in s;
      var k :| 0 <= k < |s| && s[k] == cs[i];
      assert used(s[k]);
    }
  }

  /** Pruning by class names only: a selector survives exactly when every
      class component in it names an entry, so a selector made of type, id,
      attribute and pseudo components only is never removed. */
  lemma ClassPruneSpec(ns: seq<Node>, classes: set<string>, d: bool)
    ensures forall s: Selector :: s in SelectorsOf(PruneNodes(ns, ClassesUsed(classes), d)) <==>
      s in SelectorsOf(ns) && forall k :: 0 <= k < |s| && s[k].ClassSelector? ==> Clean(s[k].name) in classes
    ensures forall s: Selector :: s in SelectorsOf(ns) && (forall k :: 0 <= k < |s| ==> !s[k].ClassSelector?) ==>
      s in SelectorsOf(PruneNodes(ns, ClassesUsed(classes), d))
  {
    PruneSelectors(ns, ClassesUsed(classes), d);
    KeepUsedSpec(SelectorsOf(ns), ClassesUsed(classes));
  }

  /** The comment-only walk of styleripper.ts: every comment node, at every
      depth, is removed; nothing else changes. */
  function StripComments(ns: seq<Node>): seq<Node>
    decreases ns
  {
    if ns == [] then []
    else StripComments(ns[..|ns| - 1]) + StripNode(ns[|ns| - 1])
  }

  function StripNode(n: Node): seq<Node>
    decreases n
  {
    match n
    case Comment(_) => []
    case Rule(_, _) => [n]
    case Atrule(name, prelude, kids) => [Atrule(name, prelude, StripComments(kids))]
  }

  /** Stripping comments leaves no comment and keeps every selector and
      every at-rule. */
  lemma {:induction false} StripCommentsSpec(ns: seq<Node>)
    ensures NoComments(StripComments(ns))
    ensures SelectorsOf(StripComments(ns)) == SelectorsOf(ns)
    ensures AtrulesOf(StripComments(ns)) == AtrulesOf(ns)
    decreases ns
  {
    if ns != [] {
      var init, last := ns[..|ns| - 1], ns[|ns| - 1];
      StripCommentsSpec(init);
      StripNodeSpec(last);
      SelectorsOfAppend(StripComments(init), StripNode(last));
      AtrulesOfAppend(StripComments(init), StripNode(last));
    }
  }

  lemma {:induction false} StripNodeSpec(n: Node)
    ensures NoComments(StripNode(n))
    ensures SelectorsOf(StripNode(n)) == NodeSelectors(n)
    ensures AtrulesOf(StripNode(n)) == NodeAtrules(n)
    decreases n
  {
    match n
    case Comment(_) =>
    case Rule(_, _) =>
      assert SelectorsOf([n]) == SelectorsOf([]) + NodeSelectors(n);
      assert AtrulesOf([n]) == AtrulesOf([]) + NodeAtrules(n);
    case Atrule(name, prelude, kids) =>
      StripCommentsSpec(kids);
      var a := Atrule(name, prelude, StripComments(kids));
      assert SelectorsOf([a]) == SelectorsOf([]) + NodeSelectors(a);
      assert AtrulesOf([a]) == AtrulesOf([]) + NodeAtrules(a);
  }
}
