/** Renaming of class and id selectors in a CSS tree.

    The source renames in one walk per ranked name (`renameSelector` in
    rip.ts, `renameCSSNodes` in styleripper.ts, `processCSS` in
    styleripper.js): walk `i` renames every selector whose cleaned name equals
    the i-th ranked name to `ShortName(i)` and records the pair in the rename
    map. Because later walks compare against the names as they are NOW, a
    ranked name that equals an earlier generated name also catches the
    selectors renamed by that earlier walk. `Walks` and `WalkRenames` model
    that as written, and the pipelines of this model use them, carrying the
    rename map from file to file (`FilesRecord`). `RenameByMap` with
    `RankMap` renames by lookup on the original names: it is the intended
    renaming, and what the walks compute whenever no ranked name is an
    earlier generated name (`WalksAgree`, `FilesRecordAgrees`). */
module Renaming {
  import opened Names
  import opened Occurrence
  import opened Css

  // ---------------------------------------------------------------------
  // Component-wise maps over a tree
  // ---------------------------------------------------------------------

  function MapComponents(cs: seq<Component>, f: Component -> Component): (r: seq<Component>)
    ensures |r| == |cs|
  {
    seq(|cs|, i requires 0 <= i < |cs| => f(cs[i]))
  }

  function MapSelectors(sels: seq<Selector>, f: Component -> Component): (r: seq<Selector>)
    ensures |r| == |sels|
  {
    seq(|sels|, i requires 0 <= i < |sels| => MapComponents(sels[i], f))
  }

  /** The tree with `f` applied to every selector component, at every depth;
      nothing else changes. */
  function MapNodes(ns: seq<Node>, f: Component -> Component): seq<Node>
    decreases ns
  {
    if ns == [] then [] else MapNodes(ns[..|ns| - 1], f) + [MapNode(ns[|ns| - 1], f)]
  }

  function MapNode(n: Node, f: Component -> Component): Node
    decreases n
  {
    match n
    case Rule(sels, block) => Rule(MapSelectors(sels, f), block)
    case Atrule(name, prelude, kids) => Atrule(name, prelude, MapNodes(kids, f))
    case Comment(_) => n
  }

  /** Two component maps applied in turn are one map applied once. */
  lemma {:induction false} MapNodesCompose(ns: seq<Node>, f: Component -> Component,
                                           g: Component -> Component, h: Component -> Component)
    requires forall c :: h(c) == g(f(c))
    ensures MapNodes(MapNodes(ns, f), g) == MapNodes(ns, h)
    decreases ns
  {
    if ns != [] {
      var init, last := ns[..|ns| - 1], ns[|ns| - 1];
      MapNodesCompose(init, f, g, h);
      MapNodeCompose(last, f, g, h);
      var fs := MapNodes(ns, f);
      assert fs[..|fs| - 1] == MapNodes(init, f);
    }
  }

  lemma {:induction false} MapNodeCompose(n: Node, f: Component -> Component,
                                          g: Component -> Component, h: Component -> Component)
    requires forall c :: h(c) == g(f(c))
    ensures MapNode(MapNode(n, f), g) == MapNode(n, h)
    decreases n
  {
    match n
    case Rule(sels, block) =>
      forall i | 0 <= i < |sels|
        ensures MapSelectors(MapSelectors(sels, f), g)[i] == MapSelectors(sels, h)[i]
      {
        assert MapComponents(MapComponents(sels[i], f), g) == MapComponents(sels[i], h);
      }
    case Atrule(name, prelude, kids) => MapNodesCompose(kids, f, g, h);
    case Comment(_) =>
  }

  lemma {:induction false} FlattenMap(sels: seq<Selector>, f: Component -> Component)
    ensures Flatten(MapSelectors(sels, f)) == MapComponents(Flatten(sels), f)
  {
    if sels != [] {
      var init := sels[..|sels| - 1];
      FlattenMap(init, f);
      assert MapSelectors(sels, f)[..|sels| - 1] == MapSelectors(init, f);
    }
  }

  lemma {:induction false} MapNodesSelectors(ns: seq<Node>, f: Component -> Component)
    ensures SelectorsOf(MapNodes(ns, f)) == MapSelectors(SelectorsOf(ns), f)
    decreases ns
  {
    if ns != [] {
      var init, last := ns[..|ns| - 1], ns[|ns| - 1];
      MapNodesSelectors(init, f);
      MapNodeSelectors(last, f);
      var fs := MapNodes(ns, f);
      assert fs[..|fs| - 1] == MapNodes(init, f);
      assert SelectorsOf(ns) == SelectorsOf(init) + NodeSelectors(last);
      assert MapSelectors(SelectorsOf(ns), f)
        == MapSelectors(SelectorsOf(init), f) + MapSelectors(NodeSelectors(last), f);
    }
  }

  lemma {:induction false} MapNodeSelectors(n: Node, f: Component -> Component)
    ensures NodeSelectors(MapNode(n, f)) == MapSelectors(NodeSelectors(n), f)
    decreases n
  {
    match n
    case Rule(_, _) =>
    case Atrule(_, _, kids) => MapNodesSelectors(kids, f);
    case Comment(_) =>
  }

  // ---------------------------------------------------------------------
  // Renaming one name (one walk) and renaming by a map
  // ---------------------------------------------------------------------

  /** One visit of a rename walk: `if (cleaned name === from) node.name = to`. */
  function RenameIf(c: Component, kind: Kind, from: string, to: string): Component
  {
    if OfKind(c, kind) && Clean(c.name) == from then c.(name := to) else c
  }

  /** One rename walk over the tree for one ranked name. */
  function RenameWalk(ns: seq<Node>, kind: Kind, from: string, to: string): seq<Node>
  {
    MapNodes(ns, c => RenameIf(c, kind, from, to))
  }

  /** Renaming a selector by looking its original cleaned name up in `m`. */
  function Lookup(c: Component, kind: Kind, m: map<string, string>): Component
  {
    if OfKind(c, kind) && Clean(c.name) in m then c.(name := m[Clean(c.name)]) else c
  }

  function RenameByMap(ns: seq<Node>, kind: Kind, m: map<string, string>): seq<Node>
  {
    MapNodes(ns, c => Lookup(c, kind, m))
  }

  /** A name mapped through `m`, or kept when `m` has no entry for it: the
      rewriting of one HTML class token or id as well. */
  function LookupName(x: string, m: map<string, string>): string
  {
    if x in m then m[x] else x
  }

  function LookupNames(s: seq<string>, m: map<string, string>): (r: seq<string>)
    ensures |r| == |s|
  {
    seq(|s|, i requires 0 <= i < |s| => LookupName(s[i], m))
  }

  /** The rename map the ranking implies: the i-th ranked name maps to
      ShortName(i) (for distinct names; a repeated name keeps its last rank). */
  function RankMap(names: seq<string>): map<string, string>
  {
    if names == [] then map[]
    else RankMap(names[..|names| - 1])[names[|names| - 1] := ShortName(|names| - 1)]
  }

  /** The entries of `m` whose key occurs in `present`. */
  function Restrict(m: map<string, string>, present: seq<string>): (r: map<string, string>)
    ensures forall x :: x in r <==> x in m && x in present
    ensures forall x :: x in r ==> r[x] == m[x]
  {
    map x | x in m && x in present :: m[x]
  }

  /** The rank map has an entry for exactly the ranked names. */
  lemma {:induction false} RankMapKeys(names: seq<string>, x: string)
    ensures x in RankMap(names) <==> x in names
  {
    if names != [] {
      var init := names[..|names| - 1];
      RankMapKeys(init, x);
      assert names == init + [names[|names| - 1]];
    }
  }

  /** Among distinct names, the k-th is sent to ShortName(k). */
  lemma {:induction false} RankMapAt(names: seq<string>, k: nat)
    requires Distinct(names) && k < |names|
    ensures names[k] in RankMap(names) && RankMap(names)[names[k]] == ShortName(k)
  {
    var init := names[..|names| - 1];
    if k < |init| {
      assert init[k] == names[k];
      assert Distinct(init) by {
        forall i, j | 0 <= i < j < |init| ensures init[i] != init[j] {
          assert init[i] == names[i] && init[j] == names[j];
        }
      }
      RankMapAt(init, k);
      assert names[k] != names[|names| - 1];
    }
  }

  /** Every value of the rank map is the short name of some rank. */
  lemma {:induction false} RankMapRank(names: seq<string>, x: string) returns (k: nat)
    requires x in RankMap(names)
    ensures k < |names| && RankMap(names)[x] == ShortName(k)
  {
    var init := names[..|names| - 1];
    if x == names[|names| - 1] {
      k := |names| - 1;
    } else {
      k := RankMapRank(init, x);
    }
  }

  /** The rank map sends the k-th name to ShortName(k), has no other key,
      and every value is a generated name of a smaller rank than the length. */
  lemma RankMapSpec(names: seq<string>)
    requires Distinct(names)
    ensures forall x :: x in RankMap(names) <==> x in names
    ensures forall k :: 0 <= k < |names| ==> RankMap(names)[names[k]] == ShortName(k)
    ensures forall x :: x in RankMap(names) ==> exists k :: 0 <= k < |names| && RankMap(names)[x] == ShortName(k)
  {
    forall x ensures x in RankMap(names) <==> x in names {
      RankMapKeys(names, x);
    }
    forall k | 0 <= k < |names| ensures names[k] in RankMap(names) && RankMap(names)[names[k]] == ShortName(k) {
      RankMapAt(names, k);
    }
    forall x | x in RankMap(names) ensures exists k :: 0 <= k < |names| && RankMap(names)[x] == ShortName(k) {
      var k := RankMapRank(names, x);
    }
  }

  /** Every name the rank map hands out is non-empty and survives
      `cleanCSSIdentifier`. */
  lemma RankMapValues(names: seq<string>)
    requires Distinct(names)
    ensures forall x :: x in RankMap(names) ==> Clean(RankMap(names)[x]) == RankMap(names)[x] && RankMap(names)[x] != ""
  {
    RankMapSpec(names);
    forall x | x in RankMap(names) ensures Clean(RankMap(names)[x]) == RankMap(names)[x] && RankMap(names)[x] != "" {
      var k :| 0 <= k < |names| && RankMap(names)[x] == ShortName(k);
      CleanShortName(k);
      ShortNameAlphabet(k);
    }
  }

  /** The rank map of a table's ranking: rank `i` gets `ShortName(i)`,
      exactly the table's names are mapped, and no two get the same name. */
  lemma RankedMap(t: Table)
    requires Valid(t)
    ensures forall i :: 0 <= i < |Ranked(t)| ==>
      Ranked(t)[i] in RankMap(Ranked(t)) && RankMap(Ranked(t))[Ranked(t)[i]] == ShortName(i)
    ensures forall x :: x in RankMap(Ranked(t)) <==> x in t.count
    ensures forall x, y :: x in RankMap(Ranked(t)) && y in RankMap(Ranked(t)) && x != y ==>
      RankMap(Ranked(t))[x] != RankMap(Ranked(t))[y]
  {
    RankedSpec(t);
    RankMapSpec(Ranked(t));
    RankMapInjective(Ranked(t));
  }

  /** Collision-freedom: distinct ranked names get distinct short names. */
  lemma RankMapInjective(names: seq<string>)
    requires Distinct(names)
    ensures forall x, y :: x in RankMap(names) && y in RankMap(names) && x != y ==>
      RankMap(names)[x] != RankMap(names)[y]
  {
    RankMapSpec(names);
    forall x, y | x in RankMap(names) && y in RankMap(names) && x != y
      ensures RankMap(names)[x] != RankMap(names)[y]
    {
      var i :| 0 <= i < |names| && names[i] == x;
      var j :| 0 <= j < |names| && names[j] == y;
      ShortNameInjective(i, j);
    }
  }

  lemma {:induction false} NamesOfKindLookup(cs: seq<Component>, kind: Kind, m: map<string, string>)
    requires forall x :: x in m ==> Clean(m[x]) == m[x]
    ensures NamesOfKind(MapComponents(cs, c => Lookup(c, kind, m)), kind) == LookupNames(NamesOfKind(cs, kind), m)
  {
    if cs != [] {
      var init := cs[..|cs| - 1];
      NamesOfKindLookup(init, kind, m);
      var mapped := MapComponents(cs, c => Lookup(c, kind, m));
      assert mapped[..|cs| - 1] == MapComponents(init, c => Lookup(c, kind, m));
    }
  }

  /** Rename consistency on the CSS side: renaming by `m` turns the list of
      cleaned names of that kind into the same list looked up in `m`, the
      way the HTML side looks each token up. */
  lemma RenameByMapNames(ns: seq<Node>, kind: Kind, m: map<string, string>)
    requires forall x :: x in m ==> Clean(m[x]) == m[x]
    ensures SheetNames(RenameByMap(ns, kind, m), kind) == LookupNames(SheetNames(ns, kind), m)
  {
    var f := c => Lookup(c, kind, m);
    MapNodesSelectors(ns, f);
    FlattenMap(SelectorsOf(ns), f);
    NamesOfKindLookup(Flatten(SelectorsOf(ns)), kind, m);
  }

  lemma NamesOfKindOther(cs: seq<Component>, kind: Kind, other: Kind, m: map<string, string>)
    requires kind != other
    ensures NamesOfKind(MapComponents(cs, c => Lookup(c, kind, m)), other) == NamesOfKind(cs, other)
  {
    if cs != [] {
      var init := cs[..|cs| - 1];
      NamesOfKindOther(init, kind, other, m);
      var mapped := MapComponents(cs, c => Lookup(c, kind, m));
      assert mapped[..|cs| - 1] == MapComponents(init, c => Lookup(c, kind, m));
    }
  }

  /** Renaming one kind leaves the names of the other kind alone. */
  lemma RenameByMapOtherKind(ns: seq<Node>, kind: Kind, m: map<string, string>)
    ensures SheetNames(RenameByMap(ns, kind, m), if kind == ClassKind then IdKind else ClassKind)
         == SheetNames(ns, if kind == ClassKind then IdKind else ClassKind)
  {
    var f := c => Lookup(c, kind, m);
    MapNodesSelectors(ns, f);
    FlattenMap(SelectorsOf(ns), f);
    NamesOfKindOther(Flatten(SelectorsOf(ns)), kind, if kind == ClassKind then IdKind else ClassKind, m);
  }

  // ---------------------------------------------------------------------
  // The rename walks as written
  // ---------------------------------------------------------------------

  /** The tree after the walks for the first `k` ranked names. */
  function Walks(ns: seq<Node>, kind: Kind, names: seq<string>, k: nat): seq<Node>
    requires k <= |names|
  {
    if k == 0 then ns
    else RenameWalk(Walks(ns, kind, names, k - 1), kind, names[k - 1], ShortName(k - 1))
  }

  /** The rename map after those walks: walk `i` records
      `rename[name] = ShortName(i)` when it renamed at least one node. */
  function WalkRenames(ns: seq<Node>, kind: Kind, names: seq<string>, k: nat,
                       rename: map<string, string>): map<string, string>
    requires k <= |names|
  {
    if k == 0 then rename
    else
      var m := WalkRenames(ns, kind, names, k - 1, rename);
      if names[k - 1] in SheetNames(Walks(ns, kind, names, k - 1), kind)
      then m[names[k - 1] := ShortName(k - 1)]
      else m
  }

  /** The source's loop `for (const name of names) { walk(...); i++ }`. */
  method RenameSelectorWalks(ns: seq<Node>, kind: Kind, names: seq<string>, rename: map<string, string>)
    returns (renamed: seq<Node>, rename': map<string, string>)
    ensures renamed == Walks(ns, kind, names, |names|)
    ensures rename' == WalkRenames(ns, kind, names, |names|, rename)
  {
    renamed, rename' := ns, rename;
    for i := 0 to |names|
      invariant renamed == Walks(ns, kind, names, i)
      invariant rename' == WalkRenames(ns, kind, names, i, rename)
    {
      renamed, rename' := NextWalk(ns, kind, names, i, rename, renamed, rename');
    }
  }

  /** Iteration `i` of the loop, in terms of the walks before and after it. */
  method NextWalk(ghost ns: seq<Node>, kind: Kind, names: seq<string>, i: nat, ghost rename: map<string, string>,
                  renamed: seq<Node>, renameSoFar: map<string, string>)
    returns (next: seq<Node>, nextRename: map<string, string>)
    requires i < |names|
    requires renamed == Walks(ns, kind, names, i) && renameSoFar == WalkRenames(ns, kind, names, i, rename)
    ensures next == Walks(ns, kind, names, i + 1) && nextRename == WalkRenames(ns, kind, names, i + 1, rename)
  {
    next, nextRename := WalkOnce(renamed, kind, names[i], i, renameSoFar);
    WalkStepFrom(ns, kind, names, i, rename, renamed, renameSoFar, next, nextRename);
  }

  /** One iteration: walk the tree for `name`, the i-th ranked name, and
      record the pair when the walk found a selector to rename. */
  method WalkOnce(ns: seq<Node>, kind: Kind, name: string, i: nat, rename: map<string, string>)
    returns (renamed: seq<Node>, rename': map<string, string>)
    ensures renamed == RenameWalk(ns, kind, name, ShortName(i))
    ensures name in SheetNames(ns, kind) ==> rename' == rename[name := ShortName(i)]
    ensures name !in SheetNames(ns, kind) ==> rename' == rename
  {
    var newname := GenerateShortestName(i);
    rename' := rename;
    if name in SheetNames(ns, kind) {
      rename' := rename'[name := newname];
    }
    renamed := RenameWalk(ns, kind, name, newname);
  }

  /** Walk `i` in terms of the state the previous walks left. */
  lemma WalkStep(ns: seq<Node>, kind: Kind, names: seq<string>, i: nat, rename: map<string, string>)
    requires i < |names|
    ensures Walks(ns, kind, names, i + 1) == RenameWalk(Walks(ns, kind, names, i), kind, names[i], ShortName(i))
    ensures names[i] in SheetNames(Walks(ns, kind, names, i), kind) ==>
      WalkRenames(ns, kind, names, i + 1, rename) == WalkRenames(ns, kind, names, i, rename)[names[i] := ShortName(i)]
    ensures names[i] !in SheetNames(Walks(ns, kind, names, i), kind) ==>
      WalkRenames(ns, kind, names, i + 1, rename) == WalkRenames(ns, kind, names, i, rename)
  {
  }

  /** The state after walk `i`, from the state before it. */
  lemma WalkStepFrom(ns: seq<Node>, kind: Kind, names: seq<string>, i: nat, rename: map<string, string>,
                     before: seq<Node>, beforeRename: map<string, string>,
                     after: seq<Node>, afterRename: map<string, string>)
    requires i < |names|
    requires before == Walks(ns, kind, names, i) && beforeRename == WalkRenames(ns, kind, names, i, rename)
    requires after == RenameWalk(before, kind, names[i], ShortName(i))
    requires names[i] in SheetNames(before, kind) ==> afterRename == beforeRename[names[i] := ShortName(i)]
    requires names[i] !in SheetNames(before, kind) ==> afterRename == beforeRename
    ensures after == Walks(ns, kind, names, i + 1)
    ensures afterRename == WalkRenames(ns, kind, names, i + 1, rename)
  {
    WalkStep(ns, kind, names, i, rename);
  }

  /** One walk after a lookup renaming is a lookup renaming with one more
      entry, provided the walked name is neither a key nor a value yet. */
  lemma WalkAfterLookup(ns: seq<Node>, kind: Kind, m: map<string, string>, from: string, to: string)
    requires from !in m
    requires forall x :: x in m ==> m[x] != from && Clean(m[x]) == m[x]
    requires Clean(to) == to
    ensures RenameWalk(RenameByMap(ns, kind, m), kind, from, to) == RenameByMap(ns, kind, m[from := to])
  {
    var f := c => Lookup(c, kind, m);
    var g := c => RenameIf(c, kind, from, to);
    var h := c => Lookup(c, kind, m[from := to]);
    forall c ensures h(c) == g(f(c)) {
      if OfKind(c, kind) && Clean(c.name) in m {
        assert Clean(f(c).name) == m[Clean(c.name)];
      }
    }
    MapNodesCompose(ns, f, g, h);
  }

  lemma RenameByEmpty(ns: seq<Node>, kind: Kind)
    ensures RenameByMap(ns, kind, map[]) == ns
    decreases ns
  {
    MapNodesIdentity(ns, c => Lookup(c, kind, map[]));
  }

  lemma {:induction false} MapNodesIdentity(ns: seq<Node>, f: Component -> Component)
    requires forall c :: f(c) == c
    ensures MapNodes(ns, f) == ns
    decreases ns
  {
    if ns != [] {
      MapNodesIdentity(ns[..|ns| - 1], f);
      MapNodeIdentity(ns[|ns| - 1], f);
      assert ns == ns[..|ns| - 1] + [ns[|ns| - 1]];
    }
  }

  lemma {:induction false} MapNodeIdentity(n: Node, f: Component -> Component)
    requires forall c :: f(c) == c
    ensures MapNode(n, f) == n
    decreases n
  {
    match n
    case Rule(sels, block) =>
      forall i | 0 <= i < |sels| ensures MapSelectors(sels, f)[i] == sels[i] {
        assert MapComponents(sels[i], f) == sels[i];
      }
    case Atrule(_, _, kids) => MapNodesIdentity(kids, f);
    case Comment(_) =>
  }

  /** A name that is neither a key nor a value of `m` occurs in the looked-up
      list exactly when it occurs in the original list. */
  lemma LookupNamesKeeps(s: seq<string>, m: map<string, string>, x: string)
    requires x !in m
    requires forall y :: y in m ==> m[y] != x
    ensures x in LookupNames(s, m) <==> x in s
  {
    if x in LookupNames(s, m) {
      var i :| 0 <= i < |s| && LookupNames(s, m)[i] == x;
      assert s[i] == x;
    }
    if x in s {
      var i :| 0 <= i < |s| && s[i] == x;
      assert LookupNames(s, m)[i] == x;
    }
  }

  /** The facts about the first `k` ranked names that walk `k` needs. */
  lemma RankPrefix(names: seq<string>, k: nat)
    requires k < |names|
    requires Distinct(names)
    requires forall i, j :: 0 <= i < j < |names| ==> names[j] != ShortName(i)
    ensures RankMap(names[..k + 1]) == RankMap(names[..k])[names[k] := ShortName(k)]
    ensures names[k] !in RankMap(names[..k])
    ensures forall x :: x in RankMap(names[..k]) ==>
      RankMap(names[..k])[x] != names[k] && Clean(RankMap(names[..k])[x]) == RankMap(names[..k])[x]
    ensures Clean(ShortName(k)) == ShortName(k)
  {
    var pre := names[..k];
    assert names[..k + 1][..k] == pre;
    assert names[k] !in pre;
    RankMapKeys(pre, names[k]);
    var m := RankMap(pre);
    forall x | x in m ensures m[x] != names[k] && Clean(m[x]) == m[x] {
      var i := RankMapRank(pre, x);
      CleanShortName(i);
    }
    CleanShortName(k);
  }

  /** When no ranked name equals the generated name of an earlier rank, the
      walks as written rename every selector by lookup of its original name
      in the rank map. */
  lemma {:induction false} WalksAgree(ns: seq<Node>, kind: Kind, names: seq<string>, k: nat)
    requires k <= |names|
    requires Distinct(names)
    requires forall i, j :: 0 <= i < j < |names| ==> names[j] != ShortName(i)
    ensures Walks(ns, kind, names, k) == RenameByMap(ns, kind, RankMap(names[..k]))
  {
    if k == 0 {
      RenameByEmpty(ns, kind);
    } else {
      WalksAgree(ns, kind, names, k - 1);
      RankPrefix(names, k - 1);
      WalkAfterLookup(ns, kind, RankMap(names[..k - 1]), names[k - 1], ShortName(k - 1));
    }
  }

  /** Under the same condition the walks record exactly the ranked names the
      tree uses, each with its generated name. */
  lemma {:induction false} WalkRenamesAgree(ns: seq<Node>, kind: Kind, names: seq<string>, k: nat)
    requires k <= |names|
    requires Distinct(names)
    requires forall i, j :: 0 <= i < j < |names| ==> names[j] != ShortName(i)
    ensures WalkRenames(ns, kind, names, k, map[]) == Restrict(RankMap(names[..k]), SheetNames(ns, kind))
  {
    if k > 0 {
      var from, to := names[k - 1], ShortName(k - 1);
      var m := RankMap(names[..k - 1]);
      var present := SheetNames(ns, kind);
      var before := WalkRenames(ns, kind, names, k - 1, map[]);
      assert before == Restrict(m, present) by { WalkRenamesAgree(ns, kind, names, k - 1); }
      assert RankMap(names[..k]) == m[from := to] && from !in m by { RankPrefix(names, k - 1); }
      assert from in SheetNames(Walks(ns, kind, names, k - 1), kind) <==> from in present by {
        RankPrefix(names, k - 1);
        WalksAgree(ns, kind, names, k - 1);
        RenameByMapNames(ns, kind, m);
        LookupNamesKeeps(present, m, from);
      }
      WalkStep(ns, kind, names, k - 1, map[]);
      RestrictStep(m, from, to, present);
    }
  }

  lemma RestrictStep(m: map<string, string>, from: string, to: string, present: seq<string>)
    requires from !in m
    ensures from in present ==> Restrict(m[from := to], present) == Restrict(m, present)[from := to]
    ensures from !in present ==> Restrict(m[from := to], present) == Restrict(m, present)
  {
  }

  /** No ranked name is the generated name of an earlier rank: the condition
      under which the walks agree with renaming by lookup. */
  predicate NoEarlierShortName(names: seq<string>)
  {
    forall i, j :: 0 <= i < j < |names| ==> names[j] != ShortName(i)
  }

  /** All the walks, as one renaming by lookup in the rank map. */
  lemma AllWalksAgree(ns: seq<Node>, kind: Kind, names: seq<string>)
    requires Distinct(names) && NoEarlierShortName(names)
    ensures Walks(ns, kind, names, |names|) == RenameByMap(ns, kind, RankMap(names))
  {
    WalksAgree(ns, kind, names, |names|);
    assert names[..|names|] == names;
  }

  /** The same, file by file. */
  lemma FilesWalksAgree(sheets: seq<Stylesheet>, kind: Kind, names: seq<string>)
    requires Distinct(names) && NoEarlierShortName(names)
    ensures forall i :: 0 <= i < |sheets| ==>
      Walks(sheets[i], kind, names, |names|) == RenameByMap(sheets[i], kind, RankMap(names))
  {
    forall i | 0 <= i < |sheets|
      ensures Walks(sheets[i], kind, names, |names|) == RenameByMap(sheets[i], kind, RankMap(names))
    {
      AllWalksAgree(sheets[i], kind, names);
    }
  }

  /** The walks only add to the map they are given: what they record over a
      map already holding entries is those entries updated with what they
      record over an empty one. */
  lemma {:induction false} WalkRenamesFrom(ns: seq<Node>, kind: Kind, names: seq<string>, k: nat,
                                           rename: map<string, string>)
    requires k <= |names|
    ensures WalkRenames(ns, kind, names, k, rename) == rename + WalkRenames(ns, kind, names, k, map[])
  {
    if k > 0 {
      WalkRenamesFrom(ns, kind, names, k - 1, rename);
      var m0 := WalkRenames(ns, kind, names, k - 1, map[]);
      if names[k - 1] in SheetNames(Walks(ns, kind, names, k - 1), kind) {
        UnionUpdate(rename, m0, names[k - 1], ShortName(k - 1));
      }
    }
  }

  lemma UnionUpdate(a: map<string, string>, b: map<string, string>, x: string, v: string)
    ensures (a + b)[x := v] == a + b[x := v]
  {
  }

  /** The record over one more file continues the record over the files
      before it. */
  lemma FilesRecordStep(sheets: seq<Stylesheet>, i: nat, kind: Kind, names: seq<string>)
    requires i < |sheets|
    ensures FilesRecord(sheets[..i + 1], kind, names)
         == WalkRenames(sheets[i], kind, names, |names|, FilesRecord(sheets[..i], kind, names))
  {
    var p := sheets[..i + 1];
    assert p[..|p| - 1] == sheets[..i];
    assert p[|p| - 1] == sheets[i];
  }

  /** The rename map after the walks over several files in turn: the source
      keeps one rename map for a run of `renameCSSNodes` calls, so each file's
      walks start from what the files before it recorded. */
  function FilesRecord(sheets: seq<Stylesheet>, kind: Kind, names: seq<string>): map<string, string>
  {
    if sheets == [] then map[]
    else WalkRenames(sheets[|sheets| - 1], kind, names, |names|, FilesRecord(sheets[..|sheets| - 1], kind, names))
  }

  /** Every file after the walks for every ranked name. */
  function WalkSheets(sheets: seq<Stylesheet>, kind: Kind, names: seq<string>): seq<Stylesheet>
  {
    seq(|sheets|, i requires 0 <= i < |sheets| => Walks(sheets[i], kind, names, |names|))
  }

  /** When no ranked name is an earlier generated name, the record the walks
      keep over several files holds exactly the ranked names those files
      use, each with its generated name. */
  lemma {:induction false} FilesRecordAgrees(sheets: seq<Stylesheet>, kind: Kind, names: seq<string>)
    requires Distinct(names) && NoEarlierShortName(names)
    ensures FilesRecord(sheets, kind, names) == Restrict(RankMap(names), SheetsNames(sheets, kind))
  {
    if sheets != [] {
      var init, last := sheets[..|sheets| - 1], sheets[|sheets| - 1];
      FilesRecordAgrees(init, kind, names);
      WalkRenamesFrom(last, kind, names, |names|, FilesRecord(init, kind, names));
      WalkRenamesAgree(last, kind, names, |names|);
      assert names[..|names|] == names;
      RestrictAppend(RankMap(names), SheetsNames(init, kind), SheetNames(last, kind));
    }
  }

  /** The walks as written can break rename consistency. With the ranking
      ["bb", "a"] (for instance HTML `<p class="bb"></p><q class="a"></q>` and
      CSS `.bb{color:red}`: "bb" costs 2 * 2 = 4, "a" costs 1), walk 0
      renames `.bb` to `.a` and records bb -> a; walk 1 then finds that `.a`,
      renames it to `.b` and records a -> b. The HTML rewrite gives the `p`
      class "a" and the `q` class "b", so the rule now styles the `q`. */
  lemma WalksCollide()
    ensures var sheet := [Rule([[ClassSelector("bb")]], "color:red")];
            Walks(sheet, ClassKind, ["bb", "a"], 2) == [Rule([[ClassSelector("b")]], "color:red")]
            && WalkRenames(sheet, ClassKind, ["bb", "a"], 2, map[]) == map["bb" := "a", "a" := "b"]
  {
    var sheet := [Rule([[ClassSelector("bb")]], "color:red")];
    var names := ["bb", "a"];
    assert ShortName(0) == "a" && ShortName(1) == "b";
    assert Clean("bb") == "bb" && Clean("a") == "a";
    var w1 := [Rule([[ClassSelector("a")]], "color:red")];
    WalkStep(sheet, ClassKind, names, 0, map[]);
    OneClassRule("bb", "bb", "a", "color:red");
    assert Walks(sheet, ClassKind, names, 1) == w1;
    WalkStep(sheet, ClassKind, names, 1, map[]);
    OneClassRule("a", "a", "b", "color:red");
  }

  /** A walk over a sheet of one rule with one class selector. */
  lemma OneClassRule(a: string, from: string, to: string, block: string)
    ensures var sheet := [Rule([[ClassSelector(a)]], block)];
            RenameWalk(sheet, ClassKind, from, to)
              == [Rule([[ClassSelector(if Clean(a) == from then to else a)]], block)]
            && SheetNames(sheet, ClassKind) == [Clean(a)]
  {
    var sheet := [Rule([[ClassSelector(a)]], block)];
    var f := c => RenameIf(c, ClassKind, from, to);
    var b := if Clean(a) == from then to else a;
    assert MapComponents([ClassSelector(a)], f) == [ClassSelector(b)];
    assert MapSelectors([[ClassSelector(a)]], f) == [[ClassSelector(b)]];
    assert MapNodes(sheet, f) == MapNodes([], f) + [MapNode(sheet[0], f)];
    assert SelectorsOf(sheet) == SelectorsOf([]) + NodeSelectors(sheet[0]);
    assert Flatten([[ClassSelector(a)]]) == Flatten([]) + [ClassSelector(a)];
    assert NamesOfKind([ClassSelector(a)], ClassKind) == NamesOfKind([], ClassKind) + [Clean(a)];
  }

  /** Recording the ranked names of one more file. */
  lemma RecordStep(rename: map<string, string>, m: map<string, string>, pruned: seq<Stylesheet>, i: nat, kind: Kind)
    requires i < |pruned|
    requires rename == Restrict(m, SheetsNames(pruned[..i], kind))
    ensures rename + Restrict(m, SheetNames(pruned[i], kind)) == Restrict(m, SheetsNames(pruned[..i + 1], kind))
  {
    assert pruned[..i + 1][..i] == pruned[..i];
    RestrictAppend(m, SheetsNames(pruned[..i], kind), SheetNames(pruned[i], kind));
  }

  lemma RestrictAppend(m: map<string, string>, a: seq<string>, b: seq<string>)
    ensures Restrict(m, a) + Restrict(m, b) == Restrict(m, a + b)
  {
  }
}
