/** Occurrence tables (`NodeOccurrences` in the source: a plain object from
    identifier to count, whose keys JavaScript enumerates in insertion order)
    and the ranking `sortedNames` computes from one of them. */
module Occurrence {
  import opened Names

  /** An occurrence table: the keys in insertion order, and the counts. */
  datatype Table = Table(keys: seq<string>, count: map<string, nat>)

  predicate Distinct(s: seq<string>)
  {
    forall i, j :: 0 <= i < j < |s| ==> s[i] != s[j]
  }

  /** The keys are listed once each, and are exactly the names counted. */
  ghost predicate Valid(t: Table)
  {
    Distinct(t.keys) && forall x :: x in t.count <==> x in t.keys
  }

  const Empty: Table := Table([], map[])

  /** The number of times a name was counted; 0 when it has no entry. */
  function Count(t: Table, name: string): nat
  {
    if name in t.count then t.count[name] else 0
  }

  /** `if (name in occ) occ[name]++ else occ[name] = 1`: the HTML counter. */
  function Bump(t: Table, name: string): Table
  {
    if name in t.count then t.(count := t.count[name := t.count[name] + 1])
    else Table(t.keys + [name], t.count[name := 1])
  }

  /** Bumping each name of a sequence in turn. */
  function BumpAll(t: Table, names: seq<string>): Table
  {
    if names == [] then t else Bump(BumpAll(t, names[..|names| - 1]), names[|names| - 1])
  }

  /** The table built from nothing by counting `names`. */
  function Tally(names: seq<string>): Table
  {
    BumpAll(Empty, names)
  }

  /** `if (name in occ) occ[name]++`: the CSS recount, which never adds keys. */
  function BumpExisting(t: Table, name: string): Table
  {
    if name in t.count then t.(count := t.count[name := t.count[name] + 1]) else t
  }

  function BumpExistingAll(t: Table, names: seq<string>): Table
  {
    if names == [] then t
    else BumpExisting(BumpExistingAll(t, names[..|names| - 1]), names[|names| - 1])
  }

  /** Bumping keeps the table well formed; afterwards a name has an entry
      when it had one or was bumped, its count grows by its number of
      occurrences in `names`, and the old keys stay first, in order. */
  lemma {:induction false} BumpAllSpec(t: Table, names: seq<string>)
    requires Valid(t)
    ensures Valid(BumpAll(t, names))
    ensures forall x :: x in BumpAll(t, names).count <==> x in t.count || x in names
    ensures forall x :: Count(BumpAll(t, names), x) == Count(t, x) + multiset(names)[x]
    ensures |t.keys| <= |BumpAll(t, names).keys| && BumpAll(t, names).keys[..|t.keys|] == t.keys
  {
    if names != [] {
      var init, last := names[..|names| - 1], names[|names| - 1];
      assert names == init + [last];
      BumpAllSpec(t, init);
      var u := BumpAll(t, init);
      assert BumpAll(t, names) == Bump(u, last);
      BumpSpec(u, last);
    }
  }

  /** One bump: the name gains an entry (appended to the keys) or one more. */
  lemma BumpSpec(u: Table, name: string)
    requires Valid(u)
    ensures Valid(Bump(u, name))
    ensures forall x :: x in Bump(u, name).count <==> x in u.count || x == name
    ensures forall x :: Count(Bump(u, name), x) == Count(u, x) + (if x == name then 1 else 0)
    ensures |u.keys| <= |Bump(u, name).keys| && Bump(u, name).keys[..|u.keys|] == u.keys
  {
    if name !in u.count {
      forall i, j | 0 <= i < j < |u.keys + [name]| ensures (u.keys + [name])[i] != (u.keys + [name])[j] {
        if j == |u.keys| {
          assert u.keys[i] in u.keys;
        }
      }
    }
  }

  /** Counting a concatenation is counting its parts one after the other. */
  lemma {:induction false} BumpAllAppend(t: Table, a: seq<string>, b: seq<string>)
    ensures BumpAll(t, a + b) == BumpAll(BumpAll(t, a), b)
  {
    if b != [] {
      assert (a + b)[..|a + b| - 1] == a + b[..|b| - 1];
      assert (a + b)[|a + b| - 1] == b[|b| - 1];
      BumpAllAppend(t, a, b[..|b| - 1]);
    } else {
      assert a + b == a;
    }
  }

  /** The table built from nothing holds each name's number of occurrences,
      and an entry exactly for the names that occur. */
  lemma TallyCounts(names: seq<string>)
    ensures Valid(Tally(names))
    ensures forall x :: Count(Tally(names), x) == multiset(names)[x]
    ensures forall x :: x in Tally(names).count <==> x in names
  {
    TallySpec(names);
  }

  lemma TallySpec(names: seq<string>)
    ensures Valid(Tally(names))
    ensures forall x :: x in Tally(names).count <==> x in names
    ensures forall x :: x in names ==> Tally(names).count[x] == multiset(names)[x]
  {
    BumpAllSpec(Empty, names);
  }

  /** The CSS recount keeps the keys and their order and adds to each
      existing entry the number of times it was met. */
  lemma {:induction false} BumpExistingAllSpec(t: Table, names: seq<string>)
    ensures BumpExistingAll(t, names).keys == t.keys
    ensures BumpExistingAll(t, names).count.Keys == t.count.Keys
    ensures forall x :: x in t.count ==> BumpExistingAll(t, names).count[x] == t.count[x] + multiset(names)[x]
  {
    if names != [] {
      var init := names[..|names| - 1];
      assert names == init + [names[|names| - 1]];
      BumpExistingAllSpec(t, init);
    }
  }

  lemma {:induction false} BumpExistingAllAppend(t: Table, a: seq<string>, b: seq<string>)
    ensures BumpExistingAll(t, a + b) == BumpExistingAll(BumpExistingAll(t, a), b)
  {
    if b != [] {
      assert (a + b)[..|a + b| - 1] == a + b[..|b| - 1];
      assert (a + b)[|a + b| - 1] == b[|b| - 1];
      BumpExistingAllAppend(t, a, b[..|b| - 1]);
    } else {
      assert a + b == a;
    }
  }

  // ---------------------------------------------------------------------
  // Ranking: `sortedNames` maps each entry to `name.length * count` and
  // sorts descending with JavaScript's stable `Array.prototype.sort`.
  // ---------------------------------------------------------------------

  /** The estimated number of bytes a name occupies in the output. */
  function Cost(t: Table, name: string): nat
  {
    |name| * Count(t, name)
  }

  /** Puts `x` after every name of `r` that costs at least as much. */
  function Insert(t: Table, x: string, r: seq<string>): seq<string>
  {
    if r == [] then [x]
    else if Cost(t, r[0]) >= Cost(t, x) then [r[0]] + Insert(t, x, r[1..])
    else [x] + r
  }

  /** Stable insertion sort by descending cost. */
  function SortByCost(t: Table, s: seq<string>): seq<string>
  {
    if s == [] then [] else Insert(t, s[|s| - 1], SortByCost(t, s[..|s| - 1]))
  }

  /** The ranking of a table's names. */
  function Ranked(t: Table): seq<string>
  {
    SortByCost(t, t.keys)
  }

  predicate SortedByCost(t: Table, r: seq<string>)
  {
    forall i, j :: 0 <= i < j < |r| ==> Cost(t, r[i]) >= Cost(t, r[j])
  }

  /** The names of `s` that cost exactly `c`, in their order in `s`. */
  function WithCost(t: Table, s: seq<string>, c: nat): seq<string>
  {
    if s == [] then []
    else WithCost(t, s[..|s| - 1], c) + (if Cost(t, s[|s| - 1]) == c then [s[|s| - 1]] else [])
  }

  lemma {:induction false} WithCostAppend(t: Table, a: seq<string>, b: seq<string>, c: nat)
    ensures WithCost(t, a + b, c) == WithCost(t, a, c) + WithCost(t, b, c)
  {
    if b == [] {
      assert a + b == a;
    } else {
      assert (a + b)[..|a + b| - 1] == a + b[..|b| - 1];
      assert (a + b)[|a + b| - 1] == b[|b| - 1];
      WithCostAppend(t, a, b[..|b| - 1], c);
    }
  }

  lemma {:induction false} WithCostNone(t: Table, s: seq<string>, c: nat)
    requires forall k :: 0 <= k < |s| ==> Cost(t, s[k]) < c
    ensures WithCost(t, s, c) == []
  {
    if s != [] {
      WithCostNone(t, s[..|s| - 1], c);
    }
  }

  lemma {:induction false} InsertElements(t: Table, x: string, r: seq<string>)
    ensures multiset(Insert(t, x, r)) == multiset(r) + multiset{x}
  {
    if r != [] && Cost(t, r[0]) >= Cost(t, x) {
      assert r == [r[0]] + r[1..];
      InsertElements(t, x, r[1..]);
    }
  }

  lemma SortedTail(t: Table, r: seq<string>)
    requires SortedByCost(t, r) && r != []
    ensures SortedByCost(t, r[1..])
    ensures forall k :: 0 <= k < |r| ==> Cost(t, r[0]) >= Cost(t, r[k])
  {
    var rest := r[1..];
    forall i, j | 0 <= i < j < |rest| ensures Cost(t, rest[i]) >= Cost(t, rest[j]) {
      assert rest[i] == r[i + 1] && rest[j] == r[j + 1];
    }
  }

  lemma {:induction false} InsertSorted(t: Table, x: string, r: seq<string>)
    requires SortedByCost(t, r)
    ensures SortedByCost(t, Insert(t, x, r))
  {
    if r != [] && Cost(t, r[0]) >= Cost(t, x) {
      SortedTail(t, r);
      InsertSorted(t, x, r[1..]);
      var rest := Insert(t, x, r[1..]);
      InsertElements(t, x, r[1..]);
      forall k | 0 <= k < |rest| ensures Cost(t, r[0]) >= Cost(t, rest[k]) {
        assert rest[k] in multiset(rest);
        assert rest[k] == x || rest[k] in r[1..];
      }
      assert Insert(t, x, r) == [r[0]] + rest;
    } else if r != [] {
      SortedTail(t, r);
      assert Insert(t, x, r) == [x] + r;
    }
  }

  lemma {:induction false} InsertWithCost(t: Table, x: string, r: seq<string>, c: nat)
    requires SortedByCost(t, r)
    ensures WithCost(t, Insert(t, x, r), c) == WithCost(t, r, c) + (if Cost(t, x) == c then [x] else [])
  {
    if r == [] {
      assert WithCost(t, [x], c) == WithCost(t, [], c) + (if Cost(t, x) == c then [x] else []);
    } else if Cost(t, r[0]) >= Cost(t, x) {
      var rest := r[1..];
      assert r == [r[0]] + rest;
      SortedTail(t, r);
      InsertWithCost(t, x, rest, c);
      assert Insert(t, x, r) == [r[0]] + Insert(t, x, rest);
      WithCostAppend(t, [r[0]], Insert(t, x, rest), c);
      WithCostAppend(t, [r[0]], rest, c);
    } else {
      InsertFirstWithCost(t, x, r, c);
    }
  }

  /** A name dearer than every name of `r` goes first, before the names
      of its own cost, of which there are none. */
  lemma InsertFirstWithCost(t: Table, x: string, r: seq<string>, c: nat)
    requires SortedByCost(t, r) && r != [] && Cost(t, r[0]) < Cost(t, x)
    ensures WithCost(t, Insert(t, x, r), c) == WithCost(t, r, c) + (if Cost(t, x) == c then [x] else [])
  {
    assert WithCost(t, [x], c) == WithCost(t, [], c) + (if Cost(t, x) == c then [x] else []);
    assert Insert(t, x, r) == [x] + r;
    WithCostAppend(t, [x], r, c);
    if Cost(t, x) == c {
      SortedTail(t, r);
      WithCostNone(t, r, c);
    }
  }

  lemma {:induction false} SortByCostSpec(t: Table, s: seq<string>)
    ensures multiset(SortByCost(t, s)) == multiset(s)
    ensures SortedByCost(t, SortByCost(t, s))
    ensures forall c :: WithCost(t, SortByCost(t, s), c) == WithCost(t, s, c)
  {
    if s != [] {
      var init, last := s[..|s| - 1], s[|s| - 1];
      assert s == init + [last];
      SortByCostSpec(t, init);
      forall c ensures WithCost(t, SortByCost(t, s), c) == WithCost(t, s, c) {
        InsertWithCost(t, last, SortByCost(t, init), c);
      }
      InsertElements(t, last, SortByCost(t, init));
      InsertSorted(t, last, SortByCost(t, init));
    }
  }

  lemma {:induction false} DistinctCounts(a: seq<string>)
    requires Distinct(a)
    ensures forall x :: multiset(a)[x] <= 1
  {
    if a != [] {
      var init := a[..|a| - 1];
      assert a == init + [a[|a| - 1]];
      DistinctCounts(init);
      assert a[|a| - 1] !in init;
    }
  }

  lemma MultisetDistinct(a: seq<string>, b: seq<string>)
    requires multiset(a) == multiset(b) && Distinct(a)
    ensures Distinct(b)
  {
    DistinctCounts(a);
    forall i, j | 0 <= i < j < |b| ensures b[i] != b[j] {
      assert b == b[..i] + [b[i]] + b[i + 1..j] + [b[j]] + b[j + 1..];
      assert multiset(b)[b[i]] >= multiset([b[i]] + b[i + 1..j] + [b[j]])[b[i]];
    }
  }

  /** `sortedNames` for one kind of name: every key of the table exactly
      once, the costliest first, and names of equal cost in the order the
      table received them (the sort is stable). */
  lemma RankedSpec(t: Table)
    requires Valid(t)
    ensures multiset(Ranked(t)) == multiset(t.keys)
    ensures Distinct(Ranked(t))
    ensures forall x :: x in Ranked(t) <==> x in t.count
    ensures SortedByCost(t, Ranked(t))
    ensures forall c :: WithCost(t, Ranked(t), c) == WithCost(t, t.keys, c)
  {
    SortByCostSpec(t, t.keys);
    MultisetDistinct(t.keys, Ranked(t));
    forall x ensures x in Ranked(t) <==> x in t.keys {
      assert x in Ranked(t) <==> x in multiset(Ranked(t));
    }
  }

  /** Cost ordering of the allocation: a name strictly costlier than another
      is ranked before it and so never receives a longer short name. */
  lemma CostOrdering(t: Table, i: nat, j: nat)
    requires Valid(t)
    requires i < |Ranked(t)| && j < |Ranked(t)|
    requires Cost(t, Ranked(t)[i]) > Cost(t, Ranked(t)[j])
    ensures i < j
    ensures |ShortName(i)| <= |ShortName(j)|
  {
    RankedSpec(t);
    ShortNameLengthMonotone(i, j);
  }
}
