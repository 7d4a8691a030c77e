/** `BuildGroupTree`: a flat result list turned into a tree, one level per grouping field.

    `key(x, field)` stands for the printed value of the item's field. */
module GroupTree {

  datatype Node<T> = Node(field: string, value: string, count: nat, children: seq<Node<T>>, items: seq<T>)

  type Key<!T> = (T, string) -> string

  /** The items with, and without, the given value in the field, in their order. */
  function Select<T>(items: seq<T>, key: Key<T>, field: string, value: string): (r: seq<T>)
    ensures forall i :: 0 <= i < |r| ==> key(r[i], field) == value
    ensures items != [] && key(items[0], field) == value ==> r != []
  {
    if items == [] then []
    else if key(items[0], field) == value then [items[0]] + Select(items[1..], key, field, value)
    else Select(items[1..], key, field, value)
  }

  function Reject<T>(items: seq<T>, key: Key<T>, field: string, value: string): (r: seq<T>)
    ensures |r| <= |items|
    ensures items != [] && key(items[0], field) == value ==> |r| < |items|
    ensures forall i :: 0 <= i < |r| ==> key(r[i], field) != value
  {
    if items == [] then []
    else if key(items[0], field) == value then Reject(items[1..], key, field, value)
    else [items[0]] + Reject(items[1..], key, field, value)
  }

  /** The tree: the group of the first item, then the tree of the items outside that group. */
  function Build<T>(items: seq<T>, key: Key<T>, fields: seq<string>): seq<Node<T>>
    decreases |fields|, |items|, 0
  {
    if fields == [] || items == [] then []
    else
      var value := key(items[0], fields[0]);
      [GroupNode(Select(items, key, fields[0], value), key, fields, value)] +
      Build(Reject(items, key, fields[0], value), key, fields)
  }

  function GroupNode<T>(group: seq<T>, key: Key<T>, fields: seq<string>, value: string): Node<T>
    requires fields != []
    decreases |fields| - 1, |group|, 1
  {
    if |fields| == 1 then Node(fields[0], value, |group|, [], group)
    else Node(fields[0], value, |group|, Build(group, key, fields[1..]), [])
  }

  /** The leaves from left to right. */
  function Flatten<T>(nodes: seq<Node<T>>): seq<T> {
    if nodes == [] then []
    else nodes[0].items + Flatten(nodes[0].children) + Flatten(nodes[1..])
  }

  /** The leaf order computed directly on the items. */
  function Arrange<T>(items: seq<T>, key: Key<T>, fields: seq<string>): seq<T>
    decreases |fields|, |items|
  {
    if fields == [] || items == [] then items
    else
      var value := key(items[0], fields[0]);
      Arrange(Select(items, key, fields[0], value), key, fields[1..]) +
      Arrange(Reject(items, key, fields[0], value), key, fields)
  }

  lemma {:induction false} FlattenIsArrange<T>(items: seq<T>, key: Key<T>, fields: seq<string>)
    requires fields != []
    ensures Flatten(Build(items, key, fields)) == Arrange(items, key, fields)
    decreases |fields|, |items|
  {
    if items != [] {
      var value := key(items[0], fields[0]);
      var group := Select(items, key, fields[0], value);
      var rest := Reject(items, key, fields[0], value);
      var nodes := Build(items, key, fields);
      assert nodes[0] == GroupNode(group, key, fields, value) && nodes[1..] == Build(rest, key, fields);
      FlattenIsArrange(rest, key, fields);
      if |fields| > 1 {
        FlattenIsArrange(group, key, fields[1..]);
        assert nodes[0].items + Flatten(nodes[0].children) == Flatten(nodes[0].children);
      } else {
        assert Flatten(nodes[0].children) == [];
        assert nodes[0].items + [] == group;
        assert Arrange(group, key, fields[1..]) == group;
      }
    }
  }

  // ---------------------------------------------------------------------------
  // Selection
  // ---------------------------------------------------------------------------

  lemma {:induction false} SelectMultiset<T>(items: seq<T>, key: Key<T>, field: string, value: string)
    ensures multiset(items) == multiset(Select(items, key, field, value)) + multiset(Reject(items, key, field, value))
    decreases |items|
  {
    if items != [] {
      SelectMultiset(items[1..], key, field, value);
      assert items == [items[0]] + items[1..];
    }
  }

  lemma {:induction false} SelectConcat<T>(a: seq<T>, b: seq<T>, key: Key<T>, field: string, value: string)
    ensures Select(a + b, key, field, value) == Select(a, key, field, value) + Select(b, key, field, value)
    decreases |a|
  {
    if a == [] {
      assert a + b == b;
    } else {
      assert (a + b)[0] == a[0] && (a + b)[1..] == a[1..] + b;
      SelectConcat(a[1..], b, key, field, value);
    }
  }

  lemma {:induction false} RejectConcat<T>(a: seq<T>, b: seq<T>, key: Key<T>, field: string, value: string)
    ensures Reject(a + b, key, field, value) == Reject(a, key, field, value) + Reject(b, key, field, value)
    decreases |a|
  {
    if a == [] {
      assert a + b == b;
    } else {
      assert (a + b)[0] == a[0] && (a + b)[1..] == a[1..] + b;
      RejectConcat(a[1..], b, key, field, value);
    }
  }

  lemma {:induction false} SelectAllOrNone<T>(items: seq<T>, key: Key<T>, field: string, value: string)
    ensures (forall i :: 0 <= i < |items| ==> key(items[i], field) == value) ==>
              Select(items, key, field, value) == items && Reject(items, key, field, value) == []
    ensures (forall i :: 0 <= i < |items| ==> key(items[i], field) != value) ==>
              Select(items, key, field, value) == [] && Reject(items, key, field, value) == items
    decreases |items|
  {
    if items != [] {
      SelectAllOrNone(items[1..], key, field, value);
      assert items == [items[0]] + items[1..];
    }
  }

  lemma {:induction false} SelectAfterReject<T>(items: seq<T>, key: Key<T>, field: string, value: string, other: string)
    requires value != other
    ensures Select(Reject(items, key, field, other), key, field, value) == Select(items, key, field, value)
    decreases |items|
  {
    if items != [] {
      SelectAfterReject(items[1..], key, field, value, other);
    }
  }

  // ---------------------------------------------------------------------------
  // Conservation
  // ---------------------------------------------------------------------------

  lemma {:induction false} ArrangeIsPermutation<T>(items: seq<T>, key: Key<T>, fields: seq<string>)
    ensures multiset(Arrange(items, key, fields)) == multiset(items)
    ensures |Arrange(items, key, fields)| == |items|
    decreases |fields|, |items|
  {
    if fields != [] && items != [] {
      var value := key(items[0], fields[0]);
      SelectMultiset(items, key, fields[0], value);
      ArrangeIsPermutation(Select(items, key, fields[0], value), key, fields[1..]);
      ArrangeIsPermutation(Reject(items, key, fields[0], value), key, fields);
    }
    assert |multiset(Arrange(items, key, fields))| == |multiset(items)|;
  }

  lemma ArrangeKeepsMember<T>(items: seq<T>, key: Key<T>, fields: seq<string>, x: T)
    ensures x in Arrange(items, key, fields) <==> x in items
  {
    ArrangeIsPermutation(items, key, fields);
    assert x in items <==> x in multiset(items);
    assert x in Arrange(items, key, fields) <==> x in multiset(Arrange(items, key, fields));
  }

  // ---------------------------------------------------------------------------
  // Rebuilding
  // ---------------------------------------------------------------------------

  /** The first group of an arranged list is its first block. */
  lemma ArrangedGroups<T>(block: seq<T>, rest: seq<T>, key: Key<T>, field: string, value: string)
    requires forall i :: 0 <= i < |block| ==> key(block[i], field) == value
    requires forall i :: 0 <= i < |rest| ==> key(rest[i], field) != value
    ensures Select(block + rest, key, field, value) == block
    ensures Reject(block + rest, key, field, value) == rest
  {
    SelectConcat(block, rest, key, field, value);
    RejectConcat(block, rest, key, field, value);
    SelectAllOrNone(block, key, field, value);
    SelectAllOrNone(rest, key, field, value);
  }

  /** Arranging puts the items that share the first item's value first. */
  lemma FirstBlock<T>(items: seq<T>, key: Key<T>, fields: seq<string>)
    requires fields != [] && items != []
    ensures var value := key(items[0], fields[0]);
            var block := Arrange(Select(items, key, fields[0], value), key, fields[1..]);
            var others := Arrange(Reject(items, key, fields[0], value), key, fields);
            Arrange(items, key, fields) == block + others && block != [] &&
            (forall i :: 0 <= i < |block| ==> key(block[i], fields[0]) == value) &&
            (forall i :: 0 <= i < |others| ==> key(others[i], fields[0]) != value)
  {
    var value := key(items[0], fields[0]);
    var group, rest := Select(items, key, fields[0], value), Reject(items, key, fields[0], value);
    ArrangeIsPermutation(group, key, fields[1..]);
    ArrangedKeys(group, key, fields[1..], fields[0], value, true);
    ArrangedKeys(rest, key, fields, fields[0], value, false);
  }

  lemma ArrangedKeys<T>(items: seq<T>, key: Key<T>, fields: seq<string>, field: string, value: string, same: bool)
    requires forall i :: 0 <= i < |items| ==> ((key(items[i], field) == value) == same)
    ensures forall i :: 0 <= i < |Arrange(items, key, fields)| ==>
              ((key(Arrange(items, key, fields)[i], field) == value) == same)
  {
    var arranged := Arrange(items, key, fields);
    forall i | 0 <= i < |arranged| ensures (key(arranged[i], field) == value) == same {
      ArrangeKeepsMember(items, key, fields, arranged[i]);
    }
  }

  /** Building from the arranged items gives the same tree. */
  lemma {:induction false} BuildOfArranged<T>(items: seq<T>, key: Key<T>, fields: seq<string>)
    ensures Build(Arrange(items, key, fields), key, fields) == Build(items, key, fields)
    decreases |fields|, |items|
  {
    if fields != [] && items != [] {
      var field, value := fields[0], key(items[0], fields[0]);
      var group, rest := Select(items, key, field, value), Reject(items, key, field, value);
      var block, others := Arrange(group, key, fields[1..]), Arrange(rest, key, fields);
      FirstBlock(items, key, fields);
      ArrangedGroups(block, others, key, field, value);
      ArrangeIsPermutation(group, key, fields[1..]);
      assert (block + others)[0] == block[0];
      BuildOfArranged(group, key, fields[1..]);
      BuildOfArranged(rest, key, fields);
      assert GroupNode(block, key, fields, value) == GroupNode(group, key, fields, value);
    }
  }

  /** Rebuilding the tree from its leaves gives the same tree. */
  lemma RebuildFromLeaves<T>(items: seq<T>, key: Key<T>, fields: seq<string>)
    requires fields != []
    ensures Build(Flatten(Build(items, key, fields)), key, fields) == Build(items, key, fields)
  {
    FlattenIsArrange(items, key, fields);
    BuildOfArranged(items, key, fields);
  }

  // ---------------------------------------------------------------------------
  // Contiguous input
  // ---------------------------------------------------------------------------

  ghost predicate SamePrefix<T>(x: T, y: T, key: Key<T>, fields: seq<string>, level: nat)
    requires level <= |fields|
  {
    forall f :: 0 <= f < level ==> key(x, fields[f]) == key(y, fields[f])
  }

  /** Items with equal values in the first fields stand next to each other, at every level. */
  ghost predicate Contiguous<T>(items: seq<T>, key: Key<T>, fields: seq<string>) {
    forall level, i, j, k | 0 <= level <= |fields| && 0 <= i < j < k < |items| ::
      SamePrefix(items[i], items[k], key, fields, level) ==> SamePrefix(items[i], items[j], key, fields, level)
  }

  lemma SamePrefixSplits<T>(x: T, y: T, key: Key<T>, fields: seq<string>, level: nat)
    requires 0 < level <= |fields|
    ensures SamePrefix(x, y, key, fields, level) <==>
            key(x, fields[0]) == key(y, fields[0]) && SamePrefix(x, y, key, fields[1..], level - 1)
  {
    if key(x, fields[0]) == key(y, fields[0]) && SamePrefix(x, y, key, fields[1..], level - 1) {
      forall f | 0 <= f < level ensures key(x, fields[f]) == key(y, fields[f]) {
        assert f > 0 ==> fields[f] == fields[1..][f - 1];
      }
    }
    if SamePrefix(x, y, key, fields, level) {
      forall f | 0 <= f < level - 1 ensures key(x, fields[1..][f]) == key(y, fields[1..][f]) {
        assert fields[1..][f] == fields[f + 1];
      }
    }
  }

  lemma ContiguousBlocks<T>(block: seq<T>, others: seq<T>, key: Key<T>, fields: seq<string>, value: string)
    requires fields != []
    requires forall i :: 0 <= i < |block| ==> key(block[i], fields[0]) == value
    requires forall i :: 0 <= i < |others| ==> key(others[i], fields[0]) != value
    requires Contiguous(block, key, fields[1..]) && Contiguous(others, key, fields)
    ensures Contiguous(block + others, key, fields)
  {
    var c := block + others;
    forall level, i, j, k | 0 <= level <= |fields| && 0 <= i < j < k < |c| && SamePrefix(c[i], c[k], key, fields, level)
      ensures SamePrefix(c[i], c[j], key, fields, level)
    {
      if level > 0 {
        SamePrefixSplits(c[i], c[k], key, fields, level);
        SamePrefixSplits(c[i], c[j], key, fields, level);
        if k < |block| {
          assert SamePrefix(block[i], block[k], key, fields[1..], level - 1);
        } else {
          assert i >= |block|;
          var n := |block|;
          assert SamePrefix(others[i - n], others[k - n], key, fields, level);
          assert SamePrefix(others[i - n], others[j - n], key, fields, level);
        }
      }
    }
  }

  lemma {:induction false} ArrangedIsContiguous<T>(items: seq<T>, key: Key<T>, fields: seq<string>)
    ensures Contiguous(Arrange(items, key, fields), key, fields)
    decreases |fields|, |items|
  {
    if fields != [] && items != [] {
      var field, value := fields[0], key(items[0], fields[0]);
      var group, rest := Select(items, key, field, value), Reject(items, key, field, value);
      FirstBlock(items, key, fields);
      ArrangedIsContiguous(group, key, fields[1..]);
      ArrangedIsContiguous(rest, key, fields);
      ContiguousBlocks(Arrange(group, key, fields[1..]), Arrange(rest, key, fields), key, fields, value);
    }
  }

  /** How many items at the front have the value. */
  function Leading<T>(items: seq<T>, key: Key<T>, field: string, value: string): (n: nat)
    ensures n <= |items|
    ensures forall i :: 0 <= i < n ==> key(items[i], field) == value
    ensures n < |items| ==> key(items[n], field) != value
  {
    if items == [] || key(items[0], field) != value then 0 else 1 + Leading(items[1..], key, field, value)
  }

  /** In a contiguous list the first group is a prefix, and both parts are contiguous again. */
  lemma ContiguousSplits<T>(items: seq<T>, key: Key<T>, fields: seq<string>) returns (n: nat)
    requires fields != [] && items != [] && Contiguous(items, key, fields)
    ensures 0 < n <= |items|
    ensures Select(items, key, fields[0], key(items[0], fields[0])) == items[..n]
    ensures Reject(items, key, fields[0], key(items[0], fields[0])) == items[n..]
    ensures Contiguous(items[..n], key, fields[1..]) && Contiguous(items[n..], key, fields)
  {
    var field, value := fields[0], key(items[0], fields[0]);
    n := Leading(items, key, field, value);
    forall k | n < k < |items| ensures key(items[k], field) != value {
      assert SamePrefix(items[0], items[k], key, fields, 1) ==> SamePrefix(items[0], items[n], key, fields, 1);
    }
    assert items == items[..n] + items[n..];
    ArrangedGroups(items[..n], items[n..], key, field, value);
    PartsStayContiguous(items, key, fields, n);
  }

  lemma PartsStayContiguous<T>(items: seq<T>, key: Key<T>, fields: seq<string>, n: nat)
    requires fields != [] && n <= |items| && Contiguous(items, key, fields)
    requires forall i, j :: 0 <= i < j < n ==> key(items[i], fields[0]) == key(items[j], fields[0])
    ensures Contiguous(items[..n], key, fields[1..]) && Contiguous(items[n..], key, fields)
  {
    var a, b := items[..n], items[n..];
    forall level, i, j, k | 0 <= level <= |fields[1..]| && 0 <= i < j < k < |a| && SamePrefix(a[i], a[k], key, fields[1..], level)
      ensures SamePrefix(a[i], a[j], key, fields[1..], level)
    {
      SamePrefixSplits(items[i], items[k], key, fields, level + 1);
      SamePrefixSplits(items[i], items[j], key, fields, level + 1);
      assert SamePrefix(items[i], items[k], key, fields, level + 1);
    }
    forall level, i, j, k | 0 <= level <= |fields| && 0 <= i < j < k < |b| && SamePrefix(b[i], b[k], key, fields, level)
      ensures SamePrefix(b[i], b[j], key, fields, level)
    {
      assert SamePrefix(items[n + i], items[n + k], key, fields, level);
      assert SamePrefix(items[n + i], items[n + j], key, fields, level);
    }
  }

  lemma {:induction false} ContiguousIsArranged<T>(items: seq<T>, key: Key<T>, fields: seq<string>)
    requires Contiguous(items, key, fields)
    ensures Arrange(items, key, fields) == items
    decreases |fields|, |items|
  {
    if fields != [] && items != [] {
      var n := ContiguousSplits(items, key, fields);
      ContiguousIsArranged(items[..n], key, fields[1..]);
      ContiguousIsArranged(items[n..], key, fields);
    }
  }

  /** The leaves come out in the input order exactly when equal key prefixes were contiguous. */
  lemma LeavesInInputOrder<T>(items: seq<T>, key: Key<T>, fields: seq<string>)
    requires fields != []
    ensures Flatten(Build(items, key, fields)) == items <==> Contiguous(items, key, fields)
  {
    FlattenIsArrange(items, key, fields);
    if Arrange(items, key, fields) == items {
      ArrangedIsContiguous(items, key, fields);
    }
    if Contiguous(items, key, fields) {
      ContiguousIsArranged(items, key, fields);
    }
  }

  // --- Sorted input

  /** The fields that the database sorts by: the grouping fields it may sort by, in order. */
  function SortFields(groupBy: seq<string>, allowed: set<string>): (r: seq<string>)
    ensures (forall i :: 0 <= i < |groupBy| ==> groupBy[i] in allowed) ==> r == groupBy
  {
    if groupBy == [] then []
    else (if groupBy[0] in allowed then [groupBy[0]] else []) + SortFields(groupBy[1..], allowed)
  }

  /** `x` may stand before `y` in ascending order of the fields; `rank` is the database's order of
      the values of a field. */
  predicate Precedes<T>(x: T, y: T, rank: (T, string) -> int, fields: seq<string>) {
    fields == [] || rank(x, fields[0]) < rank(y, fields[0]) ||
    (rank(x, fields[0]) == rank(y, fields[0]) && Precedes(x, y, rank, fields[1..]))
  }

  ghost predicate IsSorted<T>(items: seq<T>, rank: (T, string) -> int, fields: seq<string>) {
    forall i, j :: 0 <= i < j < |items| ==> Precedes(items[i], items[j], rank, fields)
  }

  /** Values of the field rank equally exactly if they print equally. */
  ghost predicate RanksAsPrinted<T>(items: seq<T>, key: Key<T>, rank: (T, string) -> int, field: string) {
    forall i, j :: 0 <= i < |items| && 0 <= j < |items| ==>
      (rank(items[i], field) == rank(items[j], field) <==> key(items[i], field) == key(items[j], field))
  }

  lemma {:induction false} BetweenEquals<T>(items: seq<T>, key: Key<T>, rank: (T, string) -> int, fields: seq<string>,
                                            level: nat, i: nat, j: nat, k: nat)
    requires level <= |fields| && i < j < k < |items| && SamePrefix(items[i], items[k], key, fields, level)
    requires forall f :: 0 <= f < |fields| ==> RanksAsPrinted(items, key, rank, fields[f])
    requires Precedes(items[i], items[j], rank, fields) && Precedes(items[j], items[k], rank, fields)
    ensures SamePrefix(items[i], items[j], key, fields, level)
    decreases level
  {
    if level > 0 {
      SamePrefixSplits(items[i], items[k], key, fields, level);
      assert RanksAsPrinted(items, key, rank, fields[0]);
      assert rank(items[i], fields[0]) == rank(items[k], fields[0]);
      assert forall f :: 0 <= f < |fields[1..]| ==> fields[1..][f] == fields[f + 1];
      BetweenEquals(items, key, rank, fields[1..], level - 1, i, j, k);
      SamePrefixSplits(items[i], items[j], key, fields, level);
    }
  }

  /** A list sorted by the grouping fields is contiguous, if the database may sort by all of them
      and its order tells values apart exactly as they print. */
  lemma SortedIsContiguous<T>(items: seq<T>, key: Key<T>, rank: (T, string) -> int, groupBy: seq<string>, allowed: set<string>)
    requires IsSorted(items, rank, SortFields(groupBy, allowed))
    requires forall f :: 0 <= f < |groupBy| ==> groupBy[f] in allowed && RanksAsPrinted(items, key, rank, groupBy[f])
    ensures Contiguous(items, key, groupBy)
  {
    forall level, i, j, k | 0 <= level <= |groupBy| && 0 <= i < j < k < |items| && SamePrefix(items[i], items[k], key, groupBy, level)
      ensures SamePrefix(items[i], items[j], key, groupBy, level)
    {
      BetweenEquals(items, key, rank, groupBy, level, i, j, k);
    }
  }

  /** An order that does not tell values apart which print differently, as one that ignores case,
      can leave a group in two pieces. */
  lemma CoarseOrderSplitsGroups(field: string) returns (items: seq<string>, key: Key<string>, rank: (string, string) -> int)
    ensures IsSorted(items, rank, [field]) && !Contiguous(items, key, [field])
  {
    items := ["a", "A", "a"];
    key := (x: string, f: string) => x;
    rank := (x: string, f: string) => 0;
    var fields := [field];
    assert SamePrefix(items[0], items[2], key, fields, 1);
    assert key(items[0], fields[0]) != key(items[1], fields[0]);
    assert !SamePrefix(items[0], items[1], key, fields, 1);
  }

  // ---------------------------------------------------------------------------
  // Nodes
  // ---------------------------------------------------------------------------

  /** Every node carries its level's field and the number of items below it; siblings have
      different values; items are at the last level only. */
  ghost predicate WellFormed<T>(nodes: seq<Node<T>>, fields: seq<string>)
    decreases |fields|
  {
    fields != [] &&
    (forall i, j :: 0 <= i < j < |nodes| ==> nodes[i].value != nodes[j].value) &&
    forall i :: 0 <= i < |nodes| ==>
      nodes[i].field == fields[0] && nodes[i].count > 0 &&
      if |fields| == 1 then nodes[i].children == [] && nodes[i].count == |nodes[i].items|
      else nodes[i].items == [] && nodes[i].count == |Flatten(nodes[i].children)| && WellFormed(nodes[i].children, fields[1..])
  }

  ghost predicate Absent<T>(items: seq<T>, key: Key<T>, field: string, value: string) {
    forall i :: 0 <= i < |items| ==> key(items[i], field) != value
  }

  lemma {:induction false} RejectKeepsAbsence<T>(items: seq<T>, key: Key<T>, field: string, value: string, absent: string)
    requires Absent(items, key, field, absent)
    ensures Absent(Reject(items, key, field, value), key, field, absent)
    decreases |items|
  {
    if items != [] {
      var rest := Reject(items[1..], key, field, value);
      assert key(items[0], field) != absent;
      RejectKeepsAbsence(items[1..], key, field, value, absent);
      assert Absent([items[0]] + rest, key, field, absent);
    }
  }

  ghost predicate NoneLabelled<T>(nodes: seq<Node<T>>, value: string) {
    forall i :: 0 <= i < |nodes| ==> nodes[i].value != value
  }

  /** A value that no item has labels no node. */
  lemma {:induction false} NoNodeFor<T>(items: seq<T>, key: Key<T>, fields: seq<string>, absent: string)
    requires fields != [] && Absent(items, key, fields[0], absent)
    ensures NoneLabelled(Build(items, key, fields), absent)
    decreases |items|
  {
    if items != [] {
      var value := key(items[0], fields[0]);
      RejectKeepsAbsence(items, key, fields[0], value, absent);
      NoNodeFor(Reject(items, key, fields[0], value), key, fields, absent);
      assert value != absent;
    }
  }

  lemma GroupNodeWellFormed<T>(group: seq<T>, key: Key<T>, fields: seq<string>, value: string)
    requires fields != [] && group != []
    requires |fields| > 1 ==> WellFormed(Build(group, key, fields[1..]), fields[1..])
    ensures WellFormed([GroupNode(group, key, fields, value)], fields)
  {
    if |fields| > 1 {
      FlattenIsArrange(group, key, fields[1..]);
      ArrangeIsPermutation(group, key, fields[1..]);
    }
  }

  lemma {:induction false} BuildIsWellFormed<T>(items: seq<T>, key: Key<T>, fields: seq<string>)
    requires fields != []
    ensures WellFormed(Build(items, key, fields), fields)
    decreases |fields|, |items|
  {
    if items != [] {
      var value := key(items[0], fields[0]);
      var group, rest := Select(items, key, fields[0], value), Reject(items, key, fields[0], value);
      if |fields| > 1 {
        BuildIsWellFormed(group, key, fields[1..]);
      }
      GroupNodeWellFormed(group, key, fields, value);
      BuildIsWellFormed(rest, key, fields);
      var first, others := GroupNode(group, key, fields, value), Build(rest, key, fields);
      NoNodeFor(rest, key, fields, value);
      assert WellFormed([first] + others, fields) by {
        assert [first][0] == first;
      }
    }
  }

  /** The items of the leaf that the values lead to; none when there is no such leaf. */
  function LeafAt<T>(nodes: seq<Node<T>>, path: seq<string>): seq<T>
    decreases |path|, |nodes|
  {
    if nodes == [] || path == [] then []
    else if nodes[0].value != path[0] then LeafAt(nodes[1..], path)
    else if |path| == 1 then nodes[0].items
    else LeafAt(nodes[0].children, path[1..])
  }

  predicate HasValues<T>(x: T, key: Key<T>, fields: seq<string>, path: seq<string>)
    requires |path| == |fields|
  {
    forall f :: 0 <= f < |fields| ==> key(x, fields[f]) == path[f]
  }

  /** The items with the given values in all the fields, in input order. */
  function Matching<T>(items: seq<T>, key: Key<T>, fields: seq<string>, path: seq<string>): seq<T>
    requires |path| == |fields|
  {
    if items == [] then []
    else if HasValues(items[0], key, fields, path) then [items[0]] + Matching(items[1..], key, fields, path)
    else Matching(items[1..], key, fields, path)
  }

  lemma HasValuesSplits<T>(x: T, key: Key<T>, fields: seq<string>, path: seq<string>)
    requires |path| == |fields| && fields != []
    ensures HasValues(x, key, fields, path) <==>
            key(x, fields[0]) == path[0] && HasValues(x, key, fields[1..], path[1..])
  {
    if key(x, fields[0]) == path[0] && HasValues(x, key, fields[1..], path[1..]) {
      forall f | 0 <= f < |fields| ensures key(x, fields[f]) == path[f] {
        assert f > 0 ==> fields[f] == fields[1..][f - 1] && path[f] == path[1..][f - 1];
      }
    }
  }

  lemma {:induction false} MatchingSplits<T>(items: seq<T>, key: Key<T>, fields: seq<string>, path: seq<string>)
    requires |path| == |fields| && fields != []
    ensures Matching(items, key, fields, path)
         == Matching(Select(items, key, fields[0], path[0]), key, fields[1..], path[1..])
    decreases |items|
  {
    if items != [] {
      HasValuesSplits(items[0], key, fields, path);
      MatchingSplits(items[1..], key, fields, path);
      if key(items[0], fields[0]) == path[0] {
        var group := Select(items, key, fields[0], path[0]);
        assert group[0] == items[0] && group[1..] == Select(items[1..], key, fields[0], path[0]);
      }
    }
  }

  lemma {:induction false} MatchingNothing<T>(items: seq<T>, key: Key<T>)
    ensures Matching(items, key, [], []) == items
    decreases |items|
  {
    if items != [] {
      MatchingNothing(items[1..], key);
      assert items == [items[0]] + items[1..];
    }
  }

  /** A leaf holds exactly the items with its values, in input order. */
  lemma {:induction false} LeafHoldsMatches<T>(items: seq<T>, key: Key<T>, fields: seq<string>, path: seq<string>)
    requires |path| == |fields| && fields != []
    ensures LeafAt(Build(items, key, fields), path) == Matching(items, key, fields, path)
    decreases |fields|, |items|
  {
    MatchingSplits(items, key, fields, path);
    if items != [] {
      var value := key(items[0], fields[0]);
      var group, rest := Select(items, key, fields[0], value), Reject(items, key, fields[0], value);
      var nodes := Build(items, key, fields);
      assert nodes[0] == GroupNode(group, key, fields, value) && nodes[1..] == Build(rest, key, fields);
      if value != path[0] {
        LeafHoldsMatches(rest, key, fields, path);
        MatchingSplits(rest, key, fields, path);
        SelectAfterReject(items, key, fields[0], path[0], value);
      } else if |path| == 1 {
        assert fields[1..] == [] && path[1..] == [];
        MatchingNothing(group, key);
      } else {
        LeafHoldsMatches(group, key, fields[1..], path[1..]);
      }
    }
  }

  /** The whole input is in the leaves, once. */
  lemma LeavesArePermutation<T>(items: seq<T>, key: Key<T>, fields: seq<string>)
    requires fields != []
    ensures multiset(Flatten(Build(items, key, fields))) == multiset(items)
  {
    FlattenIsArrange(items, key, fields);
    ArrangeIsPermutation(items, key, fields);
  }

  // ---------------------------------------------------------------------------
  // The builder
  // ---------------------------------------------------------------------------

  /** The values of the field, each once, in order of first occurrence. */
  function Values<T>(items: seq<T>, key: Key<T>, field: string): seq<string>
    decreases |items|
  {
    if items == [] then []
    else [key(items[0], field)] + Values(Reject(items, key, field, key(items[0], field)), key, field)
  }

  /** One more item adds its value at the end, unless the value is already there. */
  lemma {:induction false} ValuesNext<T>(items: seq<T>, x: T, key: Key<T>, field: string)
    ensures Values(items + [x], key, field)
         == if key(x, field) in Values(items, key, field) then Values(items, key, field)
            else Values(items, key, field) + [key(x, field)]
    decreases |items|
  {
    if items == [] {
      assert items + [x] == [x];
      assert Reject([x], key, field, key(x, field)) == [];
    } else {
      var value := key(items[0], field);
      var rest := Reject(items, key, field, value);
      RejectConcat(items, [x], key, field, value);
      assert (items + [x])[0] == items[0];
      assert Reject([x], key, field, value) == if key(x, field) == value then [] else [x];
      ValuesNext(rest, x, key, field);
      assert rest + [] == rest;
    }
  }

  /** One node per value, with the items of that value. */
  lemma {:induction false} BuildIsMap<T>(items: seq<T>, key: Key<T>, fields: seq<string>, i: nat)
    requires fields != []
    ensures |Build(items, key, fields)| == |Values(items, key, fields[0])|
    ensures i < |Build(items, key, fields)| ==>
              var value := Values(items, key, fields[0])[i];
              Build(items, key, fields)[i] == GroupNode(Select(items, key, fields[0], value), key, fields, value)
    decreases |items|
  {
    if items != [] {
      var value := key(items[0], fields[0]);
      var rest := Reject(items, key, fields[0], value);
      BuildIsMap(rest, key, fields, if i == 0 then 0 else i - 1);
      if 0 < i < |Build(items, key, fields)| {
        var other := Values(rest, key, fields[0])[i - 1];
        NoNodeFor(rest, key, fields, value);
        assert Build(rest, key, fields)[i - 1].value == other;
        SelectAfterReject(items, key, fields[0], other, value);
      }
    }
  }

  function GroupOf<T>(groups: map<string, seq<T>>, value: string): seq<T> {
    if value in groups then groups[value] else []
  }

  /** The groups by value of the items, and the order in which the values appeared. */
  ghost predicate IsGrouping<T>(items: seq<T>, key: Key<T>, field: string, order: seq<string>, groups: map<string, seq<T>>) {
    && order == Values(items, key, field)
    && (forall v :: v in groups <==> v in order)
    && (forall v :: GroupOf(groups, v) == Select(items, key, field, v))
  }

  lemma SelectNext<T>(items: seq<T>, x: T, key: Key<T>, field: string, value: string)
    ensures Select(items + [x], key, field, value)
         == if key(x, field) == value then Select(items, key, field, value) + [x] else Select(items, key, field, value)
  {
    SelectConcat(items, [x], key, field, value);
    assert Select([x], key, field, value) == if key(x, field) == value then [x] else [];
  }

  /** The grouping with one more item. */
  lemma GroupingNext<T>(items: seq<T>, x: T, key: Key<T>, field: string, order: seq<string>, groups: map<string, seq<T>>)
    requires IsGrouping(items, key, field, order, groups)
    ensures var v := key(x, field);
      IsGrouping(items + [x], key, field, if v in groups then order else order + [v], groups[v := GroupOf(groups, v) + [x]])
  {
    var value := key(x, field);
    var groups' := groups[value := GroupOf(groups, value) + [x]];
    ValuesNext(items, x, key, field);
    forall v ensures GroupOf(groups', v) == Select(items + [x], key, field, v) {
      SelectNext(items, x, key, field, v);
      assert GroupOf(groups, v) == Select(items, key, field, v);
    }
  }

  /** One pass over the items. */
  method GroupByField<T>(items: seq<T>, key: Key<T>, field: string)
    returns (order: seq<string>, groups: map<string, seq<T>>)
    ensures order == Values(items, key, field)
    ensures forall v :: v in groups <==> v in order
    ensures forall v :: v in groups ==> groups[v] == Select(items, key, field, v)
  {
    order, groups := [], map[];
    for i := 0 to |items|
      invariant IsGrouping(items[..i], key, field, order, groups)
    {
      var value := key(items[i], field);
      assert items[..i + 1] == items[..i] + [items[i]];
      GroupingNext(items[..i], items[i], key, field, order, groups);
      if value in groups {
        groups := groups[value := groups[value] + [items[i]]];
      } else {
        groups := groups[value := [] + [items[i]]];
        order := order + [value];
      }
    }
    assert items[..|items|] == items;
    assert forall v :: v in groups ==> groups[v] == GroupOf(groups, v);
  }

  /** The node of one group, with the level below it when there is one. */
  method MakeNode<T>(group: seq<T>, key: Key<T>, groupBy: seq<string>, level: nat, value: string) returns (node: Node<T>)
    requires level < |groupBy|
    ensures node == GroupNode(group, key, groupBy[level..], value)
    decreases |groupBy| - level, 0
  {
    if level == |groupBy| - 1 {
      node := Node(groupBy[level], value, |group|, [], group);
    } else {
      var children := BuildGroupLevel(group, key, groupBy, level + 1);
      assert groupBy[level..][1..] == groupBy[level + 1..];
      node := Node(groupBy[level], value, |group|, children, []);
    }
  }

  /** `buildGroupLevel`. */
  method BuildGroupLevel<T>(items: seq<T>, key: Key<T>, groupBy: seq<string>, level: nat) returns (result: seq<Node<T>>)
    requires level <= |groupBy|
    ensures result == Build(items, key, groupBy[level..])
    decreases |groupBy| - level, 1
  {
    if level >= |groupBy| || |items| == 0 {
      return [];
    }
    var order, groups := GroupByField(items, key, groupBy[level]);
    ghost var goal := Build(items, key, groupBy[level..]);
    BuildIsMap(items, key, groupBy[level..], 0);
    result := [];
    for i := 0 to |order|
      invariant |result| == i && |goal| == |order|
      invariant forall j :: 0 <= j < i ==> result[j] == goal[j]
    {
      BuildIsMap(items, key, groupBy[level..], i);
      assert order[i] in order;
      var node := MakeNode(groups[order[i]], key, groupBy, level, order[i]);
      result := result + [node];
    }
  }

  /** `BuildGroupTree`: no grouping fields means no tree. */
  method BuildGroupTree<T>(items: seq<T>, key: Key<T>, groupBy: seq<string>) returns (result: seq<Node<T>>)
    ensures result == Build(items, key, groupBy)
  {
    if |groupBy| == 0 || |items| == 0 {
      return [];
    }
    assert groupBy[0..] == groupBy;
    result := BuildGroupLevel(items, key, groupBy, 0);
  }
}
