/** Helm value trees and the nested path writer of `HelmConfigItem.GetValuesMap`.

    A dynamic value is written at a path such as `a.b[2].c`.  Missing maps are created,
    short lists are padded with empty maps, and values of the wrong kind are replaced, with
    one exception: a non-final list segment that meets an existing non-list value is skipped,
    and the writer goes on in the map it was already in.
 */
module HelmValues {
  import opened Wrappers

  /** A YAML-like value.  `Scalar` stands for every value that is neither a list nor a map. */
  datatype Value =
    | Scalar(text: string)
    | List(items: seq<Value>)
    | Map(entries: map<string, Value>)

  /** One segment of a path: `key` or `key[index]`. */
  datatype KeyPart =
    | Field(key: string)
    | Element(key: string, index: nat)

  type Entries = map<string, Value>
  type Path = seq<KeyPart>

  const EMPTY: Value := Map(map[])

  // ---------------------------------------------------------------------------
  // One segment
  // ---------------------------------------------------------------------------

  /** `items` extended with empty maps to at least `n` elements. */
  function Pad(items: seq<Value>, n: nat): (r: seq<Value>)
    ensures |r| == if |items| < n then n else |items|
    ensures forall i :: 0 <= i < |r| ==> r[i] == if i < |items| then items[i] else EMPTY
  {
    if |items| < n then items + seq(n - |items|, _ => EMPTY) else items
  }

  /** The list stored under `key`; anything else counts as the empty list. */
  function Slots(m: Entries, key: string): seq<Value> {
    if key in m && m[key].List? then m[key].items else []
  }

  /** What the segment names in `m`, if it names anything. */
  function Lookup(m: Entries, part: KeyPart): Option<Value> {
    match part
    case Field(key) => if key in m then Some(m[key]) else None
    case Element(key, index) =>
      if index < |Slots(m, key)| then Some(Slots(m, key)[index]) else None
  }

  /** `m` with `x` stored at the segment. */
  function Store(m: Entries, part: KeyPart, x: Value): Entries {
    match part
    case Field(key) => m[key := x]
    case Element(key, index) => m[key := List(Pad(Slots(m, key), index + 1)[index := x])]
  }

  /** The map below the segment; a missing or non-map value counts as the empty map. */
  function Child(m: Entries, part: KeyPart): Entries {
    match Lookup(m, part)
    case Some(Map(entries)) => entries
    case _ => map[]
  }

  /** The segment asks for a list where something else is stored. */
  predicate Blocked(m: Entries, part: KeyPart) {
    part.Element? && part.key in m && !m[part.key].List?
  }

  /** The two segments name different places of one map. */
  predicate Apart(p: KeyPart, q: KeyPart) {
    p.key != q.key || (p.Element? && q.Element? && p.index != q.index)
  }

  lemma StoreLookup(m: Entries, p: KeyPart, x: Value)
    ensures Lookup(Store(m, p, x), p) == Some(x)
    ensures !Blocked(Store(m, p, x), p)
  {
  }

  lemma StoreStore(m: Entries, p: KeyPart, x: Value, y: Value)
    ensures Store(Store(m, p, x), p, y) == Store(m, p, y)
  {
    if p.Element? {
      var slots := Pad(Slots(m, p.key), p.index + 1);
      assert Pad(slots[p.index := x], p.index + 1) == slots[p.index := x];
      assert slots[p.index := x][p.index := y] == slots[p.index := y];
    }
  }

  lemma PadsCommute(s: seq<Value>, i: nat, x: Value, j: nat, y: Value)
    requires i != j
    ensures Pad(Pad(s, i + 1)[i := x], j + 1)[j := y] == Pad(Pad(s, j + 1)[j := y], i + 1)[i := x]
  {
  }

  /** Stores at different places commute, padding included. */
  lemma StoresCommute(m: Entries, p: KeyPart, x: Value, q: KeyPart, y: Value)
    requires Apart(p, q)
    ensures Store(Store(m, p, x), q, y) == Store(Store(m, q, y), p, x)
  {
    if p.key == q.key {
      PadsCommute(Slots(m, p.key), p.index, x, q.index, y);
    }
  }

  /** A store at `p` does not show at a place apart from it. */
  lemma StoreFrame(m: Entries, p: KeyPart, x: Value, q: KeyPart)
    requires Apart(p, q)
    ensures Lookup(m, q).Some? ==> Lookup(Store(m, p, x), q) == Lookup(m, q)
    ensures Child(Store(m, p, x), q) == Child(m, q)
    ensures !Blocked(m, q) ==> !Blocked(Store(m, p, x), q)
  {
  }

  // ---------------------------------------------------------------------------
  // Whole paths
  // ---------------------------------------------------------------------------

  /** The effect of one dynamic value on the map the cursor is in. */
  function Write(m: Entries, path: Path, v: Value): Entries
    decreases |path|
  {
    if path == [] then m
    else if |path| == 1 then Store(m, path[0], v)
    else if Blocked(m, path[0]) then Write(m, path[1..], v)
    else Store(m, path[0], Map(Write(Child(m, path[0]), path[1..], v)))
  }

  /** The value a reader finds by following the path from `v`. */
  function Follow(v: Value, path: Path): Option<Value>
    decreases |path|
  {
    if path == [] then Some(v)
    else if !v.Map? then None
    else match Lookup(v.entries, path[0])
         case None => None
         case Some(x) => Follow(x, path[1..])
  }

  function Read(m: Entries, path: Path): Option<Value> {
    Follow(Map(m), path)
  }

  /** Some non-final list segment of the path meets a non-list value. */
  predicate Conflict(m: Entries, path: Path)
    decreases |path|
  {
    |path| > 1 && (Blocked(m, path[0]) || Conflict(Child(m, path[0]), path[1..]))
  }

  /** The path that is really written: the segments that are not skipped. */
  function Effective(m: Entries, path: Path): Path
    decreases |path|
  {
    if |path| <= 1 then path
    else if Blocked(m, path[0]) then Effective(m, path[1..])
    else [path[0]] + Effective(Child(m, path[0]), path[1..])
  }

  /** The paths part company at a map: another key, or another index of the same list. */
  predicate Diverge(p: Path, q: Path)
    decreases |p|
  {
    p != [] && q != [] &&
    (Apart(p[0], q[0]) || (p[0] == q[0] && Diverge(p[1..], q[1..])))
  }

  // --- Skipped segments

  lemma {:induction false} EffectiveIsConflictFree(m: Entries, path: Path)
    ensures !Conflict(m, Effective(m, path))
    ensures path != [] ==> Effective(m, path) != []
    ensures |Effective(m, path)| <= |path|
    ensures Effective(m, path) == path <==> !Conflict(m, path)
    ensures Effective(m, path) != path ==> |Effective(m, path)| < |path|
    decreases |path|
  {
    if |path| > 1 {
      if Blocked(m, path[0]) {
        EffectiveIsConflictFree(m, path[1..]);
      } else {
        var tail := Effective(Child(m, path[0]), path[1..]);
        EffectiveIsConflictFree(Child(m, path[0]), path[1..]);
        assert Effective(m, path)[1..] == tail;
        assert path == [path[0]] + path[1..];
      }
    }
  }

  /** Every write is a conflict-free write at its effective path. */
  lemma {:induction false} WriteIsEffectiveWrite(m: Entries, path: Path, v: Value)
    ensures Write(m, path, v) == Write(m, Effective(m, path), v)
    decreases |path|
  {
    if |path| > 1 {
      if Blocked(m, path[0]) {
        WriteIsEffectiveWrite(m, path[1..], v);
      } else {
        var tail := Effective(Child(m, path[0]), path[1..]);
        WriteIsEffectiveWrite(Child(m, path[0]), path[1..], v);
        EffectiveIsConflictFree(Child(m, path[0]), path[1..]);
        assert Effective(m, path)[1..] == tail;
      }
    }
  }

  // --- Read-back

  lemma {:induction false} ConflictFreeReadBack(m: Entries, path: Path, v: Value)
    requires path != [] && !Conflict(m, path)
    ensures Read(Write(m, path, v), path) == Some(v)
    decreases |path|
  {
    if |path| == 1 {
      StoreLookup(m, path[0], v);
      assert Follow(v, path[1..]) == Some(v);
    } else {
      var below := Write(Child(m, path[0]), path[1..], v);
      ConflictFreeReadBack(Child(m, path[0]), path[1..], v);
      StoreLookup(m, path[0], Map(below));
    }
  }

  /** What a reader finds below `v` is a proper part of `v`. */
  lemma {:induction false} BelowIsSmaller(v: Value, path: Path)
    requires path != [] && Follow(v, path).Some?
    ensures Follow(v, path).value < v
    decreases |path|
  {
    var x := Lookup(v.entries, path[0]).value;
    assert x < v by {
      assert v.entries[path[0].key] < v;
    }
    if |path| > 1 {
      BelowIsSmaller(x, path[1..]);
    }
  }

  /** The list made for a final segment with index `j`. */
  function FreshList(j: nat, v: Value): seq<Value> {
    Pad([], j + 1)[j := v]
  }

  /** A write from a map in which `key` holds a non-list leaves there a non-list, the written
      value itself, or a fresh list whose only written element is the value. */
  lemma {:induction false} WriteOverNonList(m: Entries, key: string, path: Path, v: Value)
    requires path != [] && key in m && !m[key].List?
    ensures var w := Write(m, path, v);
            key in w &&
            (!w[key].List? || w[key] == v ||
             exists j: nat :: w[key] == List(FreshList(j, v)))
    decreases |path|
  {
    if |path| == 1 {
      if path[0].Element? && path[0].key == key {
        assert Slots(m, key) == [];
        assert Write(m, path, v)[key] == List(FreshList(path[0].index, v));
      }
    } else if Blocked(m, path[0]) {
      WriteOverNonList(m, key, path[1..], v);
    }
  }

  /** The skipped segment is never there to be read back. */
  lemma {:induction false} ConflictLosesValue(m: Entries, path: Path, v: Value)
    requires Conflict(m, path)
    ensures Read(Write(m, path, v), path) != Some(v)
    decreases |path|
  {
    var w, head, tail := Write(m, path, v), path[0], path[1..];
    if Blocked(m, head) {
      WriteOverNonList(m, head.key, tail, v);
      if w[head.key] == v {
        if Read(w, path).Some? {
          assert v.items[head.index] < v;
          BelowIsSmaller(v.items[head.index], tail);
        }
      } else if w[head.key].List? && head.index < |w[head.key].items| {
        var x := w[head.key].items[head.index];
        var j: nat :| w[head.key] == List(FreshList(j, v));
        assert x == v || x == EMPTY;
        if Follow(x, tail).Some? {
          BelowIsSmaller(x, tail);
        }
      }
    } else {
      ConflictLosesValue(Child(m, head), tail, v);
      StoreLookup(m, head, Map(Write(Child(m, head), tail, v)));
    }
  }

  /** Reading a path just written gives the value back exactly when no list segment met a
      non-list value; the effective path always gives it back. */
  lemma ReadBack(m: Entries, path: Path, v: Value)
    requires path != []
    ensures Read(Write(m, path, v), path) == Some(v) <==> !Conflict(m, path)
    ensures Read(Write(m, path, v), Effective(m, path)) == Some(v)
  {
    if Conflict(m, path) {
      ConflictLosesValue(m, path, v);
    } else {
      ConflictFreeReadBack(m, path, v);
    }
    EffectiveIsConflictFree(m, path);
    WriteIsEffectiveWrite(m, path, v);
    ConflictFreeReadBack(m, Effective(m, path), v);
  }

  // --- Frame

  lemma {:induction false} ConflictFreeFrame(m: Entries, path: Path, v: Value, other: Path)
    requires !Conflict(m, path) && Diverge(path, other)
    requires Read(m, other).Some?
    ensures Read(Write(m, path, v), other) == Read(m, other)
    decreases |path|
  {
    var x := if |path| == 1 then v else Map(Write(Child(m, path[0]), path[1..], v));
    assert Write(m, path, v) == Store(m, path[0], x);
    if Apart(path[0], other[0]) {
      StoreFrame(m, path[0], x, other[0]);
    } else {
      assert |path| > 1 && |other| > 1;
      StoreLookup(m, path[0], x);
      var y := Lookup(m, other[0]).value;
      assert Follow(y, other[1..]).Some? && other[1..] != [];
      assert y == Map(Child(m, path[0]));
      ConflictFreeFrame(Child(m, path[0]), path[1..], v, other[1..]);
    }
  }

  /** A write leaves every readable path alone that parts from the effective path. */
  lemma WriteFrame(m: Entries, path: Path, v: Value, other: Path)
    requires Diverge(Effective(m, path), other)
    requires Read(m, other).Some?
    ensures Read(Write(m, path, v), other) == Read(m, other)
  {
    EffectiveIsConflictFree(m, path);
    WriteIsEffectiveWrite(m, path, v);
    ConflictFreeFrame(m, Effective(m, path), v, other);
  }

  // --- Order of writes

  lemma {:induction false} DivergeIsSymmetric(p: Path, q: Path)
    requires Diverge(p, q)
    ensures Diverge(q, p)
    decreases |p|
  {
    if !Apart(p[0], q[0]) {
      DivergeIsSymmetric(p[1..], q[1..]);
    }
  }

  /** A write does not bring a conflict to a path that diverges from it. */
  lemma {:induction false} WriteKeepsConflictFree(m: Entries, p: Path, v: Value, q: Path)
    requires Diverge(p, q) && !Conflict(m, p) && !Conflict(m, q)
    ensures !Conflict(Write(m, p, v), q)
    decreases |p|
  {
    var x := if |p| == 1 then v else Map(Write(Child(m, p[0]), p[1..], v));
    assert Write(m, p, v) == Store(m, p[0], x);
    if Apart(p[0], q[0]) {
      StoreFrame(m, p[0], x, q[0]);
    } else {
      assert |p| > 1 && |q| > 1;
      StoreLookup(m, p[0], x);
      WriteKeepsConflictFree(Child(m, p[0]), p[1..], v, q[1..]);
    }
  }

  /** Conflict-free writes at diverging paths commute: the trees are equal, padding included. */
  lemma {:induction false} WritesCommute(m: Entries, p: Path, v: Value, q: Path, w: Value)
    requires Diverge(p, q) && !Conflict(m, p) && !Conflict(m, q)
    ensures Write(Write(m, p, v), q, w) == Write(Write(m, q, w), p, v)
    decreases |p|
  {
    var c := Child(m, p[0]);
    WriteKeepsConflictFree(m, p, v, q);
    DivergeIsSymmetric(p, q);
    WriteKeepsConflictFree(m, q, w, p);
    if Apart(p[0], q[0]) {
      var x := if |p| == 1 then v else Map(Write(Child(m, p[0]), p[1..], v));
      var y := if |q| == 1 then w else Map(Write(Child(m, q[0]), q[1..], w));
      StoreFrame(m, p[0], x, q[0]);
      StoreFrame(m, q[0], y, p[0]);
      StoresCommute(m, p[0], x, q[0], y);
    } else {
      var x, y := Map(Write(c, p[1..], v)), Map(Write(c, q[1..], w));
      StoreLookup(m, p[0], x);
      StoreLookup(m, p[0], y);
      StoreStore(m, p[0], x, Map(Write(x.entries, q[1..], w)));
      StoreStore(m, p[0], y, Map(Write(y.entries, p[1..], v)));
      WritesCommute(c, p[1..], v, q[1..], w);
    }
  }

  /** With a conflict the order can matter: `a` holds a scalar, and the writes are at
      `a[1]` and `a[0].b`. */
  lemma ConflictBreaksCommutation()
    ensures exists m: Entries, p: Path, q: Path, v: Value, w: Value ::
              Diverge(p, q) && !Conflict(m, p) && Conflict(m, q) &&
              Write(Write(m, p, v), q, w) != Write(Write(m, q, w), p, v)
  {
    var v := Scalar("v");
    var m: Entries := map["a" := v];
    var p: Path := [Element("a", 1)];
    var q: Path := [Element("a", 0), Field("b")];
    assert q[1..] == [Field("b")];
    var first := Write(m, p, v);
    assert first["a"] == List([EMPTY, v]);
    assert Write(first, q, v).Keys == {"a"};
    assert "b" in Write(m, q, v);
    assert "b" in Write(Write(m, q, v), p, v);
    assert Diverge(p, q) && !Conflict(m, p) && Conflict(m, q);
  }

  // ---------------------------------------------------------------------------
  // The list of dynamic values
  // ---------------------------------------------------------------------------

  datatype Item = Item(path: Path, value: Value)

  /** The dynamic values applied in list order. */
  function WriteAll(m: Entries, items: seq<Item>): Entries
    decreases |items|
  {
    if items == [] then m
    else WriteAll(Write(m, items[0].path, items[0].value), items[1..])
  }

  ghost predicate PairwiseDiverging(items: seq<Item>) {
    forall i, j :: 0 <= i < |items| && 0 <= j < |items| && i != j ==> Diverge(items[i].path, items[j].path)
  }

  ghost predicate ConflictFree(m: Entries, items: seq<Item>) {
    forall i :: 0 <= i < |items| ==> !Conflict(m, items[i].path)
  }

  lemma {:induction false} WriteAllSnoc(m: Entries, items: seq<Item>, x: Item)
    ensures WriteAll(m, items + [x]) == Write(WriteAll(m, items), x.path, x.value)
    decreases |items|
  {
    if items == [] {
      assert (items + [x])[1..] == [];
    } else {
      assert (items + [x])[1..] == items[1..] + [x];
      WriteAllSnoc(Write(m, items[0].path, items[0].value), items[1..], x);
    }
  }

  /** The items without the `k`-th. */
  function Without(items: seq<Item>, k: nat): seq<Item>
    requires k < |items|
  {
    items[..k] + items[k + 1..]
  }

  /** Taking one item out and writing it leaves the others diverging and conflict-free. */
  lemma OthersStayConflictFree(m: Entries, items: seq<Item>, k: nat)
    requires k < |items| && PairwiseDiverging(items) && ConflictFree(m, items)
    ensures PairwiseDiverging(Without(items, k))
    ensures ConflictFree(Write(m, items[k].path, items[k].value), Without(items, k))
    ensures forall i :: 0 <= i < |Without(items, k)| ==> Diverge(Without(items, k)[i].path, items[k].path)
  {
    var x, others := items[k], Without(items, k);
    forall i | 0 <= i < |others|
      ensures Diverge(others[i].path, x.path)
      ensures !Conflict(Write(m, x.path, x.value), others[i].path)
    {
      var j := if i < k then i else i + 1;
      assert others[i] == items[j];
      WriteKeepsConflictFree(m, x.path, x.value, items[j].path);
    }
    forall i, j | 0 <= i < |others| && 0 <= j < |others| && i != j
      ensures Diverge(others[i].path, others[j].path)
    {
      assert others[i] == items[if i < k then i else i + 1];
      assert others[j] == items[if j < k then j else j + 1];
    }
  }

  lemma RestStaysConflictFree(m: Entries, items: seq<Item>)
    requires items != [] && PairwiseDiverging(items) && ConflictFree(m, items)
    ensures PairwiseDiverging(items[1..]) && ConflictFree(Write(m, items[0].path, items[0].value), items[1..])
  {
    OthersStayConflictFree(m, items, 0);
    assert Without(items, 0) == items[1..];
  }

  lemma WithoutLater(items: seq<Item>, k: nat)
    requires 0 < k < |items|
    ensures Without(items, k)[0] == items[0] && Without(items, k)[1..] == Without(items[1..], k - 1)
  {
  }

  /** Any item may be written first. */
  lemma {:induction false} WriteFirst(m: Entries, items: seq<Item>, k: nat)
    requires k < |items| && PairwiseDiverging(items) && ConflictFree(m, items)
    ensures WriteAll(m, items)
         == WriteAll(Write(m, items[k].path, items[k].value), Without(items, k))
    decreases k
  {
    if k == 0 {
      assert Without(items, 0) == items[1..];
    } else {
      var a, x, rest := items[0], items[k], items[1..];
      var m1 := Write(m, a.path, a.value);
      RestStaysConflictFree(m, items);
      WriteFirst(m1, rest, k - 1);
      WritesCommute(m, a.path, a.value, x.path, x.value);
      WithoutLater(items, k);
    }
  }

  lemma WithoutMultiset(items: seq<Item>, shuffled: seq<Item>, k: nat)
    requires k < |items| && shuffled != [] && shuffled[0] == items[k]
    requires multiset(items) == multiset(shuffled)
    ensures multiset(Without(items, k)) == multiset(shuffled[1..])
  {
    var x := items[k];
    assert multiset(items) == multiset(Without(items, k)) + multiset{x} by {
      assert items == items[..k] + [x] + items[k + 1..];
    }
    assert multiset(shuffled) == multiset(shuffled[1..]) + multiset{x} by {
      assert shuffled == [x] + shuffled[1..];
    }
    assert multiset(Without(items, k)) == multiset(items) - multiset{x};
  }

  /** The result of pairwise diverging, conflict-free items does not depend on their order. */
  lemma {:induction false} OrderIndependence(m: Entries, items: seq<Item>, shuffled: seq<Item>)
    requires multiset(items) == multiset(shuffled)
    requires PairwiseDiverging(items) && ConflictFree(m, items)
    ensures WriteAll(m, items) == WriteAll(m, shuffled)
    decreases |items|
  {
    if shuffled == [] {
      assert |multiset(items)| == 0;
    } else {
      var x := shuffled[0];
      assert x in multiset(items);
      var k :| 0 <= k < |items| && items[k] == x;
      WriteFirst(m, items, k);
      OthersStayConflictFree(m, items, k);
      WithoutMultiset(items, shuffled, k);
      OrderIndependence(Write(m, x.path, x.value), Without(items, k), shuffled[1..]);
    }
  }

  /** After all of them, every item can be read back. */
  lemma AllReadBack(m: Entries, items: seq<Item>, k: nat)
    requires k < |items| && PairwiseDiverging(items) && ConflictFree(m, items)
    requires items[k].path != []
    ensures Read(WriteAll(m, items), items[k].path) == Some(items[k].value)
  {
    var x := items[k];
    WriteFirst(m, items, k);
    ReadBack(m, x.path, x.value);
    OthersStayConflictFree(m, items, k);
    AllFrame(Write(m, x.path, x.value), Without(items, k), x.path);
  }

  /** A readable path diverging from all the items keeps its value. */
  lemma {:induction false} AllFrame(m: Entries, items: seq<Item>, path: Path)
    requires PairwiseDiverging(items) && ConflictFree(m, items)
    requires forall i :: 0 <= i < |items| ==> Diverge(items[i].path, path)
    requires Read(m, path).Some?
    ensures Read(WriteAll(m, items), path) == Read(m, path)
    decreases |items|
  {
    if items != [] {
      ConflictFreeFrame(m, items[0].path, items[0].value, path);
      RestStaysConflictFree(m, items);
      AllFrame(Write(m, items[0].path, items[0].value), items[1..], path);
    }
  }

  // --- Padding and replacement

  /** A write to a list element leaves the elements there were, puts empty maps in between, and
      nothing beyond; what was no list counts as empty. */
  lemma ElementsAfterWrite(m: Entries, key: string, index: nat, v: Value, j: nat)
    ensures var before, after := Read(m, [Element(key, j)]), Read(Write(m, [Element(key, index)], v), [Element(key, j)]);
      after == if j == index then Some(v) else if before.Some? then before else if j < index then Some(Map(map[])) else None
  {
    var w := Write(m, [Element(key, index)], v);
    ReadOne(m, Element(key, j));
    ReadOne(w, Element(key, j));
  }

  lemma ReadOne(m: Entries, part: KeyPart)
    ensures Read(m, [part]) == Lookup(m, part)
  {
    assert [part][1..] == [];
    assert forall x :: Follow(x, []) == Some(x);
  }

  /** A write below a key whose value is no map leaves there a map with nothing else in it. */
  lemma ReplacedByMap(m: Entries, key: string, below: string, v: Value)
    requires key !in m || !m[key].Map?
    ensures Write(m, [Field(key), Field(below)], v) == m[key := Map(map[below := v])]
  {
    var path := [Field(key), Field(below)];
    assert path[1..] == [Field(below)];
  }
}
