/** The in-place form of the path writer: maps are objects, the cursor `cur` walks down from
    the root, and every change is an update of the map the cursor is in.  The loop is proved
    to leave in the heap exactly the tree that `HelmValues.Write` computes. */
module HelmHeap {
  import opened HelmKeys
  import opened HelmValues
  import opened Wrappers

  /** A stored value; a nested map is a reference to another object. */
  datatype Cell =
    | Text(text: string)
    | Array(cells: seq<Cell>)
    | Object(node: MapNode)

  class MapNode {
    var entries: map<string, Cell>

    constructor ()
      ensures entries == map[]
    {
      entries := map[];
    }
  }

  /** A place inside a tree, one step per key or list index. */
  datatype Step = Key(key: string) | Index(index: nat)
  type Position = seq<Step>

  type Heap = map<MapNode, map<string, Cell>>
  type Layout = map<MapNode, Position>

  ghost function Snapshot(nodes: set<MapNode>): Heap
    reads nodes
  {
    map n | n in nodes :: n.entries
  }

  /** `c` represents `v` and sits at `pos`.  As every object has one place in the layout, no
      object is reachable twice. */
  ghost predicate At(h: Heap, loc: Layout, c: Cell, v: Value, pos: Position)
    decreases v
  {
    match v
    case Scalar(s) => c == Text(s)
    case List(items) =>
      c.Array? && |c.cells| == |items| &&
      forall i :: 0 <= i < |items| ==> At(h, loc, c.cells[i], items[i], pos + [Index(i)])
    case Map(entries) =>
      c.Object? && c.node in h && c.node in loc && loc[c.node] == pos &&
      h[c.node].Keys == entries.Keys &&
      forall k :: k in entries ==> At(h, loc, h[c.node][k], entries[k], pos + [Key(k)])
  }

  /** The same objects, unchanged at and below `pos`. */
  ghost predicate SameBelow(h: Heap, loc: Layout, h': Heap, loc': Layout, pos: Position) {
    forall n :: n in h && n in loc && pos <= loc[n] ==>
      n in h' && h'[n] == h[n] && n in loc' && loc'[n] == loc[n]
  }

  lemma {:induction false} AtFrame(h: Heap, loc: Layout, h': Heap, loc': Layout, c: Cell, v: Value, pos: Position)
    requires At(h, loc, c, v, pos) && SameBelow(h, loc, h', loc', pos)
    ensures At(h', loc', c, v, pos)
    decreases v
  {
    match v
    case Scalar(_) =>
    case List(items) =>
      forall i | 0 <= i < |items| ensures At(h', loc', c.cells[i], items[i], pos + [Index(i)]) {
        AtFrame(h, loc, h', loc', c.cells[i], items[i], pos + [Index(i)]);
      }
    case Map(entries) =>
      forall k | k in entries ensures At(h', loc', h[c.node][k], entries[k], pos + [Key(k)]) {
        AtFrame(h, loc, h', loc', h[c.node][k], entries[k], pos + [Key(k)]);
      }
  }

  // ---------------------------------------------------------------------------
  // Positions in trees and in the heap
  // ---------------------------------------------------------------------------

  ghost predicate HasStep(v: Value, s: Step) {
    match s
    case Key(k) => v.Map? && k in v.entries
    case Index(i) => v.List? && i < |v.items|
  }

  ghost function ValueAt(v: Value, s: Step): Value
    requires HasStep(v, s)
  {
    match s
    case Key(k) => v.entries[k]
    case Index(i) => v.items[i]
  }

  ghost function WithValueAt(v: Value, s: Step, x: Value): Value
    requires HasStep(v, s)
  {
    match s
    case Key(k) => Map(v.entries[k := x])
    case Index(i) => List(v.items[i := x])
  }

  ghost predicate HasPosition(v: Value, pos: Position)
    decreases |pos|
  {
    pos == [] || (HasStep(v, pos[0]) && HasPosition(ValueAt(v, pos[0]), pos[1..]))
  }

  ghost function Get(v: Value, pos: Position): Value
    requires HasPosition(v, pos)
    decreases |pos|
  {
    if pos == [] then v else Get(ValueAt(v, pos[0]), pos[1..])
  }

  ghost function Set(v: Value, pos: Position, x: Value): Value
    requires HasPosition(v, pos)
    decreases |pos|
  {
    if pos == [] then x else WithValueAt(v, pos[0], Set(ValueAt(v, pos[0]), pos[1..], x))
  }

  /** The cell reached from `c` by following references. */
  ghost function CellAt(h: Heap, c: Cell, pos: Position): Option<Cell>
    decreases |pos|
  {
    if pos == [] then Some(c)
    else match pos[0]
         case Key(k) =>
           if c.Object? && c.node in h && k in h[c.node] then CellAt(h, h[c.node][k], pos[1..]) else None
         case Index(i) =>
           if c.Array? && i < |c.cells| then CellAt(h, c.cells[i], pos[1..]) else None
  }

  /** The steps a path segment takes. */
  ghost function StepsOf(part: KeyPart): Position {
    match part
    case Field(key) => [Key(key)]
    case Element(key, index) => [Key(key), Index(index)]
  }

  lemma {:induction false} SetSplits(v: Value, pos: Position, tail: Position, x: Value)
    requires HasPosition(v, pos) && HasPosition(Get(v, pos), tail)
    ensures HasPosition(v, pos + tail)
    ensures Get(v, pos + tail) == Get(Get(v, pos), tail)
    ensures Set(v, pos + tail, x) == Set(v, pos, Set(Get(v, pos), tail, x))
    decreases |pos|
  {
    if pos == [] {
      assert pos + tail == tail;
    } else {
      assert (pos + tail)[1..] == pos[1..] + tail;
      SetSplits(ValueAt(v, pos[0]), pos[1..], tail, x);
    }
  }

  lemma {:induction false} SetTwice(v: Value, pos: Position, x: Value, y: Value)
    requires HasPosition(v, pos)
    ensures HasPosition(Set(v, pos, x), pos) && Get(Set(v, pos, x), pos) == x
    ensures Set(Set(v, pos, x), pos, y) == Set(v, pos, y)
    decreases |pos|
  {
    if pos != [] {
      SetTwice(ValueAt(v, pos[0]), pos[1..], x, y);
    }
  }

  lemma SetSteps(m: Entries, part: KeyPart, x: Value)
    requires Lookup(m, part).Some?
    ensures HasPosition(Map(m), StepsOf(part))
    ensures Get(Map(m), StepsOf(part)) == Lookup(m, part).value
    ensures Set(Map(m), StepsOf(part), x) == Map(Store(m, part, x))
  {
    var list := m[part.key];
    if part.Element? {
      assert Set(list, [Index(part.index)], x) == List(list.items[part.index := x]) by {
        assert [Index(part.index)][1..] == [];
      }
      assert Get(list, [Index(part.index)]) == list.items[part.index];
      assert StepsOf(part)[1..] == [Index(part.index)];
    } else {
      assert StepsOf(part)[1..] == [];
    }
  }

  lemma {:induction false} CellAtSplits(h: Heap, c: Cell, pos: Position, tail: Position)
    requires CellAt(h, c, pos).Some?
    ensures CellAt(h, c, pos + tail) == CellAt(h, CellAt(h, c, pos).value, tail)
    decreases |pos|
  {
    if pos == [] {
      assert pos + tail == tail;
    } else {
      assert (pos + tail)[1..] == pos[1..] + tail;
      match pos[0]
      case Key(k) => CellAtSplits(h, h[c.node][k], pos[1..], tail);
      case Index(i) => CellAtSplits(h, c.cells[i], pos[1..], tail);
    }
  }

  /** Changing one object, and adding new ones, changes the tree at that object's place only. */
  lemma {:induction false} UpdateInPlace(h: Heap, loc: Layout, h': Heap, loc': Layout,
                                         c: Cell, v: Value, base: Position, pos: Position, cur: MapNode, x: Value)
    requires At(h, loc, c, v, base)
    requires CellAt(h, c, pos) == Some(Object(cur)) && HasPosition(v, pos)
    requires cur in loc && loc[cur] == base + pos
    requires forall n :: n in h && n != cur ==> n in h' && h'[n] == h[n]
    requires forall n :: n in loc ==> n in loc' && loc'[n] == loc[n]
    requires At(h', loc', Object(cur), x, base + pos)
    ensures At(h', loc', c, Set(v, pos, x), base)
    ensures CellAt(h', c, pos) == Some(Object(cur))
    decreases |pos|
  {
    if pos == [] {
      assert base + pos == base;
    } else {
      var s := pos[0];
      assert base + pos == (base + [s]) + pos[1..];
      match s
      case Key(k) =>
        UpdateInPlace(h, loc, h', loc', h[c.node][k], v.entries[k], base + [s], pos[1..], cur, x);
        forall k' | k' in v.entries && k' != k
          ensures At(h', loc', h[c.node][k'], v.entries[k'], base + [Key(k')])
        {
          assert SameBelow(h, loc, h', loc', base + [Key(k')]) by {
            assert (base + [Key(k')])[|base|] != loc[cur][|base|];
          }
          AtFrame(h, loc, h', loc', h[c.node][k'], v.entries[k'], base + [Key(k')]);
        }
      case Index(i) =>
        UpdateInPlace(h, loc, h', loc', c.cells[i], v.items[i], base + [s], pos[1..], cur, x);
        forall j | 0 <= j < |v.items| && j != i
          ensures At(h', loc', c.cells[j], v.items[j], base + [Index(j)])
        {
          assert SameBelow(h, loc, h', loc', base + [Index(j)]) by {
            assert (base + [Index(j)])[|base|] != loc[cur][|base|];
          }
          AtFrame(h, loc, h', loc', c.cells[j], v.items[j], base + [Index(j)]);
        }
    }
  }

  // ---------------------------------------------------------------------------
  // The writer
  // ---------------------------------------------------------------------------

  /** The layout of a value that has its own, moved to `pos`. */
  ghost function MovedTo(at: Layout, pos: Position): Layout {
    map n | n in at :: pos + at[n]
  }

  /** A value put at `pos` represents there what it represented on its own. */
  lemma {:induction false} Relocate(h: Heap, at: Layout, h': Heap, loc': Layout, c: Cell, v: Value, q: Position, pos: Position)
    requires At(h, at, c, v, q)
    requires forall n :: n in h && n in at ==> n in h' && h'[n] == h[n] && n in loc' && loc'[n] == pos + at[n]
    ensures At(h', loc', c, v, pos + q)
    decreases v
  {
    match v
    case Scalar(_) =>
    case List(items) =>
      forall i | 0 <= i < |items| ensures At(h', loc', c.cells[i], items[i], pos + q + [Index(i)]) {
        assert pos + q + [Index(i)] == pos + (q + [Index(i)]);
        Relocate(h, at, h', loc', c.cells[i], items[i], q + [Index(i)], pos);
      }
    case Map(entries) =>
      forall k | k in entries ensures At(h', loc', h[c.node][k], entries[k], pos + q + [Key(k)]) {
        assert pos + q + [Key(k)] == pos + (q + [Key(k)]);
        Relocate(h, at, h', loc', h[c.node][k], entries[k], q + [Key(k)], pos);
      }
  }

  /** The cell represents `v` by itself, with the objects of `at`, none of which is in the tree. */
  ghost predicate StandsAlone(h: Heap, loc: Layout, at: Layout, c: Cell, v: Value) {
    At(h, at, c, v, []) && at.Keys !! loc.Keys
  }

  /** The state of one writing run: `root` holds `tree`, and `cur` is inside it at `pos`,
      holding `focus`. */
  ghost predicate Focused(h: Heap, loc: Layout, root: MapNode, tree: Entries,
                          cur: MapNode, focus: Entries, pos: Position)
  {
    && At(h, loc, Object(root), Map(tree), [])
    && CellAt(h, Object(root), pos) == Some(Object(cur))
    && HasPosition(Map(tree), pos) && Get(Map(tree), pos) == Map(focus)
    && At(h, loc, Object(cur), Map(focus), pos)
  }

  /** Storing `cell` under `key` in the map at the cursor. */
  lemma StoreKey(h: Heap, loc: Layout, h': Heap, loc': Layout,
                 cur: MapNode, focus: Entries, pos: Position, key: string, cell: Cell, x: Value)
    requires At(h, loc, Object(cur), Map(focus), pos)
    requires cur in h' && h'[cur] == h[cur][key := cell]
    requires forall n :: n in h && n != cur ==> n in h' && h'[n] == h[n]
    requires forall n :: n in loc ==> n in loc' && loc'[n] == loc[n]
    requires At(h', loc', cell, x, pos + [Key(key)])
    ensures At(h', loc', Object(cur), Map(focus[key := x]), pos)
  {
    forall k | k in focus && k != key ensures At(h', loc', h[cur][k], focus[k], pos + [Key(k)]) {
      AtFrame(h, loc, h', loc', h[cur][k], focus[k], pos + [Key(k)]);
    }
  }

  /** The list stored under `key`; anything else counts as the empty list. */
  function CellsOf(entries: map<string, Cell>, key: string): seq<Cell> {
    if key in entries && entries[key].Array? then entries[key].cells else []
  }

  /** `padded` is `cells` extended to length `n` by the objects of `place`. */
  ghost predicate IsPadding(cells: seq<Cell>, n: nat, padded: seq<Cell>, place: map<MapNode, nat>) {
    && |padded| == (if |cells| < n then n else |cells|)
    && cells <= padded
    && forall i :: |cells| <= i < |padded| ==>
         padded[i].Object? && padded[i].node in place && place[padded[i].node] == i
  }

  /** The objects of `place` are empty maps laid out in the list at `pos`. */
  ghost predicate NewMaps(h: Heap, loc: Layout, place: map<MapNode, nat>, pos: Position) {
    forall m :: m in place ==> m in h && h[m] == map[] && m in loc && loc[m] == pos + [Index(place[m])]
  }

  /** The list with empty maps appended up to length `n`; `place` tells where each new map is. */
  method PadCells(cells: seq<Cell>, n: nat) returns (r: seq<Cell>, ghost place: map<MapNode, nat>)
    ensures IsPadding(cells, n, r, place)
    ensures forall m :: m in place ==> fresh(m) && m.entries == map[]
  {
    r, place := cells, map[];
    while |r| < n
      invariant |r| <= n || r == cells
      invariant IsPadding(cells, |r|, r, place)
      invariant forall m :: m in place ==> fresh(m) && m.entries == map[]
    {
      var m := new MapNode();
      place := place[m := |r|];
      r := r + [Object(m)];
    }
  }

  /** Heap and layout grow only by new objects, and only `cur` may have changed. */
  ghost predicate OnlyChanged(h: Heap, loc: Layout, h': Heap, loc': Layout, cur: MapNode) {
    && (forall n :: n in h && n != cur ==> n in h' && h'[n] == h[n])
    && (forall n :: n in loc ==> n in loc' && loc'[n] == loc[n])
  }

  /** Storing a cell at the cursor is a store in the whole tree. */
  lemma StoreInTree(h: Heap, loc: Layout, h': Heap, loc': Layout, root: MapNode, tree: Entries,
                    cur: MapNode, focus: Entries, pos: Position, key: string, cell: Cell, x: Value)
    requires Focused(h, loc, root, tree, cur, focus, pos) && OnlyChanged(h, loc, h', loc', cur)
    requires cur in h' && h'[cur] == h[cur][key := cell]
    requires At(h', loc', cell, x, pos + [Key(key)])
    ensures At(h', loc', Object(root), Set(Map(tree), pos, Map(focus[key := x])), [])
    ensures CellAt(h', Object(root), pos) == Some(Object(cur))
    ensures At(h', loc', Object(cur), Map(focus[key := x]), pos)
  {
    StoreKey(h, loc, h', loc', cur, focus, pos, key, cell, x);
    assert [] + pos == pos;
    UpdateInPlace(h, loc, h', loc', Object(root), Map(tree), [], pos, cur, Map(focus[key := x]));
  }

  /** A padded list with one element replaced represents the padded list of values. */
  lemma PaddedList(h: Heap, loc: Layout, h': Heap, loc': Layout, cur: MapNode, focus: Entries, pos: Position,
                   part: KeyPart, cells: seq<Cell>, place: map<MapNode, nat>, cell: Cell, x: Value)
    requires part.Element? && OnlyChanged(h, loc, h', loc', cur)
    requires At(h, loc, Object(cur), Map(focus), pos)
    requires IsPadding(CellsOf(h[cur], part.key), part.index + 1, cells, place)
    requires NewMaps(h', loc', place, pos + [Key(part.key)])
    requires At(h', loc', cell, x, pos + [Key(part.key)] + [Index(part.index)])
    ensures At(h', loc', Array(cells[part.index := cell]),
               List(Pad(Slots(focus, part.key), part.index + 1)[part.index := x]), pos + [Key(part.key)])
  {
    var stored := CellsOf(h[cur], part.key);
    var items := Slots(focus, part.key);
    var p := pos + [Key(part.key)];
    assert |stored| == |items|;
    var values := Pad(items, part.index + 1);
    forall i | 0 <= i < |values| && i != part.index
      ensures At(h', loc', cells[i], values[i], p + [Index(i)])
    {
      if i < |items| {
        AtFrame(h, loc, h', loc', cells[i], items[i], p + [Index(i)]);
      }
    }
  }

  /** The layout with the new maps of a padded list at `pos`. */
  ghost function LayOut(loc: Layout, place: map<MapNode, nat>, pos: Position): Layout {
    loc + map m | m in place :: pos + [Index(place[m])]
  }

  lemma LaidOut(h: Heap, loc: Layout, place: map<MapNode, nat>, pos: Position)
    requires place.Keys !! loc.Keys && forall m :: m in place ==> m in h && h[m] == map[]
    ensures NewMaps(h, LayOut(loc, place, pos), place, pos) && LayOut(loc, place, pos).Keys == loc.Keys + place.Keys
    ensures forall n :: n in loc ==> LayOut(loc, place, pos)[n] == loc[n]
  {
  }

  /** The heap with a list stored at the cursor and its new maps added. */
  ghost function WithList(h: Heap, cur: MapNode, key: string, cells: seq<Cell>, place: map<MapNode, nat>): Heap
    requires cur in h
  {
    h[cur := h[cur][key := Array(cells)]] + map m | m in place :: map[]
  }

  /** What such a heap and a layout with a payload moved in look like. */
  lemma ListLaidOut(h: Heap, loc: Layout, cur: MapNode, key: string, cells: seq<Cell>, place: map<MapNode, nat>,
                    at: Layout, p: Position, pos: Position)
    requires cur in h && at.Keys !! loc.Keys && place.Keys !! h.Keys && place.Keys !! loc.Keys + at.Keys
    ensures var h' := WithList(h, cur, key, cells, place);
            var loc' := LayOut(loc + MovedTo(at, pos), place, p);
            && OnlyChanged(h, loc, h', loc', cur) && NewMaps(h', loc', place, p)
            && cur in h' && h'[cur] == h[cur][key := Array(cells)]
            && forall n :: n in at ==> n in loc' && loc'[n] == pos + at[n]
  {
    LaidOut(WithList(h, cur, key, cells, place), loc + MovedTo(at, pos), place, p);
  }

  /** Stores a list, some of whose maps are new, in the map the cursor is in. */
  method StoreList(cur: MapNode, key: string, cells: seq<Cell>, ghost nodes: set<MapNode>, ghost place: map<MapNode, nat>)
    requires cur in nodes && place.Keys !! nodes && forall m :: m in place ==> m.entries == map[]
    modifies cur
    ensures Snapshot(nodes + place.Keys) == WithList(old(Snapshot(nodes)), cur, key, cells, place)
  {
    cur.entries := cur.entries[key := Array(cells)];
  }

  /** Storing a padded list with one element replaced is a `Store` in the whole tree. */
  lemma StoreElementInTree(h: Heap, loc: Layout, h': Heap, loc': Layout, root: MapNode, tree: Entries,
                           cur: MapNode, focus: Entries, pos: Position, part: KeyPart,
                           cells: seq<Cell>, place: map<MapNode, nat>, cell: Cell, x: Value)
    requires Focused(h, loc, root, tree, cur, focus, pos) && OnlyChanged(h, loc, h', loc', cur)
    requires part.Element? && IsPadding(CellsOf(h[cur], part.key), part.index + 1, cells, place)
    requires NewMaps(h', loc', place, pos + [Key(part.key)])
    requires cur in h' && h'[cur] == h[cur][part.key := Array(cells[part.index := cell])]
    requires At(h', loc', cell, x, pos + [Key(part.key)] + [Index(part.index)])
    ensures At(h', loc', Object(root), Set(Map(tree), pos, Map(Store(focus, part, x))), [])
    ensures CellAt(h', Object(root), pos) == Some(Object(cur))
    ensures At(h', loc', Object(cur), Map(Store(focus, part, x)), pos)
  {
    PaddedList(h, loc, h', loc', cur, focus, pos, part, cells, place, cell, x);
    StoreInTree(h, loc, h', loc', root, tree, cur, focus, pos, part.key,
                Array(cells[part.index := cell]), Store(focus, part, x)[part.key]);
  }

  /** The payload is in its place in the new heap. */
  lemma PayloadArrives(h: Heap, loc: Layout, h': Heap, loc': Layout, cur: MapNode, at: Layout, payload: Cell, v: Value, pos: Position)
    requires StandsAlone(h, loc, at, payload, v) && cur in loc
    requires forall n :: n in h && n != cur ==> n in h' && h'[n] == h[n]
    requires forall n :: n in at ==> n in loc' && loc'[n] == pos + at[n]
    ensures At(h', loc', payload, v, pos)
  {
    assert pos + [] == pos;
    Relocate(h, at, h', loc', payload, v, [], pos);
  }

  lemma PayloadElementInTree(h: Heap, loc: Layout, h': Heap, loc': Layout, root: MapNode, tree: Entries,
                             cur: MapNode, focus: Entries, pos: Position, part: KeyPart,
                             cells: seq<Cell>, place: map<MapNode, nat>, at: Layout, payload: Cell, v: Value)
    requires Focused(h, loc, root, tree, cur, focus, pos) && OnlyChanged(h, loc, h', loc', cur)
    requires StandsAlone(h, loc, at, payload, v)
    requires part.Element? && IsPadding(CellsOf(h[cur], part.key), part.index + 1, cells, place)
    requires NewMaps(h', loc', place, pos + [Key(part.key)])
    requires forall n :: n in at ==> n in loc' && loc'[n] == pos + [Key(part.key)] + [Index(part.index)] + at[n]
    requires cur in h' && h'[cur] == h[cur][part.key := Array(cells[part.index := payload])]
    ensures At(h', loc', Object(root), Set(Map(tree), pos, Map(Store(focus, part, v))), [])
  {
    PayloadArrives(h, loc, h', loc', cur, at, payload, v, pos + [Key(part.key)] + [Index(part.index)]);
    StoreElementInTree(h, loc, h', loc', root, tree, cur, focus, pos, part, cells, place, payload, v);
  }

  /** The same, with heap and layout written out. */
  lemma AssignedList(h: Heap, loc: Layout, root: MapNode, tree: Entries, cur: MapNode, focus: Entries, pos: Position,
                     part: KeyPart, cells: seq<Cell>, place: map<MapNode, nat>, at: Layout, payload: Cell, v: Value)
    requires Focused(h, loc, root, tree, cur, focus, pos) && StandsAlone(h, loc, at, payload, v)
    requires place.Keys !! h.Keys && place.Keys !! loc.Keys + at.Keys
    requires part.Element? && IsPadding(CellsOf(h[cur], part.key), part.index + 1, cells, place)
    ensures var p := pos + [Key(part.key)];
            var h' := WithList(h, cur, part.key, cells[part.index := payload], place);
            var loc' := LayOut(loc + MovedTo(at, p + [Index(part.index)]), place, p);
            At(h', loc', Object(root), Set(Map(tree), pos, Map(Store(focus, part, v))), [])
  {
    var p := pos + [Key(part.key)];
    var h' := WithList(h, cur, part.key, cells[part.index := payload], place);
    var moved := loc + MovedTo(at, p + [Index(part.index)]);
    ListLaidOut(h, loc, cur, part.key, cells[part.index := payload], place, at, p, p + [Index(part.index)]);
    PayloadElementInTree(h, loc, h', LayOut(moved, place, p), root, tree, cur, focus, pos, part, cells, place, at, payload, v);
  }

  lemma PayloadFieldInTree(h: Heap, loc: Layout, h': Heap, loc': Layout, root: MapNode, tree: Entries,
                           cur: MapNode, focus: Entries, pos: Position, key: string, at: Layout, payload: Cell, v: Value)
    requires Focused(h, loc, root, tree, cur, focus, pos) && OnlyChanged(h, loc, h', loc', cur)
    requires StandsAlone(h, loc, at, payload, v)
    requires forall n :: n in at ==> n in loc' && loc'[n] == pos + [Key(key)] + at[n]
    requires cur in h' && h'[cur] == h[cur][key := payload]
    ensures At(h', loc', Object(root), Set(Map(tree), pos, Map(Store(focus, Field(key), v))), [])
  {
    PayloadArrives(h, loc, h', loc', cur, at, payload, v, pos + [Key(key)]);
    StoreInTree(h, loc, h', loc', root, tree, cur, focus, pos, key, payload, v);
  }

  /** The final segment: the payload goes into the map the cursor is in. */
  method Assign(cur: MapNode, part: KeyPart, payload: Cell, ghost nodes: set<MapNode>, ghost loc: Layout,
                ghost root: MapNode, ghost tree: Entries, ghost focus: Entries, ghost pos: Position,
                ghost at: Layout, ghost v: Value)
    returns (ghost nodes': set<MapNode>, ghost loc': Layout)
    requires cur in nodes && loc.Keys <= nodes && at.Keys <= nodes
    requires Focused(Snapshot(nodes), loc, root, tree, cur, focus, pos) && StandsAlone(Snapshot(nodes), loc, at, payload, v)
    modifies cur
    ensures nodes <= nodes' && fresh(nodes' - nodes)
    ensures loc'.Keys <= nodes' && loc'.Keys <= loc.Keys + at.Keys + (nodes' - nodes)
    ensures At(Snapshot(nodes'), loc', Object(root), Set(Map(tree), pos, Map(Store(focus, part, v))), [])
  {
    match part
    case Field(key) =>
      ghost var h := Snapshot(nodes);
      nodes', loc' := nodes, loc + MovedTo(at, pos + [Key(key)]);
      cur.entries := cur.entries[key := payload];
      PayloadFieldInTree(h, loc, Snapshot(nodes'), loc', root, tree, cur, focus, pos, key, at, payload, v);
    case Element(_, _) =>
      nodes', loc' := AssignElement(cur, part, payload, nodes, loc, root, tree, focus, pos, at, v);
  }

  /** The final segment when it is an element. */
  method AssignElement(cur: MapNode, part: KeyPart, payload: Cell, ghost nodes: set<MapNode>, ghost loc: Layout,
                       ghost root: MapNode, ghost tree: Entries, ghost focus: Entries, ghost pos: Position,
                       ghost at: Layout, ghost v: Value)
    returns (ghost nodes': set<MapNode>, ghost loc': Layout)
    requires cur in nodes && loc.Keys <= nodes && at.Keys <= nodes && part.Element?
    requires Focused(Snapshot(nodes), loc, root, tree, cur, focus, pos) && StandsAlone(Snapshot(nodes), loc, at, payload, v)
    modifies cur
    ensures nodes <= nodes' && fresh(nodes' - nodes)
    ensures loc'.Keys <= nodes' && loc'.Keys <= loc.Keys + at.Keys + (nodes' - nodes)
    ensures At(Snapshot(nodes'), loc', Object(root), Set(Map(tree), pos, Map(Store(focus, part, v))), [])
  {
    ghost var h := Snapshot(nodes);
    var cells, place := PadCells(CellsOf(cur.entries, part.key), part.index + 1);
    StoreList(cur, part.key, cells[part.index := payload], nodes, place);
    ghost var p := pos + [Key(part.key)];
    nodes', loc' := nodes + place.Keys, LayOut(loc + MovedTo(at, p + [Index(part.index)]), place, p);
    AssignedList(h, loc, root, tree, cur, focus, pos, part, cells, place, at, payload, v);
  }

  /** The tree once the map below the segment is there. */
  ghost function Opened(tree: Entries, focus: Entries, pos: Position, part: KeyPart): Value
    requires HasPosition(Map(tree), pos)
  {
    Set(Map(tree), pos, Map(Store(focus, part, Map(Child(focus, part)))))
  }

  /** Moving the cursor from a map to the map below the segment. */
  lemma MoveFocus(h: Heap, loc: Layout, root: MapNode, tree: Entries, tree': Entries,
                  cur: MapNode, focus: Entries, pos: Position, part: KeyPart, next: MapNode)
    requires HasPosition(Map(tree), pos) && Map(tree') == Opened(tree, focus, pos, part)
    requires At(h, loc, Object(root), Map(tree'), []) && CellAt(h, Object(root), pos) == Some(Object(cur))
    requires At(h, loc, Object(cur), Map(Store(focus, part, Map(Child(focus, part)))), pos)
    requires CellAt(h, Object(cur), StepsOf(part)) == Some(Object(next))
    requires At(h, loc, Object(next), Map(Child(focus, part)), pos + StepsOf(part))
    ensures Focused(h, loc, root, tree', next, Child(focus, part), pos + StepsOf(part))
  {
    var below := Map(Child(focus, part));
    var grown := Store(focus, part, below);
    SetTwice(Map(tree), pos, Map(grown), below);
    StoreLookup(focus, part, below);
    SetSteps(grown, part, below);
    SetSplits(Map(tree'), pos, StepsOf(part), below);
    CellAtSplits(h, Object(root), pos, StepsOf(part));
  }

  /** What one non-final segment leaves behind. */
  ghost predicate Descended(h: Heap, loc: Layout, root: MapNode, tree: Entries, tree': Entries,
                            focus: Entries, pos: Position, part: KeyPart, next: MapNode)
    requires HasPosition(Map(tree), pos)
  {
    && Map(tree') == Opened(tree, focus, pos, part)
    && Focused(h, loc, root, tree', next, Child(focus, part), pos + StepsOf(part))
  }

  lemma {:induction false} SetSame(v: Value, pos: Position)
    requires HasPosition(v, pos)
    ensures Set(v, pos, Get(v, pos)) == v
    decreases |pos|
  {
    if pos != [] {
      SetSame(ValueAt(v, pos[0]), pos[1..]);
    }
  }

  /** A new map stored under `key`, where no map was. */
  lemma NewFieldDescended(h: Heap, loc: Layout, h': Heap, loc': Layout, root: MapNode, tree: Entries,
                          cur: MapNode, focus: Entries, pos: Position, key: string, next: MapNode)
    requires Focused(h, loc, root, tree, cur, focus, pos) && OnlyChanged(h, loc, h', loc', cur)
    requires key !in h[cur] || !h[cur][key].Object?
    requires cur in h' && h'[cur] == h[cur][key := Object(next)]
    requires next in h' && h'[next] == map[] && next in loc' && loc'[next] == pos + [Key(key)]
    ensures Descended(h', loc', root, tree, Opened(tree, focus, pos, Field(key)).entries, focus, pos, Field(key), next)
  {
    var part := Field(key);
    if key in focus {
      assert At(h, loc, h[cur][key], focus[key], pos + [Key(key)]);
    }
    StoreInTree(h, loc, h', loc', root, tree, cur, focus, pos, key, Object(next), EMPTY);
    assert StepsOf(part)[1..] == [];
    MoveFocus(h', loc', root, tree, Opened(tree, focus, pos, part).entries, cur, focus, pos, part, next);
  }

  /** The map already stored under `key`. */
  lemma OldFieldDescended(h: Heap, loc: Layout, root: MapNode, tree: Entries,
                          cur: MapNode, focus: Entries, pos: Position, key: string)
    requires Focused(h, loc, root, tree, cur, focus, pos)
    requires key in h[cur] && h[cur][key].Object?
    ensures Descended(h, loc, root, tree, tree, focus, pos, Field(key), h[cur][key].node)
    ensures h[cur][key].node in loc
  {
    var part := Field(key);
    assert At(h, loc, h[cur][key], focus[key], pos + [Key(key)]);
    assert focus[key := Map(Child(focus, part))] == focus;
    SetSame(Map(tree), pos);
    assert StepsOf(part)[1..] == [];
    MoveFocus(h, loc, root, tree, tree, cur, focus, pos, part, h[cur][key].node);
  }

  /** A non-final `key` segment. */
  method DescendField(cur: MapNode, key: string, ghost nodes: set<MapNode>, ghost loc: Layout,
                      ghost root: MapNode, ghost tree: Entries, ghost focus: Entries, ghost pos: Position)
    returns (next: MapNode, ghost nodes': set<MapNode>, ghost loc': Layout, ghost tree': Entries)
    requires cur in nodes && loc.Keys <= nodes
    requires Focused(Snapshot(nodes), loc, root, tree, cur, focus, pos)
    modifies cur
    ensures nodes <= nodes' && fresh(nodes' - nodes) && loc'.Keys <= nodes' && next in nodes'
    ensures loc'.Keys <= loc.Keys + (nodes' - nodes)
    ensures Descended(Snapshot(nodes'), loc', root, tree, tree', focus, pos, Field(key), next)
  {
    ghost var h := Snapshot(nodes);
    if key !in cur.entries || !cur.entries[key].Object? {
      next := new MapNode();
      cur.entries := cur.entries[key := Object(next)];
      nodes', loc' := nodes + {next}, loc[next := pos + [Key(key)]];
      tree' := Opened(tree, focus, pos, Field(key)).entries;
      NewFieldDescended(h, loc, Snapshot(nodes'), loc', root, tree, cur, focus, pos, key, next);
    } else {
      next := cur.entries[key].node;
      nodes', loc', tree' := nodes, loc, tree;
      OldFieldDescended(h, loc, root, tree, cur, focus, pos, key);
    }
  }

  /** The object at the chosen index holds the map below the segment. */
  lemma ChosenChild(h: Heap, loc: Layout, h': Heap, loc': Layout, cur: MapNode, focus: Entries, pos: Position,
                    part: KeyPart, cells: seq<Cell>, place: map<MapNode, nat>, next: MapNode)
    requires part.Element? && OnlyChanged(h, loc, h', loc', cur)
    requires At(h, loc, Object(cur), Map(focus), pos)
    requires IsPadding(CellsOf(h[cur], part.key), part.index + 1, cells, place)
    requires NewMaps(h', loc', place, pos + [Key(part.key)])
    requires if cells[part.index].Object? then next == cells[part.index].node
             else next in place && place[next] == part.index
    ensures At(h', loc', Object(next), Map(Child(focus, part)), pos + [Key(part.key)] + [Index(part.index)])
  {
    var stored, p := CellsOf(h[cur], part.key), pos + [Key(part.key)];
    if part.index < |stored| {
      assert At(h, loc, h[cur][part.key], focus[part.key], p);
      assert At(h, loc, stored[part.index], focus[part.key].items[part.index], p + [Index(part.index)]);
      if cells[part.index].Object? {
        AtFrame(h, loc, h', loc', Object(next), Map(Child(focus, part)), p + [Index(part.index)]);
      }
    } else {
      assert |Slots(focus, part.key)| == |stored| by {
        if part.key in focus {
          assert At(h, loc, h[cur][part.key], focus[part.key], p);
        }
      }
    }
  }

  lemma ElementCell(h: Heap, cur: MapNode, part: KeyPart, cells: seq<Cell>)
    requires part.Element? && part.index < |cells|
    requires cur in h && part.key in h[cur] && h[cur][part.key] == Array(cells)
    ensures CellAt(h, Object(cur), StepsOf(part)) == Some(cells[part.index])
  {
    var last := [Index(part.index)];
    assert StepsOf(part)[1..] == last && last[1..] == [];
    assert CellAt(h, Array(cells), last) == Some(cells[part.index]);
  }

  /** A padded list stored under the key, with a map at the index. */
  lemma ElementDescended(h: Heap, loc: Layout, h': Heap, loc': Layout, root: MapNode, tree: Entries,
                         cur: MapNode, focus: Entries, pos: Position, part: KeyPart,
                         cells: seq<Cell>, place: map<MapNode, nat>, next: MapNode)
    requires Focused(h, loc, root, tree, cur, focus, pos) && OnlyChanged(h, loc, h', loc', cur)
    requires part.Element? && IsPadding(CellsOf(h[cur], part.key), part.index + 1, cells, place)
    requires NewMaps(h', loc', place, pos + [Key(part.key)])
    requires if cells[part.index].Object? then next == cells[part.index].node
             else next in place && place[next] == part.index
    requires cur in h' && h'[cur] == h[cur][part.key := Array(cells[part.index := Object(next)])]
    ensures Descended(h', loc', root, tree, Opened(tree, focus, pos, part).entries, focus, pos, part, next)
    ensures next in loc'
  {
    assert pos + StepsOf(part) == pos + [Key(part.key)] + [Index(part.index)];
    ChosenChild(h, loc, h', loc', cur, focus, pos, part, cells, place, next);
    StoreElementInTree(h, loc, h', loc', root, tree, cur, focus, pos, part, cells, place,
                       Object(next), Map(Child(focus, part)));
    ElementCell(h', cur, part, cells[part.index := Object(next)]);
    MoveFocus(h', loc', root, tree, Opened(tree, focus, pos, part).entries, cur, focus, pos, part, next);
  }

  /** The list padded up to `index`, and the map found or made for that index. */
  method OpenCells(cells: seq<Cell>, index: nat)
    returns (padded: seq<Cell>, next: MapNode, ghost place: map<MapNode, nat>)
    ensures IsPadding(cells, index + 1, padded, place)
    ensures if padded[index].Object? then next == padded[index].node
            else next in place && place[next] == index
    ensures forall m :: m in place ==> fresh(m) && m.entries == map[]
  {
    padded, place := PadCells(cells, index + 1);
    if padded[index].Object? {
      next := padded[index].node;
    } else {
      next := new MapNode();
      place := place[next := index];
    }
  }

  /** The same, with heap and layout written out. */
  lemma OpenedList(h: Heap, loc: Layout, root: MapNode, tree: Entries, cur: MapNode, focus: Entries, pos: Position,
                   part: KeyPart, cells: seq<Cell>, place: map<MapNode, nat>, next: MapNode)
    requires Focused(h, loc, root, tree, cur, focus, pos) && place.Keys !! h.Keys && place.Keys !! loc.Keys
    requires part.Element? && IsPadding(CellsOf(h[cur], part.key), part.index + 1, cells, place)
    requires if cells[part.index].Object? then next == cells[part.index].node
             else next in place && place[next] == part.index
    ensures var h' := WithList(h, cur, part.key, cells[part.index := Object(next)], place);
            var loc' := LayOut(loc, place, pos + [Key(part.key)]);
            Descended(h', loc', root, tree, Opened(tree, focus, pos, part).entries, focus, pos, part, next) && next in loc'
  {
    var p := pos + [Key(part.key)];
    var h' := WithList(h, cur, part.key, cells[part.index := Object(next)], place);
    LaidOut(h', loc, place, p);
    ElementDescended(h, loc, h', LayOut(loc, place, p), root, tree, cur, focus, pos, part, cells, place, next);
  }

  /** A non-final `key[index]` segment that is not blocked. */
  method DescendElement(cur: MapNode, key: string, index: nat, ghost nodes: set<MapNode>, ghost loc: Layout,
                        ghost root: MapNode, ghost tree: Entries, ghost focus: Entries, ghost pos: Position)
    returns (next: MapNode, ghost nodes': set<MapNode>, ghost loc': Layout, ghost tree': Entries)
    requires cur in nodes && loc.Keys <= nodes
    requires Focused(Snapshot(nodes), loc, root, tree, cur, focus, pos)
    modifies cur
    ensures nodes <= nodes' && fresh(nodes' - nodes) && loc'.Keys <= nodes' && next in nodes'
    ensures loc'.Keys <= loc.Keys + (nodes' - nodes)
    ensures Descended(Snapshot(nodes'), loc', root, tree, tree', focus, pos, Element(key, index), next)
  {
    ghost var h := Snapshot(nodes);
    tree' := Opened(tree, focus, pos, Element(key, index)).entries;
    var cells;
    ghost var place;
    cells, next, place := OpenCells(CellsOf(cur.entries, key), index);
    StoreList(cur, key, cells[index := Object(next)], nodes, place);
    nodes', loc' := nodes + place.Keys, LayOut(loc, place, pos + [Key(key)]);
    OpenedList(h, loc, root, tree, cur, focus, pos, Element(key, index), cells, place, next);
  }

  /** The outcome of the whole write, seen from a cursor that still has `rest` to go. */
  ghost function Pending(tree: Entries, focus: Entries, pos: Position, rest: Path, v: Value): Value
    requires HasPosition(Map(tree), pos)
  {
    Set(Map(tree), pos, Map(Write(focus, rest, v)))
  }

  /** Opening the map below a segment does not change the outcome. */
  lemma DescendKeepsOutcome(tree: Entries, tree': Entries, focus: Entries, pos: Position, rest: Path, v: Value)
    requires HasPosition(Map(tree), pos) && |rest| > 1 && !Blocked(focus, rest[0])
    requires Map(tree') == Opened(tree, focus, pos, rest[0])
    requires HasPosition(Map(tree'), pos + StepsOf(rest[0]))
    ensures Pending(tree', Child(focus, rest[0]), pos + StepsOf(rest[0]), rest[1..], v)
         == Pending(tree, focus, pos, rest, v)
  {
    var part, below := rest[0], Map(Child(focus, rest[0]));
    var grown := Store(focus, part, below);
    var x := Map(Write(Child(focus, part), rest[1..], v));
    StoreLookup(focus, part, below);
    SetSteps(grown, part, x);
    SetTwice(Map(tree), pos, Map(grown), Map(Store(grown, part, x)));
    SetSplits(Map(tree'), pos, StepsOf(part), x);
    StoreStore(focus, part, below, x);
  }

  lemma BlockedInHeap(h: Heap, loc: Layout, cur: MapNode, focus: Entries, pos: Position, part: KeyPart)
    requires At(h, loc, Object(cur), Map(focus), pos) && part.Element?
    ensures Blocked(focus, part) <==> part.key in h[cur] && !h[cur][part.key].Array?
  {
    if part.key in focus {
      assert At(h, loc, h[cur][part.key], focus[part.key], pos + [Key(part.key)]);
    }
  }

  /** A cursor with `rest` still to go, on the way to the outcome `goal`. */
  ghost predicate OnTheWay(h: Heap, loc: Layout, root: MapNode, t: Entries, cur: MapNode, focus: Entries,
                           pos: Position, rest: Path, v: Value, goal: Entries)
  {
    && Focused(h, loc, root, t, cur, focus, pos)
    && Pending(t, focus, pos, rest, v) == Map(goal)
  }

  /** One non-final segment: the cursor moves down, or stays when a list segment meets a
      non-list value. */
  method Descend(cur: MapNode, k: KeyPart, ghost nodes: set<MapNode>, ghost loc: Layout, ghost root: MapNode,
                 ghost t: Entries, ghost focus: Entries, ghost pos: Position, ghost rest: Path, ghost v: Value,
                 ghost goal: Entries)
    returns (next: MapNode, ghost nodes': set<MapNode>, ghost loc': Layout,
             ghost t': Entries, ghost focus': Entries, ghost pos': Position)
    requires cur in nodes && loc.Keys <= nodes && |rest| > 1 && rest[0] == k
    requires OnTheWay(Snapshot(nodes), loc, root, t, cur, focus, pos, rest, v, goal)
    modifies cur
    ensures nodes <= nodes' && fresh(nodes' - nodes) && loc'.Keys <= nodes' && next in nodes'
    ensures loc'.Keys <= loc.Keys + (nodes' - nodes)
    ensures OnTheWay(Snapshot(nodes'), loc', root, t', next, focus', pos', rest[1..], v, goal)
  {
    focus', pos' := Child(focus, k), pos + StepsOf(k);
    match k
    case Element(key, index) =>
      BlockedInHeap(Snapshot(nodes), loc, cur, focus, pos, k);
      if key !in cur.entries || cur.entries[key].Array? {
        next, nodes', loc', t' := DescendElement(cur, key, index, nodes, loc, root, t, focus, pos);
        DescendKeepsOutcome(t, t', focus, pos, rest, v);
      } else {
        next, nodes', loc', t', focus', pos' := cur, nodes, loc, t, focus, pos;
      }
    case Field(key) =>
      next, nodes', loc', t' := DescendField(cur, key, nodes, loc, root, t, focus, pos);
      DescendKeepsOutcome(t, t', focus, pos, rest, v);
  }

  /** The non-final segments: the cursor walks down from the root, one segment at a time. */
  method Walk(root: MapNode, keys: Path, ghost nodes: set<MapNode>, ghost loc: Layout, ghost tree: Entries, ghost v: Value)
    returns (cur: MapNode, ghost nodes': set<MapNode>, ghost loc': Layout, ghost t: Entries, ghost focus: Entries,
             ghost pos: Position)
    requires root in nodes && loc.Keys <= nodes && keys != []
    requires At(Snapshot(nodes), loc, Object(root), Map(tree), [])
    modifies loc.Keys
    ensures nodes <= nodes' && fresh(nodes' - nodes) && cur in nodes' && cur in loc'
    ensures loc'.Keys <= nodes' && loc'.Keys <= loc.Keys + (nodes' - nodes)
    ensures OnTheWay(Snapshot(nodes'), loc', root, t, cur, focus, pos, [keys[|keys| - 1]], v, Write(tree, keys, v))
  {
    nodes', loc', cur := nodes, loc, root;
    t, focus, pos := tree, tree, [];
    ghost var goal := Write(tree, keys, v);
    assert keys[0..] == keys;
    var last := |keys| - 1;
    for i := 0 to last
      invariant nodes <= nodes' && fresh(nodes' - nodes) && cur in nodes'
      invariant loc'.Keys <= nodes' && loc'.Keys <= loc.Keys + (nodes' - nodes)
      invariant OnTheWay(Snapshot(nodes'), loc', root, t, cur, focus, pos, keys[i..], v, goal)
    {
      assert keys[i..][1..] == keys[i + 1..];
      cur, nodes', loc', t, focus, pos :=
        Descend(cur, keys[i], nodes', loc', root, t, focus, pos, keys[i..], v, goal);
    }
    assert keys[last..] == [keys[last]];
  }

  /** One dynamic value. */
  method WriteValue(root: MapNode, keys: Path, payload: Cell, ghost nodes: set<MapNode>, ghost loc: Layout,
                    ghost tree: Entries, ghost at: Layout, ghost v: Value)
    returns (ghost nodes': set<MapNode>, ghost loc': Layout)
    requires root in nodes && loc.Keys <= nodes && at.Keys <= nodes
    requires At(Snapshot(nodes), loc, Object(root), Map(tree), []) && StandsAlone(Snapshot(nodes), loc, at, payload, v)
    modifies loc.Keys
    ensures nodes <= nodes' && fresh(nodes' - nodes)
    ensures loc'.Keys <= nodes' && loc'.Keys <= loc.Keys + at.Keys + (nodes' - nodes)
    ensures At(Snapshot(nodes'), loc', Object(root), Map(Write(tree, keys, v)), [])
  {
    if keys == [] {
      return nodes, loc;
    }
    ghost var h := Snapshot(nodes);
    var cur;
    ghost var t, focus, pos;
    cur, nodes', loc', t, focus, pos := Walk(root, keys, nodes, loc, tree, v);
    StillStandsAlone(h, loc, Snapshot(nodes'), loc', at, payload, v);
    nodes', loc' := Assign(cur, keys[|keys| - 1], payload, nodes', loc', root, t, focus, pos, at, v);
  }

  /** A value outside the tree is not affected by changes inside it. */
  lemma StillStandsAlone(h: Heap, loc: Layout, h': Heap, loc': Layout, at: Layout, c: Cell, v: Value)
    requires StandsAlone(h, loc, at, c, v) && at.Keys !! loc'.Keys
    requires forall n :: n in h && n in at ==> n in h' && h'[n] == h[n]
    ensures StandsAlone(h', loc', at, c, v)
  {
    AtFrame(h, at, h', at, c, v, []);
  }

  /** A dynamic value as configured: the key in text form and the value to store. */
  datatype DynamicValue = DynamicValue(key: string, cell: Cell)

  /** The writes that the dynamic values, whose contents are `contents`, ask for. */
  ghost function ItemsOf(values: seq<DynamicValue>, contents: seq<Value>): (items: seq<Item>)
    requires |contents| == |values|
    ensures |items| == |values|
  {
    seq(|values|, i requires 0 <= i < |values| => Item(ParseKey(values[i].key), contents[i]))
  }

  lemma WriteAllNext(m: Entries, items: seq<Item>, i: nat)
    requires i < |items|
    ensures WriteAll(m, items[..i + 1]) == Write(WriteAll(m, items[..i]), items[i].path, items[i].value)
  {
    assert items[..i + 1] == items[..i] + [items[i]];
    WriteAllSnoc(m, items[..i], items[i]);
  }

  /** The values from the `i`-th on stand alone, and share no object. */
  ghost predicate Separate(h: Heap, loc: Layout, values: seq<DynamicValue>, contents: seq<Value>, ats: seq<Layout>, i: nat)
    requires |values| == |contents| == |ats|
  {
    && (forall j :: i <= j < |values| ==> StandsAlone(h, loc, ats[j], values[j].cell, contents[j]))
    && (forall j, k :: i <= j < k < |values| ==> ats[j].Keys !! ats[k].Keys)
  }

  lemma StaySeparate(h: Heap, loc: Layout, h': Heap, loc': Layout, values: seq<DynamicValue>, contents: seq<Value>,
                     ats: seq<Layout>, i: nat, added: set<MapNode>)
    requires |values| == |contents| == |ats| && i < |values| && Separate(h, loc, values, contents, ats, i)
    requires loc'.Keys <= loc.Keys + ats[i].Keys + added
    requires forall j :: 0 <= j < |ats| ==> ats[j].Keys !! added
    requires forall n :: n in h && n !in loc ==> n in h' && h'[n] == h[n]
    ensures Separate(h', loc', values, contents, ats, i + 1)
  {
    forall j | i + 1 <= j < |values| ensures StandsAlone(h', loc', ats[j], values[j].cell, contents[j]) {
      assert ats[i].Keys !! ats[j].Keys && StandsAlone(h, loc, ats[j], values[j].cell, contents[j]);
      StillStandsAlone(h, loc, h', loc', ats[j], values[j].cell, contents[j]);
    }
  }

  /** `GetValuesMap`: all the dynamic values, in order, on top of the values of the file.  The
      values may themselves hold maps, which become part of the tree. */
  method GetValuesMap(root: MapNode, values: seq<DynamicValue>, ghost contents: seq<Value>, ghost ats: seq<Layout>,
                      ghost nodes: set<MapNode>, ghost loc: Layout, ghost tree: Entries)
    returns (ghost nodes': set<MapNode>, ghost loc': Layout)
    requires root in nodes && loc.Keys <= nodes
    requires At(Snapshot(nodes), loc, Object(root), Map(tree), [])
    requires |values| == |contents| == |ats| && Separate(Snapshot(nodes), loc, values, contents, ats, 0)
    requires forall j :: 0 <= j < |ats| ==> ats[j].Keys <= nodes
    modifies nodes
    ensures nodes <= nodes' && fresh(nodes' - nodes)
    ensures At(Snapshot(nodes'), loc', Object(root), Map(WriteAll(tree, ItemsOf(values, contents))), [])
  {
    nodes', loc' := nodes, loc;
    ghost var items, t := ItemsOf(values, contents), tree;
    for i := 0 to |values|
      invariant nodes <= nodes' && fresh(nodes' - nodes) && loc'.Keys <= nodes'
      invariant t == WriteAll(tree, items[..i])
      invariant At(Snapshot(nodes'), loc', Object(root), Map(t), [])
      invariant Separate(Snapshot(nodes'), loc', values, contents, ats, i)
    {
      var keys := ParseHelmKey(values[i].key);
      ghost var h, before, known := Snapshot(nodes'), loc', nodes';
      nodes', loc' := WriteValue(root, keys, values[i].cell, nodes', loc', t, ats[i], contents[i]);
      StaySeparate(h, before, Snapshot(nodes'), loc', values, contents, ats, i, nodes' - known);
      WriteAllNext(tree, items, i);
      t := Write(t, keys, contents[i]);
    }
    assert items[..|values|] == items;
  }
}
