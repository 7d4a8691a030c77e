/** Exactly when two writes of the path writer can be swapped, whatever the values: conflicts and
    all. */
module HelmCommutation {
  import opened HelmValues
  import opened Wrappers

  /** A write that ends in `part` makes a list, or can make one, of what blocks a skipped segment
      of `path`.  `write` is the path really written. */
  predicate Unblocks(m: Entries, write: Path, path: Path)
    decreases |path|
  {
    |path| > 1 && write != [] &&
    if Blocked(m, path[0])
    then (|write| == 1 && write[0].key == path[0].key) || Unblocks(m, write, path[1..])
    else |write| > 1 && write[0] == path[0] && Unblocks(Child(m, path[0]), write[1..], path[1..])
  }

  // --- Swapping is possible

  /** What blocks a segment stays in place under a write that does not end there. */
  lemma StaysBlocked(m: Entries, write: Path, v: Value, part: KeyPart)
    requires write != [] && !Conflict(m, write) && Blocked(m, part)
    requires !(|write| == 1 && write[0].key == part.key)
    ensures Blocked(Write(m, write, v), part)
  {
  }

  /** A diverging write that unblocks nothing leaves the effective path alone. */
  lemma {:induction false} EffectiveStays(m: Entries, write: Path, v: Value, path: Path)
    requires !Conflict(m, write) && Diverge(write, Effective(m, path)) && !Unblocks(m, write, path)
    ensures Effective(Write(m, write, v), path) == Effective(m, path)
    decreases |path|
  {
    if |path| > 1 {
      var p, m' := path[0], Write(m, write, v);
      if Blocked(m, p) {
        StaysBlocked(m, write, v, p);
        EffectiveStays(m, write, v, path[1..]);
      } else {
        var tail := Effective(Child(m, p), path[1..]);
        assert Effective(m, path)[1..] == tail;
        if Apart(write[0], p) {
          StoreFrame(m, write[0], if |write| == 1 then v else Map(Write(Child(m, write[0]), write[1..], v)), p);
        } else {
          StoreLookup(m, p, Map(Write(Child(m, p), write[1..], v)));
          EffectiveStays(Child(m, p), write[1..], v, path[1..]);
        }
      }
    }
  }

  /** The condition: the paths really written diverge, and neither write unblocks the other. */
  predicate Independent(m: Entries, p: Path, q: Path) {
    Diverge(Effective(m, p), Effective(m, q)) && !Unblocks(m, Effective(m, p), q) && !Unblocks(m, Effective(m, q), p)
  }

  lemma IndependentWritesCommute(m: Entries, p: Path, v: Value, q: Path, w: Value)
    requires Independent(m, p, q)
    ensures Write(Write(m, p, v), q, w) == Write(Write(m, q, w), p, v)
  {
    var p1, q1 := Effective(m, p), Effective(m, q);
    EffectiveIsConflictFree(m, p);
    EffectiveIsConflictFree(m, q);
    WriteIsEffectiveWrite(m, p, v);
    WriteIsEffectiveWrite(m, q, w);
    DivergeIsSymmetric(p1, q1);
    EffectiveStays(m, p1, v, q);
    EffectiveStays(m, q1, w, p);
    WriteIsEffectiveWrite(Write(m, p, v), q, w);
    WriteIsEffectiveWrite(Write(m, q, w), p, v);
    WritesCommute(m, p1, v, q1, w);
  }

  // --- Swapping is impossible

  /** The texts of all scalars in the value. */
  function Texts(v: Value): set<string> {
    match v
    case Scalar(text) => {text}
    case List(items) => set i, t | 0 <= i < |items| && t in Texts(items[i]) :: t
    case Map(entries) => set k, t | k in entries && t in Texts(entries[k]) :: t
  }

  lemma {:induction false} FollowFindsTexts(v: Value, path: Path, text: string)
    requires Follow(v, path) == Some(Scalar(text))
    ensures text in Texts(v)
    decreases |path|
  {
    if path != [] {
      var x := Lookup(v.entries, path[0]).value;
      FollowFindsTexts(x, path[1..], text);
      if path[0].Element? {
        var list := v.entries[path[0].key];
        assert text in Texts(list.items[path[0].index]);
        assert text in Texts(list);
      }
      assert text in Texts(v.entries[path[0].key]);
    }
  }

  lemma {:induction false} LengthBound(texts: set<string>) returns (n: nat)
    ensures forall t :: t in texts ==> |t| <= n
    decreases |texts|
  {
    if texts == {} {
      n := 0;
    } else {
      var t :| t in texts;
      n := LengthBound(texts - {t});
      n := if |t| > n then |t| else n;
    }
  }

  /** Two different texts that no reader finds in the map. */
  lemma FreshTexts(m: Entries) returns (a: string, b: string)
    ensures a != b && a !in Texts(Map(m)) && b !in Texts(Map(m))
  {
    var n := LengthBound(Texts(Map(m)));
    a, b := seq(n + 1, _ => 'x'), seq(n + 2, _ => 'x');
    assert |a| == n + 1 && |b| == n + 2;
  }

  /** Values that hold no other value. */
  predicate IsLeaf(v: Value) {
    v.Scalar? || v == List([])
  }

  /** A scalar found elsewhere after a store is apart from it, and was there before. */
  lemma FoundElsewhere(m: Entries, p: KeyPart, x: Value, path: Path, text: string)
    requires path != [] && path[0] != p && (x.Map? || IsLeaf(x))
    requires Read(Store(m, p, x), path) == Some(Scalar(text))
    ensures Apart(path[0], p) && Read(m, path) == Some(Scalar(text))
  {
    var y := Lookup(Store(m, p, x), path[0]).value;
    assert Follow(y, path[1..]) == Some(Scalar(text));
    assert !y.List? && y != EMPTY by {
      NothingInEmpty(path[1..], text);
    }
  }

  lemma NothingInEmpty(path: Path, text: string)
    ensures Follow(EMPTY, path) != Some(Scalar(text))
  {
  }

  /** A scalar found after a write of a leaf was there before, or is what was written. */
  lemma {:induction false} WhereFrom(m: Entries, write: Path, v: Value, path: Path, text: string)
    requires write != [] && !Conflict(m, write) && IsLeaf(v)
    requires Read(Write(m, write, v), path) == Some(Scalar(text))
    ensures Read(m, path) == Some(Scalar(text)) || (path == write && v == Scalar(text))
    decreases |write|, 1
  {
    if path != [] {
      var p, child := write[0], Child(m, write[0]);
      var x := if |write| == 1 then v else Map(Write(child, write[1..], v));
      if path[0] != p {
        FoundElsewhere(m, p, x, path, text);
      } else {
        StoreLookup(m, p, x);
        assert Follow(x, path[1..]) == Some(Scalar(text));
        if |write| == 1 {
          assert path == [p] + path[1..];
        } else {
          WhereFromBelow(m, write, v, path, text);
        }
      }
    }
  }

  lemma {:induction false} WhereFromBelow(m: Entries, write: Path, v: Value, path: Path, text: string)
    requires |write| > 1 && !Conflict(m, write) && IsLeaf(v) && path != [] && path[0] == write[0]
    requires Read(Write(Child(m, write[0]), write[1..], v), path[1..]) == Some(Scalar(text))
    ensures Read(m, path) == Some(Scalar(text)) || (path == write && v == Scalar(text))
    decreases |write|, 0
  {
    var child := Child(m, write[0]);
    WhereFrom(child, write[1..], v, path[1..], text);
    if Read(child, path[1..]) == Some(Scalar(text)) {
      NothingInEmpty(path[1..], text);
    } else {
      assert path == [path[0]] + path[1..] && write == [write[0]] + write[1..];
    }
  }

  lemma {:induction false} NothingBlocksInEmpty(path: Path)
    ensures Effective(map[], path) == path
    decreases |path|
  {
    if |path| > 1 {
      NothingBlocksInEmpty(path[1..]);
      assert path == [path[0]] + path[1..];
    }
  }

  /** Writing an empty list where it unblocks a segment changes the effective path. */
  lemma {:induction false} UnblockingChangesPath(m: Entries, write: Path, path: Path)
    requires !Conflict(m, write) && Unblocks(m, write, path)
    ensures Effective(Write(m, write, List([])), path) != Effective(m, path)
    decreases |path|
  {
    var p, m' := path[0], Write(m, write, List([]));
    if Blocked(m, p) && |write| == 1 && write[0].key == p.key {
      assert !Blocked(m', p) && Child(m', p) == map[];
      NothingBlocksInEmpty(path[1..]);
      EffectiveIsConflictFree(m, path[1..]);
    } else if Blocked(m, p) {
      StaysBlocked(m, write, List([]), p);
      UnblockingChangesPath(m, write, path[1..]);
    } else {
      var child := Child(m, p);
      StoreLookup(m, p, Map(Write(child, write[1..], List([]))));
      UnblockingChangesPath(child, write[1..], path[1..]);
      var old', new' := Effective(child, path[1..]), Effective(Write(child, write[1..], List([])), path[1..]);
      assert Effective(m, path)[1..] == old' && Effective(m', path)[1..] == new';
    }
  }

  /** If the writes commute, `q` lands in the same place before and after the write at `p`. */
  lemma CommutingKeepsPath(m: Entries, p: Path, v: Value, q: Path, text: string)
    requires p != [] && q != [] && IsLeaf(v) && v != Scalar(text) && text !in Texts(Map(m))
    requires Write(Write(m, p, v), q, Scalar(text)) == Write(Write(m, q, Scalar(text)), p, v)
    ensures Effective(Write(m, p, v), q) == Effective(m, q)
  {
    var w := Scalar(text);
    var m1, m2 := Write(m, p, v), Write(m, q, w);
    var p2, q1, q2 := Effective(m2, p), Effective(m, q), Effective(m1, q);
    ReadBack(m1, q, w);
    EffectiveIsConflictFree(m2, p);
    WriteIsEffectiveWrite(m2, p, v);
    WhereFrom(m2, p2, v, q2, text);
    EffectiveIsConflictFree(m, q);
    WriteIsEffectiveWrite(m, q, w);
    WhereFrom(m, q1, w, q2, text);
    if Read(m, q2) == Some(w) {
      FollowFindsTexts(Map(m), q2, text);
    }
  }

  /** A scalar that survives the write of another one is at a diverging path. */
  lemma {:induction false} SurvivorDiverges(m: Entries, write: Path, w: Value, path: Path, text: string)
    requires write != [] && path != [] && !Conflict(m, write) && w.Scalar? && w != Scalar(text)
    requires Read(Write(m, write, w), path) == Some(Scalar(text))
    ensures Diverge(path, write)
    decreases |write|
  {
    var p, child := write[0], Child(m, write[0]);
    var x := if |write| == 1 then w else Map(Write(child, write[1..], w));
    if path[0] != p {
      FoundElsewhere(m, p, x, path, text);
    } else {
      StoreLookup(m, p, x);
      assert Follow(x, path[1..]) == Some(Scalar(text));
      if |write| > 1 {
        SurvivorDiverges(child, write[1..], w, path[1..], text);
      }
    }
  }

  ghost predicate Commute(m: Entries, p: Path, q: Path) {
    forall v, w :: Write(Write(m, p, v), q, w) == Write(Write(m, q, w), p, v)
  }

  lemma CommutingWritesDoNotUnblock(m: Entries, p: Path, q: Path)
    requires p != [] && q != [] && Commute(m, p, q)
    ensures !Unblocks(m, Effective(m, p), q)
  {
    var a, _ := FreshTexts(m);
    CommutingKeepsPath(m, p, List([]), q, a);
    WriteIsEffectiveWrite(m, p, List([]));
    EffectiveIsConflictFree(m, p);
    if Unblocks(m, Effective(m, p), q) {
      UnblockingChangesPath(m, Effective(m, p), q);
    }
  }

  lemma CommutingWritesDiverge(m: Entries, p: Path, q: Path)
    requires p != [] && q != [] && Commute(m, p, q)
    ensures Diverge(Effective(m, p), Effective(m, q))
  {
    var a, b := FreshTexts(m);
    var v, w := Scalar(a), Scalar(b);
    assert Write(Write(m, p, v), q, w) == Write(Write(m, q, w), p, v);
    CommutingKeepsPath(m, p, v, q, b);
    CommutingKeepsPath(m, q, w, p, a);
    var m1, m2, p1, q1 := Write(m, p, v), Write(m, q, w), Effective(m, p), Effective(m, q);
    ReadBack(m2, p, v);
    EffectiveIsConflictFree(m1, q);
    EffectiveIsConflictFree(m, p);
    WriteIsEffectiveWrite(m1, q, w);
    SurvivorDiverges(m1, q1, w, p1, a);
  }

  /** Two writes can be swapped for all values exactly if the paths really written diverge and
      neither write turns into a list what blocks a segment of the other path. */
  lemma CommuteExactly(m: Entries, p: Path, q: Path)
    requires p != [] && q != []
    ensures Commute(m, p, q) <==> Independent(m, p, q)
  {
    if Commute(m, p, q) {
      CommutingWritesDiverge(m, p, q);
      CommutingWritesDoNotUnblock(m, p, q);
      assert Commute(m, q, p);
      CommutingWritesDoNotUnblock(m, q, p);
    }
    if Independent(m, p, q) {
      forall v, w ensures Write(Write(m, p, v), q, w) == Write(Write(m, q, w), p, v) {
        IndependentWritesCommute(m, p, v, q, w);
      }
    }
  }

  // --- Any number of writes

  /** A write that is independent of both paths does not make one unblock the other. */
  lemma {:induction false} UnblocksNoMore(m: Entries, other: Path, v: Value, write: Path, path: Path)
    requires !Conflict(m, other) && Diverge(other, write) && Diverge(other, Effective(m, path))
    requires !Unblocks(m, other, path) && !Unblocks(m, write, path)
    ensures !Unblocks(Write(m, other, v), write, path)
    decreases |path|
  {
    if |path| > 1 {
      var p := path[0];
      if Blocked(m, p) {
        StaysBlocked(m, other, v, p);
        UnblocksNoMore(m, other, v, write, path[1..]);
      } else {
        assert Effective(m, path)[1..] == Effective(Child(m, p), path[1..]);
        if Apart(other[0], p) {
          StoreFrame(m, other[0], if |other| == 1 then v else Map(Write(Child(m, other[0]), other[1..], v)), p);
        } else {
          StoreLookup(m, p, Map(Write(Child(m, p), other[1..], v)));
          if |write| > 1 && write[0] == p {
            UnblocksNoMore(Child(m, p), other[1..], v, write[1..], path[1..]);
          }
        }
      }
    }
  }

  /** Independence of two writes survives a third that is independent of both. */
  lemma IndependenceStays(m: Entries, r: Path, v: Value, p: Path, q: Path)
    requires Independent(m, r, p) && Independent(m, r, q) && Independent(m, p, q)
    ensures Independent(Write(m, r, v), p, q)
    ensures Effective(Write(m, r, v), p) == Effective(m, p) && Effective(Write(m, r, v), q) == Effective(m, q)
  {
    var r1, p1, q1 := Effective(m, r), Effective(m, p), Effective(m, q);
    EffectiveIsConflictFree(m, r);
    WriteIsEffectiveWrite(m, r, v);
    EffectiveStays(m, r1, v, p);
    EffectiveStays(m, r1, v, q);
    UnblocksNoMore(m, r1, v, p1, q);
    UnblocksNoMore(m, r1, v, q1, p);
  }

  lemma IndependentIsSymmetric(m: Entries, p: Path, q: Path)
    requires Independent(m, p, q)
    ensures Independent(m, q, p)
  {
    DivergeIsSymmetric(Effective(m, p), Effective(m, q));
  }

  ghost predicate PairwiseIndependent(m: Entries, items: seq<Item>) {
    forall i, j :: 0 <= i < j < |items| ==> Independent(m, items[i].path, items[j].path)
  }

  lemma {:induction false} NothingToUnblock(m: Entries, write: Path, path: Path)
    requires !Conflict(m, path)
    ensures !Unblocks(m, write, path)
    decreases |path|
  {
    if |path| > 1 && |write| > 1 {
      NothingToUnblock(Child(m, path[0]), write[1..], path[1..]);
    }
  }

  /** Diverging items without conflicts are a special case. */
  lemma ConflictFreeItemsAreIndependent(m: Entries, items: seq<Item>)
    requires PairwiseDiverging(items) && ConflictFree(m, items)
    ensures PairwiseIndependent(m, items)
  {
    forall i, j | 0 <= i < j < |items| ensures Independent(m, items[i].path, items[j].path) {
      EffectiveIsConflictFree(m, items[i].path);
      EffectiveIsConflictFree(m, items[j].path);
      NothingToUnblock(m, items[i].path, items[j].path);
      NothingToUnblock(m, items[j].path, items[i].path);
    }
  }

  lemma IndependentAt(m: Entries, items: seq<Item>, i: nat, j: nat)
    requires i < |items| && j < |items| && i != j && PairwiseIndependent(m, items)
    ensures Independent(m, items[i].path, items[j].path)
  {
    if j < i {
      IndependentIsSymmetric(m, items[j].path, items[i].path);
    }
  }

  /** Writing one item leaves the others pairwise independent. */
  lemma OthersStayIndependent(m: Entries, items: seq<Item>, k: nat)
    requires k < |items| && PairwiseIndependent(m, items)
    ensures PairwiseIndependent(Write(m, items[k].path, items[k].value), Without(items, k))
  {
    var x, others := items[k], Without(items, k);
    forall i, j | 0 <= i < j < |others| ensures Independent(Write(m, x.path, x.value), others[i].path, others[j].path) {
      var i', j' := if i < k then i else i + 1, if j < k then j else j + 1;
      assert others[i] == items[i'] && others[j] == items[j'];
      IndependentAt(m, items, k, i');
      IndependentAt(m, items, k, j');
      IndependenceStays(m, x.path, x.value, items[i'].path, items[j'].path);
    }
  }

  lemma RestStaysIndependent(m: Entries, items: seq<Item>)
    requires items != [] && PairwiseIndependent(m, items)
    ensures PairwiseIndependent(Write(m, items[0].path, items[0].value), items[1..])
  {
    OthersStayIndependent(m, items, 0);
    assert Without(items, 0) == items[1..];
  }

  /** Any item may be written first. */
  lemma {:induction false} AnyItemFirst(m: Entries, items: seq<Item>, k: nat)
    requires k < |items| && PairwiseIndependent(m, items)
    ensures WriteAll(m, items) == WriteAll(Write(m, items[k].path, items[k].value), Without(items, k))
    decreases k
  {
    if k == 0 {
      assert Without(items, 0) == items[1..];
    } else {
      var a, x, rest := items[0], items[k], items[1..];
      RestStaysIndependent(m, items);
      AnyItemFirst(Write(m, a.path, a.value), rest, k - 1);
      IndependentAt(m, items, 0, k);
      IndependentWritesCommute(m, a.path, a.value, x.path, x.value);
      WithoutLater(items, k);
    }
  }

  /** Every permutation of pairwise independent items gives the same tree, conflicts or not. */
  lemma {:induction false} OrderDoesNotMatter(m: Entries, items: seq<Item>, shuffled: seq<Item>)
    requires multiset(items) == multiset(shuffled) && PairwiseIndependent(m, items)
    ensures WriteAll(m, items) == WriteAll(m, shuffled)
    decreases |items|
  {
    if shuffled == [] {
      assert |multiset(items)| == 0;
    } else {
      var x := shuffled[0];
      assert x in multiset(items);
      var k :| 0 <= k < |items| && items[k] == x;
      AnyItemFirst(m, items, k);
      OthersStayIndependent(m, items, k);
      WithoutMultiset(items, shuffled, k);
      OrderDoesNotMatter(Write(m, x.path, x.value), Without(items, k), shuffled[1..]);
    }
  }

  /** A value at a path really written survives all the writes independent of it. */
  lemma {:induction false} IndependentWritesKeep(m: Entries, path: Path, items: seq<Item>)
    requires Read(m, Effective(m, path)).Some? && PairwiseIndependent(m, items)
    requires forall i :: 0 <= i < |items| ==> Independent(m, items[i].path, path)
    ensures Read(WriteAll(m, items), Effective(m, path)) == Read(m, Effective(m, path))
    decreases |items|
  {
    if items != [] {
      var x := items[0];
      var m' := Write(m, x.path, x.value);
      WriteFrame(m, x.path, x.value, Effective(m, path));
      EffectiveIsConflictFree(m, x.path);
      WriteIsEffectiveWrite(m, x.path, x.value);
      EffectiveStays(m, Effective(m, x.path), x.value, path);
      RestStaysIndependent(m, items);
      forall i | 0 <= i < |items[1..]| ensures Independent(m', items[1..][i].path, path) {
        assert items[1..][i] == items[i + 1];
        IndependentAt(m, items, 0, i + 1);
        IndependenceStays(m, x.path, x.value, items[i + 1].path, path);
      }
      IndependentWritesKeep(m', path, items[1..]);
    }
  }

  lemma {:induction false} EffectiveStaysThroughout(m: Entries, path: Path, items: seq<Item>)
    requires PairwiseIndependent(m, items) && forall i :: 0 <= i < |items| ==> Independent(m, items[i].path, path)
    ensures Effective(WriteAll(m, items), path) == Effective(m, path)
    decreases |items|
  {
    if items != [] {
      var x := items[0];
      EffectiveIsConflictFree(m, x.path);
      WriteIsEffectiveWrite(m, x.path, x.value);
      EffectiveStays(m, Effective(m, x.path), x.value, path);
      RestStaysIndependent(m, items);
      forall i | 0 <= i < |items[1..]| ensures Independent(Write(m, x.path, x.value), items[1..][i].path, path) {
        assert items[1..][i] == items[i + 1];
        IndependentAt(m, items, 0, i + 1);
        IndependenceStays(m, x.path, x.value, items[i + 1].path, path);
      }
      EffectiveStaysThroughout(Write(m, x.path, x.value), path, items[1..]);
    }
  }

  lemma WithoutThenLast(items: seq<Item>, k: nat)
    requires k < |items|
    ensures multiset(Without(items, k) + [items[k]]) == multiset(items)
  {
    assert items == items[..k] + [items[k]] + items[k + 1..];
  }

  /** After all of them every value is at the path that was really written for it. */
  lemma EveryValueIsInItsPlace(m: Entries, items: seq<Item>, k: nat)
    requires k < |items| && items[k].path != [] && PairwiseIndependent(m, items)
    ensures Read(WriteAll(m, items), Effective(m, items[k].path)) == Some(items[k].value)
  {
    var x, others := items[k], Without(items, k);
    forall i | 0 <= i < |others| ensures Independent(m, others[i].path, x.path) {
      assert others[i] == items[if i < k then i else i + 1];
      IndependentAt(m, items, if i < k then i else i + 1, k);
    }
    forall i, j | 0 <= i < j < |others| ensures Independent(m, others[i].path, others[j].path) {
      assert others[i] == items[if i < k then i else i + 1] && others[j] == items[if j < k then j else j + 1];
    }
    EffectiveStaysThroughout(m, x.path, others);
    WithoutThenLast(items, k);
    OrderDoesNotMatter(m, items, others + [x]);
    WriteAllSnoc(m, others, x);
    ReadBack(WriteAll(m, others), x.path, x.value);
  }
}
