/** Objects with nested objects on an explicit heap, and copying them whole. */
module ObjectHeap {

  type Ref = nat

  /** What an object and everything inside it says. */
  datatype Tree = Tree(text: string, parts: seq<Tree>)

  datatype Cell = Cell(text: string, parts: seq<Ref>)

  /** Cells in the order they were created; a new object's parts are older than the object. */
  type Heap = seq<Cell>

  /** An object is made of its root and of cells created since `first`. */
  datatype Object = Object(first: Ref, root: Ref)

  predicate Within(item: Object, r: Ref) {
    item.first <= r <= item.root
  }

  predicate Disjoint(a: Object, b: Object) {
    a.root < b.first || b.root < a.first
  }

  /** Every part of the object's cells is an older cell of the same object. */
  ghost predicate Whole(heap: Heap, item: Object) {
    && item.first <= item.root < |heap|
    && forall r: Ref :: Within(item, r) ==> PartsSince(heap, item.first, r)
  }

  predicate PartsSince(heap: Heap, first: Ref, r: Ref)
    requires r < |heap|
  {
    forall i :: 0 <= i < |heap[r].parts| ==> first <= heap[r].parts[i] < r
  }

  function Read(heap: Heap, r: Ref): Tree
    requires r < |heap|
    decreases r
  {
    var parts := heap[r].parts;
    Tree(heap[r].text, seq(|parts|, i requires 0 <= i < |parts| => if parts[i] < r then Read(heap, parts[i]) else Tree("", [])))
  }

  /** Creates an object that says `tree`, parts first; its root comes last. */
  function Alloc(heap: Heap, tree: Tree): Heap
    decreases tree
  {
    var (inner, refs) := AllocAll(heap, tree.parts);
    inner + [Cell(tree.text, refs)]
  }

  function AllocAll(heap: Heap, trees: seq<Tree>): (Heap, seq<Ref>)
    decreases trees
  {
    if trees == [] then (heap, [])
    else
      var (before, refs) := AllocAll(heap, trees[..|trees| - 1]);
      var after := Alloc(before, trees[|trees| - 1]);
      (after, refs + [|after| - 1])
  }

  /** The object an allocation makes. */
  function Made(heap: Heap, tree: Tree): Object
    requires |Alloc(heap, tree)| > 0
  {
    Object(|heap|, |Alloc(heap, tree)| - 1)
  }

  /** What an object says depends on its own cells only. */
  lemma {:induction false} ReadFrame(heap: Heap, other: Heap, first: Ref, r: Ref)
    requires first <= r < |heap| && r < |other|
    requires forall c :: first <= c <= r ==> heap[c] == other[c] && PartsSince(heap, first, c)
    ensures Read(heap, r) == Read(other, r)
  {
    var parts := heap[r].parts;
    assert PartsSince(heap, first, r);
    forall i | 0 <= i < |parts|
      ensures Read(heap, parts[i]) == Read(other, parts[i])
    {
      ReadFrame(heap, other, first, parts[i]);
    }
  }

  lemma WholeFrame(heap: Heap, other: Heap, item: Object)
    requires Whole(heap, item) && item.root < |other|
    requires forall r: Ref :: Within(item, r) ==> heap[r] == other[r]
    ensures Whole(other, item) && Read(other, item.root) == Read(heap, item.root)
  {
    forall r: Ref | Within(item, r)
      ensures PartsSince(other, item.first, r)
    {
      assert PartsSince(heap, item.first, r);
    }
    ReadFrame(heap, other, item.first, item.root);
  }

  /** What an allocation of several objects leaves. */
  ghost predicate AllMade(heap: Heap, trees: seq<Tree>, after: Heap, refs: seq<Ref>) {
    && heap <= after && |refs| == |trees|
    && (forall r :: |heap| <= r < |after| ==> PartsSince(after, |heap|, r))
    && (forall i :: 0 <= i < |refs| ==> |heap| <= refs[i] < |after| && Read(after, refs[i]) == trees[i])
  }

  /** Cells added later change nothing of what was made before. */
  lemma AllMadeGrows(heap: Heap, trees: seq<Tree>, after: Heap, refs: seq<Ref>, longer: Heap)
    requires AllMade(heap, trees, after, refs) && after <= longer
    requires forall r :: |after| <= r < |longer| ==> PartsSince(longer, |heap|, r)
    ensures AllMade(heap, trees, longer, refs)
  {
    forall r | |heap| <= r < |longer|
      ensures PartsSince(longer, |heap|, r)
    {
      assert r < |after| ==> PartsSince(after, |heap|, r);
    }
    forall i | 0 <= i < |refs|
      ensures Read(longer, refs[i]) == trees[i]
    {
      ReadFrame(after, longer, |heap|, refs[i]);
    }
  }

  lemma {:induction false} AllocMakes(heap: Heap, tree: Tree)
    ensures var after := Alloc(heap, tree);
            heap <= after && |heap| < |after| && Whole(after, Made(heap, tree)) && Read(after, |after| - 1) == tree
    decreases tree
  {
    AllocAllMakes(heap, tree.parts);
    var (inner, refs) := AllocAll(heap, tree.parts);
    var after := Alloc(heap, tree);
    assert after == inner + [Cell(tree.text, refs)];
    assert PartsSince(after, |heap|, |after| - 1);
    AllMadeGrows(heap, tree.parts, inner, refs, after);
    assert Read(after, |after| - 1).parts == tree.parts;
  }

  lemma {:induction false} AllocAllMakes(heap: Heap, trees: seq<Tree>)
    ensures AllMade(heap, trees, AllocAll(heap, trees).0, AllocAll(heap, trees).1)
    decreases trees
  {
    if trees != [] {
      var init, last := trees[..|trees| - 1], trees[|trees| - 1];
      AllocAllMakes(heap, init);
      var (before, refs) := AllocAll(heap, init);
      AllocMakes(before, last);
      var after, made := Alloc(before, last), Made(before, last);
      hide Alloc, AllocAll, Read;
      forall r | |before| <= r < |after|
        ensures PartsSince(after, |heap|, r)
      {
        assert Within(made, r) && PartsSince(after, |before|, r);
      }
      AllMadeGrows(heap, init, before, refs, after);
      assert trees == init + [last];
    }
  }

  /** A copy of the object and of everything inside it. */
  function DeepCopy(heap: Heap, item: Object): Heap
    requires item.root < |heap|
  {
    Alloc(heap, Read(heap, item.root))
  }

  /** Nothing written to the original afterwards shows in the copy. */
  lemma DeepCopySurvives(heap: Heap, item: Object, r: Ref, cell: Cell)
    requires Whole(heap, item) && r < |heap|
    ensures var copied := DeepCopy(heap, item);
            |copied| > r && Read(copied[r := cell], |copied| - 1) == Read(heap, item.root)
  {
    var tree := Read(heap, item.root);
    AllocMakes(heap, tree);
    var copied := DeepCopy(heap, item);
    WholeFrame(copied, copied[r := cell], Made(heap, tree));
  }

  /** Copying the root alone would not do: writing to a part shows in the copy, whenever that changes the part. */
  lemma ShallowCopyShares(heap: Heap, item: Object, i: nat, cell: Cell)
    requires Whole(heap, item) && PartsSince(heap, item.first, item.root) && i < |heap[item.root].parts|
    requires Read(heap[heap[item.root].parts[i] := cell], heap[item.root].parts[i]) != Read(heap, heap[item.root].parts[i])
    ensures var part, copied := heap[item.root].parts[i], heap + [heap[item.root]];
            Read(copied[part := cell], |heap|) != Read(heap, item.root)
  {
    var root := heap[item.root];
    var part := root.parts[i];
    var written := (heap + [root])[part := cell];
    assert written[|heap|] == root && part < item.root < |heap|;
    SamePrefix(heap[part := cell], written, part);
    assert Read(written, |heap|).parts[i] == Read(written, part);
    assert Read(heap, item.root).parts[i] == Read(heap, part);
  }

  lemma {:induction false} SamePrefix(heap: Heap, other: Heap, r: Ref)
    requires r < |heap| && r < |other| && forall c :: 0 <= c <= r ==> heap[c] == other[c]
    ensures Read(heap, r) == Read(other, r)
  {
    var parts := heap[r].parts;
    forall i | 0 <= i < |parts| && parts[i] < r
      ensures Read(heap, parts[i]) == Read(other, parts[i])
    {
      SamePrefix(heap, other, parts[i]);
    }
    assert heap[r] == other[r];
  }
}
