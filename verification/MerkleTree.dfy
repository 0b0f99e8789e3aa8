/** The commitment tree as it is stored: a heap-ordered array that doubles when full, whose root moves up as the
    tree deepens. */
module MerkleTrees {
  import opened Types
  import opened Merkle

  /** The table of default node values ends at level 31. */
  const MAX_DEPTH: nat := 31

  const MAX_LEAVES: nat := 0x8000_0000

  // ---- Array slots ----

  /** The exponent of the largest power of two not above `x`. */
  function Log2(x: nat): (t: nat)
    requires x >= 1
    ensures Pow2(t) <= x < 2 * Pow2(t)
  {
    Log2From(x, 0)
  }

  function Log2From(x: nat, least: nat): (t: nat)
    requires Pow2(least) <= x
    ensures Pow2(t) <= x < 2 * Pow2(t)
    decreases x - Pow2(least)
  {
    if x < 2 * Pow2(least) then least else Log2From(x, least + 1)
  }

  lemma {:induction false} Log2Unique(x: nat, t: nat)
    requires Pow2(t) <= x < 2 * Pow2(t)
    ensures Log2(x) == t
  {
    if Log2(x) < t {
      Pow2Monotone(Log2(x) + 1, t);
    } else if t < Log2(x) {
      Pow2Monotone(t + 1, Log2(x));
    }
  }

  lemma {:induction false} Pow2Add(a: nat, b: nat)
    ensures Pow2(a + b) == Pow2(a) * Pow2(b)
  {
    if a > 0 {
      Pow2Add(a - 1, b);
      assert 2 * Pow2(a - 1) * Pow2(b) == 2 * (Pow2(a - 1) * Pow2(b));
    }
  }

  /** The level of slot `k` in an array for `2^cd` leaves. */
  function Level(cd: nat, k: nat): (level: nat)
    requires k < 2 * Pow2(cd) - 1
    ensures level <= cd && Log2(k + 1) == cd - level
  {
    assert Log2(k + 1) <= cd by {
      if Log2(k + 1) > cd {
        Pow2Monotone(cd + 1, Log2(k + 1));
      }
    }
    cd - Log2(k + 1)
  }

  /** The position of slot `k` within its level. */
  function Offset(k: nat): (i: nat)
    ensures i < Pow2(Log2(k + 1))
  {
    k + 1 - Pow2(Log2(k + 1))
  }

  /** The slot with a given level and offset. */
  lemma {:induction false} SlotAt(cd: nat, level: nat, i: nat)
    requires level <= cd && i < Pow2(cd - level)
    ensures var k := Pow2(cd - level) - 1 + i;
            k < 2 * Pow2(cd) - 1 && Level(cd, k) == level && Offset(k) == i
  {
    Pow2Monotone(cd - level, cd);
    Log2Unique(Pow2(cd - level) + i, cd - level);
  }

  lemma {:induction false} Halved(x: nat, p: nat)
    requires 2 * p <= x < 4 * p
    ensures p <= x / 2 < 2 * p
    ensures x / 2 - p == (x - 2 * p) / 2
    ensures x % 2 == (x - 2 * p) % 2
  {
  }

  lemma {:induction false} ParentLevel(k: nat)
    requires k >= 1
    ensures Log2(k + 1) == Log2((k - 1) / 2 + 1) + 1
  {
    var t := Log2(k + 1);
    assert t >= 1;
    Halved(k + 1, Pow2(t - 1));
    assert (k - 1) / 2 + 1 == (k + 1) / 2;
    Log2Unique((k + 1) / 2, t - 1);
  }

  /** Heap order: the parent of a slot is one level up at half the offset; left children sit at odd slots. */
  lemma {:induction false} ParentSlot(k: nat)
    requires k >= 1
    ensures Log2(k + 1) == Log2((k - 1) / 2 + 1) + 1
    ensures Offset((k - 1) / 2) == Offset(k) / 2
    ensures k % 2 == 1 <==> Offset(k) % 2 == 0
  {
    ParentLevel(k);
    var p := Pow2(Log2((k - 1) / 2 + 1));
    assert Pow2(Log2(k + 1)) == 2 * p;
    Halved(k + 1, p);
    assert (k - 1) / 2 + 1 == (k + 1) / 2;
    assert (k + 1) % 2 == 0 <==> k % 2 == 1;
  }

  lemma {:induction false} ParentAbove(cd: nat, k: nat)
    requires k < 2 * Pow2(cd) - 1 && Level(cd, k) < cd
    ensures k >= 1
    ensures var p := (k - 1) / 2;
            p < 2 * Pow2(cd) - 1 && Level(cd, p) == Level(cd, k) + 1 && Offset(p) == Offset(k) / 2
  {
    assert Log2(k + 1) >= 1;
    ParentSlot(k);
  }

  /** The neighbour of a slot in heap order is its sibling. */
  lemma {:induction false} SiblingSlot(cd: nat, k: nat)
    requires 1 <= k < 2 * Pow2(cd) - 1
    ensures var s := if k % 2 == 1 then k + 1 else k - 1;
            && s < 2 * Pow2(cd) - 1
            && Level(cd, s) == Level(cd, k) && Offset(s) == Sibling(Offset(k))
  {
    ParentSlot(k);
    var t := Log2(k + 1);
    assert t == cd - Level(cd, k);
    Pow2Monotone(t, cd);
    Log2Unique((if k % 2 == 1 then k + 1 else k - 1) + 1, t);
  }

  // ---- What the array stores ----

  /** Slots above the root on the left edge are not kept up to date; every other slot is. */
  ghost predicate Live(cd: nat, n: nat, k: nat)
    requires k < 2 * Pow2(cd) - 1
  {
    Level(cd, k) <= Depth(n) || Offset(k) >= 1
  }

  function Expected(sha: Hash, values: seq<Commitment>, cd: nat, k: nat): Digest
    requires k < 2 * Pow2(cd) - 1
  {
    Node(sha, values, Level(cd, k), Offset(k))
  }

  ghost predicate Represents(sha: Hash, nodes: seq<Digest>, values: seq<Commitment>, cd: nat) {
    && |nodes| == 2 * Pow2(cd) - 1
    && |values| <= Pow2(cd)
    && forall k :: 0 <= k < |nodes| ==> SlotOk(sha, nodes, values, cd, k)
  }

  ghost predicate SlotOk(sha: Hash, nodes: seq<Digest>, values: seq<Commitment>, cd: nat, k: nat)
    requires k < |nodes| == 2 * Pow2(cd) - 1
  {
    Live(cd, |values|, k) ==> nodes[k] == Expected(sha, values, cd, k)
  }

  /** Slot `k` lies on the way from the last leaf to the top, above level `done`. */
  ghost predicate Pending(cd: nat, n: nat, done: nat, k: nat)
    requires n >= 1 && k < 2 * Pow2(cd) - 1
  {
    Level(cd, k) > done && Offset(k) == Shr(n - 1, Level(cd, k))
  }

  /** As `Represents`, except that the slots above the new leaf are right only up to level `done`. */
  ghost predicate PartlyRepresents(sha: Hash, nodes: seq<Digest>, values: seq<Commitment>, cd: nat, done: nat) {
    && |nodes| == 2 * Pow2(cd) - 1
    && 1 <= |values| <= Pow2(cd)
    && forall k :: 0 <= k < |nodes| ==> SlotPartlyOk(sha, nodes, values, cd, done, k)
  }

  ghost predicate SlotPartlyOk(sha: Hash, nodes: seq<Digest>, values: seq<Commitment>, cd: nat, done: nat, k: nat)
    requires k < |nodes| == 2 * Pow2(cd) - 1 && |values| >= 1
  {
    Live(cd, |values|, k) && !Pending(cd, |values|, done, k) ==> nodes[k] == Expected(sha, values, cd, k)
  }

  /** Above the depth of the old tree, the way up from the next leaf runs along the left edge. */
  lemma {:induction false} LeftEdge(n: nat, level: nat)
    requires n < Pow2(level)
    ensures Shr(n, level) == 0
  {
    ShrBound(n, level, 0);
  }

  /** A slot off the way up from the new leaf keeps its value. */
  lemma {:induction false} OffTheWay(sha: Hash, nodes: seq<Digest>, values: seq<Commitment>, value: Commitment, cd: nat, k: nat)
    requires k < |nodes| == 2 * Pow2(cd) - 1
    requires SlotOk(sha, nodes, values, cd, k)
    requires Offset(k) != Shr(|values|, Level(cd, k)) && Live(cd, |values| + 1, k)
    ensures nodes[k] == Expected(sha, values + [value], cd, k)
  {
    var n, level := |values|, Level(cd, k);
    NodeAppend(sha, values, value, level, Offset(k));
    if !Live(cd, n, k) {
      Pow2Monotone(Depth(n) + 1, level);
      LeftEdge(n, level);
    }
  }

  lemma {:induction false} LeafWritten(sha: Hash, nodes: seq<Digest>, values: seq<Commitment>, value: Commitment, cd: nat, slot: nat)
    requires Represents(sha, nodes, values, cd) && |values| < Pow2(cd)
    requires slot == |values| + Pow2(cd) - 1
    ensures slot < |nodes|
    ensures Level(cd, slot) == 0 && Offset(slot) == |values|
    ensures PartlyRepresents(sha, nodes[slot := Leaf(sha, value)], values + [value], cd, 0)
  {
    var nodes', values' := nodes[slot := Leaf(sha, value)], values + [value];
    SlotAt(cd, 0, |values|);
    forall k | 0 <= k < |nodes|
      ensures SlotPartlyOk(sha, nodes', values', cd, 0, k)
    {
      assert SlotOk(sha, nodes, values, cd, k);
      if k != slot && Live(cd, |values'|, k) && !Pending(cd, |values'|, 0, k) {
        OffTheWay(sha, nodes, values, value, cd, k);
      }
    }
  }

  /** The children of a slot, in heap order. */
  lemma {:induction false} ChildSlots(cd: nat, p: nat)
    requires p < 2 * Pow2(cd) - 1 && Level(cd, p) >= 1
    ensures 2 * p + 2 < 2 * Pow2(cd) - 1
    ensures Level(cd, 2 * p + 1) == Level(cd, 2 * p + 2) == Level(cd, p) - 1
    ensures Offset(2 * p + 1) == 2 * Offset(p) && Offset(2 * p + 2) == 2 * Offset(p) + 1
  {
    var t := Log2(p + 1);
    assert t + 1 <= cd;
    Pow2Monotone(t + 1, cd);
    Log2Unique(2 * p + 2, t + 1);
    Log2Unique(2 * p + 3, t + 1);
  }

  /** With both children right, hashing them makes the parent right. */
  lemma {:induction false} ParentWritten(sha: Hash, nodes: seq<Digest>, values: seq<Commitment>, cd: nat, done: nat, p: nat)
    requires PartlyRepresents(sha, nodes, values, cd, done) && done < Depth(|values|)
    requires p < 2 * Pow2(cd) - 1 && Level(cd, p) == done + 1
    ensures 2 * p + 2 < |nodes|
    ensures Two(sha, nodes[2 * p + 1], nodes[2 * p + 2]) == Expected(sha, values, cd, p)
  {
    ChildSlots(cd, p);
    assert SlotPartlyOk(sha, nodes, values, cd, done, 2 * p + 1);
    assert SlotPartlyOk(sha, nodes, values, cd, done, 2 * p + 2);
  }

  lemma {:induction false} SameSlot(cd: nat, k: nat, p: nat)
    requires k < 2 * Pow2(cd) - 1 && p < 2 * Pow2(cd) - 1
    requires Level(cd, k) == Level(cd, p) && Offset(k) == Offset(p)
    ensures k == p
  {
    assert Log2(k + 1) == cd - Level(cd, k) == Log2(p + 1);
  }

  lemma {:induction false} LevelWritten(sha: Hash, nodes: seq<Digest>, values: seq<Commitment>, cd: nat, done: nat, p: nat)
    requires PartlyRepresents(sha, nodes, values, cd, done) && done < Depth(|values|)
    requires p < 2 * Pow2(cd) - 1 && Level(cd, p) == done + 1 && Offset(p) == Shr(|values| - 1, done + 1)
    ensures 2 * p + 2 < |nodes|
    ensures PartlyRepresents(sha, nodes[p := Two(sha, nodes[2 * p + 1], nodes[2 * p + 2])], values, cd, done + 1)
  {
    ParentWritten(sha, nodes, values, cd, done, p);
    var nodes', next := nodes[p := Two(sha, nodes[2 * p + 1], nodes[2 * p + 2])], done + 1;
    forall k | 0 <= k < |nodes|
      ensures SlotPartlyOk(sha, nodes', values, cd, next, k)
    {
      assert SlotPartlyOk(sha, nodes, values, cd, done, k);
      if Pending(cd, |values|, done, k) && !Pending(cd, |values|, next, k) {
        SameSlot(cd, k, p);
      }
    }
  }

  lemma {:induction false} AllWritten(sha: Hash, nodes: seq<Digest>, values: seq<Commitment>, cd: nat)
    requires PartlyRepresents(sha, nodes, values, cd, Depth(|values|))
    ensures Represents(sha, nodes, values, cd)
  {
    var n := |values|;
    forall k | 0 <= k < |nodes|
      ensures SlotOk(sha, nodes, values, cd, k)
    {
      assert SlotPartlyOk(sha, nodes, values, cd, Depth(n), k);
      if Pending(cd, n, Depth(n), k) {
        Pow2Monotone(Depth(n), Level(cd, k));
        LeftEdge(n - 1, Level(cd, k));
      }
    }
  }

  lemma {:induction false} EmptyRepresented(sha: Hash, nodes: seq<Digest>, cd: nat)
    requires |nodes| == 2 * Pow2(cd) - 1
    requires forall k :: 0 <= k < |nodes| ==> nodes[k] == Default(sha, Level(cd, k))
    ensures Represents(sha, nodes, [], cd)
  {
    forall k | 0 <= k < |nodes|
      ensures SlotOk(sha, nodes, [], cd, k)
    {
      NodeBeyond(sha, [], Level(cd, k), Offset(k));
    }
  }

  lemma {:induction false} SiblingStored(sha: Hash, nodes: seq<Digest>, values: seq<Commitment>, cd: nat, k: nat)
    requires Represents(sha, nodes, values, cd) && 1 <= k < |nodes| && Level(cd, k) <= Depth(|values|)
    ensures var s := if k % 2 == 1 then k + 1 else k - 1;
            s < |nodes| && nodes[s] == Node(sha, values, Level(cd, k), Sibling(Offset(k)))
  {
    SiblingSlot(cd, k);
    var s := if k % 2 == 1 then k + 1 else k - 1;
    assert SlotOk(sha, nodes, values, cd, s);
  }

  // ---- Growth ----

  /** The largest power of two not above `x`. */
  function PrevPowerOfTwo(x: nat): nat
    requires x >= 1
  {
    Pow2(Log2(x))
  }

  /** Slot `q` of the doubled array holds a node of the old array. */
  ghost predicate Embedded(q: nat) {
    q >= 1 && Log2(q + 1) >= 1 && Offset(q) < Pow2(Log2(q + 1) - 1)
  }

  ghost function Origin(q: nat): nat
    requires Embedded(q)
  {
    q - Pow2(Log2(q + 1) - 1)
  }

  /** Moving slot `k` by its level's width keeps its level (counted from the leaves) and its offset. */
  lemma {:induction false} MovedSlot(k: nat)
    ensures var q := k + PrevPowerOfTwo(k + 1);
            Log2(q + 1) == Log2(k + 1) + 1 && Offset(q) == Offset(k) && Embedded(q) && Origin(q) == k
  {
    Log2Unique(k + PrevPowerOfTwo(k + 1) + 1, Log2(k + 1) + 1);
  }

  lemma {:induction false} OriginSlot(q: nat)
    requires Embedded(q)
    ensures var k := Origin(q);
            q == k + PrevPowerOfTwo(k + 1) && Log2(q + 1) == Log2(k + 1) + 1 && Offset(q) == Offset(k)
  {
    Log2Unique(Origin(q) + 1, Log2(q + 1) - 1);
  }

  /** The doubled array after the first `n` nodes of the old one are moved: the rest still holds defaults. */
  ghost predicate Moved(sha: Hash, bigger: seq<Digest>, nodes: seq<Digest>, cd: nat, n: nat) {
    && |nodes| == 2 * Pow2(cd) - 1
    && |bigger| == 2 * Pow2(cd + 1) - 1
    && n <= |nodes|
    && forall q :: 0 <= q < |bigger| ==> SlotMoved(sha, bigger, nodes, cd, n, q)
  }

  ghost predicate SlotMoved(sha: Hash, bigger: seq<Digest>, nodes: seq<Digest>, cd: nat, n: nat, q: nat)
    requires n <= |nodes| && q < |bigger| == 2 * Pow2(cd + 1) - 1
  {
    bigger[q] == if Embedded(q) && Origin(q) < n then nodes[Origin(q)] else Default(sha, Level(cd + 1, q))
  }

  lemma {:induction false} MoveOne(sha: Hash, bigger: seq<Digest>, nodes: seq<Digest>, cd: nat, n: nat)
    requires Moved(sha, bigger, nodes, cd, n) && n < |nodes|
    ensures n + PrevPowerOfTwo(n + 1) < |bigger|
    ensures Moved(sha, bigger[n + PrevPowerOfTwo(n + 1) := nodes[n]], nodes, cd, n + 1)
  {
    MovedSlot(n);
    var q0, next := n + PrevPowerOfTwo(n + 1), n + 1;
    var bigger' := bigger[q0 := nodes[n]];
    assert q0 < |bigger| by {
      assert Level(cd, n) <= cd;
      Pow2Monotone(Log2(n + 1), cd);
    }
    forall q | 0 <= q < |bigger|
      ensures SlotMoved(sha, bigger', nodes, cd, next, q)
    {
      assert SlotMoved(sha, bigger, nodes, cd, n, q);
      if Embedded(q) {
        OriginSlot(q);
        assert Origin(q) == n <==> q == q0;
      }
    }
  }

  lemma {:induction false} AllMoved(sha: Hash, bigger: seq<Digest>, nodes: seq<Digest>, values: seq<Commitment>, cd: nat)
    requires Represents(sha, nodes, values, cd) && |values| == Pow2(cd)
    requires Moved(sha, bigger, nodes, cd, |nodes|)
    ensures Represents(sha, bigger, values, cd + 1)
  {
    var cd' := cd + 1;
    forall q | 0 <= q < |bigger|
      ensures SlotOk(sha, bigger, values, cd', q)
    {
      assert SlotMoved(sha, bigger, nodes, cd, |nodes|, q);
      if Embedded(q) {
        OriginInRange(q, cd);
        assert SlotOk(sha, nodes, values, cd, Origin(q));
        MovedOk(sha, bigger, nodes, values, cd, q);
      } else if Live(cd', |values|, q) {
        NotEmbeddedIsEmpty(sha, values, cd, q);
      }
    }
  }

  lemma {:induction false} MovedOk(sha: Hash, bigger: seq<Digest>, nodes: seq<Digest>, values: seq<Commitment>, cd: nat, q: nat)
    requires |nodes| == 2 * Pow2(cd) - 1 && q < |bigger| == 2 * Pow2(cd + 1) - 1
    requires |values| == Pow2(cd) && Embedded(q) && Origin(q) < |nodes| && bigger[q] == nodes[Origin(q)]
    requires SlotOk(sha, nodes, values, cd, Origin(q))
    ensures SlotOk(sha, bigger, values, cd + 1, q)
  {
    OriginSlot(q);
    CapacityDepth(cd);
    assert Live(cd, |values|, Origin(q));
  }

  lemma {:induction false} OriginInRange(q: nat, cd: nat)
    requires Embedded(q) && q < 2 * Pow2(cd + 1) - 1
    ensures Origin(q) < 2 * Pow2(cd) - 1
  {
    OriginSlot(q);
    var t := Log2(q + 1);
    assert t == cd + 1 - Level(cd + 1, q);
    Pow2Monotone(t - 1, cd);
  }

  /** A slot of the doubled array that holds no old node lies right of the old tree. */
  lemma {:induction false} RightOfOldTree(cd: nat, q: nat)
    requires 1 <= q < 2 * Pow2(cd + 1) - 1 && !Embedded(q)
    ensures Pow2(cd) <= Offset(q) * Pow2(Level(cd + 1, q))
  {
    var t, level := Log2(q + 1), Level(cd + 1, q);
    assert t >= 1 && Pow2(t - 1) <= Offset(q);
    assert t - 1 + level == cd;
    Pow2Add(t - 1, level);
    MulMonotone(Pow2(t - 1), Offset(q), Pow2(level));
  }

  lemma {:induction false} NotEmbeddedIsEmpty(sha: Hash, values: seq<Commitment>, cd: nat, q: nat)
    requires q < 2 * Pow2(cd + 1) - 1 && !Embedded(q) && |values| == Pow2(cd)
    requires Live(cd + 1, |values|, q)
    ensures Expected(sha, values, cd + 1, q) == Default(sha, Level(cd + 1, q))
  {
    CapacityDepth(cd);
    assert q >= 1;
    RightOfOldTree(cd, q);
    NodeBeyond(sha, values, Level(cd + 1, q), Offset(q));
  }

  lemma {:induction false} MulMonotone(a: nat, b: nat, c: nat)
    requires a <= b
    ensures a * c <= b * c
  {
    assert b * c == a * c + (b - a) * c;
  }

  lemma {:induction false} CapacityDepth(cd: nat)
    ensures Depth(Pow2(cd)) == cd
  {
    DepthUnique(Pow2(cd), cd);
  }

  lemma {:induction false} MaxLeaves(d: nat)
    requires d <= MAX_DEPTH
    ensures Pow2(d) == MAX_LEAVES ==> d == MAX_DEPTH
    ensures d == MAX_DEPTH ==> Pow2(d) == MAX_LEAVES
  {
    assert Pow2(8) == 0x100 && Pow2(7) == 0x80;
    Pow2Add(8, 8);
    Pow2Add(8, 7);
    Pow2Add(16, 15);
    Pow2Monotone(d, 31);
    if d < 31 {
      Pow2Monotone(d, 30);
    }
  }

  // ---- The tree ----

  /** A node array filled level by level with default values. */
  method FilledWithDefaults(sha: Hash, cd: nat) returns (nodes: array<Digest>)
    ensures fresh(nodes) && nodes.Length == 2 * Pow2(cd) - 1
    ensures forall k :: 0 <= k < nodes.Length ==> nodes[k] == Default(sha, Level(cd, k))
  {
    nodes := new Digest[2 * Pow2(cd) - 1](i => ZERO);
    var position := 0;
    for t := 0 to cd + 1
      invariant position == Pow2(t) - 1 <= nodes.Length
      invariant forall k :: 0 <= k < position ==> nodes[k] == Default(sha, Level(cd, k))
    {
      Pow2Monotone(t + 1, cd + 1);
      for j := 0 to Pow2(t)
        invariant position == Pow2(t) - 1 + j <= nodes.Length
        invariant forall k :: 0 <= k < position ==> nodes[k] == Default(sha, Level(cd, k))
      {
        Log2Unique(position + 1, t);
        nodes[position] := Default(sha, cd - t);
        position := position + 1;
      }
    }
  }

  /** Copies every node of the old array into the doubled one. */
  method MoveNodes(ghost sha: Hash, bigger: array<Digest>, nodes: array<Digest>, ghost cd: nat)
    requires bigger != nodes && nodes.Length == 2 * Pow2(cd) - 1 && bigger.Length == 2 * Pow2(cd + 1) - 1
    requires forall q :: 0 <= q < bigger.Length ==> bigger[q] == Default(sha, Level(cd + 1, q))
    modifies bigger
    ensures Moved(sha, bigger[..], nodes[..], cd, nodes.Length)
  {
    assert Moved(sha, bigger[..], nodes[..], cd, 0) by {
      assert forall q :: 0 <= q < bigger.Length ==> SlotMoved(sha, bigger[..], nodes[..], cd, 0, q);
    }
    for index := 0 to nodes.Length
      invariant Moved(sha, bigger[..], nodes[..], cd, index)
    {
      MoveOne(sha, bigger[..], nodes[..], cd, index);
      var newIndex := index + PrevPowerOfTwo(index + 1);
      ghost var moved := bigger[..][newIndex := nodes[index]];
      bigger[newIndex] := nodes[index];
      assert bigger[..] == moved;
    }
  }

  /** The slot of the root: the left edge at the depth of the tree. */
  function RootIndex(length: nat, capacity: nat): (k: nat)
    requires length <= capacity == Pow2(Depth(capacity))
    ensures Depth(length) <= Depth(capacity)
    ensures k < 2 * capacity - 1 && Level(Depth(capacity), k) == Depth(length) && Offset(k) == 0
  {
    DepthMonotone(length, capacity);
    SlotAt(Depth(capacity), Depth(length), 0);
    if Depth(length) == Depth(capacity) then 0 else Pow2(Depth(capacity) - Depth(length)) - 1
  }

  lemma {:induction false} RootStored(sha: Hash, nodes: seq<Digest>, values: seq<Commitment>, cd: nat, k: nat)
    requires Represents(sha, nodes, values, cd)
    requires k < |nodes| && Level(cd, k) == Depth(|values|) && Offset(k) == 0
    ensures nodes[k] == Root(sha, values)
  {
    assert SlotOk(sha, nodes, values, cd, k);
  }

  /** Recomputes the nodes above a freshly written leaf. */
  method Rehash(sha: Hash, nodes: array<Digest>, ghost values: seq<Commitment>, ghost cd: nat, leafIndex: nat, depth: nat)
    requires PartlyRepresents(sha, nodes[..], values, cd, 0) && depth == Depth(|values|)
    requires leafIndex < nodes.Length && Level(cd, leafIndex) == 0 && Offset(leafIndex) == |values| - 1
    modifies nodes
    ensures Represents(sha, nodes[..], values, cd)
  {
    CapacityDepth(cd);
    DepthMonotone(|values|, Pow2(cd));
    var nodeIndex: nat := leafIndex;
    for done := 0 to depth
      invariant nodeIndex < nodes.Length
      invariant Level(cd, nodeIndex) == done && Offset(nodeIndex) == Shr(|values| - 1, done)
      invariant PartlyRepresents(sha, nodes[..], values, cd, done)
    {
      ParentAbove(cd, nodeIndex);
      var parentIndex := (nodeIndex - 1) / 2;
      LevelWritten(sha, nodes[..], values, cd, done, parentIndex);
      var left, right := nodes[2 * parentIndex + 1], nodes[2 * parentIndex + 2];
      ghost var written := nodes[..][parentIndex := Two(sha, left, right)];
      nodes[parentIndex] := Two(sha, left, right);
      assert nodes[..] == written;
      nodeIndex := parentIndex;
    }
    AllWritten(sha, nodes[..], values, cd);
  }

  /** Collects the siblings from a leaf up to the root slot. */
  method Climb(ghost sha: Hash, nodes: array<Digest>, ghost values: seq<Commitment>, ghost cd: nat,
               ghost index: nat, leafIndex: nat, rootIndex: nat) returns (path: seq<Digest>)
    requires Represents(sha, nodes[..], values, cd) && index < |values|
    requires leafIndex < nodes.Length && Level(cd, leafIndex) == 0 && Offset(leafIndex) == index
    requires rootIndex < nodes.Length && Level(cd, rootIndex) == Depth(|values|) && Offset(rootIndex) == 0
    ensures path == Path(sha, values, index, Depth(|values|))
  {
    ghost var level := 0;
    var nodeIndex: nat := leafIndex;
    path := [];
    LeftEdge(index, Depth(|values|));
    while nodeIndex != rootIndex
      invariant level <= Depth(|values|) && nodeIndex < nodes.Length
      invariant Level(cd, nodeIndex) == level && Offset(nodeIndex) == Shr(index, level)
      invariant path == Path(sha, values, index, level)
      decreases Depth(|values|) - level
    {
      if level == Depth(|values|) {
        SameSlot(cd, nodeIndex, rootIndex);
        assert false;
      }
      ParentAbove(cd, nodeIndex);
      SiblingStored(sha, nodes[..], values, cd, nodeIndex);
      var parentIndex := (nodeIndex - 1) / 2;
      var isLeftChild := nodeIndex % 2 == 1;
      var siblingIndex := if isLeftChild then nodeIndex + 1 else nodeIndex - 1;
      path := path + [nodes[siblingIndex]];
      nodeIndex := parentIndex;
      level := level + 1;
    }
  }

  class MerkleTree {
    const sha: Hash
    var nodes: array<Digest>
    var capacity: nat
    var length: nat
    ghost var values: seq<Commitment>

    ghost predicate Valid()
      reads this, nodes
    {
      && capacity == Pow2(Depth(capacity))
      && Depth(capacity) <= MAX_DEPTH
      && length == |values|
      && Represents(sha, nodes[..], values, Depth(capacity))
    }

    /** An empty tree with room for at least `atLeast` leaves. */
    constructor WithCapacity(sha: Hash, atLeast: nat)
      requires Depth(atLeast) <= MAX_DEPTH
      ensures Valid() && fresh(nodes) && this.sha == sha
      ensures values == [] && capacity == Pow2(Depth(atLeast))
    {
      var cd := Depth(atLeast);
      CapacityDepth(cd);
      var filled := FilledWithDefaults(sha, cd);
      this.sha := sha;
      this.nodes := filled;
      this.capacity := Pow2(cd);
      this.length := 0;
      this.values := [];
      EmptyRepresented(sha, filled[..], cd);
    }

    /** The stored root is the root over all values inserted so far. */
    method Root() returns (root: Digest)
      requires Valid()
      ensures root == Merkle.Root(sha, values)
    {
      var k := RootIndex(length, capacity);
      RootStored(sha, nodes[..], values, Depth(capacity), k);
      root := nodes[k];
    }

    /** Doubles the capacity; the old tree becomes the left subtree of the new one. */
    method ReallocateToDoubleCapacity()
      requires Valid() && length == capacity && Depth(capacity) < MAX_DEPTH
      modifies this
      ensures Valid() && fresh(nodes)
      ensures values == old(values) && length == old(length) && capacity == 2 * old(capacity)
    {
      ghost var cd := Depth(capacity);
      CapacityDepth(cd + 1);
      var bigger := FilledWithDefaults(sha, Depth(2 * capacity));
      MoveNodes(sha, bigger, nodes, cd);
      AllMoved(sha, bigger[..], nodes[..], values, cd);
      nodes := bigger;
      capacity := 2 * capacity;
    }

    /** Appends a leaf and brings the nodes above it up to date. */
    method Insert(value: Commitment) returns (newIndex: nat)
      requires Valid() && length < MAX_LEAVES
      modifies this, nodes
      ensures Valid() && (nodes == old(nodes) || fresh(nodes))
      ensures newIndex == |old(values)| && values == old(values) + [value]
    {
      if length == capacity {
        MaxLeaves(Depth(capacity));
        ReallocateToDoubleCapacity();
      }
      newIndex := length;
      UpdateAbove(value);
    }

    method UpdateAbove(value: Commitment)
      requires Valid() && length < capacity
      modifies this`length, this`values, nodes
      ensures Valid() && values == old(values) + [value]
    {
      var nodeIndex: nat := length + capacity - 1;
      LeafWritten(sha, nodes[..], values, value, Depth(capacity), nodeIndex);
      ghost var written := nodes[..][nodeIndex := Leaf(sha, value)];
      nodes[nodeIndex] := sha(value.bytes);
      assert nodes[..] == written;
      length := length + 1;
      values := values + [value];
      Rehash(sha, nodes, values, Depth(capacity), nodeIndex, Depth(length));
    }

    /** The siblings on the way from a leaf to the root, if there is such a leaf. */
    method GetAuthenticationPathFor(index: nat) returns (r: Option<seq<Digest>>)
      requires Valid()
      ensures r == if index >= |values| then None else Some(Path(sha, values, index, Depth(|values|)))
    {
      if index >= length {
        return None;
      }
      var rootIndex := RootIndex(length, capacity);
      SlotAt(Depth(capacity), 0, index);
      var path := Climb(sha, nodes, values, Depth(capacity), index, capacity + index - 1, rootIndex);
      r := Some(path);
    }
  }
}
