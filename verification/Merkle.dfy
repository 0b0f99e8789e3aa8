/** The commitment tree as a mathematical object: node values over the sequence of inserted commitments,
    sibling paths, and the fold that a membership proof is checked with. */
module Merkle {
  import opened Types

  type Hash = seq<u8> -> Digest

  /** The value of an unused leaf. */
  const ZERO: Digest :=
    Digest([0, 0, 0, 0, 0, 0, 0, 0, 0, 0, 0, 0, 0, 0, 0, 0, 0, 0, 0, 0, 0, 0, 0, 0, 0, 0, 0, 0, 0, 0, 0, 0])

  // ---- Powers of two and shifts ----

  function Pow2(k: nat): (p: nat)
    ensures p >= 1
  {
    if k == 0 then 1 else 2 * Pow2(k - 1)
  }

  lemma {:induction false} Pow2Monotone(a: nat, b: nat)
    requires a <= b
    ensures Pow2(a) <= Pow2(b)
    decreases b
  {
    if a < b {
      Pow2Monotone(a, b - 1);
    }
  }

  /** `n >> k`. */
  function Shr(n: nat, k: nat): nat {
    if k == 0 then n else Shr(n, k - 1) / 2
  }

  lemma {:induction false} ShrBound(n: nat, k: nat, m: nat)
    requires n < Pow2(k + m)
    ensures Shr(n, k) < Pow2(m)
    decreases k
  {
    if k > 0 {
      ShrBound(n, k - 1, m + 1);
    }
  }

  /** The low `k` bits of `n`, collected from the top bit down. */
  function Low(n: nat, k: nat): (r: nat)
    ensures r < Pow2(k)
  {
    if k == 0 then 0 else (Shr(n, k - 1) % 2) * Pow2(k - 1) + Low(n, k - 1)
  }

  lemma {:induction false} ShrLow(n: nat, k: nat)
    ensures n == Shr(n, k) * Pow2(k) + Low(n, k)
  {
    if k > 0 {
      ShrLow(n, k - 1);
      SplitBit(Shr(n, k - 1), Pow2(k - 1));
    }
  }

  lemma {:induction false} SplitBit(h: nat, p: nat)
    ensures h * p == (h / 2) * (2 * p) + (h % 2) * p
  {
    var q, b := h / 2, h % 2;
    assert (2 * q + b) * p == q * (2 * p) + b * p;
  }

  lemma {:induction false} LowIsMod(n: nat, k: nat)
    ensures Low(n, k) == n % Pow2(k)
  {
    ShrLow(n, k);
    ModUnique(n, Shr(n, k), Pow2(k), Low(n, k));
  }

  lemma {:induction false} ModUnique(n: nat, q: nat, d: nat, r: nat)
    requires n == q * d + r && r < d
    ensures n % d == r
  {
    DivisionUnique(q, r, n / d, n % d, d);
  }

  lemma {:induction false} DivisionUnique(q: nat, r: nat, q': nat, r': nat, d: nat)
    requires q * d + r == q' * d + r' && r < d && r' < d
    ensures q == q' && r == r'
  {
    if q < q' {
      LargerQuotient(q, q' - q, d);
    } else if q' < q {
      LargerQuotient(q', q - q', d);
    }
  }

  lemma {:induction false} LargerQuotient(q: nat, x: nat, d: nat)
    requires x >= 1
    ensures (q + x) * d >= q * d + d
  {
    assert (q + x) * d == q * d + d + (x - 1) * d;
  }

  /** Number of levels needed for `n` leaves: the exponent of the next power of two. */
  function Depth(n: nat): (d: nat)
    ensures n <= Pow2(d)
    ensures d > 0 ==> Pow2(d - 1) < n
  {
    DepthFrom(n, 0)
  }

  function DepthFrom(n: nat, least: nat): (d: nat)
    requires least > 0 ==> Pow2(least - 1) < n
    ensures n <= Pow2(d)
    ensures d > 0 ==> Pow2(d - 1) < n
    decreases n - Pow2(least)
  {
    if n <= Pow2(least) then least else DepthFrom(n, least + 1)
  }

  lemma {:induction false} DepthUnique(n: nat, d: nat)
    requires n <= Pow2(d) && (d > 0 ==> Pow2(d - 1) < n)
    ensures Depth(n) == d
  {
    if Depth(n) < d {
      Pow2Monotone(Depth(n), d - 1);
    } else if d < Depth(n) {
      Pow2Monotone(d, Depth(n) - 1);
    }
  }

  lemma {:induction false} DepthMonotone(n: nat, m: nat)
    requires n <= m
    ensures Depth(n) <= Depth(m)
  {
    if Depth(m) < Depth(n) {
      Pow2Monotone(Depth(m), Depth(n) - 1);
    }
  }

  // ---- Node values ----

  function Leaf(sha: Hash, c: Commitment): Digest {
    sha(c.bytes)
  }

  function Two(sha: Hash, left: Digest, right: Digest): Digest {
    sha(left.bytes + right.bytes)
  }

  /** The value of the `i`-th node of a level; level 0 holds the leaves, padded with `ZERO`. */
  function Node(sha: Hash, values: seq<Commitment>, level: nat, i: nat): Digest
    decreases level
  {
    if level == 0 then
      if i < |values| then Leaf(sha, values[i]) else ZERO
    else
      Two(sha, Node(sha, values, level - 1, 2 * i), Node(sha, values, level - 1, 2 * i + 1))
  }

  /** Nodes hash the bytes of their left and right child, in this order; leaves hash the commitment. */
  lemma NodeHashes(sha: Hash, values: seq<Commitment>, level: nat, i: nat)
    ensures Node(sha, values, level + 1, i) == sha(Node(sha, values, level, 2 * i).bytes + Node(sha, values, level, 2 * i + 1).bytes)
    ensures i < |values| ==> Node(sha, values, 0, i) == sha(values[i].bytes)
    ensures i >= |values| ==> forall j :: 0 <= j < 32 ==> Node(sha, values, 0, i).bytes[j] == 0
  {
  }

  /** The value of a node with no leaf below it. */
  function Default(sha: Hash, level: nat): Digest {
    if level == 0 then ZERO else Two(sha, Default(sha, level - 1), Default(sha, level - 1))
  }

  lemma {:induction false} NodeBeyond(sha: Hash, values: seq<Commitment>, level: nat, i: nat)
    requires |values| <= i * Pow2(level)
    ensures Node(sha, values, level, i) == Default(sha, level)
    decreases level
  {
    if level > 0 {
      var p := Pow2(level - 1);
      assert i * Pow2(level) == (2 * i) * p;
      assert (2 * i + 1) * p == (2 * i) * p + p;
      NodeBeyond(sha, values, level - 1, 2 * i);
      NodeBeyond(sha, values, level - 1, 2 * i + 1);
    }
  }

  /** Appending a value changes only the nodes above the new leaf. */
  lemma {:induction false} NodeAppend(sha: Hash, values: seq<Commitment>, value: Commitment, level: nat, i: nat)
    requires i != Shr(|values|, level)
    ensures Node(sha, values + [value], level, i) == Node(sha, values, level, i)
    decreases level
  {
    if level > 0 {
      NodeAppend(sha, values, value, level - 1, 2 * i);
      NodeAppend(sha, values, value, level - 1, 2 * i + 1);
    }
  }

  function Root(sha: Hash, values: seq<Commitment>): Digest {
    Node(sha, values, Depth(|values|), 0)
  }

  // ---- Membership proofs ----

  function Sibling(i: nat): nat {
    if i % 2 == 0 then i + 1 else i - 1
  }

  /** The siblings met on the way from leaf `i` to level `d`. */
  function Path(sha: Hash, values: seq<Commitment>, i: nat, d: nat): (path: seq<Digest>)
    ensures |path| == d
  {
    if d == 0 then [] else Path(sha, values, i, d - 1) + [Node(sha, values, d - 1, Sibling(Shr(i, d - 1)))]
  }

  function Combine(result: Digest, sibling: Digest, index: nat): seq<u8> {
    if index % 2 == 0 then result.bytes + sibling.bytes else sibling.bytes + result.bytes
  }

  /** The digest reached from `start` at index `i` by hashing with the siblings of `path` in turn. */
  function Fold(sha: Hash, start: Digest, i: nat, path: seq<Digest>): Digest {
    if path == [] then start
    else
      var k := |path| - 1;
      sha(Combine(Fold(sha, start, i, path[..k]), path[k], Shr(i, k)))
  }

  method ComputeDigestForPath(sha: Hash, commitment: Commitment, index: nat, path: seq<Digest>) returns (result: Digest)
    ensures result == Fold(sha, Leaf(sha, commitment), index, path)
  {
    result := sha(commitment.bytes);
    var levelIndex := index;
    for k := 0 to |path|
      invariant levelIndex == Shr(index, k)
      invariant result == Fold(sha, Leaf(sha, commitment), index, path[..k])
    {
      assert path[..k + 1][..k] == path[..k];
      var isLeftChild := levelIndex % 2 == 0;
      var bytes := if isLeftChild then result.bytes + path[k].bytes else path[k].bytes + result.bytes;
      result := sha(bytes);
      levelIndex := levelIndex / 2;
    }
    assert path[..|path|] == path;
  }

  /** Hashing a node with its sibling, in the order its index asks for, gives its parent. */
  lemma {:induction false} ParentOf(sha: Hash, values: seq<Commitment>, level: nat, s: nat)
    ensures sha(Combine(Node(sha, values, level, s), Node(sha, values, level, Sibling(s)), s)) == Node(sha, values, level + 1, s / 2)
  {
    assert s == 2 * (s / 2) + s % 2;
  }

  /** Completeness: for every depth and every leaf, folding the sibling path gives the node above that leaf. */
  lemma {:induction false} FoldComplete(sha: Hash, values: seq<Commitment>, i: nat, d: nat)
    ensures Fold(sha, Node(sha, values, 0, i), i, Path(sha, values, i, d)) == Node(sha, values, d, Shr(i, d))
  {
    if d > 0 {
      FoldComplete(sha, values, i, d - 1);
      ParentOf(sha, values, d - 1, Shr(i, d - 1));
      FoldSnoc(sha, Node(sha, values, 0, i), i, Path(sha, values, i, d - 1), Node(sha, values, d - 1, Sibling(Shr(i, d - 1))));
    }
  }

  lemma {:induction false} FoldSnoc(sha: Hash, start: Digest, i: nat, path: seq<Digest>, sibling: Digest)
    ensures Fold(sha, start, i, path + [sibling]) == sha(Combine(Fold(sha, start, i, path), sibling, Shr(i, |path|)))
  {
    assert (path + [sibling])[..|path|] == path;
  }

  /** A proof that checks out is a true one, or the prover holds a hash collision or a preimage of the padding value. */
  datatype Judgement = Member | Collision(a: seq<u8>, b: seq<u8>) | ZeroPreimage(a: seq<u8>)

  function Judge(sha: Hash, values: seq<Commitment>, d: nat, t: nat, c: Commitment, i: nat, path: seq<Digest>): Judgement
    decreases |path|
  {
    if path == [] then
      if d > 0 then
        Collision(c.bytes, Node(sha, values, d - 1, 2 * t).bytes + Node(sha, values, d - 1, 2 * t + 1).bytes)
      else if t >= |values| then ZeroPreimage(c.bytes)
      else if c == values[t] then Member
      else Collision(c.bytes, values[t].bytes)
    else
      var k := |path| - 1;
      var hashed := Combine(Fold(sha, Leaf(sha, c), i, path[..k]), path[k], Shr(i, k));
      if d == 0 then
        if t >= |values| then ZeroPreimage(hashed) else Collision(hashed, values[t].bytes)
      else
        var inTree := Node(sha, values, d - 1, 2 * t).bytes + Node(sha, values, d - 1, 2 * t + 1).bytes;
        if hashed != inTree then Collision(hashed, inTree)
        else Judge(sha, values, d - 1, 2 * t + Shr(i, k) % 2, c, i, path[..k])
  }

  ghost predicate Justified(j: Judgement, sha: Hash, values: seq<Commitment>, d: nat, position: nat, c: Commitment, path: seq<Digest>) {
    match j
    case Member => |path| == d && position < |values| && values[position] == c && path == Path(sha, values, position, d)
    case Collision(a, b) => a != b && sha(a) == sha(b)
    case ZeroPreimage(a) => sha(a) == ZERO
  }

  /** The leaf below the `t`-th node of level `d` that the low bits of `i` select. */
  function Position(t: nat, i: nat, d: nat): nat
    decreases d
  {
    if d == 0 then t else Position(2 * t + Shr(i, d - 1) % 2, i, d - 1)
  }

  lemma {:induction false} ShrPosition(t: nat, i: nat, d: nat)
    ensures Shr(Position(t, i, d), d) == t
    decreases d
  {
    if d > 0 {
      ShrPosition(2 * t + Shr(i, d - 1) % 2, i, d - 1);
    }
  }

  lemma {:induction false} PositionIsLow(t: nat, i: nat, d: nat)
    ensures Position(t, i, d) == t * Pow2(d) + Low(i, d)
    decreases d
  {
    if d > 0 {
      var bit := Shr(i, d - 1) % 2;
      PositionIsLow(2 * t + bit, i, d - 1);
      Spread(t, bit, Pow2(d - 1));
    }
  }

  lemma {:induction false} Spread(t: nat, bit: nat, p: nat)
    ensures (2 * t + bit) * p == t * (2 * p) + bit * p
  {
  }

  /** If the bytes hashed last are those of the two children in the tree, the fold below is one child and the last
      sibling is the other. */
  lemma {:induction false} SameChildren(result: Digest, sibling: Digest, index: nat, left: Digest, right: Digest)
    requires Combine(result, sibling, index) == left.bytes + right.bytes
    ensures result == if index % 2 == 0 then left else right
    ensures sibling == if index % 2 == 0 then right else left
  {
    var hashed := Combine(result, sibling, index);
    assert hashed[..32] == left.bytes && hashed[32..] == right.bytes;
  }

  lemma {:induction false} FoldSoundBelow(sha: Hash, values: seq<Commitment>, d: nat, t: nat, c: Commitment, i: nat, path: seq<Digest>)
    requires Fold(sha, Leaf(sha, c), i, path) == Node(sha, values, d, t)
    ensures Justified(Judge(sha, values, d, t, c, i, path), sha, values, d, Position(t, i, d), c, path)
    decreases |path|, 1
  {
    if path == [] {
      if d > 0 {
        assert |c.bytes| != |Node(sha, values, d - 1, 2 * t).bytes + Node(sha, values, d - 1, 2 * t + 1).bytes|;
      }
    } else {
      var k := |path| - 1;
      var result := Fold(sha, Leaf(sha, c), i, path[..k]);
      var hashed := Combine(result, path[k], Shr(i, k));
      assert |hashed| == 64;
      if d > 0 {
        var left, right := Node(sha, values, d - 1, 2 * t), Node(sha, values, d - 1, 2 * t + 1);
        if hashed == left.bytes + right.bytes {
          FoldSoundStep(sha, values, d, t, c, i, path);
        }
      }
    }
  }

  lemma {:induction false} FoldSoundStep(sha: Hash, values: seq<Commitment>, d: nat, t: nat, c: Commitment, i: nat, path: seq<Digest>)
    requires path != [] && d > 0
    requires Combine(Fold(sha, Leaf(sha, c), i, path[..|path| - 1]), path[|path| - 1], Shr(i, |path| - 1))
          == Node(sha, values, d - 1, 2 * t).bytes + Node(sha, values, d - 1, 2 * t + 1).bytes
    ensures Justified(Judge(sha, values, d, t, c, i, path), sha, values, d, Position(t, i, d), c, path)
    decreases |path|, 0
  {
    ComparedChildren(sha, values, d, t, c, i, path);
    FoldSoundBelow(sha, values, d - 1, 2 * t + Shr(i, |path| - 1) % 2, c, i, path[..|path| - 1]);
    JudgeStep(sha, values, d, t, c, i, path);
    PositionStep(Judge(sha, values, d, t, c, i, path), sha, values, d, t, c, i, path);
  }

  lemma {:induction false} ComparedChildren(sha: Hash, values: seq<Commitment>, d: nat, t: nat, c: Commitment, i: nat, path: seq<Digest>)
    requires path != [] && d > 0
    requires Combine(Fold(sha, Leaf(sha, c), i, path[..|path| - 1]), path[|path| - 1], Shr(i, |path| - 1))
          == Node(sha, values, d - 1, 2 * t).bytes + Node(sha, values, d - 1, 2 * t + 1).bytes
    ensures var k := |path| - 1;
            && Fold(sha, Leaf(sha, c), i, path[..k]) == Node(sha, values, d - 1, 2 * t + Shr(i, k) % 2)
            && path[k] == if Shr(i, k) % 2 == 0 then Node(sha, values, d - 1, 2 * t + 1) else Node(sha, values, d - 1, 2 * t)
  {
    var k := |path| - 1;
    SameChildren(Fold(sha, Leaf(sha, c), i, path[..k]), path[k], Shr(i, k),
                 Node(sha, values, d - 1, 2 * t), Node(sha, values, d - 1, 2 * t + 1));
  }

  lemma {:induction false} JudgeStep(sha: Hash, values: seq<Commitment>, d: nat, t: nat, c: Commitment, i: nat, path: seq<Digest>)
    requires path != [] && d > 0
    requires Combine(Fold(sha, Leaf(sha, c), i, path[..|path| - 1]), path[|path| - 1], Shr(i, |path| - 1))
          == Node(sha, values, d - 1, 2 * t).bytes + Node(sha, values, d - 1, 2 * t + 1).bytes
    ensures Judge(sha, values, d, t, c, i, path)
         == Judge(sha, values, d - 1, 2 * t + Shr(i, |path| - 1) % 2, c, i, path[..|path| - 1])
  {
  }

  /** The true path to the lower node, extended by the sibling just compared, is the true path to the upper node. */
  lemma {:induction false} PositionStep(j: Judgement, sha: Hash, values: seq<Commitment>, d: nat, t: nat, c: Commitment, i: nat, path: seq<Digest>)
    requires path != [] && d > 0
    requires var k := |path| - 1;
             && Justified(j, sha, values, d - 1, Position(2 * t + Shr(i, k) % 2, i, d - 1), c, path[..k])
             && path[k] == if Shr(i, k) % 2 == 0 then Node(sha, values, d - 1, 2 * t + 1) else Node(sha, values, d - 1, 2 * t)
    ensures Justified(j, sha, values, d, Position(t, i, d), c, path)
  {
    if j.Member? {
      var bit := Shr(i, d - 1) % 2;
      ShrPosition(2 * t + bit, i, d - 1);
      assert Sibling(2 * t + bit) == if bit == 0 then 2 * t + 1 else 2 * t;
      assert path == path[..d - 1] + [path[d - 1]];
    }
  }

  /** Soundness, for a path of any length: a proof that folds to the root shows that the leaf at the index (modulo the
      number of leaf positions) is that commitment and that the path is the true sibling path, unless the bytes that
      `Judge` extracts from it are a collision or a preimage of the padding value. */
  lemma {:induction false} FoldSound(sha: Hash, values: seq<Commitment>, c: Commitment, i: nat, path: seq<Digest>)
    requires Fold(sha, Leaf(sha, c), i, path) == Root(sha, values)
    ensures var d := Depth(|values|);
            match Judge(sha, values, d, 0, c, i, path)
            case Member =>
              var position := i % Pow2(d);
              && position < |values| && values[position] == c
              && path == Path(sha, values, position, d)
            case Collision(a, b) => a != b && sha(a) == sha(b)
            case ZeroPreimage(a) => sha(a) == ZERO
  {
    var d := Depth(|values|);
    FoldSoundBelow(sha, values, d, 0, c, i, path);
    PositionIsLow(0, i, d);
    LowIsMod(i, d);
  }
}
