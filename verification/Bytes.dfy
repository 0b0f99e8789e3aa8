/** Little-endian byte layouts. */
module Bytes {
  import opened Types

  function Pow256(k: nat): (p: nat)
    ensures p >= 1
  {
    if k == 0 then 1 else 256 * Pow256(k - 1)
  }

  function ToLe(n: nat, width: nat): (bs: seq<u8>)
    ensures |bs| == width
  {
    if width == 0 then [] else [n % 256] + ToLe(n / 256, width - 1)
  }

  function FromLe(bs: seq<u8>): (n: nat)
    ensures n < Pow256(|bs|)
  {
    if bs == [] then 0 else bs[0] + 256 * FromLe(bs[1..])
  }

  lemma {:induction false} FromLeToLe(n: nat, width: nat)
    requires n < Pow256(width)
    ensures FromLe(ToLe(n, width)) == n
  {
    if width > 0 {
      FromLeToLe(n / 256, width - 1);
      assert ToLe(n, width)[1..] == ToLe(n / 256, width - 1);
    }
  }

  lemma {:induction false} ToLeFromLe(bs: seq<u8>)
    ensures ToLe(FromLe(bs), |bs|) == bs
  {
    if bs != [] {
      ToLeFromLe(bs[1..]);
      assert FromLe(bs) % 256 == bs[0] && FromLe(bs) / 256 == FromLe(bs[1..]);
    }
  }

  /** The bytes are the base-256 digits, the lowest first. */
  lemma {:induction false} ToLeAt(n: nat, width: nat, i: nat)
    requires i < width
    ensures ToLe(n, width)[i] == n / Pow256(i) % 256
  {
    if i > 0 {
      ToLeAt(n / 256, width - 1, i - 1);
      DivideTwice(n, Pow256(i - 1));
    }
  }

  lemma {:induction false} DivideTwice(n: nat, p: nat)
    requires p > 0
    ensures n / 256 / p == n / (256 * p)
  {
    var a, m := n / 256, 256 * p;
    var q, c := a / p, a % p;
    var r := 256 * c + n % 256;
    assert r < m;
    assert n == q * m + r by {
      Regroup(n, a, q, p, c);
    }
    QuotientIs(n, m, q, r);
  }

  lemma {:induction false} Regroup(n: nat, a: nat, q: nat, p: nat, c: nat)
    requires a == n / 256 && a == q * p + c
    ensures n == q * (256 * p) + (256 * c + n % 256)
  {
    assert 256 * (q * p) == q * (256 * p);
  }

  lemma {:induction false} QuotientIs(n: nat, m: nat, q: nat, r: nat)
    requires n == q * m + r && r < m
    ensures n / m == q
  {
    QuotientUnique(n / m, q, m, n % m, r);
  }

  lemma {:induction false} QuotientUnique(d: nat, q: nat, p: nat, s: nat, r: nat)
    requires d * p + s == q * p + r && s < p && r < p
    ensures d == q
  {
    if d < q {
      Scaled(d + 1, q, p);
    } else if q < d {
      Scaled(q + 1, d, p);
    }
  }

  lemma {:induction false} Scaled(a: nat, b: nat, p: nat)
    requires a <= b
    ensures a * p <= b * p
  {
  }

  /** Four, eight and sixteen bytes hold exactly the 32-bit, 64-bit and 128-bit integers. */
  lemma Widths()
    ensures Pow256(4) == 0x1_0000_0000
    ensures Pow256(8) == TWO_64
    ensures Pow256(16) == TWO_128
  {
    assert Pow256(4) == 0x1_0000_0000;
    assert Pow256(8) == 0x1_0000_0000 * Pow256(4);
    assert Pow256(12) == 0x1_0000_0000 * Pow256(8);
    assert Pow256(16) == 0x1_0000_0000 * Pow256(12);
  }

  function LeU32(n: u32): (bs: seq<u8>)
    ensures |bs| == 4
  {
    ToLe(n, 4)
  }

  function LeU128(n: u128): (bs: seq<u8>)
    ensures |bs| == 16
  {
    ToLe(n, 16)
  }

  /** The words of a program id, each as four little-endian bytes. */
  function WordBytes(words: seq<u32>): (bs: seq<u8>)
    ensures |bs| == 4 * |words|
  {
    if words == [] then [] else WordBytes(words[..|words| - 1]) + LeU32(words[|words| - 1])
  }

  lemma {:induction false} WordBytesPrefix(words: seq<u32>, i: nat)
    requires i < |words|
    ensures WordBytes(words[..i + 1]) == WordBytes(words[..i]) + LeU32(words[i])
  {
    assert words[..i + 1][..i] == words[..i];
  }

  lemma {:induction false} WordBytesAt(words: seq<u32>, i: nat, j: nat)
    requires i < |words| && j < 4
    ensures WordBytes(words)[4 * i + j] == words[i] / Pow256(j) % 256
  {
    var k := |words| - 1;
    if i == k {
      ToLeAt(words[k], 4, j);
    } else {
      WordBytesAt(words[..k], i, j);
    }
  }

  lemma {:induction false} WordBytesInjective(a: seq<u32>, b: seq<u32>)
    requires WordBytes(a) == WordBytes(b)
    ensures a == b
  {
    assert |a| == |b|;
    if a != [] {
      var i := |a| - 1;
      assert WordBytes(a)[..4 * i] == WordBytes(a[..i]);
      assert WordBytes(b)[..4 * i] == WordBytes(b[..i]);
      WordBytesInjective(a[..i], b[..i]);
      assert WordBytes(a)[4 * i..] == LeU32(a[i]);
      assert WordBytes(b)[4 * i..] == LeU32(b[i]);
      Widths();
      FromLeToLe(a[i], 4);
      FromLeToLe(b[i], 4);
      assert a == a[..i] + [a[i]] && b == b[..i] + [b[i]];
    }
  }
}

/** Account identifiers that are hashes: public PDAs and the accounts of signing keys. */
module Identity {
  import opened Types
  import opened Bytes

  // "/NSSA/v0.2/AccountId/PDA/" followed by seven zero bytes.
  const PDA_PREFIX: Bytes32 :=
    [47, 78, 83, 83, 65, 47, 118, 48, 46, 50, 47, 65, 99, 99, 111, 117, 110, 116, 73, 100, 47, 80, 68, 65, 47,
     0, 0, 0, 0, 0, 0, 0]

  // "/LEE/v0.3/AccountId/Public/" followed by five zero bytes.
  const PUBLIC_PREFIX: Bytes32 :=
    [47, 76, 69, 69, 47, 118, 48, 46, 51, 47, 65, 99, 99, 111, 117, 110, 116, 73, 100, 47, 80, 117, 98, 108, 105, 99, 47,
     0, 0, 0, 0, 0]

  function PdaPreimage(program: ProgramId, seed: PdaSeed): (bs: seq<u8>)
    ensures |bs| == 96
  {
    PDA_PREFIX + WordBytes(program.words) + seed.bytes
  }

  /** The public account a program derives from a seed. */
  function PublicPda(w: World, program: ProgramId, seed: PdaSeed): AccountId {
    AccountId(w.sha(PdaPreimage(program, seed)).bytes)
  }

  /** The account of a signing key. */
  function SignerId(w: World, key: PublicKey): AccountId {
    AccountId(w.sha(PUBLIC_PREFIX + key.bytes).bytes)
  }

  /** The derivation input: the prefix, the program id as little-endian words, the seed. */
  lemma {:induction false} PdaLayout(program: ProgramId, seed: PdaSeed)
    ensures var bs := PdaPreimage(program, seed);
            && bs[..32] == PDA_PREFIX && bs[64..] == seed.bytes
            && forall i, j :: 0 <= i < 8 && 0 <= j < 4 ==> bs[32 + 4 * i..64][j] == program.words[i] / Pow256(j) % 256
  {
    var bs := PdaPreimage(program, seed);
    assert bs[..32] == PDA_PREFIX && bs[64..] == seed.bytes;
    assert bs[32..64] == WordBytes(program.words);
    forall i, j | 0 <= i < 8 && 0 <= j < 4
      ensures bs[32 + 4 * i..64][j] == program.words[i] / Pow256(j) % 256
    {
      WordBytesAt(program.words, i, j);
      assert bs[32 + 4 * i..64][j] == bs[32..64][4 * i + j];
    }
  }

  /** Programs have disjoint account namespaces: if two programs, or two seeds, share a derived account,
      the two derivation inputs are a SHA-256 collision. */
  lemma PdaNamespaces(w: World, p: ProgramId, s: PdaSeed, q: ProgramId, t: PdaSeed)
    requires PublicPda(w, p, s) == PublicPda(w, q, t)
    ensures (p == q && s == t)
         || (PdaPreimage(p, s) != PdaPreimage(q, t) && w.sha(PdaPreimage(p, s)) == w.sha(PdaPreimage(q, t)))
  {
    var a, b := PdaPreimage(p, s), PdaPreimage(q, t);
    if a == b {
      assert a[32..64] == WordBytes(p.words) && b[32..64] == WordBytes(q.words);
      assert a[64..] == s.bytes && b[64..] == t.bytes;
      WordBytesInjective(p.words, q.words);
    }
  }
}
