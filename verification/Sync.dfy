/** The wallet's block synchronization: a chunked poll of a block range, resumed from the last applied block. */
module Sync {
  import opened Types
  import opened Blocks

  const U64_MAX: u64 := TWO_64 - 1

  function SaturatingAdd(a: u64, b: u64): u64 {
    if a + b > U64_MAX then U64_MAX else a + b
  }

  function SaturatingSub(a: u64, b: u64): u64 {
    if a < b then 0 else a - b
  }

  // ---- Chunks of a range ----

  /** The last block of the chunk that starts at `start`. */
  function ChunkEnd(start: u64, end: u64, amount: u64): u64 {
    var last := SaturatingSub(SaturatingAdd(start, amount), 1);
    if last < end then last else end
  }

  function NextStart(start: u64, end: u64, amount: u64): u64 {
    SaturatingAdd(ChunkEnd(start, end, amount), 1)
  }

  /** The polling loop ends after at most `n` chunks. */
  ghost predicate EndsWithin(start: u64, end: u64, amount: u64, n: nat)
    decreases n
  {
    n > 0 && (NextStart(start, end, amount) > end || EndsWithin(NextStart(start, end, amount), end, amount, n - 1))
  }

  ghost predicate Ends(start: u64, end: u64, amount: u64) {
    exists n: nat :: EndsWithin(start, end, amount, n)
  }

  lemma {:induction false} NeverEndsAtMax(start: u64, amount: u64, n: nat)
    ensures !EndsWithin(start, U64_MAX, amount, n)
    decreases n
  {
    if n > 0 {
      NeverEndsAtMax(NextStart(start, U64_MAX, amount), amount, n - 1);
    }
  }

  lemma {:induction false} NeverEndsWithoutProgress(start: u64, end: u64, n: nat)
    requires start <= end && 1 <= end < U64_MAX
    ensures !EndsWithin(start, end, 0, n)
    decreases n
  {
    if n > 0 {
      NeverEndsWithoutProgress(NextStart(start, end, 0), end, n - 1);
    }
  }

  lemma {:induction false} EndsWithProgress(start: u64, end: u64, amount: u64)
    requires start <= end < U64_MAX && amount >= 1
    ensures EndsWithin(start, end, amount, end - start + 1)
    decreases end - start
  {
    var next := NextStart(start, end, amount);
    if next <= end {
      EndsWithProgress(next, end, amount);
      EndsLater(next, end, amount, end - next + 1, end - start);
    }
  }

  lemma {:induction false} EndsLater(start: u64, end: u64, amount: u64, n: nat, m: nat)
    requires n <= m && EndsWithin(start, end, amount, n)
    ensures EndsWithin(start, end, amount, m)
    decreases n
  {
    if NextStart(start, end, amount) <= end {
      EndsLater(NextStart(start, end, amount), end, amount, n - 1, m - 1);
    }
  }

  /** Exactly when the polling loop ends: the range must stop short of the largest block id, and the chunk size must be
      positive unless the range is empty or is block 0 alone. */
  lemma {:induction false} PollingEndsIff(start: u64, end: u64, amount: u64)
    ensures Ends(start, end, amount)
       <==> end < U64_MAX && (amount >= 1 || start > end || end == 0)
  {
    if end == U64_MAX {
      forall n: nat
        ensures !EndsWithin(start, end, amount, n)
      {
        NeverEndsAtMax(start, amount, n);
      }
    } else if start > end || end == 0 {
      assert ChunkEnd(start, end, amount) == end;
      assert EndsWithin(start, end, amount, 1);
    } else if amount == 0 {
      forall n: nat
        ensures !EndsWithin(start, end, amount, n)
      {
        NeverEndsWithoutProgress(start, end, n);
      }
    } else {
      var n: nat := end - start + 1;
      assert EndsWithin(start, end, amount, n) by {
        EndsWithProgress(start, end, amount);
      }
      assert Ends(start, end, amount);
    }
  }

  /** The ids from `a` to `b`, in order. */
  function Ids(a: nat, b: nat): seq<nat>
    decreases b + 1 - a
  {
    if a > b then [] else [a] + Ids(a + 1, b)
  }

  function Chunks(start: u64, end: u64, amount: u64): seq<(u64, u64)>
    requires amount >= 1 && end < U64_MAX
    decreases end - start
  {
    var next := NextStart(start, end, amount);
    [(start, ChunkEnd(start, end, amount))] + if next > end then [] else Chunks(next, end, amount)
  }

  lemma {:induction false} ChunksStep(start: u64, end: u64, amount: u64)
    requires amount >= 1 && start <= end < U64_MAX
    ensures start <= ChunkEnd(start, end, amount) <= end
    ensures var next := NextStart(start, end, amount);
            |Chunks(start, end, amount)| == 1 + if next > end then 0 else |Chunks(next, end, amount)|
  {
  }

  function Covered(chunks: seq<(u64, u64)>): seq<nat> {
    if chunks == [] then [] else Ids(chunks[0].0, chunks[0].1) + Covered(chunks[1..])
  }

  function SizeOf(chunk: (u64, u64)): int {
    (chunk.1 as int) - (chunk.0 as int) + 1
  }

  lemma {:induction false} IdsSplit(a: nat, b: nat, c: nat)
    requires a <= b + 1 && b <= c
    ensures Ids(a, c) == Ids(a, b) + Ids(b + 1, c)
    decreases b + 1 - a
  {
    if a <= b {
      IdsSplit(a + 1, b, c);
    }
  }

  /** The chunks partition the range in order; all but the last ask for exactly `amount` blocks, the last for no more. */
  lemma {:induction false} ChunksPartition(start: u64, end: u64, amount: u64)
    requires amount >= 1 && end < U64_MAX
    ensures Covered(Chunks(start, end, amount)) == Ids(start, end)
    ensures forall i :: 0 <= i < |Chunks(start, end, amount)| ==>
              && SizeOf(Chunks(start, end, amount)[i]) <= amount
              && (i < |Chunks(start, end, amount)| - 1 ==> SizeOf(Chunks(start, end, amount)[i]) == amount)
    decreases end - start
  {
    var last, next := ChunkEnd(start, end, amount), NextStart(start, end, amount);
    var chunks := Chunks(start, end, amount);
    assert chunks[0] == (start, last);
    if next > end {
      assert chunks[1..] == [];
      assert Covered(chunks[1..]) == [];
    } else {
      ChunksPartition(next, end, amount);
      assert chunks[1..] == Chunks(next, end, amount);
      IdsSplit(start, last, end);
    }
  }

  // ---- Synchronization ----

  type Chain = u64 -> Block

  /** The blocks of a chain after block `a` up to block `b`, in order. */
  function Since(chain: Chain, a: nat, b: nat): (r: seq<Block>)
    requires b <= U64_MAX
    ensures |r| == if a < b then b - a else 0
    ensures forall i :: 0 <= i < |r| ==> r[i] == chain(a + 1 + i)
    decreases b
  {
    if b <= a then [] else Since(chain, a, b - 1) + [chain(b)]
  }

  lemma {:induction false} SinceJoin(chain: Chain, a: nat, b: nat, c: nat)
    requires a <= b <= c <= U64_MAX
    ensures Since(chain, a, b) + Since(chain, b, c) == Since(chain, a, c)
  {
    if b == c {
      assert Since(chain, a, b) + [] == Since(chain, a, b);
    } else {
      SinceJoin(chain, a, b, c - 1);
      assert Since(chain, a, b) + Since(chain, b, c) == Since(chain, a, b) + Since(chain, b, c - 1) + [chain(c)];
    }
  }

  /** A server that, if it answers at all, answers with the requested blocks in order. Which request it fails is up to it. */
  ghost predicate Serves(fetch: (nat, u64, u64) -> Option<seq<Block>>, chain: Chain) {
    && (forall n: nat, a: u64, b: u64 :: a >= 1 && fetch(n, a, b).Some? ==> fetch(n, a, b).value == Since(chain, a - 1, b))
    && (forall id: u64 :: chain(id).blockId == id)
  }

  datatype SyncState = SyncState(lastSynced: u64, applied: seq<Block>)

  /** Exactly the blocks after the last synced one up to the new one were applied, in order. */
  ghost predicate Extends(chain: Chain, before: SyncState, after: SyncState) {
    && before.lastSynced <= after.lastSynced
    && after.applied == before.applied + Since(chain, before.lastSynced, after.lastSynced)
  }

  /** What a call did: it extended the wallet, not beyond its target, and to its target if it succeeded. */
  ghost predicate Advanced(chain: Chain, before: SyncState, after: SyncState, target: u64, ok: bool) {
    && Extends(chain, before, after)
    && (after.lastSynced <= target || after == before)
    && (ok ==> target <= after.lastSynced)
  }

  lemma {:induction false} AppendAssociative(a: seq<Block>, b: seq<Block>, c: seq<Block>)
    ensures a + b + c == a + (b + c)
  {
  }

  lemma {:induction false} ExtendsTransitive(chain: Chain, a: SyncState, b: SyncState, c: SyncState)
    requires Extends(chain, a, b) && Extends(chain, b, c)
    ensures Extends(chain, a, c)
  {
    var first, second := Since(chain, a.lastSynced, b.lastSynced), Since(chain, b.lastSynced, c.lastSynced);
    SinceJoin(chain, a.lastSynced, b.lastSynced, c.lastSynced);
    AppendAssociative(a.applied, first, second);
  }

  /** Over any sequence of calls, failing wherever they fail, every block after the first state's is applied exactly
      once, in order, up to the last recorded one; and no successful call's target is missed. */
  lemma {:induction false} ExactlyOnce(chain: Chain, states: seq<SyncState>, targets: seq<u64>, oks: seq<bool>)
    requires |states| == |targets| + 1 == |oks| + 1
    requires forall k :: 0 <= k < |targets| ==> Advanced(chain, states[k], states[k + 1], targets[k], oks[k])
    ensures Extends(chain, states[0], states[|targets|])
    ensures forall k :: 0 <= k < |targets| && oks[k] ==> targets[k] <= states[|targets|].lastSynced
  {
    if targets == [] {
      assert Since(chain, states[0].lastSynced, states[0].lastSynced) == [];
    } else {
      var n := |targets| - 1;
      ExactlyOnce(chain, states[..n + 1], targets[..n], oks[..n]);
      assert Advanced(chain, states[n], states[n + 1], targets[n], oks[n]);
      ExtendsTransitive(chain, states[0], states[n], states[n + 1]);
    }
  }

  class Wallet {
    var lastSynced: u64
    var applied: seq<Block>
    var requests: nat

    ghost function State(): SyncState
      reads this
    {
      SyncState(lastSynced, applied)
    }

    constructor ()
      ensures State() == SyncState(0, [])
    {
      lastSynced := 0;
      applied := [];
      requests := 0;
    }

    /** Applies the blocks of a chunk, recording each as synced; stops after the first block that could not be persisted,
        and only then. */
    method ApplyChunk(ghost chain: Chain, blocks: seq<Block>, persists: u64 -> bool) returns (ok: bool)
      requires forall id: u64 :: chain(id).blockId == id
      requires lastSynced + |blocks| <= U64_MAX
      requires blocks == Since(chain, lastSynced, lastSynced + |blocks|)
      modifies this`lastSynced, this`applied
      ensures Extends(chain, old(State()), State())
      ensures lastSynced <= old(lastSynced) + |blocks|
      ensures ok ==> lastSynced == old(lastSynced) + |blocks|
      ensures !ok ==> old(lastSynced) < lastSynced && !persists(lastSynced)
      ensures forall id: u64 :: old(lastSynced) < id < lastSynced || (ok && old(lastSynced) < id <= lastSynced) ==> persists(id)
    {
      for i := 0 to |blocks|
        invariant lastSynced == old(lastSynced) + i
        invariant forall id: u64 :: old(lastSynced) < id <= lastSynced ==> persists(id)
        invariant applied == old(applied) + Since(chain, old(lastSynced), lastSynced)
      {
        applied := applied + [blocks[i]];
        lastSynced := blocks[i].blockId;
        if !persists(lastSynced) {
          return false;
        }
      }
      ok := true;
    }

    /** Requests one chunk and applies it. */
    method SyncChunk(ghost chain: Chain, fetch: (nat, u64, u64) -> Option<seq<Block>>, persists: u64 -> bool,
                     chunkStart: u64, chunkEnd: u64) returns (ok: bool)
      requires Serves(fetch, chain) && chunkStart == lastSynced + 1 <= chunkEnd
      modifies this
      ensures Extends(chain, old(State()), State()) && requests == old(requests) + 1 && lastSynced <= chunkEnd
      ensures ok ==> lastSynced == chunkEnd
      ensures !ok ==>
                || (old(lastSynced) < lastSynced && !persists(lastSynced))
                || (State() == old(State()) && fetch(old(requests), chunkStart, chunkEnd).None?)
    {
      assert Since(chain, lastSynced, lastSynced) == [];
      var blocks := fetch(requests, chunkStart, chunkEnd);
      requests := requests + 1;
      if blocks.None? {
        return false;
      }
      ok := ApplyChunk(chain, blocks.value, persists);
    }

    /** Brings the wallet up to a block, one request per chunk. It fails only at a block that could not be persisted, the last
        one applied, or at a request that was not answered, the one for the chunk after the last block applied. Wherever it
        fails, what it applied is what it recorded, so that calling it again resumes without loss or repetition. */
    method SyncToBlock(ghost chain: Chain, fetch: (nat, u64, u64) -> Option<seq<Block>>, persists: u64 -> bool,
                       target: u64, amount: u64) returns (ok: bool)
      requires Serves(fetch, chain)
      requires lastSynced < target ==> amount >= 1 && target < U64_MAX
      modifies this
      ensures Advanced(chain, old(State()), State(), target, ok)
      ensures old(lastSynced) >= target ==> ok && requests == old(requests)
      ensures old(lastSynced) < target && ok ==> requests == old(requests) + |Chunks(old(lastSynced) + 1, target, amount)|
      ensures !ok ==>
                && requests > old(requests)
                && (|| (old(lastSynced) < lastSynced && !persists(lastSynced))
                    || (lastSynced < target
                        && fetch(requests - 1, lastSynced + 1, ChunkEnd(lastSynced + 1, target, amount)).None?))
    {
      assert Since(chain, lastSynced, lastSynced) == [];
      if lastSynced >= target {
        return true;
      }
      var chunkStart := SaturatingAdd(lastSynced, 1);
      while true
        invariant Extends(chain, old(State()), State())
        invariant chunkStart == lastSynced + 1 <= target
        invariant old(lastSynced) <= lastSynced && old(requests) <= requests
        invariant requests + |Chunks(chunkStart, target, amount)| == old(requests) + |Chunks(old(lastSynced) + 1, target, amount)|
        decreases target - chunkStart
      {
        var chunkEnd := ChunkEnd(chunkStart, target, amount);
        ghost var reached := State();
        ChunksStep(chunkStart, target, amount);
        var done := SyncChunk(chain, fetch, persists, chunkStart, chunkEnd);
        ExtendsTransitive(chain, old(State()), reached, State());
        if !done {
          return false;
        }
        chunkStart := SaturatingAdd(chunkEnd, 1);
        if chunkStart > target {
          break;
        }
      }
      ok := true;
    }
  }
}
