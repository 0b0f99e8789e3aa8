/** The initial state. */
module Genesis {
  import opened Types
  import opened Bytes
  import opened Identity
  import opened Ledgers
  import opened Merkle
  import opened Transactions

  /** The commitment to the all-zero account. */
  const DUMMY_COMMITMENT: Commitment :=
    Commitment([55, 228, 215, 207, 112, 221, 239, 49, 238, 79, 71, 135, 155, 15, 184, 45, 104, 74, 51, 211,
                238, 42, 160, 243, 15, 124, 253, 62, 3, 229, 90, 27])

  // "/LEZ/v0.3/FaucetSeed/0000000000/"
  const FAUCET_SEED: PdaSeed :=
    PdaSeed([47, 76, 69, 90, 47, 118, 48, 46, 51, 47, 70, 97, 117, 99, 101, 116, 83, 101, 101, 100, 47,
             48, 48, 48, 48, 48, 48, 48, 48, 48, 48, 47])

  // "/LEZ/ClockProgramAccount/" followed by seven decimal digits.
  const CLOCK_PREFIX: seq<u8> :=
    [47, 76, 69, 90, 47, 67, 108, 111, 99, 107, 80, 114, 111, 103, 114, 97, 109, 65, 99, 99, 111, 117, 110, 116, 47]

  const CLOCK_01: AccountId := AccountId(CLOCK_PREFIX + [48, 48, 48, 48, 48, 48, 49])
  const CLOCK_10: AccountId := AccountId(CLOCK_PREFIX + [48, 48, 48, 48, 48, 49, 48])
  const CLOCK_50: AccountId := AccountId(CLOCK_PREFIX + [48, 48, 48, 48, 48, 53, 48])

  const CLOCK_ACCOUNT_IDS: seq<AccountId> := [CLOCK_01, CLOCK_10, CLOCK_50]

  function FaucetId(w: World): AccountId {
    PublicPda(w, w.faucetProgram.id, FAUCET_SEED)
  }

  function ClockData(blockId: u64, timestamp: u64): Data {
    ToLe(blockId, 8) + ToLe(timestamp, 8)
  }

  function FundedAccounts(w: World, initial: seq<(AccountId, u128)>): map<AccountId, Account> {
    if initial == [] then map[]
    else
      var k := |initial| - 1;
      FundedAccounts(w, initial[..k])[initial[k].0 := Account(w.transferProgram.id, initial[k].1, [], 0)]
  }

  function InsertPrograms(programs: map<ProgramId, Program>, added: seq<Program>): map<ProgramId, Program> {
    if added == [] then programs
    else
      var k := |added| - 1;
      InsertPrograms(programs, added[..k])[added[k].id := added[k]]
  }

  function GenesisAccounts(w: World, initial: seq<(AccountId, u128)>, timestamp: u64): map<AccountId, Account> {
    var clock := Account(w.clockProgram.id, 0, ClockData(0, timestamp), 0);
    FundedAccounts(w, initial)
      [FaucetId(w) := Account(w.transferProgram.id, TWO_128 - 1, [], 0)]
      [CLOCK_01 := clock][CLOCK_10 := clock][CLOCK_50 := clock]
  }

  /** The state at genesis: funded accounts, the faucet, the clocks, the built-in programs, and the dummy commitment
      followed by the initial private accounts. */
  function GenesisState(w: World, initial: seq<(AccountId, u128)>, privateAccounts: seq<(Commitment, Nullifier)>, timestamp: u64): State {
    var commitments := Firsts(privateAccounts);
    var leaves := [DUMMY_COMMITMENT] + commitments;
    State(
      Ledger(
        GenesisAccounts(w, initial, timestamp),
        InsertPrograms(map[], [w.clockProgram, w.transferProgram] + w.otherPrograms + [w.faucetProgram]),
        Indexed(Indexed(map[], 0, [DUMMY_COMMITMENT]), 1, commitments),
        {Root(w.sha, [DUMMY_COMMITMENT]), Root(w.sha, leaves)},
        set p | p in privateAccounts :: p.1),
      leaves)
  }

  lemma {:induction false} FundedAt(w: World, initial: seq<(AccountId, u128)>, id: AccountId)
    ensures id in FundedAccounts(w, initial) <==> exists i :: 0 <= i < |initial| && initial[i].0 == id
    ensures forall i :: 0 <= i < |initial| && initial[i].0 == id && (forall j :: i < j < |initial| ==> initial[j].0 != id) ==>
              FundedAccounts(w, initial)[id] == Account(w.transferProgram.id, initial[i].1, [], 0)
  {
    if initial != [] {
      var k := |initial| - 1;
      FundedAt(w, initial[..k], id);
      assert forall i :: 0 <= i < k ==> initial[..k][i] == initial[i];
      if initial[k].0 != id && id in FundedAccounts(w, initial[..k]) {
        var i :| 0 <= i < k && initial[..k][i].0 == id;
        assert initial[i].0 == id;
      }
    }
  }

  lemma {:induction false} InsertedAt(programs: map<ProgramId, Program>, added: seq<Program>, id: ProgramId)
    ensures id in InsertPrograms(programs, added) <==> id in programs || exists i :: 0 <= i < |added| && added[i].id == id
    ensures forall i :: 0 <= i < |added| && added[i].id == id && (forall j :: i < j < |added| ==> added[j].id != id) ==>
              InsertPrograms(programs, added)[id] == added[i]
  {
    if added != [] {
      var k := |added| - 1;
      InsertedAt(programs, added[..k], id);
      assert forall i :: 0 <= i < k ==> added[..k][i] == added[i];
      if added[k].id != id && id in InsertPrograms(programs, added[..k]) && id !in programs {
        var i :| 0 <= i < k && added[..k][i].id == id;
        assert added[i].id == id;
      }
    }
  }

  /** Genesis deploys the clock, the transfer, the other and the faucet programs, a later one in place of an earlier one
      with the same id, and no others. */
  lemma {:induction false} GenesisPrograms(w: World, initial: seq<(AccountId, u128)>, privateAccounts: seq<(Commitment, Nullifier)>, timestamp: u64, id: ProgramId)
    ensures var programs := GenesisState(w, initial, privateAccounts, timestamp).ledger.programs;
            var list := [w.clockProgram, w.transferProgram] + w.otherPrograms + [w.faucetProgram];
            && (id in programs <==> exists i :: 0 <= i < |list| && list[i].id == id)
            && forall i :: 0 <= i < |list| && list[i].id == id && (forall j :: i < j < |list| ==> list[j].id != id) ==> programs[id] == list[i]
  {
    InsertedAt(map[], [w.clockProgram, w.transferProgram] + w.otherPrograms + [w.faucetProgram], id);
  }

  /** Genesis funds every listed account with its last listed balance under the transfer program, gives the faucet the
      largest balance, has no account besides those and the clocks, and has spent exactly the listed nullifiers. */
  lemma {:induction false} GenesisHoldings(w: World, initial: seq<(AccountId, u128)>, privateAccounts: seq<(Commitment, Nullifier)>, timestamp: u64, id: AccountId)
    ensures var s := GenesisState(w, initial, privateAccounts, timestamp);
            && (id !in CLOCK_ACCOUNT_IDS && id == FaucetId(w) ==>
                  AccountOf(s.ledger.accounts, id) == Account(w.transferProgram.id, TWO_128 - 1, [], 0))
            && (id !in CLOCK_ACCOUNT_IDS && id != FaucetId(w) ==>
                  && (id in s.ledger.accounts <==> exists i :: 0 <= i < |initial| && initial[i].0 == id)
                  && forall i :: 0 <= i < |initial| && initial[i].0 == id && (forall j :: i < j < |initial| ==> initial[j].0 != id) ==>
                       AccountOf(s.ledger.accounts, id) == Account(w.transferProgram.id, initial[i].1, [], 0))
            && (forall n :: n in s.ledger.nullifiers <==> exists i :: 0 <= i < |privateAccounts| && privateAccounts[i].1 == n)
            && s.leaves == [DUMMY_COMMITMENT] + Firsts(privateAccounts)
  {
    FundedAt(w, initial, id);
    var s := GenesisState(w, initial, privateAccounts, timestamp);
    assert CLOCK_ACCOUNT_IDS[0] == CLOCK_01 && CLOCK_ACCOUNT_IDS[1] == CLOCK_10 && CLOCK_ACCOUNT_IDS[2] == CLOCK_50;
    forall n
      ensures n in s.ledger.nullifiers <==> exists i :: 0 <= i < |privateAccounts| && privateAccounts[i].1 == n
    {
      if n in s.ledger.nullifiers {
        var p :| p in privateAccounts && p.1 == n;
        var i :| 0 <= i < |privateAccounts| && privateAccounts[i] == p;
        assert privateAccounts[i].1 == n;
      }
    }
  }
}

/** The commitment set over runs: the index is the inverse of the log, and the root history recognizes exactly the
    proofs of logged commitments. */
module Commitments {
  import opened Types
  import opened Ledgers
  import opened Executor
  import opened Merkle
  import opened Transactions
  import opened Runs
  import opened Genesis

  /** `index` maps each leaf to its position and nothing else. */
  ghost predicate Inverse(index: map<Commitment, nat>, leaves: seq<Commitment>) {
    && (forall i :: 0 <= i < |leaves| ==> leaves[i] in index && index[leaves[i]] == i)
    && (forall c :: c in index ==> index[c] < |leaves| && leaves[index[c]] == c)
  }

  lemma {:induction false} IndexedAt(index: map<Commitment, nat>, start: nat, commitments: seq<Commitment>)
    requires Distinct(commitments)
    ensures forall k :: 0 <= k < |commitments| ==>
              commitments[k] in Indexed(index, start, commitments) && Indexed(index, start, commitments)[commitments[k]] == start + k
    ensures forall c :: c !in commitments ==>
              && (c in Indexed(index, start, commitments) <==> c in index)
              && (c in index ==> Indexed(index, start, commitments)[c] == index[c])
  {
    if commitments != [] {
      var n := |commitments| - 1;
      var front := commitments[..n];
      assert forall k :: 0 <= k < n ==> front[k] == commitments[k];
      IndexedAt(index, start, front);
    }
  }

  lemma {:induction false} InverseIsDistinct(index: map<Commitment, nat>, leaves: seq<Commitment>)
    requires Inverse(index, leaves)
    ensures Distinct(leaves)
  {
  }

  /** Inserting commitments keeps the index an inverse of the log exactly when all logged commitments stay different. */
  lemma {:induction false} ExtendInverse(index: map<Commitment, nat>, leaves: seq<Commitment>, commitments: seq<Commitment>)
    requires Inverse(index, leaves)
    ensures Inverse(Indexed(index, |leaves|, commitments), leaves + commitments) <==> Distinct(leaves + commitments)
  {
    var all, index' := leaves + commitments, Indexed(index, |leaves|, commitments);
    if Distinct(all) {
      assert forall k :: 0 <= k < |commitments| ==> commitments[k] == all[|leaves| + k];
      assert forall k :: 0 <= k < |leaves| ==> leaves[k] == all[k];
      IndexedAt(index, |leaves|, commitments);
      forall c | c in index'
        ensures index'[c] < |all| && all[index'[c]] == c
      {
        if c in commitments {
          var k :| 0 <= k < |commitments| && commitments[k] == c;
        }
      }
      forall i | 0 <= i < |all|
        ensures all[i] in index' && index'[all[i]] == i
      {
        if i < |leaves| {
          assert all[i] !in commitments;
        } else {
          assert all[i] == commitments[i - |leaves|];
        }
      }
    } else if Inverse(index', all) {
      InverseIsDistinct(index', all);
    }
  }

  // ---- Reachable states ----

  /** Index and log agree; the current root is recognized; every recognized root is that of an earlier log. */
  ghost predicate Consistent(w: World, s: State) {
    && Inverse(s.ledger.commitments, s.leaves)
    && Root(w.sha, s.leaves) in s.ledger.rootHistory
    && forall h :: h in s.ledger.rootHistory ==> RootOfPrefix(w, s.leaves, h)
  }

  ghost predicate RootOfPrefix(w: World, leaves: seq<Commitment>, h: Digest) {
    exists n :: 0 <= n <= |leaves| && h == Root(w.sha, leaves[..n])
  }

  lemma {:induction false} PrefixExtends(w: World, leaves: seq<Commitment>, more: seq<Commitment>, h: Digest)
    requires RootOfPrefix(w, leaves, h)
    ensures RootOfPrefix(w, leaves + more, h)
  {
    var n :| 0 <= n <= |leaves| && h == Root(w.sha, leaves[..n]);
    assert (leaves + more)[..n] == leaves[..n];
  }

  lemma {:induction false} WholeIsPrefix(w: World, leaves: seq<Commitment>)
    ensures RootOfPrefix(w, leaves, Root(w.sha, leaves))
  {
    assert leaves[..|leaves|] == leaves;
  }

  /** Genesis is consistent exactly when the initial commitments differ from each other and from the dummy one. */
  lemma {:induction false} GenesisConsistent(w: World, initial: seq<(AccountId, u128)>, privateAccounts: seq<(Commitment, Nullifier)>, timestamp: u64)
    ensures Consistent(w, GenesisState(w, initial, privateAccounts, timestamp))
       <==> Distinct([DUMMY_COMMITMENT] + Firsts(privateAccounts))
  {
    var dummy := [DUMMY_COMMITMENT];
    var leaves := dummy + Firsts(privateAccounts);
    ExtendInverse(map[], [], dummy);
    assert [] + dummy == dummy;
    ExtendInverse(Indexed(map[], 0, dummy), dummy, Firsts(privateAccounts));
    WholeIsPrefix(w, dummy);
    PrefixExtends(w, dummy, Firsts(privateAccounts), Root(w.sha, dummy));
    WholeIsPrefix(w, leaves);
  }

  lemma {:induction false} FreshStaysDistinct(index: map<Commitment, nat>, leaves: seq<Commitment>, commitments: seq<Commitment>)
    requires Inverse(index, leaves) && Distinct(commitments)
    requires forall c :: c in commitments ==> c !in index
    ensures Distinct(leaves + commitments)
  {
    var all := leaves + commitments;
    forall i, j | 0 <= i < j < |all|
      ensures all[i] != all[j]
    {
      if i < |leaves| <= j {
        assert all[j] in commitments;
      }
    }
  }

  lemma {:induction false} StepConsistent(w: World, s: State, e: Event, next: State)
    requires Consistent(w, s) && Take(w, s, e) == Accepted(next)
    ensures Consistent(w, next)
  {
    var d := Validate(Context(w, s.ledger, e.blockId, e.timestamp), e.tx).value;
    AcceptedCommitmentsAreFresh(Context(w, s.ledger, e.blockId, e.timestamp), e.tx);
    FreshStaysDistinct(s.ledger.commitments, s.leaves, d.newCommitments);
    ExtendInverse(s.ledger.commitments, s.leaves, d.newCommitments);
    WholeIsPrefix(w, next.leaves);
    forall h | h in next.ledger.rootHistory
      ensures RootOfPrefix(w, next.leaves, h)
    {
      if h in s.ledger.rootHistory {
        PrefixExtends(w, s.leaves, d.newCommitments, h);
      }
    }
  }

  lemma {:induction false} AcceptedCommitmentsAreFresh(ctx: Context, tx: Transaction)
    requires Validate(ctx, tx).Ok?
    ensures var d := Validate(ctx, tx).value;
            Distinct(d.newCommitments) && forall c :: c in d.newCommitments ==> c !in ctx.ledger.commitments
  {
  }

  lemma {:induction false} RunConsistent(w: World, s: State, events: seq<Event>)
    requires Consistent(w, s) && Run(w, s, events).Some?
    ensures Consistent(w, Run(w, s, events).value)
    decreases |events|
  {
    if events != [] {
      match Take(w, s, events[0])
      case Accepted(next) =>
        StepConsistent(w, s, events[0], next);
        RunConsistent(w, next, events[1..]);
      case Rejected(_) =>
        RunConsistent(w, s, events[1..]);
      case Aborted =>
    }
  }

  /** The membership proof issued for a commitment. */
  function ProofFor(w: World, s: State, c: Commitment): Option<(nat, seq<Digest>)> {
    if c !in s.ledger.commitments || s.ledger.commitments[c] >= |s.leaves| then None
    else Some((s.ledger.commitments[c], Path(w.sha, s.leaves, s.ledger.commitments[c], Depth(|s.leaves|))))
  }

  /** A proof issued in a consistent state folds to the current root. */
  lemma {:induction false} IssuedProofFolds(w: World, s: State, c: Commitment)
    requires Consistent(w, s) && c in s.ledger.commitments
    ensures ProofFor(w, s, c).Some?
    ensures var (i, path) := ProofFor(w, s, c).value;
            s.leaves[i] == c && Fold(w.sha, Leaf(w.sha, c), i, path) == Root(w.sha, s.leaves)
  {
    var i, d := s.ledger.commitments[c], Depth(|s.leaves|);
    FoldComplete(w.sha, s.leaves, i, d);
    ShrBound(i, d, 0);
  }

  /** In every state reachable from a genesis with different commitments the index is the exact inverse of the log, and
      the digest of any proof issued in it passes the root-history test in every later state. */
  lemma {:induction false} ProofsStayRecognized(
    w: World, initial: seq<(AccountId, u128)>, privateAccounts: seq<(Commitment, Nullifier)>, timestamp: u64,
    events: seq<Event>, later: seq<Event>, c: Commitment, nullifier: Nullifier)
    requires Distinct([DUMMY_COMMITMENT] + Firsts(privateAccounts))
    requires Run(w, GenesisState(w, initial, privateAccounts, timestamp), events).Some?
    requires Run(w, Run(w, GenesisState(w, initial, privateAccounts, timestamp), events).value, later).Some?
    ensures var s := Run(w, GenesisState(w, initial, privateAccounts, timestamp), events).value;
            var s' := Run(w, s, later).value;
            && Inverse(s.ledger.commitments, s.leaves)
            && (c in s.leaves <==> ProofFor(w, s, c).Some?)
            && (c in s.leaves ==>
                  var (i, path) := ProofFor(w, s, c).value;
                  var digest := Fold(w.sha, Leaf(w.sha, c), i, path);
                  && digest in s'.ledger.rootHistory
                  && NullifierError(s'.ledger, (nullifier, digest)) != Some(UnrecognizedDigest))
  {
    GenesisConsistent(w, initial, privateAccounts, timestamp);
    var genesis := GenesisState(w, initial, privateAccounts, timestamp);
    RunConsistent(w, genesis, events);
    var s := Run(w, genesis, events).value;
    RunGrows(w, s, later);
    if c in s.leaves {
      IssuedProofFolds(w, s, c);
    }
  }

  /** Conversely, a proof of any shape whose digest the root history recognizes is about a logged commitment, unless it
      yields a hash collision or a preimage of the padding value. */
  lemma {:induction false} RecognizedProofIsLogged(w: World, s: State, c: Commitment, i: nat, path: seq<Digest>) returns (n: nat)
    requires Consistent(w, s) && Fold(w.sha, Leaf(w.sha, c), i, path) in s.ledger.rootHistory
    ensures n <= |s.leaves|
    ensures match Judge(w.sha, s.leaves[..n], Depth(n), 0, c, i, path)
            case Member => c in s.ledger.commitments && s.ledger.commitments[c] == i % Pow2(Depth(n)) < n
            case Collision(a, b) => a != b && w.sha(a) == w.sha(b)
            case ZeroPreimage(a) => w.sha(a) == ZERO
  {
    var h := Fold(w.sha, Leaf(w.sha, c), i, path);
    assert RootOfPrefix(w, s.leaves, h);
    var k :| 0 <= k <= |s.leaves| && h == Root(w.sha, s.leaves[..k]);
    n := k;
    FoldSound(w.sha, s.leaves[..n], c, i, path);
  }
}
