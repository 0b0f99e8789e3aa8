/** The state of the zone as it is kept in memory, updated in place. */
module Zone {
  import opened Types
  import opened Ledgers
  import opened Executor
  import opened Merkle
  import opened MerkleTrees
  import opened Transactions
  import opened Genesis

  class CommitmentSet {
    const tree: MerkleTree
    var commitments: map<Commitment, nat>
    var rootHistory: set<Digest>

    ghost function Repr(): set<object>
      reads this, tree
    {
      {this, tree, tree.nodes}
    }

    ghost predicate Valid()
      reads this, tree, tree.nodes
    {
      tree.Valid()
    }

    constructor WithCapacity(sha: Hash, capacity: nat)
      requires Depth(capacity) <= MAX_DEPTH
      ensures Valid() && fresh(Repr()) && tree.sha == sha
      ensures tree.values == [] && commitments == map[] && rootHistory == {}
    {
      tree := new MerkleTree.WithCapacity(sha, capacity);
      commitments := map[];
      rootHistory := {};
    }

    method InsertOne(commitment: Commitment)
      requires Valid() && |tree.values| < MAX_LEAVES
      modifies this`commitments, tree, tree.nodes
      ensures Valid() && (tree.nodes == old(tree.nodes) || fresh(tree.nodes))
      ensures tree.values == old(tree.values) + [commitment]
      ensures commitments == old(commitments)[commitment := |old(tree.values)|]
    {
      var index := tree.Insert(commitment);
      commitments := commitments[commitment := index];
    }

    /** Appends commitments to the tree, indexes them, and records the new root once. */
    method Extend(added: seq<Commitment>)
      requires Valid() && |tree.values| + |added| <= MAX_LEAVES
      modifies Repr()
      ensures Valid() && fresh(Repr() - old(Repr()))
      ensures tree.values == old(tree.values) + added
      ensures commitments == Indexed(old(commitments), |old(tree.values)|, added)
      ensures rootHistory == old(rootHistory) + {Root(tree.sha, tree.values)}
    {
      for i := 0 to |added|
        invariant Valid() && fresh(Repr() - old(Repr()))
        invariant tree.values == old(tree.values) + added[..i]
        invariant commitments == Indexed(old(commitments), |old(tree.values)|, added[..i])
        invariant rootHistory == old(rootHistory)
      {
        IndexedNext(old(commitments), |old(tree.values)|, added, i);
        InsertOne(added[i]);
      }
      assert added[..|added|] == added;
      var digest := tree.Root();
      rootHistory := rootHistory + {digest};
    }

    /** The membership proof of an indexed commitment: its position and its true sibling path. */
    method GetProofFor(commitment: Commitment) returns (r: Option<(nat, seq<Digest>)>)
      requires Valid()
      ensures r.Some? <==> commitment in commitments && commitments[commitment] < |tree.values|
      ensures r.Some? ==>
                r.value == (commitments[commitment], Path(tree.sha, tree.values, commitments[commitment], Depth(|tree.values|)))
    {
      if commitment !in commitments {
        return None;
      }
      var index := commitments[commitment];
      var path := tree.GetAuthenticationPathFor(index);
      if path.None? {
        return None;
      }
      r := Some((index, path.value));
    }
  }

  lemma {:induction false} IndexedNext(index: map<Commitment, nat>, start: nat, added: seq<Commitment>, i: nat)
    requires i < |added|
    ensures added[..i + 1] == added[..i] + [added[i]]
    ensures Indexed(index, start, added[..i + 1]) == Indexed(index, start, added[..i])[added[i] := start + i]
  {
    assert added[..i + 1][..i] == added[..i];
  }

  /** The commitment set at genesis: the dummy commitment, then the initial private accounts. */
  method InitialCommitments(sha: Hash, commitments: seq<Commitment>) returns (r: CommitmentSet)
    requires |commitments| < MAX_LEAVES
    ensures r.Valid() && fresh(r.Repr()) && r.tree.sha == sha
    ensures r.tree.values == [DUMMY_COMMITMENT] + commitments
    ensures r.commitments == Indexed(Indexed(map[], 0, [DUMMY_COMMITMENT]), 1, commitments)
    ensures r.rootHistory == {Root(sha, [DUMMY_COMMITMENT]), Root(sha, [DUMMY_COMMITMENT] + commitments)}
  {
    CapacityDepth(5);
    r := new CommitmentSet.WithCapacity(sha, 32);
    r.Extend([DUMMY_COMMITMENT]);
    r.Extend(commitments);
  }

  datatype Outcome = Done | Failed(error: NssaError) | Crashed

  class V03State {
    const w: World
    const commitmentSet: CommitmentSet
    var accounts: map<AccountId, Account>
    var nullifiers: set<Nullifier>
    var programs: map<ProgramId, Program>

    ghost function Repr(): set<object>
      reads this, commitmentSet, commitmentSet.tree
    {
      {this} + commitmentSet.Repr()
    }

    ghost predicate Valid()
      reads this, commitmentSet, commitmentSet.tree, commitmentSet.tree.nodes
    {
      commitmentSet.Valid() && commitmentSet.tree.sha == w.sha
    }

    /** What validation reads. */
    function Snapshot(): Ledger
      reads this, commitmentSet
    {
      Ledger(accounts, programs, commitmentSet.commitments, commitmentSet.rootHistory, nullifiers)
    }

    /** The state this object stands for. */
    ghost function Abs(): State
      reads this, commitmentSet, commitmentSet.tree
    {
      State(Snapshot(), commitmentSet.tree.values)
    }

    constructor NewWithGenesisAccounts(w: World, initial: seq<(AccountId, u128)>,
                                       privateAccounts: seq<(Commitment, Nullifier)>, timestamp: u64)
      requires |privateAccounts| < MAX_LEAVES
      ensures Valid() && fresh(Repr()) && this.w == w
      ensures Abs() == GenesisState(w, initial, privateAccounts, timestamp)
    {
      var initialSet := InitialCommitments(w.sha, Firsts(privateAccounts));
      this.w := w;
      this.commitmentSet := initialSet;
      this.accounts := GenesisAccounts(w, initial, timestamp);
      this.nullifiers := set p | p in privateAccounts :: p.1;
      this.programs := InsertPrograms(map[], [w.clockProgram, w.transferProgram] + w.otherPrograms + [w.faucetProgram]);
    }

    /** Writes the accounts of a diff, in whatever order the hash map yields them. */
    method WriteAccounts(diff: Diff)
      modifies this`accounts
      ensures accounts == old(accounts) + diff
    {
      var remaining := diff.Keys;
      while remaining != {}
        invariant remaining <= diff.Keys
        invariant accounts.Keys == old(accounts).Keys + (diff.Keys - remaining)
        invariant forall id :: id in accounts ==>
                    accounts[id] == if id in diff && id !in remaining then diff[id] else old(accounts)[id]
        decreases remaining
      {
        var id :| id in remaining;
        accounts := accounts[id := diff[id]];
        remaining := remaining - {id};
      }
    }

    /** Increments the nonce of every signer once per occurrence; fails exactly when some nonce has no room. */
    method BumpNonces(signers: seq<AccountId>) returns (ok: bool)
      modifies this`accounts
      ensures ok <==> NoncesFit(old(accounts), signers)
      ensures ok ==> accounts == Bumped(old(accounts), signers)
    {
      ghost var start := accounts;
      for i := 0 to |signers|
        invariant NoncesFit(start, signers[..i])
        invariant accounts == Bumped(start, signers[..i])
      {
        var account := AccountOf(accounts, signers[i]);
        BumpNext(start, signers, i);
        if account.nonce == TWO_128 - 1 {
          return false;
        }
        accounts := accounts[signers[i] := account.(nonce := account.nonce + 1)];
      }
      assert signers[..|signers|] == signers;
      ok := true;
    }

    method UpdateAccounts(diff: Diff, signers: seq<AccountId>) returns (ok: bool)
      modifies this`accounts
      ensures ok <==> NoncesFit(old(accounts) + diff, signers)
      ensures ok ==> accounts == Bumped(old(accounts) + diff, signers)
    {
      WriteAccounts(diff);
      ok := BumpNonces(signers);
    }

    /** Extends the commitment set and the nullifier set; fails exactly when the tree has no room left. */
    method ExtendPrivateState(added: seq<Commitment>, spent: seq<Nullifier>) returns (ok: bool)
      requires Valid()
      modifies commitmentSet.Repr(), this`nullifiers
      ensures ok <==> |old(Abs().leaves)| + |added| <= MAX_LEAVES
      ensures ok ==> Valid() && fresh(Repr() - old(Repr()))
      ensures ok ==>
                var s := old(Abs());
                Abs() == State(
                  s.ledger.(commitments := Indexed(s.ledger.commitments, |s.leaves|, added),
                            rootHistory := s.ledger.rootHistory + {Root(w.sha, s.leaves + added)},
                            nullifiers := s.ledger.nullifiers + set n | n in spent),
                  s.leaves + added)
    {
      if commitmentSet.tree.length + |added| > MAX_LEAVES {
        return false;
      }
      commitmentSet.Extend(added);
      nullifiers := nullifiers + set n | n in spent;
      ok := true;
    }

    /** Applies a validated diff. It crashes exactly when a nonce or the commitment tree is exhausted. */
    method ApplyStateDiff(diff: StateDiff) returns (r: Outcome)
      requires Valid()
      modifies Repr()
      ensures r == if Aborts(old(Abs()), diff) then Crashed else Done
      ensures r.Done? ==> Valid() && fresh(Repr() - old(Repr())) && Abs() == Apply(w, old(Abs()), diff)
    {
      var written := UpdateAccounts(diff.publicDiff, diff.signerIds);
      if !written {
        return Crashed;
      }
      var extended := ExtendPrivateState(diff.newCommitments, diff.newNullifiers);
      if !extended {
        return Crashed;
      }
      programs := if diff.program.Some? then programs[diff.program.value.id := diff.program.value] else programs;
      r := Done;
    }

    /** Validates a transaction against the current state. */
    method ValidateTransaction(tx: Transaction, blockId: u64, timestamp: u64) returns (r: Result<StateDiff, NssaError>)
      ensures r == Validate(Context(w, Snapshot(), blockId, timestamp), tx)
    {
      var ctx := Context(w, Snapshot(), blockId, timestamp);
      match tx {
        case Public(tx) =>
          r := FromPublicTransaction(ctx, tx);
        case PrivacyPreserving(tx) =>
          r := FromPrivacyPreservingTransaction(ctx, tx);
        case ProgramDeployment(tx) =>
          r := DeploymentDiff(w, ctx.ledger, tx);
      }
    }

    /** One transition: validated against the current state, applied only if accepted. */
    method TransitionFrom(tx: Transaction, blockId: u64, timestamp: u64) returns (r: Outcome)
      requires Valid()
      modifies Repr()
      ensures match Transition(w, old(Abs()), tx, blockId, timestamp)
              case Accepted(next) => r == Done && Valid() && fresh(Repr() - old(Repr())) && Abs() == next
              case Rejected(e) => r == Failed(e) && Valid() && Repr() == old(Repr()) && Abs() == old(Abs())
              case Aborted => r == Crashed
    {
      var diff := ValidateTransaction(tx, blockId, timestamp);
      if diff.Err? {
        return Failed(diff.error);
      }
      r := ApplyStateDiff(diff.value);
    }
  }

  lemma {:induction false} CountOneMore(signers: seq<AccountId>, id: AccountId)
    ensures forall s :: multiset(signers + [id])[s] == multiset(signers)[s] + if s == id then 1 else 0
    ensures forall s :: s in signers + [id] <==> s in signers || s == id
    ensures forall s :: s !in signers ==> multiset(signers)[s] == 0
  {
    assert multiset(signers + [id]) == multiset(signers) + multiset{id};
  }

  /** One more signature fits exactly when the nonce reached so far is not the last one. */
  lemma {:induction false} FitsOneMore(accounts: map<AccountId, Account>, signers: seq<AccountId>, id: AccountId)
    requires NoncesFit(accounts, signers)
    ensures NoncesFit(accounts, signers + [id]) <==> AccountOf(Bumped(accounts, signers), id).nonce < TWO_128 - 1
  {
    CountOneMore(signers, id);
  }

  lemma {:induction false} BumpOneAt(accounts: map<AccountId, Account>, signers: seq<AccountId>, id: AccountId, s: AccountId)
    requires NoncesFit(accounts, signers) && NoncesFit(accounts, signers + [id])
    ensures var account := BumpedAccount(accounts, signers, id);
            && account.nonce < TWO_128 - 1
            && BumpedAccount(accounts, signers + [id], s)
               == if s == id then account.(nonce := account.nonce + 1) else BumpedAccount(accounts, signers, s)
  {
    CountOneMore(signers, id);
  }

  lemma {:induction false} BumpedKeys(accounts: map<AccountId, Account>, signers: seq<AccountId>)
    requires NoncesFit(accounts, signers)
    ensures forall id :: id in Bumped(accounts, signers) <==> id in accounts || id in signers
    ensures forall id :: id in Bumped(accounts, signers) ==> Bumped(accounts, signers)[id] == BumpedAccount(accounts, signers, id)
  {
  }

  lemma {:induction false} BumpOne(accounts: map<AccountId, Account>, signers: seq<AccountId>, id: AccountId)
    requires NoncesFit(accounts, signers) && NoncesFit(accounts, signers + [id])
    ensures var account := BumpedAccount(accounts, signers, id);
            && account.nonce < TWO_128 - 1
            && Bumped(accounts, signers + [id]) == Bumped(accounts, signers)[id := account.(nonce := account.nonce + 1)]
  {
    BumpOneAt(accounts, signers, id, id);
    var more := Bumped(accounts, signers + [id]);
    var account := BumpedAccount(accounts, signers, id);
    var updated := Bumped(accounts, signers)[id := account.(nonce := account.nonce + 1)];
    BumpedKeys(accounts, signers);
    BumpedKeys(accounts, signers + [id]);
    assert forall s :: s in more <==> s in updated;
    forall s | s in more
      ensures more[s] == updated[s]
    {
      BumpOneAt(accounts, signers, id, s);
    }
  }

  lemma {:induction false} BumpNext(accounts: map<AccountId, Account>, signers: seq<AccountId>, i: nat)
    requires i < |signers| && NoncesFit(accounts, signers[..i])
    ensures var account := AccountOf(Bumped(accounts, signers[..i]), signers[i]);
            if account.nonce == TWO_128 - 1 then !NoncesFit(accounts, signers)
            else && NoncesFit(accounts, signers[..i + 1])
                 && Bumped(accounts, signers[..i + 1])
                    == Bumped(accounts, signers[..i])[signers[i] := account.(nonce := account.nonce + 1)]
  {
    FitsOneMore(accounts, signers[..i], signers[i]);
    BumpedAt(accounts, signers[..i], signers[i]);
    assert signers[..i + 1] == signers[..i] + [signers[i]];
    if NoncesFit(accounts, signers[..i + 1]) {
      BumpOne(accounts, signers[..i], signers[i]);
    } else if NoncesFit(accounts, signers) {
      FitsPrefix(accounts, signers, i + 1);
    }
  }

  lemma {:induction false} FitsPrefix(accounts: map<AccountId, Account>, signers: seq<AccountId>, i: nat)
    requires i <= |signers| && NoncesFit(accounts, signers)
    ensures NoncesFit(accounts, signers[..i])
  {
    assert signers == signers[..i] + signers[i..];
    assert multiset(signers) == multiset(signers[..i]) + multiset(signers[i..]);
    forall id | id in signers[..i]
      ensures AccountOf(accounts, id).nonce + multiset(signers[..i])[id] < TWO_128
    {
      assert id in signers;
    }
  }
}
