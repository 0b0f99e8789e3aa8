/** Validation of every kind of transaction, and application of the resulting diff. */
module Transactions {
  import opened Types
  import opened Validator
  import opened Identity
  import opened Ledgers
  import opened Executor
  import opened Merkle
  import MerkleTrees

  // ---- Privacy-preserving transactions ----

  predicate PrivateSignaturesValid(w: World, tx: PrivateTransaction) {
    forall i :: 0 <= i < |tx.witnesses| ==> w.privateSignatureValid(tx.witnesses[i].0, tx.message, tx.witnesses[i].1)
  }

  function NullifierError(ledger: Ledger, entry: (Nullifier, Digest)): Option<InputError> {
    if entry.0 in ledger.nullifiers then Some(NullifierAlreadySeen)
    else if entry.1 !in ledger.rootHistory then Some(UnrecognizedDigest)
    else None
  }

  function FirstNullifierError(ledger: Ledger, entries: seq<(Nullifier, Digest)>, i: nat): Option<InputError>
    decreases |entries| - i
  {
    if i >= |entries| then None
    else if NullifierError(ledger, entries[i]).Some? then NullifierError(ledger, entries[i])
    else FirstNullifierError(ledger, entries, i + 1)
  }

  function CircuitOutputOf(ctx: Context, tx: PrivateTransaction): CircuitOutput {
    var m := tx.message;
    CircuitOutput(
      InputPreStates(ctx.ledger, m.publicAccountIds, SignerIds(ctx.w, tx.witnesses)),
      m.publicPostStates, m.ciphertexts, m.newCommitments, m.newNullifiers, m.blockWindow, m.timestampWindow)
  }

  /** The first `n` account ids with their post states. */
  function Zip(ids: seq<AccountId>, posts: seq<Account>, n: nat): Diff
    requires n <= |ids| && n <= |posts|
  {
    if n == 0 then map[] else Zip(ids, posts, n - 1)[ids[n - 1] := posts[n - 1]]
  }

  function Min(a: nat, b: nat): nat {
    if a < b then a else b
  }

  /** Why a privacy-preserving transaction is rejected, if it is. */
  function PrivateError(ctx: Context, tx: PrivateTransaction): Option<NssaError> {
    var m := tx.message;
    if m.newCommitments == [] && m.newNullifiers == [] then Some(InvalidInput(EmptyCommitmentsAndNullifiers))
    else if !Distinct(m.publicAccountIds) then Some(InvalidInput(DuplicateAccountIds))
    else if !Distinct(m.newNullifiers) then Some(InvalidInput(DuplicateNullifiers))
    else if !Distinct(m.newCommitments) then Some(InvalidInput(DuplicateCommitments))
    else if |m.nonces| != |tx.witnesses| then Some(InvalidInput(NonceCountMismatch))
    else if !PrivateSignaturesValid(ctx.w, tx) then Some(InvalidInput(InvalidSignature))
    else if !NoncesMatch(ctx.ledger, SignerIds(ctx.w, tx.witnesses), m.nonces) then Some(InvalidInput(NonceMismatch))
    else if !(m.blockWindow.IsValidFor(ctx.blockId) && m.timestampWindow.IsValidFor(ctx.timestamp)) then
      Some(OutOfValidityWindow)
    else if !ctx.w.proofValid(tx.proof, CircuitOutputOf(ctx, tx)) then Some(InvalidPrivacyPreservingProof)
    else if exists c :: c in m.newCommitments && c in ctx.ledger.commitments then Some(InvalidInput(CommitmentAlreadySeen))
    else
      match FirstNullifierError(ctx.ledger, m.newNullifiers, 0)
      case Some(e) => Some(InvalidInput(e))
      case None => None
  }

  function PrivateDiff(ctx: Context, tx: PrivateTransaction): Result<StateDiff, NssaError> {
    match PrivateError(ctx, tx)
    case Some(e) => Err(e)
    case None =>
      var m := tx.message;
      Ok(StateDiff(
           SignerIds(ctx.w, tx.witnesses),
           Zip(m.publicAccountIds, m.publicPostStates, Min(|m.publicAccountIds|, |m.publicPostStates|)),
           m.newCommitments,
           Firsts(m.newNullifiers),
           None))
  }

  lemma {:induction false} ZipAt(ids: seq<AccountId>, posts: seq<Account>, n: nat)
    requires n <= |ids| && n <= |posts| && Distinct(ids)
    ensures forall id :: id in Zip(ids, posts, n) <==> id in ids[..n]
    ensures forall i :: 0 <= i < n ==> Zip(ids, posts, n)[ids[i]] == posts[i]
  {
    if n > 0 {
      ZipAt(ids, posts, n - 1);
      assert ids[..n] == ids[..n - 1] + [ids[n - 1]];
    }
  }

  /** An accepted privacy-preserving transaction writes exactly the accounts it names, each with its own post state, adds
      its commitments in order, and spends each of its nullifiers. */
  lemma {:induction false} PrivateDiffExact(ctx: Context, tx: PrivateTransaction)
    requires PrivateDiff(ctx, tx).Ok?
    ensures var m, d := tx.message, PrivateDiff(ctx, tx).value;
            var n := Min(|m.publicAccountIds|, |m.publicPostStates|);
            && (forall id :: id in d.publicDiff <==> id in m.publicAccountIds[..n])
            && (forall i :: 0 <= i < n ==> d.publicDiff[m.publicAccountIds[i]] == m.publicPostStates[i])
            && d.newCommitments == m.newCommitments
            && |d.newNullifiers| == |m.newNullifiers|
            && (forall i :: 0 <= i < |m.newNullifiers| ==> d.newNullifiers[i] == m.newNullifiers[i].0)
            && d.program.None?
  {
    var m := tx.message;
    ZipAt(m.publicAccountIds, m.publicPostStates, Min(|m.publicAccountIds|, |m.publicPostStates|));
  }

  /** An accepted transaction spends each of its nullifiers once exactly when it gives none under two digests. */
  lemma {:induction false} NullifiersOnceIff(ctx: Context, tx: PrivateTransaction)
    requires PrivateDiff(ctx, tx).Ok?
    ensures Distinct(PrivateDiff(ctx, tx).value.newNullifiers)
       <==> forall a, b :: a in tx.message.newNullifiers && b in tx.message.newNullifiers && a.0 == b.0 ==> a.1 == b.1
  {
    var entries, ns := tx.message.newNullifiers, PrivateDiff(ctx, tx).value.newNullifiers;
    assert ns == Firsts(entries) && Distinct(entries);
    if Distinct(ns) {
      forall a, b | a in entries && b in entries && a.0 == b.0
        ensures a.1 == b.1
      {
        var i, j :| 0 <= i < |entries| && 0 <= j < |entries| && entries[i] == a && entries[j] == b;
        assert ns[i] == ns[j];
      }
    } else {
      var i, j :| 0 <= i < j < |ns| && ns[i] == ns[j];
      assert entries[i] in entries && entries[j] in entries && entries[i] != entries[j];
      assert entries[i].0 == entries[j].0 && entries[i].1 != entries[j].1;
    }
  }

  lemma {:induction false} NullifiersValidIff(ledger: Ledger, entries: seq<(Nullifier, Digest)>, i: nat)
    ensures FirstNullifierError(ledger, entries, i).None?
       <==> forall k :: i <= k < |entries| ==> entries[k].0 !in ledger.nullifiers && entries[k].1 in ledger.rootHistory
    decreases |entries| - i
  {
    if i < |entries| {
      NullifiersValidIff(ledger, entries, i + 1);
    }
  }

  /** The public values the proof has to be for: everything the message shows, and the stored accounts it names, marked as
      authorized exactly when signed for. */
  ghost predicate IsOutputOf(ctx: Context, tx: PrivateTransaction, o: CircuitOutput) {
    var m := tx.message;
    && o.publicPostStates == m.publicPostStates && o.ciphertexts == m.ciphertexts
    && o.newCommitments == m.newCommitments && o.newNullifiers == m.newNullifiers
    && o.blockWindow == m.blockWindow && o.timestampWindow == m.timestampWindow
    && |o.publicPreStates| == |m.publicAccountIds|
    && forall i :: 0 <= i < |m.publicAccountIds| ==>
         && o.publicPreStates[i].accountId == m.publicAccountIds[i]
         && o.publicPreStates[i].account == AccountOf(ctx.ledger.accounts, m.publicAccountIds[i])
         && (o.publicPreStates[i].isAuthorized <==> Signs(ctx.w, tx.witnesses, m.publicAccountIds[i]))
  }

  lemma {:induction false} OutputExact(ctx: Context, tx: PrivateTransaction, o: CircuitOutput)
    ensures IsOutputOf(ctx, tx, o) <==> o == CircuitOutputOf(ctx, tx)
  {
    forall id
      ensures Signs(ctx.w, tx.witnesses, id) <==> id in SignerIds(ctx.w, tx.witnesses)
    {
      SignsIff(ctx.w, tx.witnesses, id);
    }
    if IsOutputOf(ctx, tx, o) {
      assert o.publicPreStates == CircuitOutputOf(ctx, tx).publicPreStates;
    }
  }

  /** For each signer a valid signature of the message and the current nonce. */
  ghost predicate PrivatelySigned(w: World, ledger: Ledger, tx: PrivateTransaction) {
    && |tx.message.nonces| == |tx.witnesses|
    && (forall i :: 0 <= i < |tx.witnesses| ==> w.privateSignatureValid(tx.witnesses[i].0, tx.message, tx.witnesses[i].1))
    && (forall i :: 0 <= i < |tx.witnesses| ==>
          AccountOf(ledger.accounts, SignerId(w, tx.witnesses[i].1)).nonce == tx.message.nonces[i])
  }

  lemma {:induction false} PrivatelySignedIff(w: World, ledger: Ledger, tx: PrivateTransaction)
    ensures PrivatelySigned(w, ledger, tx) <==>
      && |tx.message.nonces| == |tx.witnesses| && PrivateSignaturesValid(w, tx)
      && NoncesMatch(ledger, SignerIds(w, tx.witnesses), tx.message.nonces)
  {
    var signers := SignerIds(w, tx.witnesses);
    assert forall i :: 0 <= i < |signers| ==> signers[i] == SignerId(w, tx.witnesses[i].1);
  }

  /** A privacy-preserving transaction is accepted exactly when it creates or spends something, names accounts, pairs of
      nullifier and digest, and commitments once, is signed with current nonces, is in its windows, carries a proof of its
      public values, and all its commitments are new, its nullifiers unspent and its digests recognized. */
  lemma {:induction false} PrivateAcceptedIff(ctx: Context, tx: PrivateTransaction, o: CircuitOutput)
    requires IsOutputOf(ctx, tx, o)
    ensures PrivateDiff(ctx, tx).Ok? <==>
      var m := tx.message;
      && (m.newCommitments != [] || m.newNullifiers != [])
      && Distinct(m.publicAccountIds) && Distinct(m.newNullifiers) && Distinct(m.newCommitments)
      && PrivatelySigned(ctx.w, ctx.ledger, tx)
      && m.blockWindow.IsValidFor(ctx.blockId) && m.timestampWindow.IsValidFor(ctx.timestamp)
      && ctx.w.proofValid(tx.proof, o)
      && (forall c :: c in m.newCommitments ==> c !in ctx.ledger.commitments)
      && (forall k :: 0 <= k < |m.newNullifiers| ==>
            m.newNullifiers[k].0 !in ctx.ledger.nullifiers && m.newNullifiers[k].1 in ctx.ledger.rootHistory)
  {
    OutputExact(ctx, tx, o);
    PrivatelySignedIff(ctx.w, ctx.ledger, tx);
    NullifiersValidIff(ctx.ledger, tx.message.newNullifiers, 0);
  }

  method CheckCommitmentsAreNew(ledger: Ledger, commitments: seq<Commitment>) returns (r: Option<InputError>)
    ensures r == if exists c :: c in commitments && c in ledger.commitments then Some(CommitmentAlreadySeen) else None
  {
    for i := 0 to |commitments|
      invariant forall k :: 0 <= k < i ==> commitments[k] !in ledger.commitments
    {
      if commitments[i] in ledger.commitments {
        return Some(CommitmentAlreadySeen);
      }
    }
    r := None;
  }

  method CheckNullifiersAreValid(ledger: Ledger, entries: seq<(Nullifier, Digest)>) returns (r: Option<InputError>)
    ensures r == FirstNullifierError(ledger, entries, 0)
    ensures r.None? <==> forall i :: 0 <= i < |entries| ==> entries[i].0 !in ledger.nullifiers && entries[i].1 in ledger.rootHistory
  {
    for i := 0 to |entries|
      invariant FirstNullifierError(ledger, entries, 0) == FirstNullifierError(ledger, entries, i)
      invariant forall k :: 0 <= k < i ==> entries[k].0 !in ledger.nullifiers && entries[k].1 in ledger.rootHistory
    {
      if entries[i].0 in ledger.nullifiers {
        return Some(NullifierAlreadySeen);
      }
      if entries[i].1 !in ledger.rootHistory {
        return Some(UnrecognizedDigest);
      }
    }
    r := None;
  }

  method FromPrivacyPreservingTransaction(ctx: Context, tx: PrivateTransaction) returns (r: Result<StateDiff, NssaError>)
    ensures r == PrivateDiff(ctx, tx)
  {
    var m := tx.message;
    if m.newCommitments == [] && m.newNullifiers == [] {
      return Err(InvalidInput(EmptyCommitmentsAndNullifiers));
    }
    NUniqueIsDistinct(m.publicAccountIds);
    if NUnique(m.publicAccountIds) != |m.publicAccountIds| {
      return Err(InvalidInput(DuplicateAccountIds));
    }
    NUniqueIsDistinct(m.newNullifiers);
    if NUnique(m.newNullifiers) != |m.newNullifiers| {
      return Err(InvalidInput(DuplicateNullifiers));
    }
    NUniqueIsDistinct(m.newCommitments);
    if NUnique(m.newCommitments) != |m.newCommitments| {
      return Err(InvalidInput(DuplicateCommitments));
    }
    if |m.nonces| != |tx.witnesses| {
      return Err(InvalidInput(NonceCountMismatch));
    }
    if !PrivateSignaturesValid(ctx.w, tx) {
      return Err(InvalidInput(InvalidSignature));
    }
    var signers := SignerIds(ctx.w, tx.witnesses);
    var noncesOk := CheckNonces(ctx.ledger, signers, m.nonces);
    if !noncesOk {
      return Err(InvalidInput(NonceMismatch));
    }
    if !(m.blockWindow.IsValidFor(ctx.blockId) && m.timestampWindow.IsValidFor(ctx.timestamp)) {
      return Err(OutOfValidityWindow);
    }
    if !ctx.w.proofValid(tx.proof, CircuitOutputOf(ctx, tx)) {
      return Err(InvalidPrivacyPreservingProof);
    }
    var seen := CheckCommitmentsAreNew(ctx.ledger, m.newCommitments);
    if seen.Some? {
      return Err(InvalidInput(seen.value));
    }
    var nullifierError := CheckNullifiersAreValid(ctx.ledger, m.newNullifiers);
    if nullifierError.Some? {
      return Err(InvalidInput(nullifierError.value));
    }
    var n := Min(|m.publicAccountIds|, |m.publicPostStates|);
    r := Ok(StateDiff(signers, Zip(m.publicAccountIds, m.publicPostStates, n), m.newCommitments, Firsts(m.newNullifiers), None));
  }

  // ---- Deployments ----

  function DeploymentDiff(w: World, ledger: Ledger, tx: DeploymentTransaction): Result<StateDiff, NssaError> {
    match w.newProgram(tx.bytecode)
    case None => Err(InvalidProgramBytecode)
    case Some(program) =>
      if program.id in ledger.programs then Err(ProgramAlreadyExists)
      else Ok(StateDiff([], map[], [], [], Some(program)))
  }

  /** A deployment is accepted exactly when its bytecode is a program whose id is not deployed yet. */
  lemma {:induction false} DeploymentAcceptedIff(w: World, ledger: Ledger, tx: DeploymentTransaction)
    ensures DeploymentDiff(w, ledger, tx).Ok?
       <==> w.newProgram(tx.bytecode).Some? && w.newProgram(tx.bytecode).value.id !in ledger.programs
    ensures DeploymentDiff(w, ledger, tx) == Err(InvalidProgramBytecode) <==> w.newProgram(tx.bytecode).None?
  {
  }

  // ---- Any transaction ----

  datatype Transaction =
    | Public(publicTx: PublicTransaction)
    | PrivacyPreserving(privateTx: PrivateTransaction)
    | ProgramDeployment(deploymentTx: DeploymentTransaction)

  function Validate(ctx: Context, tx: Transaction): Result<StateDiff, NssaError> {
    match tx
    case Public(tx) => PublicDiff(ctx, tx)
    case PrivacyPreserving(tx) => PrivateDiff(ctx, tx)
    case ProgramDeployment(tx) => DeploymentDiff(ctx.w, ctx.ledger, tx)
  }

  // ---- Application ----

  /** The whole state: what validation reads, and the leaves of the commitment tree in order of insertion. */
  datatype State = State(ledger: Ledger, leaves: seq<Commitment>)

  /** Signing `n` times needs room for `n` more in the nonce. */
  predicate NoncesFit(accounts: map<AccountId, Account>, signers: seq<AccountId>) {
    forall id :: id in signers ==> AccountOf(accounts, id).nonce + multiset(signers)[id] < TWO_128
  }

  function BumpedAccount(accounts: map<AccountId, Account>, signers: seq<AccountId>, id: AccountId): Account
    requires NoncesFit(accounts, signers)
  {
    var a := AccountOf(accounts, id);
    if id in signers then a.(nonce := a.nonce + multiset(signers)[id]) else a
  }

  /** Every account's nonce goes up by the number of times it signed. */
  function Bumped(accounts: map<AccountId, Account>, signers: seq<AccountId>): map<AccountId, Account>
    requires NoncesFit(accounts, signers)
  {
    map id | id in accounts.Keys + (set s | s in signers) :: BumpedAccount(accounts, signers, id)
  }

  lemma {:induction false} BumpedAt(accounts: map<AccountId, Account>, signers: seq<AccountId>, id: AccountId)
    requires NoncesFit(accounts, signers)
    ensures AccountOf(Bumped(accounts, signers), id) == BumpedAccount(accounts, signers, id)
  {
  }

  /** The index after inserting commitments at consecutive positions from `start`. */
  function Indexed(index: map<Commitment, nat>, start: nat, commitments: seq<Commitment>): map<Commitment, nat> {
    if commitments == [] then index
    else
      var k := |commitments| - 1;
      Indexed(index, start, commitments[..k])[commitments[k] := start + k]
  }

  /** Applying the diff aborts the process: a nonce or the commitment tree is exhausted. */
  predicate Aborts(s: State, d: StateDiff) {
    || !NoncesFit(s.ledger.accounts + d.publicDiff, d.signerIds)
    || |s.leaves| + |d.newCommitments| > MerkleTrees.MAX_LEAVES
  }

  function Apply(w: World, s: State, d: StateDiff): State
    requires !Aborts(s, d)
  {
    var leaves := s.leaves + d.newCommitments;
    State(
      Ledger(
        Bumped(s.ledger.accounts + d.publicDiff, d.signerIds),
        if d.program.Some? then s.ledger.programs[d.program.value.id := d.program.value] else s.ledger.programs,
        Indexed(s.ledger.commitments, |s.leaves|, d.newCommitments),
        s.ledger.rootHistory + {Root(w.sha, leaves)},
        s.ledger.nullifiers + (set n | n in d.newNullifiers)),
      leaves)
  }

  datatype Step = Accepted(next: State) | Rejected(error: NssaError) | Aborted

  /** One transition: a rejected transaction leaves the state alone. */
  function Transition(w: World, s: State, tx: Transaction, blockId: u64, timestamp: u64): Step {
    match Validate(Context(w, s.ledger, blockId, timestamp), tx)
    case Err(e) => Rejected(e)
    case Ok(d) => if Aborts(s, d) then Aborted else Accepted(Apply(w, s, d))
  }

  /** A transition is made exactly when validation gives a diff, every signer's nonce has room for its signatures, and the
      commitment tree has room for at most 2^31 leaves; without room the process aborts. */
  lemma {:induction false} TransitionIff(w: World, s: State, tx: Transaction, blockId: u64, timestamp: u64)
    ensures var v := Validate(Context(w, s.ledger, blockId, timestamp), tx);
            var room := v.Ok? ==>
              && (forall id :: id in v.value.signerIds ==>
                    AccountOf(s.ledger.accounts + v.value.publicDiff, id).nonce + multiset(v.value.signerIds)[id] <= TWO_128 - 1)
              && |s.leaves| + |v.value.newCommitments| <= 0x8000_0000;
            && (Transition(w, s, tx, blockId, timestamp).Accepted? <==> v.Ok? && room)
            && (Transition(w, s, tx, blockId, timestamp) == Aborted <==> v.Ok? && !room)
            && (v.Err? ==> Transition(w, s, tx, blockId, timestamp) == Rejected(v.error))
  {
  }

  // ---- Order of application ----

  /** Account writes in a given order. */
  function WriteAll(accounts: map<AccountId, Account>, entries: seq<(AccountId, Account)>): map<AccountId, Account> {
    if entries == [] then accounts
    else
      var k := |entries| - 1;
      WriteAll(accounts, entries[..k])[entries[k].0 := entries[k].1]
  }

  function KeysOf(entries: seq<(AccountId, Account)>): set<AccountId> {
    if entries == [] then {} else KeysOf(entries[..|entries| - 1]) + {entries[|entries| - 1].0}
  }

  /** `entries` lists the accounts of the diff in some order. */
  ghost predicate Enumerates(entries: seq<(AccountId, Account)>, diff: Diff) {
    && (forall i :: 0 <= i < |entries| ==> entries[i].0 in diff && diff[entries[i].0] == entries[i].1)
    && KeysOf(entries) == diff.Keys
  }

  lemma {:induction false} WriteAllAt(accounts: map<AccountId, Account>, entries: seq<(AccountId, Account)>, diff: Diff, id: AccountId)
    requires forall i :: 0 <= i < |entries| ==> entries[i].0 in diff && diff[entries[i].0] == entries[i].1
    ensures id in WriteAll(accounts, entries) <==> id in accounts || id in KeysOf(entries)
    ensures id in KeysOf(entries) ==> id in diff && WriteAll(accounts, entries)[id] == diff[id]
    ensures id in accounts && id !in KeysOf(entries) ==> WriteAll(accounts, entries)[id] == accounts[id]
  {
    if entries != [] {
      var k := |entries| - 1;
      assert forall i :: 0 <= i < k ==> entries[..k][i] == entries[i];
      WriteAllAt(accounts, entries[..k], diff, id);
    }
  }

  lemma {:induction false} BumpOrderIndependent(accounts: map<AccountId, Account>, a: seq<AccountId>, b: seq<AccountId>)
    requires multiset(a) == multiset(b)
    ensures NoncesFit(accounts, a) <==> NoncesFit(accounts, b)
    ensures NoncesFit(accounts, a) ==> Bumped(accounts, a) == Bumped(accounts, b)
  {
    assert forall id :: id in a <==> id in multiset(a);
    assert forall id :: id in b <==> id in multiset(b);
    assert (set s | s in a) == (set s | s in b);
  }

  /** Applying a diff does not depend on order: every enumeration of its accounts writes the same map, and every
      permutation of the signers raises the same nonces, or aborts alike. */
  lemma {:induction false} OrderIndependent(w: World, s: State, d: StateDiff, signers: seq<AccountId>, entries: seq<(AccountId, Account)>)
    requires Enumerates(entries, d.publicDiff)
    requires multiset(signers) == multiset(d.signerIds)
    ensures WriteAll(s.ledger.accounts, entries) == s.ledger.accounts + d.publicDiff
    ensures Aborts(s, d) <==> Aborts(s, d.(signerIds := signers))
    ensures !Aborts(s, d) ==> Apply(w, s, d) == Apply(w, s, d.(signerIds := signers))
  {
    forall id
      ensures id in WriteAll(s.ledger.accounts, entries) <==> id in s.ledger.accounts + d.publicDiff
      ensures id in WriteAll(s.ledger.accounts, entries) ==>
                WriteAll(s.ledger.accounts, entries)[id] == (s.ledger.accounts + d.publicDiff)[id]
    {
      WriteAllAt(s.ledger.accounts, entries, d.publicDiff, id);
    }
    BumpOrderIndependent(s.ledger.accounts + d.publicDiff, d.signerIds, signers);
  }
}
