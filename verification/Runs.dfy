/** What holds over every run of the zone: any sequence of submitted transactions, accepted or not. */
module Runs {
  import opened Types
  import opened Validator
  import opened Ledgers
  import opened Executor
  import opened CallTree
  import opened Merkle
  import opened Transactions

  datatype Event = Event(tx: Transaction, blockId: u64, timestamp: u64)

  function Take(w: World, s: State, e: Event): Step {
    Transition(w, s, e.tx, e.blockId, e.timestamp)
  }

  /** The state after a sequence of submissions; rejected ones change nothing, and an abort ends the process. */
  function Run(w: World, s: State, events: seq<Event>): Option<State>
    decreases |events|
  {
    if events == [] then Some(s)
    else
      match Take(w, s, events[0])
      case Accepted(next) => Run(w, next, events[1..])
      case Rejected(_) => Run(w, s, events[1..])
      case Aborted => None
  }

  /** Every submission of the run is accepted in its turn. */
  ghost predicate AllAccepted(w: World, s: State, events: seq<Event>)
    decreases |events|
  {
    events == [] || (Take(w, s, events[0]).Accepted? && AllAccepted(w, Take(w, s, events[0]).next, events[1..]))
  }

  ghost predicate OnlyPublic(events: seq<Event>) {
    forall e :: e in events ==> !e.tx.PrivacyPreserving?
  }

  // ---- One accepted transition ----

  /** The signers counted by an accepted transition. */
  function Signatures(w: World, tx: Transaction, id: AccountId): nat {
    match tx
    case Public(tx) => multiset(SignerIds(w, tx.witnesses))[id]
    case PrivacyPreserving(tx) => multiset(SignerIds(w, tx.witnesses))[id]
    case ProgramDeployment(_) => 0
  }

  /** An accepted public transaction comes from a valid log of calls; its overlay and the signers' nonces are all it
      changes. */
  lemma {:induction false} PublicStep(w: World, s: State, e: Event, next: State)
    requires e.tx.Public? && Take(w, s, e) == Accepted(next)
    ensures var ctx := Context(w, s.ledger, e.blockId, e.timestamp);
            && ExecutePublic(ctx, e.tx.publicTx).Ok?
            && ValidLog(ctx, ExecutePublic(ctx, e.tx.publicTx).value)
            && var accounts := s.ledger.accounts + Overlay(ExecutePublic(ctx, e.tx.publicTx).value);
               && NoncesFit(accounts, SignerIds(w, e.tx.publicTx.witnesses))
               && next.ledger.accounts == Bumped(accounts, SignerIds(w, e.tx.publicTx.witnesses))
    ensures next.leaves == s.leaves && next.ledger.commitments == s.ledger.commitments
    ensures next.ledger.programs == s.ledger.programs && next.ledger.nullifiers == s.ledger.nullifiers
  {
    AcceptedLog(Context(w, s.ledger, e.blockId, e.timestamp), e.tx.publicTx);
    assert s.leaves + [] == s.leaves;
  }

  /** `b` is `a` after `signed` more signatures. */
  ghost predicate Signed(a: Account, b: Account, signed: nat) {
    b.programOwner == a.programOwner && b.balance == a.balance && b.data == a.data && b.nonce == a.nonce + signed
  }

  /** An accepted privacy-preserving transaction gives each account it names its post state, raises the signers' nonces on
      top of that, and leaves every other account alone. */
  lemma {:induction false} PrivateStep(w: World, s: State, e: Event, next: State, id: AccountId)
    requires e.tx.PrivacyPreserving? && Take(w, s, e) == Accepted(next)
    ensures var m := e.tx.privateTx.message;
            var b, signed := AccountOf(next.ledger.accounts, id), Signatures(w, e.tx, id);
            && (forall i :: 0 <= i < |m.publicAccountIds| && i < |m.publicPostStates| && m.publicAccountIds[i] == id ==>
                  Signed(m.publicPostStates[i], b, signed))
            && ((forall i :: 0 <= i < |m.publicAccountIds| && i < |m.publicPostStates| ==> m.publicAccountIds[i] != id) ==>
                  Signed(AccountOf(s.ledger.accounts, id), b, signed))
  {
    var ctx := Context(w, s.ledger, e.blockId, e.timestamp);
    var m, d := e.tx.privateTx.message, PrivateDiff(ctx, e.tx.privateTx).value;
    PrivateOverlay(ctx, e.tx.privateTx, s.ledger.accounts, id);
    BumpedAt(s.ledger.accounts + d.publicDiff, d.signerIds, id);
  }

  lemma {:induction false} PrivateOverlay(ctx: Context, tx: PrivateTransaction, accounts: map<AccountId, Account>, id: AccountId)
    requires PrivateDiff(ctx, tx).Ok?
    ensures var m, overlaid := tx.message, accounts + PrivateDiff(ctx, tx).value.publicDiff;
            && (forall i :: 0 <= i < |m.publicAccountIds| && i < |m.publicPostStates| && m.publicAccountIds[i] == id ==>
                  AccountOf(overlaid, id) == m.publicPostStates[i])
            && ((forall i :: 0 <= i < |m.publicAccountIds| && i < |m.publicPostStates| ==> m.publicAccountIds[i] != id) ==>
                  AccountOf(overlaid, id) == AccountOf(accounts, id))
  {
    var m := tx.message;
    PrivateDiffExact(ctx, tx);
    var n := Min(|m.publicAccountIds|, |m.publicPostStates|);
    assert forall i :: 0 <= i < n ==> m.publicAccountIds[..n][i] == m.publicAccountIds[i];
  }

  /** It appends its commitments, spends its nullifiers and deploys nothing. */
  lemma {:induction false} PrivateStepRecords(w: World, s: State, e: Event, next: State)
    requires e.tx.PrivacyPreserving? && Take(w, s, e) == Accepted(next)
    ensures next.leaves == s.leaves + e.tx.privateTx.message.newCommitments && next.ledger.programs == s.ledger.programs
    ensures forall n :: n in next.ledger.nullifiers
              <==> n in s.ledger.nullifiers || n in Firsts(e.tx.privateTx.message.newNullifiers)
  {
    var ctx := Context(w, s.ledger, e.blockId, e.timestamp);
    assert PrivateDiff(ctx, e.tx.privateTx).value.newNullifiers == Firsts(e.tx.privateTx.message.newNullifiers);
  }

  /** An accepted deployment adds one new program and changes no account and no commitment. */
  lemma {:induction false} DeploymentStep(w: World, s: State, e: Event, next: State)
    requires e.tx.ProgramDeployment? && Take(w, s, e) == Accepted(next)
    ensures next.ledger.accounts == s.ledger.accounts && next.leaves == s.leaves
    ensures w.newProgram(e.tx.deploymentTx.bytecode).Some?
    ensures var program := w.newProgram(e.tx.deploymentTx.bytecode).value;
            program.id !in s.ledger.programs && next.ledger.programs == s.ledger.programs[program.id := program]
  {
    assert s.ledger.accounts + map[] == s.ledger.accounts;
    assert Bumped(s.ledger.accounts, []) == s.ledger.accounts;
  }

  /** What an accepted transaction that is not privacy-preserving does to any one account. */
  ghost predicate AccountKept(a: Account, b: Account, signatures: nat) {
    && b.nonce == a.nonce + signatures
    && (a.programOwner != DEFAULT_PROGRAM_ID ==> b.programOwner == a.programOwner)
    && (a.programOwner == DEFAULT_PROGRAM_ID && a != DEFAULT_ACCOUNT ==>
          b.programOwner == a.programOwner && b.balance == a.balance && b.data == a.data)
  }

  lemma {:induction false} StepKeepsAccount(w: World, s: State, e: Event, next: State, id: AccountId)
    requires !e.tx.PrivacyPreserving? && Take(w, s, e) == Accepted(next)
    ensures AccountKept(AccountOf(s.ledger.accounts, id), AccountOf(next.ledger.accounts, id), Signatures(w, e.tx, id))
  {
    if e.tx.Public? {
      PublicStep(w, s, e, next);
      var ctx := Context(w, s.ledger, e.blockId, e.timestamp);
      var log := ExecutePublic(ctx, e.tx.publicTx).value;
      var accounts, signers := s.ledger.accounts + Overlay(log), SignerIds(w, e.tx.publicTx.witnesses);
      TreeKeeps(ctx, log, id);
      BumpedAt(accounts, signers, id);
    } else {
      DeploymentStep(w, s, e, next);
    }
  }

  // ---- Conservation ----

  ghost predicate SameBalances(m: map<AccountId, Account>, m': map<AccountId, Account>) {
    forall id :: AccountOf(m, id).balance == AccountOf(m', id).balance
  }

  lemma {:induction false} WithoutOne(m: map<AccountId, Account>, m': map<AccountId, Account>, id: AccountId)
    requires SameBalances(m, m')
    ensures SameBalances(m - {id}, m' - {id})
  {
    forall k
      ensures AccountOf(m - {id}, k).balance == AccountOf(m' - {id}, k).balance
    {
      assert AccountOf(m, k).balance == AccountOf(m', k).balance;
    }
  }

  lemma {:induction false} TotalSplit(m: map<AccountId, Account>, id: AccountId)
    ensures Total(m) == AccountOf(m, id).balance + Total(m - {id})
  {
    if id in m {
      TotalRemove(m, id);
    } else {
      assert m - {id} == m;
    }
  }

  lemma {:induction false} TotalByBalance(m: map<AccountId, Account>, m': map<AccountId, Account>)
    requires SameBalances(m, m')
    ensures Total(m) == Total(m')
    decreases |m| + |m'|
  {
    if id :| id in m || id in m' {
      TotalSplit(m, id);
      TotalSplit(m', id);
      WithoutOne(m, m', id);
      assert AccountOf(m, id).balance == AccountOf(m', id).balance;
      SmallerWithout(m, m', id);
      TotalByBalance(m - {id}, m' - {id});
    } else {
      assert m == map[] && m' == map[];
    }
  }

  lemma {:induction false} SmallerWithout(m: map<AccountId, Account>, m': map<AccountId, Account>, id: AccountId)
    requires id in m || id in m'
    ensures |m - {id}| + |m' - {id}| < |m| + |m'|
  {
    assert (m - {id}).Keys == m.Keys - {id} && (m' - {id}).Keys == m'.Keys - {id};
    assert |m.Keys| == |m| && |m'.Keys| == |m'|;
    assert |(m - {id}).Keys| == |m - {id}| && |(m' - {id}).Keys| == |m' - {id}|;
  }

  lemma {:induction false} StepConserves(w: World, s: State, e: Event, next: State)
    requires !e.tx.PrivacyPreserving? && Take(w, s, e) == Accepted(next)
    ensures Total(next.ledger.accounts) == Total(s.ledger.accounts)
  {
    if e.tx.Public? {
      PublicStep(w, s, e, next);
      var ctx := Context(w, s.ledger, e.blockId, e.timestamp);
      var log := ExecutePublic(ctx, e.tx.publicTx).value;
      var accounts, signers := s.ledger.accounts + Overlay(log), SignerIds(w, e.tx.publicTx.witnesses);
      TreeConserves(ctx, log);
      forall id
        ensures AccountOf(accounts, id).balance == AccountOf(next.ledger.accounts, id).balance
      {
        BumpedAt(accounts, signers, id);
      }
      TotalByBalance(accounts, next.ledger.accounts);
    } else {
      DeploymentStep(w, s, e, next);
    }
  }

  /** Supply is conserved: over every run of public and deployment transactions, with arbitrary programs, the sum of
      all public balances never changes. */
  lemma {:induction false} SupplyConserved(w: World, s: State, events: seq<Event>)
    requires OnlyPublic(events) && Run(w, s, events).Some?
    ensures Total(Run(w, s, events).value.ledger.accounts) == Total(s.ledger.accounts)
    decreases |events|
  {
    if events != [] {
      match Take(w, s, events[0])
      case Accepted(next) =>
        StepConserves(w, s, events[0], next);
        SupplyConserved(w, next, events[1..]);
      case Rejected(_) =>
        SupplyConserved(w, s, events[1..]);
      case Aborted =>
    }
  }

  // ---- Nonces and ownership ----

  /** How often `id` signed the accepted transactions of a run. */
  function SignatureCount(w: World, s: State, events: seq<Event>, id: AccountId): nat
    decreases |events|
  {
    if events == [] then 0
    else
      match Take(w, s, events[0])
      case Accepted(next) => Signatures(w, events[0].tx, id) + SignatureCount(w, next, events[1..], id)
      case Rejected(_) => SignatureCount(w, s, events[1..], id)
      case Aborted => 0
  }

  /** Over every run of public and deployment transactions: the nonce counts the accepted signatures exactly, an owner
      once set is permanent, and an account that is default-owned but not default keeps owner, balance and data forever. */
  lemma {:induction false} AccountsOverRuns(w: World, s: State, events: seq<Event>, id: AccountId)
    requires OnlyPublic(events) && Run(w, s, events).Some?
    ensures AccountKept(AccountOf(s.ledger.accounts, id), AccountOf(Run(w, s, events).value.ledger.accounts, id),
                        SignatureCount(w, s, events, id))
    decreases |events|
  {
    if events != [] {
      match Take(w, s, events[0])
      case Accepted(next) =>
        StepKeepsAccount(w, s, events[0], next, id);
        AccountsOverRuns(w, next, events[1..], id);
      case Rejected(_) =>
        AccountsOverRuns(w, s, events[1..], id);
      case Aborted =>
    }
  }

  /** A key that signs while its account is default-owned and is left so has stranded the account: no later run of
      public transactions can give it an owner, a balance or data. */
  lemma {:induction false} UnclaimedSignerIsStranded(w: World, s: State, e: Event, next: State, events: seq<Event>, id: AccountId)
    requires e.tx.Public? && Take(w, s, e) == Accepted(next)
    requires id in SignerIds(w, e.tx.publicTx.witnesses)
    requires AccountOf(next.ledger.accounts, id).programOwner == DEFAULT_PROGRAM_ID
    requires OnlyPublic(events) && Run(w, next, events).Some?
    ensures var a, b := AccountOf(next.ledger.accounts, id), AccountOf(Run(w, next, events).value.ledger.accounts, id);
            b.programOwner == DEFAULT_PROGRAM_ID && b.balance == a.balance && b.data == a.data
  {
    StepKeepsAccount(w, s, e, next, id);
    assert multiset(SignerIds(w, e.tx.publicTx.witnesses))[id] > 0;
    AccountsOverRuns(w, next, events, id);
  }

  /** Nor does any call of a later accepted public transaction report the account: every output with it is rejected. */
  lemma {:induction false} StrandedIsNeverTouched(
    w: World, s: State, e: Event, next: State, events: seq<Event>, id: AccountId, later: Event, k: nat)
    requires e.tx.Public? && Take(w, s, e) == Accepted(next)
    requires id in SignerIds(w, e.tx.publicTx.witnesses)
    requires AccountOf(next.ledger.accounts, id).programOwner == DEFAULT_PROGRAM_ID
    requires OnlyPublic(events) && Run(w, next, events).Some?
    requires later.tx.Public? && Take(w, Run(w, next, events).value, later).Accepted?
    requires k < |LogOf(w, Run(w, next, events).value, later)|
    ensures forall i: nat :: !Touched(LogOf(w, Run(w, next, events).value, later)[k], i, id)
  {
    var last := Run(w, next, events).value;
    StepKeepsAccount(w, s, e, next, id);
    assert multiset(SignerIds(w, e.tx.publicTx.witnesses))[id] > 0;
    AccountsOverRuns(w, next, events, id);
    PublicStep(w, last, later, Take(w, last, later).next);
    NeverTouched(Context(w, last.ledger, later.blockId, later.timestamp), LogOf(w, last, later), id, k);
  }

  /** The executed calls of a public transaction that is accepted. */
  function LogOf(w: World, s: State, e: Event): seq<Executed> {
    if !e.tx.Public? then []
    else
      match ExecutePublic(Context(w, s.ledger, e.blockId, e.timestamp), e.tx.publicTx)
      case Err(_) => []
      case Ok(log) => log
  }

  /** A signer's account is left default-owned exactly when it was so before and no executed call of a program with
      another id claimed it. */
  lemma {:induction false} LeftDefaultOwnedIff(w: World, s: State, e: Event, next: State, id: AccountId)
    requires e.tx.Public? && Take(w, s, e) == Accepted(next)
    ensures AccountOf(next.ledger.accounts, id).programOwner == DEFAULT_PROGRAM_ID
       <==> && AccountOf(s.ledger.accounts, id).programOwner == DEFAULT_PROGRAM_ID
            && forall k :: 0 <= k < |LogOf(w, s, e)| && Claims(w, LogOf(w, s, e)[k], id) ==> LogOf(w, s, e)[k].Pid() == DEFAULT_PROGRAM_ID
  {
    PublicStep(w, s, e, next);
    var log := LogOf(w, s, e);
    StaysDefaultOwnedIff(Context(w, s.ledger, e.blockId, e.timestamp), e.tx.publicTx, id);
    BumpedAt(s.ledger.accounts + Overlay(log), SignerIds(w, e.tx.publicTx.witnesses), id);
  }

  // ---- Growth ----

  ghost predicate Grows(a: Ledger, b: Ledger) {
    && a.programs.Keys <= b.programs.Keys
    && (forall p :: p in a.programs ==> b.programs[p] == a.programs[p])
    && a.commitments.Keys <= b.commitments.Keys
    && a.rootHistory <= b.rootHistory
    && a.nullifiers <= b.nullifiers
  }

  lemma {:induction false} IndexedKeys(index: map<Commitment, nat>, start: nat, commitments: seq<Commitment>)
    ensures Indexed(index, start, commitments).Keys == index.Keys + set c | c in commitments
  {
    if commitments != [] {
      var k := |commitments| - 1;
      IndexedKeys(index, start, commitments[..k]);
      assert commitments == commitments[..k] + [commitments[k]];
    }
  }

  lemma {:induction false} StepGrows(w: World, s: State, e: Event, next: State)
    requires Take(w, s, e) == Accepted(next)
    ensures Grows(s.ledger, next.ledger)
  {
    var d := Validate(Context(w, s.ledger, e.blockId, e.timestamp), e.tx).value;
    IndexedKeys(s.ledger.commitments, |s.leaves|, d.newCommitments);
  }

  lemma {:induction false} RunGrows(w: World, s: State, events: seq<Event>)
    requires Run(w, s, events).Some?
    ensures Grows(s.ledger, Run(w, s, events).value.ledger)
    decreases |events|
  {
    if events != [] {
      match Take(w, s, events[0])
      case Accepted(next) =>
        StepGrows(w, s, events[0], next);
        RunGrows(w, next, events[1..]);
      case Rejected(_) =>
        RunGrows(w, s, events[1..]);
      case Aborted =>
    }
  }

  // ---- No transaction is accepted twice ----

  /** The transaction names a commitment or a nullifier, under whatever digest, that the ledger already has. */
  ghost predicate Spent(ledger: Ledger, m: PrivateMessage) {
    || (exists c :: c in m.newCommitments && c in ledger.commitments)
    || (exists i :: 0 <= i < |m.newNullifiers| && m.newNullifiers[i].0 in ledger.nullifiers)
  }

  /** Both transactions create the same commitment or spend the same nullifier. */
  ghost predicate Conflicts(a: PrivateMessage, b: PrivateMessage) {
    || (exists c :: c in a.newCommitments && c in b.newCommitments)
    || (exists n :: n in Firsts(a.newNullifiers) && n in Firsts(b.newNullifiers))
  }

  lemma {:induction false} AcceptedIsRecorded(w: World, s: State, e: Event, next: State)
    requires e.tx.PrivacyPreserving? && Take(w, s, e) == Accepted(next)
    ensures forall c :: c in e.tx.privateTx.message.newCommitments ==> c in next.ledger.commitments
    ensures forall n :: n in Firsts(e.tx.privateTx.message.newNullifiers) ==> n in next.ledger.nullifiers
  {
    var d := PrivateDiff(Context(w, s.ledger, e.blockId, e.timestamp), e.tx.privateTx).value;
    IndexedKeys(s.ledger.commitments, |s.leaves|, d.newCommitments);
    assert forall c :: c in d.newCommitments ==> c in next.ledger.commitments.Keys;
  }

  lemma {:induction false} ConflictIsSpent(ledger: Ledger, a: PrivateMessage, b: PrivateMessage)
    requires Conflicts(a, b)
    requires forall c :: c in a.newCommitments ==> c in ledger.commitments
    requires forall n :: n in Firsts(a.newNullifiers) ==> n in ledger.nullifiers
    ensures Spent(ledger, b)
  {
    if n :| n in Firsts(a.newNullifiers) && n in Firsts(b.newNullifiers) {
      var i :| 0 <= i < |b.newNullifiers| && Firsts(b.newNullifiers)[i] == n;
      assert b.newNullifiers[i].0 in ledger.nullifiers;
    }
  }

  lemma {:induction false} NullifierErrorFound(ledger: Ledger, entries: seq<(Nullifier, Digest)>, i: nat, k: nat)
    requires i <= k < |entries| && entries[k].0 in ledger.nullifiers
    ensures FirstNullifierError(ledger, entries, i).Some?
    decreases k - i
  {
    if i < k {
      NullifierErrorFound(ledger, entries, i + 1, k);
    }
  }

  lemma {:induction false} SpentIsRejected(ctx: Context, tx: PrivateTransaction)
    requires Spent(ctx.ledger, tx.message)
    ensures PrivateError(ctx, tx).Some?
  {
    if !exists c :: c in tx.message.newCommitments && c in ctx.ledger.commitments {
      var i :| 0 <= i < |tx.message.newNullifiers| && tx.message.newNullifiers[i].0 in ctx.ledger.nullifiers;
      NullifierErrorFound(ctx.ledger, tx.message.newNullifiers, 0, i);
    }
  }

  /** No double spend: after a privacy-preserving transaction is accepted, every other one that shares a nullifier with it,
      under any digest, or a commitment is rejected in every later state, in whatever block. */
  lemma {:induction false} NoDoubleSpend(w: World, s: State, e: Event, next: State, events: seq<Event>, other: Event)
    requires e.tx.PrivacyPreserving? && Take(w, s, e) == Accepted(next) && Run(w, next, events).Some?
    requires other.tx.PrivacyPreserving? && Conflicts(e.tx.privateTx.message, other.tx.privateTx.message)
    ensures Take(w, Run(w, next, events).value, other).Rejected?
  {
    var last := Run(w, next, events).value;
    AcceptedIsRecorded(w, s, e, next);
    RunGrows(w, next, events);
    ConflictIsSpent(next.ledger, e.tx.privateTx.message, other.tx.privateTx.message);
    SpentStays(next.ledger, last.ledger, other.tx.privateTx.message);
    SpentIsRejected(Context(w, last.ledger, other.blockId, other.timestamp), other.tx.privateTx);
  }

  lemma {:induction false} SpentStays(a: Ledger, b: Ledger, m: PrivateMessage)
    requires Grows(a, b) && Spent(a, m)
    ensures Spent(b, m)
  {
    if c :| c in m.newCommitments && c in a.commitments {
      assert c in b.commitments.Keys;
    }
  }

  /** A privacy-preserving transaction accepted once is rejected in every later state: it conflicts with itself. */
  lemma {:induction false} PrivateAcceptedOnce(w: World, s: State, e: Event, next: State, events: seq<Event>, again: Event)
    requires e.tx.PrivacyPreserving? && Take(w, s, e) == Accepted(next)
    requires Run(w, next, events).Some? && again.tx == e.tx
    ensures Take(w, Run(w, next, events).value, again).Rejected?
  {
    var m := e.tx.privateTx.message;
    if m.newCommitments != [] {
      assert m.newCommitments[0] in m.newCommitments;
    } else {
      assert Firsts(m.newNullifiers)[0] in Firsts(m.newNullifiers);
    }
    NoDoubleSpend(w, s, e, next, events, again);
  }

  /** A program deployed once cannot be deployed again in any later state. */
  lemma {:induction false} DeploymentAcceptedOnce(w: World, s: State, e: Event, next: State, events: seq<Event>, again: Event)
    requires e.tx.ProgramDeployment? && Take(w, s, e) == Accepted(next)
    requires Run(w, next, events).Some? && again.tx == e.tx
    ensures Take(w, Run(w, next, events).value, again) == Rejected(ProgramAlreadyExists)
  {
    RunGrows(w, next, events);
    assert w.newProgram(e.tx.deploymentTx.bytecode).value.id in next.ledger.programs.Keys;
  }

  /** The public accounts a privacy-preserving transaction writes keep their nonces, as far as its own diff goes. */
  ghost predicate DiffKeepsNonces(ledger: Ledger, d: StateDiff) {
    forall id :: id in d.publicDiff ==> d.publicDiff[id].nonce == AccountOf(ledger.accounts, id).nonce
  }

  /** The one guarantee taken from the privacy circuit: accepted diffs of a run keep nonces. */
  ghost predicate PrivateDiffsKeepNonces(w: World, s: State, events: seq<Event>)
    decreases |events|
  {
    events != [] ==>
      match Take(w, s, events[0])
      case Accepted(next) =>
        && (events[0].tx.PrivacyPreserving? ==>
              DiffKeepsNonces(s.ledger, PrivateDiff(Context(w, s.ledger, events[0].blockId, events[0].timestamp), events[0].tx.privateTx).value))
        && PrivateDiffsKeepNonces(w, next, events[1..])
      case Rejected(_) => PrivateDiffsKeepNonces(w, s, events[1..])
      case Aborted => true
  }

  lemma {:induction false} PrivateStepNonces(w: World, s: State, e: Event, next: State, id: AccountId)
    requires e.tx.PrivacyPreserving? && Take(w, s, e) == Accepted(next)
    requires DiffKeepsNonces(s.ledger, PrivateDiff(Context(w, s.ledger, e.blockId, e.timestamp), e.tx.privateTx).value)
    ensures AccountOf(next.ledger.accounts, id).nonce == AccountOf(s.ledger.accounts, id).nonce + Signatures(w, e.tx, id)
  {
    var d := PrivateDiff(Context(w, s.ledger, e.blockId, e.timestamp), e.tx.privateTx).value;
    BumpedAt(s.ledger.accounts + d.publicDiff, d.signerIds, id);
  }

  /** Exact nonce accounting over runs of every kind of transaction, given that private diffs keep nonces. */
  lemma {:induction false} NonceAccounting(w: World, s: State, events: seq<Event>, id: AccountId)
    requires Run(w, s, events).Some? && PrivateDiffsKeepNonces(w, s, events)
    ensures AccountOf(Run(w, s, events).value.ledger.accounts, id).nonce
         == AccountOf(s.ledger.accounts, id).nonce + SignatureCount(w, s, events, id)
    decreases |events|
  {
    if events != [] {
      match Take(w, s, events[0])
      case Accepted(next) =>
        if events[0].tx.PrivacyPreserving? {
          PrivateStepNonces(w, s, events[0], next, id);
        } else {
          StepKeepsAccount(w, s, events[0], next, id);
        }
        NonceAccounting(w, next, events[1..], id);
      case Rejected(_) =>
        NonceAccounting(w, s, events[1..], id);
      case Aborted =>
    }
  }

  /** A public transaction with at least one signer, accepted once, is rejected in every later state. */
  lemma {:induction false} PublicAcceptedOnce(w: World, s: State, e: Event, next: State, events: seq<Event>, again: Event)
    requires e.tx.Public? && e.tx.publicTx.witnesses != [] && Take(w, s, e) == Accepted(next)
    requires Run(w, next, events).Some? && PrivateDiffsKeepNonces(w, next, events) && again.tx == e.tx
    ensures Take(w, Run(w, next, events).value, again) == Rejected(InvalidInput(NonceMismatch))
  {
    var signers := SignerIds(w, e.tx.publicTx.witnesses);
    var id := signers[0];
    StepKeepsAccount(w, s, e, next, id);
    assert multiset(signers)[id] > 0 by {
      assert id in signers;
    }
    NonceAccounting(w, next, events, id);
    var last := Run(w, next, events).value;
    assert AccountOf(last.ledger.accounts, signers[0]).nonce > e.tx.publicTx.message.nonces[0];
    assert !NoncesMatch(last.ledger, signers, e.tx.publicTx.message.nonces);
  }
}
