/** Blocks: user transactions under a guard, then the clock transaction. */
module Blocks {
  import opened Types
  import opened Ledgers
  import opened Executor
  import opened CallTree
  import opened Transactions
  import opened Runs
  import opened Genesis
  import opened Zone

  // ---- The guard on user transactions ----

  /** The diff changes a clock account. */
  predicate TouchesClock(ledger: Ledger, diff: Diff) {
    exists id :: id in CLOCK_ACCOUNT_IDS && id in diff && diff[id] != AccountOf(ledger.accounts, id)
  }

  function ValidateOnState(ctx: Context, tx: Transaction): Result<StateDiff, NssaError> {
    if tx.Public? && tx.publicTx.message.programId == ctx.w.faucetProgram.id then
      Err(InvalidInput(RestrictedFaucetProgram))
    else
      match Validate(ctx, tx)
      case Err(e) => Err(e)
      case Ok(d) => if TouchesClock(ctx.ledger, d.publicDiff) then Err(InvalidInput(ModifiesClockAccounts)) else Ok(d)
  }

  function ExecuteChecked(w: World, s: State, tx: Transaction, blockId: u64, timestamp: u64): Step {
    match ValidateOnState(Context(w, s.ledger, blockId, timestamp), tx)
    case Err(e) => Rejected(e)
    case Ok(d) => if Aborts(s, d) then Aborted else Accepted(Apply(w, s, d))
  }

  predicate WellSigned(w: World, tx: Transaction) {
    match tx
    case Public(tx) => SignaturesValid(w, tx)
    case PrivacyPreserving(tx) => PrivateSignaturesValid(w, tx)
    case ProgramDeployment(_) => true
  }

  /** The only transaction that may move the clocks. */
  function ClockInvocation(w: World, timestamp: u64): PublicTransaction {
    PublicTransaction(PublicMessage(w.clockProgram.id, CLOCK_ACCOUNT_IDS, [], w.serializeTimestamp(timestamp)), [])
  }

  // ---- Blocks ----

  datatype BedrockStatus = Pending | Safe | Finalized

  datatype Block = Block(blockId: u64, timestamp: u64, transactions: seq<Transaction>, status: BedrockStatus)

  datatype BlockError =
    | NoTransactions
    | LastIsNotClockInvocation
    | GenesisNotPublic
    | Malformed
    | TransactionFailed(error: NssaError)
    | ProcessAborted

  const GENESIS_BLOCK_ID: u64 := 1

  /** Where applying a block got to, and what stopped it, if anything: transactions before a failure stay applied. */
  datatype Progress = Progress(state: State, error: Option<BlockError>)

  function FromStep(s: State, step: Step): Progress {
    match step
    case Accepted(next) => Progress(next, None)
    case Rejected(e) => Progress(s, Some(TransactionFailed(e)))
    case Aborted => Progress(s, Some(ProcessAborted))
  }

  function ApplyUserTx(w: World, s: State, block: Block, tx: Transaction): Progress {
    if block.blockId == GENESIS_BLOCK_ID then
      if !tx.Public? then Progress(s, Some(GenesisNotPublic))
      else FromStep(s, Transition(w, s, tx, block.blockId, block.timestamp))
    else if !WellSigned(w, tx) then Progress(s, Some(Malformed))
    else FromStep(s, ExecuteChecked(w, s, tx, block.blockId, block.timestamp))
  }

  function ApplyUserTxs(w: World, s: State, block: Block, txs: seq<Transaction>): Progress {
    if txs == [] then Progress(s, None)
    else
      var k := |txs| - 1;
      var before := ApplyUserTxs(w, s, block, txs[..k]);
      if before.error.Some? then before else ApplyUserTx(w, before.state, block, txs[k])
  }

  function ApplyBlock(w: World, s: State, block: Block): Progress {
    if block.transactions == [] then Progress(s, Some(NoTransactions))
    else
      var k := |block.transactions| - 1;
      if block.transactions[k] != Public(ClockInvocation(w, block.timestamp)) then
        Progress(s, Some(LastIsNotClockInvocation))
      else
        var users := ApplyUserTxs(w, s, block, block.transactions[..k]);
        if users.error.Some? then users
        else FromStep(users.state, Transition(w, users.state, block.transactions[k], block.blockId, block.timestamp))
  }

  /** The guard accepts exactly the acceptable transactions that do not call the faucet directly and do not change a
      clock account, with the same effect. */
  lemma {:induction false} GuardIff(w: World, s: State, tx: Transaction, blockId: u64, timestamp: u64, next: State)
    ensures ExecuteChecked(w, s, tx, blockId, timestamp) == Accepted(next)
       <==> && Transition(w, s, tx, blockId, timestamp) == Accepted(next)
            && !(tx.Public? && tx.publicTx.message.programId == w.faucetProgram.id)
            && !TouchesClock(s.ledger, Validate(Context(w, s.ledger, blockId, timestamp), tx).value.publicDiff)
  {
    var ctx := Context(w, s.ledger, blockId, timestamp);
    if ValidateOnState(ctx, tx).Ok? {
      assert ValidateOnState(ctx, tx) == Validate(ctx, tx);
    }
  }

  /** The faucet restriction looks at the first call only: among the acceptable public transactions the guard turns away
      exactly those whose first call runs the faucet program or that change a clock account, so every run of the faucet
      program that it lets through was asked for by another program. */
  lemma {:induction false} GuardOnCalls(w: World, s: State, tx: PublicTransaction, blockId: u64, timestamp: u64)
    requires Transition(w, s, Public(tx), blockId, timestamp).Accepted?
    ensures var ctx := Context(w, s.ledger, blockId, timestamp);
            && ExecutePublic(ctx, tx).Ok?
            && var log := ExecutePublic(ctx, tx).value;
               && log != []
               && (ExecuteChecked(w, s, Public(tx), blockId, timestamp).Accepted?
                   <==> log[0].Pid() != w.faucetProgram.id && !TouchesClock(s.ledger, Overlay(log)))
               && (ExecuteChecked(w, s, Public(tx), blockId, timestamp).Accepted? ==>
                     forall k :: 0 <= k < |log| && log[k].Pid() == w.faucetProgram.id ==>
                       exists p :: 0 <= p < k && log[k].frame in Children(log[p]))
  {
    var ctx := Context(w, s.ledger, blockId, timestamp);
    var root := RootFrame(w, s.ledger, tx);
    AcceptedLog(ctx, tx);
    var log := ExecutePublic(ctx, tx).value;
    assert Spawned(log, root, log[0].frame, 0);
    GuardIff(w, s, Public(tx), blockId, timestamp, Transition(w, s, Public(tx), blockId, timestamp).next);
    forall k | 0 <= k < |log| && log[k].Pid() == w.faucetProgram.id && ExecuteChecked(w, s, Public(tx), blockId, timestamp).Accepted?
      ensures exists p :: 0 <= p < k && log[k].frame in Children(log[p])
    {
      assert Spawned(log, root, log[k].frame, k);
    }
  }

  // ---- Clock isolation ----

  /** Everything of an account but its nonce. */
  ghost predicate SameCore(a: Account, b: Account) {
    a.programOwner == b.programOwner && a.balance == b.balance && a.data == b.data
  }

  ghost predicate ClocksKept(s: State, s': State) {
    forall id :: id in CLOCK_ACCOUNT_IDS ==> SameCore(AccountOf(s.ledger.accounts, id), AccountOf(s'.ledger.accounts, id))
  }

  lemma {:induction false} UntouchedClocksKept(w: World, s: State, d: StateDiff)
    requires !Aborts(s, d) && !TouchesClock(s.ledger, d.publicDiff)
    ensures ClocksKept(s, Apply(w, s, d))
  {
    forall id | id in CLOCK_ACCOUNT_IDS
      ensures SameCore(AccountOf(s.ledger.accounts, id), AccountOf(Apply(w, s, d).ledger.accounts, id))
    {
      BumpedAt(s.ledger.accounts + d.publicDiff, d.signerIds, id);
    }
  }

  lemma {:induction false} CheckedKeepsClocks(w: World, s: State, tx: Transaction, blockId: u64, timestamp: u64)
    requires ExecuteChecked(w, s, tx, blockId, timestamp).Accepted?
    ensures ClocksKept(s, ExecuteChecked(w, s, tx, blockId, timestamp).next)
    ensures Transition(w, s, tx, blockId, timestamp) == ExecuteChecked(w, s, tx, blockId, timestamp)
  {
    GuardIff(w, s, tx, blockId, timestamp, ExecuteChecked(w, s, tx, blockId, timestamp).next);
    UntouchedClocksKept(w, s, Validate(Context(w, s.ledger, blockId, timestamp), tx).value);
  }

  lemma {:induction false} UserTxsKeepClocks(w: World, s: State, block: Block, txs: seq<Transaction>)
    requires block.blockId != GENESIS_BLOCK_ID && ApplyUserTxs(w, s, block, txs).error.None?
    ensures ClocksKept(s, ApplyUserTxs(w, s, block, txs).state)
  {
    if txs != [] {
      var k := |txs| - 1;
      UserTxsKeepClocks(w, s, block, txs[..k]);
      CheckedKeepsClocks(w, ApplyUserTxs(w, s, block, txs[..k]).state, txs[k], block.blockId, block.timestamp);
    }
  }

  lemma {:induction false} UsersApply(w: World, s: State, block: Block)
    requires ApplyBlock(w, s, block).error.None?
    ensures block.transactions != []
    ensures ApplyUserTxs(w, s, block, block.transactions[..|block.transactions| - 1]).error.None?
  {
  }

  /** Clock isolation: in a block after genesis that applies, no user transaction of any kind changes the owner, balance
      or data of a clock account. */
  lemma {:induction false} ClockIsolation(w: World, s: State, block: Block, i: nat)
    requires block.blockId != GENESIS_BLOCK_ID && ApplyBlock(w, s, block).error.None?
    requires i < |block.transactions|
    ensures ApplyUserTxs(w, s, block, block.transactions[..i]).error.None?
    ensures ClocksKept(s, ApplyUserTxs(w, s, block, block.transactions[..i]).state)
  {
    var k := |block.transactions| - 1;
    UsersApply(w, s, block);
    NoErrorBefore(w, s, block, block.transactions[..k], i);
    assert block.transactions[..k][..i] == block.transactions[..i];
    UserTxsKeepClocks(w, s, block, block.transactions[..i]);
  }

  /** The final transaction of a block that applies is the clock invocation for the block's timestamp, accepted in the
      state the user transactions left. */
  lemma {:induction false} ClockTransactionIsLast(w: World, s: State, block: Block)
    requires ApplyBlock(w, s, block).error.None?
    ensures block.transactions != []
    ensures var k := |block.transactions| - 1;
            && block.transactions[k] == Public(ClockInvocation(w, block.timestamp))
            && Transition(w, ApplyUserTxs(w, s, block, block.transactions[..k]).state, block.transactions[k], block.blockId, block.timestamp)
               == Accepted(ApplyBlock(w, s, block).state)
  {
  }

  lemma {:induction false} NoErrorBefore(w: World, s: State, block: Block, txs: seq<Transaction>, i: nat)
    requires i <= |txs| && ApplyUserTxs(w, s, block, txs).error.None?
    ensures ApplyUserTxs(w, s, block, txs[..i]).error.None?
  {
    if i == |txs| {
      assert txs[..i] == txs;
    } else {
      NoErrorBefore(w, s, block, txs[..|txs| - 1], i);
      assert txs[..|txs| - 1][..i] == txs[..i];
    }
  }

  // ---- When a block applies ----

  /** A user transaction applies: in the genesis block if it is public and acceptable; later if it is validly signed,
      acceptable, does not call the faucet program first and changes no clock account. */
  ghost predicate UserTxApplies(w: World, s: State, block: Block, tx: Transaction) {
    && Transition(w, s, tx, block.blockId, block.timestamp).Accepted?
    && (block.blockId == GENESIS_BLOCK_ID ==> tx.Public?)
    && (block.blockId != GENESIS_BLOCK_ID ==>
          && (tx.Public? ==> tx.publicTx.message.programId != w.faucetProgram.id)
          && (tx.Public? ==> forall i :: 0 <= i < |tx.publicTx.witnesses| ==>
                w.publicSignatureValid(tx.publicTx.witnesses[i].0, tx.publicTx.message, tx.publicTx.witnesses[i].1))
          && (tx.PrivacyPreserving? ==> forall i :: 0 <= i < |tx.privateTx.witnesses| ==>
                w.privateSignatureValid(tx.privateTx.witnesses[i].0, tx.privateTx.message, tx.privateTx.witnesses[i].1))
          && var diff := Validate(Context(w, s.ledger, block.blockId, block.timestamp), tx).value.publicDiff;
             forall id :: id in diff && id in [CLOCK_01, CLOCK_10, CLOCK_50] ==> diff[id] == AccountOf(s.ledger.accounts, id))
  }

  lemma {:induction false} UserTxAppliesIff(w: World, s: State, block: Block, tx: Transaction)
    ensures ApplyUserTx(w, s, block, tx).error.None? <==> UserTxApplies(w, s, block, tx)
    ensures ApplyUserTx(w, s, block, tx).error.Some? ==> ApplyUserTx(w, s, block, tx).state == s
    ensures ApplyUserTx(w, s, block, tx).error.None? ==>
              Accepted(ApplyUserTx(w, s, block, tx).state) == Transition(w, s, tx, block.blockId, block.timestamp)
  {
    if block.blockId != GENESIS_BLOCK_ID && Transition(w, s, tx, block.blockId, block.timestamp).Accepted? {
      GuardIff(w, s, tx, block.blockId, block.timestamp, Transition(w, s, tx, block.blockId, block.timestamp).next);
    }
    if ApplyUserTx(w, s, block, tx).error.None? {
      UserTxIsTransition(w, s, block, tx);
    }
  }

  ghost predicate UserTxAppliesAt(w: World, s: State, block: Block, txs: seq<Transaction>, k: nat)
    requires k < |txs|
  {
    UserTxApplies(w, ApplyUserTxs(w, s, block, txs[..k]).state, block, txs[k])
  }

  /** User transactions all apply, or stop at the first that does not, in the state it found. */
  lemma {:induction false} UserTxsStop(w: World, s: State, block: Block, txs: seq<Transaction>) returns (k: nat)
    ensures k <= |txs| && ApplyUserTxs(w, s, block, txs[..k]).error.None?
    ensures ApplyUserTxs(w, s, block, txs).state == ApplyUserTxs(w, s, block, txs[..k]).state
    ensures k == |txs| <==> ApplyUserTxs(w, s, block, txs).error.None?
    ensures k < |txs| ==> !UserTxAppliesAt(w, s, block, txs, k)
  {
    if txs == [] {
      k := 0;
    } else {
      var n := |txs| - 1;
      k := UserTxsStop(w, s, block, txs[..n]);
      assert txs[..n][..k] == txs[..k];
      if k == n {
        UserTxAppliesIff(w, ApplyUserTxs(w, s, block, txs[..n]).state, block, txs[n]);
        if ApplyUserTxs(w, s, block, txs).error.None? {
          k := n + 1;
          assert txs[..k] == txs;
        }
      }
    }
  }

  lemma {:induction false} AllUserTxsApply(w: World, s: State, block: Block, txs: seq<Transaction>, k: nat)
    requires ApplyUserTxs(w, s, block, txs).error.None? && k < |txs|
    ensures UserTxAppliesAt(w, s, block, txs, k)
  {
    var n := |txs| - 1;
    if k == n {
      UserTxAppliesIff(w, ApplyUserTxs(w, s, block, txs[..n]).state, block, txs[n]);
    } else {
      AllUserTxsApply(w, s, block, txs[..n], k);
      assert txs[..n][..k] == txs[..k];
    }
  }

  lemma {:induction false} UserTxsApplyIff(w: World, s: State, block: Block, txs: seq<Transaction>)
    ensures ApplyUserTxs(w, s, block, txs).error.None? <==> forall k :: 0 <= k < |txs| ==> UserTxAppliesAt(w, s, block, txs, k)
  {
    if ApplyUserTxs(w, s, block, txs).error.None? {
      forall k | 0 <= k < |txs|
        ensures UserTxAppliesAt(w, s, block, txs, k)
      {
        AllUserTxsApply(w, s, block, txs, k);
      }
    } else {
      var k := UserTxsStop(w, s, block, txs);
    }
  }

  /** A block applies exactly when it ends with the clock invocation for its timestamp, its user transactions apply in
      turn, and the clock invocation is acceptable after them. */
  lemma {:induction false} BlockAppliesIff(w: World, s: State, block: Block)
    ensures ApplyBlock(w, s, block).error.None? <==>
      && block.transactions != []
      && var k := |block.transactions| - 1;
         var users := block.transactions[..k];
         && block.transactions[k] == Public(ClockInvocation(w, block.timestamp))
         && (forall i :: 0 <= i < k ==> UserTxAppliesAt(w, s, block, users, i))
         && Transition(w, ApplyUserTxs(w, s, block, users).state, block.transactions[k], block.blockId, block.timestamp).Accepted?
  {
    if block.transactions != [] {
      UserTxsApplyIff(w, s, block, block.transactions[..|block.transactions| - 1]);
    }
  }

  // ---- Blocks are runs ----

  function EventsOf(block: Block, txs: seq<Transaction>): (events: seq<Event>)
    ensures |events| == |txs|
  {
    seq(|txs|, i requires 0 <= i < |txs| => EventOf(block, txs[i]))
  }

  /** Accepting every event leads from `s` to `t`. */
  ghost predicate LeadsTo(w: World, s: State, events: seq<Event>, t: State) {
    AllAccepted(w, s, events) && Run(w, s, events) == Some(t)
  }

  lemma {:induction false} ExtendRun(w: World, s: State, events: seq<Event>, e: Event, middle: State, next: State)
    requires LeadsTo(w, s, events, middle) && Take(w, middle, e) == Accepted(next)
    ensures LeadsTo(w, s, events + [e], next)
    decreases |events|
  {
    if events == [] {
      assert (events + [e])[1..] == [];
    } else {
      assert (events + [e])[0] == events[0] && (events + [e])[1..] == events[1..] + [e];
      ExtendRun(w, Take(w, s, events[0]).next, events[1..], e, middle, next);
    }
  }

  function EventOf(block: Block, tx: Transaction): Event {
    Event(tx, block.blockId, block.timestamp)
  }

  lemma EventsSnoc(block: Block, txs: seq<Transaction>)
    requires txs != []
    ensures EventsOf(block, txs) == EventsOf(block, txs[..|txs| - 1]) + [EventOf(block, txs[|txs| - 1])]
  {
  }

  lemma {:induction false} UserTxIsTransition(w: World, s: State, block: Block, tx: Transaction)
    requires ApplyUserTx(w, s, block, tx).error.None?
    ensures Transition(w, s, tx, block.blockId, block.timestamp) == Accepted(ApplyUserTx(w, s, block, tx).state)
  {
    if block.blockId != GENESIS_BLOCK_ID {
      CheckedKeepsClocks(w, s, tx, block.blockId, block.timestamp);
    }
  }

  lemma {:induction false} UserTxsAreRun(w: World, s: State, block: Block, txs: seq<Transaction>)
    requires ApplyUserTxs(w, s, block, txs).error.None?
    ensures LeadsTo(w, s, EventsOf(block, txs), ApplyUserTxs(w, s, block, txs).state)
  {
    if txs != [] {
      var k := |txs| - 1;
      var middle := ApplyUserTxs(w, s, block, txs[..k]).state;
      UserTxsAreRun(w, s, block, txs[..k]);
      UserTxIsTransition(w, middle, block, txs[k]);
      ExtendRun(w, s, EventsOf(block, txs[..k]), EventOf(block, txs[k]), middle, ApplyUserTxs(w, s, block, txs).state);
      EventsSnoc(block, txs);
    }
  }

  /** A block that applies is a run of its transactions, each of them accepted, so everything proved of runs holds of
      blocks. */
  lemma {:induction false} BlockIsRun(w: World, s: State, block: Block)
    requires ApplyBlock(w, s, block).error.None?
    ensures LeadsTo(w, s, EventsOf(block, block.transactions), ApplyBlock(w, s, block).state)
  {
    var txs, k := block.transactions, |block.transactions| - 1;
    UserTxsAreRun(w, s, block, txs[..k]);
    ExtendRun(w, s, EventsOf(block, txs[..k]), EventOf(block, txs[k]), ApplyUserTxs(w, s, block, txs[..k]).state,
              ApplyBlock(w, s, block).state);
    EventsSnoc(block, txs);
  }

  // ---- The implementation ----

  method CheckTouchesClock(ledger: Ledger, diff: Diff) returns (r: bool)
    ensures r == TouchesClock(ledger, diff)
  {
    for i := 0 to |CLOCK_ACCOUNT_IDS|
      invariant forall k :: 0 <= k < i ==>
                  CLOCK_ACCOUNT_IDS[k] in diff ==> diff[CLOCK_ACCOUNT_IDS[k]] == AccountOf(ledger.accounts, CLOCK_ACCOUNT_IDS[k])
    {
      var id := CLOCK_ACCOUNT_IDS[i];
      if id in diff && diff[id] != AccountOf(ledger.accounts, id) {
        return true;
      }
    }
    r := false;
  }

  method ExecuteCheckOnState(state: V03State, tx: Transaction, blockId: u64, timestamp: u64) returns (r: Outcome)
    requires state.Valid()
    modifies state.Repr()
    ensures match ExecuteChecked(state.w, old(state.Abs()), tx, blockId, timestamp)
            case Accepted(next) => r == Done && state.Valid() && fresh(state.Repr() - old(state.Repr())) && state.Abs() == next
            case Rejected(e) => r == Failed(e) && state.Valid() && state.Repr() == old(state.Repr()) && state.Abs() == old(state.Abs())
            case Aborted => r == Crashed
  {
    if tx.Public? && tx.publicTx.message.programId == state.w.faucetProgram.id {
      return Failed(InvalidInput(RestrictedFaucetProgram));
    }
    var diff := state.ValidateTransaction(tx, blockId, timestamp);
    if diff.Err? {
      return Failed(diff.error);
    }
    var touches := CheckTouchesClock(state.Snapshot(), diff.value.publicDiff);
    if touches {
      return Failed(InvalidInput(ModifiesClockAccounts));
    }
    r := state.ApplyStateDiff(diff.value);
  }

  function ErrorOf(r: Outcome): Option<BlockError> {
    match r
    case Done => None
    case Failed(e) => Some(TransactionFailed(e))
    case Crashed => Some(ProcessAborted)
  }

  /** Outcome of applying a part of a block in place: as specified, unless the process aborted. */
  ghost predicate Reached(r: Option<BlockError>, valid: bool, abs: State, p: Progress) {
    r == p.error && (r != Some(ProcessAborted) ==> valid && abs == p.state)
  }

  method ApplyUserTransaction(state: V03State, block: Block, tx: Transaction) returns (r: Option<BlockError>)
    requires state.Valid()
    modifies state.Repr()
    ensures Reached(r, state.Valid(), state.Abs(), ApplyUserTx(state.w, old(state.Abs()), block, tx))
    ensures r != Some(ProcessAborted) ==> fresh(state.Repr() - old(state.Repr()))
  {
    if block.blockId == GENESIS_BLOCK_ID {
      if !tx.Public? {
        return Some(GenesisNotPublic);
      }
      var outcome := state.TransitionFrom(tx, block.blockId, block.timestamp);
      r := ErrorOf(outcome);
    } else {
      if !WellSigned(state.w, tx) {
        return Some(Malformed);
      }
      var outcome := ExecuteCheckOnState(state, tx, block.blockId, block.timestamp);
      r := ErrorOf(outcome);
    }
  }

  method ApplyUserTransactions(state: V03State, block: Block, txs: seq<Transaction>) returns (r: Option<BlockError>)
    requires state.Valid()
    modifies state.Repr()
    ensures Reached(r, state.Valid(), state.Abs(), ApplyUserTxs(state.w, old(state.Abs()), block, txs))
    ensures r != Some(ProcessAborted) ==> fresh(state.Repr() - old(state.Repr()))
  {
    ghost var start := state.Abs();
    for i := 0 to |txs|
      invariant state.Valid() && fresh(state.Repr() - old(state.Repr()))
      invariant ApplyUserTxs(state.w, start, block, txs[..i]) == Progress(state.Abs(), None)
    {
      assert txs[..i + 1][..i] == txs[..i];
      r := ApplyUserTransaction(state, block, txs[i]);
      if r.Some? {
        StopsAt(state.w, start, block, txs, i + 1);
        return;
      }
    }
    assert txs[..|txs|] == txs;
    r := None;
  }

  /** Applies a block to the current state and returns it finalized for storage. On failure the transactions before the
      failing one stay applied. */
  method PutBlock(state: V03State, block: Block) returns (r: Result<Block, BlockError>)
    requires state.Valid()
    modifies state.Repr()
    ensures var p := ApplyBlock(state.w, old(state.Abs()), block);
            && r == (if p.error.Some? then Err(p.error.value) else Ok(block.(status := Finalized)))
            && (p.error != Some(ProcessAborted) ==> state.Valid() && state.Abs() == p.state)
  {
    if block.transactions == [] {
      return Err(NoTransactions);
    }
    var k := |block.transactions| - 1;
    var clockTx, userTxs := block.transactions[k], block.transactions[..k];
    if clockTx != Public(ClockInvocation(state.w, block.timestamp)) {
      return Err(LastIsNotClockInvocation);
    }
    var failed := ApplyUserTransactions(state, block, userTxs);
    if failed.Some? {
      return Err(failed.value);
    }
    var outcome := state.TransitionFrom(clockTx, block.blockId, block.timestamp);
    if ErrorOf(outcome).Some? {
      return Err(ErrorOf(outcome).value);
    }
    r := Ok(block.(status := Finalized));
  }

  lemma {:induction false} StopsAt(w: World, s: State, block: Block, txs: seq<Transaction>, i: nat)
    requires i <= |txs| && ApplyUserTxs(w, s, block, txs[..i]).error.Some?
    ensures ApplyUserTxs(w, s, block, txs) == ApplyUserTxs(w, s, block, txs[..i])
  {
    if i == |txs| {
      assert txs[..i] == txs;
    } else {
      assert txs[..|txs| - 1][..i] == txs[..i];
      StopsAt(w, s, block, txs[..|txs| - 1], i);
    }
  }
}
