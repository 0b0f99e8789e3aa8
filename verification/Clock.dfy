/** The clock accounts over a chain of blocks, given the clock program. */
module Clock {
  import opened Types
  import opened Bytes
  import opened Ledgers
  import opened Executor
  import opened CallTree
  import opened Transactions
  import opened Runs
  import opened Genesis
  import opened Blocks

  // ---- The clock program ----

  /** The block id recorded in a clock account. */
  function RecordedBlock(data: Data): Option<u64> {
    if |data| != 16 then None else Widths(); Some(FromLe(data[..8]))
  }

  /** A clock that ticks every `interval` blocks, at block `n`. */
  function Ticked(pre: AccountWithMetadata, interval: nat, n: u64, timestamp: u64): AccountPostState
    requires interval > 0
  {
    AccountPostState(if n % interval == 0 then pre.account.(data := ClockData(n, timestamp)) else pre.account, None)
  }

  /** What the clock program returns when it does not panic. */
  ghost predicate ClockOutput(pres: seq<AccountWithMetadata>, timestamp: u64, out: ProgramOutput) {
    && |pres| == 3
    && pres[0].accountId == CLOCK_01 && pres[1].accountId == CLOCK_10 && pres[2].accountId == CLOCK_50
    && RecordedBlock(pres[0].account.data).Some?
    && var n := RecordedBlock(pres[0].account.data).value + 1;
       && n < TWO_64
       && out.preStates == pres
       && out.postStates == [Ticked(pres[0], 1, n, timestamp), Ticked(pres[1], 10, n, timestamp), Ticked(pres[2], 50, n, timestamp)]
       && out.chainedCalls == []
  }

  /** Whatever instruction the clock program is given, it panics or ticks with some timestamp. */
  ghost predicate AlwaysTicks(w: World) {
    forall caller: Option<ProgramId>, pres: seq<AccountWithMetadata>, data: seq<u32> ::
      var r := w.execute(w.clockProgram, caller, pres, data);
      r.Ok? ==> exists timestamp: u64 :: ClockOutput(pres, timestamp, r.value)
  }

  /** The deployed clock program behaves as its source says, and its instruction is the timestamp. */
  ghost predicate ClockBehaves(w: World) {
    && AlwaysTicks(w)
    && forall caller: Option<ProgramId>, pres: seq<AccountWithMetadata>, timestamp: u64 ::
         var r := w.execute(w.clockProgram, caller, pres, w.serializeTimestamp(timestamp));
         r.Ok? ==> ClockOutput(pres, timestamp, r.value)
  }

  ghost predicate ClockDeployed(w: World, s: State) {
    w.clockProgram.id in s.ledger.programs && s.ledger.programs[w.clockProgram.id] == w.clockProgram
  }

  // ---- One clock transaction ----

  function DataOf(s: State, id: AccountId): Data {
    AccountOf(s.ledger.accounts, id).data
  }

  /** A call without chained calls is the whole tree. */
  lemma {:induction false} SingleCall(ctx: Context, root: Frame, e: Executed)
    requires ExecCall(ctx, root, map[]) == Ok(e) && e.output.chainedCalls == []
    ensures EvalCall(ctx, root, []) == Ok([e])
  {
    assert [] + [e] == [e];
    assert Children(e) == [];
    assert EvalCalls(ctx, [], [e]) == Ok([e]);
  }

  lemma {:induction false} ClockCall(w: World, ctx: Context, root: Frame, timestamp: u64)
    requires ClockBehaves(w) && ctx.w == w
    requires w.clockProgram.id in ctx.ledger.programs && ctx.ledger.programs[w.clockProgram.id] == w.clockProgram
    requires root.call.programId == w.clockProgram.id && root.call.instructionData == w.serializeTimestamp(timestamp)
    requires ExecCall(ctx, root, map[]).Ok?
    ensures var e := ExecCall(ctx, root, map[]).value;
            e.before == map[] && AcceptedOutput(ctx, e) && ClockOutput(root.call.preStates, timestamp, e.output)
  {
    CallFacts(ctx, root, map[], ExecCall(ctx, root, map[]).value);
    var r := w.execute(w.clockProgram, root.caller.programId, root.call.preStates, w.serializeTimestamp(timestamp));
    assert ClockOutput(root.call.preStates, timestamp, r.value);
  }

  /** The clock transaction runs one program, which touches the three clock accounts. */
  lemma {:induction false} ClockExecution(w: World, ctx: Context, timestamp: u64)
    requires ClockBehaves(w) && ctx.w == w
    requires w.clockProgram.id in ctx.ledger.programs && ctx.ledger.programs[w.clockProgram.id] == w.clockProgram
    requires ExecutePublic(ctx, ClockInvocation(w, timestamp)).Ok?
    ensures var log := ExecutePublic(ctx, ClockInvocation(w, timestamp)).value;
            && |log| == 1 && AcceptedOutput(ctx, log[0])
            && ClockOutput(InputPreStates(ctx.ledger, CLOCK_ACCOUNT_IDS, []), timestamp, log[0].output)
  {
    var tx := ClockInvocation(w, timestamp);
    var root := RootFrame(w, ctx.ledger, tx);
    assert SignerIds(w, tx.witnesses) == [];
    assert EvalCall(ctx, root, []) == ExecutePublic(ctx, tx);
    assert ExecCall(ctx, root, map[]).Ok?;
    ClockCall(w, ctx, root, timestamp);
    SingleCall(ctx, root, ExecCall(ctx, root, map[]).value);
  }

  ghost predicate Ticks(s: State, s': State, id: AccountId, interval: nat, n: u64, timestamp: u64)
    requires interval > 0
  {
    DataOf(s', id) == if n % interval == 0 then ClockData(n, timestamp) else DataOf(s, id)
  }

  ghost predicate AllTick(s: State, s': State, timestamp: u64) {
    && RecordedBlock(DataOf(s, CLOCK_01)).Some?
    && var n := RecordedBlock(DataOf(s, CLOCK_01)).value + 1;
       n < TWO_64 && Ticks(s, s', CLOCK_01, 1, n, timestamp) && Ticks(s, s', CLOCK_10, 10, n, timestamp) && Ticks(s, s', CLOCK_50, 50, n, timestamp)
  }

  /** The accounts the clock program returned are the accounts of the next state. */
  lemma {:induction false} ClockAccountWritten(ctx: Context, e: Executed, s': State, i: nat)
    requires AcceptedOutput(ctx, e) && i < |e.output.preStates| && e.output.postStates[i].claim.None?
    requires NoncesFit(ctx.ledger.accounts + e.after, []) && s'.ledger.accounts == Bumped(ctx.ledger.accounts + e.after, [])
    ensures AccountOf(s'.ledger.accounts, e.output.preStates[i].accountId) == e.output.postStates[i].account
  {
    var id := e.output.preStates[i].accountId;
    assert Touched(e, i, id);
    CallEffect(ctx, e, id);
    BumpedAt(ctx.ledger.accounts + e.after, [], id);
  }

  /** An accepted clock transaction leaves the accounts its one call wrote. */
  lemma {:induction false} ClockStep(w: World, s: State, blockId: u64, timestamp: u64, s': State) returns (e: Executed)
    requires ClockBehaves(w) && ClockDeployed(w, s)
    requires Transition(w, s, Public(ClockInvocation(w, timestamp)), blockId, timestamp) == Accepted(s')
    ensures AcceptedOutput(Context(w, s.ledger, blockId, timestamp), e)
    ensures ClockOutput(InputPreStates(s.ledger, CLOCK_ACCOUNT_IDS, []), timestamp, e.output)
    ensures NoncesFit(s.ledger.accounts + e.after, []) && s'.ledger.accounts == Bumped(s.ledger.accounts + e.after, [])
  {
    var ctx := Context(w, s.ledger, blockId, timestamp);
    var tx := ClockInvocation(w, timestamp);
    assert SignerIds(w, tx.witnesses) == [];
    PublicStep(w, s, Event(Public(tx), blockId, timestamp), s');
    ClockExecution(w, ctx, timestamp);
    e := ExecutePublic(ctx, tx).value[0];
  }

  lemma {:induction false} ClockTransactionTicks(w: World, s: State, blockId: u64, timestamp: u64, s': State)
    requires ClockBehaves(w) && ClockDeployed(w, s)
    requires Transition(w, s, Public(ClockInvocation(w, timestamp)), blockId, timestamp) == Accepted(s')
    ensures AllTick(s, s', timestamp)
  {
    var e := ClockStep(w, s, blockId, timestamp, s');
    OutputTicks(Context(w, s.ledger, blockId, timestamp), e, s, s', timestamp);
  }

  lemma {:induction false} OutputTicks(ctx: Context, e: Executed, s: State, s': State, timestamp: u64)
    requires AcceptedOutput(ctx, e) && ctx.ledger == s.ledger
    requires ClockOutput(InputPreStates(ctx.ledger, CLOCK_ACCOUNT_IDS, []), timestamp, e.output)
    requires NoncesFit(ctx.ledger.accounts + e.after, []) && s'.ledger.accounts == Bumped(ctx.ledger.accounts + e.after, [])
    ensures AllTick(s, s', timestamp)
  {
    forall i: nat | i < 3
      ensures AccountOf(s'.ledger.accounts, e.output.preStates[i].accountId) == e.output.postStates[i].account
    {
      ClockAccountWritten(ctx, e, s', i);
    }
    WrittenTicks(e.output, s, s', timestamp);
  }

  lemma {:induction false} WrittenTicks(out: ProgramOutput, s: State, s': State, timestamp: u64)
    requires ClockOutput(InputPreStates(s.ledger, CLOCK_ACCOUNT_IDS, []), timestamp, out)
    requires forall i: nat :: i < 3 ==> AccountOf(s'.ledger.accounts, out.preStates[i].accountId) == out.postStates[i].account
    ensures AllTick(s, s', timestamp)
  {
    assert AccountOf(s'.ledger.accounts, CLOCK_01) == out.postStates[0].account;
    assert AccountOf(s'.ledger.accounts, CLOCK_10) == out.postStates[1].account;
    assert AccountOf(s'.ledger.accounts, CLOCK_50) == out.postStates[2].account;
  }

  // ---- Chains of blocks ----

  function ApplyBlocks(w: World, s: State, blocks: seq<Block>): Progress {
    if blocks == [] then Progress(s, None)
    else
      var k := |blocks| - 1;
      var before := ApplyBlocks(w, s, blocks[..k]);
      if before.error.Some? then before else ApplyBlock(w, before.state, blocks[k])
  }

  // ---- User transactions of the genesis block, which no guard checks ----

  ghost predicate OwnedClock(w: World, s: State, id: AccountId) {
    AccountOf(s.ledger.accounts, id).programOwner == w.clockProgram.id && DataOf(s, id) != []
  }

  ghost predicate ClocksOwned(w: World, s: State) {
    OwnedClock(w, s, CLOCK_01) && OwnedClock(w, s, CLOCK_10) && OwnedClock(w, s, CLOCK_50)
  }

  /** None of the calls of the transaction, submitted in state `s`, runs the clock program. */
  ghost predicate AvoidsClock(w: World, s: State, e: Event) {
    e.tx.Public? ==>
      var r := ExecutePublic(Context(w, s.ledger, e.blockId, e.timestamp), e.tx.publicTx);
      r.Ok? ==> forall k :: 0 <= k < |r.value| ==> r.value[k].Pid() != w.clockProgram.id
  }

  ghost predicate AvoidsClockAt(w: World, s: State, block: Block, txs: seq<Transaction>, k: nat)
    requires k < |txs|
  {
    AvoidsClock(w, ApplyUserTxs(w, s, block, txs[..k]).state, EventOf(block, txs[k]))
  }

  /** No user transaction of the block, in its turn, runs the clock program. */
  ghost predicate SparesClock(w: World, s: State, block: Block) {
    forall k :: 0 <= k < |block.transactions| - 1 ==> AvoidsClockAt(w, s, block, block.transactions, k)
  }

  /** A public transaction that does not run the clock program leaves what that program owns alone. */
  lemma {:induction false} AvoidingKeepsClock(w: World, s: State, e: Event, next: State, id: AccountId)
    requires e.tx.Public? && Take(w, s, e) == Accepted(next) && AvoidsClock(w, s, e) && OwnedClock(w, s, id)
    ensures OwnedClock(w, next, id) && DataOf(next, id) == DataOf(s, id)
  {
    var ctx := Context(w, s.ledger, e.blockId, e.timestamp);
    PublicStep(w, s, e, next);
    var log := ExecutePublic(ctx, e.tx.publicTx).value;
    if w.clockProgram.id == DEFAULT_PROGRAM_ID {
      TreeKeeps(ctx, log, id);
    } else {
      NonInterference(ctx, e.tx.publicTx, id);
    }
    BumpedAt(s.ledger.accounts + Overlay(log), SignerIds(w, e.tx.publicTx.witnesses), id);
  }

  lemma {:induction false} GenesisUserTxsKeepClock(w: World, s: State, block: Block, n: nat, id: AccountId)
    requires block.blockId == GENESIS_BLOCK_ID && SparesClock(w, s, block) && n < |block.transactions|
    requires ApplyUserTxs(w, s, block, block.transactions[..n]).error.None? && OwnedClock(w, s, id)
    ensures var middle := ApplyUserTxs(w, s, block, block.transactions[..n]).state;
            OwnedClock(w, middle, id) && DataOf(middle, id) == DataOf(s, id)
  {
    if n > 0 {
      var k, txs := n - 1, block.transactions;
      assert txs[..n][..k] == txs[..k] && txs[..n][k] == txs[k];
      GenesisUserTxsKeepClock(w, s, block, k, id);
      assert AvoidsClockAt(w, s, block, txs, k);
      var before := ApplyUserTxs(w, s, block, txs[..k]).state;
      UserTxIsTransition(w, before, block, txs[k]);
      AvoidingKeepsClock(w, before, EventOf(block, txs[k]), ApplyUserTxs(w, s, block, txs[..n]).state, id);
    }
  }

  /** The condition under which the user transactions of a block leave the clocks alone: none after genesis. */
  ghost predicate ClocksSafe(w: World, s: State, block: Block) {
    block.blockId == GENESIS_BLOCK_ID ==> ClocksOwned(w, s) && SparesClock(w, s, block)
  }

  /** User transactions leave the clock program and the clock data alone. */
  lemma {:induction false} UserTxsKeepClockwork(w: World, s: State, block: Block)
    requires ClockDeployed(w, s) && ClocksSafe(w, s, block) && block.transactions != []
    requires ApplyUserTxs(w, s, block, block.transactions[..|block.transactions| - 1]).error.None?
    ensures var middle := ApplyUserTxs(w, s, block, block.transactions[..|block.transactions| - 1]).state;
            && ClockDeployed(w, middle)
            && DataOf(middle, CLOCK_01) == DataOf(s, CLOCK_01)
            && DataOf(middle, CLOCK_10) == DataOf(s, CLOCK_10)
            && DataOf(middle, CLOCK_50) == DataOf(s, CLOCK_50)
  {
    var n := |block.transactions| - 1;
    var txs := block.transactions[..n];
    if block.blockId == GENESIS_BLOCK_ID {
      GenesisUserTxsKeepClock(w, s, block, n, CLOCK_01);
      GenesisUserTxsKeepClock(w, s, block, n, CLOCK_10);
      GenesisUserTxsKeepClock(w, s, block, n, CLOCK_50);
    } else {
      UserTxsKeepClocks(w, s, block, txs);
      ClocksKeptData(s, ApplyUserTxs(w, s, block, txs).state);
    }
    UserTxsAreRun(w, s, block, txs);
    RunGrows(w, s, EventsOf(block, txs));
  }

  /** Each block moves the clocks once: after genesis whatever its user transactions do, in the genesis block if none of
      them runs the clock program. */
  lemma {:induction false} BlockTicks(w: World, s: State, block: Block)
    requires ClockBehaves(w) && ClockDeployed(w, s)
    requires ClocksSafe(w, s, block) && ApplyBlock(w, s, block).error.None?
    ensures AllTick(s, ApplyBlock(w, s, block).state, block.timestamp)
    ensures ClockDeployed(w, ApplyBlock(w, s, block).state)
  {
    ClockTransactionIsLast(w, s, block);
    var k := |block.transactions| - 1;
    UserTxsKeepClockwork(w, s, block);
    var middle := ApplyUserTxs(w, s, block, block.transactions[..k]).state;
    LastTicks(w, s, middle, ApplyBlock(w, s, block).state, block);
  }

  lemma {:induction false} LastTicks(w: World, s: State, middle: State, s': State, block: Block)
    requires ClockBehaves(w) && ClockDeployed(w, middle)
    requires Transition(w, middle, Public(ClockInvocation(w, block.timestamp)), block.blockId, block.timestamp) == Accepted(s')
    requires DataOf(middle, CLOCK_01) == DataOf(s, CLOCK_01)
          && DataOf(middle, CLOCK_10) == DataOf(s, CLOCK_10)
          && DataOf(middle, CLOCK_50) == DataOf(s, CLOCK_50)
    ensures AllTick(s, s', block.timestamp) && ClockDeployed(w, s')
  {
    ClockTransactionTicks(w, middle, block.blockId, block.timestamp, s');
    SameDataSameTicks(s, middle, s', block.timestamp);
    StaysDeployed(w, middle, Event(Public(ClockInvocation(w, block.timestamp)), block.blockId, block.timestamp), s');
  }

  lemma {:induction false} SameDataSameTicks(s: State, middle: State, s': State, timestamp: u64)
    requires AllTick(middle, s', timestamp)
    requires DataOf(middle, CLOCK_01) == DataOf(s, CLOCK_01)
          && DataOf(middle, CLOCK_10) == DataOf(s, CLOCK_10)
          && DataOf(middle, CLOCK_50) == DataOf(s, CLOCK_50)
    ensures AllTick(s, s', timestamp)
  {
  }

  lemma {:induction false} StaysDeployed(w: World, s: State, e: Event, s': State)
    requires ClockDeployed(w, s) && Take(w, s, e) == Accepted(s')
    ensures ClockDeployed(w, s')
  {
    StepGrows(w, s, e, s');
  }

  lemma {:induction false} ClocksKeptData(s: State, s': State)
    requires ClocksKept(s, s')
    ensures DataOf(s', CLOCK_01) == DataOf(s, CLOCK_01) && DataOf(s', CLOCK_10) == DataOf(s, CLOCK_10) && DataOf(s', CLOCK_50) == DataOf(s, CLOCK_50)
  {
    assert CLOCK_ACCOUNT_IDS[0] == CLOCK_01 && CLOCK_ACCOUNT_IDS[1] == CLOCK_10 && CLOCK_ACCOUNT_IDS[2] == CLOCK_50;
    assert CLOCK_01 in CLOCK_ACCOUNT_IDS && CLOCK_10 in CLOCK_ACCOUNT_IDS && CLOCK_50 in CLOCK_ACCOUNT_IDS;
    assert SameCore(AccountOf(s.ledger.accounts, CLOCK_01), AccountOf(s'.ledger.accounts, CLOCK_01));
  }

  /** The last multiple of `d` not above `n`. */
  function LastMultiple(n: nat, d: nat): (m: nat)
    requires d > 0
    ensures m <= n && m % d == 0
    ensures forall k :: m < k <= n ==> k % d != 0
  {
    if n == 0 || n % d == 0 then n else LastMultiple(n - 1, d)
  }

  /** The clock shows the last multiple of its interval not above `|times| - 1`, with the time of that block. */
  ghost predicate Shows(s: State, id: AccountId, interval: nat, times: seq<u64>)
    requires interval > 0 && 0 < |times| <= TWO_64
  {
    var m := LastMultiple(|times| - 1, interval);
    DataOf(s, id) == ClockData(m, times[m])
  }

  ghost predicate ClocksShow(s: State, times: seq<u64>) {
    && 0 < |times| <= TWO_64
    && Shows(s, CLOCK_01, 1, times) && Shows(s, CLOCK_10, 10, times) && Shows(s, CLOCK_50, 50, times)
  }

  lemma {:induction false} RecordedBlockOf(n: u64, timestamp: u64)
    ensures RecordedBlock(ClockData(n, timestamp)) == Some(n)
  {
    Widths();
    FromLeToLe(n, 8);
    assert ClockData(n, timestamp)[..8] == ToLe(n, 8);
  }

  lemma {:induction false} TickShows(s: State, s': State, id: AccountId, interval: nat, times: seq<u64>, timestamp: u64)
    requires interval > 0 && 0 < |times| < TWO_64 && Shows(s, id, interval, times)
    requires Ticks(s, s', id, interval, |times|, timestamp)
    ensures Shows(s', id, interval, times + [timestamp])
  {
    var times' := times + [timestamp];
    assert |times'| - 1 == |times|;
    LastMultipleNext(|times| - 1, interval);
  }

  lemma {:induction false} LastMultipleNext(n: nat, d: nat)
    requires d > 0
    ensures LastMultiple(n + 1, d) == if (n + 1) % d == 0 then n + 1 else LastMultiple(n, d)
  {
  }

  ghost predicate Clockwork(w: World, s: State, times: seq<u64>) {
    ClockDeployed(w, s) && ClocksOwned(w, s) && ClocksShow(s, times)
  }

  /** Clock accounts stay with the clock program. */
  lemma {:induction false} BlockKeepsOwner(w: World, s: State, block: Block, id: AccountId)
    requires ApplyBlock(w, s, block).error.None? && id in CLOCK_ACCOUNT_IDS && OwnedClock(w, s, id)
    requires block.blockId == GENESIS_BLOCK_ID ==> SparesClock(w, s, block)
    ensures AccountOf(ApplyBlock(w, s, block).state.ledger.accounts, id).programOwner == w.clockProgram.id
  {
    ClockTransactionIsLast(w, s, block);
    var k := |block.transactions| - 1;
    var middle := ApplyUserTxs(w, s, block, block.transactions[..k]).state;
    if block.blockId == GENESIS_BLOCK_ID {
      GenesisUserTxsKeepClock(w, s, block, k, id);
    } else {
      ClockIsolation(w, s, block, k);
      assert SameCore(AccountOf(s.ledger.accounts, id), AccountOf(middle.ledger.accounts, id));
    }
    StepKeepsAccount(w, middle, EventOf(block, block.transactions[k]), ApplyBlock(w, s, block).state, id);
  }

  lemma {:induction false} BlockKeepsOwners(w: World, s: State, block: Block)
    requires ApplyBlock(w, s, block).error.None? && ClocksOwned(w, s)
    requires block.blockId == GENESIS_BLOCK_ID ==> SparesClock(w, s, block)
    ensures forall id :: id in CLOCK_ACCOUNT_IDS ==>
              AccountOf(ApplyBlock(w, s, block).state.ledger.accounts, id).programOwner == w.clockProgram.id
  {
    forall id | id in CLOCK_ACCOUNT_IDS
      ensures AccountOf(ApplyBlock(w, s, block).state.ledger.accounts, id).programOwner == w.clockProgram.id
    {
      BlockKeepsOwner(w, s, block, id);
    }
  }

  lemma {:induction false} ShownIsOwned(w: World, s: State, times: seq<u64>)
    requires ClocksShow(s, times)
    requires forall id :: id in CLOCK_ACCOUNT_IDS ==> AccountOf(s.ledger.accounts, id).programOwner == w.clockProgram.id
    ensures ClocksOwned(w, s)
  {
    assert CLOCK_ACCOUNT_IDS[0] == CLOCK_01 && CLOCK_ACCOUNT_IDS[1] == CLOCK_10 && CLOCK_ACCOUNT_IDS[2] == CLOCK_50;
    assert CLOCK_01 in CLOCK_ACCOUNT_IDS && CLOCK_10 in CLOCK_ACCOUNT_IDS && CLOCK_50 in CLOCK_ACCOUNT_IDS;
  }

  lemma {:induction false} BlockMovesClocks(w: World, s: State, times: seq<u64>, block: Block)
    requires ClockBehaves(w) && Clockwork(w, s, times)
    requires block.blockId == GENESIS_BLOCK_ID ==> SparesClock(w, s, block)
    requires ApplyBlock(w, s, block).error.None?
    ensures Clockwork(w, ApplyBlock(w, s, block).state, times + [block.timestamp])
  {
    BlockTicks(w, s, block);
    OneMoreBlock(s, ApplyBlock(w, s, block).state, times, block.timestamp);
    BlockKeepsOwners(w, s, block);
    ShownIsOwned(w, ApplyBlock(w, s, block).state, times + [block.timestamp]);
  }

  lemma {:induction false} TimesSnoc(times: seq<u64>, blocks: seq<Block>)
    requires blocks != []
    ensures times + Times(blocks) == times + Times(blocks[..|blocks| - 1]) + [blocks[|blocks| - 1].timestamp]
  {
  }

  ghost predicate GenesisSpared(w: World, s: State, blocks: seq<Block>, i: nat)
    requires i < |blocks|
  {
    blocks[i].blockId == GENESIS_BLOCK_ID ==> SparesClock(w, ApplyBlocks(w, s, blocks[..i]).state, blocks[i])
  }

  /** From a state in which the clocks show the times of blocks `0` to `n`, any chain of blocks that applies leaves each
      clock showing the last block that is a multiple of its interval, with that block's time, provided no user
      transaction of the genesis block runs the clock program. */
  lemma {:induction false} ClocksOverChains(w: World, s: State, times: seq<u64>, blocks: seq<Block>)
    requires ClockBehaves(w) && Clockwork(w, s, times)
    requires forall i :: 0 <= i < |blocks| ==> GenesisSpared(w, s, blocks, i)
    requires ApplyBlocks(w, s, blocks).error.None?
    ensures Clockwork(w, ApplyBlocks(w, s, blocks).state, times + Times(blocks))
  {
    if blocks == [] {
      assert times + Times(blocks) == times;
    } else {
      var k := |blocks| - 1;
      ChainStep(w, s, blocks);
      forall i | 0 <= i < k
        ensures GenesisSpared(w, s, blocks[..k], i)
      {
        assert GenesisSpared(w, s, blocks, i) && blocks[..k][..i] == blocks[..i];
      }
      assert GenesisSpared(w, s, blocks, k);
      ClocksOverChains(w, s, times, blocks[..k]);
      BlockMovesClocks(w, ApplyBlocks(w, s, blocks[..k]).state, times + Times(blocks[..k]), blocks[k]);
      TimesSnoc(times, blocks);
    }
  }

  lemma {:induction false} ChainStep(w: World, s: State, blocks: seq<Block>)
    requires blocks != [] && ApplyBlocks(w, s, blocks).error.None?
    ensures var k := |blocks| - 1;
            && ApplyBlocks(w, s, blocks[..k]).error.None?
            && ApplyBlock(w, ApplyBlocks(w, s, blocks[..k]).state, blocks[k]) == ApplyBlocks(w, s, blocks)
  {
  }

  function Times(blocks: seq<Block>): (times: seq<u64>)
    ensures |times| == |blocks|
  {
    seq(|blocks|, i requires 0 <= i < |blocks| => blocks[i].timestamp)
  }

  lemma {:induction false} OneMoreBlock(s: State, s': State, times: seq<u64>, timestamp: u64)
    requires ClocksShow(s, times) && AllTick(s, s', timestamp)
    ensures ClocksShow(s', times + [timestamp])
  {
    RecordedBlockOf(|times| - 1, times[|times| - 1]);
    TickShows(s, s', CLOCK_01, 1, times, timestamp);
    TickShows(s, s', CLOCK_10, 10, times, timestamp);
    TickShows(s, s', CLOCK_50, 50, times, timestamp);
  }

  lemma {:induction false} InsertedFirstStays(programs: map<ProgramId, Program>, added: seq<Program>, id: ProgramId)
    requires id in programs && forall i :: 0 <= i < |added| ==> added[i].id != id
    ensures id in InsertPrograms(programs, added) && InsertPrograms(programs, added)[id] == programs[id]
  {
    if added != [] {
      InsertedFirstStays(programs, added[..|added| - 1], id);
    }
  }

  lemma {:induction false} InsertAppend(programs: map<ProgramId, Program>, first: seq<Program>, rest: seq<Program>)
    ensures InsertPrograms(programs, first + rest) == InsertPrograms(InsertPrograms(programs, first), rest)
  {
    if rest == [] {
      assert first + rest == first;
    } else {
      var k := |rest| - 1;
      assert (first + rest)[..|first + rest| - 1] == first + rest[..k];
      InsertAppend(programs, first, rest[..k]);
    }
  }

  lemma {:induction false} GenesisDeploysClock(w: World)
    requires forall p :: p in [w.transferProgram] + w.otherPrograms + [w.faucetProgram] ==> p.id != w.clockProgram.id
    ensures var programs := InsertPrograms(map[], [w.clockProgram, w.transferProgram] + w.otherPrograms + [w.faucetProgram]);
            w.clockProgram.id in programs && programs[w.clockProgram.id] == w.clockProgram
  {
    var others := [w.transferProgram] + w.otherPrograms + [w.faucetProgram];
    var clock := [w.clockProgram];
    assert [w.clockProgram, w.transferProgram] + w.otherPrograms + [w.faucetProgram] == clock + others;
    InsertAppend(map[], clock, others);
    assert InsertPrograms(map[], clock) == map[w.clockProgram.id := w.clockProgram] by {
      assert clock[..0] == [];
    }
    forall i | 0 <= i < |others|
      ensures others[i].id != w.clockProgram.id
    {
      assert others[i] in others;
    }
    InsertedFirstStays(InsertPrograms(map[], clock), others, w.clockProgram.id);
  }

  lemma {:induction false} GenesisClocks(w: World, initial: seq<(AccountId, u128)>, timestamp: u64)
    ensures var accounts, clock := GenesisAccounts(w, initial, timestamp), Account(w.clockProgram.id, 0, ClockData(0, timestamp), 0);
            AccountOf(accounts, CLOCK_01) == AccountOf(accounts, CLOCK_10) == AccountOf(accounts, CLOCK_50) == clock
  {
  }

  /** At genesis every clock shows block 0 with the genesis time, and the clock program is deployed provided no other
      built-in program has its id. */
  lemma {:induction false} GenesisClockwork(w: World, initial: seq<(AccountId, u128)>, privateAccounts: seq<(Commitment, Nullifier)>, timestamp: u64)
    requires forall p :: p in [w.transferProgram] + w.otherPrograms + [w.faucetProgram] ==> p.id != w.clockProgram.id
    ensures Clockwork(w, GenesisState(w, initial, privateAccounts, timestamp), [timestamp])
  {
    GenesisDeploysClock(w);
    GenesisClocks(w, initial, timestamp);
  }

  /** A genesis block with one more clock invocation among its transactions moves the clocks twice. */
  lemma {:induction false} GenesisCanTickTwice(w: World, s: State, block: Block, t0: u64)
    requires ClockBehaves(w) && Clockwork(w, s, [t0]) && block.blockId == GENESIS_BLOCK_ID
    requires var clock := Public(ClockInvocation(w, block.timestamp)); block.transactions == [clock, clock]
    requires ApplyBlock(w, s, block).error.None?
    ensures DataOf(ApplyBlock(w, s, block).state, CLOCK_01) == ClockData(2, block.timestamp)
  {
    var middle := TwoInvocations(w, s, block);
    LastTicks(w, s, s, middle, block);
    LastTicks(w, middle, middle, ApplyBlock(w, s, block).state, block);
    SecondTick(s, middle, ApplyBlock(w, s, block).state, t0, block.timestamp);
  }

  lemma {:induction false} TwoInvocations(w: World, s: State, block: Block) returns (middle: State)
    requires block.blockId == GENESIS_BLOCK_ID && ApplyBlock(w, s, block).error.None?
    requires var clock := Public(ClockInvocation(w, block.timestamp)); block.transactions == [clock, clock]
    ensures var clock := Public(ClockInvocation(w, block.timestamp));
            && Transition(w, s, clock, block.blockId, block.timestamp) == Accepted(middle)
            && Transition(w, middle, clock, block.blockId, block.timestamp) == Accepted(ApplyBlock(w, s, block).state)
  {
    var clock := Public(ClockInvocation(w, block.timestamp));
    assert block.transactions[..1] == [clock] && [clock][..0] == [];
    ClockTransactionIsLast(w, s, block);
    UserTxIsTransition(w, s, block, clock);
    middle := ApplyUserTxs(w, s, block, [clock]).state;
  }

  lemma {:induction false} SecondTick(s: State, middle: State, s': State, t0: u64, t: u64)
    requires ClocksShow(s, [t0]) && AllTick(s, middle, t) && AllTick(middle, s', t)
    ensures DataOf(s', CLOCK_01) == ClockData(2, t)
  {
    OneMoreBlock(s, middle, [t0], t);
    OneMoreBlock(middle, s', [t0, t], t);
    assert [t0] + [t] == [t0, t];
  }
}
