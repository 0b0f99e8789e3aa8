/** The clocks count calls of the clock program, which gives the exact condition under which they keep pace with blocks. */
module ClockCount {
  import opened Types
  import opened Bytes
  import opened Ledgers
  import opened Executor
  import opened CallTree
  import opened Transactions
  import opened Runs
  import opened Genesis
  import opened Blocks
  import opened Clock

  // ---- One call ----

  /** An account of the clock program that records block `n`. */
  ghost predicate Counter(w: World, a: Account, n: nat) {
    a.programOwner == w.clockProgram.id && RecordedBlock(a.data).Some? && RecordedBlock(a.data).value == n
  }

  ghost predicate RunsDeployedClock(w: World, ctx: Context) {
    && ctx.w == w
    && w.clockProgram.id in ctx.ledger.programs && ctx.ledger.programs[w.clockProgram.id] == w.clockProgram
  }

  lemma {:induction false} ClockCallOutput(w: World, ctx: Context, e: Executed) returns (timestamp: u64)
    requires AlwaysTicks(w) && RunsDeployedClock(w, ctx)
    requires e.Pid() == w.clockProgram.id && ExecCall(ctx, e.frame, e.before) == Ok(e)
    ensures ClockOutput(e.frame.call.preStates, timestamp, e.output)
  {
    var r := w.execute(w.clockProgram, e.frame.caller.programId, e.frame.call.preStates, e.frame.call.instructionData);
    assert r == Ok(e.output);
    timestamp :| ClockOutput(e.frame.call.preStates, timestamp, r.value);
  }

  lemma {:induction false} TickedCounter(w: World, pre: AccountWithMetadata, n: u64, timestamp: u64, pid: ProgramId)
    requires pre.account.programOwner == w.clockProgram.id
    ensures Counter(w, Owned(Ticked(pre, 1, n, timestamp), pid), n)
  {
    RecordedBlockOf(n, timestamp);
  }

  lemma {:induction false} ClockCallCounts(w: World, ctx: Context, e: Executed, n: nat)
    requires AlwaysTicks(w) && RunsDeployedClock(w, ctx)
    requires e.Pid() == w.clockProgram.id && ExecCall(ctx, e.frame, e.before) == Ok(e)
    requires Counter(w, View(ctx.ledger, e.before, CLOCK_01), n)
    ensures Counter(w, View(ctx.ledger, e.after, CLOCK_01), n + 1)
  {
    var timestamp := ClockCallOutput(w, ctx, e);
    CallFacts(ctx, e.frame, e.before, e);
    FirstAccount(ctx, e);
    ClockOutputCounts(w, e.frame.call.preStates, e.output, timestamp, e.Pid(), n);
  }

  lemma {:induction false} FirstAccount(ctx: Context, e: Executed)
    requires AcceptedOutput(ctx, e) && e.output.preStates != []
    ensures var id := e.output.preStates[0].accountId;
            && View(ctx.ledger, e.before, id) == e.output.preStates[0].account
            && View(ctx.ledger, e.after, id) == Owned(e.output.postStates[0], e.Pid())
  {
    var id := e.output.preStates[0].accountId;
    CallEffect(ctx, e, id);
    assert Touched(e, 0, id);
  }

  lemma {:induction false} ClockOutputCounts(
    w: World, pres: seq<AccountWithMetadata>, out: ProgramOutput, timestamp: u64, pid: ProgramId, n: nat)
    requires ClockOutput(pres, timestamp, out) && Counter(w, out.preStates[0].account, n)
    ensures Counter(w, Owned(out.postStates[0], pid), n + 1)
  {
    TickedCounter(w, out.preStates[0], n + 1, timestamp, pid);
  }

  lemma {:induction false} OtherCallKeeps(w: World, ctx: Context, e: Executed, n: nat)
    requires e.Pid() != w.clockProgram.id && AcceptedOutput(ctx, e)
    requires Counter(w, View(ctx.ledger, e.before, CLOCK_01), n)
    ensures Counter(w, View(ctx.ledger, e.after, CLOCK_01), n)
  {
    CallEvolves(ctx, e, CLOCK_01);
  }

  // ---- One transaction ----

  /** How many of the executed calls ran program `pid`. */
  function CallsOf(log: seq<Executed>, pid: ProgramId): nat {
    if log == [] then 0
    else CallsOf(log[..|log| - 1], pid) + (if log[|log| - 1].Pid() == pid then 1 else 0)
  }

  lemma {:induction false} NoCallsIff(log: seq<Executed>, pid: ProgramId)
    ensures CallsOf(log, pid) == 0 <==> forall k :: 0 <= k < |log| ==> log[k].Pid() != pid
  {
    if log != [] {
      var n := |log| - 1;
      NoCallsIff(log[..n], pid);
      assert forall k :: 0 <= k < n ==> log[..n][k] == log[k];
    }
  }

  /** Over a call tree the first clock advances by the number of calls of the clock program. */
  lemma {:induction false} TreeCounts(w: World, ctx: Context, log: seq<Executed>, n: nat)
    requires AlwaysTicks(w) && RunsDeployedClock(w, ctx) && ValidLog(ctx, log)
    requires Counter(w, AccountOf(ctx.ledger.accounts, CLOCK_01), n)
    ensures Counter(w, View(ctx.ledger, Overlay(log), CLOCK_01), n + CallsOf(log, w.clockProgram.id))
  {
    if log != [] {
      var k := |log| - 1;
      LogStep(ctx, log);
      TreeCounts(w, ctx, log[..k], n);
      var m := n + CallsOf(log[..k], w.clockProgram.id);
      assert ValidEntry(ctx, log, k);
      if log[k].Pid() == w.clockProgram.id {
        ClockCallCounts(w, ctx, log[k], m);
      } else {
        OtherCallKeeps(w, ctx, log[k], m);
      }
    }
  }

  /** The calls of the clock program in a public transaction submitted in state `s`. */
  function ClockCalls(w: World, s: State, e: Event): nat {
    if !e.tx.Public? then 0
    else
      match ExecutePublic(Context(w, s.ledger, e.blockId, e.timestamp), e.tx.publicTx)
      case Err(_) => 0
      case Ok(log) => CallsOf(log, w.clockProgram.id)
  }

  lemma {:induction false} NoClockCallsIff(w: World, s: State, e: Event)
    ensures ClockCalls(w, s, e) == 0 <==> AvoidsClock(w, s, e)
  {
    if e.tx.Public? {
      var r := ExecutePublic(Context(w, s.ledger, e.blockId, e.timestamp), e.tx.publicTx);
      if r.Ok? {
        NoCallsIff(r.value, w.clockProgram.id);
      }
    }
  }

  /** The clock program is deployed and its first clock records block `n`. */
  ghost predicate Records(w: World, s: State, n: nat) {
    ClockDeployed(w, s) && Counter(w, AccountOf(s.ledger.accounts, CLOCK_01), n)
  }

  /** An accepted public transaction advances the first clock by the number of its calls of the clock program. */
  lemma {:induction false} TransactionCounts(w: World, s: State, e: Event, next: State, n: nat)
    requires AlwaysTicks(w) && e.tx.Public? && Take(w, s, e) == Accepted(next) && Records(w, s, n)
    ensures Records(w, next, n + ClockCalls(w, s, e))
  {
    var ctx := Context(w, s.ledger, e.blockId, e.timestamp);
    PublicStep(w, s, e, next);
    StaysDeployed(w, s, e, next);
    var log := ExecutePublic(ctx, e.tx.publicTx).value;
    TreeCounts(w, ctx, log, n);
    BumpedAt(s.ledger.accounts + Overlay(log), SignerIds(w, e.tx.publicTx.witnesses), CLOCK_01);
  }

  /** A public transaction leaves the first clock alone exactly when none of its calls runs the clock program. */
  lemma {:induction false} ClockKeptIff(w: World, s: State, e: Event, next: State, n: nat)
    requires AlwaysTicks(w) && e.tx.Public? && Take(w, s, e) == Accepted(next) && Records(w, s, n)
    ensures DataOf(next, CLOCK_01) == DataOf(s, CLOCK_01) <==> AvoidsClock(w, s, e)
  {
    TransactionCounts(w, s, e, next, n);
    NoClockCallsIff(w, s, e);
    if AvoidsClock(w, s, e) {
      AvoidingKeepsClock(w, s, e, next, CLOCK_01);
    }
  }

  // ---- The user transactions of the genesis block ----

  /** The calls of the clock program in the `k`-th transaction of a block, in its turn. */
  function CallsAt(w: World, s: State, block: Block, k: nat): nat
    requires k < |block.transactions|
  {
    ClockCalls(w, ApplyUserTxs(w, s, block, block.transactions[..k]).state, EventOf(block, block.transactions[k]))
  }

  /** The calls of the clock program in the first `n` transactions of a block. */
  function CallsIn(w: World, s: State, block: Block, n: nat): nat
    requires n <= |block.transactions|
  {
    if n == 0 then 0 else CallsIn(w, s, block, n - 1) + CallsAt(w, s, block, n - 1)
  }

  lemma {:induction false} NoCallsAtIff(w: World, s: State, block: Block, k: nat)
    requires k < |block.transactions|
    ensures CallsAt(w, s, block, k) == 0 <==> AvoidsClockAt(w, s, block, block.transactions, k)
  {
    NoClockCallsIff(w, ApplyUserTxs(w, s, block, block.transactions[..k]).state, EventOf(block, block.transactions[k]));
  }

  lemma {:induction false} NoCallsInIff(w: World, s: State, block: Block, n: nat)
    requires n <= |block.transactions|
    ensures CallsIn(w, s, block, n) == 0 <==> forall k :: 0 <= k < n ==> AvoidsClockAt(w, s, block, block.transactions, k)
  {
    if n > 0 {
      NoCallsInIff(w, s, block, n - 1);
      NoCallsAtIff(w, s, block, n - 1);
    }
  }

  lemma {:induction false} UserTxsSnoc(w: World, s: State, block: Block, front: seq<Transaction>, tx: Transaction, all: seq<Transaction>)
    requires all == front + [tx] && ApplyUserTxs(w, s, block, all).error.None?
    ensures ApplyUserTxs(w, s, block, front).error.None?
    ensures ApplyUserTx(w, ApplyUserTxs(w, s, block, front).state, block, tx) == ApplyUserTxs(w, s, block, all)
  {
    assert all[..|all| - 1] == front && all[|all| - 1] == tx;
  }

  lemma {:induction false} GenesisSnoc(w: World, s: State, block: Block, front: seq<Transaction>, tx: Transaction, all: seq<Transaction>)
    requires all == front + [tx] && block.blockId == GENESIS_BLOCK_ID && ApplyUserTxs(w, s, block, all).error.None?
    ensures ApplyUserTxs(w, s, block, front).error.None? && tx.Public?
    ensures Take(w, ApplyUserTxs(w, s, block, front).state, EventOf(block, tx)) == Accepted(ApplyUserTxs(w, s, block, all).state)
  {
    UserTxsSnoc(w, s, block, front, tx, all);
    GenesisUserTx(w, ApplyUserTxs(w, s, block, front).state, block, tx);
  }

  lemma {:induction false} FrontApplies(w: World, s: State, block: Block, front: seq<Transaction>, all: seq<Transaction>)
    requires all != [] && front == all[..|all| - 1] && ApplyUserTxs(w, s, block, all).error.None?
    ensures ApplyUserTxs(w, s, block, front).error.None?
  {
  }

  lemma {:induction false} GenesisUserTx(w: World, s: State, block: Block, tx: Transaction)
    requires block.blockId == GENESIS_BLOCK_ID && ApplyUserTx(w, s, block, tx).error.None?
    ensures tx.Public? && Take(w, s, EventOf(block, tx)) == Accepted(ApplyUserTx(w, s, block, tx).state)
  {
    UserTxIsTransition(w, s, block, tx);
  }

  lemma {:induction false} GenesisUserTxsCount(w: World, s: State, block: Block, n: nat, r: nat)
    requires AlwaysTicks(w) && Records(w, s, r) && block.blockId == GENESIS_BLOCK_ID && n <= |block.transactions|
    requires ApplyUserTxs(w, s, block, block.transactions[..n]).error.None?
    ensures Records(w, ApplyUserTxs(w, s, block, block.transactions[..n]).state, r + CallsIn(w, s, block, n))
  {
    if n > 0 {
      FrontApplies(w, s, block, block.transactions[..n - 1], block.transactions[..n]);
      GenesisUserTxsCount(w, s, block, n - 1, r);
      GenesisUserTxCounts(w, s, block, n, r + CallsIn(w, s, block, n - 1));
    }
  }

  lemma {:induction false} GenesisUserTxCounts(w: World, s: State, block: Block, n: nat, r: nat)
    requires AlwaysTicks(w) && 0 < n <= |block.transactions| && block.blockId == GENESIS_BLOCK_ID
    requires ApplyUserTxs(w, s, block, block.transactions[..n]).error.None?
    requires Records(w, ApplyUserTxs(w, s, block, block.transactions[..n - 1]).state, r)
    ensures Records(w, ApplyUserTxs(w, s, block, block.transactions[..n]).state, r + CallsAt(w, s, block, n - 1))
  {
    GenesisSnocCounts(w, s, block, block.transactions[..n - 1], block.transactions[n - 1], block.transactions[..n], r);
  }

  lemma {:induction false} GenesisSnocCounts(
    w: World, s: State, block: Block, front: seq<Transaction>, tx: Transaction, all: seq<Transaction>, r: nat)
    requires AlwaysTicks(w) && all == front + [tx] && block.blockId == GENESIS_BLOCK_ID
    requires ApplyUserTxs(w, s, block, all).error.None? && Records(w, ApplyUserTxs(w, s, block, front).state, r)
    ensures Records(w, ApplyUserTxs(w, s, block, all).state, r + ClockCalls(w, ApplyUserTxs(w, s, block, front).state, EventOf(block, tx)))
  {
    GenesisSnoc(w, s, block, front, tx, all);
    TransactionCounts(w, ApplyUserTxs(w, s, block, front).state, EventOf(block, tx), ApplyUserTxs(w, s, block, all).state, r);
  }

  /** The user transactions of the genesis block leave the first clock alone exactly when none of them runs the clock
      program. */
  lemma {:induction false} GenesisClockKeptIff(w: World, s: State, block: Block, r: nat)
    requires AlwaysTicks(w) && Records(w, s, r) && block.blockId == GENESIS_BLOCK_ID && block.transactions != []
    requires ApplyUserTxs(w, s, block, block.transactions[..|block.transactions| - 1]).error.None?
    ensures DataOf(ApplyUserTxs(w, s, block, block.transactions[..|block.transactions| - 1]).state, CLOCK_01) == DataOf(s, CLOCK_01)
       <==> SparesClock(w, s, block)
  {
    var n := |block.transactions| - 1;
    GenesisUserTxsCount(w, s, block, n, r);
    NoCallsInIff(w, s, block, n);
    if SparesClock(w, s, block) {
      GenesisUserTxsKeepClock(w, s, block, n, CLOCK_01);
    }
  }

  // ---- Blocks and chains ----

  /** The calls of the clock program a block makes besides its clock transaction: possible in the genesis block only. */
  function ExtraCalls(w: World, s: State, block: Block): nat {
    if block.blockId == GENESIS_BLOCK_ID && block.transactions != [] then CallsIn(w, s, block, |block.transactions| - 1) else 0
  }

  lemma {:induction false} UserTxsCount(w: World, s: State, block: Block, r: nat)
    requires AlwaysTicks(w) && Records(w, s, r) && ApplyBlock(w, s, block).error.None?
    ensures block.transactions != []
    ensures Records(w, ApplyUserTxs(w, s, block, block.transactions[..|block.transactions| - 1]).state, r + ExtraCalls(w, s, block))
  {
    var n := |block.transactions| - 1;
    var txs := block.transactions[..n];
    if block.blockId == GENESIS_BLOCK_ID {
      GenesisUserTxsCount(w, s, block, n, r);
    } else {
      var middle := ApplyUserTxs(w, s, block, txs).state;
      UserTxsKeepClocks(w, s, block, txs);
      assert CLOCK_ACCOUNT_IDS[0] == CLOCK_01 && CLOCK_01 in CLOCK_ACCOUNT_IDS;
      assert SameCore(AccountOf(s.ledger.accounts, CLOCK_01), AccountOf(middle.ledger.accounts, CLOCK_01));
      UserTxsAreRun(w, s, block, txs);
      RunGrows(w, s, EventsOf(block, txs));
    }
  }

  lemma {:induction false} InvocationCounts(w: World, s: State, e: Event, s': State, r: nat)
    requires ClockBehaves(w) && Records(w, s, r)
    requires e.tx == Public(ClockInvocation(w, e.timestamp)) && Take(w, s, e) == Accepted(s')
    ensures Records(w, s', r + 1)
  {
    ClockTransactionTicks(w, s, e.blockId, e.timestamp, s');
    StaysDeployed(w, s, e, s');
    StepKeepsAccount(w, s, e, s', CLOCK_01);
    TickCounts(w, s, s', e.timestamp, r);
  }

  lemma {:induction false} TickCounts(w: World, s: State, s': State, timestamp: u64, r: nat)
    requires Counter(w, AccountOf(s.ledger.accounts, CLOCK_01), r) && AllTick(s, s', timestamp)
    requires AccountOf(s'.ledger.accounts, CLOCK_01).programOwner == w.clockProgram.id
    ensures Counter(w, AccountOf(s'.ledger.accounts, CLOCK_01), r + 1)
  {
    RecordedBlockOf(r + 1, timestamp);
  }

  /** A block advances the first clock by one and by every call of the clock program its user transactions make. */
  lemma {:induction false} BlockCounts(w: World, s: State, block: Block, r: nat)
    requires ClockBehaves(w) && Records(w, s, r) && ApplyBlock(w, s, block).error.None?
    ensures Records(w, ApplyBlock(w, s, block).state, r + 1 + ExtraCalls(w, s, block))
  {
    UserTxsCount(w, s, block, r);
    ClockTransactionIsLast(w, s, block);
    var k := |block.transactions| - 1;
    InvocationCounts(w, ApplyUserTxs(w, s, block, block.transactions[..k]).state, EventOf(block, block.transactions[k]),
                     ApplyBlock(w, s, block).state, r + ExtraCalls(w, s, block));
  }

  /** The extra calls of the `i`-th block of a chain. */
  function ExtraAt(w: World, s: State, blocks: seq<Block>, i: nat): nat
    requires i < |blocks|
  {
    ExtraCalls(w, ApplyBlocks(w, s, blocks[..i]).state, blocks[i])
  }

  /** The extra calls of the first `n` blocks of a chain. */
  function ExtraIn(w: World, s: State, blocks: seq<Block>, n: nat): nat
    requires n <= |blocks|
  {
    if n == 0 then 0 else ExtraIn(w, s, blocks, n - 1) + ExtraAt(w, s, blocks, n - 1)
  }

  lemma {:induction false} PrefixStep(w: World, s: State, blocks: seq<Block>, n: nat)
    requires 0 < n <= |blocks| && ApplyBlocks(w, s, blocks[..n]).error.None?
    ensures ApplyBlocks(w, s, blocks[..n - 1]).error.None?
    ensures ApplyBlock(w, ApplyBlocks(w, s, blocks[..n - 1]).state, blocks[n - 1]) == ApplyBlocks(w, s, blocks[..n])
  {
    ChainStep(w, s, blocks[..n]);
    assert blocks[..n][..n - 1] == blocks[..n - 1] && blocks[..n][n - 1] == blocks[n - 1];
  }

  /** Over a chain the first clock advances by the number of blocks and of those extra calls. */
  lemma {:induction false} ChainCounts(w: World, s: State, blocks: seq<Block>, n: nat, r: nat)
    requires ClockBehaves(w) && Records(w, s, r) && n <= |blocks| && ApplyBlocks(w, s, blocks[..n]).error.None?
    ensures Records(w, ApplyBlocks(w, s, blocks[..n]).state, r + n + ExtraIn(w, s, blocks, n))
  {
    if n > 0 {
      PrefixStep(w, s, blocks, n);
      ChainCounts(w, s, blocks, n - 1, r);
      BlockCounts(w, ApplyBlocks(w, s, blocks[..n - 1]).state, blocks[n - 1], r + n - 1 + ExtraIn(w, s, blocks, n - 1));
    }
  }

  lemma {:induction false} NoExtraIff(w: World, s: State, block: Block)
    requires ApplyBlock(w, s, block).error.None?
    ensures ExtraCalls(w, s, block) == 0 <==> (block.blockId == GENESIS_BLOCK_ID ==> SparesClock(w, s, block))
  {
    NoCallsInIff(w, s, block, |block.transactions| - 1);
  }

  lemma {:induction false} NoExtraAtIff(w: World, s: State, blocks: seq<Block>, n: nat)
    requires 0 < n <= |blocks| && ApplyBlocks(w, s, blocks[..n]).error.None?
    ensures ExtraAt(w, s, blocks, n - 1) == 0 <==> GenesisSpared(w, s, blocks, n - 1)
  {
    PrefixStep(w, s, blocks, n);
    NoExtraIff(w, ApplyBlocks(w, s, blocks[..n - 1]).state, blocks[n - 1]);
  }

  lemma {:induction false} NoExtraIsSpared(w: World, s: State, blocks: seq<Block>, n: nat, i: nat)
    requires i < n <= |blocks| && ApplyBlocks(w, s, blocks[..n]).error.None? && ExtraIn(w, s, blocks, n) == 0
    ensures GenesisSpared(w, s, blocks, i)
  {
    if i == n - 1 {
      NoExtraAtIff(w, s, blocks, n);
    } else {
      PrefixStep(w, s, blocks, n);
      NoExtraIsSpared(w, s, blocks, n - 1, i);
    }
  }

  lemma {:induction false} ShownIsRecorded(s: State, times: seq<u64>)
    requires ClocksShow(s, times)
    ensures RecordedBlock(DataOf(s, CLOCK_01)) == Some(|times| - 1)
  {
    RecordedBlockOf(|times| - 1, times[|times| - 1]);
  }

  /** From a state whose clocks are right, over any chain of blocks that applies, the clocks are right at the end if and
      only if no user transaction of a genesis block runs the clock program. */
  lemma {:induction false} ClocksRightIff(w: World, s: State, times: seq<u64>, blocks: seq<Block>)
    requires ClockBehaves(w) && Clockwork(w, s, times) && ApplyBlocks(w, s, blocks).error.None?
    ensures ClocksShow(ApplyBlocks(w, s, blocks).state, times + Times(blocks))
       <==> forall i :: 0 <= i < |blocks| ==> GenesisSpared(w, s, blocks, i)
  {
    var last := ApplyBlocks(w, s, blocks).state;
    ShownIsRecorded(s, times);
    assert blocks[..|blocks|] == blocks;
    ChainCounts(w, s, blocks, |blocks|, |times| - 1);
    if forall i :: 0 <= i < |blocks| ==> GenesisSpared(w, s, blocks, i) {
      ClocksOverChains(w, s, times, blocks);
    }
    if ClocksShow(last, times + Times(blocks)) {
      ShownIsRecorded(last, times + Times(blocks));
      forall i | 0 <= i < |blocks|
        ensures GenesisSpared(w, s, blocks, i)
      {
        NoExtraIsSpared(w, s, blocks, |blocks|, i);
      }
    }
  }

  /** The clocks from the very start: after any chain of blocks that applies to the genesis state, each clock shows the
      last block that is a multiple of its interval, with that block's time, if and only if no user transaction of the
      genesis block runs the clock program. */
  lemma {:induction false} ClocksFromGenesis(
    w: World, initial: seq<(AccountId, u128)>, privateAccounts: seq<(Commitment, Nullifier)>, timestamp: u64, blocks: seq<Block>)
    requires ClockBehaves(w)
    requires forall p :: p in [w.transferProgram] + w.otherPrograms + [w.faucetProgram] ==> p.id != w.clockProgram.id
    requires ApplyBlocks(w, GenesisState(w, initial, privateAccounts, timestamp), blocks).error.None?
    ensures var s := GenesisState(w, initial, privateAccounts, timestamp);
            ClocksShow(ApplyBlocks(w, s, blocks).state, [timestamp] + Times(blocks))
            <==> forall i :: 0 <= i < |blocks| ==> GenesisSpared(w, s, blocks, i)
  {
    GenesisClockwork(w, initial, privateAccounts, timestamp);
    ClocksRightIff(w, GenesisState(w, initial, privateAccounts, timestamp), [timestamp], blocks);
  }
}
