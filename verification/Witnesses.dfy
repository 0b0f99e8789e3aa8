/** Concrete executions that meet the premises of the results about unwelcome outcomes. */
module Witnesses {
  import opened Types
  import opened Validator
  import opened Identity
  import opened Ledgers
  import opened Executor
  import opened CallTree
  import opened Merkle
  import opened Transactions
  import opened Runs
  import opened Genesis
  import opened Blocks
  import opened Clock
  import opened ClockCount
  import MerkleTrees

  // ---- A small world ----

  const FIRST: Program := Program(ProgramId([1, 0, 0, 0, 0, 0, 0, 0]), [])
  const SECOND: Program := Program(ProgramId([2, 0, 0, 0, 0, 0, 0, 0]), [])
  const THIRD: Program := Program(ProgramId([3, 0, 0, 0, 0, 0, 0, 0]), [])

  const ALWAYS: ValidityWindow := ValidityWindow(None, None)

  const PROGRAMS: map<ProgramId, Program> := map[FIRST.id := FIRST, SECOND.id := SECOND, THIRD.id := THIRD]

  type Executable = (Program, Option<ProgramId>, seq<AccountWithMetadata>, seq<u32>) -> Result<ProgramOutput, NssaError>

  /** A world in which every signature and proof is valid, with the given programs. */
  function Lenient(execute: Executable): World {
    World(bytes => ZERO, execute, (s, m, k) => true, (s, m, k) => true, (p, o) => true, bytecode => None, t => [],
          FIRST, FIRST, FIRST, [])
  }

  function Fresh(roots: set<Digest>): Ledger {
    Ledger(map[], PROGRAMS, map[], roots, {})
  }

  /** The output of a program that reports no account. */
  function Quiet(program: Program, caller: Option<ProgramId>, calls: seq<ChainedCall>): ProgramOutput {
    ProgramOutput(program.id, caller, [], [], [], calls, ALWAYS, ALWAYS)
  }

  /** The output of a program that reports its one account unchanged. */
  function Echo(program: Program, caller: Option<ProgramId>, pre: AccountWithMetadata): ProgramOutput {
    ProgramOutput(program.id, caller, [], [pre], [AccountPostState(pre.account, None)], [], ALWAYS, ALWAYS)
  }

  lemma {:induction false} QuietCall(ctx: Context, f: Frame, diff: Diff, program: Program, calls: seq<ChainedCall>)
    requires f.call.programId == program.id && program.id in ctx.ledger.programs && ctx.ledger.programs[program.id] == program
    requires ctx.w.execute(program, f.caller.programId, f.call.preStates, f.call.instructionData)
          == Ok(Quiet(program, f.caller.programId, calls))
    ensures ExecCall(ctx, f, diff) == Ok(Executed(f, Quiet(program, f.caller.programId, calls), diff, diff))
  {
    VerdictExact([], [], program.id);
  }

  lemma {:induction false} EchoCall(ctx: Context, f: Frame, diff: Diff, program: Program, pre: AccountWithMetadata)
    requires f.call.programId == program.id && program.id in ctx.ledger.programs && ctx.ledger.programs[program.id] == program
    requires ctx.w.execute(program, f.caller.programId, f.call.preStates, f.call.instructionData)
          == Ok(Echo(program, f.caller.programId, pre))
    requires pre.account == View(ctx.ledger, diff, pre.accountId) == DEFAULT_ACCOUNT && IsAuthorized(ctx.w, f, pre.accountId)
    ensures ExecCall(ctx, f, diff)
         == Ok(Executed(f, Echo(program, f.caller.programId, pre), diff, diff[pre.accountId := DEFAULT_ACCOUNT]))
  {
    var out := Echo(program, f.caller.programId, pre);
    assert PreBalances(out.preStates) == PostBalances(out.postStates) == [0];
    assert Sum([0]) == 0;
    VerdictExact(out.preStates, out.postStates, program.id);
    assert FirstPreStateError(ctx, f, diff, out.preStates, 0) == FirstPreStateError(ctx, f, diff, out.preStates, 1) == None;
    assert FirstClaimError(ctx.w, program.id, out.preStates, out.postStates, 0).None?;
    assert WriteBack(diff, program.id, out.preStates, out.postStates, 0) == diff;
  }

  // ---- Authority that no one granted ----

  function Marked(id: AccountId): AccountWithMetadata {
    AccountWithMetadata(DEFAULT_ACCOUNT, true, id)
  }

  function CallWith(program: Program, id: AccountId): ChainedCall {
    ChainedCall(program.id, [Marked(id)], [], [])
  }

  /** The first two programs report nothing and call the next one with `id` marked as authorized; the third echoes. */
  function Relay(id: AccountId): Executable {
    (program, caller, pres, data) =>
      if program == FIRST then Ok(Quiet(FIRST, caller, [CallWith(SECOND, id)]))
      else if program == SECOND then Ok(Quiet(SECOND, caller, [CallWith(THIRD, id)]))
      else Ok(Echo(program, caller, Marked(id)))
  }

  function RelayContext(id: AccountId): Context {
    Context(Lenient(Relay(id)), Fresh({}), 2, 0)
  }

  function Unsigned(): PublicTransaction {
    PublicTransaction(PublicMessage(FIRST.id, [], [], []), [])
  }

  function RelayLog(id: AccountId): seq<Executed> {
    var ctx := RelayContext(id);
    var f0 := RootFrame(ctx.w, ctx.ledger, Unsigned());
    var f1 := Frame(CallWith(SECOND, id), CallerData(Some(FIRST.id), {}));
    var f2 := Frame(CallWith(THIRD, id), CallerData(Some(SECOND.id), {id}));
    [Executed(f0, Quiet(FIRST, None, [CallWith(SECOND, id)]), map[], map[]),
     Executed(f1, Quiet(SECOND, Some(FIRST.id), [CallWith(THIRD, id)]), map[], map[]),
     Executed(f2, Echo(THIRD, Some(SECOND.id), Marked(id)), map[], map[id := DEFAULT_ACCOUNT])]
  }

  lemma {:induction false} RelayChildren(id: AccountId)
    ensures var log := RelayLog(id);
            Children(log[0]) == [log[1].frame] && Children(log[1]) == [log[2].frame] && Children(log[2]) == []
  {
    var log := RelayLog(id);
    assert ReceivedAuthorized(log[0].frame.call) == {};
    assert ReceivedAuthorized(log[1].frame.call) == {id} by {
      assert Marked(id) in log[1].frame.call.preStates;
    }
  }

  lemma {:induction false} RelayCalls(id: AccountId)
    ensures var ctx, log := RelayContext(id), RelayLog(id);
            forall k :: 0 <= k < 3 ==> ExecCall(ctx, log[k].frame, map[]) == Ok(log[k])
  {
    var ctx, log := RelayContext(id), RelayLog(id);
    QuietCall(ctx, log[0].frame, map[], FIRST, [CallWith(SECOND, id)]);
    QuietCall(ctx, log[1].frame, map[], SECOND, [CallWith(THIRD, id)]);
    EchoCall(ctx, log[2].frame, map[], THIRD, Marked(id));
  }

  lemma {:induction false} RelayRuns(id: AccountId)
    ensures ExecutePublic(RelayContext(id), Unsigned()) == Ok(RelayLog(id))
  {
    var ctx, log := RelayContext(id), RelayLog(id);
    RelayCalls(id);
    RelayChildren(id);
    var root := log[0].frame;
    WorklistIsPreorder(ctx, [root], []);
    assert EvalCalls(ctx, [root], []) == EvalCall(ctx, root, []);
    assert Drain(ctx, [], log) == Ok(log);
    assert Children(log[2]) + [log[2].frame][1..] == [] && [log[0], log[1]] + [log[2]] == log;
    assert Drain(ctx, [log[2].frame], [log[0], log[1]]) == Ok(log);
    assert Children(log[1]) + [log[1].frame][1..] == [log[2].frame] && [log[0]] + [log[1]] == [log[0], log[1]];
    assert Drain(ctx, [log[1].frame], [log[0]]) == Ok(log);
    assert Children(log[0]) + [root][1..] == [log[1].frame] && [] + [log[0]] == [log[0]];
    assert Drain(ctx, [root], []) == Ok(log);
  }

  lemma {:induction false} RelayForges(id: AccountId)
    ensures var w, log := RelayContext(id).w, RelayLog(id);
            && IsPath(log, log[0].frame, [0, 1, 2]) && id in Reported(log[2])
            && !FromAncestorPda(w, log, [0, 1, 2], id)
            && Forged(w, log[1], id) && !NothingForged(w, log)
  {
    var w, log := RelayContext(id).w, RelayLog(id);
    RelayChildren(id);
    assert Marked(id) in log[1].frame.call.preStates && Marked(id) in log[2].output.preStates;
    assert Forged(w, log[1], id);
    assert log[2].frame in Children(log[1]);
  }

  /** Authority is not always rightful: for every account there is an accepted transaction that nobody signed, in whose
      call tree no PDA is granted, and that still has a call reporting the account as authorized. */
  lemma {:induction false} ForgedAuthority(id: AccountId) returns (ctx: Context, tx: PublicTransaction)
    ensures tx.witnesses == [] && ExecutePublic(ctx, tx).Ok? && |ExecutePublic(ctx, tx).value| == 3
    ensures var log, root := ExecutePublic(ctx, tx).value, RootFrame(ctx.w, ctx.ledger, tx);
            && IsPath(log, root, [0, 1, 2]) && id in Reported(log[2])
            && !FromAncestorPda(ctx.w, log, [0, 1, 2], id)
            && Forged(ctx.w, log[1], id) && !NothingForged(ctx.w, log) && !AllRightful(ctx.w, tx, log, root)
  {
    ctx, tx := RelayContext(id), Unsigned();
    RelayRuns(id);
    RelayForges(id);
    RightfulIffNothingForged(ctx, tx);
  }

  // ---- A program that creates its PDA ----

  /** The output of a program that claims its own derived account. */
  function ClaimsPda(w: World, seed: PdaSeed): ProgramOutput {
    ProgramOutput(FIRST.id, None, [], [AccountWithMetadata(DEFAULT_ACCOUNT, false, PublicPda(w, FIRST.id, seed))],
                  [AccountPostState(DEFAULT_ACCOUNT, Some(Pda(seed)))], [], ALWAYS, ALWAYS)
  }

  /** The result of the claiming program does not depend on the world, so that it can be put in one. */
  function Claiming(seed: PdaSeed): Executable {
    (program, caller, pres, data) => Ok(ClaimsPda(Lenient(Idle()), seed))
  }

  /** A program may claim its derived account although nobody signed for it. */
  lemma {:induction false} UnsignedPdaClaimed(seed: PdaSeed) returns (ctx: Context, tx: PublicTransaction)
    ensures tx.witnesses == [] && ExecutePublic(ctx, tx).Ok? && |ExecutePublic(ctx, tx).value| == 1
    ensures var e := ExecutePublic(ctx, tx).value[0];
            && e.output.preStates == [AccountWithMetadata(DEFAULT_ACCOUNT, false, PublicPda(ctx.w, FIRST.id, seed))]
            && e.output.postStates[0].claim == Some(Pda(seed))
            && View(ctx.ledger, e.after, PublicPda(ctx.w, FIRST.id, seed)).programOwner == FIRST.id
  {
    ctx, tx := Context(Lenient(Claiming(seed)), Fresh({}), 2, 0), Unsigned();
    var root, out := RootFrame(ctx.w, ctx.ledger, tx), ClaimsPda(ctx.w, seed);
    assert out == ClaimsPda(Lenient(Idle()), seed);
    var id := PublicPda(ctx.w, FIRST.id, seed);
    var after := WriteBack(map[], FIRST.id, out.preStates, out.postStates, 1);
    assert WriteBack(map[], FIRST.id, out.preStates, out.postStates, 0) == map[];
    assert after == map[id := DEFAULT_ACCOUNT.(programOwner := FIRST.id)];
    var e := Executed(root, out, map[], after);
    PdaClaimBehaves(ctx.w, seed);
    CallAccepted(ctx, e);
    SingleCall(ctx, root, e);
  }

  lemma {:induction false} PdaClaimBehaves(w: World, seed: PdaSeed)
    ensures WellBehaved(ClaimsPda(w, seed).preStates, ClaimsPda(w, seed).postStates, FIRST.id)
  {
    var out := ClaimsPda(w, seed);
    assert PreBalances(out.preStates) == PostBalances(out.postStates) == [0];
    assert Sum([0]) == 0;
  }

  // ---- A signer that claims nothing ----

  function Idle(): Executable {
    (program, caller, pres, data) => Ok(Quiet(program, caller, []))
  }

  /** A key that has never been used signs a call that reports no account: the call is accepted, and the key's account is
      left default-owned with nonce 1. */
  lemma {:induction false} SignerLeftUnclaimed(key: PublicKey) returns (w: World, s: State, e: Event, next: State)
    ensures e.tx.Public? && Take(w, s, e) == Accepted(next)
    ensures SignerIds(w, e.tx.publicTx.witnesses) == [SignerId(w, key)]
    ensures AccountOf(s.ledger.accounts, SignerId(w, key)) == DEFAULT_ACCOUNT
    ensures AccountOf(next.ledger.accounts, SignerId(w, key)) == DEFAULT_ACCOUNT.(nonce := 1)
  {
    w := Lenient(Idle());
    s := State(Fresh({}), []);
    var id := SignerId(w, key);
    var tx := PublicTransaction(PublicMessage(FIRST.id, [], [0], []), [(Signature([]), key)]);
    e := Event(Public(tx), 2, 0);
    var ctx := Context(w, s.ledger, 2, 0);
    var root := RootFrame(w, s.ledger, tx);
    QuietCall(ctx, root, map[], FIRST, []);
    var call := Executed(root, Quiet(FIRST, None, []), map[], map[]);
    assert [] + [call] == [call] && Children(call) == [];
    assert EvalCalls(ctx, [], [call]) == Ok([call]);
    assert EvalCall(ctx, root, []) == Ok([call]);
    assert SignerIds(w, tx.witnesses) == [id];
    assert Validate(ctx, e.tx) == Ok(StateDiff([id], map[], [], [], None));
    var accounts: map<AccountId, Account> := s.ledger.accounts + map[];
    assert multiset([id])[id] == 1;
    BumpedAt(accounts, [id], id);
    next := Apply(w, s, StateDiff([id], map[], [], [], None));
  }

  // ---- One nullifier under two digests ----

  /** The duplicate check compares pairs: a nullifier given with two recognized digests passes and is listed twice. */
  lemma {:induction false} NullifierUnderTwoDigests(n: Nullifier, d1: Digest, d2: Digest) returns (ctx: Context, tx: PrivateTransaction)
    requires d1 != d2
    ensures PrivateDiff(ctx, tx).Ok? && PrivateDiff(ctx, tx).value.newNullifiers == [n, n]
  {
    ctx := Context(Lenient(Idle()), Fresh({d1, d2}), 2, 0);
    tx := PrivateTransaction(PrivateMessage([], [], [], [], [], [(n, d1), (n, d2)], ALWAYS, ALWAYS), [], Proof([]));
    OutputExact(ctx, tx, CircuitOutputOf(ctx, tx));
    PrivateAcceptedIff(ctx, tx, CircuitOutputOf(ctx, tx));
  }

  // ---- The faucet program below the first call ----

  /** The first program reports nothing and calls the second, which reports nothing. */
  function Below(): Executable {
    (program, caller, pres, data) =>
      Ok(Quiet(program, caller, if program == FIRST then [ChainedCall(SECOND.id, [], [], [])] else []))
  }

  /** The guard lets the faucet program run below another one: the second program of this accepted transaction is it. */
  lemma {:induction false} FaucetBelowFirstCall() returns (w: World, s: State, tx: PublicTransaction)
    ensures ExecuteChecked(w, s, Public(tx), 2, 0).Accepted?
    ensures var log := LogOf(w, s, Event(Public(tx), 2, 0)); |log| == 2 && log[1].Pid() == w.faucetProgram.id
  {
    w, s, tx := Lenient(Below()).(faucetProgram := SECOND), State(Fresh({}), []), Unsigned();
    var ctx := Context(w, s.ledger, 2, 0);
    var root := RootFrame(w, s.ledger, tx);
    var call := ChainedCall(SECOND.id, [], [], []);
    var below := Frame(call, CallerData(Some(FIRST.id), {}));
    var e0 := Executed(root, Quiet(FIRST, None, [call]), map[], map[]);
    var e1 := Executed(below, Quiet(SECOND, Some(FIRST.id), []), map[], map[]);
    QuietCall(ctx, root, map[], FIRST, [call]);
    QuietCall(ctx, below, map[], SECOND, []);
    assert ReceivedAuthorized(root.call) == {};
    assert Children(e0) == [below];
    TwoCalls(ctx, e0, e1);
    assert ExecutePublic(ctx, tx) == Ok([e0, e1]);
    NothingToApply(w, s, StateDiff([], map[], [], [], None));
    GuardOnCalls(w, s, tx, 2, 0);
  }

  lemma {:induction false} NothingToApply(w: World, s: State, d: StateDiff)
    requires d == StateDiff([], d.publicDiff, [], [], None) && |s.leaves| <= MerkleTrees.MAX_LEAVES
    ensures !Aborts(s, d)
  {
  }

  lemma {:induction false} TwoCalls(ctx: Context, e0: Executed, e1: Executed)
    requires ExecCall(ctx, e0.frame, map[]) == Ok(e0) && e0.after == map[] && Children(e0) == [e1.frame]
    requires ExecCall(ctx, e1.frame, map[]) == Ok(e1) && e1.output.chainedCalls == []
    ensures EvalCall(ctx, e0.frame, []) == Ok([e0, e1])
  {
    assert [] + [e0] == [e0] && [e0] + [e1] == [e0, e1];
    assert Children(e1) == [];
    assert EvalCalls(ctx, [], [e0, e1]) == Ok([e0, e1]);
    assert EvalCall(ctx, e1.frame, [e0]) == Ok([e0, e1]);
    assert [e1.frame][1..] == [];
    assert EvalCalls(ctx, [e1.frame], [e0]) == Ok([e0, e1]);
  }

  // ---- A clock that ticks twice in the genesis block ----

  /** A clock program whose instruction is a timestamp in two words. */
  function RunClock(program: Program, caller: Option<ProgramId>, pres: seq<AccountWithMetadata>, data: seq<u32>): Result<ProgramOutput, NssaError> {
    if |data| != 2 || |pres| != 3 || Ids(pres) != CLOCK_ACCOUNT_IDS then Err(ProgramExecutionFailed("input"))
    else
      match RecordedBlock(pres[0].account.data)
      case None => Err(ProgramExecutionFailed("data"))
      case Some(n) =>
        if n + 1 >= TWO_64 then Err(ProgramExecutionFailed("overflow")) else Ok(ClockResult(program, caller, pres, n + 1, Decoded(data)))
  }

  function ClockResult(program: Program, caller: Option<ProgramId>, pres: seq<AccountWithMetadata>, n: u64, timestamp: u64): ProgramOutput
    requires |pres| == 3
  {
    ProgramOutput(program.id, caller, [], pres,
                  [Ticked(pres[0], 1, n, timestamp), Ticked(pres[1], 10, n, timestamp), Ticked(pres[2], 50, n, timestamp)],
                  [], ALWAYS, ALWAYS)
  }

  function Decoded(data: seq<u32>): u64
    requires |data| == 2
  {
    (data[0] as int) + (data[1] as int) * 0x1_0000_0000
  }

  function Encoded(timestamp: u64): (data: seq<u32>)
    ensures |data| == 2 && Decoded(data) == timestamp
  {
    [timestamp % 0x1_0000_0000, timestamp / 0x1_0000_0000]
  }

  function ClockWorld(): World {
    Lenient((program, caller, pres, data) => RunClock(program, caller, pres, data)).(
      serializeTimestamp := timestamp => Encoded(timestamp), transferProgram := SECOND, faucetProgram := THIRD)
  }

  lemma {:induction false} RunClockTicks(program: Program, caller: Option<ProgramId>, pres: seq<AccountWithMetadata>, data: seq<u32>)
    requires RunClock(program, caller, pres, data).Ok?
    ensures |data| == 2 && ClockOutput(pres, Decoded(data), RunClock(program, caller, pres, data).value)
  {
    assert Ids(pres)[0] == CLOCK_ACCOUNT_IDS[0] && Ids(pres)[1] == CLOCK_ACCOUNT_IDS[1] && Ids(pres)[2] == CLOCK_ACCOUNT_IDS[2];
  }

  lemma {:induction false} ClockWorldBehaves()
    ensures ClockBehaves(ClockWorld())
  {
    var w := ClockWorld();
    forall caller: Option<ProgramId>, pres: seq<AccountWithMetadata>, data: seq<u32> | w.execute(w.clockProgram, caller, pres, data).Ok?
      ensures exists timestamp: u64 :: ClockOutput(pres, timestamp, w.execute(w.clockProgram, caller, pres, data).value)
    {
      RunClockTicks(FIRST, caller, pres, data);
    }
    forall caller: Option<ProgramId>, pres: seq<AccountWithMetadata>, timestamp: u64
      | w.execute(w.clockProgram, caller, pres, w.serializeTimestamp(timestamp)).Ok?
      ensures ClockOutput(pres, timestamp, w.execute(w.clockProgram, caller, pres, w.serializeTimestamp(timestamp)).value)
    {
      RunClockTicks(FIRST, caller, pres, Encoded(timestamp));
    }
  }

  lemma {:induction false} ClockIdsDiffer()
    ensures Distinct(CLOCK_ACCOUNT_IDS)
  {
    assert CLOCK_01.bytes[30] == 48 && CLOCK_01.bytes[31] == 49;
    assert CLOCK_10.bytes[30] == 49 && CLOCK_10.bytes[31] == 48 && CLOCK_50.bytes[30] == 53;
  }

  lemma {:induction false} TickingBehaves(out: ProgramOutput, n: u64, timestamp: u64)
    requires |out.preStates| == 3 && out == ClockResult(FIRST, None, out.preStates, n, timestamp)
    requires Distinct(Ids(out.preStates)) && forall i :: 0 <= i < 3 ==> out.preStates[i].account.programOwner == FIRST.id
    ensures WellBehaved(out.preStates, out.postStates, FIRST.id)
  {
    var balances := PreBalances(out.preStates);
    assert balances == PostBalances(out.postStates);
    assert balances == [balances[0], balances[1], balances[2]];
    SumOfThree(balances[0], balances[1], balances[2]);
  }

  lemma {:induction false} SumOfThree(a: u128, b: u128, c: u128)
    ensures Sum([a, b, c]) == a + b + c
  {
    SumPrefix([a, b, c], 2);
    SumPrefix([a, b, c], 1);
    SumPrefix([a, b, c], 0);
    assert [a, b, c][..3] == [a, b, c] && [a, b, c][..0] == [];
  }

  /** A state in which the sample clock program can tick. */
  ghost predicate CanTick(s: State, n: nat) {
    && n + 1 < TWO_64 && |s.leaves| <= MerkleTrees.MAX_LEAVES
    && Records(ClockWorld(), s, n)
    && forall id :: id in CLOCK_ACCOUNT_IDS ==> AccountOf(s.ledger.accounts, id).programOwner == FIRST.id
  }

  function ClockExecuted(s: State, n: u64, timestamp: u64): Executed {
    var root := RootFrame(ClockWorld(), s.ledger, ClockInvocation(ClockWorld(), timestamp));
    var out := ClockResult(FIRST, None, InputPreStates(s.ledger, CLOCK_ACCOUNT_IDS, []), n, timestamp);
    Executed(root, out, map[], WriteBack(map[], FIRST.id, out.preStates, out.postStates, 3))
  }

  lemma {:induction false} ClockOutputAccepted(s: State, n: nat, blockId: u64, timestamp: u64)
    requires CanTick(s, n)
    ensures AcceptedOutput(Context(ClockWorld(), s.ledger, blockId, timestamp), ClockExecuted(s, n + 1, timestamp))
  {
    var e := ClockExecuted(s, n + 1, timestamp);
    ClockIdsDiffer();
    assert Ids(e.output.preStates) == CLOCK_ACCOUNT_IDS;
    forall i | 0 <= i < 3
      ensures e.output.preStates[i].account.programOwner == FIRST.id
    {
      assert CLOCK_ACCOUNT_IDS[i] in CLOCK_ACCOUNT_IDS;
    }
    TickingBehaves(e.output, n + 1, timestamp);
    ClockReport(s, n + 1, blockId, timestamp);
  }

  lemma {:induction false} ClockReport(s: State, n: u64, blockId: u64, timestamp: u64)
    ensures var ctx, e := Context(ClockWorld(), s.ledger, blockId, timestamp), ClockExecuted(s, n, timestamp);
            forall i :: 0 <= i < 3 ==>
              && PreStateRight(ctx, e.frame, map[], e.output.preStates[i])
              && ClaimRight(ctx.w, e.Pid(), e.output.preStates[i], e.output.postStates[i])
  {
  }

  lemma {:induction false} ClockRuns(s: State, n: nat, blockId: u64, timestamp: u64)
    requires CanTick(s, n)
    ensures EvalCall(Context(ClockWorld(), s.ledger, blockId, timestamp),
                     RootFrame(ClockWorld(), s.ledger, ClockInvocation(ClockWorld(), timestamp)), [])
         == Ok([ClockExecuted(s, n + 1, timestamp)])
  {
    var ctx, e := Context(ClockWorld(), s.ledger, blockId, timestamp), ClockExecuted(s, n + 1, timestamp);
    ClockOutputAccepted(s, n, blockId, timestamp);
    ClockReturns(s, n, timestamp);
    CallAccepted(ctx, e);
    SingleCall(ctx, e.frame, e);
  }

  lemma {:induction false} ClockReturns(s: State, n: nat, timestamp: u64)
    requires CanTick(s, n)
    ensures var w, e := ClockWorld(), ClockExecuted(s, n + 1, timestamp);
            w.execute(FIRST, e.frame.caller.programId, e.frame.call.preStates, e.frame.call.instructionData) == Ok(e.output)
  {
    var e := ClockExecuted(s, n + 1, timestamp);
    assert SignerIds(ClockWorld(), []) == [];
    assert e.frame.call.preStates == e.output.preStates && Ids(e.output.preStates) == CLOCK_ACCOUNT_IDS;
  }

  lemma {:induction false} ClockExecutes(s: State, n: nat, blockId: u64, timestamp: u64)
    requires CanTick(s, n)
    ensures ExecutePublic(Context(ClockWorld(), s.ledger, blockId, timestamp), ClockInvocation(ClockWorld(), timestamp))
         == Ok([ClockExecuted(s, n + 1, timestamp)])
  {
    ClockRuns(s, n, blockId, timestamp);
    ClockIdsDiffer();
    NothingUnclaimed(s, n, blockId, timestamp);
    assert PublicPrecheck(ClockWorld(), s.ledger, ClockInvocation(ClockWorld(), timestamp)).None?;
  }

  /** In such a state the clock transaction is accepted. */
  lemma {:induction false} ClockTransactionAccepted(s: State, n: nat, blockId: u64, timestamp: u64) returns (next: State)
    requires CanTick(s, n)
    ensures Transition(ClockWorld(), s, Public(ClockInvocation(ClockWorld(), timestamp)), blockId, timestamp) == Accepted(next)
    ensures next.leaves == s.leaves
  {
    var w := ClockWorld();
    var ctx, tx, e := Context(w, s.ledger, blockId, timestamp), ClockInvocation(w, timestamp), ClockExecuted(s, n + 1, timestamp);
    ClockExecutes(s, n, blockId, timestamp);
    var d := StateDiff([], e.after, [], [], None);
    assert SignerIds(w, tx.witnesses) == [];
    NothingToApply(w, s, d);
    assert Validate(ctx, Public(tx)) == Ok(d);
    next := Apply(w, s, d);
  }

  lemma {:induction false} NothingUnclaimed(s: State, n: nat, blockId: u64, timestamp: u64)
    requires CanTick(s, n)
    ensures var diff := ClockExecuted(s, n + 1, timestamp).after; forall id :: id in diff ==> !LeftUnclaimed(s.ledger, diff, id)
  {
    var ctx, e := Context(ClockWorld(), s.ledger, blockId, timestamp), ClockExecuted(s, n + 1, timestamp);
    ClockOutputAccepted(s, n, blockId, timestamp);
    forall id | id in e.after
      ensures !LeftUnclaimed(s.ledger, e.after, id)
    {
      CallEffect(ctx, e, id);
      var i: nat :| Touched(e, i, id);
      assert CLOCK_ACCOUNT_IDS[i] == id && id in CLOCK_ACCOUNT_IDS;
    }
  }

  lemma {:induction false} CanTickAgain(s: State, n: nat, blockId: u64, timestamp: u64, next: State)
    requires CanTick(s, n) && n + 2 < TWO_64 && next.leaves == s.leaves
    requires Transition(ClockWorld(), s, Public(ClockInvocation(ClockWorld(), timestamp)), blockId, timestamp) == Accepted(next)
    ensures CanTick(next, n + 1)
  {
    var e := Event(Public(ClockInvocation(ClockWorld(), timestamp)), blockId, timestamp);
    ClockWorldBehaves();
    InvocationCounts(ClockWorld(), s, e, next, n);
    forall id | id in CLOCK_ACCOUNT_IDS
      ensures AccountOf(next.ledger.accounts, id).programOwner == FIRST.id
    {
      StepKeepsAccount(ClockWorld(), s, e, next, id);
    }
  }

  lemma {:induction false} GenesisCanTick(timestamp: u64)
    ensures Clockwork(ClockWorld(), GenesisState(ClockWorld(), [], [], timestamp), [timestamp])
    ensures CanTick(GenesisState(ClockWorld(), [], [], timestamp), 0)
  {
    var w := ClockWorld();
    var s := GenesisState(w, [], [], timestamp);
    GenesisClockwork(w, [], [], timestamp);
    ShownIsRecorded(s, [timestamp]);
  }

  /** The clocks do not always keep pace with the blocks: there is a genesis block with two clock invocations that applies
      to the genesis state and moves the first clock to block 2. */
  lemma {:induction false} GenesisTicksTwice(t0: u64, t: u64) returns (w: World, s: State, block: Block)
    ensures ClockBehaves(w) && s == GenesisState(w, [], [], t0) && block.blockId == GENESIS_BLOCK_ID && block.timestamp == t
    ensures ApplyBlock(w, s, block).error.None? && DataOf(ApplyBlock(w, s, block).state, CLOCK_01) == ClockData(2, t)
    ensures !SparesClock(w, s, block)
  {
    w, s := ClockWorld(), GenesisState(ClockWorld(), [], [], t0);
    var clock := Public(ClockInvocation(w, t));
    block := Block(GENESIS_BLOCK_ID, t, [clock, clock], Pending);
    ClockWorldBehaves();
    GenesisCanTick(t0);
    TwoClocksApply(s, block, 0);
    GenesisCanTickTwice(w, s, block, t0);
    SecondTickShown(w, s, block, t0);
  }

  lemma {:induction false} TwoClocksApply(s: State, block: Block, n: nat)
    requires CanTick(s, n) && n + 2 < TWO_64 && block.blockId == GENESIS_BLOCK_ID
    requires var clock := Public(ClockInvocation(ClockWorld(), block.timestamp)); block.transactions == [clock, clock]
    ensures ApplyBlock(ClockWorld(), s, block).error.None?
  {
    var middle := ClockTransactionAccepted(s, n, block.blockId, block.timestamp);
    CanTickAgain(s, n, block.blockId, block.timestamp, middle);
    var last := ClockTransactionAccepted(middle, n + 1, block.blockId, block.timestamp);
    TwoClockBlock(ClockWorld(), s, block, middle, last);
  }

  lemma {:induction false} TwoClockBlock(w: World, s: State, block: Block, middle: State, last: State)
    requires block.blockId == GENESIS_BLOCK_ID
    requires var clock := Public(ClockInvocation(w, block.timestamp)); block.transactions == [clock, clock]
    requires var clock := Public(ClockInvocation(w, block.timestamp));
             && Transition(w, s, clock, block.blockId, block.timestamp) == Accepted(middle)
             && Transition(w, middle, clock, block.blockId, block.timestamp) == Accepted(last)
    ensures ApplyBlock(w, s, block) == Progress(last, None)
  {
    var clock := Public(ClockInvocation(w, block.timestamp));
    assert block.transactions[..1] == [clock] && [clock][..0] == [];
    assert ApplyUserTxs(w, s, block, [clock]) == ApplyUserTx(w, s, block, clock) == Progress(middle, None);
  }

  lemma {:induction false} SecondTickShown(w: World, s: State, block: Block, t0: u64)
    requires ClockBehaves(w) && Clockwork(w, s, [t0]) && ApplyBlock(w, s, block).error.None? && block.blockId == GENESIS_BLOCK_ID
    requires DataOf(ApplyBlock(w, s, block).state, CLOCK_01) == ClockData(2, block.timestamp)
    ensures !SparesClock(w, s, block)
  {
    ShownIsRecorded(s, [t0]);
    BlockCounts(w, s, block, 0);
    RecordedBlockOf(2, block.timestamp);
    NoExtraIff(w, s, block);
  }
}
