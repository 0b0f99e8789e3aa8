/** What validation reads of the state, and the overlay a transaction builds on it. */
module Ledgers {
  import opened Types

  datatype Ledger = Ledger(
    accounts: map<AccountId, Account>,
    programs: map<ProgramId, Program>,
    commitments: map<Commitment, nat>,
    rootHistory: set<Digest>,
    nullifiers: set<Nullifier>)

  type Diff = map<AccountId, Account>

  /** An account that is not stored is the default account. */
  function AccountOf(accounts: map<AccountId, Account>, id: AccountId): Account {
    if id in accounts then accounts[id] else DEFAULT_ACCOUNT
  }

  /** The overlay's account if it has one, the stored account otherwise. */
  function View(ledger: Ledger, diff: Diff, id: AccountId): Account {
    if id in diff then diff[id] else AccountOf(ledger.accounts, id)
  }

  datatype StateDiff = StateDiff(
    signerIds: seq<AccountId>,
    publicDiff: Diff,
    newCommitments: seq<Commitment>,
    newNullifiers: seq<Nullifier>,
    program: Option<Program>)
}

/** Execution of a public transaction: a worklist of chained program calls over an overlay of the state.
    Programs are arbitrary; every check on them is made here. */
module Executor {
  import opened Types
  import opened Validator
  import opened Identity
  import opened Ledgers

  const MAX_NUMBER_CHAINED_CALLS: nat := 10

  /** What the caller of a program passes on: its own id and the accounts it was given as authorized. */
  datatype CallerData = CallerData(programId: Option<ProgramId>, authorizedAccounts: set<AccountId>)

  datatype Frame = Frame(call: ChainedCall, caller: CallerData)

  /** The state a transaction executes against. */
  datatype Context = Context(w: World, ledger: Ledger, blockId: u64, timestamp: u64)

  /** An accepted call: its frame, the program's output, and the overlay before and after. */
  datatype Executed = Executed(frame: Frame, output: ProgramOutput, before: Diff, after: Diff) {
    function Pid(): ProgramId {
      frame.call.programId
    }
  }

  // ---- One call ----

  function AuthorizedPdas(w: World, caller: Option<ProgramId>, seeds: seq<PdaSeed>): set<AccountId> {
    match caller
    case None => {}
    case Some(program) => set s | s in seeds :: PublicPda(w, program, s)
  }

  predicate IsAuthorized(w: World, f: Frame, id: AccountId) {
    id in AuthorizedPdas(w, f.caller.programId, f.call.pdaSeeds) || id in f.caller.authorizedAccounts
  }

  /** The pre-states a program reports must be the current ones, and authorized only if they really are. */
  function PreStateError(ctx: Context, f: Frame, diff: Diff, pre: AccountWithMetadata): Option<BehaviorError> {
    var expected := View(ctx.ledger, diff, pre.accountId);
    if pre.account != expected then
      Some(InconsistentAccountPreState(pre.accountId, expected, pre.account))
    else if pre.isAuthorized && !IsAuthorized(ctx.w, f, pre.accountId) then
      Some(InvalidAccountAuthorization(pre.accountId))
    else None
  }

  function FirstPreStateError(ctx: Context, f: Frame, diff: Diff, pres: seq<AccountWithMetadata>, i: nat): Option<BehaviorError>
    decreases |pres| - i
  {
    if i >= |pres| then None
    else if PreStateError(ctx, f, diff, pres[i]).Some? then PreStateError(ctx, f, diff, pres[i])
    else FirstPreStateError(ctx, f, diff, pres, i + 1)
  }

  /** A claim needs a default-owned account, and authorization or the program's own seed. */
  function ClaimError(w: World, pid: ProgramId, pre: AccountWithMetadata, post: AccountPostState): Option<BehaviorError> {
    if post.claim.None? then None
    else if post.account.programOwner != DEFAULT_PROGRAM_ID then Some(ClaimedNonDefaultAccount(pre.accountId))
    else
      match post.claim.value
      case Authorized => if pre.isAuthorized then None else Some(ClaimedUnauthorizedAccount(pre.accountId))
      case Pda(seed) =>
        var pda := PublicPda(w, pid, seed);
        if pre.accountId == pda then None else Some(MismatchedPdaClaim(pda, pre.accountId))
  }

  function FirstClaimError(w: World, pid: ProgramId, pres: seq<AccountWithMetadata>, posts: seq<AccountPostState>, i: nat): Option<BehaviorError>
    requires |pres| == |posts|
    decreases |pres| - i
  {
    if i >= |pres| then None
    else if ClaimError(w, pid, pres[i], posts[i]).Some? then ClaimError(w, pid, pres[i], posts[i])
    else FirstClaimError(w, pid, pres, posts, i + 1)
  }

  /** The account a post state stands for once its claim, if any, is granted. */
  function Owned(post: AccountPostState, pid: ProgramId): Account {
    if post.claim.Some? then post.account.(programOwner := pid) else post.account
  }

  /** The overlay after the first `n` accounts of the output are written. */
  function WriteBack(diff: Diff, pid: ProgramId, pres: seq<AccountWithMetadata>, posts: seq<AccountPostState>, n: nat): Diff
    requires n <= |pres| == |posts|
  {
    if n == 0 then diff
    else WriteBack(diff, pid, pres, posts, n - 1)[pres[n - 1].accountId := Owned(posts[n - 1], pid)]
  }

  function Behavior<T>(e: BehaviorError): Result<T, NssaError> {
    Err(InvalidProgramBehavior(e))
  }

  /** The checks made on a program's output. */
  function CheckOutput(ctx: Context, f: Frame, diff: Diff, out: ProgramOutput): (r: Result<Executed, NssaError>)
  {
    var pid := f.call.programId;
    var preError := FirstPreStateError(ctx, f, diff, out.preStates, 0);
    if preError.Some? then Behavior(preError.value)
    else if out.selfProgramId != pid then Behavior(MismatchedProgramId(pid, out.selfProgramId))
    else if out.callerProgramId != f.caller.programId then
      Behavior(MismatchedCallerProgramId(f.caller.programId, out.callerProgramId))
    else
      var verdict := Verdict(out.preStates, out.postStates, pid);
      if verdict.Err? then Behavior(ExecutionValidationFailed(verdict.error))
      else if !(out.blockWindow.IsValidFor(ctx.blockId) && out.timestampWindow.IsValidFor(ctx.timestamp)) then
        Err(OutOfValidityWindow)
      else
        assert |out.preStates| == |out.postStates|;
        var claimError := FirstClaimError(ctx.w, pid, out.preStates, out.postStates, 0);
        if claimError.Some? then Behavior(claimError.value)
        else Ok(Executed(f, out, diff, WriteBack(diff, pid, out.preStates, out.postStates, |out.preStates|)))
  }

  /** One call: look the program up, run it, check what it returned, update the overlay. */
  function ExecCall(ctx: Context, f: Frame, diff: Diff): Result<Executed, NssaError> {
    var pid := f.call.programId;
    if pid !in ctx.ledger.programs then Err(InvalidInput(UnknownProgram))
    else
      match ctx.w.execute(ctx.ledger.programs[pid], f.caller.programId, f.call.preStates, f.call.instructionData)
      case Err(e) => Err(e)
      case Ok(out) => CheckOutput(ctx, f, diff, out)
  }

  /** The accounts a call received marked as authorized; they are what its own callees may use. */
  function ReceivedAuthorized(call: ChainedCall): set<AccountId> {
    set pre | pre in call.preStates && pre.isAuthorized :: pre.accountId
  }

  /** The calls an executed program asked for, in order. */
  function Children(e: Executed): (fs: seq<Frame>)
    ensures |fs| == |e.output.chainedCalls|
  {
    var caller := CallerData(Some(e.Pid()), ReceivedAuthorized(e.frame.call));
    seq(|e.output.chainedCalls|, i requires 0 <= i < |e.output.chainedCalls| => Frame(e.output.chainedCalls[i], caller))
  }

  // ---- The call tree, recursively ----

  function Overlay(log: seq<Executed>): Diff {
    if log == [] then map[] else log[|log| - 1].after
  }

  function Budget(log: seq<Executed>): nat {
    if |log| <= MAX_NUMBER_CHAINED_CALLS then MAX_NUMBER_CHAINED_CALLS + 1 - |log| else 0
  }

  /** Evaluates one call and then everything it called, depth first. */
  function EvalCall(ctx: Context, f: Frame, log: seq<Executed>): (r: Result<seq<Executed>, NssaError>)
    ensures r.Ok? ==> |log| < |r.value|
    decreases Budget(log), 0, 0
  {
    if |log| > MAX_NUMBER_CHAINED_CALLS then Err(MaxChainedCallsDepthExceeded)
    else
      match ExecCall(ctx, f, Overlay(log))
      case Err(e) => Err(e)
      case Ok(e) => EvalCalls(ctx, Children(e), log + [e])
  }

  /** Evaluates sibling calls left to right, each on the overlay its predecessor left. */
  function EvalCalls(ctx: Context, fs: seq<Frame>, log: seq<Executed>): (r: Result<seq<Executed>, NssaError>)
    ensures r.Ok? ==> |log| <= |r.value|
    decreases Budget(log), 1, |fs|
  {
    if fs == [] then Ok(log)
    else
      match EvalCall(ctx, fs[0], log)
      case Err(e) => Err(e)
      case Ok(log') => EvalCalls(ctx, fs[1..], log')
  }

  // ---- The worklist, iteratively ----

  /** The worklist: take the front call, put its children in front of what is left. */
  function Drain(ctx: Context, queue: seq<Frame>, log: seq<Executed>): Result<seq<Executed>, NssaError>
    decreases Budget(log)
  {
    if queue == [] then Ok(log)
    else if |log| > MAX_NUMBER_CHAINED_CALLS then Err(MaxChainedCallsDepthExceeded)
    else
      match ExecCall(ctx, queue[0], Overlay(log))
      case Err(e) => Err(e)
      case Ok(e) => Drain(ctx, Children(e) + queue[1..], log + [e])
  }

  lemma {:induction false} EvalCallsAppend(ctx: Context, a: seq<Frame>, b: seq<Frame>, log: seq<Executed>)
    ensures EvalCalls(ctx, a + b, log)
         == match EvalCalls(ctx, a, log)
            case Err(e) => Err(e)
            case Ok(log') => EvalCalls(ctx, b, log')
    decreases |a|
  {
    if a == [] {
      assert a + b == b;
    } else {
      assert (a + b)[0] == a[0] && (a + b)[1..] == a[1..] + b;
      match EvalCall(ctx, a[0], log)
      case Err(_) =>
      case Ok(log') => EvalCallsAppend(ctx, a[1..], b, log');
    }
  }

  /** For every program behaviour the worklist computes what the recursive pre-order evaluation of the call
      tree computes: the same executed calls in the same order, or the same rejection. */
  lemma {:induction false} WorklistIsPreorder(ctx: Context, queue: seq<Frame>, log: seq<Executed>)
    ensures Drain(ctx, queue, log) == EvalCalls(ctx, queue, log)
    decreases Budget(log)
  {
    if queue != [] && |log| <= MAX_NUMBER_CHAINED_CALLS {
      match ExecCall(ctx, queue[0], Overlay(log))
      case Err(_) =>
      case Ok(e) =>
        WorklistIsPreorder(ctx, Children(e) + queue[1..], log + [e]);
        EvalCallsAppend(ctx, Children(e), queue[1..], log + [e]);
    }
  }

  // ---- The transaction ----

  function SignerIds(w: World, witnesses: seq<(Signature, PublicKey)>): (ids: seq<AccountId>)
    ensures |ids| == |witnesses|
  {
    seq(|witnesses|, i requires 0 <= i < |witnesses| => SignerId(w, witnesses[i].1))
  }

  /** Some witness key derives `id`. */
  ghost predicate Signs(w: World, witnesses: seq<(Signature, PublicKey)>, id: AccountId) {
    exists j :: 0 <= j < |witnesses| && SignerId(w, witnesses[j].1) == id
  }

  lemma {:induction false} SignsIff(w: World, witnesses: seq<(Signature, PublicKey)>, id: AccountId)
    ensures Signs(w, witnesses, id) <==> id in SignerIds(w, witnesses)
  {
    if Signs(w, witnesses, id) {
      var j :| 0 <= j < |witnesses| && SignerId(w, witnesses[j].1) == id;
      assert SignerIds(w, witnesses)[j] == id;
    }
  }

  predicate SignaturesValid(w: World, tx: PublicTransaction) {
    forall i :: 0 <= i < |tx.witnesses| ==> w.publicSignatureValid(tx.witnesses[i].0, tx.message, tx.witnesses[i].1)
  }

  predicate NoncesMatch(ledger: Ledger, signers: seq<AccountId>, nonces: seq<u128>)
    requires |signers| == |nonces|
  {
    forall i :: 0 <= i < |signers| ==> AccountOf(ledger.accounts, signers[i]).nonce == nonces[i]
  }

  function InputPreStates(ledger: Ledger, ids: seq<AccountId>, signers: seq<AccountId>): (pres: seq<AccountWithMetadata>)
    ensures |pres| == |ids|
  {
    seq(|ids|, i requires 0 <= i < |ids| =>
          AccountWithMetadata(AccountOf(ledger.accounts, ids[i]), ids[i] in signers, ids[i]))
  }

  /** The top-level call: it has no caller, and the signers are its authorized accounts. */
  function RootFrame(w: World, ledger: Ledger, tx: PublicTransaction): Frame {
    var signers := SignerIds(w, tx.witnesses);
    var m := tx.message;
    Frame(
      ChainedCall(m.programId, InputPreStates(ledger, m.accountIds, signers), m.instructionData, []),
      CallerData(None, set id | id in signers))
  }

  /** A default-owned account may not be left modified and unclaimed. */
  predicate LeftUnclaimed(ledger: Ledger, diff: Diff, id: AccountId)
    requires id in diff
  {
    var pre := AccountOf(ledger.accounts, id);
    pre.programOwner == DEFAULT_PROGRAM_ID && pre != diff[id] && diff[id].programOwner == DEFAULT_PROGRAM_ID
  }

  /** The checks made before anything is executed. */
  function PublicPrecheck(w: World, ledger: Ledger, tx: PublicTransaction): Option<InputError> {
    if !Distinct(tx.message.accountIds) then Some(DuplicateAccountIds)
    else if |tx.message.nonces| != |tx.witnesses| then Some(NonceCountMismatch)
    else if !SignaturesValid(w, tx) then Some(InvalidSignature)
    else if !NoncesMatch(ledger, SignerIds(w, tx.witnesses), tx.message.nonces) then Some(NonceMismatch)
    else None
  }

  /** The executed calls of an accepted public transaction, or why it is rejected. */
  function ExecutePublic(ctx: Context, tx: PublicTransaction): Result<seq<Executed>, NssaError> {
    if PublicPrecheck(ctx.w, ctx.ledger, tx).Some? then Err(InvalidInput(PublicPrecheck(ctx.w, ctx.ledger, tx).value))
    else
      match EvalCall(ctx, RootFrame(ctx.w, ctx.ledger, tx), [])
      case Err(e) => Err(e)
      case Ok(log) =>
        if exists id :: id in Overlay(log) && LeftUnclaimed(ctx.ledger, Overlay(log), id) then
          Behavior(DefaultAccountModifiedWithoutClaim)
        else Ok(log)
  }

  function PublicDiff(ctx: Context, tx: PublicTransaction): Result<StateDiff, NssaError> {
    match ExecutePublic(ctx, tx)
    case Err(e) => Err(e)
    case Ok(log) => Ok(StateDiff(SignerIds(ctx.w, tx.witnesses), Overlay(log), [], [], None))
  }

  // ---- The loops of the implementation ----

  method CheckNonces(ledger: Ledger, signers: seq<AccountId>, nonces: seq<u128>) returns (ok: bool)
    requires |signers| == |nonces|
    ensures ok == NoncesMatch(ledger, signers, nonces)
  {
    for i := 0 to |signers|
      invariant forall k :: 0 <= k < i ==> AccountOf(ledger.accounts, signers[k]).nonce == nonces[k]
    {
      if AccountOf(ledger.accounts, signers[i]).nonce != nonces[i] {
        return false;
      }
    }
    ok := true;
  }

  method CheckPreStates(ctx: Context, f: Frame, diff: Diff, pres: seq<AccountWithMetadata>)
    returns (r: Option<BehaviorError>)
    ensures r == FirstPreStateError(ctx, f, diff, pres, 0)
  {
    var authorizedPdas := AuthorizedPdas(ctx.w, f.caller.programId, f.call.pdaSeeds);
    for i := 0 to |pres|
      invariant FirstPreStateError(ctx, f, diff, pres, 0) == FirstPreStateError(ctx, f, diff, pres, i)
    {
      var id := pres[i].accountId;
      var expected := if id in diff then diff[id] else AccountOf(ctx.ledger.accounts, id);
      if pres[i].account != expected {
        return Some(InconsistentAccountPreState(id, expected, pres[i].account));
      }
      var indeedAuthorized := id in authorizedPdas || id in f.caller.authorizedAccounts;
      if pres[i].isAuthorized && !indeedAuthorized {
        return Some(InvalidAccountAuthorization(id));
      }
    }
    r := None;
  }

  /** Grants claims in place: a claimed post state gets the executing program as its owner. */
  method GrantClaims(w: World, pid: ProgramId, pres: seq<AccountWithMetadata>, posts: array<AccountPostState>)
    returns (r: Option<BehaviorError>)
    requires |pres| == posts.Length
    modifies posts
    ensures r == old(FirstClaimError(w, pid, pres, posts[..], 0))
    ensures r.None? ==> forall i :: 0 <= i < posts.Length ==> posts[i].account == old(Owned(posts[i], pid))
  {
    ghost var was := posts[..];
    for i := 0 to posts.Length
      invariant FirstClaimError(w, pid, pres, was, 0) == FirstClaimError(w, pid, pres, was, i)
      invariant forall k :: 0 <= k < i ==> posts[k].account == Owned(was[k], pid)
      invariant forall k :: i <= k < posts.Length ==> posts[k] == was[k]
    {
      if posts[i].claim.Some? {
        var pre := pres[i];
        if posts[i].account.programOwner != DEFAULT_PROGRAM_ID {
          return Some(ClaimedNonDefaultAccount(pre.accountId));
        }
        match posts[i].claim.value {
          case Authorized =>
            if !pre.isAuthorized {
              return Some(ClaimedUnauthorizedAccount(pre.accountId));
            }
          case Pda(seed) =>
            var pda := PublicPda(w, pid, seed);
            if pre.accountId != pda {
              return Some(MismatchedPdaClaim(pda, pre.accountId));
            }
        }
        posts[i] := posts[i].(account := posts[i].account.(programOwner := pid));
      }
    }
    r := None;
  }

  /** Grants the claims of an output and writes its accounts to the overlay. */
  method ClaimAndWrite(w: World, pid: ProgramId, pres: seq<AccountWithMetadata>, outputs: seq<AccountPostState>, diff: Diff)
    returns (r: Result<Diff, BehaviorError>)
    requires |pres| == |outputs|
    ensures r == match FirstClaimError(w, pid, pres, outputs, 0)
                 case Some(e) => Err(e)
                 case None => Ok(WriteBack(diff, pid, pres, outputs, |pres|))
  {
    var posts := new AccountPostState[|outputs|](i requires 0 <= i < |outputs| => outputs[i]);
    assert posts[..] == outputs;
    var claimError := GrantClaims(w, pid, pres, posts);
    if claimError.Some? {
      return Err(claimError.value);
    }
    var after := diff;
    for i := 0 to |pres|
      invariant after == WriteBack(diff, pid, pres, outputs, i)
    {
      after := after[pres[i].accountId := posts[i].account];
    }
    r := Ok(after);
  }

  /** One pass of the worklist loop up to the overlay update. */
  method RunCall(ctx: Context, f: Frame, diff: Diff) returns (r: Result<Executed, NssaError>)
    ensures r == ExecCall(ctx, f, diff)
  {
    var pid := f.call.programId;
    if pid !in ctx.ledger.programs {
      return Err(InvalidInput(UnknownProgram));
    }
    var executed := ctx.w.execute(ctx.ledger.programs[pid], f.caller.programId, f.call.preStates, f.call.instructionData);
    if executed.Err? {
      return Err(executed.error);
    }
    var out := executed.value;
    var preError := CheckPreStates(ctx, f, diff, out.preStates);
    if preError.Some? {
      return Behavior(preError.value);
    }
    if out.selfProgramId != pid {
      return Behavior(MismatchedProgramId(pid, out.selfProgramId));
    }
    if out.callerProgramId != f.caller.programId {
      return Behavior(MismatchedCallerProgramId(f.caller.programId, out.callerProgramId));
    }
    var verdict := ValidateExecution(out.preStates, out.postStates, pid);
    if verdict.Err? {
      return Behavior(ExecutionValidationFailed(verdict.error));
    }
    if !(out.blockWindow.IsValidFor(ctx.blockId) && out.timestampWindow.IsValidFor(ctx.timestamp)) {
      return Err(OutOfValidityWindow);
    }
    var written := ClaimAndWrite(ctx.w, pid, out.preStates, out.postStates, diff);
    if written.Err? {
      return Behavior(written.error);
    }
    r := Ok(Executed(f, out, diff, written.value));
  }

  /** Executes a call and everything it leads to. Accepted or not, at most eleven programs are run. */
  method RunWorklist(ctx: Context, root: Frame) returns (r: Result<Diff, NssaError>, ghost executions: nat)
    ensures executions <= 11
    ensures r == match EvalCall(ctx, root, [])
                 case Err(e) => Err(e)
                 case Ok(log) => Ok(Overlay(log))
  {
    WorklistIsPreorder(ctx, [root], []);
    assert EvalCalls(ctx, [root], []) == EvalCall(ctx, root, []);
    var stateDiff: Diff := map[];
    var chainedCalls := [root];
    var counter := 0;
    executions := 0;
    ghost var log: seq<Executed> := [];
    while chainedCalls != []
      invariant executions == counter == |log| <= MAX_NUMBER_CHAINED_CALLS + 1
      invariant stateDiff == Overlay(log)
      invariant EvalCall(ctx, root, []) == Drain(ctx, chainedCalls, log)
      decreases MAX_NUMBER_CHAINED_CALLS + 1 - counter
    {
      var frame := chainedCalls[0];
      chainedCalls := chainedCalls[1..];
      if counter > MAX_NUMBER_CHAINED_CALLS {
        r := Err(MaxChainedCallsDepthExceeded);
        return;
      }
      executions := executions + 1;
      var step := RunCall(ctx, frame, stateDiff);
      if step.Err? {
        r := Err(step.error);
        return;
      }
      stateDiff := step.value.after;
      chainedCalls := PushChildren(Children(step.value), chainedCalls);
      log := log + [step.value];
      counter := counter + 1;
    }
    r := Ok(stateDiff);
  }

  /** Pushes calls to the front of the queue, last one first, so that they come out in order. */
  method PushChildren(children: seq<Frame>, rest: seq<Frame>) returns (queue: seq<Frame>)
    ensures queue == children + rest
  {
    queue := rest;
    for i := |children| downto 0
      invariant queue == children[i..] + rest
    {
      queue := [children[i]] + queue;
    }
  }

  /** Looks for a default-owned account that was modified without being claimed, in whatever order the map yields them. */
  method AnyLeftUnclaimed(ledger: Ledger, diff: Diff) returns (found: bool)
    ensures found <==> exists id :: id in diff && LeftUnclaimed(ledger, diff, id)
  {
    var remaining := diff.Keys;
    while remaining != {}
      invariant remaining <= diff.Keys
      invariant forall id :: id in diff && id !in remaining ==> !LeftUnclaimed(ledger, diff, id)
      decreases remaining
    {
      var id :| id in remaining;
      remaining := remaining - {id};
      if LeftUnclaimed(ledger, diff, id) {
        return true;
      }
    }
    found := false;
  }

  /** Validates and executes a public transaction. The result is that of the recursive evaluation of its call
      tree. */
  method FromPublicTransaction(ctx: Context, tx: PublicTransaction) returns (r: Result<StateDiff, NssaError>)
    ensures r == PublicDiff(ctx, tx)
  {
    var signers := SignerIds(ctx.w, tx.witnesses);
    NUniqueIsDistinct(tx.message.accountIds);
    if NUnique(tx.message.accountIds) != |tx.message.accountIds| {
      return Err(InvalidInput(DuplicateAccountIds));
    }
    if |tx.message.nonces| != |tx.witnesses| {
      return Err(InvalidInput(NonceCountMismatch));
    }
    if !SignaturesValid(ctx.w, tx) {
      return Err(InvalidInput(InvalidSignature));
    }
    var noncesOk := CheckNonces(ctx.ledger, signers, tx.message.nonces);
    if !noncesOk {
      return Err(InvalidInput(NonceMismatch));
    }

    var overlay, _ := RunWorklist(ctx, RootFrame(ctx.w, ctx.ledger, tx));
    if overlay.Err? {
      return Err(overlay.error);
    }
    var unclaimed := AnyLeftUnclaimed(ctx.ledger, overlay.value);
    if unclaimed {
      return Behavior(DefaultAccountModifiedWithoutClaim);
    }
    r := Ok(StateDiff(signers, overlay.value, [], [], None));
  }
}
