/** What every accepted public transaction keeps, for arbitrary programs: facts about one call,
    lifted over the whole call tree. */
module CallTree {
  import opened Types
  import opened Validator
  import opened Identity
  import opened Ledgers
  import opened Executor

  // ---- The executed calls of a transaction ----

  /** Every entry is the accepted execution of its frame on the overlay the earlier entries left. */
  ghost predicate ValidLog(ctx: Context, log: seq<Executed>) {
    forall k :: 0 <= k < |log| ==> ValidEntry(ctx, log, k)
  }

  ghost predicate ValidEntry(ctx: Context, log: seq<Executed>, k: nat)
    requires k < |log|
  {
    ExecCall(ctx, log[k].frame, Overlay(log[..k])) == Ok(log[k])
  }

  /** Every executed call, and every pending one, is the root call or was asked for by an earlier executed call. */
  ghost predicate Spawned(log: seq<Executed>, root: Frame, f: Frame, k: nat)
    requires k <= |log|
  {
    f == root || exists p :: 0 <= p < k && f in Children(log[p])
  }

  ghost predicate WellRooted(log: seq<Executed>, root: Frame) {
    forall k :: 0 <= k < |log| ==> Spawned(log, root, log[k].frame, k)
  }

  lemma {:induction false} ValidExtend(ctx: Context, log: seq<Executed>, e: Executed)
    requires ValidLog(ctx, log) && ExecCall(ctx, e.frame, Overlay(log)) == Ok(e)
    ensures ValidLog(ctx, log + [e])
  {
    forall k | 0 <= k < |log + [e]|
      ensures ValidEntry(ctx, log + [e], k)
    {
      assert (log + [e])[..k] == log[..k];
      if k < |log| {
        assert ValidEntry(ctx, log, k);
      } else {
        assert log[..k] == log;
      }
    }
  }

  lemma {:induction false} ValidPrefix(ctx: Context, log: seq<Executed>, k: nat)
    requires ValidLog(ctx, log) && k <= |log|
    ensures ValidLog(ctx, log[..k])
  {
    forall j | 0 <= j < k
      ensures ValidEntry(ctx, log[..k], j)
    {
      assert log[..k][..j] == log[..j];
      assert ValidEntry(ctx, log, j);
    }
  }

  lemma {:induction false} DrainKeeps(ctx: Context, root: Frame, queue: seq<Frame>, log: seq<Executed>)
    requires ValidLog(ctx, log) && WellRooted(log, root)
    requires |log| <= MAX_NUMBER_CHAINED_CALLS + 1
    requires forall f :: f in queue ==> Spawned(log, root, f, |log|)
    requires Drain(ctx, queue, log).Ok?
    ensures var all := Drain(ctx, queue, log).value;
            ValidLog(ctx, all) && WellRooted(all, root) && |all| <= MAX_NUMBER_CHAINED_CALLS + 1 && log <= all
    decreases Budget(log)
  {
    if queue != [] {
      var e := ExecCall(ctx, queue[0], Overlay(log)).value;
      CallFacts(ctx, queue[0], Overlay(log), e);
      var log' := log + [e];
      var queue' := Children(e) + queue[1..];
      ValidExtend(ctx, log, e);
      assert forall p :: 0 <= p < |log| ==> log'[p] == log[p];
      assert queue[0] in queue;
      assert Spawned(log, root, e.frame, |log|);
      forall k | 0 <= k < |log'|
        ensures Spawned(log', root, log'[k].frame, k)
      {
        assert k < |log| ==> Spawned(log, root, log[k].frame, k);
      }
      forall f | f in queue'
        ensures Spawned(log', root, f, |log'|)
      {
        if f in queue[1..] {
          assert Spawned(log, root, f, |log|);
        } else {
          assert f in Children(log'[|log|]);
        }
      }
      DrainKeeps(ctx, root, queue', log');
    }
  }

  /** The log of an accepted transaction: valid from the first call on, rooted in the transaction's own call,
      between one and eleven entries, and leaving no default-owned account modified but unclaimed. */
  lemma {:induction false} AcceptedLog(ctx: Context, tx: PublicTransaction)
    requires ExecutePublic(ctx, tx).Ok?
    ensures var log := ExecutePublic(ctx, tx).value;
            && ValidLog(ctx, log)
            && WellRooted(log, RootFrame(ctx.w, ctx.ledger, tx))
            && 1 <= |log| <= 11
            && forall id :: id in Overlay(log) ==> !LeftUnclaimed(ctx.ledger, Overlay(log), id)
  {
    var root := RootFrame(ctx.w, ctx.ledger, tx);
    WorklistIsPreorder(ctx, [root], []);
    assert EvalCalls(ctx, [root], []) == EvalCall(ctx, root, []);
    DrainKeeps(ctx, root, [root], []);
  }

  // ---- One call ----

  /** The call may use `id` as authorized: its caller has it under a seed put in the call, or handed it on. */
  ghost predicate Entitled(w: World, f: Frame, id: AccountId) {
    || id in f.caller.authorizedAccounts
    || (f.caller.programId.Some? && exists seed :: seed in f.call.pdaSeeds && id == PublicPda(w, f.caller.programId.value, seed))
  }

  lemma {:induction false} IsAuthorizedIff(w: World, f: Frame, id: AccountId)
    ensures IsAuthorized(w, f, id) <==> Entitled(w, f, id)
  {
  }

  /** A reported pre-state is the current account, and marked as authorized only with a title to it. */
  ghost predicate PreStateRight(ctx: Context, f: Frame, diff: Diff, pre: AccountWithMetadata) {
    && pre.account == (if pre.accountId in diff then diff[pre.accountId] else AccountOf(ctx.ledger.accounts, pre.accountId))
    && (pre.isAuthorized ==> Entitled(ctx.w, f, pre.accountId))
  }

  /** A claim is on a default-owned account that is authorized, or that is the program's own PDA, signed for or not. */
  ghost predicate ClaimRight(w: World, pid: ProgramId, pre: AccountWithMetadata, post: AccountPostState) {
    || post.claim == None
    || (post.account.programOwner == DEFAULT_PROGRAM_ID && post.claim == Some(Authorized) && pre.isAuthorized)
    || (post.account.programOwner == DEFAULT_PROGRAM_ID
        && exists seed :: post.claim == Some(Pda(seed)) && pre.accountId == PublicPda(w, pid, seed))
  }

  /** The pre-state check turns away exactly what is not right, saying how it is wrong. */
  lemma {:induction false} PreStateErrorExact(ctx: Context, f: Frame, diff: Diff, pre: AccountWithMetadata)
    ensures PreStateError(ctx, f, diff, pre).None? <==> PreStateRight(ctx, f, diff, pre)
    ensures forall expected :: PreStateError(ctx, f, diff, pre) == Some(InconsistentAccountPreState(pre.accountId, expected, pre.account))
              <==> expected == View(ctx.ledger, diff, pre.accountId) && expected != pre.account
    ensures PreStateError(ctx, f, diff, pre) == Some(InvalidAccountAuthorization(pre.accountId))
       <==> View(ctx.ledger, diff, pre.accountId) == pre.account && pre.isAuthorized && !Entitled(ctx.w, f, pre.accountId)
  {
    IsAuthorizedIff(ctx.w, f, pre.accountId);
  }

  /** The claim check turns away exactly the claims that are not right, saying how they are wrong. */
  lemma {:induction false} ClaimErrorExact(w: World, pid: ProgramId, pre: AccountWithMetadata, post: AccountPostState)
    ensures ClaimError(w, pid, pre, post).None? <==> ClaimRight(w, pid, pre, post)
    ensures ClaimError(w, pid, pre, post) == Some(ClaimedNonDefaultAccount(pre.accountId))
       <==> post.claim != None && post.account.programOwner != DEFAULT_PROGRAM_ID
    ensures ClaimError(w, pid, pre, post) == Some(ClaimedUnauthorizedAccount(pre.accountId))
       <==> post.claim == Some(Authorized) && post.account.programOwner == DEFAULT_PROGRAM_ID && !pre.isAuthorized
    ensures forall seed :: post.claim == Some(Pda(seed)) && post.account.programOwner == DEFAULT_PROGRAM_ID && pre.accountId != PublicPda(w, pid, seed)
              ==> ClaimError(w, pid, pre, post) == Some(MismatchedPdaClaim(PublicPda(w, pid, seed), pre.accountId))
  {
  }

  lemma {:induction false} NoPreStateError(ctx: Context, f: Frame, diff: Diff, pres: seq<AccountWithMetadata>, i: nat)
    ensures FirstPreStateError(ctx, f, diff, pres, i).None?
       <==> forall k :: i <= k < |pres| ==> PreStateRight(ctx, f, diff, pres[k])
    decreases |pres| - i
  {
    if i < |pres| {
      PreStateErrorExact(ctx, f, diff, pres[i]);
      NoPreStateError(ctx, f, diff, pres, i + 1);
    }
  }

  lemma {:induction false} NoClaimError(w: World, pid: ProgramId, pres: seq<AccountWithMetadata>, posts: seq<AccountPostState>, i: nat)
    requires |pres| == |posts|
    ensures FirstClaimError(w, pid, pres, posts, i).None?
       <==> forall k :: i <= k < |pres| ==> ClaimRight(w, pid, pres[k], posts[k])
    decreases |pres| - i
  {
    if i < |pres| {
      ClaimErrorExact(w, pid, pres[i], posts[i]);
      NoClaimError(w, pid, pres, posts, i + 1);
    }
  }

  /** The pre-state error reported is that of the first pre-state that is not right. */
  lemma {:induction false} FirstPreStateErrorAt(ctx: Context, f: Frame, diff: Diff, pres: seq<AccountWithMetadata>, i: nat) returns (k: nat)
    requires FirstPreStateError(ctx, f, diff, pres, i).Some?
    ensures i <= k < |pres| && !PreStateRight(ctx, f, diff, pres[k]) && forall j :: i <= j < k ==> PreStateRight(ctx, f, diff, pres[j])
    ensures FirstPreStateError(ctx, f, diff, pres, i) == PreStateError(ctx, f, diff, pres[k])
    decreases |pres| - i
  {
    PreStateErrorExact(ctx, f, diff, pres[i]);
    if PreStateError(ctx, f, diff, pres[i]).Some? {
      k := i;
    } else {
      k := FirstPreStateErrorAt(ctx, f, diff, pres, i + 1);
    }
  }

  /** The claim error reported is that of the first claim that is not right. */
  lemma {:induction false} FirstClaimErrorAt(w: World, pid: ProgramId, pres: seq<AccountWithMetadata>, posts: seq<AccountPostState>, i: nat) returns (k: nat)
    requires |pres| == |posts| && FirstClaimError(w, pid, pres, posts, i).Some?
    ensures i <= k < |pres| && !ClaimRight(w, pid, pres[k], posts[k]) && forall j :: i <= j < k ==> ClaimRight(w, pid, pres[j], posts[j])
    ensures FirstClaimError(w, pid, pres, posts, i) == ClaimError(w, pid, pres[k], posts[k])
    decreases |pres| - i
  {
    ClaimErrorExact(w, pid, pres[i], posts[i]);
    if ClaimError(w, pid, pres[i], posts[i]).Some? {
      k := i;
    } else {
      k := FirstClaimErrorAt(w, pid, pres, posts, i + 1);
    }
  }

  /** What acceptance of a call says about its output: the program reports itself, its true caller and the current
      accounts, is within its validity windows, behaves well, and every claim is granted. */
  ghost predicate AcceptedOutput(ctx: Context, e: Executed) {
    var pres, posts := e.output.preStates, e.output.postStates;
    && e.Pid() in ctx.ledger.programs
    && e.output.selfProgramId == e.Pid() && e.output.callerProgramId == e.frame.caller.programId
    && e.output.blockWindow.IsValidFor(ctx.blockId) && e.output.timestampWindow.IsValidFor(ctx.timestamp)
    && WellBehaved(pres, posts, e.Pid())
    && (forall i :: 0 <= i < |pres| ==> PreStateRight(ctx, e.frame, e.before, pres[i]))
    && (forall i :: 0 <= i < |pres| ==> ClaimRight(ctx.w, e.Pid(), pres[i], posts[i]))
    && e.after == WriteBack(e.before, e.Pid(), pres, posts, |pres|)
  }

  lemma {:induction false} CallFacts(ctx: Context, f: Frame, diff: Diff, e: Executed)
    requires ExecCall(ctx, f, diff) == Ok(e)
    ensures e.frame == f && e.before == diff && AcceptedOutput(ctx, e)
    ensures ctx.w.execute(ctx.ledger.programs[e.Pid()], f.caller.programId, f.call.preStates, f.call.instructionData) == Ok(e.output)
  {
    var out := ctx.w.execute(ctx.ledger.programs[f.call.programId], f.caller.programId, f.call.preStates, f.call.instructionData).value;
    VerdictExact(out.preStates, out.postStates, f.call.programId);
    NoPreStateError(ctx, f, diff, out.preStates, 0);
    NoClaimError(ctx.w, f.call.programId, out.preStates, out.postStates, 0);
  }

  /** Conversely, an output that meets all of this is accepted. */
  lemma {:induction false} CallAccepted(ctx: Context, e: Executed)
    requires AcceptedOutput(ctx, e)
    requires ctx.w.execute(ctx.ledger.programs[e.Pid()], e.frame.caller.programId, e.frame.call.preStates, e.frame.call.instructionData)
          == Ok(e.output)
    ensures ExecCall(ctx, e.frame, e.before) == Ok(e)
  {
    var pres, posts := e.output.preStates, e.output.postStates;
    VerdictExact(pres, posts, e.Pid());
    NoPreStateError(ctx, e.frame, e.before, pres, 0);
    NoClaimError(ctx.w, e.Pid(), pres, posts, 0);
  }

  lemma {:induction false} WriteBackAt(diff: Diff, pid: ProgramId, pres: seq<AccountWithMetadata>, posts: seq<AccountPostState>, n: nat)
    requires n <= |pres| == |posts| && Distinct(Ids(pres))
    ensures forall i :: 0 <= i < n ==>
              && pres[i].accountId in WriteBack(diff, pid, pres, posts, n)
              && WriteBack(diff, pid, pres, posts, n)[pres[i].accountId] == Owned(posts[i], pid)
    ensures forall id :: (forall i :: 0 <= i < n ==> pres[i].accountId != id) ==>
              && (id in WriteBack(diff, pid, pres, posts, n) <==> id in diff)
              && (id in diff ==> WriteBack(diff, pid, pres, posts, n)[id] == diff[id])
  {
    if n > 0 {
      WriteBackAt(diff, pid, pres, posts, n - 1);
      assert forall i :: 0 <= i < n - 1 ==> Ids(pres)[i] != Ids(pres)[n - 1];
    }
  }

  /** Account `id` is the `i`-th account the call reported. */
  ghost predicate Touched(e: Executed, i: nat, id: AccountId) {
    i < |e.output.preStates| == |e.output.postStates| && e.output.preStates[i].accountId == id
  }

  /** A call changes exactly the accounts it reports, each from its current value to the granted post state. */
  lemma {:induction false} CallEffect(ctx: Context, e: Executed, id: AccountId)
    requires AcceptedOutput(ctx, e)
    ensures forall i: nat :: Touched(e, i, id) ==>
              && View(ctx.ledger, e.before, id) == e.output.preStates[i].account
              && View(ctx.ledger, e.after, id) == Owned(e.output.postStates[i], e.Pid())
              && id in e.after
    ensures (forall i: nat :: !Touched(e, i, id)) ==>
              View(ctx.ledger, e.after, id) == View(ctx.ledger, e.before, id) && (id in e.after <==> id in e.before)
  {
    var pres, posts := e.output.preStates, e.output.postStates;
    WriteBackAt(e.before, e.Pid(), pres, posts, |pres|);
    if forall i: nat :: !Touched(e, i, id) {
      assert forall i :: 0 <= i < |pres| ==> pres[i].accountId != id by {
        forall i | 0 <= i < |pres|
          ensures pres[i].accountId != id
        {
          assert !Touched(e, i, id);
        }
      }
    }
  }

  /** What is written for a reported account: its post state, with the program of the call as owner if it was claimed. */
  lemma {:induction false} CallWrites(ctx: Context, e: Executed, i: nat)
    requires AcceptedOutput(ctx, e) && i < |e.output.preStates|
    ensures var post, after := e.output.postStates[i], View(ctx.ledger, e.after, e.output.preStates[i].accountId);
            && after.balance == post.account.balance && after.data == post.account.data && after.nonce == post.account.nonce
            && after.programOwner == (if post.claim == None then post.account.programOwner else e.Pid())
  {
    var id := e.output.preStates[i].accountId;
    CallEffect(ctx, e, id);
    assert Touched(e, i, id);
  }

  /** How an account may change in a call of program `pid`. */
  ghost predicate Evolves(pid: ProgramId, a: Account, b: Account) {
    && b.nonce == a.nonce
    && (a.programOwner != DEFAULT_PROGRAM_ID ==> b.programOwner == a.programOwner)
    && (a.programOwner != DEFAULT_PROGRAM_ID && a.programOwner != pid ==> b.data == a.data && b.balance >= a.balance)
    && (a.programOwner == DEFAULT_PROGRAM_ID && a != DEFAULT_ACCOUNT ==> b == a)
  }

  lemma {:induction false} CallEvolves(ctx: Context, e: Executed, id: AccountId)
    requires AcceptedOutput(ctx, e)
    ensures Evolves(e.Pid(), View(ctx.ledger, e.before, id), View(ctx.ledger, e.after, id))
    ensures var a := View(ctx.ledger, e.before, id);
            a.programOwner == DEFAULT_PROGRAM_ID && a != DEFAULT_ACCOUNT ==> forall i: nat :: !Touched(e, i, id)
  {
    CallEffect(ctx, e, id);
    if i: nat :| Touched(e, i, id) {
      assert PairOk(e.output.preStates[i], e.output.postStates[i], e.Pid());
      assert ClaimRight(ctx.w, e.Pid(), e.output.preStates[i], e.output.postStates[i]);
    }
  }

  // ---- The whole tree ----

  lemma {:induction false} LogStep(ctx: Context, log: seq<Executed>)
    requires ValidLog(ctx, log) && log != []
    ensures var n := |log| - 1;
            && ValidLog(ctx, log[..n])
            && log[n].before == Overlay(log[..n])
            && log[n].after == Overlay(log)
            && AcceptedOutput(ctx, log[n])
  {
    var n := |log| - 1;
    ValidPrefix(ctx, log, n);
    assert ValidEntry(ctx, log, n);
    CallFacts(ctx, log[n].frame, Overlay(log[..n]), log[n]);
  }

  lemma {:induction false} LogEvolves(ctx: Context, log: seq<Executed>, id: AccountId)
    requires ValidLog(ctx, log) && log != []
    ensures var n := |log| - 1;
            && ValidLog(ctx, log[..n])
            && Evolves(log[n].Pid(), View(ctx.ledger, Overlay(log[..n]), id), View(ctx.ledger, Overlay(log), id))
  {
    LogStep(ctx, log);
    CallEvolves(ctx, log[|log| - 1], id);
  }

  /** Over a whole call tree: nonces never change, a non-default owner is permanent, and a default-owned account
      that is not the default account is in no output and does not change at all. */
  lemma {:induction false} TreeKeeps(ctx: Context, log: seq<Executed>, id: AccountId)
    requires ValidLog(ctx, log)
    ensures var a, b := AccountOf(ctx.ledger.accounts, id), View(ctx.ledger, Overlay(log), id);
            && b.nonce == a.nonce
            && (a.programOwner != DEFAULT_PROGRAM_ID ==> b.programOwner == a.programOwner)
            && (a.programOwner == DEFAULT_PROGRAM_ID && a != DEFAULT_ACCOUNT ==> b == a && id !in Overlay(log))
  {
    if log != [] {
      var n := |log| - 1;
      LogStep(ctx, log);
      TreeKeeps(ctx, log[..n], id);
      CallEvolves(ctx, log[n], id);
      CallEffect(ctx, log[n], id);
    }
  }

  /** No call of the tree reports an account that is default-owned but not default. */
  lemma {:induction false} NeverTouched(ctx: Context, log: seq<Executed>, id: AccountId, k: nat)
    requires ValidLog(ctx, log) && k < |log|
    requires var a := AccountOf(ctx.ledger.accounts, id); a.programOwner == DEFAULT_PROGRAM_ID && a != DEFAULT_ACCOUNT
    ensures forall i: nat :: !Touched(log[k], i, id)
  {
    ValidPrefix(ctx, log, k);
    TreeKeeps(ctx, log[..k], id);
    assert ValidEntry(ctx, log, k);
    CallFacts(ctx, log[k].frame, Overlay(log[..k]), log[k]);
    CallEvolves(ctx, log[k], id);
  }

  lemma {:induction false} TreeNonInterference(ctx: Context, log: seq<Executed>, id: AccountId)
    requires ValidLog(ctx, log)
    requires AccountOf(ctx.ledger.accounts, id).programOwner != DEFAULT_PROGRAM_ID
    requires forall k :: 0 <= k < |log| ==> log[k].Pid() != AccountOf(ctx.ledger.accounts, id).programOwner
    ensures var a, b := AccountOf(ctx.ledger.accounts, id), View(ctx.ledger, Overlay(log), id);
            b.programOwner == a.programOwner && b.data == a.data && b.balance >= a.balance
  {
    if log != [] {
      var n := |log| - 1;
      LogEvolves(ctx, log, id);
      TreeNonInterference(ctx, log[..n], id);
    }
  }

  /** Non-interference: an account whose (non-default) owner is not among the programs a transaction executes keeps its
      owner and its data, and its balance does not decrease, whatever those programs do. */
  lemma {:induction false} NonInterference(ctx: Context, tx: PublicTransaction, id: AccountId)
    requires ExecutePublic(ctx, tx).Ok?
    requires AccountOf(ctx.ledger.accounts, id).programOwner != DEFAULT_PROGRAM_ID
    requires var log := ExecutePublic(ctx, tx).value;
             forall k :: 0 <= k < |log| ==> log[k].Pid() != AccountOf(ctx.ledger.accounts, id).programOwner
    ensures var a, b := AccountOf(ctx.ledger.accounts, id), View(ctx.ledger, Overlay(ExecutePublic(ctx, tx).value), id);
            b.programOwner == a.programOwner && b.data == a.data && b.balance >= a.balance
  {
    AcceptedLog(ctx, tx);
    TreeNonInterference(ctx, ExecutePublic(ctx, tx).value, id);
  }

  // ---- Claims ----

  /** The first call after which `id` is no longer the default account. */
  function FirstChange(ledger: Ledger, log: seq<Executed>, id: AccountId): (k: nat)
    ensures k <= |log|
    ensures k < |log| ==> View(ledger, log[k].after, id) != DEFAULT_ACCOUNT
    ensures forall j :: 0 <= j < k ==> View(ledger, log[j].after, id) == DEFAULT_ACCOUNT
  {
    if log == [] then 0
    else
      var k := FirstChange(ledger, log[..|log| - 1], id);
      assert forall j :: 0 <= j < |log| - 1 ==> log[..|log| - 1][j] == log[j];
      if k < |log| - 1 then k
      else if View(ledger, log[|log| - 1].after, id) != DEFAULT_ACCOUNT then |log| - 1
      else |log|
  }

  /** The call claimed `id`: as an account authorized in its pre-state, or as its own PDA. */
  ghost predicate Claims(w: World, e: Executed, id: AccountId) {
    exists i: nat :: Touched(e, i, id) && (
      match e.output.postStates[i].claim
      case None => false
      case Some(Authorized) => e.output.preStates[i].isAuthorized
      case Some(Pda(seed)) => id == PublicPda(w, e.Pid(), seed))
  }

  /** Once default-owned but no longer default, an account stays as it is to the end of the tree. */
  lemma {:induction false} StuckUnclaimed(ctx: Context, log: seq<Executed>, id: AccountId, k: nat)
    requires ValidLog(ctx, log) && k < |log|
    requires View(ctx.ledger, log[k].after, id) != DEFAULT_ACCOUNT
    requires View(ctx.ledger, log[k].after, id).programOwner == DEFAULT_PROGRAM_ID
    ensures View(ctx.ledger, Overlay(log), id) == View(ctx.ledger, log[k].after, id)
  {
    var n := |log| - 1;
    if k < n {
      LogEvolves(ctx, log, id);
      StuckUnclaimed(ctx, log[..n], id, k);
    }
  }

  /** A non-default owner set by call `k` is the owner at the end of the tree. */
  lemma {:induction false} OwnerFixed(ctx: Context, log: seq<Executed>, id: AccountId, k: nat)
    requires ValidLog(ctx, log) && k < |log|
    requires View(ctx.ledger, log[k].after, id).programOwner != DEFAULT_PROGRAM_ID
    ensures View(ctx.ledger, Overlay(log), id).programOwner == View(ctx.ledger, log[k].after, id).programOwner
  {
    var n := |log| - 1;
    if k < n {
      LogEvolves(ctx, log, id);
      OwnerFixed(ctx, log[..n], id, k);
    }
  }

  /** A call that changes the default account either claims it for its program or leaves it default-owned. */
  lemma {:induction false} ChangeOfDefault(ctx: Context, e: Executed, id: AccountId)
    requires AcceptedOutput(ctx, e)
    requires View(ctx.ledger, e.before, id) == DEFAULT_ACCOUNT != View(ctx.ledger, e.after, id)
    ensures id in e.after
    ensures if Claims(ctx.w, e, id) then View(ctx.ledger, e.after, id).programOwner == e.Pid()
            else View(ctx.ledger, e.after, id).programOwner == DEFAULT_PROGRAM_ID
  {
    CallEffect(ctx, e, id);
    var i: nat :| Touched(e, i, id);
    assert PairOk(e.output.preStates[i], e.output.postStates[i], e.Pid());
    assert ClaimRight(ctx.w, e.Pid(), e.output.preStates[i], e.output.postStates[i]);
    assert forall j: nat :: Touched(e, j, id) ==> j == i by {
      assert Distinct(Ids(e.output.preStates));
    }
  }

  /** A claim makes the program of the call the owner. */
  lemma {:induction false} ClaimSetsOwner(ctx: Context, e: Executed, id: AccountId)
    requires AcceptedOutput(ctx, e) && Claims(ctx.w, e, id)
    ensures View(ctx.ledger, e.after, id).programOwner == e.Pid()
  {
    CallEffect(ctx, e, id);
  }

  /** A default-owned account is default-owned after an accepted transaction exactly when no call of a program with
      another id claimed it. */
  lemma {:induction false} StaysDefaultOwnedIff(ctx: Context, tx: PublicTransaction, id: AccountId)
    requires ExecutePublic(ctx, tx).Ok?
    ensures var log := ExecutePublic(ctx, tx).value;
            View(ctx.ledger, Overlay(log), id).programOwner == DEFAULT_PROGRAM_ID
            <==> && AccountOf(ctx.ledger.accounts, id).programOwner == DEFAULT_PROGRAM_ID
                 && forall k :: 0 <= k < |log| && Claims(ctx.w, log[k], id) ==> log[k].Pid() == DEFAULT_PROGRAM_ID
  {
    var log := ExecutePublic(ctx, tx).value;
    AcceptedLog(ctx, tx);
    TreeKeeps(ctx, log, id);
    if View(ctx.ledger, Overlay(log), id).programOwner == DEFAULT_PROGRAM_ID {
      forall k | 0 <= k < |log| && Claims(ctx.w, log[k], id)
        ensures log[k].Pid() == DEFAULT_PROGRAM_ID
      {
        if log[k].Pid() != DEFAULT_PROGRAM_ID {
          ClaimIsFinal(ctx, log, id, k);
        }
      }
    } else if AccountOf(ctx.ledger.accounts, id).programOwner == DEFAULT_PROGRAM_ID {
      ClaimedAtFirstChange(ctx, tx, id);
      var k := FirstChange(ctx.ledger, log, id);
      assert 0 <= k < |log| && Claims(ctx.w, log[k], id);
    }
  }

  lemma {:induction false} ClaimIsFinal(ctx: Context, log: seq<Executed>, id: AccountId, k: nat)
    requires ValidLog(ctx, log) && k < |log| && Claims(ctx.w, log[k], id) && log[k].Pid() != DEFAULT_PROGRAM_ID
    ensures View(ctx.ledger, Overlay(log), id).programOwner == log[k].Pid()
  {
    assert ValidEntry(ctx, log, k);
    CallFacts(ctx, log[k].frame, Overlay(log[..k]), log[k]);
    ClaimSetsOwner(ctx, log[k], id);
    OwnerFixed(ctx, log, id, k);
  }

  lemma {:induction false} FirstChangeEntry(ctx: Context, log: seq<Executed>, id: AccountId)
    requires ValidLog(ctx, log)
    requires AccountOf(ctx.ledger.accounts, id) == DEFAULT_ACCOUNT != View(ctx.ledger, Overlay(log), id)
    ensures var k := FirstChange(ctx.ledger, log, id);
            && k < |log|
            && View(ctx.ledger, log[k].before, id) == DEFAULT_ACCOUNT
            && AcceptedOutput(ctx, log[k])
  {
    var k := FirstChange(ctx.ledger, log, id);
    assert k < |log|;
    assert ValidEntry(ctx, log, k);
    CallFacts(ctx, log[k].frame, Overlay(log[..k]), log[k]);
    if k > 0 {
      assert log[..k][k - 1] == log[k - 1];
    }
  }

  /** Claimed at first change: a default-owned account that an accepted transaction changes was the default account,
      the very call that first changed it claimed it, and the program of that call is its owner in the diff. */
  lemma {:induction false} ClaimedAtFirstChange(ctx: Context, tx: PublicTransaction, id: AccountId)
    requires ExecutePublic(ctx, tx).Ok?
    requires AccountOf(ctx.ledger.accounts, id).programOwner == DEFAULT_PROGRAM_ID
    requires View(ctx.ledger, Overlay(ExecutePublic(ctx, tx).value), id) != AccountOf(ctx.ledger.accounts, id)
    ensures var log := ExecutePublic(ctx, tx).value;
            var k := FirstChange(ctx.ledger, log, id);
            && AccountOf(ctx.ledger.accounts, id) == DEFAULT_ACCOUNT
            && k < |log|
            && View(ctx.ledger, log[k].before, id) == DEFAULT_ACCOUNT
            && Claims(ctx.w, log[k], id)
            && View(ctx.ledger, Overlay(log), id).programOwner == log[k].Pid()
  {
    var log := ExecutePublic(ctx, tx).value;
    AcceptedLog(ctx, tx);
    ClaimedAtFirstChangeInLog(ctx, log, id);
  }

  lemma {:induction false} ClaimedAtFirstChangeInLog(ctx: Context, log: seq<Executed>, id: AccountId)
    requires ValidLog(ctx, log)
    requires forall a :: a in Overlay(log) ==> !LeftUnclaimed(ctx.ledger, Overlay(log), a)
    requires AccountOf(ctx.ledger.accounts, id).programOwner == DEFAULT_PROGRAM_ID
    requires View(ctx.ledger, Overlay(log), id) != AccountOf(ctx.ledger.accounts, id)
    ensures var k := FirstChange(ctx.ledger, log, id);
            && AccountOf(ctx.ledger.accounts, id) == DEFAULT_ACCOUNT
            && k < |log|
            && View(ctx.ledger, log[k].before, id) == DEFAULT_ACCOUNT
            && Claims(ctx.w, log[k], id)
            && View(ctx.ledger, Overlay(log), id).programOwner == log[k].Pid()
  {
    TreeKeeps(ctx, log, id);
    FirstChangeEntry(ctx, log, id);
    var k := FirstChange(ctx.ledger, log, id);
    ChangeOfDefault(ctx, log[k], id);
    if View(ctx.ledger, log[k].after, id).programOwner == DEFAULT_PROGRAM_ID {
      StuckUnclaimed(ctx, log, id, k);
      assert false;
    }
    OwnerFixed(ctx, log, id, k);
  }

  // ---- Conservation ----

  /** The sum of all balances. */
  ghost function Total(accounts: map<AccountId, Account>): nat
    decreases |accounts|
  {
    if accounts == map[] then 0
    else
      var id :| id in accounts;
      accounts[id].balance + Total(accounts - {id})
  }

  lemma {:induction false} TotalRemove(accounts: map<AccountId, Account>, id: AccountId)
    requires id in accounts
    ensures Total(accounts) == accounts[id].balance + Total(accounts - {id})
    decreases |accounts|
  {
    var k :| k in accounts && Total(accounts) == accounts[k].balance + Total(accounts - {k});
    if k != id {
      TotalRemove(accounts - {k}, id);
      assert accounts - {k} - {id} == accounts - {id} - {k};
      TotalRemove(accounts - {id}, k);
    }
  }

  lemma {:induction false} TotalUpdate(accounts: map<AccountId, Account>, id: AccountId, account: Account)
    ensures Total(accounts[id := account]) == Total(accounts) - AccountOf(accounts, id).balance + account.balance
  {
    TotalRemove(accounts[id := account], id);
    assert accounts[id := account] - {id} == accounts - {id};
    if id in accounts {
      TotalRemove(accounts, id);
    } else {
      assert accounts - {id} == accounts;
    }
  }

  /** The pre-states are the current accounts of `accounts` as overlaid by `diff`. */
  ghost predicate Current(accounts: map<AccountId, Account>, diff: Diff, pres: seq<AccountWithMetadata>) {
    forall i :: 0 <= i < |pres| ==> AccountOf(accounts + diff, pres[i].accountId) == pres[i].account
  }

  /** Until it is written, an account of the output still has the value the program reported. */
  lemma {:induction false} NotYetWritten(accounts: map<AccountId, Account>, diff: Diff, pid: ProgramId,
                                         pres: seq<AccountWithMetadata>, posts: seq<AccountPostState>, n: nat)
    requires n < |pres| == |posts| && Distinct(Ids(pres)) && Current(accounts, diff, pres)
    ensures AccountOf(accounts + WriteBack(diff, pid, pres, posts, n), pres[n].accountId) == pres[n].account
  {
    WriteBackAt(diff, pid, pres, posts, n);
    assert forall i :: 0 <= i < n ==> Ids(pres)[i] != Ids(pres)[n];
  }

  lemma {:induction false} OverlayTotal(accounts: map<AccountId, Account>, diff: Diff, id: AccountId, account: Account)
    ensures Total(accounts + diff[id := account])
         == Total(accounts + diff) - AccountOf(accounts + diff, id).balance + account.balance
  {
    assert accounts + diff[id := account] == (accounts + diff)[id := account];
    TotalUpdate(accounts + diff, id, account);
  }

  lemma {:induction false} WriteOneTotal(accounts: map<AccountId, Account>, diff: Diff, pid: ProgramId,
                                         pres: seq<AccountWithMetadata>, posts: seq<AccountPostState>, n: nat)
    requires n < |pres| == |posts| && Distinct(Ids(pres)) && Current(accounts, diff, pres)
    ensures Total(accounts + WriteBack(diff, pid, pres, posts, n + 1))
         == Total(accounts + WriteBack(diff, pid, pres, posts, n)) - pres[n].account.balance + posts[n].account.balance
  {
    NotYetWritten(accounts, diff, pid, pres, posts, n);
    OverlayTotal(accounts, WriteBack(diff, pid, pres, posts, n), pres[n].accountId, Owned(posts[n], pid));
  }

  lemma {:induction false} WriteBackTotal(accounts: map<AccountId, Account>, diff: Diff, pid: ProgramId,
                                          pres: seq<AccountWithMetadata>, posts: seq<AccountPostState>, n: nat)
    requires n <= |pres| == |posts| && Distinct(Ids(pres)) && Current(accounts, diff, pres)
    ensures Total(accounts + WriteBack(diff, pid, pres, posts, n))
         == Total(accounts + diff) - Sum(PreBalances(pres)[..n]) + Sum(PostBalances(posts)[..n])
  {
    if n > 0 {
      WriteBackTotal(accounts, diff, pid, pres, posts, n - 1);
      WriteOneTotal(accounts, diff, pid, pres, posts, n - 1);
      SumPrefix(PreBalances(pres), n - 1);
      SumPrefix(PostBalances(posts), n - 1);
    }
  }

  lemma {:induction false} CallConserves(ctx: Context, e: Executed)
    requires AcceptedOutput(ctx, e)
    ensures Total(ctx.ledger.accounts + e.after) == Total(ctx.ledger.accounts + e.before)
  {
    var pres, posts := e.output.preStates, e.output.postStates;
    assert Current(ctx.ledger.accounts, e.before, pres) by {
      forall i | 0 <= i < |pres|
        ensures AccountOf(ctx.ledger.accounts + e.before, pres[i].accountId) == pres[i].account
      {
        assert PreStateRight(ctx, e.frame, e.before, pres[i]);
      }
    }
    WriteBackTotal(ctx.ledger.accounts, e.before, e.Pid(), pres, posts, |pres|);
    assert PreBalances(pres)[..|pres|] == PreBalances(pres);
    assert PostBalances(posts)[..|pres|] == PostBalances(posts);
  }

  /** Conservation over a call tree: the accounts as overlaid hold the same total as the stored accounts. */
  lemma {:induction false} TreeConserves(ctx: Context, log: seq<Executed>)
    requires ValidLog(ctx, log)
    ensures Total(ctx.ledger.accounts + Overlay(log)) == Total(ctx.ledger.accounts)
  {
    if log == [] {
      assert ctx.ledger.accounts + map[] == ctx.ledger.accounts;
    } else {
      var n := |log| - 1;
      LogStep(ctx, log);
      TreeConserves(ctx, log[..n]);
      CallConserves(ctx, log[n]);
    }
  }

  // ---- Authorization ----

  /** A chain of executed calls from the root, each asked for by the one before it. */
  ghost predicate IsPath(log: seq<Executed>, root: Frame, path: seq<nat>) {
    && path != []
    && (forall m :: 0 <= m < |path| ==> path[m] < |log|)
    && log[path[0]].frame == root
    && (forall m :: 0 < m < |path| ==> path[m - 1] < path[m] && log[path[m]].frame in Children(log[path[m - 1]]))
  }

  /** Every executed call is reached by such a chain. */
  lemma {:induction false} PathExists(log: seq<Executed>, root: Frame, k: nat) returns (path: seq<nat>)
    requires WellRooted(log, root) && k < |log|
    ensures IsPath(log, root, path) && path[|path| - 1] == k
  {
    assert Spawned(log, root, log[k].frame, k);
    if log[k].frame == root {
      path := [k];
    } else {
      var p :| 0 <= p < k && log[k].frame in Children(log[p]);
      var prefix := PathExists(log, root, p);
      path := prefix + [k];
    }
  }

  /** The accounts a program reports as authorized. */
  function Reported(e: Executed): set<AccountId> {
    set pre | pre in e.output.preStates && pre.isAuthorized :: pre.accountId
  }

  /** `id` is a PDA of a program on the path, under a seed that program put into the next call of the path. */
  ghost predicate FromAncestorPda(w: World, log: seq<Executed>, path: seq<nat>, id: AccountId)
    requires forall m :: 0 <= m < |path| ==> path[m] < |log|
  {
    exists m, seed :: 0 < m < |path| && seed in log[path[m]].frame.call.pdaSeeds
                      && id == PublicPda(w, log[path[m - 1]].Pid(), seed)
  }

  /** The call was given `id` as authorized although its caller had no authority over it. */
  predicate Forged(w: World, e: Executed, id: AccountId) {
    id in ReceivedAuthorized(e.frame.call) && !IsAuthorized(w, e.frame, id)
  }

  ghost predicate ForgedBefore(w: World, log: seq<Executed>, path: seq<nat>, id: AccountId)
    requires forall m :: 0 <= m < |path| ==> path[m] < |log|
  {
    exists m :: 0 <= m < |path| - 1 && Forged(w, log[path[m]], id)
  }

  /** Authority as it should be: a signer's at the root, and from there on granted by the caller as its PDA or handed on
      by a caller that rightfully had it and was given it. */
  ghost predicate Rightful(w: World, tx: PublicTransaction, log: seq<Executed>, path: seq<nat>, id: AccountId)
    requires forall m :: 0 <= m < |path| ==> path[m] < |log|
    decreases |path|
  {
    var n := |path| - 1;
    if n < 0 then false
    else if n == 0 then id in SignerIds(w, tx.witnesses)
    else
      || id in AuthorizedPdas(w, Some(log[path[n - 1]].Pid()), log[path[n]].frame.call.pdaSeeds)
      || (id in ReceivedAuthorized(log[path[n - 1]].frame.call) && Rightful(w, tx, log, path[..n], id))
  }

  lemma {:induction false} AuthorizedInCall(ctx: Context, log: seq<Executed>, k: nat, id: AccountId)
    requires ValidLog(ctx, log) && k < |log| && id in Reported(log[k])
    ensures IsAuthorized(ctx.w, log[k].frame, id)
  {
    assert ValidEntry(ctx, log, k);
    CallFacts(ctx, log[k].frame, Overlay(log[..k]), log[k]);
    var pre :| pre in log[k].output.preStates && pre.isAuthorized && pre.accountId == id;
    var i :| 0 <= i < |log[k].output.preStates| && log[k].output.preStates[i] == pre;
    assert PreStateRight(ctx, log[k].frame, log[k].before, log[k].output.preStates[i]);
    IsAuthorizedIff(ctx.w, log[k].frame, id);
  }

  /** What a called program may use: the PDAs its caller granted it and what its caller was given as authorized. */
  lemma {:induction false} ChildAuthority(w: World, parent: Executed, f: Frame, id: AccountId)
    requires f in Children(parent)
    ensures IsAuthorized(w, f, id)
       <==> id in AuthorizedPdas(w, Some(parent.Pid()), f.call.pdaSeeds) || id in ReceivedAuthorized(parent.frame.call)
  {
    assert f.caller == CallerData(Some(parent.Pid()), ReceivedAuthorized(parent.frame.call));
  }

  /** A path without its last call is a path. */
  lemma {:induction false} PathPrefix(log: seq<Executed>, root: Frame, path: seq<nat>)
    requires IsPath(log, root, path) && |path| > 1
    ensures IsPath(log, root, path[..|path| - 1])
  {
    var prefix := path[..|path| - 1];
    assert forall m :: 0 <= m < |prefix| ==> prefix[m] == path[m];
  }

  lemma {:induction false} PathExtends(log: seq<Executed>, root: Frame, path: seq<nat>, c: nat)
    requires IsPath(log, root, path) && path[|path| - 1] < c < |log| && log[c].frame in Children(log[path[|path| - 1]])
    ensures IsPath(log, root, path + [c])
  {
  }

  /** Rightful authority is recognized, and comes from a signer or from an ancestor's grant on the path. */
  lemma {:induction false} RightfulSource(ctx: Context, tx: PublicTransaction, log: seq<Executed>, path: seq<nat>, id: AccountId)
    requires IsPath(log, RootFrame(ctx.w, ctx.ledger, tx), path) && Rightful(ctx.w, tx, log, path, id)
    ensures IsAuthorized(ctx.w, log[path[|path| - 1]].frame, id)
    ensures id in SignerIds(ctx.w, tx.witnesses) || FromAncestorPda(ctx.w, log, path, id)
    decreases |path|
  {
    var n := |path| - 1;
    if n > 0 {
      var f, parent := log[path[n]].frame, log[path[n - 1]];
      ChildAuthority(ctx.w, parent, f, id);
      if id in AuthorizedPdas(ctx.w, Some(parent.Pid()), f.call.pdaSeeds) {
        var seed :| seed in f.call.pdaSeeds && id == PublicPda(ctx.w, parent.Pid(), seed);
        assert 0 < n < |path| && seed in log[path[n]].frame.call.pdaSeeds;
      } else {
        PathPrefix(log, RootFrame(ctx.w, ctx.ledger, tx), path);
        RightfulSource(ctx, tx, log, path[..n], id);
        LongerPath(ctx.w, log, path, id);
      }
    }
  }

  lemma {:induction false} LongerPath(w: World, log: seq<Executed>, path: seq<nat>, id: AccountId)
    requires path != [] && forall m :: 0 <= m < |path| ==> path[m] < |log|
    ensures FromAncestorPda(w, log, path[..|path| - 1], id) ==> FromAncestorPda(w, log, path, id)
    ensures ForgedBefore(w, log, path[..|path| - 1], id) ==> ForgedBefore(w, log, path, id)
  {
    var prefix := path[..|path| - 1];
    assert forall m :: 0 <= m < |prefix| ==> prefix[m] == path[m];
    if FromAncestorPda(w, log, prefix, id) {
      var m, seed :| 0 < m < |prefix| && seed in log[prefix[m]].frame.call.pdaSeeds
                     && id == PublicPda(w, log[prefix[m - 1]].Pid(), seed);
      assert 0 < m < |path| && seed in log[path[m]].frame.call.pdaSeeds && path[m - 1] == prefix[m - 1];
    }
    if ForgedBefore(w, log, prefix, id) {
      var m :| 0 <= m < |prefix| - 1 && Forged(w, log[prefix[m]], id);
      assert Forged(w, log[path[m]], id);
    }
  }

  /** Provenance of authorization, along every path and for every program behaviour: an account a call may use as
      authorized is rightfully so, hence a signer's or a PDA an ancestor granted on the path, unless an ancestor's caller
      forged it. */
  lemma {:induction false} Provenance(ctx: Context, tx: PublicTransaction, log: seq<Executed>, path: seq<nat>, id: AccountId)
    requires IsPath(log, RootFrame(ctx.w, ctx.ledger, tx), path)
    requires IsAuthorized(ctx.w, log[path[|path| - 1]].frame, id)
    ensures Rightful(ctx.w, tx, log, path, id) || ForgedBefore(ctx.w, log, path, id)
    ensures id in SignerIds(ctx.w, tx.witnesses) || FromAncestorPda(ctx.w, log, path, id) || ForgedBefore(ctx.w, log, path, id)
    decreases |path|
  {
    var n := |path| - 1;
    if n > 0 {
      var f, parent := log[path[n]].frame, log[path[n - 1]];
      ChildAuthority(ctx.w, parent, f, id);
      if id !in AuthorizedPdas(ctx.w, Some(parent.Pid()), f.call.pdaSeeds) {
        if IsAuthorized(ctx.w, parent.frame, id) {
          PathPrefix(log, RootFrame(ctx.w, ctx.ledger, tx), path);
          assert path[..n][n - 1] == path[n - 1];
          Provenance(ctx, tx, log, path[..n], id);
          LongerPath(ctx.w, log, path, id);
        } else {
          assert Forged(ctx.w, log[path[n - 1]], id);
        }
      }
    }
    if Rightful(ctx.w, tx, log, path, id) {
      RightfulSource(ctx, tx, log, path, id);
    }
  }

  /** A forged account becomes authorized for everything the call goes on to call. */
  lemma {:induction false} ForgedSpreads(w: World, e: Executed, f: Frame, id: AccountId)
    requires Forged(w, e, id) && f in Children(e)
    ensures IsAuthorized(w, f, id)
  {
    ChildAuthority(w, e, f, id);
  }

  /** Nothing a call was given without right is handed on: a callee has such an account only if granted as a PDA. */
  ghost predicate NothingForged(w: World, log: seq<Executed>) {
    forall p, c, id :: 0 <= p < c < |log| && log[c].frame in Children(log[p]) && Forged(w, log[p], id) ==>
      id in AuthorizedPdas(w, Some(log[p].Pid()), log[c].frame.call.pdaSeeds)
  }

  /** Every account usable as authorized anywhere in the call tree is rightfully so. */
  ghost predicate AllRightful(w: World, tx: PublicTransaction, log: seq<Executed>, root: Frame) {
    forall path, id :: IsPath(log, root, path) && IsAuthorized(w, log[path[|path| - 1]].frame, id) ==> Rightful(w, tx, log, path, id)
  }

  lemma {:induction false} UnforgedIsRightful(ctx: Context, tx: PublicTransaction, log: seq<Executed>, path: seq<nat>, id: AccountId)
    requires IsPath(log, RootFrame(ctx.w, ctx.ledger, tx), path) && NothingForged(ctx.w, log)
    requires IsAuthorized(ctx.w, log[path[|path| - 1]].frame, id)
    ensures Rightful(ctx.w, tx, log, path, id)
    decreases |path|
  {
    var n := |path| - 1;
    if n > 0 {
      var f, parent := log[path[n]].frame, log[path[n - 1]];
      ChildAuthority(ctx.w, parent, f, id);
      if id !in AuthorizedPdas(ctx.w, Some(parent.Pid()), f.call.pdaSeeds) {
        assert !Forged(ctx.w, log[path[n - 1]], id);
        PathPrefix(log, RootFrame(ctx.w, ctx.ledger, tx), path);
        assert path[..n][n - 1] == path[n - 1];
        UnforgedIsRightful(ctx, tx, log, path[..n], id);
      }
    }
  }

  lemma {:induction false} ForgedNeedsGrant(ctx: Context, tx: PublicTransaction, log: seq<Executed>, p: nat, c: nat, id: AccountId)
    requires var root := RootFrame(ctx.w, ctx.ledger, tx); WellRooted(log, root) && AllRightful(ctx.w, tx, log, root)
    requires p < c < |log| && log[c].frame in Children(log[p]) && Forged(ctx.w, log[p], id)
    ensures id in AuthorizedPdas(ctx.w, Some(log[p].Pid()), log[c].frame.call.pdaSeeds)
  {
    var root := RootFrame(ctx.w, ctx.ledger, tx);
    var prefix := PathExists(log, root, p);
    PathExtends(log, root, prefix, c);
    var path := prefix + [c];
    assert path[..|path| - 1] == prefix;
    ForgedSpreads(ctx.w, log[p], log[c].frame, id);
    assert IsAuthorized(ctx.w, log[path[|path| - 1]].frame, id);
    assert Rightful(ctx.w, tx, log, path, id);
    if Rightful(ctx.w, tx, log, prefix, id) {
      RightfulSource(ctx, tx, log, prefix, id);
    }
  }

  /** In an accepted transaction authority is rightful throughout the call tree exactly when no call hands on an account
      it was given as authorized without its caller having authority over it. */
  lemma {:induction false} RightfulIffNothingForged(ctx: Context, tx: PublicTransaction)
    requires ExecutePublic(ctx, tx).Ok?
    ensures var log := ExecutePublic(ctx, tx).value;
            AllRightful(ctx.w, tx, log, RootFrame(ctx.w, ctx.ledger, tx)) <==> NothingForged(ctx.w, log)
  {
    var w, root, log := ctx.w, RootFrame(ctx.w, ctx.ledger, tx), ExecutePublic(ctx, tx).value;
    AcceptedLog(ctx, tx);
    if NothingForged(w, log) {
      forall path, id | IsPath(log, root, path) && IsAuthorized(w, log[path[|path| - 1]].frame, id)
        ensures Rightful(w, tx, log, path, id)
      {
        UnforgedIsRightful(ctx, tx, log, path, id);
      }
    }
    if AllRightful(w, tx, log, root) {
      forall p, c, id | 0 <= p < c < |log| && log[c].frame in Children(log[p]) && Forged(w, log[p], id)
        ensures id in AuthorizedPdas(w, Some(log[p].Pid()), log[c].frame.call.pdaSeeds)
      {
        ForgedNeedsGrant(ctx, tx, log, p, c, id);
      }
    }
  }

  /** When no ancestor was given a forged account, every account an executed call reports as authorized is a signer's or a
      PDA of a proper ancestor under a seed that ancestor put in a call on the path. */
  lemma {:induction false} AuthorizationProvenance(ctx: Context, tx: PublicTransaction, path: seq<nat>, id: AccountId)
    requires ExecutePublic(ctx, tx).Ok? && IsPath(ExecutePublic(ctx, tx).value, RootFrame(ctx.w, ctx.ledger, tx), path)
    requires !ForgedBefore(ctx.w, ExecutePublic(ctx, tx).value, path, id)
    requires id in Reported(ExecutePublic(ctx, tx).value[path[|path| - 1]])
    ensures id in SignerIds(ctx.w, tx.witnesses) || FromAncestorPda(ctx.w, ExecutePublic(ctx, tx).value, path, id)
  {
    var log := ExecutePublic(ctx, tx).value;
    AcceptedLog(ctx, tx);
    AuthorizedInCall(ctx, log, path[|path| - 1], id);
    Provenance(ctx, tx, log, path, id);
  }

  /** An accepted call that echoes the pre-states it was given was given nothing forged. */
  lemma {:induction false} EchoIsNotForged(ctx: Context, log: seq<Executed>, k: nat, id: AccountId)
    requires ValidLog(ctx, log) && k < |log| && log[k].output.preStates == log[k].frame.call.preStates
    ensures !Forged(ctx.w, log[k], id)
  {
    if id in ReceivedAuthorized(log[k].frame.call) {
      assert id in Reported(log[k]);
      AuthorizedInCall(ctx, log, k, id);
    }
  }
}
