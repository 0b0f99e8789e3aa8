/** Who can lower the balance of the faucet account, which the transfer program owns. */
module Faucet {
  import opened Types
  import opened Bytes
  import opened Identity
  import opened Ledgers
  import opened Executor
  import opened CallTree
  import opened Transactions
  import opened Runs
  import opened Genesis
  import opened Blocks

  /** Every account the output lowers is reported as authorized. */
  ghost predicate LowersAuthorized(out: ProgramOutput) {
    forall i :: 0 <= i < |out.preStates| && i < |out.postStates| ==>
      out.postStates[i].account.balance < out.preStates[i].account.balance ==> out.preStates[i].isAuthorized
  }

  /** The transfer program takes balance from authorized senders only, as its source says. */
  ghost predicate TransferBehaves(w: World) {
    forall caller: Option<ProgramId>, pres: seq<AccountWithMetadata>, data: seq<u32> ::
      var r := w.execute(w.transferProgram, caller, pres, data);
      r.Ok? ==> LowersAuthorized(r.value)
  }

  ghost predicate TransferDeployed(w: World, ledger: Ledger) {
    w.transferProgram.id in ledger.programs && ledger.programs[w.transferProgram.id] == w.transferProgram
  }

  // ---- Any account ----

  /** An account that has less at the end lost it in a call of its owner. */
  lemma {:induction false} LossCall(ctx: Context, log: seq<Executed>, id: AccountId) returns (k: nat)
    requires ValidLog(ctx, log)
    requires View(ctx.ledger, Overlay(log), id).balance < AccountOf(ctx.ledger.accounts, id).balance
    ensures k < |log| && AcceptedOutput(ctx, log[k])
    ensures log[k].Pid() == AccountOf(ctx.ledger.accounts, id).programOwner
    ensures View(ctx.ledger, log[k].after, id).balance < View(ctx.ledger, log[k].before, id).balance
  {
    TreeKeeps(ctx, log, id);
    var n := |log| - 1;
    LogStep(ctx, log);
    if View(ctx.ledger, Overlay(log[..n]), id).balance < AccountOf(ctx.ledger.accounts, id).balance {
      k := LossCall(ctx, log[..n], id);
    } else {
      TreeKeeps(ctx, log[..n], id);
      CallEvolves(ctx, log[n], id);
      k := n;
    }
  }

  /** A call of the transfer program that lowers an account reports it as authorized. */
  lemma {:induction false} LossIsReported(ctx: Context, log: seq<Executed>, k: nat, id: AccountId)
    requires TransferBehaves(ctx.w) && TransferDeployed(ctx.w, ctx.ledger) && ValidLog(ctx, log)
    requires k < |log| && AcceptedOutput(ctx, log[k]) && log[k].Pid() == ctx.w.transferProgram.id
    requires View(ctx.ledger, log[k].after, id).balance < View(ctx.ledger, log[k].before, id).balance
    ensures id in Reported(log[k])
  {
    var e := log[k];
    assert ValidEntry(ctx, log, k);
    var r := ctx.w.execute(ctx.w.transferProgram, e.frame.caller.programId, e.frame.call.preStates, e.frame.call.instructionData);
    assert r == Ok(e.output) && LowersAuthorized(r.value);
    CallEffect(ctx, e, id);
    var i: nat :| Touched(e, i, id);
    assert e.output.postStates[i].account.balance < e.output.preStates[i].account.balance;
    assert e.output.preStates[i] in e.output.preStates;
  }

  /** An account of the transfer program loses balance only where a call reports it as authorized: as a signer's, as a PDA
      an ancestor granted, or because an ancestor was given it without right. */
  lemma {:induction false} LossNeedsAuthority(ctx: Context, tx: PublicTransaction, id: AccountId) returns (path: seq<nat>)
    requires TransferBehaves(ctx.w) && TransferDeployed(ctx.w, ctx.ledger) && ExecutePublic(ctx, tx).Ok?
    requires AccountOf(ctx.ledger.accounts, id).programOwner == ctx.w.transferProgram.id
    requires View(ctx.ledger, Overlay(ExecutePublic(ctx, tx).value), id).balance < AccountOf(ctx.ledger.accounts, id).balance
    ensures var log := ExecutePublic(ctx, tx).value;
            && IsPath(log, RootFrame(ctx.w, ctx.ledger, tx), path)
            && log[path[|path| - 1]].Pid() == ctx.w.transferProgram.id && id in Reported(log[path[|path| - 1]])
            && (|| id in SignerIds(ctx.w, tx.witnesses)
                || FromAncestorPda(ctx.w, log, path, id)
                || ForgedBefore(ctx.w, log, path, id))
  {
    var log := ExecutePublic(ctx, tx).value;
    AcceptedLog(ctx, tx);
    var k := LossCall(ctx, log, id);
    LossIsReported(ctx, log, k, id);
    path := PathExists(log, RootFrame(ctx.w, ctx.ledger, tx), k);
    AuthorizedInCall(ctx, log, k, id);
    Provenance(ctx, tx, log, path, id);
  }

  // ---- The faucet account ----

  function FaucetPreimage(w: World): seq<u8> {
    PdaPreimage(w.faucetProgram.id, FAUCET_SEED)
  }

  /** A call of the faucet program below the root granted the faucet's seed to the next call of the path. */
  ghost predicate FaucetGrants(w: World, log: seq<Executed>, path: seq<nat>)
    requires forall m :: 0 <= m < |path| ==> path[m] < |log|
  {
    exists m :: 1 < m < |path| && log[path[m - 1]].Pid() == w.faucetProgram.id && FAUCET_SEED in log[path[m]].frame.call.pdaSeeds
  }

  /** The derivation of the faucet account collides with that of a signer of the transaction. */
  ghost predicate SignerCollides(w: World, tx: PublicTransaction) {
    exists i :: 0 <= i < |tx.witnesses| && KeyCollides(w, tx.witnesses[i].1)
  }

  ghost predicate KeyCollides(w: World, key: PublicKey) {
    PUBLIC_PREFIX + key.bytes != FaucetPreimage(w) && w.sha(PUBLIC_PREFIX + key.bytes).bytes == w.sha(FaucetPreimage(w)).bytes
  }

  /** The derivation of the faucet account collides with that of a PDA granted on the path. */
  ghost predicate GrantCollides(w: World, log: seq<Executed>, path: seq<nat>)
    requires forall m :: 0 <= m < |path| ==> path[m] < |log|
  {
    exists m, seed :: 0 < m < |path| && seed in log[path[m]].frame.call.pdaSeeds && PdaCollides(w, log[path[m - 1]].Pid(), seed)
  }

  ghost predicate PdaCollides(w: World, program: ProgramId, seed: PdaSeed) {
    PdaPreimage(program, seed) != FaucetPreimage(w) && w.sha(PdaPreimage(program, seed)) == w.sha(FaucetPreimage(w))
  }

  lemma {:induction false} FaucetSigner(w: World, tx: PublicTransaction)
    requires FaucetId(w) in SignerIds(w, tx.witnesses)
    ensures SignerCollides(w, tx)
  {
    var i :| 0 <= i < |tx.witnesses| && SignerIds(w, tx.witnesses)[i] == FaucetId(w);
    var key := tx.witnesses[i].1;
    assert |PUBLIC_PREFIX + key.bytes| == 64;
    assert KeyCollides(w, tx.witnesses[i].1);
  }

  lemma {:induction false} FaucetPda(ctx: Context, tx: PublicTransaction, log: seq<Executed>, path: seq<nat>)
    requires IsPath(log, RootFrame(ctx.w, ctx.ledger, tx), path) && FromAncestorPda(ctx.w, log, path, FaucetId(ctx.w))
    requires tx.message.programId != ctx.w.faucetProgram.id
    ensures FaucetGrants(ctx.w, log, path) || GrantCollides(ctx.w, log, path)
  {
    var w := ctx.w;
    var m, seed :| 0 < m < |path| && seed in log[path[m]].frame.call.pdaSeeds
                   && FaucetId(w) == PublicPda(w, log[path[m - 1]].Pid(), seed);
    PdaNamespaces(w, log[path[m - 1]].Pid(), seed, w.faucetProgram.id, FAUCET_SEED);
    if log[path[m - 1]].Pid() == w.faucetProgram.id && seed == FAUCET_SEED {
      assert m > 1;
    } else {
      assert PdaCollides(w, log[path[m - 1]].Pid(), seed);
    }
  }

  /** The guard and the faucet account: in an accepted guarded transaction the account loses balance only if the faucet
      program, itself called by another program, granted its seed, or an ancestor of the losing call was given the account
      without right, or the account's derivation collides with one used in the transaction. */
  lemma {:induction false} FaucetLoss(w: World, s: State, tx: PublicTransaction, blockId: u64, timestamp: u64, next: State)
    returns (log: seq<Executed>, path: seq<nat>)
    requires TransferBehaves(w) && TransferDeployed(w, s.ledger)
    requires AccountOf(s.ledger.accounts, FaucetId(w)).programOwner == w.transferProgram.id
    requires ExecuteChecked(w, s, Public(tx), blockId, timestamp) == Accepted(next)
    requires AccountOf(next.ledger.accounts, FaucetId(w)).balance < AccountOf(s.ledger.accounts, FaucetId(w)).balance
    ensures ExecutePublic(Context(w, s.ledger, blockId, timestamp), tx) == Ok(log)
    ensures IsPath(log, RootFrame(w, s.ledger, tx), path) && FaucetId(w) in Reported(log[path[|path| - 1]])
    ensures FaucetGrants(w, log, path) || ForgedBefore(w, log, path, FaucetId(w)) || SignerCollides(w, tx) || GrantCollides(w, log, path)
  {
    var ctx, id := Context(w, s.ledger, blockId, timestamp), FaucetId(w);
    GuardIff(w, s, Public(tx), blockId, timestamp, next);
    PublicStep(w, s, Event(Public(tx), blockId, timestamp), next);
    log := ExecutePublic(ctx, tx).value;
    BumpedAt(s.ledger.accounts + Overlay(log), SignerIds(w, tx.witnesses), id);
    path := LossNeedsAuthority(ctx, tx, id);
    if id in SignerIds(w, tx.witnesses) {
      FaucetSigner(w, tx);
    } else if FromAncestorPda(w, log, path, id) {
      FaucetPda(ctx, tx, log, path);
    }
  }
}
