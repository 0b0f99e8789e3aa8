/** Which calls an accepted transaction executes, in which order: its log is the pre-order of the tree of requested calls,
    and the only valid one. Stated on the programs' outputs alone. */
module CallOrder {
  import opened Types
  import opened Validator
  import opened Identity
  import opened Ledgers
  import opened Executor
  import opened CallTree

  // ---- The first call ----

  /** The call the message asks for: the stored accounts it names, marked when signed for, with the signers' authority. */
  ghost predicate IsRoot(w: World, ledger: Ledger, tx: PublicTransaction, f: Frame) {
    var m := tx.message;
    && f.call.programId == m.programId && f.call.instructionData == m.instructionData && f.call.pdaSeeds == []
    && |f.call.preStates| == |m.accountIds|
    && (forall i :: 0 <= i < |m.accountIds| ==>
          && f.call.preStates[i].accountId == m.accountIds[i]
          && f.call.preStates[i].account == AccountOf(ledger.accounts, m.accountIds[i])
          && (f.call.preStates[i].isAuthorized <==> Signs(w, tx.witnesses, m.accountIds[i])))
    && f.caller.programId == None
    && (forall id :: id in f.caller.authorizedAccounts <==> Signs(w, tx.witnesses, id))
  }

  lemma {:induction false} RootExact(w: World, ledger: Ledger, tx: PublicTransaction, f: Frame)
    ensures IsRoot(w, ledger, tx, f) <==> f == RootFrame(w, ledger, tx)
  {
    var root := RootFrame(w, ledger, tx);
    forall id
      ensures Signs(w, tx.witnesses, id) <==> id in SignerIds(w, tx.witnesses)
    {
      SignsIff(w, tx.witnesses, id);
    }
    if IsRoot(w, ledger, tx, f) {
      assert f.call.preStates == root.call.preStates;
      assert f.caller.authorizedAccounts == root.caller.authorizedAccounts;
    }
  }

  // ---- Later calls ----

  /** Where a call was asked for: by which executed call, and as which of its chained calls. */
  datatype Origin = Origin(parent: nat, position: nat)

  ghost predicate IsOrigin(log: seq<Executed>, o: Origin) {
    o.parent < |log| && o.position < |log[o.parent].output.chainedCalls|
  }

  /** The call received `id` marked as authorized. */
  ghost predicate Received(call: ChainedCall, id: AccountId) {
    exists i :: 0 <= i < |call.preStates| && call.preStates[i].isAuthorized && call.preStates[i].accountId == id
  }

  /** `f` is the call asked for at `o`, made by the program there with what that program received as authorized. */
  ghost predicate AskedFor(log: seq<Executed>, o: Origin, f: Frame) {
    && IsOrigin(log, o)
    && f.call == log[o.parent].output.chainedCalls[o.position]
    && f.caller.programId == Some(log[o.parent].Pid())
    && (forall id :: id in f.caller.authorizedAccounts <==> Received(log[o.parent].frame.call, id))
  }

  lemma {:induction false} AskedForChild(log: seq<Executed>, o: Origin, f: Frame)
    requires IsOrigin(log, o)
    ensures AskedFor(log, o, f) <==> f == Children(log[o.parent])[o.position]
  {
    var call := log[o.parent].frame.call;
    forall id
      ensures Received(call, id) <==> id in ReceivedAuthorized(call)
    {
      if id in ReceivedAuthorized(call) {
        var pre :| pre in call.preStates && pre.isAuthorized && pre.accountId == id;
        var i :| 0 <= i < |call.preStates| && call.preStates[i] == pre;
        assert call.preStates[i].isAuthorized && call.preStates[i].accountId == id;
      }
    }
    if AskedFor(log, o, f) {
      assert f.caller.authorizedAccounts == ReceivedAuthorized(call);
    }
  }

  // ---- The order ----

  /** Entry `k` was asked for by an earlier entry. */
  ghost predicate Edge(log: seq<Executed>, origins: seq<Origin>, k: nat)
    requires 0 < k < |log| && |origins| == |log|
  {
    origins[k].parent < k && AskedFor(log, origins[k], log[k].frame)
  }

  /** Between a call and one it asked for there are only descendants of it. */
  ghost predicate Nested(origins: seq<Origin>, j: nat, k: nat)
    requires 0 < j < k < |origins|
  {
    origins[k].parent < j ==> origins[k].parent <= origins[j].parent
  }

  /** Calls asked for by the same call run in the order they were asked for. */
  ghost predicate InOrder(origins: seq<Origin>, j: nat, k: nat)
    requires 0 < j < k < |origins|
  {
    origins[j].parent == origins[k].parent ==> origins[j].position < origins[k].position
  }

  ghost predicate Occurs(origins: seq<Origin>, o: Origin) {
    exists k :: 0 < k < |origins| && origins[k] == o
  }

  ghost predicate Ordered(log: seq<Executed>, origins: seq<Origin>) {
    && |origins| == |log|
    && (forall k :: 0 < k < |log| ==> Edge(log, origins, k))
    && (forall j, k :: 0 < j < k < |origins| ==> Nested(origins, j, k))
    && (forall j, k :: 0 < j < k < |origins| ==> InOrder(origins, j, k))
  }

  /** The log is the pre-order of the requested calls: in order, and with every requested call exactly once. */
  ghost predicate Preorder(log: seq<Executed>, origins: seq<Origin>) {
    Ordered(log, origins) && forall o :: IsOrigin(log, o) ==> Occurs(origins, o)
  }

  /** No origin occurs twice. */
  lemma {:induction false} OriginsDiffer(log: seq<Executed>, origins: seq<Origin>, j: nat, k: nat)
    requires Ordered(log, origins) && 0 < j < |origins| && 0 < k < |origins| && origins[j] == origins[k]
    ensures j == k
  {
    if j < k {
      Later(log, origins, j, k);
      assert false;
    } else if k < j {
      Later(log, origins, k, j);
      assert false;
    }
  }

  lemma {:induction false} Later(log: seq<Executed>, origins: seq<Origin>, j: nat, k: nat)
    requires Ordered(log, origins) && 0 < j < k < |origins|
    ensures origins[j].parent == origins[k].parent ==> origins[j].position < origins[k].position
    ensures origins[k].parent < j ==> origins[k].parent <= origins[j].parent
  {
    assert InOrder(origins, j, k) && Nested(origins, j, k);
  }

  /** Entry `j` is `a` or was asked for, directly or not, by it. */
  ghost predicate Under(log: seq<Executed>, origins: seq<Origin>, j: nat, a: nat)
    requires Ordered(log, origins) && j < |log|
    decreases j
  {
    j == a || (j > a && (assert Edge(log, origins, j); Under(log, origins, origins[j].parent, a)))
  }

  /** The whole subtree of a call runs before the next call of the same caller, and nothing else does. */
  lemma {:induction false} SubtreeBeforeSibling(log: seq<Executed>, origins: seq<Origin>, a: nat, b: nat, j: nat)
    requires Ordered(log, origins) && 0 < a < b < |log| && j < |log|
    requires origins[b] == Origin(origins[a].parent, origins[a].position + 1)
    ensures Under(log, origins, j, a) <==> a <= j < b
    decreases j
  {
    if j > a {
      assert Edge(log, origins, j) && Edge(log, origins, a) && Edge(log, origins, b);
      var q := origins[j].parent;
      SubtreeBeforeSibling(log, origins, a, b, q);
      if j < b {
        assert Nested(origins, j, b) && InOrder(origins, a, j) && InOrder(origins, j, b);
        assert Nested(origins, a, j);
      } else if b < j {
        assert Nested(origins, b, j);
      }
    }
  }

  // ---- The worklist, with the origin of each pending call ----

  ghost predicate Sooner(a: Origin, b: Origin) {
    a.parent > b.parent || (a.parent == b.parent && a.position < b.position)
  }

  ghost predicate Enclosed(origins: seq<Origin>, t: Origin, j: nat)
    requires j < |origins|
  {
    t.parent < j ==> t.parent <= origins[j].parent
  }

  ghost predicate DoneSooner(origins: seq<Origin>, t: Origin, k: nat)
    requires k < |origins|
  {
    origins[k].parent == t.parent ==> origins[k].position < t.position
  }

  /** The state of the worklist: what has run is in order, what is pending is listed in the order it will run in, and
      together they are all the calls asked for so far. */
  ghost predicate Pending(log: seq<Executed>, origins: seq<Origin>, queue: seq<Frame>, tags: seq<Origin>) {
    && Ordered(log, origins) && |queue| == |tags| && log != []
    && (forall q :: 0 <= q < |tags| ==> AskedFor(log, tags[q], queue[q]))
    && (forall q, j :: 0 <= q < |tags| && 0 < j < |origins| ==> Enclosed(origins, tags[q], j))
    && (forall q, r :: 0 <= q < r < |tags| ==> Sooner(tags[q], tags[r]))
    && (forall q, k :: 0 <= q < |tags| && 0 < k < |origins| ==> DoneSooner(origins, tags[q], k))
    && (forall o :: IsOrigin(log, o) ==> Occurs(origins, o) || o in tags)
  }

  function Positions(parent: nat, n: nat): (os: seq<Origin>)
    ensures |os| == n && forall i :: 0 <= i < n ==> os[i] == Origin(parent, i)
  {
    seq(n, i requires 0 <= i < n => Origin(parent, i))
  }

  lemma {:induction false} AskedForLonger(log: seq<Executed>, e: Executed, o: Origin, f: Frame)
    requires AskedFor(log, o, f)
    ensures AskedFor(log + [e], o, f)
  {
    assert (log + [e])[o.parent] == log[o.parent];
  }

  lemma {:induction false} OrderedStep(log: seq<Executed>, origins: seq<Origin>, queue: seq<Frame>, tags: seq<Origin>, e: Executed)
    requires Pending(log, origins, queue, tags) && queue != [] && e.frame == queue[0]
    ensures Ordered(log + [e], origins + [tags[0]])
  {
    var log', origins' := log + [e], origins + [tags[0]];
    forall k | 0 < k < |log'|
      ensures Edge(log', origins', k)
    {
      if k < |log| {
        assert Edge(log, origins, k);
        AskedForLonger(log, e, origins[k], log[k].frame);
      } else {
        assert AskedFor(log, tags[0], queue[0]);
        AskedForLonger(log, e, tags[0], queue[0]);
      }
    }
    forall j, k | 0 < j < k < |origins'|
      ensures Nested(origins', j, k) && InOrder(origins', j, k)
    {
      if k < |origins| {
        assert Nested(origins, j, k) && InOrder(origins, j, k);
      } else {
        assert Enclosed(origins, tags[0], j) && DoneSooner(origins, tags[0], j);
      }
    }
  }

  lemma {:induction false} TagsStep(log: seq<Executed>, origins: seq<Origin>, queue: seq<Frame>, tags: seq<Origin>, e: Executed)
    requires Pending(log, origins, queue, tags) && queue != [] && e.frame == queue[0]
    ensures var tags' := Positions(|log|, |e.output.chainedCalls|) + tags[1..];
            var queue' := Children(e) + queue[1..];
            && |queue'| == |tags'|
            && (forall q :: 0 <= q < |tags'| ==> AskedFor(log + [e], tags'[q], queue'[q]))
            && (forall q, r :: 0 <= q < r < |tags'| ==> Sooner(tags'[q], tags'[r]))
  {
    var c := |e.output.chainedCalls|;
    var tags', queue' := Positions(|log|, c) + tags[1..], Children(e) + queue[1..];
    forall q | 0 <= q < |tags'|
      ensures AskedFor(log + [e], tags'[q], queue'[q])
      ensures q >= c ==> tags'[q] == tags[q - c + 1] && tags'[q].parent < |log|
    {
      if q < c {
        assert tags'[q] == Origin(|log|, q) && (log + [e])[|log|] == e;
        AskedForChild(log + [e], tags'[q], queue'[q]);
      } else {
        assert AskedFor(log, tags[q - c + 1], queue[q - c + 1]);
        AskedForLonger(log, e, tags[q - c + 1], queue[q - c + 1]);
      }
    }
    forall q, r | 0 <= q < r < |tags'|
      ensures Sooner(tags'[q], tags'[r])
    {
      if q >= c {
        assert Sooner(tags[q - c + 1], tags[r - c + 1]);
      }
    }
  }

  lemma {:induction false} DoneStep(log: seq<Executed>, origins: seq<Origin>, queue: seq<Frame>, tags: seq<Origin>, n: nat)
    requires Pending(log, origins, queue, tags) && queue != []
    ensures var tags', origins' := Positions(|log|, n) + tags[1..], origins + [tags[0]];
            forall q, k :: 0 <= q < |tags'| && 0 < k < |origins'| ==> Enclosed(origins', tags'[q], k) && DoneSooner(origins', tags'[q], k)
  {
    var tags', origins' := Positions(|log|, n) + tags[1..], origins + [tags[0]];
    forall q, k | 0 <= q < |tags'| && 0 < k < |origins'|
      ensures Enclosed(origins', tags'[q], k) && DoneSooner(origins', tags'[q], k)
    {
      if q < n {
        assert tags'[q] == Origin(|log|, q);
        if k < |origins| {
          assert Edge(log, origins, k);
        } else {
          assert AskedFor(log, tags[0], queue[0]);
        }
      } else {
        var t := tags[q - n + 1];
        assert tags'[q] == t && Sooner(tags[0], t);
        if k < |origins| {
          assert Enclosed(origins, t, k) && DoneSooner(origins, t, k);
        }
      }
    }
  }

  lemma {:induction false} AllStep(log: seq<Executed>, origins: seq<Origin>, queue: seq<Frame>, tags: seq<Origin>, e: Executed, o: Origin)
    requires Pending(log, origins, queue, tags) && queue != [] && IsOrigin(log + [e], o)
    ensures Occurs(origins + [tags[0]], o) || o in Positions(|log|, |e.output.chainedCalls|) + tags[1..]
  {
    var origins' := origins + [tags[0]];
    if o.parent == |log| {
      assert Positions(|log|, |e.output.chainedCalls|)[o.position] == o;
    } else {
      assert IsOrigin(log, o);
      if Occurs(origins, o) {
        var k :| 0 < k < |origins| && origins[k] == o;
        assert origins'[k] == o;
      } else if o == tags[0] {
        assert origins'[|origins|] == o;
      }
    }
  }

  /** Running the first pending call keeps the worklist in order. */
  lemma {:induction false} PendingStep(log: seq<Executed>, origins: seq<Origin>, queue: seq<Frame>, tags: seq<Origin>, e: Executed)
    requires Pending(log, origins, queue, tags) && queue != [] && e.frame == queue[0]
    ensures Pending(log + [e], origins + [tags[0]], Children(e) + queue[1..], Positions(|log|, |e.output.chainedCalls|) + tags[1..])
  {
    OrderedStep(log, origins, queue, tags, e);
    TagsStep(log, origins, queue, tags, e);
    DoneStep(log, origins, queue, tags, |e.output.chainedCalls|);
    forall o | IsOrigin(log + [e], o)
      ensures Occurs(origins + [tags[0]], o) || o in Positions(|log|, |e.output.chainedCalls|) + tags[1..]
    {
      AllStep(log, origins, queue, tags, e, o);
    }
  }

  lemma {:induction false} PendingStart(e: Executed)
    ensures Pending([e], [Origin(0, 0)], Children(e), Positions(0, |e.output.chainedCalls|))
  {
    var tags := Positions(0, |e.output.chainedCalls|);
    forall q | 0 <= q < |tags|
      ensures AskedFor([e], tags[q], Children(e)[q])
    {
      AskedForChild([e], tags[q], Children(e)[q]);
    }
    forall o | IsOrigin([e], o)
      ensures o in tags
    {
      assert tags[o.position] == o;
    }
  }

  lemma {:induction false} DrainOrder(ctx: Context, log: seq<Executed>, origins: seq<Origin>, queue: seq<Frame>, tags: seq<Origin>)
    returns (all: seq<Origin>)
    requires Pending(log, origins, queue, tags) && Drain(ctx, queue, log).Ok?
    ensures Preorder(Drain(ctx, queue, log).value, all) && log <= Drain(ctx, queue, log).value
    decreases Budget(log)
  {
    if queue == [] {
      all := origins;
    } else {
      var e := ExecCall(ctx, queue[0], Overlay(log)).value;
      CallFacts(ctx, queue[0], Overlay(log), e);
      PendingStep(log, origins, queue, tags, e);
      all := DrainOrder(ctx, log + [e], origins + [tags[0]], Children(e) + queue[1..], Positions(|log|, |e.output.chainedCalls|) + tags[1..]);
    }
  }

  // ---- The order determines the log ----

  /** The next entry of a pre-order is the first pending call. */
  lemma {:induction false} NextIsFirst(log: seq<Executed>, origins: seq<Origin>, n: nat, queue: seq<Frame>, tags: seq<Origin>)
    requires Preorder(log, origins) && 0 < n <= |log| && Pending(log[..n], origins[..n], queue, tags)
    ensures n < |log| <==> tags != []
    ensures n < |log| ==> origins[n] == tags[0]
  {
    if n < |log| {
      var q := NextIsPending(log, origins, n, queue, tags);
      if q > 0 {
        assert Sooner(tags[0], tags[q]) && AskedFor(log[..n], tags[0], queue[0]);
        var k := PendingIsLater(log, origins, n, queue, tags);
        assert k != n;
        Later(log, origins, n, k);
        assert false;
      }
    } else if tags != [] {
      var k := PendingIsLater(log, origins, n, queue, tags);
      assert false;
    }
  }

  lemma {:induction false} NextIsPending(log: seq<Executed>, origins: seq<Origin>, n: nat, queue: seq<Frame>, tags: seq<Origin>) returns (q: nat)
    requires Preorder(log, origins) && 0 < n < |log| && Pending(log[..n], origins[..n], queue, tags)
    ensures q < |tags| && tags[q] == origins[n]
  {
    assert Edge(log, origins, n);
    var o := origins[n];
    assert log[..n][o.parent] == log[o.parent];
    assert IsOrigin(log[..n], o);
    if Occurs(origins[..n], o) {
      var k :| 0 < k < |origins[..n]| && origins[..n][k] == o;
      OriginsDiffer(log, origins, k, n);
      assert false;
    }
    q :| 0 <= q < |tags| && tags[q] == o;
  }

  lemma {:induction false} NotDone(log: seq<Executed>, origins: seq<Origin>, queue: seq<Frame>, tags: seq<Origin>, k: nat)
    requires Pending(log, origins, queue, tags) && tags != [] && 0 < k < |origins|
    ensures origins[k] != tags[0]
  {
    assert DoneSooner(origins, tags[0], k);
  }

  lemma {:induction false} PendingIsLater(log: seq<Executed>, origins: seq<Origin>, n: nat, queue: seq<Frame>, tags: seq<Origin>) returns (k: nat)
    requires Preorder(log, origins) && 0 < n <= |log| && Pending(log[..n], origins[..n], queue, tags) && tags != []
    ensures n <= k < |log| && origins[k] == tags[0]
  {
    assert AskedFor(log[..n], tags[0], queue[0]);
    assert log[..n][tags[0].parent] == log[tags[0].parent];
    assert IsOrigin(log, tags[0]);
    k :| 0 < k < |origins| && origins[k] == tags[0];
    if k < n {
      NotDone(log[..n], origins[..n], queue, tags, k);
      assert false;
    }
  }

  lemma {:induction false} SameFrame(log: seq<Executed>, origins: seq<Origin>, n: nat, queue: seq<Frame>, tags: seq<Origin>)
    requires Preorder(log, origins) && 0 < n < |log| && Pending(log[..n], origins[..n], queue, tags)
    requires tags != [] && origins[n] == tags[0]
    ensures log[n].frame == queue[0]
  {
    assert Edge(log, origins, n) && AskedFor(log[..n], tags[0], queue[0]);
    var p := tags[0].parent;
    assert log[..n][p] == log[p];
    AskedForChild(log, tags[0], log[n].frame);
    AskedForChild(log[..n], tags[0], queue[0]);
  }

  lemma {:induction false} PreorderDrains(ctx: Context, log: seq<Executed>, origins: seq<Origin>, n: nat, queue: seq<Frame>, tags: seq<Origin>)
    requires ValidLog(ctx, log) && Preorder(log, origins) && |log| <= MAX_NUMBER_CHAINED_CALLS + 1
    requires 0 < n <= |log| && Pending(log[..n], origins[..n], queue, tags)
    ensures Drain(ctx, queue, log[..n]) == Ok(log)
    decreases |log| - n
  {
    NextIsFirst(log, origins, n, queue, tags);
    if n == |log| {
      assert log[..n] == log;
    } else {
      SameFrame(log, origins, n, queue, tags);
      assert ValidEntry(ctx, log, n);
      PendingStep(log[..n], origins[..n], queue, tags, log[n]);
      assert log[..n] + [log[n]] == log[..n + 1] && origins[..n] + [tags[0]] == origins[..n + 1];
      PreorderDrains(ctx, log, origins, n + 1, Children(log[n]) + queue[1..], Positions(n, |log[n].output.chainedCalls|) + tags[1..]);
    }
  }

  // ---- Accepted transactions ----

  /** The program of the call is deployed and really returned this output, which is acceptable on the overlay before it. */
  ghost predicate Performed(ctx: Context, e: Executed) {
    && AcceptedOutput(ctx, e)
    && ctx.w.execute(ctx.ledger.programs[e.Pid()], e.frame.caller.programId, e.frame.call.preStates, e.frame.call.instructionData)
       == Ok(e.output)
  }

  /** A complete execution of the transaction's calls, at most eleven, each on what the one before it left, the first on the stored state. */
  ghost predicate IsExecution(ctx: Context, tx: PublicTransaction, log: seq<Executed>, origins: seq<Origin>) {
    && 1 <= |log| <= 11
    && IsRoot(ctx.w, ctx.ledger, tx, log[0].frame)
    && Preorder(log, origins)
    && (forall k :: 0 <= k < |log| ==> PerformedAt(ctx, log, k))
  }

  ghost predicate PerformedAt(ctx: Context, log: seq<Executed>, k: nat)
    requires k < |log|
  {
    Performed(ctx, log[k]) && log[k].before == if k == 0 then map[] else log[k - 1].after
  }

  lemma {:induction false} PerformedIff(ctx: Context, log: seq<Executed>, k: nat)
    requires k < |log|
    ensures PerformedAt(ctx, log, k) <==> ValidEntry(ctx, log, k)
  {
    assert Overlay(log[..k]) == if k == 0 then map[] else log[k - 1].after;
    if ValidEntry(ctx, log, k) {
      CallFacts(ctx, log[k].frame, Overlay(log[..k]), log[k]);
    }
    if PerformedAt(ctx, log, k) {
      CallAccepted(ctx, log[k]);
    }
  }

  lemma {:induction false} PerformedLog(ctx: Context, log: seq<Executed>)
    ensures ValidLog(ctx, log) <==> forall k :: 0 <= k < |log| ==> PerformedAt(ctx, log, k)
  {
    forall k | 0 <= k < |log|
      ensures PerformedAt(ctx, log, k) <==> ValidEntry(ctx, log, k)
    {
      PerformedIff(ctx, log, k);
    }
  }

  lemma {:induction false} FirstDrain(ctx: Context, root: Frame)
    ensures EvalCall(ctx, root, []) == Drain(ctx, [root], [])
    ensures ExecCall(ctx, root, map[]).Ok? ==>
              var e := ExecCall(ctx, root, map[]).value; Drain(ctx, [root], []) == Drain(ctx, Children(e), [e])
    ensures ExecCall(ctx, root, map[]).Err? ==> Drain(ctx, [root], []).Err?
  {
    WorklistIsPreorder(ctx, [root], []);
    assert EvalCalls(ctx, [root], []) == EvalCall(ctx, root, []);
    if ExecCall(ctx, root, map[]).Ok? {
      var e := ExecCall(ctx, root, map[]).value;
      assert Children(e) + [root][1..] == Children(e) && [] + [e] == [e];
    }
  }

  /** The evaluation of the call tree succeeds with exactly the complete executions. */
  lemma {:induction false} ExecutionEvaluates(ctx: Context, tx: PublicTransaction, log: seq<Executed>, origins: seq<Origin>)
    requires IsExecution(ctx, tx, log, origins)
    ensures EvalCall(ctx, RootFrame(ctx.w, ctx.ledger, tx), []) == Ok(log)
  {
    var root := RootFrame(ctx.w, ctx.ledger, tx);
    RootExact(ctx.w, ctx.ledger, tx, log[0].frame);
    PerformedLog(ctx, log);
    assert ValidEntry(ctx, log, 0) && log[..0] == [];
    FirstDrain(ctx, root);
    PendingStart(log[0]);
    ForgetFirst(log, origins);
    var origins' := [Origin(0, 0)] + origins[1..];
    assert log[..1] == [log[0]] && origins'[..1] == [Origin(0, 0)];
    PreorderDrains(ctx, log, origins', 1, Children(log[0]), Positions(0, |log[0].output.chainedCalls|));
  }

  /** The first origin does not matter. */
  lemma {:induction false} ForgetFirst(log: seq<Executed>, origins: seq<Origin>)
    requires log != [] && Preorder(log, origins)
    ensures Preorder(log, [Origin(0, 0)] + origins[1..])
  {
    var origins' := [Origin(0, 0)] + origins[1..];
    assert forall k :: 0 < k < |origins| ==> origins'[k] == origins[k];
    forall k | 0 < k < |log|
      ensures Edge(log, origins', k)
    {
      assert Edge(log, origins, k);
    }
    forall j, k | 0 < j < k < |origins'|
      ensures Nested(origins', j, k) && InOrder(origins', j, k)
    {
      assert Nested(origins, j, k) && InOrder(origins, j, k);
    }
    forall o | IsOrigin(log, o)
      ensures Occurs(origins', o)
    {
      var k :| 0 < k < |origins| && origins[k] == o;
      assert origins'[k] == o;
    }
  }

  lemma {:induction false} EvaluationExecutes(ctx: Context, tx: PublicTransaction) returns (origins: seq<Origin>)
    requires ExecutePublic(ctx, tx).Ok?
    ensures IsExecution(ctx, tx, ExecutePublic(ctx, tx).value, origins)
  {
    var root, log := RootFrame(ctx.w, ctx.ledger, tx), ExecutePublic(ctx, tx).value;
    AcceptedLog(ctx, tx);
    PerformedLog(ctx, log);
    FirstDrain(ctx, root);
    var e := ExecCall(ctx, root, map[]).value;
    CallFacts(ctx, root, map[], e);
    PendingStart(e);
    origins := DrainOrder(ctx, [e], [Origin(0, 0)], Children(e), Positions(0, |e.output.chainedCalls|));
    assert [e] <= log;
    RootExact(ctx.w, ctx.ledger, tx, log[0].frame);
  }

  /** Different accounts, and for each signer a valid signature of the message and the current nonce. */
  ghost predicate ProperlySigned(w: World, ledger: Ledger, tx: PublicTransaction) {
    && (forall i, j :: 0 <= i < j < |tx.message.accountIds| ==> tx.message.accountIds[i] != tx.message.accountIds[j])
    && |tx.message.nonces| == |tx.witnesses|
    && (forall i :: 0 <= i < |tx.witnesses| ==> w.publicSignatureValid(tx.witnesses[i].0, tx.message, tx.witnesses[i].1))
    && (forall i :: 0 <= i < |tx.witnesses| ==>
          AccountOf(ledger.accounts, SignerId(w, tx.witnesses[i].1)).nonce == tx.message.nonces[i])
  }

  /** No account that was default-owned is left changed and default-owned. */
  ghost predicate NothingUnclaimed(ledger: Ledger, diff: Diff) {
    forall id :: id in diff ==>
      AccountOf(ledger.accounts, id).programOwner == DEFAULT_PROGRAM_ID && diff[id].programOwner == DEFAULT_PROGRAM_ID
      ==> AccountOf(ledger.accounts, id) == diff[id]
  }

  /** The precheck passes exactly the properly signed transactions, and otherwise names the first of the four conditions,
      in this order, that fails. */
  lemma {:induction false} PrecheckExact(w: World, ledger: Ledger, tx: PublicTransaction)
    ensures PublicPrecheck(w, ledger, tx).None? <==> ProperlySigned(w, ledger, tx)
    ensures PublicPrecheck(w, ledger, tx) == Some(DuplicateAccountIds) <==> !Distinct(tx.message.accountIds)
    ensures PublicPrecheck(w, ledger, tx) == Some(NonceCountMismatch)
       <==> Distinct(tx.message.accountIds) && |tx.message.nonces| != |tx.witnesses|
    ensures PublicPrecheck(w, ledger, tx) == Some(InvalidSignature)
       <==> && Distinct(tx.message.accountIds) && |tx.message.nonces| == |tx.witnesses|
            && exists i :: 0 <= i < |tx.witnesses| && !w.publicSignatureValid(tx.witnesses[i].0, tx.message, tx.witnesses[i].1)
  {
    var signers := SignerIds(w, tx.witnesses);
    assert forall i :: 0 <= i < |signers| ==> signers[i] == SignerId(w, tx.witnesses[i].1);
  }

  lemma {:induction false} UnclaimedIff(ledger: Ledger, diff: Diff)
    ensures NothingUnclaimed(ledger, diff) <==> !exists id :: id in diff && LeftUnclaimed(ledger, diff, id)
  {
  }

  /** A public transaction is accepted, with this log, exactly when it is properly signed, the log is a complete execution
      of its calls in pre-order, and nothing is left unclaimed. */
  lemma {:induction false} PublicAcceptedIff(ctx: Context, tx: PublicTransaction, log: seq<Executed>)
    ensures ExecutePublic(ctx, tx) == Ok(log) <==>
      && ProperlySigned(ctx.w, ctx.ledger, tx)
      && (exists origins :: IsExecution(ctx, tx, log, origins))
      && NothingUnclaimed(ctx.ledger, log[|log| - 1].after)
  {
    PrecheckExact(ctx.w, ctx.ledger, tx);
    if ExecutePublic(ctx, tx) == Ok(log) {
      var origins := EvaluationExecutes(ctx, tx);
      UnclaimedIff(ctx.ledger, Overlay(log));
      AcceptedLog(ctx, tx);
    }
    if (exists origins :: IsExecution(ctx, tx, log, origins)) && NothingUnclaimed(ctx.ledger, log[|log| - 1].after)
       && ProperlySigned(ctx.w, ctx.ledger, tx) {
      var origins :| IsExecution(ctx, tx, log, origins);
      ExecutionAccepted(ctx, tx, log, origins);
    }
  }

  lemma {:induction false} ExecutionAccepted(ctx: Context, tx: PublicTransaction, log: seq<Executed>, origins: seq<Origin>)
    requires ProperlySigned(ctx.w, ctx.ledger, tx) && IsExecution(ctx, tx, log, origins)
    requires NothingUnclaimed(ctx.ledger, log[|log| - 1].after)
    ensures ExecutePublic(ctx, tx) == Ok(log)
  {
    PrecheckExact(ctx.w, ctx.ledger, tx);
    ExecutionEvaluates(ctx, tx, log, origins);
    UnclaimedIff(ctx.ledger, Overlay(log));
  }
}
