/** The rules a single program execution must obey, and the two-limb sum that checks the last of them. */
module Validator {
  import opened Types

  // ---- Balance sums ----

  function Sum(balances: seq<u128>): nat {
    if balances == [] then 0 else Sum(balances[..|balances| - 1]) + balances[|balances| - 1]
  }

  lemma {:induction false} SumPrefix(balances: seq<u128>, i: nat)
    requires i < |balances|
    ensures Sum(balances[..i + 1]) == Sum(balances[..i]) + balances[i]
  {
    assert balances[..i + 1][..i] == balances[..i];
  }

  lemma {:induction false} SumMonotone(balances: seq<u128>, i: nat)
    requires i <= |balances|
    ensures Sum(balances[..i]) <= Sum(balances)
    decreases |balances| - i
  {
    if i == |balances| {
      assert balances[..i] == balances;
    } else {
      SumPrefix(balances, i);
      SumMonotone(balances, i + 1);
    }
  }

  /** The unique two-limb representation of a number below 2^256. */
  function Wrap(n: nat): (r: WrappedBalanceSum)
    requires n < TWO_256
    ensures r.Value() == n
  {
    WrappedBalanceSum(n % TWO_128, n / TWO_128)
  }

  /** Two wrapped sums are equal exactly when the numbers they stand for are. */
  lemma WrappedEquality(a: WrappedBalanceSum, b: WrappedBalanceSum)
    ensures a == b <==> a.Value() == b.Value()
  {
    if a.hi < b.hi {
      assert a.Value() < b.Value();
    } else if b.hi < a.hi {
      assert b.Value() < a.Value();
    }
  }

  /** Adds up balances with a carry into the high limb. It fails exactly when the true sum does not fit 256 bits. */
  method FromBalances(balances: seq<u128>) returns (r: Option<WrappedBalanceSum>)
    ensures r.Some? <==> Sum(balances) < TWO_256
    ensures r.Some? ==> r.value.Value() == Sum(balances)
  {
    var lo: u128, hi: u128 := 0, 0;
    for i := 0 to |balances|
      invariant lo + hi * TWO_128 == Sum(balances[..i])
    {
      SumPrefix(balances, i);
      var newSum := (lo + balances[i]) % TWO_128;
      var didOverflow := lo + balances[i] >= TWO_128;
      if didOverflow {
        if hi == TWO_128 - 1 {
          SumMonotone(balances, i + 1);
          return None;
        }
        hi := hi + 1;
      }
      lo := newSum;
    }
    assert balances[..|balances|] == balances;
    r := Some(WrappedBalanceSum(lo, hi));
  }

  // ---- Execution rules ----

  function PreBalances(pre: seq<AccountWithMetadata>): (r: seq<u128>)
    ensures |r| == |pre| && forall i :: 0 <= i < |pre| ==> r[i] == pre[i].account.balance
  {
    seq(|pre|, i requires 0 <= i < |pre| => pre[i].account.balance)
  }

  function PostBalances(post: seq<AccountPostState>): (r: seq<u128>)
    ensures |r| == |post| && forall i :: 0 <= i < |post| ==> r[i] == post[i].account.balance
  {
    seq(|post|, i requires 0 <= i < |post| => post[i].account.balance)
  }

  function Ids(pre: seq<AccountWithMetadata>): (r: seq<AccountId>)
    ensures |r| == |pre| && forall i :: 0 <= i < |pre| ==> r[i] == pre[i].accountId
  {
    seq(|pre|, i requires 0 <= i < |pre| => pre[i].accountId)
  }

  /** What one account may undergo in a call of program `pid`. */
  predicate PairOk(pre: AccountWithMetadata, post: AccountPostState, pid: ProgramId) {
    var a, b := pre.account, post.account;
    && b.nonce == a.nonce
    && b.programOwner == a.programOwner
    && (b.balance < a.balance ==> a.programOwner == pid)
    && (b.data != a.data ==> a == DEFAULT_ACCOUNT || a.programOwner == pid)
    && (a.programOwner == DEFAULT_PROGRAM_ID ==> a == DEFAULT_ACCOUNT)
  }

  /** A well-behaved execution: different accounts, one post state each, every pair allowed, balance conserved. */
  predicate WellBehaved(pre: seq<AccountWithMetadata>, post: seq<AccountPostState>, pid: ProgramId) {
    && Distinct(Ids(pre))
    && |pre| == |post|
    && (forall i :: 0 <= i < |pre| ==> PairOk(pre[i], post[i], pid))
    && Sum(PreBalances(pre)) == Sum(PostBalances(post)) < TWO_256
  }

  /** The first of the per-account rules that a pair breaks. */
  function PairViolation(pre: AccountWithMetadata, post: AccountPostState, pid: ProgramId): Option<ValidationError> {
    var a, b, id := pre.account, post.account, pre.accountId;
    if a.nonce != b.nonce then Some(ModifiedNonce(id))
    else if a.programOwner != b.programOwner then Some(ModifiedProgramOwner(id))
    else if b.balance < a.balance && a.programOwner != pid then
      Some(UnauthorizedBalanceDecrease(id, a.programOwner, pid))
    else if a.data != b.data && a != DEFAULT_ACCOUNT && a.programOwner != pid then
      Some(UnauthorizedDataModification(id, pid))
    else if b.programOwner == DEFAULT_PROGRAM_ID && a != DEFAULT_ACCOUNT then
      Some(NonDefaultAccountWithDefaultOwner(id))
    else None
  }

  function FirstViolation(pre: seq<AccountWithMetadata>, post: seq<AccountPostState>, pid: ProgramId, i: nat): Option<ValidationError>
    requires |pre| == |post|
    decreases |pre| - i
  {
    if i >= |pre| then None
    else if PairViolation(pre[i], post[i], pid).Some? then PairViolation(pre[i], post[i], pid)
    else FirstViolation(pre, post, pid, i + 1)
  }

  /** The verdict on an execution: which rule is broken first, if any. */
  function Verdict(pre: seq<AccountWithMetadata>, post: seq<AccountPostState>, pid: ProgramId): Result<(), ValidationError> {
    if !Distinct(Ids(pre)) then Err(PreStateAccountIdsNotUnique)
    else if |pre| != |post| then Err(MismatchedPreStatePostStateLength(|pre|, |post|))
    else if FirstViolation(pre, post, pid, 0).Some? then Err(FirstViolation(pre, post, pid, 0).value)
    else
      var before, after := Sum(PreBalances(pre)), Sum(PostBalances(post));
      if before >= TWO_256 || after >= TWO_256 then Err(BalanceSumOverflow)
      else if before != after then Err(MismatchedTotalBalance(Wrap(before), Wrap(after)))
      else Ok(())
  }

  lemma {:induction false} NoViolationIffPairsOk(pre: seq<AccountWithMetadata>, post: seq<AccountPostState>, pid: ProgramId, i: nat)
    requires |pre| == |post|
    ensures FirstViolation(pre, post, pid, i).None? <==> forall k :: i <= k < |pre| ==> PairOk(pre[k], post[k], pid)
    decreases |pre| - i
  {
    if i < |pre| {
      NoViolationIffPairsOk(pre, post, pid, i + 1);
    }
  }

  /** Which rule a pair of states breaks first. */
  lemma {:induction false} PairViolationExact(pre: AccountWithMetadata, post: AccountPostState, pid: ProgramId)
    ensures var a, b, id := pre.account, post.account, pre.accountId;
            var nonce, owner := b.nonce == a.nonce, b.programOwner == a.programOwner;
            var balance := b.balance < a.balance ==> a.programOwner == pid;
            var data := b.data != a.data ==> a == DEFAULT_ACCOUNT || a.programOwner == pid;
            && (PairViolation(pre, post, pid) == Some(ModifiedNonce(id)) <==> !nonce)
            && (PairViolation(pre, post, pid) == Some(ModifiedProgramOwner(id)) <==> nonce && !owner)
            && (PairViolation(pre, post, pid) == Some(UnauthorizedBalanceDecrease(id, a.programOwner, pid)) <==> nonce && owner && !balance)
            && (PairViolation(pre, post, pid) == Some(UnauthorizedDataModification(id, pid)) <==> nonce && owner && balance && !data)
            && (PairViolation(pre, post, pid) == Some(NonDefaultAccountWithDefaultOwner(id))
                <==> nonce && owner && balance && data && !PairOk(pre, post, pid))
  {
  }

  /** The verdict on a rule about pairs is the one for the first pair that breaks one. */
  lemma {:induction false} FirstViolationAt(pre: seq<AccountWithMetadata>, post: seq<AccountPostState>, pid: ProgramId, i: nat) returns (k: nat)
    requires |pre| == |post| && FirstViolation(pre, post, pid, i).Some?
    ensures i <= k < |pre| && !PairOk(pre[k], post[k], pid) && forall j :: i <= j < k ==> PairOk(pre[j], post[j], pid)
    ensures FirstViolation(pre, post, pid, i) == PairViolation(pre[k], post[k], pid)
    decreases |pre| - i
  {
    if PairViolation(pre[i], post[i], pid).Some? {
      k := i;
    } else {
      k := FirstViolationAt(pre, post, pid, i + 1);
    }
  }

  /** The verdict is acceptance exactly for the well-behaved executions. */
  lemma {:induction false} VerdictExact(pre: seq<AccountWithMetadata>, post: seq<AccountPostState>, pid: ProgramId)
    ensures Verdict(pre, post, pid).Ok? <==> WellBehaved(pre, post, pid)
  {
    if |pre| == |post| {
      NoViolationIffPairsOk(pre, post, pid, 0);
    }
  }

  method ValidateExecution(pre: seq<AccountWithMetadata>, post: seq<AccountPostState>, pid: ProgramId)
    returns (r: Result<(), ValidationError>)
    ensures r.Ok? <==> WellBehaved(pre, post, pid)
    ensures r == Verdict(pre, post, pid)
  {
    VerdictExact(pre, post, pid);
    NUniqueIsDistinct(Ids(pre));
    if NUnique(Ids(pre)) != |pre| {
      return Err(PreStateAccountIdsNotUnique);
    }
    if |pre| != |post| {
      return Err(MismatchedPreStatePostStateLength(|pre|, |post|));
    }
    for i := 0 to |pre|
      invariant FirstViolation(pre, post, pid, 0) == FirstViolation(pre, post, pid, i)
    {
      var violation := PairViolation(pre[i], post[i], pid);
      if violation.Some? {
        return Err(violation.value);
      }
    }
    var totalPre := FromBalances(PreBalances(pre));
    if totalPre.None? {
      return Err(BalanceSumOverflow);
    }
    var totalPost := FromBalances(PostBalances(post));
    if totalPost.None? {
      return Err(BalanceSumOverflow);
    }
    WrappedEquality(totalPre.value, totalPost.value);
    WrappedEquality(totalPre.value, Wrap(totalPre.value.Value()));
    WrappedEquality(totalPost.value, Wrap(totalPost.value.Value()));
    if totalPre.value != totalPost.value {
      return Err(MismatchedTotalBalance(totalPre.value, totalPost.value));
    }
    r := Ok(());
  }
}
