/** The values the execution zone works on: fixed-width integers, identifiers, accounts,
    program inputs and outputs, and the errors a transaction can be rejected with. */
module Types {

  datatype Option<+T> = None | Some(value: T)

  datatype Result<+T, +E> = Ok(value: T) | Err(error: E)

  const TWO_64: nat := 0x1_0000_0000_0000_0000
  const TWO_128: nat := 0x1_0000_0000_0000_0000_0000_0000_0000_0000
  const TWO_256: nat := TWO_128 * TWO_128

  type u8 = x: int | 0 <= x < 0x100
  type u32 = x: int | 0 <= x < 0x1_0000_0000
  type u64 = x: int | 0 <= x < TWO_64
  type u128 = x: int | 0 <= x < TWO_128

  type Bytes32 = s: seq<u8> | |s| == 32 witness seq(32, i => 0)
  type Words8 = s: seq<u32> | |s| == 8 witness seq(8, i => 0)

  datatype ProgramId = ProgramId(words: Words8)
  datatype AccountId = AccountId(bytes: Bytes32)
  datatype PdaSeed = PdaSeed(bytes: Bytes32)
  datatype Commitment = Commitment(bytes: Bytes32)
  datatype Nullifier = Nullifier(bytes: Bytes32)
  datatype Digest = Digest(bytes: Bytes32)

  const DEFAULT_PROGRAM_ID: ProgramId := ProgramId([0, 0, 0, 0, 0, 0, 0, 0])

  /** Account data is at most 100 KiB. */
  const DATA_MAX_LENGTH: nat := 102400
  type Data = s: seq<u8> | |s| <= DATA_MAX_LENGTH

  datatype Account = Account(programOwner: ProgramId, balance: u128, data: Data, nonce: u128)

  const DEFAULT_ACCOUNT: Account := Account(DEFAULT_PROGRAM_ID, 0, [], 0)

  datatype AccountWithMetadata = AccountWithMetadata(account: Account, isAuthorized: bool, accountId: AccountId)

  datatype Claim = Authorized | Pda(seed: PdaSeed)

  datatype AccountPostState = AccountPostState(account: Account, claim: Option<Claim>)

  /** Half-open window `[from, to)`; a missing bound does not constrain. */
  datatype ValidityWindow = ValidityWindow(from: Option<u64>, to: Option<u64>) {
    predicate IsValidFor(value: u64) {
      (from.Some? ==> from.value <= value) && (to.Some? ==> value < to.value)
    }
  }

  /** Windows include their start and not their end, so that adjacent ones divide a longer one without overlap. */
  lemma AdjacentWindows(a: u64, b: u64, c: u64, value: u64)
    requires a < b < c
    ensures ValidityWindow(Some(a), Some(b)).IsValidFor(a) && !ValidityWindow(Some(a), Some(b)).IsValidFor(b)
    ensures ValidityWindow(Some(a), Some(c)).IsValidFor(value)
       <==> ValidityWindow(Some(a), Some(b)).IsValidFor(value) != ValidityWindow(Some(b), Some(c)).IsValidFor(value)
    ensures ValidityWindow(None, Some(b)).IsValidFor(value) != ValidityWindow(Some(b), None).IsValidFor(value)
    ensures ValidityWindow(None, None).IsValidFor(value)
  {
  }

  datatype ChainedCall = ChainedCall(
    programId: ProgramId,
    preStates: seq<AccountWithMetadata>,
    instructionData: seq<u32>,
    pdaSeeds: seq<PdaSeed>)

  datatype ProgramOutput = ProgramOutput(
    selfProgramId: ProgramId,
    callerProgramId: Option<ProgramId>,
    instructionData: seq<u32>,
    preStates: seq<AccountWithMetadata>,
    postStates: seq<AccountPostState>,
    chainedCalls: seq<ChainedCall>,
    blockWindow: ValidityWindow,
    timestampWindow: ValidityWindow)

  datatype Program = Program(id: ProgramId, elf: seq<u8>)

  datatype PublicKey = PublicKey(bytes: Bytes32)
  datatype Signature = Signature(bytes: seq<u8>)
  datatype Proof = Proof(bytes: seq<u8>)
  datatype Ciphertext = Ciphertext(bytes: seq<u8>)

  datatype PublicMessage = PublicMessage(
    programId: ProgramId,
    accountIds: seq<AccountId>,
    nonces: seq<u128>,
    instructionData: seq<u32>)

  datatype PublicTransaction = PublicTransaction(
    message: PublicMessage,
    witnesses: seq<(Signature, PublicKey)>)

  datatype PrivateMessage = PrivateMessage(
    publicAccountIds: seq<AccountId>,
    nonces: seq<u128>,
    publicPostStates: seq<Account>,
    ciphertexts: seq<Ciphertext>,
    newCommitments: seq<Commitment>,
    newNullifiers: seq<(Nullifier, Digest)>,
    blockWindow: ValidityWindow,
    timestampWindow: ValidityWindow)

  datatype PrivateTransaction = PrivateTransaction(
    message: PrivateMessage,
    witnesses: seq<(Signature, PublicKey)>,
    proof: Proof)

  datatype DeploymentTransaction = DeploymentTransaction(bytecode: seq<u8>)

  /** The public values a privacy-preserving proof is checked against. */
  datatype CircuitOutput = CircuitOutput(
    publicPreStates: seq<AccountWithMetadata>,
    publicPostStates: seq<Account>,
    ciphertexts: seq<Ciphertext>,
    newCommitments: seq<Commitment>,
    newNullifiers: seq<(Nullifier, Digest)>,
    blockWindow: ValidityWindow,
    timestampWindow: ValidityWindow)

  /** A balance total in two 128-bit limbs, the low one first. */
  datatype WrappedBalanceSum = WrappedBalanceSum(lo: u128, hi: u128) {
    function Value(): nat {
      lo + hi * TWO_128
    }
  }

  datatype ValidationError =
    | PreStateAccountIdsNotUnique
    | MismatchedPreStatePostStateLength(preLength: nat, postLength: nat)
    | ModifiedNonce(accountId: AccountId)
    | ModifiedProgramOwner(accountId: AccountId)
    | UnauthorizedBalanceDecrease(accountId: AccountId, owner: ProgramId, executing: ProgramId)
    | UnauthorizedDataModification(accountId: AccountId, executing: ProgramId)
    | NonDefaultAccountWithDefaultOwner(accountId: AccountId)
    | BalanceSumOverflow
    | MismatchedTotalBalance(pre: WrappedBalanceSum, post: WrappedBalanceSum)

  datatype BehaviorError =
    | InconsistentAccountPreState(accountId: AccountId, expected: Account, actual: Account)
    | InvalidAccountAuthorization(accountId: AccountId)
    | MismatchedProgramId(expectedId: ProgramId, actualId: ProgramId)
    | MismatchedCallerProgramId(expectedCaller: Option<ProgramId>, actualCaller: Option<ProgramId>)
    | ExecutionValidationFailed(validation: ValidationError)
    | ClaimedNonDefaultAccount(accountId: AccountId)
    | ClaimedUnauthorizedAccount(accountId: AccountId)
    | MismatchedPdaClaim(expectedPda: AccountId, actualPda: AccountId)
    | DefaultAccountModifiedWithoutClaim

  datatype InputError =
    | DuplicateAccountIds
    | DuplicateNullifiers
    | DuplicateCommitments
    | NonceCountMismatch
    | InvalidSignature
    | NonceMismatch
    | UnknownProgram
    | EmptyCommitmentsAndNullifiers
    | CommitmentAlreadySeen
    | NullifierAlreadySeen
    | UnrecognizedDigest
    | RestrictedFaucetProgram
    | ModifiesClockAccounts

  datatype NssaError =
    | InvalidInput(input: InputError)
    | InvalidProgramBehavior(behavior: BehaviorError)
    | ProgramExecutionFailed(reason: string)
    | InvalidProgramBytecode
    | ProgramAlreadyExists
    | MaxChainedCallsDepthExceeded
    | OutOfValidityWindow
    | InvalidPrivacyPreservingProof

  /** Everything the zone calls into but does not define: SHA-256, the program executor, signature
      and proof verification, image-id computation, instruction serialization and the identities of
      the built-in programs. No assumption is made about any of them except where a lemma's
      `requires` names one. */
  datatype World = World(
    sha: seq<u8> -> Digest,
    execute: (Program, Option<ProgramId>, seq<AccountWithMetadata>, seq<u32>) -> Result<ProgramOutput, NssaError>,
    publicSignatureValid: (Signature, PublicMessage, PublicKey) -> bool,
    privateSignatureValid: (Signature, PrivateMessage, PublicKey) -> bool,
    proofValid: (Proof, CircuitOutput) -> bool,
    newProgram: seq<u8> -> Option<Program>,
    serializeTimestamp: u64 -> seq<u32>,
    clockProgram: Program,
    transferProgram: Program,
    faucetProgram: Program,
    otherPrograms: seq<Program>)

  predicate Distinct<T(==)>(xs: seq<T>) {
    forall i, j :: 0 <= i < j < |xs| ==> xs[i] != xs[j]
  }

  function Firsts<A, B>(pairs: seq<(A, B)>): (firsts: seq<A>)
    ensures |firsts| == |pairs|
  {
    seq(|pairs|, i requires 0 <= i < |pairs| => pairs[i].0)
  }

  /** Number of different elements, as the length of the hash set collected from `xs`. */
  function NUnique<T(==)>(xs: seq<T>): nat {
    |set x | x in xs|
  }

  /** The set-length test used for account ids, nullifiers and commitments is exactly pairwise distinctness. */
  lemma {:induction false} NUniqueIsDistinct<T>(xs: seq<T>)
    ensures NUnique(xs) <= |xs|
    ensures NUnique(xs) == |xs| <==> Distinct(xs)
  {
    var all := set x | x in xs;
    if xs == [] {
      assert all == {};
    } else {
      var last, front := xs[|xs| - 1], xs[..|xs| - 1];
      var rest := set x | x in front;
      assert xs == front + [last];
      assert all == rest + {last};
      NUniqueIsDistinct(front);
      if last in front {
        assert rest + {last} == rest;
        var i :| 0 <= i < |front| && front[i] == last;
        assert xs[i] == xs[|xs| - 1];
      } else {
        assert |all| == |rest| + 1;
        assert forall i :: 0 <= i < |front| ==> xs[i] == front[i];
      }
    }
  }
}
