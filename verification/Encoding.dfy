/** The hand-written byte layouts of accounts, ciphertexts and private-account headers. */
module Encoding {
  import opened Types
  import opened Bytes

  type Parsed<T> = Option<(T, seq<u8>)>

  // ---- Pieces ----

  /** The next `n` bytes and what follows, if there are that many. */
  function Split(bs: seq<u8>, n: nat): Parsed<seq<u8>> {
    if n <= |bs| then Some((bs[..n], bs[n..])) else None
  }

  function ReadU32(bs: seq<u8>): Parsed<u32> {
    match Split(bs, 4)
    case None => None
    case Some((front, rest)) => Widths(); Some((FromLe(front), rest))
  }

  function ReadU128(bs: seq<u8>): Parsed<u128> {
    match Split(bs, 16)
    case None => None
    case Some((front, rest)) => Widths(); Some((FromLe(front), rest))
  }

  function ReadWords(bs: seq<u8>, n: nat): (r: Parsed<seq<u32>>)
    ensures r.Some? ==> |r.value.0| == n
  {
    if n == 0 then Some(([], bs))
    else
      match ReadWords(bs, n - 1)
      case None => None
      case Some((words, rest)) =>
        match ReadU32(rest)
        case None => None
        case Some((word, rest')) => Some((words + [word], rest'))
  }

  /** A reader accepts exactly the encodings, each with any suffix. */
  lemma {:induction false} U32Exact(bs: seq<u8>, n: u32, rest: seq<u8>)
    ensures ReadU32(bs) == Some((n, rest)) <==> bs == LeU32(n) + rest
  {
    Widths();
    FromLeToLe(n, 4);
    if |bs| >= 4 {
      ToLeFromLe(bs[..4]);
      assert bs == bs[..4] + bs[4..];
    }
    if bs == LeU32(n) + rest {
      assert bs[..4] == LeU32(n) && bs[4..] == rest;
    }
  }

  lemma {:induction false} U128Exact(bs: seq<u8>, n: u128, rest: seq<u8>)
    ensures ReadU128(bs) == Some((n, rest)) <==> bs == LeU128(n) + rest
  {
    Widths();
    FromLeToLe(n, 16);
    if |bs| >= 16 {
      ToLeFromLe(bs[..16]);
      assert bs == bs[..16] + bs[16..];
    }
    if bs == LeU128(n) + rest {
      assert bs[..16] == LeU128(n) && bs[16..] == rest;
    }
  }

  lemma {:induction false} WordsExact(bs: seq<u8>, words: seq<u32>, rest: seq<u8>)
    ensures ReadWords(bs, |words|) == Some((words, rest)) <==> bs == WordBytes(words) + rest
  {
    if words == [] {
      assert [] + rest == rest;
    } else {
      var k := |words| - 1;
      var front, last := words[..k], words[k];
      var tail := LeU32(last) + rest;
      WordsExact(bs, front, tail);
      U32Exact(tail, last, rest);
      assert WordBytes(words) + rest == WordBytes(front) + tail;
      assert words == front + [last];
      if ReadWords(bs, |words|) == Some((words, rest)) {
        var (words', rest') := ReadWords(bs, k).value;
        var (last', _) := ReadU32(rest').value;
        assert (words' + [last'])[..k] == words' && (words' + [last'])[k] == last';
        U32Exact(rest', last, rest);
      }
    }
  }

  // ---- Accounts ----

  /** program owner || balance || nonce || data length || data. */
  function AccountBytes(a: Account): seq<u8> {
    WordBytes(a.programOwner.words) + (LeU128(a.balance) + (LeU128(a.nonce) + (LeU32(|a.data|) + a.data)))
  }

  /** The layout of an account: eight owner words, balance, nonce and data length, all little-endian, then the data. */
  lemma {:induction false} AccountLayout(a: Account)
    ensures var bs := AccountBytes(a);
            && |bs| == 68 + |a.data| && bs[68..] == a.data
            && (forall i, j :: 0 <= i < 8 && 0 <= j < 4 ==> bs[4 * i..32][j] == a.programOwner.words[i] / Pow256(j) % 256)
            && (forall j :: 0 <= j < 16 ==> bs[32..48][j] == a.balance / Pow256(j) % 256)
            && (forall j :: 0 <= j < 16 ==> bs[48..64][j] == a.nonce / Pow256(j) % 256)
            && (forall j :: 0 <= j < 4 ==> bs[64..68][j] == |a.data| / Pow256(j) % 256)
  {
    var bs := AccountBytes(a);
    assert bs[..32] == WordBytes(a.programOwner.words) && bs[32..48] == LeU128(a.balance);
    assert bs[48..64] == LeU128(a.nonce) && bs[64..68] == LeU32(|a.data|) && bs[68..] == a.data;
    forall i, j | 0 <= i < 8 && 0 <= j < 4
      ensures bs[4 * i..32][j] == a.programOwner.words[i] / Pow256(j) % 256
    {
      WordBytesAt(a.programOwner.words, i, j);
      assert bs[4 * i..32][j] == bs[..32][4 * i + j];
    }
    Digits(a.balance, 16);
    Digits(a.nonce, 16);
    Digits(|a.data|, 4);
  }

  lemma {:induction false} Digits(n: nat, width: nat)
    ensures forall j :: 0 <= j < width ==> ToLe(n, width)[j] == n / Pow256(j) % 256
  {
    forall j | 0 <= j < width
      ensures ToLe(n, width)[j] == n / Pow256(j) % 256
    {
      ToLeAt(n, width, j);
    }
  }

  function ReadData(bs: seq<u8>): Parsed<Data> {
    match ReadU32(bs)
    case None => None
    case Some((length, rest)) =>
      if length > DATA_MAX_LENGTH then None else Split(rest, length)
  }

  function ReadAccount(bs: seq<u8>): Parsed<Account> {
    match ReadWords(bs, 8)
    case None => None
    case Some((owner, rest)) =>
      match ReadU128(rest)
      case None => None
      case Some((balance, rest)) =>
        match ReadU128(rest)
        case None => None
        case Some((nonce, rest)) =>
          match ReadData(rest)
          case None => None
          case Some((data, rest)) => Some((Account(ProgramId(owner), balance, data, nonce), rest))
  }

  lemma {:induction false} SplitExact(bs: seq<u8>, n: nat, front: seq<u8>, rest: seq<u8>)
    ensures Split(bs, n) == Some((front, rest)) <==> |front| == n && bs == front + rest
  {
    if n <= |bs| {
      assert bs == bs[..n] + bs[n..];
    }
    if |front| == n && bs == front + rest {
      assert bs[..n] == front && bs[n..] == rest;
    }
  }

  lemma {:induction false} DataExact(bs: seq<u8>, data: Data, rest: seq<u8>)
    ensures ReadData(bs) == Some((data, rest)) <==> bs == LeU32(|data|) + data + rest
  {
    var tail := data + rest;
    U32Exact(bs, |data|, tail);
    SplitExact(tail, |data|, data, rest);
    assert LeU32(|data|) + data + rest == LeU32(|data|) + tail;
    if ReadData(bs) == Some((data, rest)) {
      var (length, tail') := ReadU32(bs).value;
      SplitExact(tail', length, data, rest);
    }
  }

  /** Accounts are self-delimiting and canonical: reading accepts a byte string as an account followed by some rest
      exactly when the string is that account's encoding followed by that rest. */
  lemma {:induction false} AccountExact(bs: seq<u8>, a: Account, rest: seq<u8>)
    ensures ReadAccount(bs) == Some((a, rest)) <==> bs == AccountBytes(a) + rest
  {
    var r3 := LeU32(|a.data|) + a.data + rest;
    var r2 := LeU128(a.nonce) + r3;
    var r1 := LeU128(a.balance) + r2;
    assert AccountBytes(a) + rest == WordBytes(a.programOwner.words) + r1;
    WordsExact(bs, a.programOwner.words, r1);
    U128Exact(r1, a.balance, r2);
    U128Exact(r2, a.nonce, r3);
    DataExact(r3, a.data, rest);
    if ReadAccount(bs) == Some((a, rest)) {
      var (_, t1) := ReadWords(bs, 8).value;
      var (_, t2) := ReadU128(t1).value;
      var (_, t3) := ReadU128(t2).value;
      DataExact(t3, a.data, rest);
      U128Exact(t2, a.nonce, t3);
      U128Exact(t1, a.balance, t2);
    }
  }

  // ---- Ciphertexts ----

  /** length || bytes; defined for ciphertexts whose length fits 32 bits. */
  function CiphertextBytes(c: Ciphertext): seq<u8>
    requires |c.bytes| < 0x1_0000_0000
  {
    LeU32(|c.bytes|) + c.bytes
  }

  function ReadCiphertext(bs: seq<u8>): Parsed<Ciphertext> {
    match ReadU32(bs)
    case None => None
    case Some((length, rest)) =>
      match Split(rest, length)
      case None => None
      case Some((bytes, rest)) => Some((Ciphertext(bytes), rest))
  }

  lemma {:induction false} CiphertextLayout(c: Ciphertext)
    requires |c.bytes| < 0x1_0000_0000
    ensures var bs := CiphertextBytes(c);
            bs[4..] == c.bytes && forall j :: 0 <= j < 4 ==> bs[..4][j] == |c.bytes| / Pow256(j) % 256
  {
    assert CiphertextBytes(c)[..4] == LeU32(|c.bytes|);
    Digits(|c.bytes|, 4);
  }

  lemma {:induction false} CiphertextExact(bs: seq<u8>, c: Ciphertext, rest: seq<u8>)
    ensures ReadCiphertext(bs) == Some((c, rest)) <==> |c.bytes| < 0x1_0000_0000 && bs == CiphertextBytes(c) + rest
  {
    if ReadCiphertext(bs) == Some((c, rest)) {
      var (length, tail) := ReadU32(bs).value;
      SplitExact(tail, length, c.bytes, rest);
      U32Exact(bs, length, tail);
      assert LeU32(|c.bytes|) + (c.bytes + rest) == CiphertextBytes(c) + rest;
    }
    if |c.bytes| < 0x1_0000_0000 && bs == CiphertextBytes(c) + rest {
      var tail := c.bytes + rest;
      assert bs == LeU32(|c.bytes|) + tail;
      U32Exact(bs, |c.bytes|, tail);
      SplitExact(tail, |c.bytes|, c.bytes, rest);
    }
  }

  // ---- Private-account headers ----

  datatype PrivateAccountKind =
    | Regular(identifier: u128)
    | PrivatePda(programId: ProgramId, seed: PdaSeed, identifier: u128)

  const HEADER_LEN: nat := 81

  function KindBytes(kind: PrivateAccountKind): (bs: seq<u8>)
    ensures |bs| == if kind.Regular? then 17 else 81
  {
    match kind
    case Regular(identifier) => [0] + LeU128(identifier)
    case PrivatePda(programId, seed, identifier) => [1] + WordBytes(programId.words) + seed.bytes + LeU128(identifier)
  }

  /** The layout of a private-account kind: a tag, for a PDA the program id words and the seed, then the identifier. */
  lemma {:induction false} KindLayout(kind: PrivateAccountKind)
    ensures var bs, n := KindBytes(kind), if kind.Regular? then 1 else 65;
            && bs[0] == (if kind.Regular? then 0 else 1)
            && (forall j :: 0 <= j < 16 ==> bs[n..][j] == kind.identifier / Pow256(j) % 256)
            && (kind.PrivatePda? ==>
                  && bs[33..65] == kind.seed.bytes
                  && forall i, j :: 0 <= i < 8 && 0 <= j < 4 ==> bs[1 + 4 * i..33][j] == kind.programId.words[i] / Pow256(j) % 256)
  {
    var bs, n := KindBytes(kind), if kind.Regular? then 1 else 65;
    assert bs[n..] == LeU128(kind.identifier);
    Digits(kind.identifier, 16);
    if kind.PrivatePda? {
      assert bs[1..33] == WordBytes(kind.programId.words) && bs[33..65] == kind.seed.bytes;
      forall i, j | 0 <= i < 8 && 0 <= j < 4
        ensures bs[1 + 4 * i..33][j] == kind.programId.words[i] / Pow256(j) % 256
      {
        WordBytesAt(kind.programId.words, i, j);
        assert bs[1 + 4 * i..33][j] == bs[1..33][4 * i + j];
      }
    }
  }

  function Zeros(n: nat): seq<u8> {
    seq(n, i => 0)
  }

  /** Both kinds are padded with zeros to the same length. */
  function HeaderBytes(kind: PrivateAccountKind): (bs: seq<u8>)
    ensures |bs| == HEADER_LEN
  {
    KindBytes(kind) + Zeros(HEADER_LEN - |KindBytes(kind)|)
  }

  function ReadKind(bs: seq<u8>): Parsed<PrivateAccountKind> {
    if bs == [] then None
    else if bs[0] == 0 then
      match ReadU128(bs[1..])
      case None => None
      case Some((identifier, rest)) => Some((Regular(identifier), rest))
    else if bs[0] == 1 then
      match ReadWords(bs[1..], 8)
      case None => None
      case Some((words, rest)) =>
        match Split(rest, 32)
        case None => None
        case Some((seed, rest)) =>
          match ReadU128(rest)
          case None => None
          case Some((identifier, rest)) => Some((PrivatePda(ProgramId(words), PdaSeed(seed), identifier), rest))
    else None
  }

  function FromHeader(header: seq<u8>): Option<PrivateAccountKind> {
    match ReadKind(header)
    case None => None
    case Some((kind, _)) => Some(kind)
  }

  lemma {:induction false} Tagged(bs: seq<u8>, tag: u8, tail: seq<u8>)
    ensures bs == [tag] + tail <==> bs != [] && bs[0] == tag && bs[1..] == tail
  {
    if bs != [] {
      assert bs == [bs[0]] + bs[1..];
    }
  }

  lemma {:induction false} KindExact(bs: seq<u8>, kind: PrivateAccountKind, rest: seq<u8>)
    ensures ReadKind(bs) == Some((kind, rest)) <==> bs == KindBytes(kind) + rest
  {
    match kind
    case Regular(identifier) =>
      var tail := LeU128(identifier) + rest;
      assert KindBytes(kind) + rest == [0] + tail;
      Tagged(bs, 0, tail);
      if bs != [] {
        U128Exact(bs[1..], identifier, rest);
      }
    case PrivatePda(programId, seed, identifier) =>
      var tail := WordBytes(programId.words) + (seed.bytes + (LeU128(identifier) + rest));
      assert KindBytes(kind) + rest == [1] + tail;
      Tagged(bs, 1, tail);
      if bs != [] && bs[0] == 1 {
        Tagged(bs, 1, bs[1..]);
        PdaExact(bs[1..], kind, rest);
      }
  }

  lemma {:induction false} PdaExact(tail: seq<u8>, kind: PrivateAccountKind, rest: seq<u8>)
    requires kind.PrivatePda?
    ensures ReadKind([1] + tail) == Some((kind, rest))
       <==> tail == WordBytes(kind.programId.words) + (kind.seed.bytes + (LeU128(kind.identifier) + rest))
  {
    assert ([1] + tail)[1..] == tail;
    var r2 := LeU128(kind.identifier) + rest;
    var r1 := kind.seed.bytes + r2;
    WordsExact(tail, kind.programId.words, r1);
    SplitExact(r1, 32, kind.seed.bytes, r2);
    U128Exact(r2, kind.identifier, rest);
    if ReadKind([1] + tail) == Some((kind, rest)) {
      var (_, t1) := ReadWords(tail, 8).value;
      var (_, t2) := Split(t1, 32).value;
      SplitExact(t1, 32, kind.seed.bytes, t2);
      U128Exact(t2, kind.identifier, rest);
    }
  }

  /** Every private-account kind survives its 81-byte header. */
  lemma {:induction false} HeaderRoundTrip(kind: PrivateAccountKind)
    ensures FromHeader(HeaderBytes(kind)) == Some(kind)
  {
    KindExact(HeaderBytes(kind), kind, Zeros(HEADER_LEN - |KindBytes(kind)|));
  }

  /** A header that decodes is the canonical one exactly when what follows the decoded kind is zero. */
  lemma {:induction false} HeaderCanonical(header: seq<u8>, kind: PrivateAccountKind)
    requires |header| == HEADER_LEN && FromHeader(header) == Some(kind)
    ensures HeaderBytes(kind) == header <==> forall i :: |KindBytes(kind)| <= i < HEADER_LEN ==> header[i] == 0
  {
    var (_, rest) := ReadKind(header).value;
    KindExact(header, kind, rest);
    PaddedIff(header, KindBytes(kind), rest);
  }

  lemma {:induction false} PaddedIff(header: seq<u8>, front: seq<u8>, rest: seq<u8>)
    requires header == front + rest
    ensures front + Zeros(|header| - |front|) == header <==> forall i :: |front| <= i < |header| ==> header[i] == 0
  {
    var n, padded := |front|, front + Zeros(|header| - |front|);
    assert forall i :: n <= i < |header| ==> padded[i] == 0;
    assert forall i :: 0 <= i < n ==> padded[i] == header[i];
  }

  // ---- The implementation ----

  /** A read position in a byte buffer. */
  class Cursor {
    const data: seq<u8>
    var position: nat

    ghost predicate Valid()
      reads this
    {
      position <= |data|
    }

    constructor (data: seq<u8>)
      ensures Valid() && this.data == data && position == 0
    {
      this.data := data;
      position := 0;
    }

    function Rest(): seq<u8>
      requires Valid()
      reads this
    {
      data[position..]
    }

    method ReadExact(n: nat) returns (r: Option<seq<u8>>)
      requires Valid()
      modifies this
      ensures Valid()
      ensures match Split(old(Rest()), n)
              case None => r.None?
              case Some((front, rest)) => r == Some(front) && Rest() == rest
    {
      if position + n > |data| {
        return None;
      }
      r := Some(data[position..position + n]);
      assert Rest()[..n] == data[position..position + n] && Rest()[n..] == data[position + n..];
      position := position + n;
    }
  }

  method AccountToBytes(a: Account) returns (bytes: seq<u8>)
    ensures bytes == AccountBytes(a)
  {
    bytes := [];
    for i := 0 to 8
      invariant bytes == WordBytes(a.programOwner.words[..i])
    {
      WordBytesPrefix(a.programOwner.words, i);
      bytes := bytes + LeU32(a.programOwner.words[i]);
    }
    assert a.programOwner.words[..8] == a.programOwner.words;
    bytes := bytes + LeU128(a.balance);
    bytes := bytes + LeU128(a.nonce);
    bytes := bytes + LeU32(|a.data|);
    bytes := bytes + a.data;
    assert bytes == AccountBytes(a);
  }

  method ReadU32At(cursor: Cursor) returns (r: Option<u32>)
    requires cursor.Valid()
    modifies cursor
    ensures cursor.Valid()
    ensures match ReadU32(old(cursor.Rest()))
            case None => r.None?
            case Some((n, rest)) => r == Some(n) && cursor.Rest() == rest
  {
    var bytes := cursor.ReadExact(4);
    if bytes.None? {
      return None;
    }
    Widths();
    r := Some(FromLe(bytes.value));
  }

  method ReadU128At(cursor: Cursor) returns (r: Option<u128>)
    requires cursor.Valid()
    modifies cursor
    ensures cursor.Valid()
    ensures match ReadU128(old(cursor.Rest()))
            case None => r.None?
            case Some((n, rest)) => r == Some(n) && cursor.Rest() == rest
  {
    var bytes := cursor.ReadExact(16);
    if bytes.None? {
      return None;
    }
    Widths();
    r := Some(FromLe(bytes.value));
  }

  /** Reads an account and leaves the cursor right after it. */
  method AccountFromCursor(cursor: Cursor) returns (r: Option<Account>)
    requires cursor.Valid()
    modifies cursor
    ensures cursor.Valid()
    ensures match ReadAccount(old(cursor.Rest()))
            case None => r.None?
            case Some((a, rest)) => r == Some(a) && cursor.Rest() == rest
  {
    var words: seq<u32> := [];
    ghost var start := cursor.Rest();
    for i := 0 to 8
      invariant cursor.Valid() && |words| == i
      invariant ReadWords(start, i) == Some((words, cursor.Rest()))
    {
      var word := ReadU32At(cursor);
      if word.None? {
        ShortWords(start, i + 1, 8);
        return None;
      }
      words := words + [word.value];
    }
    var balance := ReadU128At(cursor);
    if balance.None? {
      return None;
    }
    var nonce := ReadU128At(cursor);
    if nonce.None? {
      return None;
    }
    var length := ReadU32At(cursor);
    if length.None? || length.value > DATA_MAX_LENGTH {
      return None;
    }
    var data := cursor.ReadExact(length.value);
    if data.None? {
      return None;
    }
    r := Some(Account(ProgramId(words), balance.value, data.value, nonce.value));
  }

  /** Reads a ciphertext and leaves the cursor right after it. */
  method CiphertextFromCursor(cursor: Cursor) returns (r: Option<Ciphertext>)
    requires cursor.Valid()
    modifies cursor
    ensures cursor.Valid()
    ensures match ReadCiphertext(old(cursor.Rest()))
            case None => r.None?
            case Some((c, rest)) => r == Some(c) && cursor.Rest() == rest
  {
    var length := ReadU32At(cursor);
    if length.None? {
      return None;
    }
    var bytes := cursor.ReadExact(length.value);
    if bytes.None? {
      return None;
    }
    r := Some(Ciphertext(bytes.value));
  }

  /** Copies the serialized kind over the front of a zeroed 81-byte buffer. */
  method ToHeaderBytes(kind: PrivateAccountKind) returns (bytes: array<u8>)
    ensures fresh(bytes) && bytes[..] == HeaderBytes(kind)
  {
    bytes := new u8[HEADER_LEN](i => 0);
    var serialized := KindBytes(kind);
    for i := 0 to |serialized|
      invariant bytes[..] == serialized[..i] + Zeros(HEADER_LEN - i)
    {
      bytes[i] := serialized[i];
    }
  }

  lemma {:induction false} ShortWords(bs: seq<u8>, i: nat, n: nat)
    requires i <= n && ReadWords(bs, i).None?
    ensures ReadWords(bs, n).None?
    decreases n - i
  {
    if i < n {
      ShortWords(bs, i + 1, n);
    }
  }
}
