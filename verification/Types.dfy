/** The values every part of a node shares: coins, transactions, blocks, and the
    cryptographic functions, which are parameters of the whole model. */
module Types {

  datatype Option<+T> = None | Some(value: T)

  const TWO_63: int := 0x8000_0000_0000_0000
  const TWO_64: int := 0x1_0000_0000_0000_0000

  /** The 64-bit signed integers in which amounts and timestamps are kept. */
  type int64 = x: int | -TWO_63 <= x < TWO_63

  /** What a 64-bit signed addition or subtraction stores when its true result is `x`. */
  function Wrap64(x: int): (w: int64)
    ensures -TWO_63 <= x < TWO_63 ==> w == x
    ensures (w - x) % TWO_64 == 0
  {
    (x + TWO_63) % TWO_64 - TWO_63
  }

  /** Wrapping after every step of a sum is wrapping the exact sum once. */
  lemma WrapAbsorbs(a: int, b: int)
    ensures Wrap64(Wrap64(a) + b) == Wrap64(a + b)
  {
  }

  datatype UTXO = UTXO(txID: string, index: int, amount: int64, address: string)

  datatype TransactionContent = TransactionContent(
    inputs: seq<UTXO>,
    outputs: seq<UTXO>,
    senderPubKey: string,
    timestamp: int64)

  datatype Transaction = Transaction(content: TransactionContent, signature: string, hash: string)

  datatype BlockHeader = BlockHeader(
    timestamp: int64,
    previousHash: string,
    contentHash: string,
    height: int,
    difficulty: string,
    nonce: int64)

  datatype Block = Block(header: BlockHeader, transactions: seq<Transaction>, hash: string)

  /** SHA-256 over JSON, ECDSA and address derivation, as arbitrary functions.
      `undefinedBig` stands for the value big.Int leaves behind when a string does
      not parse, which its documentation leaves undefined. */
  datatype Crypto = Crypto(
    keyToAddr: string -> string,
    verifySignature: (string, string, string) -> bool,
    sign: (string, string) -> Option<string>,
    hashTransaction: Transaction -> string,
    hashString: string -> string,
    hashHeader: BlockHeader -> string,
    undefinedBig: string -> int)

  /** Distinct headers have distinct, non-empty hashes. */
  ghost predicate HeaderHashesFaithful(c: Crypto) {
    && (forall h: BlockHeader :: c.hashHeader(h) != "")
    && (forall h1: BlockHeader, h2: BlockHeader :: c.hashHeader(h1) == c.hashHeader(h2) ==> h1 == h2)
  }

  /** Distinct strings have distinct hashes. */
  ghost predicate StringHashesFaithful(c: Crypto) {
    forall s1: string, s2: string :: c.hashString(s1) == c.hashString(s2) ==> s1 == s2
  }

  /** Distinct transactions have distinct hashes. */
  ghost predicate TransactionHashesFaithful(c: Crypto) {
    forall t1: Transaction, t2: Transaction :: c.hashTransaction(t1) == c.hashTransaction(t2) ==> t1 == t2
  }
}
