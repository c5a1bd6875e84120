/** Transactions, their hashed text and the hash function. */
module Transactions {
  import opened Accounts
  import opened Encoding

  datatype Transaction = Transaction(
    from: Address,
    to: Address,
    amount: int,
    fee: int,
    nonce: int,
    signature: string,
    pubKey: string)
  {
    /** What the sender is debited. */
    function Cost(): int {
      amount + fee
    }
  }

  /** Signature checking is a library call: any deterministic test stands for it. */
  type Verifier = Transaction -> bool

  // ----- hashing

  /** The 32 bytes that SHA-256 produces. */
  datatype DigestValue = DigestValue(bytes: string)
  type Digest = d: DigestValue | |d.bytes| == 32 && IsBytes(d.bytes)
    witness DigestValue("00000000000000000000000000000000")

  /** Stands for SHA-256: any function from texts to digests. */
  type HashFunction = string -> Digest

  /** No two different texts among these have the same hash. */
  ghost predicate NoCollision(h: HashFunction, texts: set<string>) {
    forall s, t {:trigger s in texts, t in texts} :: s in texts && t in texts && h(s) == h(t) ==> s == t
  }

  function HexDigest(d: Digest): (r: string)
    ensures |r| == 64 && NoBar(r)
  {
    Hex(d.bytes)
  }

  lemma HexDigestInjective(d: Digest, e: Digest)
    requires HexDigest(d) == HexDigest(e)
    ensures d == e
  {
    HexInjective(d.bytes, e.bytes);
  }

  // ----- the hashed text of a transaction

  /** The five fields that are hashed; `fee` and `pubKey` are not. */
  datatype HashedFields = HashedFields(from: Address, to: Address, amount: int, nonce: int, signature: string)

  function FieldsOf(tx: Transaction): HashedFields {
    HashedFields(tx.from, tx.to, tx.amount, tx.nonce, tx.signature)
  }

  /** Equal in everything but `fee` and `pubKey`. */
  predicate SameHashedFields(a: Transaction, b: Transaction) {
    FieldsOf(a) == FieldsOf(b)
  }

  function TxText(tx: Transaction): string {
    Field(tx.from.text, Field(tx.to.text, Field(Signed(tx.amount), Field(Signed(tx.nonce), tx.signature))))
  }

  function TxDigest(h: HashFunction, tx: Transaction): Digest {
    h(TxText(tx))
  }

  function TxHash(h: HashFunction, tx: Transaction): string {
    HexDigest(TxDigest(h, tx))
  }

  function ParseTx(s: string): HashedFields {
    var (from, s1) := Cut(s);
    var (to, s2) := Cut(s1);
    var (amount, s3) := Cut(s2);
    var (nonce, signature) := Cut(s3);
    HashedFields(Address(from), Address(to), ParseSigned(amount), ParseSigned(nonce), signature)
  }

  /** The addresses can be told apart from the separators around them. */
  predicate PlainAddresses(tx: Transaction) {
    NoBar(tx.from.text) && NoBar(tx.to.text)
  }

  lemma ParseTxInvertsTxText(tx: Transaction)
    requires PlainAddresses(tx)
    ensures ParseTx(TxText(tx)) == FieldsOf(tx)
  {
    var s3 := Field(Signed(tx.nonce), tx.signature);
    var s2 := Field(Signed(tx.amount), s3);
    CutInvertsField(tx.from.text, Field(tx.to.text, s2));
    CutInvertsField(tx.to.text, s2);
    CutInvertsField(Signed(tx.amount), s3);
    CutInvertsField(Signed(tx.nonce), tx.signature);
    ParseSignedInvertsSigned(tx.amount);
    ParseSignedInvertsSigned(tx.nonce);
  }

  /** Equal hashed texts mean equal hashed fields. */
  lemma TxTextInjective(a: Transaction, b: Transaction)
    requires PlainAddresses(a) && PlainAddresses(b)
    ensures TxText(a) == TxText(b) <==> SameHashedFields(a, b)
  {
    ParseTxInvertsTxText(a);
    ParseTxInvertsTxText(b);
  }

  lemma BarsOfTxText(tx: Transaction)
    ensures Bars(TxText(tx)) == Bars(tx.from.text) + Bars(tx.to.text) + Bars(tx.signature) + 4
  {
    var s3 := Field(Signed(tx.nonce), tx.signature);
    var s2 := Field(Signed(tx.amount), s3);
    BarsOfField(tx.from.text, Field(tx.to.text, s2));
    BarsOfField(tx.to.text, s2);
    BarsOfField(Signed(tx.amount), s3);
    BarsOfField(Signed(tx.nonce), tx.signature);
    NoBarIffNoBars(Signed(tx.amount));
    NoBarIffNoBars(Signed(tx.nonce));
  }

  /** A text with just its own separators comes from plain addresses. */
  lemma SameTextIsPlain(a: Transaction, b: Transaction)
    requires PlainAddresses(a) && NoBar(a.signature) && TxText(a) == TxText(b)
    ensures PlainAddresses(b)
  {
    BarsOfTxText(a);
    BarsOfTxText(b);
    NoBarIffNoBars(a.from.text);
    NoBarIffNoBars(a.to.text);
    NoBarIffNoBars(a.signature);
    NoBarIffNoBars(b.from.text);
    NoBarIffNoBars(b.to.text);
  }

  lemma FieldAssociates(first: string, second: string, rest: string)
    ensures Field(Field(first, second), rest) == Field(first, Field(second, rest))
  {
  }

  /** With a separator inside an address the text is ambiguous: a transfer between
      other parties, the same in everything else, shares it. */
  lemma TxTextAmbiguousWithBar(a: Transaction) returns (b: Transaction)
    requires !PlainAddresses(a)
    ensures TxText(a) == TxText(b) && a.from != b.from && a.to != b.to
    ensures b == a.(from := b.from, to := b.to)
  {
    var rest := Field(Signed(a.amount), Field(Signed(a.nonce), a.signature));
    if !NoBar(a.from.text) {
      var first, second := SplitAtBar(a.from.text);
      b := a.(from := Address(first), to := Address(Field(second, a.to.text)));
      FieldAssociates(first, second, Field(a.to.text, rest));
      FieldAssociates(second, a.to.text, rest);
      assert |first| < |a.from.text| && |a.to.text| < |b.to.text|;
    } else {
      var first, second := SplitAtBar(a.to.text);
      b := a.(from := Address(Field(a.from.text, first)), to := Address(second));
      FieldAssociates(first, second, rest);
      FieldAssociates(a.from.text, first, Field(second, rest));
      assert |a.from.text| < |b.from.text| && |second| < |a.to.text|;
    }
  }

  /** Among all transactions, the text says which one was hashed. */
  ghost predicate TextDetermines(a: Transaction) {
    forall b {:trigger TxText(b)} :: TxText(b) == TxText(a) ==> SameHashedFields(a, b)
  }

  /** Exactly when the text determines the hashed fields: when no address holds a
      separator (a signature in hexadecimal never does). */
  lemma TextDeterminesIffPlain(a: Transaction)
    requires NoBar(a.signature)
    ensures TextDetermines(a) <==> PlainAddresses(a)
  {
    if PlainAddresses(a) {
      forall b {:trigger TxText(b)} | TxText(b) == TxText(a) ensures SameHashedFields(a, b) {
        SameTextIsPlain(a, b);
        TxTextInjective(a, b);
      }
    } else {
      var b := TxTextAmbiguousWithBar(a);
      assert !SameHashedFields(a, b);
    }
  }

  lemma TxHashInjective(h: HashFunction, a: Transaction, b: Transaction)
    requires PlainAddresses(a) && PlainAddresses(b)
    requires NoCollision(h, {TxText(a), TxText(b)})
    ensures TxHash(h, a) == TxHash(h, b) <==> SameHashedFields(a, b)
  {
    if TxHash(h, a) == TxHash(h, b) {
      HexDigestInjective(h(TxText(a)), h(TxText(b)));
    }
    assert TxHash(h, a) == TxHash(h, b) <==> TxText(a) == TxText(b);
    TxTextInjective(a, b);
  }
}
