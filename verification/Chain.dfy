/** Blocks, the hash-linked chain, and how much of it the tip hash fixes. */
module Chain {
  import opened Encoding
  import opened Transactions
  import opened Merkle

  datatype Block = Block(
    index: int,
    timestamp: int,
    prevHash: string,
    hash: string,
    merkleRoot: string,
    proposer: string,
    transactions: seq<Transaction>)

  /** The fields of a block that its hash is computed from. */
  datatype Header = Header(index: int, timestamp: int, prevHash: string, merkleRoot: string, proposer: string)

  function HeaderOf(b: Block): Header {
    Header(b.index, b.timestamp, b.prevHash, b.merkleRoot, b.proposer)
  }

  function HeaderText(b: Header): string {
    Field(Signed(b.index), Field(Signed(b.timestamp), Field(b.prevHash, Field(b.merkleRoot, b.proposer))))
  }

  function ParseHeader(s: string): Header {
    var (index, s1) := Cut(s);
    var (timestamp, s2) := Cut(s1);
    var (prevHash, s3) := Cut(s2);
    var (merkleRoot, proposer) := Cut(s3);
    Header(ParseSigned(index), ParseSigned(timestamp), prevHash, merkleRoot, proposer)
  }

  lemma ParseHeaderInvertsHeaderText(b: Header)
    requires NoBar(b.prevHash) && NoBar(b.merkleRoot)
    ensures ParseHeader(HeaderText(b)) == b
  {
    var s3 := Field(b.merkleRoot, b.proposer);
    var s2 := Field(b.prevHash, s3);
    CutInvertsField(Signed(b.index), Field(Signed(b.timestamp), s2));
    CutInvertsField(Signed(b.timestamp), s2);
    CutInvertsField(b.prevHash, s3);
    CutInvertsField(b.merkleRoot, b.proposer);
    ParseSignedInvertsSigned(b.index);
    ParseSignedInvertsSigned(b.timestamp);
  }

  function HashBlockHeader(h: HashFunction, b: Header): string {
    HexDigest(h(HeaderText(b)))
  }

  /** `proposer` is empty when no wallet is given, as everywhere in the ledger. */
  function NewBlock(h: HashFunction, index: int, txs: seq<Transaction>, prevHash: string, proposer: string,
      timestamp: int): Block {
    var root := MerkleRoot(h, txs);
    Block(index, timestamp, prevHash, HashBlockHeader(h, Header(index, timestamp, prevHash, root, proposer)),
      root, proposer, txs)
  }

  function Genesis(h: HashFunction, timestamp: int): Block {
    NewBlock(h, 0, [], "0", "", timestamp)
  }

  /** The chain that a new block is put on: an empty chain gets a genesis block first. */
  function Based(h: HashFunction, chain: seq<Block>, timestamp: int): (r: seq<Block>)
    ensures r != []
  {
    if chain == [] then [Genesis(h, timestamp)] else chain
  }

  /** The chain with a block for the batch; `genesisTime` is read only for an empty chain. */
  function Appended(h: HashFunction, chain: seq<Block>, txs: seq<Transaction>, genesisTime: int,
      timestamp: int): seq<Block> {
    var base := Based(h, chain, genesisTime);
    base + [NewBlock(h, |base|, txs, base[|base| - 1].hash, "", timestamp)]
  }

  /** All transactions of the chain, in order. */
  function ChainTxs(chain: seq<Block>): seq<Transaction> {
    if chain == [] then [] else ChainTxs(chain[..|chain| - 1]) + chain[|chain| - 1].transactions
  }

  lemma ChainTxsOfAppended(h: HashFunction, chain: seq<Block>, txs: seq<Transaction>, genesisTime: int, timestamp: int)
    ensures ChainTxs(Appended(h, chain, txs, genesisTime, timestamp)) == ChainTxs(chain) + txs
  {
    var base := Based(h, chain, genesisTime);
    var r := Appended(h, chain, txs, genesisTime, timestamp);
    assert r[..|r| - 1] == base;
    if chain == [] {
      assert base[..0] == [];
    }
  }

  /** The new block, field by field: its own clock reading, no proposer, the batch, a link to
      the block before. Older blocks stay; only an empty chain gets a genesis block, with the
      other clock reading and nothing in it. */
  lemma AppendedBlock(h: HashFunction, chain: seq<Block>, txs: seq<Transaction>, genesisTime: int, timestamp: int)
    ensures var r := Appended(h, chain, txs, genesisTime, timestamp);
      var last := r[|r| - 1];
      && |r| == (if chain == [] then 2 else |chain| + 1) && chain <= r
      && last.timestamp == timestamp && last.proposer == "" && last.transactions == txs
      && last.index == |r| - 1 && last.prevHash == r[|r| - 2].hash
      && (chain == [] ==>
            && r[0].timestamp == genesisTime && r[0].index == 0 && r[0].prevHash == "0"
            && r[0].proposer == "" && r[0].transactions == [] && r[0].merkleRoot == "")
  {
  }

  // ----- chain validity

  /** Root and hash of the block match its contents. */
  ghost predicate Sealed(h: HashFunction, b: Block) {
    b.merkleRoot == MerkleRoot(h, b.transactions) && b.hash == HashBlockHeader(h, HeaderOf(b))
  }

  /** Index, link, root and hash of the block at position i are what they should be. */
  ghost predicate ValidBlock(h: HashFunction, chain: seq<Block>, i: nat)
    requires i < |chain|
  {
    var b := chain[i];
    && b.index == i
    && b.prevHash == (if i == 0 then "0" else chain[i - 1].hash)
    && Sealed(h, b)
  }

  ghost predicate ValidChain(h: HashFunction, chain: seq<Block>) {
    forall i | 0 <= i < |chain| :: ValidBlock(h, chain, i)
  }

  lemma AppendedIsValid(h: HashFunction, chain: seq<Block>, txs: seq<Transaction>, genesisTime: int, timestamp: int)
    requires ValidChain(h, chain)
    ensures ValidChain(h, Appended(h, chain, txs, genesisTime, timestamp))
  {
    var base := Based(h, chain, genesisTime);
    var r := Appended(h, chain, txs, genesisTime, timestamp);
    forall i | 0 <= i < |r| ensures ValidBlock(h, r, i) {
      if i < |base| {
        assert ValidBlock(h, base, i);
        assert r[i] == base[i];
      }
    }
  }

  // ----- the tip hash fixes the chain

  /** Every text that was hashed to build a block. */
  ghost function BlockTexts(h: HashFunction, b: Block): set<string> {
    HashedTexts(h, b.transactions) + {HeaderText(HeaderOf(b))}
  }

  /** Every text that was hashed to build the chain. */
  ghost function ChainTexts(h: HashFunction, chain: seq<Block>): set<string> {
    if chain == [] then {}
    else
      ChainTexts(h, chain[..|chain| - 1]) + BlockTexts(h, chain[|chain| - 1])
  }

  /** What the executor guarantees of the batches it hands to the chain, given
      addresses without separators (signatures are 64 bytes, written in hexadecimal). */
  ghost predicate ExecutedBatch(txs: seq<Transaction>) {
    && AllPlain(txs)
    && DistinctSenderNonce(txs)
    && forall i | 0 <= i < |txs| :: |txs[i].signature| == 128
  }

  ghost predicate ExecutedBatches(chain: seq<Block>) {
    forall i | 0 <= i < |chain| :: ExecutedBatch(chain[i].transactions)
  }

  lemma SignedTextsAreLong(txs: seq<Transaction>)
    requires forall i | 0 <= i < |txs| :: |txs[i].signature| == 128
    ensures LongTexts(txs)
  {
  }

  /** The same block, up to the transaction fields that are not hashed. */
  ghost predicate SameBlock(a: Block, b: Block) {
    HeaderOf(a) == HeaderOf(b) && a.hash == b.hash && SameBatch(a.transactions, b.transactions)
  }

  /** The previous hash is "0" or another block's hash: it has no separator. */
  ghost predicate PlainLink(b: Block) {
    NoBar(b.prevHash)
  }

  lemma LinksArePlain(h: HashFunction, chain: seq<Block>, i: nat)
    requires ValidChain(h, chain) && i < |chain|
    ensures PlainLink(chain[i])
  {
    assert ValidBlock(h, chain, i);
    if i > 0 {
      assert ValidBlock(h, chain, i - 1);
    }
  }

  /** Equal block hashes mean equal headers and equal batches. */
  lemma EqualHashSameBlock(h: HashFunction, a: Block, b: Block)
    requires Sealed(h, a) && Sealed(h, b) && PlainLink(a) && PlainLink(b)
    requires ExecutedBatch(a.transactions) && ExecutedBatch(b.transactions)
    requires NoCollision(h, BlockTexts(h, a) + BlockTexts(h, b))
    requires a.hash == b.hash
    ensures SameBlock(a, b)
  {
    var ha, hb := HeaderOf(a), HeaderOf(b);
    HexDigestInjective(h(HeaderText(ha)), h(HeaderText(hb)));
    ParseHeaderInvertsHeaderText(ha);
    ParseHeaderInvertsHeaderText(hb);
    SignedTextsAreLong(a.transactions);
    SignedTextsAreLong(b.transactions);
    MerkleBinding(h, a.transactions, b.transactions);
  }

  /** Both chains end in a block with the same hash. */
  ghost predicate SameTip(a: seq<Block>, b: seq<Block>) {
    a != [] && b != [] && a[|a| - 1].hash == b[|b| - 1].hash
  }

  /** The same chain, up to the transaction fields that are not hashed. */
  ghost predicate SameChain(a: seq<Block>, b: seq<Block>) {
    |a| == |b| && forall i | 0 <= i < |a| :: SameBlock(a[i], b[i])
  }

  lemma SameLastSameLength(h: HashFunction, a: seq<Block>, b: seq<Block>)
    requires a != [] && b != [] && ValidChain(h, a) && ValidChain(h, b)
    requires HeaderOf(a[|a| - 1]) == HeaderOf(b[|b| - 1])
    ensures |a| == |b|
    ensures |a| > 1 ==> a[|a| - 2].hash == b[|a| - 2].hash
  {
    assert ValidBlock(h, a, |a| - 1) && ValidBlock(h, b, |b| - 1);
  }

  lemma SubsetHasNoCollision(h: HashFunction, texts: set<string>, some: set<string>)
    requires NoCollision(h, texts) && some <= texts
    ensures NoCollision(h, some)
  {
  }

  lemma LastBlocksHaveNoCollision(h: HashFunction, a: seq<Block>, b: seq<Block>)
    requires a != [] && b != [] && NoCollision(h, ChainTexts(h, a) + ChainTexts(h, b))
    ensures NoCollision(h, BlockTexts(h, a[|a| - 1]) + BlockTexts(h, b[|b| - 1]))
  {
    SubsetHasNoCollision(h, ChainTexts(h, a) + ChainTexts(h, b),
      BlockTexts(h, a[|a| - 1]) + BlockTexts(h, b[|b| - 1]));
  }

  lemma LastBlocksAgree(h: HashFunction, a: seq<Block>, b: seq<Block>)
    requires a != [] && b != [] && ValidChain(h, a) && ValidChain(h, b)
    requires ExecutedBatches(a) && ExecutedBatches(b)
    requires NoCollision(h, BlockTexts(h, a[|a| - 1]) + BlockTexts(h, b[|b| - 1]))
    requires a[|a| - 1].hash == b[|b| - 1].hash
    ensures SameBlock(a[|a| - 1], b[|b| - 1])
  {
    var m, n := |a| - 1, |b| - 1;
    LinksArePlain(h, a, m);
    LinksArePlain(h, b, n);
    assert ValidBlock(h, a, m) && ValidBlock(h, b, n);
    EqualHashSameBlock(h, a[m], b[n]);
  }

  lemma PrefixesHaveNoCollision(h: HashFunction, a: seq<Block>, b: seq<Block>)
    requires a != [] && b != [] && NoCollision(h, ChainTexts(h, a) + ChainTexts(h, b))
    ensures NoCollision(h, ChainTexts(h, a[..|a| - 1]) + ChainTexts(h, b[..|b| - 1]))
  {
    SubsetHasNoCollision(h, ChainTexts(h, a) + ChainTexts(h, b),
      ChainTexts(h, a[..|a| - 1]) + ChainTexts(h, b[..|b| - 1]));
  }

  /** Two chains of executed batches with the same tip hash are the same chain,
      unless the hash collides on one of the texts at hand. */
  lemma {:induction false} TipHashFixesChain(h: HashFunction, a: seq<Block>, b: seq<Block>)
    requires SameTip(a, b) && ValidChain(h, a) && ValidChain(h, b)
    requires ExecutedBatches(a) && ExecutedBatches(b)
    requires NoCollision(h, ChainTexts(h, a) + ChainTexts(h, b))
    ensures SameChain(a, b)
    decreases |a|
  {
    LastBlocksHaveNoCollision(h, a, b);
    LastBlocksAgree(h, a, b);
    SameLastSameLength(h, a, b);
    var n := |a| - 1;
    if n > 0 {
      PrefixesHaveNoCollision(h, a, b);
      PrefixIsValid(h, a, n);
      PrefixIsValid(h, b, n);
      TipHashFixesChain(h, a[..n], b[..n]);
    }
    SameChainExtended(a, b);
  }

  lemma SameChainExtended(a: seq<Block>, b: seq<Block>)
    requires a != [] && |a| == |b| && SameBlock(a[|a| - 1], b[|b| - 1])
    requires SameChain(a[..|a| - 1], b[..|a| - 1])
    ensures SameChain(a, b)
  {
    forall i | 0 <= i < |a| - 1 ensures SameBlock(a[i], b[i]) {
      assert SameBlock(a[..|a| - 1][i], b[..|a| - 1][i]);
    }
  }

  lemma PrefixIsValid(h: HashFunction, chain: seq<Block>, n: nat)
    requires ValidChain(h, chain) && n <= |chain|
    ensures ValidChain(h, chain[..n])
  {
    forall i | 0 <= i < n ensures ValidBlock(h, chain[..n], i) {
      assert ValidBlock(h, chain, i);
    }
  }

  /** Batches of one transaction each, with one text, hash alike on any chain. */
  lemma SameTextSameTip(h: HashFunction, chain: seq<Block>, a: Transaction, b: Transaction, genesisTime: int,
      timestamp: int)
    requires TxText(a) == TxText(b)
    ensures var x, y := Appended(h, chain, [a], genesisTime, timestamp),
      Appended(h, chain, [b], genesisTime, timestamp);
      && SameTip(x, y) && ChainTexts(h, x) == ChainTexts(h, y)
      && (SameChain(x, y) ==> SameHashedFields(a, b))
  {
    var x, y := Appended(h, chain, [a], genesisTime, timestamp), Appended(h, chain, [b], genesisTime, timestamp);
    var base := Based(h, chain, genesisTime);
    assert Leaves(h, [a]) == Leaves(h, [b]);
    assert x[..|x| - 1] == base == y[..|y| - 1];
    assert HashedTexts(h, [a]) == HashedTexts(h, [b]) by {
      assert forall t: Transaction :: (set i | 0 <= i < |[t]| :: TxText([t][i])) == {TxText(t)} by {
        forall t: Transaction ensures (set i | 0 <= i < |[t]| :: TxText([t][i])) == {TxText(t)} {
          assert [t][0] == t;
        }
      }
    }
    if SameChain(x, y) {
      assert SameBlock(x[|base|], y[|base|]);
      assert SameHashedFields([a][0], [b][0]);
    }
  }
}
