/** The Merkle root of a batch: the level-by-level loop of the ledger, the shape
    of the tree it builds, and what an equal root says about the leaves. */
module Merkle {
  import opened Arithmetic
  import opened Encoding
  import opened Transactions

  // ----- trees over any kind of node; `join` makes the parent of two nodes

  /** The right partner in the i-th pair of n nodes; an odd last node is its own. */
  function Partner(n: nat, i: nat): (j: nat)
    requires 2 * i < n
    ensures j < n
  {
    if 2 * i + 1 < n then 2 * i + 1 else 2 * i
  }

  /** One round of pairwise joining. */
  function Level<T>(join: (T, T) -> T, nodes: seq<T>): (next: seq<T>)
    ensures |next| == (|nodes| + 1) / 2
  {
    seq((|nodes| + 1) / 2, i requires 0 <= i < (|nodes| + 1) / 2 =>
      join(nodes[2 * i], nodes[Partner(|nodes|, i)]))
  }

  lemma LevelAt<T>(join: (T, T) -> T, nodes: seq<T>, i: nat)
    requires 2 * i < |nodes|
    ensures Level(join, nodes)[i] == join(nodes[2 * i], nodes[Partner(|nodes|, i)])
  {
  }

  function Root<T>(join: (T, T) -> T, nodes: seq<T>): T
    requires nodes != []
    decreases |nodes|
  {
    if |nodes| == 1 then nodes[0] else Root(join, Level(join, nodes))
  }

  function Pow2(k: nat): (p: nat)
    ensures p > 0
  {
    if k == 0 then 1 else 2 * Pow2(k - 1)
  }

  /** The number of levels above n leaves. */
  function Height(n: nat): nat {
    if n <= 1 then 0 else 1 + Height((n + 1) / 2)
  }

  /** Height is the logarithm of n, rounded up. */
  lemma {:induction false} HeightIsCeilLog(n: nat)
    requires n > 0
    ensures n <= Pow2(Height(n))
    ensures n > 1 ==> Pow2(Height(n) - 1) < n
  {
    if n > 1 {
      HeightIsCeilLog((n + 1) / 2);
    }
  }

  /** Which of n leaves stands at position i of the bottom row. */
  function Origin(n: nat, i: nat): (j: nat)
    requires n > 0 && i < Pow2(Height(n))
    ensures j < n && j <= i
    ensures i < n ==> j == i
  {
    if n == 1 then 0
    else
      var j := 2 * Origin((n + 1) / 2, i / 2) + i % 2;
      if j < n then j else n - 1
  }

  /** The bottom row: the leaves in order, followed by copies of earlier ones. */
  function Padded<T>(leaves: seq<T>): (row: seq<T>)
    requires leaves != []
    ensures |row| == Pow2(Height(|leaves|)) >= |leaves|
  {
    HeightIsCeilLog(|leaves|);
    seq(Pow2(Height(|leaves|)), i requires 0 <= i < Pow2(Height(|leaves|)) => leaves[Origin(|leaves|, i)])
  }

  /** The row starts with the leaves, in order; every later entry copies an earlier one. */
  lemma PaddedRow<T>(leaves: seq<T>)
    requires leaves != []
    ensures Padded(leaves)[..|leaves|] == leaves
    ensures forall i | |leaves| <= i < |Padded(leaves)| ::
      Origin(|leaves|, i) < i && Padded(leaves)[i] == Padded(leaves)[Origin(|leaves|, i)]
  {
  }

  /** The perfect binary tree, defined from the top: the root joins the roots
      of the two halves. */
  function PerfectRoot<T>(join: (T, T) -> T, row: seq<T>, height: nat): T
    requires |row| == Pow2(height)
  {
    if height == 0 then row[0]
    else
      var half := Pow2(height - 1);
      join(PerfectRoot(join, row[..half], height - 1), PerfectRoot(join, row[half..], height - 1))
  }

  /** Joining a bottom row pairwise first leaves the root of the perfect tree as it was. */
  lemma {:induction false} PerfectRootOfLevel<T>(join: (T, T) -> T, row: seq<T>, height: nat)
    requires height > 0 && |row| == Pow2(height)
    ensures PerfectRoot(join, row, height) == PerfectRoot(join, Level(join, row), height - 1)
  {
    var half := Pow2(height - 1);
    if height == 1 {
      LevelAt(join, row, 0);
    } else {
      PerfectRootOfLevel(join, row[..half], height - 1);
      PerfectRootOfLevel(join, row[half..], height - 1);
      LevelOfHalves(join, row, Pow2(height - 2));
    }
  }

  lemma LevelOfHalves<T>(join: (T, T) -> T, row: seq<T>, quarter: nat)
    requires |row| == 4 * quarter
    ensures Level(join, row)[..quarter] == Level(join, row[..2 * quarter])
    ensures Level(join, row)[quarter..] == Level(join, row[2 * quarter..])
  {
    var left, right := row[..2 * quarter], row[2 * quarter..];
    forall i | 0 <= i < quarter
      ensures Level(join, row)[i] == Level(join, left)[i]
      ensures Level(join, row)[quarter + i] == Level(join, right)[i]
    {
      LevelAt(join, row, i);
      LevelAt(join, left, i);
      LevelAt(join, row, quarter + i);
      LevelAt(join, right, i);
    }
  }

  /** Padding commutes with joining a level. */
  lemma PaddedLevel<T>(join: (T, T) -> T, nodes: seq<T>)
    requires |nodes| > 1
    ensures Level(join, Padded(nodes)) == Padded(Level(join, nodes))
  {
    var n, m := |nodes|, (|nodes| + 1) / 2;
    forall i | 0 <= i < Pow2(Height(m))
      ensures Level(join, Padded(nodes))[i] == Padded(Level(join, nodes))[i]
    {
      OriginOfPair(n, i);
      LevelOfPadded(join, nodes, i);
    }
  }

  lemma LevelOfPadded<T>(join: (T, T) -> T, nodes: seq<T>, i: nat)
    requires |nodes| > 1 && i < Pow2(Height((|nodes| + 1) / 2))
    ensures Level(join, Padded(nodes))[i]
         == join(nodes[Origin(|nodes|, 2 * i)], nodes[Origin(|nodes|, 2 * i + 1)])
  {
    var row := Padded(nodes);
    assert Partner(|row|, i) == 2 * i + 1;
  }

  lemma OriginOfPair(n: nat, i: nat)
    requires n > 1 && i < Pow2(Height((n + 1) / 2))
    ensures Origin(n, 2 * i) == 2 * Origin((n + 1) / 2, i)
    ensures Origin(n, 2 * i + 1) == Partner(n, Origin((n + 1) / 2, i))
  {
    assert (2 * i + 1) / 2 == i;
  }

  /** The level-by-level loop builds the perfect tree of height ceil(log2 n)
      over the padded row. */
  lemma {:induction false} RootIsPerfectRoot<T>(join: (T, T) -> T, nodes: seq<T>)
    requires nodes != []
    ensures Root(join, nodes) == PerfectRoot(join, Padded(nodes), Height(|nodes|))
    decreases |nodes|
  {
    if |nodes| > 1 {
      RootIsPerfectRoot(join, Level(join, nodes));
      PaddedLevel(join, nodes);
      PerfectRootOfLevel(join, Padded(nodes), Height(|nodes|));
    }
  }

  // ----- what an equal root says about the bottom row

  ghost predicate Distinct<T>(xs: seq<T>) {
    forall i, j | 0 <= i < j < |xs| :: xs[i] != xs[j]
  }

  /** A repetition-free row is not the padding of fewer leaves. */
  lemma ShorterPadsDifferently<T>(x: seq<T>, y: seq<T>)
    requires 0 < |x| < |y| && Distinct(y)
    ensures Padded(x) != Padded(y)
  {
    var px, py := Padded(x), Padded(y);
    if |px| == |py| {
      var j := Origin(|x|, |x|);
      PaddedRow(x);
      PaddedRow(y);
      assert py[..|y|][|x|] != py[..|y|][j];
    }
  }

  /** Padding hides the length of a list only when the list has repetitions. */
  lemma PaddedInjective<T>(x: seq<T>, y: seq<T>)
    requires x != [] && y != [] && Distinct(x) && Distinct(y)
    ensures Padded(x) == Padded(y) ==> x == y
  {
    if |x| < |y| {
      ShorterPadsDifferently(x, y);
    } else if |y| < |x| {
      ShorterPadsDifferently(y, x);
    } else {
      PaddedRow(x);
      PaddedRow(y);
    }
  }

  /** Every pair of nodes that is joined above the given row. */
  ghost function JoinedPairs<T>(join: (T, T) -> T, nodes: seq<T>): set<(T, T)>
    decreases |nodes|
  {
    if |nodes| <= 1 then {}
    else
      (set i | 0 <= i < (|nodes| + 1) / 2 :: (nodes[2 * i], nodes[Partner(|nodes|, i)]))
      + JoinedPairs(join, Level(join, nodes))
  }

  /** Different pairs among these have different parents. */
  ghost predicate InjectiveOn<T(!new)>(join: (T, T) -> T, pairs: set<(T, T)>) {
    forall p, q {:trigger p in pairs, q in pairs} ::
      p in pairs && q in pairs && join(p.0, p.1) == join(q.0, q.1) ==> p == q
  }

  lemma SameNodeSameChildren<T(!new)>(join: (T, T) -> T, x: seq<T>, j: nat, y: seq<T>, k: nat)
    requires |x| > 1 && |y| > 1 && 2 * j < |x| && 2 * k < |y|
    requires InjectiveOn(join, JoinedPairs(join, x) + JoinedPairs(join, y))
    requires Level(join, x)[j] == Level(join, y)[k]
    ensures x[2 * j] == y[2 * k] && x[Partner(|x|, j)] == y[Partner(|y|, k)]
  {
    LevelAt(join, x, j);
    LevelAt(join, y, k);
    assert (x[2 * j], x[Partner(|x|, j)]) in JoinedPairs(join, x);
    assert (y[2 * k], y[Partner(|y|, k)]) in JoinedPairs(join, y);
  }

  lemma ParentInPadded<T>(join: (T, T) -> T, x: seq<T>, i: nat)
    requires |x| > 1 && i < Pow2(Height(|x|) - 1)
    ensures Padded(Level(join, x))[i] == Level(join, x)[Origin((|x| + 1) / 2, i)]
  {
  }

  lemma PaddedAt<T>(x: seq<T>, i: nat)
    requires x != [] && i < Pow2(Height(|x|))
    ensures Padded(x)[i] == x[Origin(|x|, i)]
  {
  }

  lemma PairIsInside(n: nat, i: nat)
    requires n > 1 && i < Pow2(Height(n) - 1)
    ensures i < Pow2(Height((n + 1) / 2)) && 2 * i + 1 < Pow2(Height(n))
  {
  }

  lemma LeftInPadded<T>(x: seq<T>, i: nat)
    requires |x| > 1 && i < Pow2(Height(|x|) - 1)
    ensures Padded(x)[2 * i] == x[2 * Origin((|x| + 1) / 2, i)]
  {
    PairIsInside(|x|, i);
    OriginOfPair(|x|, i);
    PaddedAt(x, 2 * i);
  }

  lemma RightInPadded<T>(x: seq<T>, i: nat)
    requires |x| > 1 && i < Pow2(Height(|x|) - 1)
    ensures Padded(x)[2 * i + 1] == x[Partner(|x|, Origin((|x| + 1) / 2, i))]
  {
    var n, k := |x|, 2 * i + 1;
    PairIsInside(n, i);
    OriginOfPair(n, i);
    var p := Partner(n, Origin((n + 1) / 2, i));
    assert Origin(n, k) == p;
    PaddedAt(x, k);
  }

  /** The rows have the same i-th pair. */
  ghost predicate SamePair<T>(x: seq<T>, y: seq<T>, i: nat) {
    2 * i + 1 < |x| && 2 * i + 1 < |y| && x[2 * i] == y[2 * i] && x[2 * i + 1] == y[2 * i + 1]
  }

  lemma PairOfNodes<T(!new)>(x: seq<T>, y: seq<T>, i: nat)
    requires |x| > 1 && |y| > 1 && Height(|x|) == Height(|y|) && i < Pow2(Height(|x|) - 1)
    requires var j, k := Origin((|x| + 1) / 2, i), Origin((|y| + 1) / 2, i);
      x[2 * j] == y[2 * k] && x[Partner(|x|, j)] == y[Partner(|y|, k)]
    ensures SamePair(Padded(x), Padded(y), i)
  {
    PairIsInside(|x|, i);
    LeftInPadded(x, i);
    LeftInPadded(y, i);
    RightInPadded(x, i);
    RightInPadded(y, i);
  }

  lemma SameParentSamePair<T(!new)>(join: (T, T) -> T, x: seq<T>, y: seq<T>, i: nat)
    requires |x| > 1 && |y| > 1 && Height(|x|) == Height(|y|) && i < Pow2(Height(|x|) - 1)
    requires InjectiveOn(join, JoinedPairs(join, x) + JoinedPairs(join, y))
    requires Padded(Level(join, x))[i] == Padded(Level(join, y))[i]
    ensures SamePair(Padded(x), Padded(y), i)
  {
    ParentInPadded(join, x, i);
    ParentInPadded(join, y, i);
    SameNodeSameChildren(join, x, Origin((|x| + 1) / 2, i), y, Origin((|y| + 1) / 2, i));
    PairOfNodes(x, y, i);
  }

  ghost predicate SamePairs<T>(x: seq<T>, y: seq<T>, half: nat) {
    forall i: nat | i < half :: SamePair(x, y, i)
  }

  lemma SameLevelSamePairs<T(!new)>(join: (T, T) -> T, x: seq<T>, y: seq<T>, half: nat)
    requires |x| > 1 && |y| > 1 && Height(|x|) == Height(|y|) && half == Pow2(Height(|x|) - 1)
    requires InjectiveOn(join, JoinedPairs(join, x) + JoinedPairs(join, y))
    requires Padded(Level(join, x)) == Padded(Level(join, y))
    ensures SamePairs(Padded(x), Padded(y), half)
  {
    forall i: nat | i < half ensures SamePair(Padded(x), Padded(y), i) {
      SameParentSamePair(join, x, y, i);
    }
  }

  /** Two rows that agree pair by pair are the same. */
  lemma SamePairsSameRow<T>(x: seq<T>, y: seq<T>, half: nat)
    requires |x| == |y| == 2 * half && SamePairs(x, y, half)
    ensures x == y
  {
    forall k | 0 <= k < |x| ensures x[k] == y[k] {
      assert SamePair(x, y, k / 2);
      EvenOrOdd(k);
    }
  }

  lemma SameLevelSameRow<T(!new)>(join: (T, T) -> T, x: seq<T>, y: seq<T>)
    requires |x| > 1 && |y| > 1 && Height(|x|) == Height(|y|)
    requires InjectiveOn(join, JoinedPairs(join, x) + JoinedPairs(join, y))
    requires Padded(Level(join, x)) == Padded(Level(join, y))
    ensures Padded(x) == Padded(y)
  {
    var half := Pow2(Height(|x|) - 1);
    SameLevelSamePairs(join, x, y, half);
    PaddedFromPairs(x, y, half);
  }

  lemma PaddedFromPairs<T>(x: seq<T>, y: seq<T>, half: nat)
    requires |x| > 1 && |y| > 1 && Height(|x|) == Height(|y|) && half == Pow2(Height(|x|) - 1)
    requires SamePairs(Padded(x), Padded(y), half)
    ensures Padded(x) == Padded(y)
  {
    SamePairsSameRow(Padded(x), Padded(y), half);
  }

  /** Trees of one height with one root have the same bottom row. */
  lemma {:induction false} SameHeightSameRow<T(!new)>(join: (T, T) -> T, x: seq<T>, y: seq<T>)
    requires x != [] && y != [] && Height(|x|) == Height(|y|)
    requires InjectiveOn(join, JoinedPairs(join, x) + JoinedPairs(join, y))
    requires Root(join, x) == Root(join, y)
    ensures Padded(x) == Padded(y)
    decreases |x|
  {
    if |x| > 1 {
      SameHeightSameRow(join, Level(join, x), Level(join, y));
      SameLevelSameRow(join, x, y);
    } else {
      PaddedRow(x);
      PaddedRow(y);
    }
  }

  /** If a taller tree has the same root, the first leaf of the lower one is an
      inner node of the taller one. */
  lemma {:induction false} LeafInsideTallerTree<T(!new)>(join: (T, T) -> T, x: seq<T>, y: seq<T>) returns (p: (T, T))
    requires x != [] && y != [] && Height(|x|) < Height(|y|)
    requires InjectiveOn(join, JoinedPairs(join, x) + JoinedPairs(join, y))
    requires Root(join, x) == Root(join, y)
    ensures p in JoinedPairs(join, y) && join(p.0, p.1) == x[0]
    decreases |y|
  {
    var ly := Level(join, y);
    if Height(|ly|) == Height(|x|) {
      SameHeightSameRow(join, x, ly);
      PaddedRow(x);
      PaddedRow(ly);
      assert x[0] == Padded(x)[..|x|][0] == Padded(ly)[..|ly|][0] == ly[0];
      LevelAt(join, y, 0);
      p := (y[0], y[Partner(|y|, 0)]);
      assert p == (y[2 * 0], y[Partner(|y|, 0)]);
    } else {
      p := LeafInsideTallerTree(join, x, ly);
    }
  }

  // ----- the ledger's tree: nodes are digests, joined by hashing them side by side

  function Joiner(h: HashFunction): (Digest, Digest) -> Digest {
    (left: Digest, right: Digest) => h(left.bytes + right.bytes)
  }

  function Leaves(h: HashFunction, txs: seq<Transaction>): seq<Digest> {
    seq<Digest>(|txs|, i requires 0 <= i < |txs| => h(TxText(txs[i])))
  }

  function MerkleRoot(h: HashFunction, txs: seq<Transaction>): string {
    if txs == [] then "" else HexDigest(Root<Digest>(Joiner(h), Leaves(h, txs)))
  }

  /** The root as the ledger computes it: hash every transaction, then pair up
      level after level until one node is left. */
  method ComputeMerkleRoot(h: HashFunction, txs: seq<Transaction>) returns (r: string)
    ensures r == MerkleRoot(h, txs)
  {
    if |txs| == 0 {
      return "";
    }
    var hashes := HashLeaves(h, txs);
    while |hashes| > 1
      invariant hashes != [] && Root<Digest>(Joiner(h), hashes) == Root<Digest>(Joiner(h), Leaves(h, txs))
      decreases |hashes|
    {
      hashes := HashLevel(h, hashes);
    }
    r := HexDigest(hashes[0]);
  }

  /** The first loop: the transaction hashes, taken back from their hexadecimal form. */
  method HashLeaves(h: HashFunction, txs: seq<Transaction>) returns (hashes: seq<Digest>)
    ensures hashes == Leaves(h, txs)
  {
    hashes := [];
    for k := 0 to |txs|
      invariant AreLeaves(h, txs, hashes, k)
    {
      var leaf := LeafHash(h, txs[k]);
      OneMoreLeaf(h, txs, hashes, k, leaf);
      hashes := hashes + [leaf];
    }
    AllLeaves(h, txs, hashes);
  }

  /** The first k transactions' hashes. */
  ghost predicate AreLeaves(h: HashFunction, txs: seq<Transaction>, hashes: seq<Digest>, k: nat) {
    |hashes| == k <= |txs| && forall i | 0 <= i < k :: hashes[i] == TxDigest(h, txs[i])
  }

  lemma OneMoreLeaf(h: HashFunction, txs: seq<Transaction>, hashes: seq<Digest>, k: nat, leaf: Digest)
    requires AreLeaves(h, txs, hashes, k) && k < |txs| && leaf == TxDigest(h, txs[k])
    ensures AreLeaves(h, txs, hashes + [leaf], k + 1)
  {
  }

  lemma AllLeaves(h: HashFunction, txs: seq<Transaction>, hashes: seq<Digest>)
    requires AreLeaves(h, txs, hashes, |txs|)
    ensures hashes == Leaves(h, txs)
  {
  }

  method LeafHash(h: HashFunction, tx: Transaction) returns (leaf: Digest)
    ensures leaf == TxDigest(h, tx)
  {
    var th := TxHash(h, tx);
    UnhexInvertsHex(TxDigest(h, tx).bytes);
    leaf := DigestValue(Unhex(th));
  }

  /** The inner loop: one level of pairwise hashing. */
  method HashLevel(h: HashFunction, hashes: seq<Digest>) returns (next: seq<Digest>)
    ensures next == Level<Digest>(Joiner(h), hashes)
  {
    next := [];
    var i := 0;
    while i < |hashes|
      invariant i == 2 * |next| <= |hashes| + 1
      invariant next == Level<Digest>(Joiner(h), hashes)[..i / 2]
    {
      LevelAt<Digest>(Joiner(h), hashes, i / 2);
      if i + 1 < |hashes| {
        next := next + [h(hashes[i].bytes + hashes[i + 1].bytes)];
      } else {
        next := next + [h(hashes[i].bytes + hashes[i].bytes)];
      }
      i := i + 2;
    }
  }

  // ----- what an equal root says about the batch

  function NodeText(p: (Digest, Digest)): (t: string)
    ensures |t| == 64
  {
    p.0.bytes + p.1.bytes
  }

  /** Every text hashed to compute the root of a batch. */
  ghost function HashedTexts(h: HashFunction, txs: seq<Transaction>): set<string> {
    (set i | 0 <= i < |txs| :: TxText(txs[i]))
    + (set p | p in JoinedPairs<Digest>(Joiner(h), Leaves(h, txs)) :: NodeText(p))
  }

  /** A leaf text is never as short as the text of an inner node. */
  ghost predicate LongTexts(txs: seq<Transaction>) {
    forall i | 0 <= i < |txs| :: |TxText(txs[i])| > 64
  }

  lemma NodeTextInjective(p: (Digest, Digest), q: (Digest, Digest))
    requires NodeText(p) == NodeText(q)
    ensures p == q
  {
    var s, t := NodeText(p), NodeText(q);
    assert s[..32] == p.0.bytes && s[32..] == p.1.bytes;
    assert t[..32] == q.0.bytes && t[32..] == q.1.bytes;
  }

  lemma JoinerInjective(h: HashFunction, a: seq<Transaction>, b: seq<Transaction>)
    requires NoCollision(h, HashedTexts(h, a) + HashedTexts(h, b))
    ensures InjectiveOn<Digest>(Joiner(h), JoinedPairs<Digest>(Joiner(h), Leaves(h, a))
      + JoinedPairs<Digest>(Joiner(h), Leaves(h, b)))
  {
    var pa, pb := JoinedPairs<Digest>(Joiner(h), Leaves(h, a)), JoinedPairs<Digest>(Joiner(h), Leaves(h, b));
    forall p: (Digest, Digest), q: (Digest, Digest)
      | p in pa + pb && q in pa + pb && Joiner(h)(p.0, p.1) == Joiner(h)(q.0, q.1)
      ensures p == q
    {
      assert NodeText(p) in HashedTexts(h, a) + HashedTexts(h, b);
      assert NodeText(q) in HashedTexts(h, a) + HashedTexts(h, b);
      NodeTextInjective(p, q);
    }
  }

  lemma LeafIsNoNode(h: HashFunction, texts: set<string>, leaf: string, p: (Digest, Digest))
    requires NoCollision(h, texts) && leaf in texts && NodeText(p) in texts && |leaf| > 64
    ensures Joiner(h)(p.0, p.1) != h(leaf)
  {
  }

  lemma RootsDifferAcrossHeights(h: HashFunction, a: seq<Transaction>, b: seq<Transaction>)
    requires a != [] && b != [] && LongTexts(a)
    requires NoCollision(h, HashedTexts(h, a) + HashedTexts(h, b))
    requires Height(|a|) < Height(|b|)
    ensures Root<Digest>(Joiner(h), Leaves(h, a)) != Root<Digest>(Joiner(h), Leaves(h, b))
  {
    var x, y := Leaves(h, a), Leaves(h, b);
    if Root<Digest>(Joiner(h), x) == Root<Digest>(Joiner(h), y) {
      JoinerInjective(h, a, b);
      var p := LeafInsideTallerTree<Digest>(Joiner(h), x, y);
      LeafIsNoNode(h, HashedTexts(h, a) + HashedTexts(h, b), TxText(a[0]), p);
    }
  }

  lemma EqualRootsEqualRows(h: HashFunction, a: seq<Transaction>, b: seq<Transaction>)
    requires a != [] && b != [] && LongTexts(a) && LongTexts(b)
    requires NoCollision(h, HashedTexts(h, a) + HashedTexts(h, b))
    requires Root<Digest>(Joiner(h), Leaves(h, a)) == Root<Digest>(Joiner(h), Leaves(h, b))
    ensures Padded(Leaves(h, a)) == Padded(Leaves(h, b))
  {
    assert HashedTexts(h, b) + HashedTexts(h, a) == HashedTexts(h, a) + HashedTexts(h, b);
    if Height(|a|) < Height(|b|) {
      RootsDifferAcrossHeights(h, a, b);
    } else if Height(|b|) < Height(|a|) {
      RootsDifferAcrossHeights(h, b, a);
    } else {
      JoinerInjective(h, a, b);
      SameHeightSameRow<Digest>(Joiner(h), Leaves(h, a), Leaves(h, b));
    }
  }

  lemma EqualRowsEqualRoots<T>(join: (T, T) -> T, x: seq<T>, y: seq<T>)
    requires x != [] && y != [] && Padded(x) == Padded(y)
    ensures Root(join, x) == Root(join, y)
  {
    Pow2Injective(Height(|x|), Height(|y|));
    RootIsPerfectRoot(join, x);
    RootIsPerfectRoot(join, y);
  }

  /** Two batches have the same root exactly when their padded rows are the same. */
  lemma EqualRootsIffEqualRows(h: HashFunction, a: seq<Transaction>, b: seq<Transaction>)
    requires a != [] && b != [] && LongTexts(a) && LongTexts(b)
    requires NoCollision(h, HashedTexts(h, a) + HashedTexts(h, b))
    ensures MerkleRoot(h, a) == MerkleRoot(h, b) <==> Padded(Leaves(h, a)) == Padded(Leaves(h, b))
  {
    if MerkleRoot(h, a) == MerkleRoot(h, b) {
      HexDigestInjective(Root<Digest>(Joiner(h), Leaves(h, a)), Root<Digest>(Joiner(h), Leaves(h, b)));
      EqualRootsEqualRows(h, a, b);
    }
    if Padded(Leaves(h, a)) == Padded(Leaves(h, b)) {
      EqualRowsEqualRoots<Digest>(Joiner(h), Leaves(h, a), Leaves(h, b));
    }
  }

  lemma {:induction false} Pow2Injective(j: nat, k: nat)
    ensures Pow2(j) == Pow2(k) ==> j == k
  {
    if j > 0 && k > 0 {
      Pow2Injective(j - 1, k - 1);
    }
  }

  /** No two transactions of the batch share sender and nonce. */
  ghost predicate DistinctSenderNonce(txs: seq<Transaction>) {
    forall i, j | 0 <= i < j < |txs| :: txs[i].from != txs[j].from || txs[i].nonce != txs[j].nonce
  }

  ghost predicate AllPlain(txs: seq<Transaction>) {
    forall i | 0 <= i < |txs| :: PlainAddresses(txs[i])
  }

  /** The same batch, up to the fields that are not hashed. */
  ghost predicate SameBatch(a: seq<Transaction>, b: seq<Transaction>) {
    |a| == |b| && forall i | 0 <= i < |a| :: SameHashedFields(a[i], b[i])
  }

  lemma LeavesDistinct(h: HashFunction, txs: seq<Transaction>)
    requires AllPlain(txs) && DistinctSenderNonce(txs)
    requires NoCollision(h, HashedTexts(h, txs))
    ensures Distinct(Leaves(h, txs))
  {
    forall i, j | 0 <= i < j < |txs| ensures Leaves(h, txs)[i] != Leaves(h, txs)[j] {
      TxTextInjective(txs[i], txs[j]);
      assert TxText(txs[i]) in HashedTexts(h, txs) && TxText(txs[j]) in HashedTexts(h, txs);
    }
  }

  lemma SameBatchSameLeaves(h: HashFunction, a: seq<Transaction>, b: seq<Transaction>)
    requires AllPlain(a) && AllPlain(b)
    requires NoCollision(h, HashedTexts(h, a) + HashedTexts(h, b))
    ensures SameBatch(a, b) <==> Leaves(h, a) == Leaves(h, b)
  {
    if |a| == |b| {
      forall i | 0 <= i < |a|
        ensures SameHashedFields(a[i], b[i]) <==> Leaves(h, a)[i] == Leaves(h, b)[i]
      {
        TxTextInjective(a[i], b[i]);
        assert TxText(a[i]) in HashedTexts(h, a) && TxText(b[i]) in HashedTexts(h, b);
      }
    }
  }

  /** Binding: unless the hash collides on one of the texts at hand, two
      duplicate-free batches have the same root exactly when they are the same. */
  lemma MerkleBinding(h: HashFunction, a: seq<Transaction>, b: seq<Transaction>)
    requires AllPlain(a) && AllPlain(b) && LongTexts(a) && LongTexts(b)
    requires DistinctSenderNonce(a) && DistinctSenderNonce(b)
    requires NoCollision(h, HashedTexts(h, a) + HashedTexts(h, b))
    ensures MerkleRoot(h, a) == MerkleRoot(h, b) <==> SameBatch(a, b)
  {
    SameBatchSameLeaves(h, a, b);
    if a != [] && b != [] {
      LeavesDistinct(h, a);
      LeavesDistinct(h, b);
      EqualRootsIffEqualRows(h, a, b);
      PaddedInjective(Leaves(h, a), Leaves(h, b));
    }
  }

  /** Without distinctness binding fails for every hash: repeating the last of
      three transactions does not change the root. */
  lemma RepeatedLastKeepsRoot(h: HashFunction, a: Transaction, b: Transaction, c: Transaction)
    ensures MerkleRoot(h, [a, b, c]) == MerkleRoot(h, [a, b, c, c])
  {
    var x, y := Leaves(h, [a, b, c]), Leaves(h, [a, b, c, c]);
    LevelAt<Digest>(Joiner(h), x, 0);
    LevelAt<Digest>(Joiner(h), x, 1);
    LevelAt<Digest>(Joiner(h), y, 0);
    LevelAt<Digest>(Joiner(h), y, 1);
    assert Level<Digest>(Joiner(h), x) == Level<Digest>(Joiner(h), y);
  }
}
