/** The Merkle tree over the hashes of an asynchronous-payment batch.

    The digest is a parameter everywhere. Nothing is assumed about it: the soundness and binding
    results hand back two different byte strings with the same digest whenever their conclusion
    fails. */
module Merkle {
  import opened Text

  type BatchId = b: seq<byte> | |b| == 16 witness seq(16, _ => 0)

  type Digest = seq<byte> -> Hash32

  const LEAF_PREFIX: byte := 0x00
  const NODE_PREFIX: byte := 0x01
  const LEAF_TAG: string := "UTEXO_APAY_HASH_V1"

  datatype Leaf = Leaf(recipient: PublicKey, batchId: BatchId, hashIndex: u64, paymentHash: Hash32)

  datatype Side = Left | Right

  datatype ProofElement = ProofElement(sibling: Hash32, side: Side)

  ghost predicate Collision(d: Digest, x: seq<byte>, y: seq<byte>) {
    x != y && d(x) == d(y)
  }

  // ----- preimages and hashes

  function LeafPreimage(l: Leaf): seq<byte> {
    [LEAF_PREFIX] + Ascii(LEAF_TAG) + l.recipient + l.batchId + Be64(l.hashIndex) + l.paymentHash
  }

  function NodePreimage(left: Hash32, right: Hash32): seq<byte> {
    [NODE_PREFIX] + left + right
  }

  /** The bytes that are hashed for a leaf, field by field. */
  lemma LeafLayout(l: Leaf)
    ensures var x := LeafPreimage(l);
            && |x| == 108 && x[0] == 0x00 && x[1..19] == Ascii("UTEXO_APAY_HASH_V1")
            && x[19..52] == l.recipient && x[52..68] == l.batchId
            && BigEndianValue(x[68..76]) == l.hashIndex && x[76..] == l.paymentHash
  {
    var x := LeafPreimage(l);
    assert |LEAF_TAG| == 18;
    assert x[1..19] == Ascii(LEAF_TAG);
    assert x[19..52] == l.recipient;
    assert x[52..68] == l.batchId;
    assert x[68..76] == Be64(l.hashIndex);
    assert x[76..] == l.paymentHash;
    Be64RoundTrip(l.hashIndex);
  }

  lemma NodeLayout(left: Hash32, right: Hash32)
    ensures var x := NodePreimage(left, right);
            |x| == 65 && x[0] == 0x01 && x[1..33] == left && x[33..] == right
  {
  }

  function LeafHash(d: Digest, l: Leaf): Hash32 { d(LeafPreimage(l)) }

  function NodeHash(d: Digest, left: Hash32, right: Hash32): Hash32 { d(NodePreimage(left, right)) }

  function LeafHashes(d: Digest, leaves: seq<Leaf>): (hashes: seq<Hash32>)
    ensures |hashes| == |leaves|
    ensures forall i :: 0 <= i < |leaves| ==> hashes[i] == LeafHash(d, leaves[i])
  {
    seq(|leaves|, i requires 0 <= i < |leaves| => LeafHash(d, leaves[i]))
  }

  /** Fixed field widths make the leaf encoding injective. */
  lemma LeafPreimageInjective(a: Leaf, b: Leaf)
    requires LeafPreimage(a) == LeafPreimage(b)
    ensures a == b
  {
    LeafLayout(a);
    LeafLayout(b);
  }

  lemma NodePreimageInjective(a: Hash32, b: Hash32, a': Hash32, b': Hash32)
    requires NodePreimage(a, b) == NodePreimage(a', b')
    ensures a == a' && b == b'
  {
    NodeLayout(a, b);
    NodeLayout(a', b');
  }

  /** The two prefixes keep leaves and inner nodes apart. */
  lemma LeafIsNotNode(l: Leaf, left: Hash32, right: Hash32)
    ensures LeafPreimage(l) != NodePreimage(left, right)
  {
    assert LeafPreimage(l)[0] == LEAF_PREFIX && NodePreimage(left, right)[0] == NODE_PREFIX;
  }

  // ----- what the loops compute

  /** The right child of the pair that starts at `i`; the last node of an odd level is its own
      partner. */
  function RightOf(level: seq<Hash32>, i: nat): Hash32
    requires i < |level|
  {
    if i + 1 < |level| then level[i + 1] else level[i]
  }

  function NextLevelOf(d: Digest, level: seq<Hash32>): (next: seq<Hash32>)
    ensures |next| == (|level| + 1) / 2
  {
    if level == [] then []
    else if |level| == 1 then [NodeHash(d, level[0], level[0])]
    else [NodeHash(d, level[0], level[1])] + NextLevelOf(d, level[2..])
  }

  lemma {:induction false} NextLevelAt(d: Digest, level: seq<Hash32>, i: nat)
    requires 2 * i < |level|
    ensures NextLevelOf(d, level)[i] == NodeHash(d, level[2 * i], RightOf(level, 2 * i))
  {
    if i > 0 { NextLevelAt(d, level[2..], i - 1); }
  }

  function RootOf(d: Digest, leaves: seq<Hash32>): Hash32
    requires leaves != []
    decreases |leaves|
  {
    if |leaves| == 1 then leaves[0] else RootOf(d, NextLevelOf(d, leaves))
  }

  function ElementAt(level: seq<Hash32>, i: nat): ProofElement
    requires i < |level|
  {
    if i % 2 == 0 then ProofElement(RightOf(level, i), Right) else ProofElement(level[i - 1], Left)
  }

  function ProofOf(d: Digest, leaves: seq<Hash32>, i: nat): seq<ProofElement>
    requires i < |leaves|
    decreases |leaves|
  {
    if |leaves| == 1 then []
    else [ElementAt(leaves, i)] + ProofOf(d, NextLevelOf(d, leaves), i / 2)
  }

  function Climb(d: Digest, current: Hash32, e: ProofElement): Hash32 {
    match e.side
    case Left => NodeHash(d, e.sibling, current)
    case Right => NodeHash(d, current, e.sibling)
  }

  function ClimbAll(d: Digest, leaf: Hash32, proof: seq<ProofElement>): Hash32 {
    if proof == [] then leaf
    else Climb(d, ClimbAll(d, leaf, proof[..|proof| - 1]), proof[|proof| - 1])
  }

  // ----- the loops

  /** The nodes from place `i` on, if there are any. */
  function NodesFrom(level: seq<Hash32>, i: nat): seq<Hash32> { if i < |level| then level[i..] else [] }

  lemma NextLevelFrom(d: Digest, level: seq<Hash32>, i: nat)
    requires i < |level|
    ensures NextLevelOf(d, NodesFrom(level, i)) ==
      [NodeHash(d, level[i], RightOf(level, i))] + NextLevelOf(d, NodesFrom(level, i + 2))
  {
    if i + 2 <= |level| { assert level[i..][2..] == level[i + 2..]; }
  }

  lemma MoveAcross(a: seq<Hash32>, x: Hash32, b: seq<Hash32>)
    ensures a + ([x] + b) == (a + [x]) + b
  {
  }

  method NextLevel(d: Digest, level: seq<Hash32>) returns (next: seq<Hash32>)
    ensures next == NextLevelOf(d, level)
  {
    next := [];
    var i := 0;
    assert NodesFrom(level, 0) == level;
    while i < |level|
      invariant 0 <= i <= |level| + 1
      invariant next + NextLevelOf(d, NodesFrom(level, i)) == NextLevelOf(d, level)
    {
      var node := NodeHash(d, level[i], if i + 1 < |level| then level[i + 1] else level[i]);
      NextLevelFrom(d, level, i);
      MoveAcross(next, node, NextLevelOf(d, NodesFrom(level, i + 2)));
      next := next + [node];
      i := i + 2;
    }
  }

  method Root(d: Digest, leaves: seq<Hash32>) returns (r: Hash32)
    requires leaves != []
    ensures r == RootOf(d, leaves)
  {
    var level := leaves;
    while |level| > 1
      invariant level != [] && RootOf(d, level) == RootOf(d, leaves)
    {
      level := NextLevel(d, level);
    }
    r := level[0];
  }

  method Proof(d: Digest, leaves: seq<Hash32>, index: nat) returns (out: seq<ProofElement>)
    requires index < |leaves|
    ensures out == ProofOf(d, leaves, index)
  {
    out := [];
    var level, idx := leaves, index;
    while |level| > 1
      invariant 0 <= idx < |level|
      invariant out + ProofOf(d, level, idx) == ProofOf(d, leaves, index)
      decreases |level|
    {
      var element := ProofStep(level, idx);
      out := out + [element];
      level := NextLevel(d, level);
      idx := idx / 2;
    }
  }

  method ProofStep(level: seq<Hash32>, idx: nat) returns (element: ProofElement)
    requires idx < |level|
    ensures element == ElementAt(level, idx)
  {
    if idx % 2 == 0 {
      var sibling := if idx + 1 < |level| then level[idx + 1] else level[idx];
      element := ProofElement(sibling, Right);
    } else {
      element := ProofElement(level[idx - 1], Left);
    }
  }

  method Verify(d: Digest, leaf: Hash32, proof: seq<ProofElement>, expectedRoot: Hash32) returns (ok: bool)
    ensures ok <==> ClimbAll(d, leaf, proof) == expectedRoot
  {
    var current := leaf;
    for i := 0 to |proof|
      invariant current == ClimbAll(d, leaf, proof[..i])
    {
      var element := proof[i];
      assert proof[..i + 1][..i] == proof[..i];
      match element.side {
        case Left => current := NodeHash(d, element.sibling, current);
        case Right => current := NodeHash(d, current, element.sibling);
      }
    }
    assert proof[..|proof|] == proof;
    ok := current == expectedRoot;
  }

  // ----- completeness

  lemma {:induction false} ClimbFirst(d: Digest, leaf: Hash32, e: ProofElement, rest: seq<ProofElement>)
    ensures ClimbAll(d, leaf, [e] + rest) == ClimbAll(d, Climb(d, leaf, e), rest)
  {
    var whole := [e] + rest;
    if rest == [] {
      assert whole[..0] == [];
    } else {
      assert whole[..|whole| - 1] == [e] + rest[..|rest| - 1];
      ClimbFirst(d, leaf, e, rest[..|rest| - 1]);
    }
  }

  lemma ClimbToParent(d: Digest, level: seq<Hash32>, i: nat)
    requires i < |level|
    ensures Climb(d, level[i], ElementAt(level, i)) == NextLevelOf(d, level)[i / 2]
  {
    var j := i / 2;
    assert i == if i % 2 == 0 then 2 * j else 2 * j + 1;
    NextLevelAt(d, level, j);
  }

  /** The proof made for any leaf of any nonempty list leads from that leaf to the root. */
  lemma {:induction false} ProofComplete(d: Digest, leaves: seq<Hash32>, i: nat)
    requires i < |leaves|
    ensures ClimbAll(d, leaves[i], ProofOf(d, leaves, i)) == RootOf(d, leaves)
    decreases |leaves|
  {
    if |leaves| > 1 {
      var next := NextLevelOf(d, leaves);
      ProofComplete(d, next, i / 2);
      ClimbFirst(d, leaves[i], ElementAt(leaves, i), ProofOf(d, next, i / 2));
      ClimbToParent(d, leaves, i);
    }
  }

  function Pow2(k: nat): (r: nat)
    ensures r > 0
  {
    if k == 0 then 1 else 2 * Pow2(k - 1)
  }

  /** A proof has as many elements as the least power of two that covers the leaves has doublings. */
  lemma {:induction false} ProofLength(d: Digest, leaves: seq<Hash32>, i: nat)
    requires i < |leaves|
    ensures |leaves| <= Pow2(|ProofOf(d, leaves, i)|)
    ensures forall k: nat :: |leaves| <= Pow2(k) ==> |ProofOf(d, leaves, i)| <= k
    decreases |leaves|
  {
    if |leaves| > 1 {
      var next := NextLevelOf(d, leaves);
      ProofLength(d, next, i / 2);
      forall k: nat | |leaves| <= Pow2(k)
        ensures |ProofOf(d, leaves, i)| <= k
      {
        assert |next| <= Pow2(k - 1);
      }
    }
  }

  // ----- soundness

  function LevelAt(d: Digest, leaves: seq<Hash32>, height: nat): seq<Hash32> {
    if height == 0 then leaves else NextLevelOf(d, LevelAt(d, leaves, height - 1))
  }

  lemma {:induction false} LevelAbove(d: Digest, leaves: seq<Hash32>, height: nat)
    ensures LevelAt(d, NextLevelOf(d, leaves), height) == LevelAt(d, leaves, height + 1)
  {
    if height > 0 { LevelAbove(d, leaves, height - 1); }
  }

  /** How many levels there are above this many leaves. */
  function Levels(n: nat): nat { if n <= 1 then 0 else 1 + Levels((n + 1) / 2) }

  lemma {:induction false} RootIsTheTop(d: Digest, leaves: seq<Hash32>)
    requires leaves != []
    ensures LevelAt(d, leaves, Levels(|leaves|)) == [RootOf(d, leaves)]
    decreases |leaves|
  {
    if |leaves| > 1 {
      var next := NextLevelOf(d, leaves);
      RootIsTheTop(d, next);
      LevelAbove(d, leaves, Levels(|next|));
    }
  }

  /** If climbing from a leaf hash, along any elements at all, arrives at some node of the tree,
      then the leaf is one of the tree's and the climb was as long as the node is high, or two
      preimages collide. */
  lemma {:induction false} ClimbStaysInTree(d: Digest, leaves: seq<Leaf>, leaf: Leaf, proof: seq<ProofElement>,
                                            height: nat)
      returns (x: seq<byte>, y: seq<byte>)
    requires ClimbAll(d, LeafHash(d, leaf), proof) in LevelAt(d, LeafHashes(d, leaves), height)
    ensures (leaf in leaves && |proof| == height) || Collision(d, x, y)
    decreases |proof|
  {
    x, y := [], [];
    var hashes := LeafHashes(d, leaves);
    var level := LevelAt(d, hashes, height);
    var i :| 0 <= i < |level| && level[i] == ClimbAll(d, LeafHash(d, leaf), proof);
    if proof == [] {
      x := LeafPreimage(leaf);
      if height == 0 {
        y := LeafPreimage(leaves[i]);
        if x == y { LeafPreimageInjective(leaf, leaves[i]); }
      } else {
        var below := LevelAt(d, hashes, height - 1);
        NextLevelAt(d, below, i);
        y := NodePreimage(below[2 * i], RightOf(below, 2 * i));
        LeafIsNotNode(leaf, below[2 * i], RightOf(below, 2 * i));
      }
    } else {
      var last := proof[|proof| - 1];
      var current := ClimbAll(d, LeafHash(d, leaf), proof[..|proof| - 1]);
      var (left, right) := if last.side == Left then (last.sibling, current) else (current, last.sibling);
      x := NodePreimage(left, right);
      if height == 0 {
        y := LeafPreimage(leaves[i]);
        LeafIsNotNode(leaves[i], left, right);
      } else {
        var below := LevelAt(d, hashes, height - 1);
        NextLevelAt(d, below, i);
        y := NodePreimage(below[2 * i], RightOf(below, 2 * i));
        if x == y {
          NodePreimageInjective(left, right, below[2 * i], RightOf(below, 2 * i));
          x, y := ClimbStaysInTree(d, leaves, leaf, proof[..|proof| - 1], height - 1);
        }
      }
    }
  }

  /** Whatever proof, of whatever length, is accepted for a leaf against the root of a batch, that
      very leaf (recipient, batch, index and payment hash) is in the batch and the proof is as long as
      the tree is high, or here is a collision. */
  lemma VerifySound(d: Digest, leaves: seq<Leaf>, leaf: Leaf, proof: seq<ProofElement>)
      returns (x: seq<byte>, y: seq<byte>)
    requires leaves != []
    requires ClimbAll(d, LeafHash(d, leaf), proof) == RootOf(d, LeafHashes(d, leaves))
    ensures (leaf in leaves && |proof| == Levels(|leaves|)) || Collision(d, x, y)
  {
    RootIsTheTop(d, LeafHashes(d, leaves));
    x, y := ClimbStaysInTree(d, leaves, leaf, proof, Levels(|leaves|));
  }

  // ----- binding

  lemma NextLevelBinding(d: Digest, a: seq<Hash32>, b: seq<Hash32>) returns (x: seq<byte>, y: seq<byte>)
    requires |a| == |b| && NextLevelOf(d, a) == NextLevelOf(d, b)
    ensures a == b || Collision(d, x, y)
  {
    x, y := [], [];
    if a != b {
      var j :| 0 <= j < |a| && a[j] != b[j];
      var i := j - j % 2;
      NextLevelAt(d, a, i / 2);
      NextLevelAt(d, b, i / 2);
      x := NodePreimage(a[i], RightOf(a, i));
      y := NodePreimage(b[i], RightOf(b, i));
      if x == y { NodePreimageInjective(a[i], RightOf(a, i), b[i], RightOf(b, i)); }
    }
  }

  /** Two lists of the same length with the same root are the same list, or here is a collision. */
  lemma {:induction false} RootBinding(d: Digest, a: seq<Hash32>, b: seq<Hash32>) returns (x: seq<byte>, y: seq<byte>)
    requires |a| == |b| > 0 && RootOf(d, a) == RootOf(d, b)
    ensures a == b || Collision(d, x, y)
    decreases |a|
  {
    if |a| == 1 {
      x, y := [], [];
      assert a == [a[0]] && b == [b[0]];
    } else {
      x, y := RootBinding(d, NextLevelOf(d, a), NextLevelOf(d, b));
      if !Collision(d, x, y) { x, y := NextLevelBinding(d, a, b); }
    }
  }

  lemma LeafHashesBinding(d: Digest, a: seq<Leaf>, b: seq<Leaf>) returns (x: seq<byte>, y: seq<byte>)
    requires LeafHashes(d, a) == LeafHashes(d, b)
    ensures a == b || Collision(d, x, y)
  {
    x, y := [], [];
    assert |a| == |LeafHashes(d, a)| == |b|;
    if a != b {
      var i :| 0 <= i < |a| && a[i] != b[i];
      assert LeafHashes(d, a)[i] == LeafHashes(d, b)[i];
      x, y := LeafPreimage(a[i]), LeafPreimage(b[i]);
      if x == y { LeafPreimageInjective(a[i], b[i]); }
    }
  }

  // ----- roots of lists of different lengths

  /** Two levels have the same parent where they have the same pair of children. */
  lemma SameParent(d: Digest, full: seq<Hash32>, j: nat, s: seq<Hash32>, p: nat)
    requires 2 * j + 1 < |full| && 2 * p < |s|
    requires full[2 * j] == s[2 * p] && full[2 * j + 1] == RightOf(s, 2 * p)
    ensures NextLevelOf(d, full)[j] == NextLevelOf(d, s)[p]
  {
    NextLevelAt(d, full, j);
    NextLevelAt(d, s, p);
  }

  ghost predicate SameNext(d: Digest, a: seq<Hash32>, b: seq<Hash32>) { NextLevelOf(d, a) == NextLevelOf(d, b) }

  ghost predicate LastRepeated(s: seq<Hash32>, longer: seq<Hash32>) {
    |s| % 2 == 1 && |longer| == |s| + 1 && longer[..|s|] == s && longer[|s|] == s[|s| - 1]
  }

  lemma RepeatedLastPair(s: seq<Hash32>, longer: seq<Hash32>, i: nat)
    requires LastRepeated(s, longer) && 2 * i < |s|
    ensures longer[2 * i] == s[2 * i] && longer[2 * i + 1] == RightOf(s, 2 * i)
  {
    assert longer[2 * i] == longer[..|s|][2 * i];
    if 2 * i + 1 < |s| { assert longer[2 * i + 1] == longer[..|s|][2 * i + 1]; }
  }

  lemma RepeatedLastNext(d: Digest, s: seq<Hash32>, longer: seq<Hash32>)
    requires LastRepeated(s, longer)
    ensures SameNext(d, longer, s)
  {
    var a, b := NextLevelOf(d, longer), NextLevelOf(d, s);
    assert |a| == |b|;
    forall i | 0 <= i < |b| ensures a[i] == b[i] {
      RepeatedLastPair(s, longer, i);
      SameParent(d, longer, i, s, i);
    }
  }

  lemma SameRootFromNext(d: Digest, a: seq<Hash32>, b: seq<Hash32>)
    requires |a| > 1 && |b| > 1 && SameNext(d, a, b)
    ensures RootOf(d, a) == RootOf(d, b)
  {
  }

  /** Without the length the root does not bind: repeating the last leaf of any odd list keeps it, under
      every digest. */
  lemma RootIgnoresRepeatedLast(d: Digest, s: seq<Hash32>)
    requires |s| > 1 && |s| % 2 == 1
    ensures RootOf(d, s + [s[|s| - 1]]) == RootOf(d, s)
  {
    var longer := s + [s[|s| - 1]];
    RepeatedLastNext(d, s, longer);
    SameRootFromNext(d, longer, s);
  }

  /** Which of `n` leaves stands at place `i` once every odd level is filled up with a copy of its last
      subtree. */
  function Source(n: nat, i: nat): (k: nat)
    requires n > 0
    ensures k < n
  {
    if n == 1 then 0
    else
      var child := 2 * Source((n + 1) / 2, i / 2) + i % 2;
      if child < n then child else n - 1
  }

  /** The leaves of the full tree that has the same root. */
  function Padded<T>(s: seq<T>): (r: seq<T>)
    requires s != []
    ensures |r| == Pow2(Levels(|s|))
    ensures forall i :: 0 <= i < |r| ==> r[i] == s[Source(|s|, i)]
  {
    seq(Pow2(Levels(|s|)), i requires 0 <= i < Pow2(Levels(|s|)) => s[Source(|s|, i)])
  }

  lemma SourceOfPair(n: nat, j: nat)
    requires n > 1
    ensures var p := Source((n + 1) / 2, j);
            && 2 * p < n && Source(n, 2 * j) == 2 * p
            && Source(n, 2 * j + 1) == if 2 * p + 1 < n then 2 * p + 1 else 2 * p
  {
    assert (2 * j) / 2 == j && (2 * j + 1) / 2 == j && (2 * j) % 2 == 0 && (2 * j + 1) % 2 == 1;
  }

  lemma PaddedPair(s: seq<Hash32>, j: nat)
    requires |s| > 1 && 2 * j + 1 < |Padded(s)|
    ensures var p := Source((|s| + 1) / 2, j);
            2 * p < |s| && Padded(s)[2 * j] == s[2 * p] && Padded(s)[2 * j + 1] == RightOf(s, 2 * p)
  {
    SourceOfPair(|s|, j);
  }

  lemma PaddedParent(d: Digest, s: seq<Hash32>, j: nat)
    requires |s| > 1 && 2 * j + 1 < |Padded(s)|
    ensures NextLevelOf(d, Padded(s))[j] == NextLevelOf(d, s)[Source((|s| + 1) / 2, j)]
  {
    PaddedPair(s, j);
    SameParent(d, Padded(s), j, s, Source((|s| + 1) / 2, j));
  }

  lemma PaddedSize(d: Digest, s: seq<Hash32>)
    requires |s| > 1
    ensures |Padded(s)| == 2 * |Padded(NextLevelOf(d, s))|
    ensures |NextLevelOf(d, Padded(s))| == |Padded(NextLevelOf(d, s))|
  {
    var n := |s|;
    assert Levels(n) == 1 + Levels((n + 1) / 2);
  }

  lemma PaddedNext(d: Digest, s: seq<Hash32>)
    requires |s| > 1
    ensures NextLevelOf(d, Padded(s)) == Padded(NextLevelOf(d, s))
  {
    var next := NextLevelOf(d, s);
    PaddedSize(d, s);
    forall j | 0 <= j < |Padded(next)| ensures NextLevelOf(d, Padded(s))[j] == Padded(next)[j] {
      PaddedParent(d, s, j);
    }
  }

  lemma {:induction false} PaddedRoot(d: Digest, s: seq<Hash32>)
    requires s != []
    ensures RootOf(d, Padded(s)) == RootOf(d, s)
    decreases |s|
  {
    if |s| > 1 {
      PaddedNext(d, s);
      PaddedRoot(d, NextLevelOf(d, s));
    }
  }

  lemma PaddedHashes(d: Digest, leaves: seq<Leaf>)
    requires leaves != []
    ensures LeafHashes(d, Padded(leaves)) == Padded(LeafHashes(d, leaves))
  {
  }

  lemma SameRootSameHeight(d: Digest, a: seq<Leaf>, b: seq<Leaf>) returns (x: seq<byte>, y: seq<byte>)
    requires a != [] && b != [] && RootOf(d, LeafHashes(d, a)) == RootOf(d, LeafHashes(d, b))
    ensures Levels(|a|) == Levels(|b|) || Collision(d, x, y)
  {
    var hashes := LeafHashes(d, b);
    ProofComplete(d, hashes, 0);
    x, y := VerifySound(d, b, b[0], ProofOf(d, hashes, 0));
    if !Collision(d, x, y) { x, y := VerifySound(d, a, b[0], ProofOf(d, hashes, 0)); }
  }

  /** Batches of any lengths have the same root exactly when they fill up to the same leaves, unless here
      is a collision. */
  lemma SameRoot(d: Digest, a: seq<Leaf>, b: seq<Leaf>) returns (x: seq<byte>, y: seq<byte>)
    requires a != [] && b != []
    ensures Padded(a) == Padded(b) ==> RootOf(d, LeafHashes(d, a)) == RootOf(d, LeafHashes(d, b))
    ensures RootOf(d, LeafHashes(d, a)) == RootOf(d, LeafHashes(d, b)) ==> Padded(a) == Padded(b) || Collision(d, x, y)
  {
    x, y := [], [];
    PaddedHashes(d, a);
    PaddedHashes(d, b);
    PaddedRoot(d, LeafHashes(d, a));
    PaddedRoot(d, LeafHashes(d, b));
    if RootOf(d, LeafHashes(d, a)) == RootOf(d, LeafHashes(d, b)) {
      x, y := SameRootSameHeight(d, a, b);
      if !Collision(d, x, y) { x, y := RootBinding(d, LeafHashes(d, Padded(a)), LeafHashes(d, Padded(b))); }
      if !Collision(d, x, y) { x, y := LeafHashesBinding(d, Padded(a), Padded(b)); }
    }
  }

  // ----- exactly which proofs are accepted

  /** Where the path from place `i` of the leaves crosses the level of this height. */
  function PlaceAt(i: nat, height: nat): nat { if height == 0 then i else PlaceAt(i, height - 1) / 2 }

  lemma {:induction false} PlaceAbove(i: nat, height: nat)
    ensures PlaceAt(i / 2, height) == PlaceAt(i, height + 1)
  {
    if height > 0 { PlaceAbove(i, height - 1); }
  }

  /** The element of a path at one level. */
  ghost predicate ElementOf(level: seq<Hash32>, place: nat, e: ProofElement) {
    place < |level| && e == ElementAt(level, place)
  }

  /** The siblings and sides along the path from place `i`, up to this height. */
  ghost predicate Path(d: Digest, hashes: seq<Hash32>, i: nat, proof: seq<ProofElement>) {
    forall t :: 0 <= t < |proof| ==> ElementOf(LevelAt(d, hashes, t), PlaceAt(i, t), proof[t])
  }

  lemma PathLonger(d: Digest, hashes: seq<Hash32>, i: nat, proof: seq<ProofElement>)
    requires proof != []
    requires var n := |proof| - 1;
             Path(d, hashes, i, proof[..n]) && ElementOf(LevelAt(d, hashes, n), PlaceAt(i, n), proof[n])
    ensures Path(d, hashes, i, proof)
  {
    var n := |proof| - 1;
    forall t | 0 <= t < |proof| ensures ElementOf(LevelAt(d, hashes, t), PlaceAt(i, t), proof[t]) {
      if t < n { assert proof[..n][t] == proof[t]; }
    }
  }

  lemma SamePath(d: Digest, hashes: seq<Hash32>, i: nat, a: seq<ProofElement>, b: seq<ProofElement>)
    requires |a| == |b| && Path(d, hashes, i, a) && Path(d, hashes, i, b)
    ensures a == b
  {
    forall t | 0 <= t < |a| ensures a[t] == b[t] {
      assert ElementOf(LevelAt(d, hashes, t), PlaceAt(i, t), a[t]);
      assert ElementOf(LevelAt(d, hashes, t), PlaceAt(i, t), b[t]);
    }
  }

  lemma {:induction false} ProofIsPath(d: Digest, hashes: seq<Hash32>, i: nat)
    requires i < |hashes|
    ensures |ProofOf(d, hashes, i)| == Levels(|hashes|) && Path(d, hashes, i, ProofOf(d, hashes, i))
    decreases |hashes|
  {
    if |hashes| > 1 {
      var next := NextLevelOf(d, hashes);
      var rest := ProofOf(d, next, i / 2);
      ProofIsPath(d, next, i / 2);
      forall t | 0 < t <= |rest| ensures ElementOf(LevelAt(d, hashes, t), PlaceAt(i, t), rest[t - 1]) {
        assert ElementOf(LevelAt(d, next, t - 1), PlaceAt(i / 2, t - 1), rest[t - 1]);
        LevelAbove(d, hashes, t - 1);
        PlaceAbove(i, t - 1);
      }
      assert ProofOf(d, hashes, i) == [ElementAt(hashes, i)] + rest;
    }
  }

  lemma {:induction false} FullLevel(d: Digest, hashes: seq<Hash32>, levels: nat, height: nat)
    requires |hashes| == Pow2(levels) && height <= levels
    ensures |LevelAt(d, hashes, height)| == Pow2(levels - height)
  {
    if height > 0 { FullLevel(d, hashes, levels, height - 1); }
  }

  /** A node of a full tree is the hash of its two children and of nothing else, so the last element of a climb
      to it is the sibling of the child it came from. */
  lemma LastOfClimb(d: Digest, below: seq<Hash32>, k: nat, current: Hash32, last: ProofElement)
      returns (p: nat, x: seq<byte>, y: seq<byte>)
    requires 2 * k + 1 < |below| && Climb(d, current, last) == NextLevelOf(d, below)[k]
    ensures (p < |below| && p / 2 == k && current == below[p] && ElementOf(below, p, last)) || Collision(d, x, y)
  {
    NextLevelAt(d, below, k);
    var (left, right) := if last.side == Left then (last.sibling, current) else (current, last.sibling);
    p := if last.side == Left then 2 * k + 1 else 2 * k;
    x, y := NodePreimage(left, right), NodePreimage(below[2 * k], below[2 * k + 1]);
    if x == y { NodePreimageInjective(left, right, below[2 * k], below[2 * k + 1]); }
  }

  /** A climb that arrives at place `k` of a level of a full tree, and is as long as that is high, started at a
      leaf below it and followed the path from there. */
  lemma {:induction false} ClimbIsPath(d: Digest, leaves: seq<Leaf>, levels: nat, leaf: Leaf, proof: seq<ProofElement>,
                                       k: nat)
      returns (i: nat, x: seq<byte>, y: seq<byte>)
    requires |leaves| == Pow2(levels) && |proof| <= levels && k < |LevelAt(d, LeafHashes(d, leaves), |proof|)|
    requires ClimbAll(d, LeafHash(d, leaf), proof) == LevelAt(d, LeafHashes(d, leaves), |proof|)[k]
    ensures || Collision(d, x, y)
            || (&& i < |leaves| && leaf == leaves[i] && PlaceAt(i, |proof|) == k
                && Path(d, LeafHashes(d, leaves), i, proof))
    decreases |proof|
  {
    var hashes := LeafHashes(d, leaves);
    i := k;
    if proof == [] {
      x, y := LeafPreimage(leaf), LeafPreimage(leaves[k]);
      if x == y { LeafPreimageInjective(leaf, leaves[k]); }
    } else {
      var n := |proof| - 1;
      FullLevel(d, hashes, levels, n);
      FullLevel(d, hashes, levels, n + 1);
      var p;
      p, x, y := LastOfClimb(d, LevelAt(d, hashes, n), k, ClimbAll(d, LeafHash(d, leaf), proof[..n]), proof[n]);
      if !Collision(d, x, y) {
        i, x, y := ClimbIsPath(d, leaves, levels, leaf, proof[..n], p);
        if !Collision(d, x, y) { PathLonger(d, hashes, i, proof); }
      }
    }
  }

  lemma {:induction false} LevelsOfPow2(levels: nat)
    ensures Levels(Pow2(levels)) == levels
  {
    if levels > 0 { LevelsOfPow2(levels - 1); }
  }

  /** The leaf is at place `i` of the full tree, and the proof is the one made for that place. */
  ghost predicate MadeFor(d: Digest, leaves: seq<Leaf>, leaf: Leaf, proof: seq<ProofElement>, i: nat)
    requires leaves != []
  {
    i < |Padded(leaves)| && leaf == Padded(leaves)[i] && proof == ProofOf(d, LeafHashes(d, Padded(leaves)), i)
  }

  lemma AcceptedIsMade(d: Digest, leaves: seq<Leaf>, leaf: Leaf, proof: seq<ProofElement>)
      returns (i: nat, x: seq<byte>, y: seq<byte>)
    requires leaves != []
    requires ClimbAll(d, LeafHash(d, leaf), proof) == RootOf(d, LeafHashes(d, leaves))
    ensures MadeFor(d, leaves, leaf, proof, i) || Collision(d, x, y)
  {
    var levels, full := Levels(|leaves|), Padded(leaves);
    var hashes := LeafHashes(d, full);
    i := 0;
    PaddedHashes(d, leaves);
    PaddedRoot(d, LeafHashes(d, leaves));
    x, y := VerifySound(d, leaves, leaf, proof);
    if !Collision(d, x, y) {
      LevelsOfPow2(levels);
      RootIsTheTop(d, hashes);
      i, x, y := ClimbIsPath(d, full, levels, leaf, proof, 0);
      if !Collision(d, x, y) {
        ProofIsPath(d, hashes, i);
        SamePath(d, hashes, i, proof, ProofOf(d, hashes, i));
      }
    }
  }

  /** A proof is accepted for a leaf exactly when, for some place of the full tree, the leaf is there and the
      proof is the one made for that place; unless here is a collision. */
  lemma VerifyExact(d: Digest, leaves: seq<Leaf>, leaf: Leaf, proof: seq<ProofElement>)
      returns (x: seq<byte>, y: seq<byte>)
    requires leaves != []
    ensures (exists i :: MadeFor(d, leaves, leaf, proof, i)) ==>
      ClimbAll(d, LeafHash(d, leaf), proof) == RootOf(d, LeafHashes(d, leaves))
    ensures ClimbAll(d, LeafHash(d, leaf), proof) == RootOf(d, LeafHashes(d, leaves)) ==>
      (exists i :: MadeFor(d, leaves, leaf, proof, i)) || Collision(d, x, y)
  {
    x, y := [], [];
    if i :| MadeFor(d, leaves, leaf, proof, i) {
      PaddedHashes(d, leaves);
      PaddedRoot(d, LeafHashes(d, leaves));
      ProofComplete(d, LeafHashes(d, Padded(leaves)), i);
    }
    if ClimbAll(d, LeafHash(d, leaf), proof) == RootOf(d, LeafHashes(d, leaves)) {
      var i;
      i, x, y := AcceptedIsMade(d, leaves, leaf, proof);
    }
  }
}
