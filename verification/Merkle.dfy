/** Merkle roots, proofs and their verification, over any hash function `h` on strings. */
module Merkle {
  import opened Bits

  /** Length of a digest in hex. */
  const HEX: nat := 64

  /** Go's string order. */
  predicate Greater(a: string, b: string) {
    if a == "" then false
    else if b == "" then true
    else if a[0] != b[0] then a[0] > b[0]
    else Greater(a[1..], b[1..])
  }

  /** The two hashes of a node, concatenated in order. */
  function Pair(a: string, b: string): string {
    if Greater(a, b) then b + a else a + b
  }

  function Combine(h: string -> string, a: string, b: string): string {
    h(Pair(a, b))
  }

  /** The level above; an odd last node is paired with itself. */
  function Level(h: string -> string, level: seq<string>): (next: seq<string>)
    ensures |next| == (|level| + 1) / 2
  {
    if level == [] then []
    else if |level| == 1 then [Combine(h, level[0], level[0])]
    else [Combine(h, level[0], level[1])] + Level(h, level[2..])
  }

  function Root(h: string -> string, leaves: seq<string>): string
    decreases |leaves|
  {
    if leaves == [] then seq(HEX, _ => '0')
    else if |leaves| == 1 then leaves[0]
    else Root(h, Level(h, leaves))
  }

  function Height(n: nat): nat {
    if n <= 1 then 0 else 1 + Height((n + 1) / 2)
  }

  /** What the node with this index is hashed with. */
  function Sibling(level: seq<string>, index: nat): string
    requires index < |level|
  {
    if index % 2 == 1 then level[index - 1]
    else if index + 1 < |level| then level[index + 1]
    else level[index]
  }

  function Proof(h: string -> string, leaves: seq<string>, index: nat): seq<string>
    requires index < |leaves|
    decreases |leaves|
  {
    if |leaves| == 1 then [] else [Sibling(leaves, index)] + Proof(h, Level(h, leaves), index / 2)
  }

  /** The root that a leaf and a proof lead to. The leaf's index plays no role. */
  function Fold(h: string -> string, leaf: string, proof: seq<string>): string
    decreases |proof|
  {
    if proof == [] then leaf else Fold(h, Combine(h, leaf, proof[0]), proof[1..])
  }

  // ---- the loops ----

  lemma {:induction false} OrderIsTotal(a: string, b: string)
    ensures !(Greater(a, b) && Greater(b, a))
    ensures !Greater(a, b) && !Greater(b, a) ==> a == b
  {
    if a != "" && b != "" && a[0] == b[0] {
      OrderIsTotal(a[1..], b[1..]);
      assert a == [a[0]] + a[1..] && b == [b[0]] + b[1..];
    }
  }

  /** The first difference decides; a proper prefix is smaller. */
  lemma {:induction false} OrderIsBytewise(a: string, b: string, k: nat)
    requires k <= |a| && k <= |b| && a[..k] == b[..k]
    ensures k < |a| && k < |b| && a[k] != b[k] ==> (Greater(a, b) <==> a[k] > b[k])
    ensures k == |b| ==> (Greater(a, b) <==> |a| > |b|)
    ensures k == |a| ==> !Greater(a, b)
  {
    if k > 0 {
      assert a[..k][0] == b[..k][0];
      assert a[1..][..k - 1] == a[..k][1..] && b[1..][..k - 1] == b[..k][1..];
      OrderIsBytewise(a[1..], b[1..], k - 1);
    }
  }

  lemma PairSymmetric(a: string, b: string)
    ensures Pair(a, b) == Pair(b, a)
  {
    OrderIsTotal(a, b);
  }

  lemma {:induction false} LevelAt(h: string -> string, level: seq<string>, j: nat)
    requires 2 * j < |level|
    ensures Level(h, level)[j] == Combine(h, level[2 * j], Sibling(level, 2 * j))
  {
    hide Combine;
    if j > 0 {
      LevelAt(h, level[2..], j - 1);
    }
  }

  lemma CombineSymmetric(h: string -> string, a: string, b: string)
    ensures Combine(h, a, b) == Combine(h, b, a)
  {
    PairSymmetric(a, b);
  }

  /** The node above any node is hashed from it and its sibling. */
  lemma NodeAbove(h: string -> string, level: seq<string>, index: nat, j: nat)
    requires index < |level| && (index == 2 * j || index == 2 * j + 1)
    ensures Level(h, level)[j] == Combine(h, level[index], Sibling(level, index))
  {
    hide Level, Combine, Sibling;
    LevelAt(h, level, j);
    if index == 2 * j + 1 {
      Siblings(level, j);
      CombineSymmetric(h, level[2 * j], level[index]);
    }
  }

  lemma Siblings(level: seq<string>, j: nat)
    requires 2 * j + 1 < |level|
    ensures Sibling(level, 2 * j) == level[2 * j + 1] && Sibling(level, 2 * j + 1) == level[2 * j]
  {
  }

  /** One pass over a level, two nodes at a time. */
  method NextLevel(h: string -> string, current: seq<string>) returns (next: seq<string>)
    ensures next == Level(h, current)
  {
    hide Level, Greater;
    next := [];
    var i := 0;
    while i < |current|
      invariant 0 <= i <= |current| + 1 && i % 2 == 0 && (i > |current| ==> |current| % 2 == 1)
      invariant |next| == i / 2 && next == Level(h, current)[..i / 2]
    {
      LevelAt(h, current, i / 2);
      if i + 1 < |current| {
        var pair := current[i] + current[i + 1];
        if Greater(current[i], current[i + 1]) {
          pair := current[i + 1] + current[i];
        }
        next := next + [h(pair)];
      } else {
        next := next + [h(current[i] + current[i])];
      }
      i := i + 2;
    }
  }

  method MerkleRoot(h: string -> string, hashes: seq<string>) returns (root: string)
    ensures root == Root(h, hashes)
  {
    if |hashes| == 0 { return seq(HEX, _ => '0'); }
    var current := hashes;
    while |current| > 1
      invariant |current| > 0 && Root(h, current) == Root(h, hashes)
      decreases |current|
    {
      current := NextLevel(h, current);
    }
    return current[0];
  }

  /** One level of the proof loop: the level above is built, and the sibling met on the way recorded. */
  method ClimbLevel(h: string -> string, current: seq<string>, index: nat, proof: seq<string>)
    returns (next: seq<string>, extended: seq<string>)
    requires index < |current|
    ensures next == Level(h, current)
    ensures extended == proof + [Sibling(current, index)]
  {
    hide Level, Greater;
    next, extended := [], proof;
    var i := 0;
    while i < |current|
      invariant 0 <= i <= |current| + 1 && i % 2 == 0 && (i > |current| ==> |current| % 2 == 1)
      invariant |next| == i / 2 && next == Level(h, current)[..i / 2]
      invariant extended == if index < i then proof + [Sibling(current, index)] else proof
    {
      LevelAt(h, current, i / 2);
      if i + 1 < |current| {
        var pair := current[i] + current[i + 1];
        if Greater(current[i], current[i + 1]) {
          pair := current[i + 1] + current[i];
        }
        next := next + [h(pair)];
        if i == index {
          extended := extended + [current[i + 1]];
        } else if i + 1 == index {
          extended := extended + [current[i]];
        }
      } else {
        next := next + [h(current[i] + current[i])];
        if i == index {
          extended := extended + [current[i]];
        }
      }
      i := i + 2;
    }
  }

  /** An index outside the list gives no proof. */
  method MerkleProof(h: string -> string, hashes: seq<string>, leafIndex: int) returns (proof: seq<string>)
    ensures proof == if 0 <= leafIndex < |hashes| then Proof(h, hashes, leafIndex) else []
  {
    if leafIndex < 0 || leafIndex >= |hashes| { return []; }
    hide Level, Sibling;
    proof := [];
    var current := hashes;
    var index: nat := leafIndex;
    while |current| > 1
      invariant index < |current| && proof + Proof(h, current, index) == Proof(h, hashes, leafIndex)
      decreases |current|
    {
      ghost var rest := Proof(h, Level(h, current), index / 2);
      ghost var sibling := Sibling(current, index);
      assert proof + Proof(h, current, index) == proof + [sibling] + rest;
      current, proof := ClimbLevel(h, current, index, proof);
      index := index / 2;
    }
  }

  /** Verification; `leafIndex` decides which branch concatenates, but not the result. */
  method VerifyMerkleProof(h: string -> string, leafHash: string, proof: seq<string>, root: string, leafIndex: int)
    returns (valid: bool)
    ensures valid <==> Fold(h, leafHash, proof) == root
  {
    var current := leafHash;
    var index := leafIndex;
    for i := 0 to |proof|
      invariant Fold(h, current, proof[i..]) == Fold(h, leafHash, proof)
    {
      var sibling := proof[i];
      var pair: string;
      if index % 2 == 0 {
        pair := if Greater(current, sibling) then sibling + current else current + sibling;
      } else {
        pair := if Greater(sibling, current) then current + sibling else sibling + current;
      }
      PairSymmetric(current, sibling);
      assert proof[i..][1..] == proof[i + 1..];
      current := h(pair);
      index := if index < 0 then -(-index / 2) else index / 2;
    }
    valid := current == root;
  }

  // ---- completeness ----

  lemma Halves(n: nat)
    ensures n == 2 * (n / 2) || n == 2 * (n / 2) + 1
  {
  }

  /** A proof starts with the leaf's sibling, and goes on with the proof of their parent. */
  lemma ProofStep(h: string -> string, leaves: seq<string>, index: nat)
    requires index < |leaves| && |leaves| > 1
    ensures var proof, next := Proof(h, leaves, index), Level(h, leaves);
      && |proof| > 0 && proof[0] == Sibling(leaves, index)
      && proof[1..] == Proof(h, next, index / 2)
      && next[index / 2] == Combine(h, leaves[index], Sibling(leaves, index))
  {
    Halves(index);
    NodeAbove(h, leaves, index, index / 2);
    hide Level, Sibling, Combine;
  }

  /** The proof made for a leaf always leads from that leaf to the root, and it is as long as the
      tree is high; odd levels included. */
  lemma {:induction false} Completeness(h: string -> string, leaves: seq<string>, index: nat)
    requires index < |leaves|
    ensures Fold(h, leaves[index], Proof(h, leaves, index)) == Root(h, leaves)
    ensures |Proof(h, leaves, index)| == Height(|leaves|)
    decreases |leaves|
  {
    if |leaves| > 1 {
      ProofStep(h, leaves, index);
      Completeness(h, Level(h, leaves), index / 2);
      hide Level, Sibling, Proof, Combine;
    }
  }

  /** The height is the logarithm rounded up. */
  lemma {:induction false} HeightIsLog(n: nat)
    requires n > 0
    ensures Pow2(Height(n)) >= n
    ensures n > 1 ==> Pow2(Height(n) - 1) < n
  {
    if n > 1 {
      HeightIsLog((n + 1) / 2);
    }
  }

  // ---- soundness ----

  /** Every string that is hashed while the root is computed. */
  ghost function TreeInputs(h: string -> string, leaves: seq<string>): set<string>
    decreases |leaves|
  {
    if |leaves| <= 1 then {} else LevelInputs(leaves) + TreeInputs(h, Level(h, leaves))
  }

  ghost function LevelInputs(level: seq<string>): set<string> {
    set i | 0 <= i < |level| :: Pair(level[i], Sibling(level, i))
  }

  /** Every string that is hashed while a proof is verified. */
  ghost function ProofInputs(h: string -> string, leaf: string, proof: seq<string>): set<string>
    decreases |proof|
  {
    if proof == [] then {}
    else {Pair(leaf, proof[0])} + ProofInputs(h, Combine(h, leaf, proof[0]), proof[1..])
  }

  /** Two different strings, one of each set, with the same hash. */
  ghost predicate Collision(h: string -> string, a: set<string>, b: set<string>) {
    exists x, y :: x in a && y in b && x != y && h(x) == h(y)
  }

  ghost predicate Digests(h: string -> string) {
    forall x :: |h(x)| == HEX
  }

  predicate AllHex(hashes: seq<string>) {
    forall i | 0 <= i < |hashes| :: |hashes[i]| == HEX
  }

  lemma PairMember(a: string, b: string, c: string, d: string)
    requires |a| == |c| == |d| && Pair(a, b) == Pair(c, d)
    ensures a == c || a == d
  {
    var s := Pair(a, b);
    assert |b| == |a|;
    assert s[..|a|] == (if Greater(a, b) then b else a) && s[|a|..] == (if Greater(a, b) then a else b);
    assert s[..|a|] == (if Greater(c, d) then d else c) && s[|a|..] == (if Greater(c, d) then c else d);
  }

  lemma {:induction false} LevelIsHex(h: string -> string, level: seq<string>)
    requires Digests(h)
    ensures AllHex(Level(h, level))
  {
    if |level| > 1 {
      LevelIsHex(h, level[2..]);
    }
  }

  /** One level of soundness: whatever hashes to the tree's node `j` is made of the node's children. */
  lemma SoundStep(h: string -> string, leaf: string, sibling: string, leaves: seq<string>, j: nat)
    requires |leaf| == HEX && AllHex(leaves) && 2 * j < |leaves|
    requires Level(h, leaves)[j] == Combine(h, leaf, sibling)
    ensures leaf in leaves || Collision(h, {Pair(leaf, sibling)}, LevelInputs(leaves))
  {
    hide Level, Pair, LevelInputs;
    var i := 2 * j;
    LevelAt(h, leaves, j);
    PairInLevel(leaves, i);
    var node, other := leaves[i], Sibling(leaves, i);
    assert |node| == HEX && |other| == HEX && node in leaves && other in leaves;
    hide Sibling, AllHex;
    if Pair(leaf, sibling) == Pair(node, other) {
      PairMember(leaf, sibling, node, other);
    } else {
      CollisionOfPairs(h, Pair(leaf, sibling), Pair(node, other), LevelInputs(leaves));
    }
  }

  lemma CollisionOfPairs(h: string -> string, x: string, y: string, b: set<string>)
    requires x != y && h(x) == h(y) && y in b
    ensures Collision(h, {x}, b)
  {
    assert x in {x};
  }

  /** Merkle soundness: a proof of the tree's height that leads to the root shows that its leaf is one
      of the leaves; otherwise two of the strings actually hashed by the two computations collide. The
      proof's entries may be anything. */
  lemma {:induction false} Soundness(h: string -> string, leaf: string, proof: seq<string>, leaves: seq<string>)
    requires Digests(h) && |leaf| == HEX && AllHex(leaves) && leaves != []
    requires |proof| == Height(|leaves|) && Fold(h, leaf, proof) == Root(h, leaves)
    ensures leaf in leaves || Collision(h, ProofInputs(h, leaf, proof), TreeInputs(h, leaves))
    decreases |leaves|
  {
    if |leaves| > 1 {
      var next, node := Level(h, leaves), Combine(h, leaf, proof[0]);
      LevelIsHex(h, leaves);
      Soundness(h, node, proof[1..], next);
      if node in next {
        var j :| 0 <= j < |next| && next[j] == node;
        SoundStep(h, leaf, proof[0], leaves, j);
        if leaf !in leaves {
          CollisionGrows(h, {Pair(leaf, proof[0])}, LevelInputs(leaves),
                         ProofInputs(h, leaf, proof), TreeInputs(h, leaves));
        }
      } else {
        CollisionGrows(h, ProofInputs(h, node, proof[1..]), TreeInputs(h, next),
                       ProofInputs(h, leaf, proof), TreeInputs(h, leaves));
      }
    }
  }

  lemma CollisionGrows(h: string -> string, a: set<string>, b: set<string>, a': set<string>, b': set<string>)
    requires Collision(h, a, b) && a <= a' && b <= b'
    ensures Collision(h, a', b')
  {
  }

  lemma PairInLevel(level: seq<string>, index: nat)
    requires index < |level|
    ensures Pair(level[index], Sibling(level, index)) in LevelInputs(level)
  {
  }

  lemma {:induction false} ProofInputsInTree(h: string -> string, leaves: seq<string>, index: nat)
    requires index < |leaves|
    ensures ProofInputs(h, leaves[index], Proof(h, leaves, index)) <= TreeInputs(h, leaves)
    decreases |leaves|
  {
    if |leaves| > 1 {
      ProofStep(h, leaves, index);
      ProofInputsInTree(h, Level(h, leaves), index / 2);
      PairInLevel(leaves, index);
      hide Level, LevelInputs, Sibling, Proof, Pair, Combine;
    }
  }

  lemma Included(h: string -> string, a: seq<string>, b: seq<string>)
    requires Digests(h) && AllHex(a) && AllHex(b) && a != [] && b != []
    requires Height(|a|) == Height(|b|) && Root(h, a) == Root(h, b)
    ensures (forall x | x in a :: x in b) || Collision(h, TreeInputs(h, a), TreeInputs(h, b))
  {
    if i :| 0 <= i < |a| && a[i] !in b {
      Completeness(h, a, i);
      Soundness(h, a[i], Proof(h, a, i), b);
      ProofInputsInTree(h, a, i);
      CollisionGrows(h, ProofInputs(h, a[i], Proof(h, a, i)), TreeInputs(h, b), TreeInputs(h, a), TreeInputs(h, b));
    }
  }

  /** One root, one set of leaves: two lists of equal height with equal roots have the same leaves, or
      computing the two roots hashes two colliding strings. */
  lemma RootDeterminesLeaves(h: string -> string, a: seq<string>, b: seq<string>)
    requires Digests(h) && AllHex(a) && AllHex(b) && a != [] && b != []
    requires Height(|a|) == Height(|b|) && Root(h, a) == Root(h, b)
    ensures (forall x :: x in a <==> x in b) || Collision(h, TreeInputs(h, a), TreeInputs(h, b))
  {
    Included(h, a, b);
    Included(h, b, a);
    if Collision(h, TreeInputs(h, b), TreeInputs(h, a)) {
      var x, y :| x in TreeInputs(h, b) && y in TreeInputs(h, a) && x != y && h(x) == h(y);
      assert Collision(h, TreeInputs(h, a), TreeInputs(h, b));
    }
  }

  /** A node hashes its two children, the smaller one first: the one with the smaller byte where they first
      differ, or the one that the other continues. */
  lemma SmallerFirst(h: string -> string, a: string, b: string, k: nat)
    requires k <= |a| && k <= |b| && a[..k] == b[..k]
    ensures k < |a| && k < |b| && a[k] < b[k] ==> Combine(h, a, b) == h(a + b)
    ensures k < |a| && k < |b| && a[k] > b[k] ==> Combine(h, a, b) == h(b + a)
    ensures k == |a| ==> Combine(h, a, b) == h(a + b)
    ensures k == |b| < |a| ==> Combine(h, a, b) == h(b + a)
  {
    OrderIsBytewise(a, b, k);
    hide Greater;
  }

  /** The nodes of the next level: one for each two neighbours, and an odd last one with itself. */
  lemma NodesOfLevel(h: string -> string, level: seq<string>, j: nat)
    requires 2 * j < |level|
    ensures |Level(h, level)| == (|level| + 1) / 2
    ensures Level(h, level)[j] ==
      if 2 * j + 1 < |level| then Combine(h, level[2 * j], level[2 * j + 1]) else h(level[2 * j] + level[2 * j])
  {
    hide Level, Combine, Sibling;
    LevelAt(h, level, j);
    SiblingAtEven(level, j);
    SmallerFirst(h, level[2 * j], level[2 * j], |level[2 * j]|);
  }

  lemma SiblingAtEven(level: seq<string>, j: nat)
    requires 2 * j < |level|
    ensures Sibling(level, 2 * j) == if 2 * j + 1 < |level| then level[2 * j + 1] else level[2 * j]
  {
  }

  /** The smallest trees: no leaf, one, two, and three with the odd one doubled. */
  lemma SmallRoots(h: string -> string, a: string, b: string, c: string)
    ensures Root(h, []) == seq(64, _ => '0') && Root(h, [a]) == a && Root(h, [a, b]) == Combine(h, a, b)
    ensures Root(h, [a, b, c]) == Combine(h, Combine(h, a, b), h(c + c))
  {
    RootOfTwo(h, a, b);
    var three := [a, b, c];
    LevelAt(h, three, 0);
    LevelAt(h, three, 1);
    assert Combine(h, c, c) == h(c + c);
    assert Level(h, three) == [Combine(h, a, b), h(c + c)];
    RootOfTwo(h, Combine(h, a, b), h(c + c));
  }

  lemma RootOfTwo(h: string -> string, x: string, y: string)
    ensures Root(h, [x, y]) == Combine(h, x, y)
  {
    assert [x, y][2..] == [];
    assert Level(h, [x, y]) == [Combine(h, x, y)];
  }

  // ---- proofs of other lengths ----

  /** The `n`-th level of the tree, counted from the leaves. */
  function LevelN(h: string -> string, leaves: seq<string>, n: nat): seq<string>
    decreases n
  {
    if n == 0 then leaves else LevelN(h, Level(h, leaves), n - 1)
  }

  lemma {:induction false} LevelNFacts(h: string -> string, leaves: seq<string>, n: nat)
    requires leaves != [] && n <= Height(|leaves|)
    ensures var level := LevelN(h, leaves, n);
      && level != [] && Height(|level|) == Height(|leaves|) - n
      && Root(h, level) == Root(h, leaves) && TreeInputs(h, level) <= TreeInputs(h, leaves)
    ensures Digests(h) && AllHex(leaves) ==> AllHex(LevelN(h, leaves, n))
    decreases n
  {
    if n > 0 {
      if Digests(h) {
        LevelIsHex(h, leaves);
      }
      hide Level, AllHex, LevelInputs;
      LevelNFacts(h, Level(h, leaves), n - 1);
    }
  }

  /** The verifier does not check a proof's length, and a shorter one is about a higher level: every node
      of every level passes as a leaf, with a proof that is shorter by the level's number. */
  lemma InnerNodesPass(h: string -> string, leaves: seq<string>, n: nat, j: nat)
    requires leaves != [] && n <= Height(|leaves|) && j < |LevelN(h, leaves, n)|
    ensures var level := LevelN(h, leaves, n);
      && Fold(h, level[j], Proof(h, level, j)) == Root(h, leaves)
      && |Proof(h, level, j)| == Height(|leaves|) - n
  {
    hide LevelN;
    LevelNFacts(h, leaves, n);
    Completeness(h, LevelN(h, leaves, n), j);
  }

  /** And nothing else passes: a proof shorter than the tree is high by `n` that leads to the root shows
      that its string is in the `n`-th level, or two strings hashed on the way collide. */
  lemma LevelSoundness(h: string -> string, node: string, proof: seq<string>, leaves: seq<string>, n: nat)
    requires Digests(h) && |node| == HEX && AllHex(leaves) && leaves != []
    requires n <= Height(|leaves|) && |proof| == Height(|leaves|) - n && Fold(h, node, proof) == Root(h, leaves)
    ensures node in LevelN(h, leaves, n) || Collision(h, ProofInputs(h, node, proof), TreeInputs(h, leaves))
  {
    hide LevelN, Fold, Root, AllHex, Collision;
    LevelNFacts(h, leaves, n);
    var level := LevelN(h, leaves, n);
    Soundness(h, node, proof, level);
    if node !in level {
      CollisionGrows(h, ProofInputs(h, node, proof), TreeInputs(h, level),
                     ProofInputs(h, node, proof), TreeInputs(h, leaves));
    }
  }

  lemma {:induction false} FoldConcat(h: string -> string, x: string, p: seq<string>, q: seq<string>)
    ensures Fold(h, x, p + q) == Fold(h, Fold(h, x, p), q)
    ensures ProofInputs(h, Fold(h, x, p), q) <= ProofInputs(h, x, p + q)
    decreases |p|
  {
    hide Combine, Pair;
    if p == [] {
      assert p + q == q;
    } else {
      assert (p + q)[1..] == p[1..] + q;
      FoldConcat(h, Combine(h, x, p[0]), p[1..], q);
    }
  }

  /** A proof longer than the tree is high: what its first part leads to is a leaf, or two strings hashed on
      the way collide. */
  lemma LongProofSoundness(h: string -> string, x: string, proof: seq<string>, leaves: seq<string>)
    requires Digests(h) && |x| == HEX && AllHex(leaves) && leaves != []
    requires |proof| >= Height(|leaves|) && Fold(h, x, proof) == Root(h, leaves)
    ensures Fold(h, x, proof[..|proof| - Height(|leaves|)]) in leaves
      || Collision(h, ProofInputs(h, x, proof), TreeInputs(h, leaves))
  {
    var d := |proof| - Height(|leaves|);
    var up, rest := proof[..d], proof[d..];
    assert proof == up + rest;
    FoldConcat(h, x, up, rest);
    FoldIsHex(h, x, up);
    hide Fold, Root, AllHex, Collision, ProofInputs, TreeInputs;
    Soundness(h, Fold(h, x, up), rest, leaves);
    if Fold(h, x, up) !in leaves {
      CollisionGrows(h, ProofInputs(h, Fold(h, x, up), rest), TreeInputs(h, leaves),
                     ProofInputs(h, x, proof), TreeInputs(h, leaves));
    }
  }

  lemma {:induction false} FoldIsHex(h: string -> string, x: string, proof: seq<string>)
    requires Digests(h) && |x| == HEX
    ensures |Fold(h, x, proof)| == HEX
    decreases |proof|
  {
    if proof != [] {
      FoldIsHex(h, Combine(h, x, proof[0]), proof[1..]);
    }
  }

  /** And every such proof passes: whatever leads to a leaf passes with that leaf's proof appended. */
  lemma LongProofsPass(h: string -> string, x: string, up: seq<string>, leaves: seq<string>, index: nat)
    requires index < |leaves| && Fold(h, x, up) == leaves[index]
    ensures Fold(h, x, up + Proof(h, leaves, index)) == Root(h, leaves)
  {
    FoldConcat(h, x, up, Proof(h, leaves, index));
    Completeness(h, leaves, index);
  }
}
