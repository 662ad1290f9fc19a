/** How often a leaf occurs: a Merkle root determines it exactly if the number of leaves is a power of two. */
module MerkleCounts {
  import opened Bits
  import opened Merkle

  // ---- powers of two: the root determines the multiset of leaves ----

  /** The strings hashed for the nodes of the next level, of a level of even length. */
  function Pairs(level: seq<string>): seq<string> {
    if |level| < 2 then [] else [Pair(level[0], level[1])] + Pairs(level[2..])
  }

  function Hashed(h: string -> string, strings: seq<string>): seq<string> {
    seq(|strings|, i requires 0 <= i < |strings| => h(strings[i]))
  }

  /** The two digests that a hashed string is made of. */
  function Parts(s: string): multiset<string> {
    if |s| == 2 * HEX then multiset{s[..HEX], s[HEX..]} else multiset{}
  }

  function AllParts(strings: seq<string>): multiset<string> {
    if strings == [] then multiset{} else Parts(strings[0]) + AllParts(strings[1..])
  }

  lemma PartsOfPair(a: string, b: string)
    requires |a| == HEX && |b| == HEX
    ensures Parts(Pair(a, b)) == multiset{a, b}
  {
    assert (a + b)[..HEX] == a && (a + b)[HEX..] == b;
    assert (b + a)[..HEX] == b && (b + a)[HEX..] == a;
  }

  lemma {:induction false} PairsAt(level: seq<string>, i: nat)
    requires 2 * i + 1 < |level|
    ensures i < |Pairs(level)| && Pairs(level)[i] == Pair(level[2 * i], level[2 * i + 1])
  {
    hide Pair;
    if i > 0 {
      PairsAt(level[2..], i - 1);
    }
  }

  lemma {:induction false} PairsLength(level: seq<string>)
    ensures |Pairs(level)| == |level| / 2
  {
    hide Pair;
    if |level| >= 2 {
      PairsLength(level[2..]);
    }
  }

  lemma PairsAreInputs(level: seq<string>)
    ensures forall s | s in Pairs(level) :: s in LevelInputs(level)
  {
    hide Pairs, LevelInputs, Pair, Sibling;
    PairsLength(level);
    forall s | s in Pairs(level)
      ensures s in LevelInputs(level)
    {
      var i :| 0 <= i < |Pairs(level)| && Pairs(level)[i] == s;
      PairsAt(level, i);
      Siblings(level, i);
      PairInLevel(level, 2 * i);
    }
  }

  lemma HashedPairs(h: string -> string, level: seq<string>)
    requires |level| % 2 == 0
    ensures Hashed(h, Pairs(level)) == Level(h, level)
  {
    PairsLength(level);
    var s := Hashed(h, Pairs(level));
    hide Pairs, Pair, Sibling, Level;
    forall i | 0 <= i < |s|
      ensures s[i] == Level(h, level)[i]
    {
      PairsAt(level, i);
      LevelAt(h, level, i);
      Siblings(level, i);
    }
  }

  lemma {:induction false} PartsOfPairs(level: seq<string>)
    requires |level| % 2 == 0 && AllHex(level)
    ensures AllParts(Pairs(level)) == multiset(level)
  {
    hide Pair, Parts;
    if level != [] {
      var rest := level[2..];
      PartsOfPairs(rest);
      PartsOfPair(level[0], level[1]);
      assert level == [level[0], level[1]] + rest;
      FirstParts(Pair(level[0], level[1]), Pairs(rest));
    }
  }

  lemma FirstParts(s: string, rest: seq<string>)
    ensures AllParts([s] + rest) == Parts(s) + AllParts(rest)
  {
    assert ([s] + rest)[1..] == rest;
  }

  function Without(strings: seq<string>, j: nat): seq<string>
    requires j < |strings|
  {
    strings[..j] + strings[j + 1..]
  }

  lemma {:induction false} PartsWithout(strings: seq<string>, j: nat)
    requires j < |strings|
    ensures AllParts(strings) == AllParts(Without(strings, j)) + Parts(strings[j])
  {
    hide Parts;
    if j == 0 {
      assert Without(strings, 0) == strings[1..];
    } else {
      PartsWithout(strings[1..], j - 1);
      assert Without(strings, j) == [strings[0]] + Without(strings[1..], j - 1);
    }
  }

  lemma CountWithout(strings: seq<string>, j: nat)
    requires j < |strings|
    ensures multiset(strings) == multiset(Without(strings, j)) + multiset{strings[j]}
  {
    assert strings == strings[..j] + [strings[j]] + strings[j + 1..];
  }

  lemma HashedWithout(h: string -> string, strings: seq<string>, j: nat)
    requires j < |strings|
    ensures Hashed(h, Without(strings, j)) == Without(Hashed(h, strings), j)
  {
  }

  lemma Cancel(m: multiset<string>, n: multiset<string>, x: string)
    requires m + multiset{x} == n + multiset{x}
    ensures m == n
  {
    assert m == m + multiset{x} - multiset{x};
    assert n == n + multiset{x} - multiset{x};
  }

  /** No string of one list collides with another one of the other. */
  ghost predicate Apart(h: string -> string, a: seq<string>, b: seq<string>) {
    forall x, y :: x in a && y in b && h(x) == h(y) ==> x == y
  }

  lemma SameHash(h: string -> string, a: seq<string>, b: seq<string>) returns (j: nat)
    requires a != [] && Apart(h, a, b) && multiset(Hashed(h, a)) == multiset(Hashed(h, b))
    ensures j < |b| && b[j] == a[0]
  {
    var s, t := Hashed(h, a), Hashed(h, b);
    assert s[0] in multiset(t);
    j :| 0 <= j < |t| && t[j] == s[0];
    assert a[0] in a && b[j] in b;
  }

  lemma RestApart(h: string -> string, a: seq<string>, b: seq<string>, i: nat, j: nat)
    requires Apart(h, a, b) && i < |a| && j < |b|
    ensures Apart(h, Without(a, i), Without(b, j))
  {
    forall x, y | x in Without(a, i) && y in Without(b, j) && h(x) == h(y)
      ensures x == y
    {
      assert x in a && y in b;
    }
  }

  lemma RestHashes(h: string -> string, a: seq<string>, b: seq<string>, i: nat, j: nat)
    requires i < |a| && j < |b| && a[i] == b[j] && multiset(Hashed(h, a)) == multiset(Hashed(h, b))
    ensures multiset(Hashed(h, Without(a, i))) == multiset(Hashed(h, Without(b, j)))
  {
    var s, t := Hashed(h, a), Hashed(h, b);
    HashedWithout(h, a, i);
    HashedWithout(h, b, j);
    CountWithout(s, i);
    CountWithout(t, j);
    assert s[i] == t[j];
    hide Hashed, Without;
    Cancel(multiset(Without(s, i)), multiset(Without(t, j)), s[i]);
  }

  /** Without a collision, equal multisets of hashes come from equal strings, and so from equal digests. */
  lemma {:induction false} SameParts(h: string -> string, a: seq<string>, b: seq<string>)
    requires Apart(h, a, b) && multiset(Hashed(h, a)) == multiset(Hashed(h, b))
    ensures AllParts(a) == AllParts(b)
    decreases |a|
  {
    if a == [] {
      assert |Hashed(h, b)| == |multiset(Hashed(h, b))| == |multiset(Hashed(h, a))| == 0;
    } else {
      var j := SameHash(h, a, b);
      RestApart(h, a, b, 0, j);
      RestHashes(h, a, b, 0, j);
      PartsWithout(a, 0);
      PartsWithout(b, j);
      assert |Without(a, 0)| < |a|;
      hide AllParts, Parts, Apart, Hashed, Without;
      SameParts(h, Without(a, 0), Without(b, j));
    }
  }

  /** One level down: nodes with the same multiset have children with the same multiset. */
  lemma SameChildren(h: string -> string, a: seq<string>, b: seq<string>)
    requires |a| % 2 == 0 && |b| % 2 == 0 && AllHex(a) && AllHex(b)
    requires multiset(Level(h, a)) == multiset(Level(h, b))
    ensures multiset(a) == multiset(b) || Collision(h, LevelInputs(a), LevelInputs(b))
  {
    hide Level, LevelInputs, Pairs, AllParts, AllHex, Hashed;
    HashedPairs(h, a);
    HashedPairs(h, b);
    PartsOfPairs(a);
    PartsOfPairs(b);
    PairsAreInputs(a);
    PairsAreInputs(b);
    if Apart(h, Pairs(a), Pairs(b)) {
      SameParts(h, Pairs(a), Pairs(b));
    } else {
      var x, y :| x in Pairs(a) && y in Pairs(b) && h(x) == h(y) && x != y;
      assert x in LevelInputs(a) && y in LevelInputs(b);
    }
  }

  lemma CountsStep(h: string -> string, a: seq<string>, b: seq<string>)
    requires |a| > 1 && |b| > 1 && |a| % 2 == 0 && |b| % 2 == 0 && AllHex(a) && AllHex(b)
    requires multiset(Level(h, a)) == multiset(Level(h, b))
      || Collision(h, TreeInputs(h, Level(h, a)), TreeInputs(h, Level(h, b)))
    ensures multiset(a) == multiset(b) || Collision(h, TreeInputs(h, a), TreeInputs(h, b))
  {
    hide TreeInputs, LevelInputs, Level, AllHex, Collision;
    TreeInputsGrow(h, a);
    TreeInputsGrow(h, b);
    if multiset(Level(h, a)) == multiset(Level(h, b)) {
      SameChildren(h, a, b);
      if multiset(a) != multiset(b) {
        CollisionGrows(h, LevelInputs(a), LevelInputs(b), TreeInputs(h, a), TreeInputs(h, b));
      }
    } else {
      CollisionGrows(h, TreeInputs(h, Level(h, a)), TreeInputs(h, Level(h, b)), TreeInputs(h, a), TreeInputs(h, b));
    }
  }

  /** A power of two of leaves: the root determines how often each leaf occurs, or computing the two roots
      hashes two colliding strings. */
  lemma {:induction false} RootDeterminesMultiplicity(h: string -> string, a: seq<string>, b: seq<string>, k: nat)
    requires Digests(h) && AllHex(a) && AllHex(b) && |a| == |b| == Pow2(k) && Root(h, a) == Root(h, b)
    ensures multiset(a) == multiset(b) || Collision(h, TreeInputs(h, a), TreeInputs(h, b))
    decreases k
  {
    hide TreeInputs, LevelInputs, Level, AllHex, Collision;
    if k == 0 {
      assert a == [a[0]] && b == [b[0]];
    } else {
      LevelIsHex(h, a);
      LevelIsHex(h, b);
      RootDeterminesMultiplicity(h, Level(h, a), Level(h, b), k - 1);
      CountsStep(h, a, b);
    }
  }

  lemma TreeInputsGrow(h: string -> string, leaves: seq<string>)
    requires |leaves| > 1
    ensures LevelInputs(leaves) <= TreeInputs(h, leaves) && TreeInputs(h, Level(h, leaves)) <= TreeInputs(h, leaves)
  {
  }

  // ---- every other number of leaves: it does not ----

  function Copies(x: string, n: nat): seq<string> {
    seq(n, _ => x)
  }

  /** Two subtrees of equal leaves; the second need not be full. */
  function Blocks(p: string, q: string, k: nat, m: nat): seq<string> {
    Copies(p, Pow2(k)) + Copies(q, m)
  }

  /** The root of a subtree of 2^k equal leaves. */
  function Top(h: string -> string, p: string, k: nat): string
    decreases k
  {
    if k == 0 then p else Top(h, Combine(h, p, p), k - 1)
  }

  lemma LevelOfBlocks(h: string -> string, p: string, q: string, k: nat, m: nat)
    requires k > 0
    ensures Level(h, Blocks(p, q, k, m)) == Blocks(Combine(h, p, p), Combine(h, q, q), k - 1, (m + 1) / 2)
  {
    var level, half := Blocks(p, q, k, m), Pow2(k - 1);
    var next := Blocks(Combine(h, p, p), Combine(h, q, q), k - 1, (m + 1) / 2);
    assert |level| == 2 * half + m && |next| == half + (m + 1) / 2;
    hide Combine, Level;
    forall j | 0 <= j < |next|
      ensures 2 * j < |level| && Level(h, level)[j] == next[j]
    {
      LevelAt(h, level, j);
    }
  }

  /** An odd end is hashed with itself, as a pair of equal leaves would be. */
  lemma {:induction false} RootOfBlocks(h: string -> string, p: string, q: string, k: nat, m: nat)
    requires 0 < m <= Pow2(k)
    ensures Root(h, Blocks(p, q, k, m)) == Combine(h, Top(h, p, k), Top(h, q, k))
    decreases k
  {
    if k == 0 {
      assert Blocks(p, q, 0, 1) == [p, q];
      RootOfTwo(h, p, q);
    } else {
      LevelOfBlocks(h, p, q, k, m);
      assert |Blocks(p, q, k, m)| > 1;
      hide Combine, Level, Blocks;
      RootOfBlocks(h, Combine(h, p, p), Combine(h, q, q), k - 1, (m + 1) / 2);
    }
  }

  lemma CountCopies(x: string, y: string, n: nat)
    ensures multiset(Copies(x, n))[y] == if x == y then n else 0
  {
    if n > 0 {
      CountCopies(x, y, n - 1);
      assert Copies(x, n) == Copies(x, n - 1) + [x];
    }
  }

  /** A number that is no power of two lies between two of them. */
  lemma Between(n: nat) returns (k: nat, m: nat)
    requires n > 0 && !IsPow2(n)
    ensures n == Pow2(k) + m && 0 < m < Pow2(k)
  {
    k := 0;
    assert n != Pow2(0);
    while 2 * Pow2(k) <= n
      invariant Pow2(k) <= n
      decreases n - Pow2(k)
    {
      assert Pow2(k + 1) == 2 * Pow2(k);
      k := k + 1;
    }
    m := n - Pow2(k);
    assert n != Pow2(k);
  }

  lemma BlocksCount(p: string, q: string, k: nat, m: nat)
    requires p != q
    ensures |Blocks(p, q, k, m)| == Pow2(k) + m && forall x | x in Blocks(p, q, k, m) :: x == p || x == q
    ensures multiset(Blocks(p, q, k, m))[p] == Pow2(k) && multiset(Blocks(p, q, k, m))[q] == m
  {
    CountCopies(p, p, Pow2(k));
    CountCopies(q, p, m);
    CountCopies(p, q, Pow2(k));
    CountCopies(q, q, m);
  }

  /** Any other number of leaves: for any hash and any two leaves there are two lists of that length with
      equal roots in which they occur differently often. */
  lemma RootForgetsMultiplicity(h: string -> string, n: nat, p: string, q: string)
    returns (a: seq<string>, b: seq<string>)
    requires n > 0 && !IsPow2(n) && p != q
    ensures |a| == |b| == n && (forall x | x in a + b :: x == p || x == q)
    ensures Root(h, a) == Root(h, b) && multiset(a) != multiset(b)
  {
    hide Root, Combine, Top, Pow2;
    var k, m := Between(n);
    a, b := Blocks(p, q, k, m), Blocks(q, p, k, m);
    RootOfBlocks(h, p, q, k, m);
    RootOfBlocks(h, q, p, k, m);
    CombineSymmetric(h, Top(h, p, k), Top(h, q, k));
    BlocksCount(p, q, k, m);
    BlocksCount(q, p, k, m);
  }
}
