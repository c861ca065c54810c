/** The ext2 block tree of one inode, as a mathematical object: 12 direct
    pointers, then roots of depth 2, 3 and 4 whose inner blocks hold 256 pointers.

    A node is named by its path: the slot in the inode followed by the slot in
    each pointer block. `NodeAt` is the uncached walk; pointer 0 means absent.
 */
module BlockTree {

  const DIRECT: nat := 12
  const IND_LIMIT: nat := 268
  const DOUBLE_LIMIT: nat := 65804
  const TRIPLE_LIMIT: nat := 16843020

  /** A 1024-byte block, as little-endian 32-bit words. */
  type Block = s: seq<nat> | |s| == 256 witness seq(256, i => 0)

  function Zeros(): Block {
    seq(256, i => 0)
  }

  type Disk = map<nat, Block>

  /** Reading never fails; a block never written holds zeros. */
  function Read(disk: Disk, n: nat): Block {
    if n in disk then disk[n] else Zeros()
  }

  /** The inode's pointers and the device that holds the pointer blocks. */
  datatype Tree = Tree(roots: seq<nat>, disk: Disk)

  type Path = seq<nat>

  /** Number of pointers to follow from inode slot `r` to the data block. */
  function Depth(r: nat): nat {
    if r < 12 then 1 else if r == 12 then 2 else if r == 13 then 3 else 4
  }

  predicate ValidPath(p: Path) {
    && |p| > 0 && p[0] < 15 && |p| <= Depth(p[0])
    && forall k :: 1 <= k < |p| ==> p[k] < 256
  }

  /** 0 for data blocks; 1, 2, 3 for single, double and triple pointer blocks. */
  function Level(p: Path): nat
    requires ValidPath(p)
  {
    Depth(p[0]) - |p|
  }

  function Parent(p: Path): Path
    requires |p| > 0
  {
    p[..|p| - 1]
  }

  function Last(p: Path): nat
    requires |p| > 0
  {
    p[|p| - 1]
  }

  /** The block number stored for a node, 0 if some pointer on the way is 0. */
  function NodeAt(t: Tree, p: Path): nat
    requires |t.roots| == 15 && ValidPath(p)
    decreases |p|
  {
    if |p| == 1 then t.roots[p[0]] else Slot(t.disk, NodeAt(t, Parent(p)), Last(p))
  }

  /** Slot `i` of pointer block `q`, 0 if there is no such block. */
  function Slot(disk: Disk, q: nat, i: nat): nat
    requires i < 256
  {
    if q == 0 then 0 else Read(disk, q)[i]
  }

  /** Always true: it names the paths that a proof looks at. The quantifiers over
      paths below are instantiated for named paths only. */
  predicate At(p: Path) {
    true
  }

  /** No block is used twice, as data block or as pointer block. */
  ghost predicate NoAlias(t: Tree)
    requires |t.roots| == 15
  {
    forall p, q {:trigger At(p), At(q)} ::
      ValidPath(p) && ValidPath(q) && p != q && NodeAt(t, p) != 0 ==> NodeAt(t, p) != NodeAt(t, q)
  }

  ghost predicate WellFormed(t: Tree) {
    |t.roots| == 15 && NoAlias(t)
  }

  /** Block `b` is not part of the tree. */
  ghost predicate Unused(t: Tree, b: nat)
    requires |t.roots| == 15
  {
    b != 0 && forall p {:trigger At(p)} :: ValidPath(p) ==> NodeAt(t, p) != b
  }

  /** All blocks of the tree. */
  ghost function Owned(t: Tree): iset<nat>
    requires |t.roots| == 15
  {
    iset p: Path | ValidPath(p) && NodeAt(t, p) != 0 :: NodeAt(t, p)
  }

  // ----- one new pointer -----

  /** Store `b` in the slot of node `p`. */
  function StorePointer(t: Tree, p: Path, b: nat): Tree
    requires |t.roots| == 15 && ValidPath(p)
  {
    if |p| == 1 then Tree(t.roots[p[0] := b], t.disk)
    else StoreIn(t, NodeAt(t, Parent(p)), Last(p), b)
  }

  /** Write slot `i` of pointer block `q`. */
  function StoreIn(t: Tree, q: nat, i: nat, b: nat): Tree
    requires i < 256
  {
    Tree(t.roots, t.disk[q := Read(t.disk, q)[i := b]])
  }

  /** Add node `p`, whose parent is present: store its number and, if it is a
      pointer block, fill it with zeros. */
  function Link(t: Tree, p: Path, b: nat): Tree
    requires |t.roots| == 15 && ValidPath(p)
  {
    if Level(p) == 0 then StorePointer(t, p, b)
    else Tree(StorePointer(t, p, b).roots, StorePointer(t, p, b).disk[b := Zeros()])
  }

  ghost predicate Linkable(t: Tree, p: Path, b: nat) {
    && WellFormed(t) && ValidPath(p) && Unused(t, b)
    && NodeAt(t, p) == 0
    && (|p| > 1 ==> NodeAt(t, Parent(p)) != 0)
  }

  /** What a link does to any one slot. */
  lemma LinkSlot(t: Tree, p: Path, b: nat, v: nat, i: nat)
    requires |t.roots| == 15 && ValidPath(p) && i < 256
    requires b != 0 && (|p| > 1 ==> NodeAt(t, Parent(p)) != 0)
    requires |p| > 1 ==> NodeAt(t, Parent(p)) != b
    ensures Slot(Link(t, p, b).disk, v, i) ==
            if v == b && Level(p) > 0 then 0
            else if |p| > 1 && v == NodeAt(t, Parent(p)) && i == Last(p) then b
            else Slot(t.disk, v, i)
  {
  }

  /** A link adds exactly one node. */
  lemma {:induction false} LinkNode(t: Tree, p: Path, b: nat, q: Path)
    requires Linkable(t, p, b) && ValidPath(q)
    ensures NodeAt(Link(t, p, b), q) == if q == p then b else NodeAt(t, q)
    decreases |q|
  {
    assert At(p) && At(q) && At(Parent(p)) && At(Parent(q));
    if |q| > 1 {
      LinkNode(t, p, b, Parent(q));
      var v := NodeAt(t, Parent(q));
      assert NodeAt(t, q) == Slot(t.disk, v, Last(q));
      assert q == Parent(q) + [Last(q)] && p == Parent(p) + [Last(p)];
      LinkSlot(t, p, b, NodeAt(Link(t, p, b), Parent(q)), Last(q));
      if Parent(q) != p && |p| > 1 && v == NodeAt(t, Parent(p)) {
        assert Parent(q) == Parent(p);
      }
    }
  }

  lemma LinkEffect(t: Tree, p: Path, b: nat)
    requires Linkable(t, p, b)
    ensures WellFormed(Link(t, p, b))
    ensures forall c :: c != b && Unused(t, c) ==> Unused(Link(t, p, b), c)
  {
    var t' := Link(t, p, b);
    forall q | ValidPath(q) ensures NodeAt(t', q) == if q == p then b else NodeAt(t, q) {
      LinkNode(t, p, b, q);
    }
    forall q, r | ValidPath(q) && ValidPath(r) && q != r && NodeAt(t', q) != 0
      ensures NodeAt(t', q) != NodeAt(t', r)
    {
      assert At(q) && At(r);
    }
    forall c | c != b && Unused(t, c) ensures Unused(t', c) {
      forall q | ValidPath(q) ensures NodeAt(t', q) != c {
        assert At(q);
      }
    }
  }

  // ----- logical indices -----

  /** The path of logical block `n`. */
  function PathOf(n: nat): Path
    requires n < TRIPLE_LIMIT
  {
    if n < DIRECT then [n]
    else if n < IND_LIMIT then [12, n - DIRECT]
    else if n < DOUBLE_LIMIT then [13, (n - IND_LIMIT) / 256, (n - IND_LIMIT) % 256]
    else [14, (n - DOUBLE_LIMIT) / 65536, (n - DOUBLE_LIMIT) / 256 % 256, (n - DOUBLE_LIMIT) % 256]
  }

  lemma PathOfValid(n: nat)
    requires n < TRIPLE_LIMIT
    ensures ValidPath(PathOf(n)) && Level(PathOf(n)) == 0
  {
  }

  /** Logical indices and data paths correspond one to one. */
  lemma PathOfInjective(m: nat, n: nat)
    requires m < TRIPLE_LIMIT && n < TRIPLE_LIMIT
    ensures PathOf(m) == PathOf(n) <==> m == n
  {
    if PathOf(m) == PathOf(n) {
      if n >= DOUBLE_LIMIT {
        Digits(m - DOUBLE_LIMIT);
        Digits(n - DOUBLE_LIMIT);
        assert PathOf(m)[1] == PathOf(n)[1] && PathOf(m)[2] == PathOf(n)[2] && PathOf(m)[3] == PathOf(n)[3];
      } else if n >= IND_LIMIT {
        assert PathOf(m)[1] == PathOf(n)[1] && PathOf(m)[2] == PathOf(n)[2];
      } else if n >= DIRECT {
        assert PathOf(m)[1] == PathOf(n)[1];
      } else {
        assert PathOf(m)[0] == PathOf(n)[0];
      }
    }
  }

  lemma Digits(m: nat)
    ensures m == m / 65536 * 65536 + m / 256 % 256 * 256 + m % 256
  {
  }

  lemma Undigits(a: nat, b: nat)
    requires b < 256
    ensures (256 * a + b) / 256 == a && (256 * a + b) % 256 == b
  {
  }

  lemma PathOfOnto(p: Path) returns (n: nat)
    requires ValidPath(p) && Level(p) == 0
    ensures n < TRIPLE_LIMIT && PathOf(n) == p
  {
    if |p| == 1 {
      n := p[0];
    } else if |p| == 2 {
      n := DIRECT + p[1];
    } else if |p| == 3 {
      n := IND_LIMIT + 256 * p[1] + p[2];
      Undigits(p[1], p[2]);
    } else {
      n := DOUBLE_LIMIT + 65536 * p[1] + 256 * p[2] + p[3];
      Undigits(256 * p[1] + p[2], p[3]);
      Undigits(p[1], p[2]);
      assert (n - DOUBLE_LIMIT) / 65536 == (n - DOUBLE_LIMIT) / 256 / 256;
    }
  }

  /** The node `p` comes before `q` in a walk of the tree. */
  ghost predicate Before(p: Path, q: Path) {
    exists k :: 0 <= k < |p| && k < |q| && p[..k] == q[..k] && p[k] < q[k]
  }

  lemma BeforeAt(p: Path, q: Path, k: nat)
    requires k < |p| && k < |q| && p[..k] == q[..k] && p[k] < q[k]
    ensures Before(p, q)
  {
  }

  /** The logical indices number the data blocks in the order in which a walk of the tree
      comes to them. */
  lemma PathOfOrdered(m: nat, n: nat)
    requires m < n < TRIPLE_LIMIT
    ensures Before(PathOf(m), PathOf(n))
  {
    var p, q := PathOf(m), PathOf(n);
    if p[0] != q[0] {
      BeforeAt(p, q, 0);
    } else if n < DOUBLE_LIMIT {
      LaterDigit(p, q, if p[1] != q[1] then 1 else 2);
    } else {
      Digits(m - DOUBLE_LIMIT);
      Digits(n - DOUBLE_LIMIT);
      LaterDigit(p, q, if p[1] != q[1] then 1 else if p[2] != q[2] then 2 else 3);
    }
  }

  lemma LaterDigit(p: Path, q: Path, k: nat)
    requires k < |p| && k < |q| && p[k] < q[k] && forall i :: 0 <= i < k ==> p[i] == q[i]
    ensures Before(p, q)
  {
    assert p[..k] == q[..k];
    BeforeAt(p, q, k);
  }

  /** The uncached lookup of logical block `n`, 0 for a hole. */
  function Lookup(t: Tree, n: nat): nat
    requires |t.roots| == 15 && n < TRIPLE_LIMIT
  {
    PathOfValid(n);
    NodeAt(t, PathOf(n))
  }

  /** The flat map that the tree stands for. */
  ghost function Flat(t: Tree): map<nat, nat>
    requires |t.roots| == 15
  {
    map n: nat | n < TRIPLE_LIMIT && Lookup(t, n) != 0 :: Lookup(t, n)
  }

  // ----- growing the tree along one path -----

  lemma PrefixValid(p: Path, k: nat)
    requires ValidPath(p) && 1 <= k <= |p|
    ensures ValidPath(p[..k]) && (k > 1 ==> Parent(p[..k]) == p[..k - 1])
    ensures forall q: Path :: q <= p && |q| == k ==> q == p[..k]
  {
    if k > 1 {
      assert p[..k][..k - 1] == p[..k - 1];
    }
  }

  /** The number stored in `t` for `q`, if `t` is `t0` with the prefixes of `p` of
      length above `k - |added|` and up to `k` filled in by `added`. */
  ghost function Filled(t0: Tree, p: Path, k: nat, added: seq<nat>, q: Path): nat
    requires |t0.roots| == 15 && ValidPath(q) && |added| <= k
  {
    if q <= p && k - |added| < |q| <= k then added[|q| - (k - |added|) - 1] else NodeAt(t0, q)
  }

  /** What the data blocks of `t0` hold is the same in `t`. */
  ghost predicate DataKept(t0: Tree, t: Tree)
    requires |t0.roots| == 15
  {
    forall q {:trigger At(q)} :: ValidPath(q) && Level(q) == 0 && NodeAt(t0, q) != 0 ==>
      Read(t.disk, NodeAt(t0, q)) == Read(t0.disk, NodeAt(t0, q))
  }

  /** Blocks that are neither in `t0` nor added hold what they held. */
  ghost predicate OthersKept(t0: Tree, t: Tree, added: seq<nat>)
    requires |t0.roots| == 15
  {
    forall x {:trigger Unused(t0, x)} :: Unused(t0, x) && x !in added ==> Read(t.disk, x) == Read(t0.disk, x)
  }

  /** All prefixes of `p` up to length `k` are present in `t`; those absent from
      `t0` were the last `|added|` of them and now hold `added`; no other node
      changed, and no data. */
  ghost predicate Grown(t0: Tree, t: Tree, p: Path, k: nat, added: seq<nat>)
    requires |t0.roots| == 15 && ValidPath(p) && k <= |p|
  {
    && WellFormed(t)
    && |added| <= k
    && (forall i :: 0 <= i < |added| ==> Unused(t0, added[i]))
    && (forall q {:trigger At(q)} :: ValidPath(q) ==> NodeAt(t, q) == Filled(t0, p, k, added, q))
    && (forall q {:trigger At(q)} :: ValidPath(q) && q <= p && k - |added| < |q| <= k ==> NodeAt(t0, q) == 0)
    && (forall q {:trigger At(q)} :: ValidPath(q) && q <= p && |q| <= k ==> NodeAt(t, q) != 0)
    && DataKept(t0, t)
    && OthersKept(t0, t, added)
  }

  /** A link writes to its parent and to the new block, neither of which is data. */
  lemma LinkKeepsData(t: Tree, p: Path, b: nat, q: Path)
    requires Linkable(t, p, b) && ValidPath(q) && Level(q) == 0 && NodeAt(t, q) != 0
    ensures Read(Link(t, p, b).disk, NodeAt(t, q)) == Read(t.disk, NodeAt(t, q))
  {
    assert At(q);
    if |p| > 1 {
      PrefixValid(p, |p| - 1);
      assert At(Parent(p)) && Level(Parent(p)) > 0;
    }
  }

  lemma GrowStart(t0: Tree, p: Path)
    requires WellFormed(t0) && ValidPath(p)
    ensures Grown(t0, t0, p, 0, [])
  {
    forall q | ValidPath(q) ensures NodeAt(t0, q) == Filled(t0, p, 0, [], q) && |q| > 0 {
    }
  }

  /** The next pointer is there already: then nothing has been added so far. */
  lemma GrowSkip(t0: Tree, t: Tree, p: Path, k: nat, added: seq<nat>)
    requires |t0.roots| == 15 && ValidPath(p) && k < |p| && Grown(t0, t, p, k, added)
    requires ValidPath(p[..k + 1]) && NodeAt(t, p[..k + 1]) != 0
    ensures added == [] && Grown(t0, t, p, k + 1, added)
  {
    PrefixValid(p, k + 1);
    assert At(p[..k + 1]);
    if k > 0 {
      PrefixValid(p, k);
      assert At(p[..k]);
    }
    assert added == [];
    forall q | ValidPath(q) && q <= p && |q| <= k + 1 ensures NodeAt(t, q) != 0 {
      assert At(q);
    }
    forall q | ValidPath(q) ensures NodeAt(t, q) == Filled(t0, p, k + 1, added, q) {
      assert At(q);
    }
  }

  /** The next pointer is absent and gets block `b`. */
  lemma GrowLink(t0: Tree, t: Tree, p: Path, k: nat, added: seq<nat>, b: nat)
    requires |t0.roots| == 15 && ValidPath(p) && k < |p| && Grown(t0, t, p, k, added)
    requires ValidPath(p[..k + 1]) && NodeAt(t, p[..k + 1]) == 0 && Unused(t, b)
    ensures Linkable(t, p[..k + 1], b)
    ensures Grown(t0, Link(t, p[..k + 1], b), p, k + 1, added + [b])
  {
    assert Linkable(t, p[..k + 1], b) by {
      PrefixValid(p, k + 1);
      assert At(p[..k]);
      if k > 0 {
        PrefixValid(p, k);
      }
    }
    var t', added' := Link(t, p[..k + 1], b), added + [b];
    assert WellFormed(t') by {
      LinkEffect(t, p[..k + 1], b);
    }
    forall i | 0 <= i < |added'| ensures Unused(t0, added'[i]) {
      UnusedBefore(t0, t, p, k, added, b);
    }
    forall r | ValidPath(r)
      ensures NodeAt(t', r) == Filled(t0, p, k + 1, added', r)
      ensures r <= p && k + 1 - |added'| < |r| <= k + 1 ==> NodeAt(t0, r) == 0
      ensures r <= p && |r| <= k + 1 ==> NodeAt(t', r) != 0
    {
      GrowLinkNode(t0, t, p, k, added, b, r);
    }
    GrowLinkData(t0, t, p, k, added, b);
    GrowLinkOthers(t0, t, p, k, added, b);
  }

  /** A node that was there is where it was. */
  lemma GrownKeeps(t0: Tree, t: Tree, p: Path, k: nat, added: seq<nat>, q: Path)
    requires |t0.roots| == 15 && ValidPath(p) && k <= |p| && Grown(t0, t, p, k, added)
    requires ValidPath(q) && NodeAt(t0, q) != 0
    ensures NodeAt(t, q) == NodeAt(t0, q)
  {
    assert At(q);
  }

  lemma GrowLinkData(t0: Tree, t: Tree, p: Path, k: nat, added: seq<nat>, b: nat)
    requires |t0.roots| == 15 && ValidPath(p) && k < |p| && Grown(t0, t, p, k, added)
    requires Linkable(t, p[..k + 1], b)
    ensures DataKept(t0, Link(t, p[..k + 1], b))
  {
    var t' := Link(t, p[..k + 1], b);
    forall q | ValidPath(q) && Level(q) == 0 && NodeAt(t0, q) != 0
      ensures Read(t'.disk, NodeAt(t0, q)) == Read(t0.disk, NodeAt(t0, q))
    {
      GrownKeeps(t0, t, p, k, added, q);
      LinkKeepsData(t, p[..k + 1], b, q);
      assert DataKept(t0, t) && At(q);
      assert Read(t.disk, NodeAt(t0, q)) == Read(t0.disk, NodeAt(t0, q));
    }
  }

  lemma GrowLinkOthers(t0: Tree, t: Tree, p: Path, k: nat, added: seq<nat>, b: nat)
    requires |t0.roots| == 15 && ValidPath(p) && k < |p| && Grown(t0, t, p, k, added)
    requires Linkable(t, p[..k + 1], b)
    ensures OthersKept(t0, Link(t, p[..k + 1], b), added + [b])
  {
    var t', q := Link(t, p[..k + 1], b), Parent(p[..k + 1]);
    forall x | Unused(t0, x) && x !in added + [b] ensures Read(t'.disk, x) == Read(t0.disk, x) {
      assert b in added + [b];
      assert OthersKept(t0, t, added) && x !in added;
      assert Read(t.disk, x) == Read(t0.disk, x);
      if |p[..k + 1]| > 1 {
        PrefixValid(p[..k + 1], k);
        assert At(q);
        assert NodeAt(t, q) == Filled(t0, p, k, added, q) != x;
      }
    }
  }

  lemma GrowLinkNode(t0: Tree, t: Tree, p: Path, k: nat, added: seq<nat>, b: nat, r: Path)
    requires |t0.roots| == 15 && ValidPath(p) && k < |p| && Grown(t0, t, p, k, added)
    requires Linkable(t, p[..k + 1], b) && ValidPath(r)
    ensures NodeAt(Link(t, p[..k + 1], b), r) == Filled(t0, p, k + 1, added + [b], r)
    ensures r <= p && k - |added| < |r| <= k + 1 ==> NodeAt(t0, r) == 0
    ensures r <= p && |r| <= k + 1 ==> NodeAt(Link(t, p[..k + 1], b), r) != 0
  {
    assert At(r);
    LinkNode(t, p[..k + 1], b, r);
    PrefixOfLength(p, k + 1, r);
    FilledMore(t0, p, k, added, b, r);
  }

  lemma PrefixOfLength(p: Path, n: nat, r: Path)
    requires n <= |p|
    ensures r == p[..n] <==> r <= p && |r| == n
  {
  }

  lemma FilledMore(t0: Tree, p: Path, k: nat, added: seq<nat>, b: nat, r: Path)
    requires |t0.roots| == 15 && ValidPath(r) && |added| <= k
    ensures Filled(t0, p, k + 1, added + [b], r) ==
            if r <= p && |r| == k + 1 then b else Filled(t0, p, k, added, r)
  {
  }

  lemma UnusedBefore(t0: Tree, t: Tree, p: Path, k: nat, added: seq<nat>, b: nat)
    requires |t0.roots| == 15 && ValidPath(p) && k <= |p| && Grown(t0, t, p, k, added) && Unused(t, b)
    ensures Unused(t0, b)
  {
    forall q | ValidPath(q) ensures NodeAt(t0, q) != b {
      assert At(q);
      assert NodeAt(t, q) == Filled(t0, p, k, added, q);
    }
  }

  /** How many nodes on the way along `p` are there. */
  function Present(t: Tree, p: Path): (n: nat)
    requires |t.roots| == 15 && ValidPath(p)
    ensures n <= |p|
    decreases |p|
  {
    if NodeAt(t, p) != 0 then |p| else if |p| == 1 then 0 else PrefixValid(p, |p| - 1); Present(t, Parent(p))
  }

  /** How many blocks it takes to make `p` complete. */
  function Missing(t: Tree, p: Path): nat
    requires |t.roots| == 15 && ValidPath(p)
  {
    |p| - Present(t, p)
  }

  lemma {:induction false} PresentIs(t: Tree, p: Path, n: nat)
    requires |t.roots| == 15 && ValidPath(p) && n <= |p|
    requires n > 0 ==> ValidPath(p[..n]) && NodeAt(t, p[..n]) != 0
    requires n < |p| ==> ValidPath(p[..n + 1]) && NodeAt(t, p[..n + 1]) == 0
    ensures Present(t, p) == n
    decreases |p|
  {
    if n == |p| {
      assert p[..n] == p;
    } else if n == |p| - 1 {
      assert p[..n + 1] == p;
    } else {
      PrefixValid(p, |p| - 1);
      assert Parent(p)[..n] == p[..n] && Parent(p)[..n + 1] == p[..n + 1];
      PresentIs(t, Parent(p), n);
      NothingUnder(t, p, n);
    }
  }

  /** Below an absent node nothing is there. */
  lemma {:induction false} NothingUnder(t: Tree, p: Path, n: nat)
    requires |t.roots| == 15 && ValidPath(p) && n < |p| && ValidPath(p[..n + 1]) && NodeAt(t, p[..n + 1]) == 0
    ensures NodeAt(t, p) == 0
    decreases |p|
  {
    if n == |p| - 1 {
      assert p[..n + 1] == p;
    } else {
      PrefixValid(p, |p| - 1);
      assert Parent(p)[..n + 1] == p[..n + 1];
      NothingUnder(t, Parent(p), n);
    }
  }

  /** A growth that is complete, or has come to an absent node, has added the nodes
      that were missing on the way. */
  lemma GrownCount(t0: Tree, t: Tree, p: Path, k: nat, added: seq<nat>)
    requires |t0.roots| == 15 && ValidPath(p) && k <= |p| && Grown(t0, t, p, k, added)
    requires k < |p| ==> ValidPath(p[..k + 1]) && NodeAt(t, p[..k + 1]) == 0
    ensures |added| + Present(t0, p) == k
  {
    var n := k - |added|;
    if n > 0 {
      PrefixValid(p, n);
      assert At(p[..n]);
    }
    if n < |p| {
      PrefixValid(p, n + 1);
      assert At(p[..n + 1]);
    }
    PresentIs(t0, p, n);
  }

  /** A data path is a prefix of no other data path. */
  lemma DataPathsApart(m: nat, n: nat)
    requires m < TRIPLE_LIMIT && n < TRIPLE_LIMIT && m != n
    ensures ValidPath(PathOf(m)) && !(PathOf(m) <= PathOf(n))
  {
    PathOfInjective(m, n);
  }

  /** A complete growth sets index `n` and no other. */
  lemma GrowDone(t0: Tree, t: Tree, n: nat, added: seq<nat>)
    requires WellFormed(t0) && n < TRIPLE_LIMIT
    requires ValidPath(PathOf(n)) && Grown(t0, t, PathOf(n), |PathOf(n)|, added)
    ensures Lookup(t, n) != 0 && (Lookup(t0, n) != 0 ==> added == [] && Lookup(t, n) == Lookup(t0, n))
    ensures added != [] ==> Lookup(t, n) == added[|added| - 1]
    ensures forall m: nat :: m < TRIPLE_LIMIT && m != n ==> Lookup(t, m) == Lookup(t0, m)
    ensures Flat(t) == Flat(t0)[n := Lookup(t, n)]
    ensures |added| <= 4
  {
    PathOfValid(n);
    assert At(PathOf(n));
    forall m: nat | m < TRIPLE_LIMIT && m != n ensures Lookup(t, m) == Lookup(t0, m) {
      DataPathsApart(m, n);
      assert At(PathOf(m));
    }
  }

  /** The pointers that an inode had before its tree grew reach the new block exactly
      when the inode slot on the way to it was in use already; then they are the same. */
  lemma InodeReachesIff(t0: Tree, t: Tree, n: nat, added: seq<nat>)
    requires WellFormed(t0) && n < TRIPLE_LIMIT
    requires ValidPath(PathOf(n)) && Grown(t0, t, PathOf(n), |PathOf(n)|, added)
    ensures Lookup(Tree(t0.roots, t.disk), n) == Lookup(t, n) <==> t0.roots[PathOf(n)[0]] != 0
    ensures t0.roots[PathOf(n)[0]] != 0 ==> t.roots == t0.roots
  {
    GrowDone(t0, t, n, added);
    var p, kept := PathOf(n), Tree(t0.roots, t.disk);
    if t0.roots[p[0]] == 0 {
      Unreached(t0.roots, t.disk, n);
    } else {
      forall i: nat | i < 15 ensures t.roots[i] == t0.roots[i] {
        assert At([i]);
        assert NodeAt(t, [i]) == Filled(t0, p, |p|, added, [i]);
        assert [i] <= p ==> NodeAt(t0, [i]) != 0;
      }
      assert kept == t;
    }
  }

  lemma Unreached(roots: seq<nat>, disk: Disk, n: nat)
    requires |roots| == 15 && n < TRIPLE_LIMIT && roots[PathOf(n)[0]] == 0
    ensures Lookup(Tree(roots, disk), n) == 0
  {
    var p := PathOf(n);
    PathOfValid(n);
    PrefixValid(p, 1);
    assert p[..0 + 1] == [p[0]];
    NothingUnder(Tree(roots, disk), p, 0);
  }

  /** The same nodes, by path. */
  ghost predicate SameNodes(t0: Tree, t: Tree)
    requires |t0.roots| == 15 && |t.roots| == 15
  {
    forall q {:trigger At(q)} :: ValidPath(q) ==> NodeAt(t, q) == NodeAt(t0, q)
  }

  /** Nodes and data of `t0` are kept in `t`; an inode that still has the pointers of `t0`
      stands for `t`, or for a tree with the nodes of `t0`. */
  ghost predicate Keeping(t0: Tree, t: Tree)
    requires |t0.roots| == 15 && |t.roots| == 15
  {
    && (forall q {:trigger At(q)} :: ValidPath(q) && NodeAt(t0, q) != 0 ==> NodeAt(t, q) == NodeAt(t0, q))
    && DataKept(t0, t)
    && (t.roots == t0.roots || SameNodes(t0, Tree(t0.roots, t.disk)))
  }

  lemma {:induction false} SameBelow(t: Tree, roots: seq<nat>, q: Path)
    requires |t.roots| == 15 && |roots| == 15 && ValidPath(q) && t.roots[q[0]] == roots[q[0]]
    ensures NodeAt(Tree(roots, t.disk), q) == NodeAt(t, q)
    decreases |q|
  {
    if |q| > 1 {
      PrefixValid(q, |q| - 1);
      SameBelow(t, roots, Parent(q));
    }
  }

  lemma GrownKeeping(t0: Tree, t: Tree, p: Path, k: nat, added: seq<nat>)
    requires |t0.roots| == 15 && ValidPath(p) && k <= |p| && Grown(t0, t, p, k, added)
    ensures Keeping(t0, t)
  {
    forall q | ValidPath(q) && NodeAt(t0, q) != 0 ensures NodeAt(t, q) == NodeAt(t0, q) {
      GrownKeeps(t0, t, p, k, added, q);
    }
    if t.roots != t0.roots {
      forall q | ValidPath(q) ensures NodeAt(Tree(t0.roots, t.disk), q) == NodeAt(t0, q) {
        GrownOldRoots(t0, t, p, k, added, q);
      }
    }
  }

  lemma RootGrown(t0: Tree, t: Tree, p: Path, k: nat, added: seq<nat>, i: nat)
    requires |t0.roots| == 15 && ValidPath(p) && k <= |p| && Grown(t0, t, p, k, added) && i < 15
    ensures t.roots[i] == t0.roots[i] || (i == p[0] && t0.roots[i] == 0)
  {
    assert At([i]) && ValidPath([i]);
    assert NodeAt(t, [i]) == Filled(t0, p, k, added, [i]);
  }

  lemma GrownOldRoots(t0: Tree, t: Tree, p: Path, k: nat, added: seq<nat>, q: Path)
    requires |t0.roots| == 15 && ValidPath(p) && k <= |p| && Grown(t0, t, p, k, added)
    requires t.roots != t0.roots && ValidPath(q)
    ensures NodeAt(Tree(t0.roots, t.disk), q) == NodeAt(t0, q)
  {
    var i :| 0 <= i < 15 && t.roots[i] != t0.roots[i];
    RootGrown(t0, t, p, k, added, i);
    RootGrown(t0, t, p, k, added, q[0]);
    PrefixValid(q, 1);
    assert q[..0 + 1] == [q[0]];
    if q[0] == p[0] {
      NothingUnder(t0, q, 0);
      NothingUnder(Tree(t0.roots, t.disk), q, 0);
    } else {
      SameBelow(t, t0.roots, q);
      assert At(q);
    }
  }

  // ----- writing data -----

  /** Block `b` is no pointer block of the tree. */
  ghost predicate NoPointers(t: Tree, b: nat)
    requires |t.roots| == 15
  {
    forall p {:trigger At(p)} :: ValidPath(p) && Level(p) > 0 && NodeAt(t, p) != 0 ==> NodeAt(t, p) != b
  }

  lemma {:induction false} WriteElsewhere(t: Tree, b: nat, w: Block, q: Path)
    requires |t.roots| == 15 && ValidPath(q) && NoPointers(t, b)
    ensures NodeAt(Tree(t.roots, t.disk[b := w]), q) == NodeAt(t, q)
    decreases |q|
  {
    if |q| > 1 {
      PrefixValid(q, |q| - 1);
      assert At(Parent(q)) && Level(Parent(q)) > 0;
      WriteElsewhere(t, b, w, Parent(q));
    }
  }

  /** Writing a data block changes no node and no other data. */
  lemma WriteData(t: Tree, n: nat, w: Block)
    requires WellFormed(t) && n < TRIPLE_LIMIT && Lookup(t, n) != 0
    ensures var t' := Tree(t.roots, t.disk[Lookup(t, n) := w]);
            WellFormed(t') && SameNodes(t, t')
  {
    PathOfValid(n);
    var t' := Tree(t.roots, t.disk[Lookup(t, n) := w]);
    forall p | ValidPath(p) && Level(p) > 0 && NodeAt(t, p) != 0 ensures NodeAt(t, p) != Lookup(t, n) {
      assert At(p) && At(PathOf(n));
    }
    forall q | ValidPath(q) ensures NodeAt(t', q) == NodeAt(t, q) {
      WriteElsewhere(t, Lookup(t, n), w, q);
    }
    SameWellFormed(t, t');
  }

  /** Writing a block that the tree does not have changes no node. */
  lemma WriteUnused(t: Tree, b: nat, w: Block)
    requires WellFormed(t) && Unused(t, b)
    ensures var t' := Tree(t.roots, t.disk[b := w]); WellFormed(t') && SameNodes(t, t')
  {
    var t' := Tree(t.roots, t.disk[b := w]);
    forall p | ValidPath(p) ensures NodeAt(t, p) != b {
      assert At(p);
    }
    forall q | ValidPath(q) ensures NodeAt(t', q) == NodeAt(t, q) {
      WriteElsewhere(t, b, w, q);
    }
    SameWellFormed(t, t');
  }

  lemma SameWellFormed(t: Tree, t': Tree)
    requires WellFormed(t) && |t'.roots| == 15 && SameNodes(t, t')
    ensures WellFormed(t')
  {
    forall p, q | ValidPath(p) && ValidPath(q) && p != q && NodeAt(t', p) != 0 ensures NodeAt(t', p) != NodeAt(t', q) {
      assert At(p) && At(q);
    }
  }

  /** A growth that stopped early changes no index. */
  lemma GrowPartial(t0: Tree, t: Tree, n: nat, k: nat, added: seq<nat>)
    requires WellFormed(t0) && n < TRIPLE_LIMIT
    requires ValidPath(PathOf(n)) && k < |PathOf(n)| && Grown(t0, t, PathOf(n), k, added)
    ensures Flat(t) == Flat(t0)
  {
    forall m: nat | m < TRIPLE_LIMIT ensures Lookup(t, m) == Lookup(t0, m) {
      PathOfValid(m);
      assert At(PathOf(m));
      if m != n {
        DataPathsApart(m, n);
      }
    }
  }

  /** Where a listed block sits in the grown tree. */
  lemma AddedNode(t0: Tree, t: Tree, p: Path, k: nat, added: seq<nat>, i: nat) returns (q: Path)
    requires WellFormed(t0) && ValidPath(p) && k <= |p| && Grown(t0, t, p, k, added) && i < |added|
    ensures ValidPath(q) && |q| == k - |added| + i + 1 && NodeAt(t, q) == added[i]
  {
    var j := k - |added| + i + 1;
    PrefixValid(p, j);
    q := p[..j];
    assert At(q);
    assert NodeAt(t, q) == Filled(t0, p, k, added, q);
  }

  /** The listed blocks are pairwise different and new to the tree. */
  lemma AddedDistinct(t0: Tree, t: Tree, p: Path, k: nat, added: seq<nat>)
    requires WellFormed(t0) && ValidPath(p) && k <= |p| && Grown(t0, t, p, k, added)
    ensures forall i :: 0 <= i < |added| ==> added[i] !in Owned(t0)
    ensures forall i, j :: 0 <= i < j < |added| ==> added[i] != added[j]
  {
    forall i | 0 <= i < |added| ensures added[i] !in Owned(t0) {
      forall q | ValidPath(q) ensures NodeAt(t0, q) != added[i] {
        assert At(q);
      }
    }
    forall i, j | 0 <= i < j < |added| ensures added[i] != added[j] {
      var q := AddedNode(t0, t, p, k, added, i);
      var r := AddedNode(t0, t, p, k, added, j);
      assert At(q) && At(r);
    }
  }

  /** The listed blocks as a set. */
  function Added(s: seq<nat>): iset<nat> {
    iset b | b in s
  }

  /** The blocks listed as new are exactly the blocks the tree gained. */
  lemma GrowOwned(t0: Tree, t: Tree, p: Path, k: nat, added: seq<nat>)
    requires WellFormed(t0) && ValidPath(p) && k <= |p| && Grown(t0, t, p, k, added)
    ensures Owned(t) == Owned(t0) + Added(added)
  {
    forall b ensures b in Owned(t) <==> b in Owned(t0) || b in added {
      if b in Owned(t) {
        var q :| ValidPath(q) && NodeAt(t, q) != 0 && NodeAt(t, q) == b;
        assert At(q);
        assert NodeAt(t, q) == Filled(t0, p, k, added, q);
      }
      if b in Owned(t0) {
        var q :| ValidPath(q) && NodeAt(t0, q) != 0 && NodeAt(t0, q) == b;
        assert At(q);
        assert NodeAt(t, q) == Filled(t0, p, k, added, q);
      }
      if b in added {
        var i :| 0 <= i < |added| && added[i] == b;
        var q := AddedNode(t0, t, p, k, added, i);
        assert added[i] != 0;
      }
    }
  }
}
