/** The iterator over the blocks of one inode. It walks and grows the block tree
    with one cached pointer block per level and takes new blocks from the block
    allocator.

    `Set` refines an update of the flat map of the tree that the iterator sees;
    `Get` refines a lookup in it, except where its offset arithmetic is wrong. What
    is on the device is the same, except for pointers that were put into the
    triple-indirect block after a read had cached it.
 */
module BlockIterator {
  import opened BlockTree
  import opened Common
  import A = BlockAllocation

  /** A cached pointer block and the number it was read from (0 at first). */
  datatype Cache = Cache(buf: Option<Block>, idx: nat)

  // ----- cache coherence -----

  ghost predicate NodeOfLevel(t: Tree, n: nat, level: nat)
    requires |t.roots| == 15
  {
    exists p :: ValidPath(p) && Level(p) == level && NodeAt(t, p) == n
  }

  /** The cache is empty, or equals the pointer block of its level on disk. */
  ghost predicate Coherent(t: Tree, c: Cache, level: nat)
    requires |t.roots| == 15
  {
    if c.idx == 0 then c.buf == None
    else c.buf == Some(Read(t.disk, c.idx)) && NodeOfLevel(t, c.idx, level)
  }

  /** The triple cache always holds the one triple block; `Get` leaves its tag 0. */
  ghost predicate CoherentTriple(t: Tree, c: Cache)
    requires |t.roots| == 15
  {
    match c.buf
    case None => c.idx == 0
    case Some(b) => t.roots[14] != 0 && b == Read(t.disk, t.roots[14]) && (c.idx == 0 || c.idx == t.roots[14])
  }

  /** A link under a block other than the cached one keeps the cache coherent. */
  lemma CacheKept(t: Tree, p: Path, b: nat, c: Cache, level: nat)
    requires Linkable(t, p, b) && Coherent(t, c, level)
    requires c.idx != 0 && |p| > 1 ==> NodeAt(t, Parent(p)) != c.idx
    ensures Coherent(Link(t, p, b), c, level)
  {
    if c.idx != 0 {
      var q :| ValidPath(q) && Level(q) == level && NodeAt(t, q) == c.idx;
      LinkNode(t, p, b, q);
      assert At(q);
      assert NodeAt(Link(t, p, b), q) == c.idx;
    }
  }

  /** Caches of other levels than the one written to are kept. */
  lemma OtherLevelKept(t: Tree, p: Path, b: nat, c: Cache, level: nat)
    requires Linkable(t, p, b) && Coherent(t, c, level) && level != Level(p) + 1
    ensures Coherent(Link(t, p, b), c, level)
  {
    if c.idx != 0 && |p| > 1 {
      var q :| ValidPath(q) && Level(q) == level && NodeAt(t, q) == c.idx;
      PrefixValid(p, |p| - 1);
      assert At(q) && At(Parent(p));
      assert Level(Parent(p)) == Level(p) + 1;
    }
    CacheKept(t, p, b, c, level);
  }

  /** The cache through which the pointer is written holds the new contents. */
  lemma CacheWritten(t: Tree, p: Path, b: nat)
    requires Linkable(t, p, b) && |p| > 1
    ensures ValidPath(Parent(p)) && NodeAt(t, Parent(p)) != 0
    ensures var q := NodeAt(t, Parent(p));
            Coherent(Link(t, p, b), Cache(Some(Read(t.disk, q)[Last(p) := b]), q), Level(p) + 1)
  {
    PrefixValid(p, |p| - 1);
    assert At(Parent(p));
    LinkNode(t, p, b, Parent(p));
    assert Level(Parent(p)) == Level(p) + 1;
    assert NodeOfLevel(Link(t, p, b), NodeAt(t, Parent(p)), Level(p) + 1);
  }

  lemma TripleKept(t: Tree, p: Path, b: nat, c: Cache)
    requires Linkable(t, p, b) && CoherentTriple(t, c) && (p[0] == 14 ==> |p| != 2)
    ensures CoherentTriple(Link(t, p, b), c)
  {
    if c.buf.Some? {
      assert At([14]) && ValidPath([14]) && NodeAt(t, [14]) == t.roots[14];
      if |p| > 1 {
        PrefixValid(p, |p| - 1);
        assert At(Parent(p));
        assert NodeAt(t, Parent(p)) != t.roots[14];
      }
    }
  }

  // ----- the allocator's side -----

  /** No available block is in the tree, and block 0 is not available. */
  ghost predicate Separate(t: Tree, avail: set<A.AllocatedBlock>)
    requires |t.roots| == 15
  {
    forall b :: b in avail ==> Unused(t, b.globalIdx)
  }

  lemma SeparateKept(t: Tree, p: Path, b: A.AllocatedBlock, avail: set<A.AllocatedBlock>)
    requires Linkable(t, p, b.globalIdx) && Separate(t, avail)
    requires forall c :: c in avail ==> c.globalIdx != b.globalIdx
    ensures Separate(Link(t, p, b.globalIdx), avail)
  {
    LinkEffect(t, p, b.globalIdx);
  }

  /** Everything the iterator relies on between calls. */
  ghost predicate Sound(t: Tree, ind: Cache, double: Cache, triple: Cache, avail: set<A.AllocatedBlock>) {
    && WellFormed(t)
    && Separate(t, avail)
    && Coherent(t, ind, 1) && Coherent(t, double, 2) && CoherentTriple(t, triple)
  }

  /** `c'` is `c` with the pointer to `b` stored, if `c` is the cache of the block
      that holds the pointer. */
  ghost predicate WrittenThrough(t: Tree, p: Path, b: nat, c: Cache, c': Cache)
    requires |t.roots| == 15 && ValidPath(p) && |p| > 1 && ValidPath(Parent(p))
  {
    && c.buf.Some? && c.buf.value == Read(t.disk, NodeAt(t, Parent(p)))
    && c'.buf == Some(c.buf.value[Last(p) := b]) && c'.idx == NodeAt(t, Parent(p))
  }

  /** The same for the triple cache, which may lack its block number. */
  ghost predicate WrittenTriple(t: Tree, p: Path, b: nat, c: Cache, c': Cache)
    requires |t.roots| == 15 && ValidPath(p) && |p| > 1 && ValidPath(Parent(p))
  {
    && c.buf.Some? && c.buf.value == Read(t.disk, NodeAt(t, Parent(p)))
    && c'.buf == Some(c.buf.value[Last(p) := b]) && (c'.idx == 0 || c'.idx == NodeAt(t, Parent(p)))
  }

  /** Adding a node, through the cache of the level above it, keeps everything. */
  lemma LinkSound(t: Tree, p: Path, b: A.AllocatedBlock, ind: Cache, double: Cache, triple: Cache,
                  ind': Cache, double': Cache, triple': Cache, avail: set<A.AllocatedBlock>)
    requires Linkable(t, p, b.globalIdx) && Sound(t, ind, double, triple, avail)
    requires forall c :: c in avail ==> c.globalIdx != b.globalIdx
    requires |p| > 1 ==> ValidPath(Parent(p))
    requires if |p| > 1 && Level(p) == 0 then WrittenThrough(t, p, b.globalIdx, ind, ind') else ind' == ind
    requires if |p| > 1 && Level(p) == 1 then WrittenThrough(t, p, b.globalIdx, double, double') else double' == double
    requires if |p| > 1 && Level(p) == 2 then WrittenTriple(t, p, b.globalIdx, triple, triple') else triple' == triple
    ensures Sound(Link(t, p, b.globalIdx), ind', double', triple', avail)
  {
    var n := b.globalIdx;
    LinkEffect(t, p, n);
    SeparateKept(t, p, b, avail);
    if |p| == 1 {
      CacheKept(t, p, n, ind, 1);
      CacheKept(t, p, n, double, 2);
      TripleKept(t, p, n, triple);
    } else {
      CacheWritten(t, p, n);
      if Level(p) != 0 {
        OtherLevelKept(t, p, n, ind, 1);
      }
      if Level(p) != 1 {
        OtherLevelKept(t, p, n, double, 2);
      }
      if Level(p) != 2 {
        TripleKept(t, p, n, triple);
      } else {
        TripleWritten(t, p, n);
      }
    }
  }

  lemma TripleWritten(t: Tree, p: Path, b: nat)
    requires Linkable(t, p, b) && |p| > 1 && Level(p) == 2
    ensures ValidPath(Parent(p)) && Parent(p) == [14] && NodeAt(t, Parent(p)) == t.roots[14]
    ensures CoherentTriple(Link(t, p, b), Cache(Some(Read(t.disk, t.roots[14])[Last(p) := b]), t.roots[14]))
  {
    assert Parent(p) == [14];
    CacheWritten(t, p, b);
  }

  function Numbers(blocks: seq<A.AllocatedBlock>): seq<nat> {
    seq(|blocks|, k requires 0 <= k < |blocks| => blocks[k].globalIdx)
  }

  lemma NumbersStep(blocks: seq<A.AllocatedBlock>, b: A.AllocatedBlock)
    ensures Numbers(blocks + [b]) == Numbers(blocks) + [b.globalIdx]
  {
  }

  /** One step of `Set`: the absent prefix of length `k + 1` is linked to `b`. */
  lemma SetStep(t0: Tree, t: Tree, p: Path, k: nat, got: seq<A.AllocatedBlock>, b: A.AllocatedBlock,
                ind: Cache, double: Cache, triple: Cache,
                ind': Cache, double': Cache, triple': Cache, avail: set<A.AllocatedBlock>)
    requires |t0.roots| == 15 && ValidPath(p) && k < |p| && Grown(t0, t, p, k, Numbers(got))
    requires ValidPath(p[..k + 1]) && NodeAt(t, p[..k + 1]) == 0 && Unused(t, b.globalIdx)
    requires Sound(t, ind, double, triple, avail)
    requires forall c :: c in avail ==> c.globalIdx != b.globalIdx
    requires k > 0 ==> ValidPath(Parent(p[..k + 1]))
    requires if k > 0 && Level(p[..k + 1]) == 0 then WrittenThrough(t, p[..k + 1], b.globalIdx, ind, ind')
             else ind' == ind
    requires if k > 0 && Level(p[..k + 1]) == 1 then WrittenThrough(t, p[..k + 1], b.globalIdx, double, double')
             else double' == double
    requires if k > 0 && Level(p[..k + 1]) == 2 then WrittenTriple(t, p[..k + 1], b.globalIdx, triple, triple')
             else triple' == triple
    ensures Grown(t0, Link(t, p[..k + 1], b.globalIdx), p, k + 1, Numbers(got + [b]))
    ensures NodeAt(Link(t, p[..k + 1], b.globalIdx), p[..k + 1]) == b.globalIdx
    ensures Sound(Link(t, p[..k + 1], b.globalIdx), ind', double', triple', avail)
  {
    GrowLink(t0, t, p, k, Numbers(got), b.globalIdx);
    NumbersStep(got, b);
    LinkNode(t, p[..k + 1], b.globalIdx, p[..k + 1]);
    LinkSound(t, p[..k + 1], b, ind, double, triple, ind', double', triple', avail);
  }

  /** A growth along `p` that has come to an absent node and found no block for it. */
  ghost predicate Stuck(t0: Tree, t: Tree, p: Path, got: seq<A.AllocatedBlock>, avail: set<A.AllocatedBlock>)
    requires |t0.roots| == 15 && ValidPath(p)
  {
    && avail == {} && |t.roots| == 15
    && exists k: nat ::
         k < |p| && Grown(t0, t, p, k, Numbers(got)) && ValidPath(p[..k + 1]) && NodeAt(t, p[..k + 1]) == 0
  }

  lemma StuckAt(t0: Tree, t: Tree, p: Path, k: nat, got: seq<A.AllocatedBlock>, avail: set<A.AllocatedBlock>)
    requires |t0.roots| == 15 && ValidPath(p) && k < |p| && Grown(t0, t, p, k, Numbers(got)) && avail == {}
    requires ValidPath(p[..k + 1]) && NodeAt(t, p[..k + 1]) == 0
    ensures Stuck(t0, t, p, got, avail)
  {
  }

  /** `t` is `t0` with index `n` mapped to the non-zero block `b` and every other
      index as before. The new blocks, at most 4 and none if `n` was mapped
      already, are exactly the blocks that the tree gained, as data or pointer
      blocks. */
  ghost predicate Assigned(t0: Tree, t: Tree, n: nat, b: nat, added: seq<nat>) {
    && |t0.roots| == 15 && |t.roots| == 15 && n < TRIPLE_LIMIT
    && b != 0 && Flat(t) == Flat(t0)[n := b]
    && (Lookup(t0, n) != 0 ==> added == [] && b == Lookup(t0, n))
    && (added != [] ==> b == added[|added| - 1])
    && |added| <= 4
    && Owned(t) == Owned(t0) + Added(added)
    && (forall i :: 0 <= i < |added| ==> added[i] !in Owned(t0))
    && (forall i, j :: 0 <= i < j < |added| ==> added[i] != added[j])
  }

  lemma GrownAssigned(t0: Tree, t: Tree, n: nat, got: seq<A.AllocatedBlock>)
    requires WellFormed(t0) && n < TRIPLE_LIMIT && ValidPath(PathOf(n))
    requires Grown(t0, t, PathOf(n), |PathOf(n)|, Numbers(got))
    ensures Assigned(t0, t, n, NodeAt(t, PathOf(n)), Numbers(got))
  {
    GrowDone(t0, t, n, Numbers(got));
    GrowOwned(t0, t, PathOf(n), |PathOf(n)|, Numbers(got));
    AddedDistinct(t0, t, PathOf(n), |PathOf(n)|, Numbers(got));
  }

  lemma StuckFlat(t0: Tree, t: Tree, n: nat, got: seq<A.AllocatedBlock>, avail: set<A.AllocatedBlock>)
    requires WellFormed(t0) && n < TRIPLE_LIMIT && ValidPath(PathOf(n)) && Stuck(t0, t, PathOf(n), got, avail)
    ensures Flat(t) == Flat(t0) && |got| < Missing(t0, PathOf(n))
    ensures (t0.roots[14] != 0 ==> t.roots[14] == t0.roots[14]) && Keeping(t0, t)
  {
    var p := PathOf(n);
    var k: nat :| k < |p| && Grown(t0, t, p, k, Numbers(got)) && ValidPath(p[..k + 1]) && NodeAt(t, p[..k + 1]) == 0;
    GrowPartial(t0, t, n, k, Numbers(got));
    GrownCount(t0, t, p, k, Numbers(got));
    RootKept(t0, t, p, k, got);
    GrownKeeping(t0, t, p, k, Numbers(got));
  }

  lemma RootKept(t0: Tree, t: Tree, p: Path, k: nat, got: seq<A.AllocatedBlock>)
    requires |t0.roots| == 15 && ValidPath(p) && k <= |p| && Grown(t0, t, p, k, Numbers(got))
    ensures t0.roots[14] != 0 ==> t.roots[14] == t0.roots[14]
  {
    if t0.roots[14] != 0 {
      GrownKeeps(t0, t, p, k, Numbers(got), [14]);
    }
  }

  // ----- what is on the device -----

  /** Always true: it names the blocks that a proof looks at. */
  predicate Spot(x: nat) {
    true
  }

  /** The device holds what the iterator sees. Once the triple-indirect block has been
      cached without its number, the block on the device stays as it was, `top`: its
      pointers are seen as well, but the pointers stored since are not on the device. */
  ghost predicate Mirrors(root: nat, disk: Disk, view: Disk, lost: bool, top: Block) {
    if !lost then disk == view
    else
      && root != 0 && Read(disk, root) == top
      && (forall x {:trigger Spot(x)} :: x != 0 && x != root ==> Read(disk, x) == Read(view, x))
      && (forall i :: 0 <= i < 256 ==> top[i] == 0 || top[i] == Read(view, root)[i])
  }

  /** A block of the tree other than the triple-indirect one reads the same. */
  lemma SameRead(t: Tree, disk: Disk, lost: bool, top: Block, q: Path)
    requires WellFormed(t) && Mirrors(t.roots[14], disk, t.disk, lost, top)
    requires ValidPath(q) && q != [14] && NodeAt(t, q) != 0
    ensures NodeAt(t, q) != t.roots[14] && Read(disk, NodeAt(t, q)) == Read(t.disk, NodeAt(t, q))
  {
    assert At(q) && At([14]) && ValidPath([14]) && NodeAt(t, [14]) == t.roots[14];
    assert Spot(NodeAt(t, q));
  }

  lemma MirrorsWrite(root: nat, disk: Disk, view: Disk, lost: bool, top: Block, x: nat, b: Block)
    requires Mirrors(root, disk, view, lost, top) && x != 0 && (lost ==> x != root)
    ensures Mirrors(root, disk[x := b], view[x := b], lost, top)
  {
    if lost {
      var disk', view' := disk[x := b], view[x := b];
      forall y: nat | y != 0 && y != root ensures Read(disk', y) == Read(view', y) {
        assert Spot(y);
      }
      assert Read(disk', root) == top;
      assert Read(view', root) == Read(view, root);
    }
  }

  /** A pointer block of the tree is written, and a new block is cleared. */
  lemma MirrorsLink(t: Tree, disk: Disk, lost: bool, top: Block, q: Path, buf: Block, b: nat)
    requires WellFormed(t) && Mirrors(t.roots[14], disk, t.disk, lost, top)
    requires ValidPath(q) && q != [14] && NodeAt(t, q) != 0 && Unused(t, b)
    ensures var x := NodeAt(t, q);
            && Mirrors(t.roots[14], disk[x := buf], t.disk[x := buf], lost, top)
            && Mirrors(t.roots[14], disk[x := buf][b := Zeros()], t.disk[x := buf][b := Zeros()], lost, top)
  {
    var x := NodeAt(t, q);
    SameRead(t, disk, lost, top, q);
    MirrorsWrite(t.roots[14], disk, t.disk, lost, top, x, buf);
    NotTheRoot(t, b);
    MirrorsWrite(t.roots[14], disk[x := buf], t.disk[x := buf], lost, top, b, Zeros());
  }

  lemma NotTheRoot(t: Tree, b: nat)
    requires |t.roots| == 15 && Unused(t, b)
    ensures b != 0 && b != t.roots[14]
  {
    assert At([14]) && ValidPath([14]) && NodeAt(t, [14]) == t.roots[14];
  }

  /** A pointer is stored through the triple cache, and the new block is cleared. */
  lemma MirrorsTriple(t: Tree, disk: Disk, lost: bool, top: Block, i: nat, b: nat, tag: nat)
    requires |t.roots| == 15 && Mirrors(t.roots[14], disk, t.disk, lost, top)
    requires t.roots[14] != 0 && i < 256 && Read(t.disk, t.roots[14])[i] == 0 && Unused(t, b)
    requires tag == if lost then 0 else t.roots[14]
    ensures var root, buf := t.roots[14], Read(t.disk, t.roots[14])[i := b];
            Mirrors(root, disk[tag := buf][b := Zeros()], t.disk[root := buf][b := Zeros()], lost, top)
  {
    var root, buf := t.roots[14], Read(t.disk, t.roots[14])[i := b];
    if lost {
      var disk', view' := disk[0 := buf], t.disk[root := buf];
      forall y: nat | y != 0 && y != root ensures Read(disk', y) == Read(view', y) {
        assert Spot(y);
      }
    }
    NotTheRoot(t, b);
    MirrorsWrite(root, disk[tag := buf], t.disk[root := buf], lost, top, b, Zeros());
  }

  /** A data block below the single-indirect block at `q` reads the same. */
  lemma DataRead(t: Tree, disk: Disk, lost: bool, top: Block, q: Path, i: nat)
    requires WellFormed(t) && Mirrors(t.roots[14], disk, t.disk, lost, top)
    requires ValidPath(q) && Level(q) == 1 && i < 256
    ensures Content(disk, Slot(t.disk, NodeAt(t, q), i)) == Content(t.disk, Slot(t.disk, NodeAt(t, q), i))
  {
    var p := q + [i];
    assert Parent(p) == q && ValidPath(p);
    if NodeAt(t, p) != 0 {
      SameRead(t, disk, lost, top, p);
    }
  }

  /** The pointer to the triple-indirect subtree of index `n` is on the device. */
  predicate TopStored(t: Tree, n: nat)
    requires |t.roots| == 15 && n < TRIPLE_LIMIT
  {
    n < DOUBLE_LIMIT || Slot(t.disk, t.roots[14], (n - DOUBLE_LIMIT) / 65536) != 0
  }

  /** On the device a subtree of the triple-indirect block whose pointer is not there is
      missing; every other node is there. */
  lemma {:induction false} NodeOnDevice(t: Tree, disk: Disk, lost: bool, top: Block, p: Path)
    requires WellFormed(t) && Mirrors(t.roots[14], disk, t.disk, lost, top) && ValidPath(p)
    ensures NodeAt(Tree(t.roots, disk), p) ==
            if p[0] == 14 && |p| > 1 && Slot(disk, t.roots[14], p[1]) == 0 then 0 else NodeAt(t, p)
    decreases |p|
  {
    if |p| > 1 {
      var q := Parent(p);
      PrefixValid(p, |p| - 1);
      NodeOnDevice(t, disk, lost, top, q);
      if q == [14] {
        assert NodeAt(t, q) == t.roots[14];
      } else if NodeAt(t, q) != 0 {
        SameRead(t, disk, lost, top, q);
      }
    }
  }

  lemma LookupOnDevice(t: Tree, disk: Disk, lost: bool, top: Block, n: nat)
    requires WellFormed(t) && Mirrors(t.roots[14], disk, t.disk, lost, top) && n < TRIPLE_LIMIT
    ensures var d := Tree(t.roots, disk);
            Lookup(d, n) == if TopStored(d, n) then Lookup(t, n) else 0
  {
    PathOfValid(n);
    NodeOnDevice(t, disk, lost, top, PathOf(n));
  }

  /** An index is on the device exactly when the iterator sees it and the pointer to its
      triple-indirect subtree, if it has one, is on the device. */
  lemma FlatOnDevice(t: Tree, disk: Disk, lost: bool, top: Block)
    requires WellFormed(t) && Mirrors(t.roots[14], disk, t.disk, lost, top)
    ensures var d := Tree(t.roots, disk);
            Flat(d) == map n: nat | n in Flat(t) && TopStored(d, n) :: Flat(t)[n]
  {
    forall n: nat | n < TRIPLE_LIMIT
      ensures Lookup(Tree(t.roots, disk), n) == if TopStored(Tree(t.roots, disk), n) then Lookup(t, n) else 0
    {
      LookupOnDevice(t, disk, lost, top, n);
    }
  }

  lemma SameOnDevice(t0: Tree, t: Tree, disk0: Disk, disk: Disk, lost: bool, top: Block)
    requires WellFormed(t0) && Mirrors(t0.roots[14], disk0, t0.disk, lost, top)
    requires WellFormed(t) && Mirrors(t.roots[14], disk, t.disk, lost, top)
    requires Flat(t) == Flat(t0) && (lost ==> t.roots[14] == t0.roots[14])
    ensures Flat(Tree(t.roots, disk)) == Flat(Tree(t0.roots, disk0))
  {
    var d0, d := Tree(t0.roots, disk0), Tree(t.roots, disk);
    if lost {
      FlatOnDevice(t0, disk0, lost, top);
      FlatOnDevice(t, disk, lost, top);
      forall m: nat | m < TRIPLE_LIMIT ensures TopStored(d, m) <==> TopStored(d0, m) {
      }
    } else {
      assert d0 == t0 && d == t;
    }
  }

  /** What mapping index `n` in the tree seen does to the device, if the triple-indirect
      block there stays as it is. */
  lemma AssignedOnDevice(t0: Tree, t: Tree, disk0: Disk, disk: Disk, lost: bool, top: Block, n: nat, b: nat)
    requires WellFormed(t0) && Mirrors(t0.roots[14], disk0, t0.disk, lost, top)
    requires WellFormed(t) && Mirrors(t.roots[14], disk, t.disk, lost, top)
    requires n < TRIPLE_LIMIT && b != 0 && Flat(t) == Flat(t0)[n := b] && (lost ==> t.roots[14] == t0.roots[14])
    ensures var d0, d := Tree(t0.roots, disk0), Tree(t.roots, disk);
            Flat(d) == if !lost || TopStored(d0, n) then Flat(d0)[n := b] else Flat(d0)
    ensures n in Flat(Tree(t.roots, disk)) <==> !lost || TopStored(Tree(t0.roots, disk0), n)
  {
    if lost {
      LostOnDevice(t0, t, disk0, disk, top, n, b);
    }
  }

  lemma LostOnDevice(t0: Tree, t: Tree, disk0: Disk, disk: Disk, top: Block, n: nat, b: nat)
    requires WellFormed(t0) && Mirrors(t0.roots[14], disk0, t0.disk, true, top)
    requires WellFormed(t) && Mirrors(t.roots[14], disk, t.disk, true, top)
    requires n < TRIPLE_LIMIT && b != 0 && Flat(t) == Flat(t0)[n := b] && t.roots[14] == t0.roots[14]
    ensures var d0, d := Tree(t0.roots, disk0), Tree(t.roots, disk);
            if TopStored(d0, n) then Flat(d) == Flat(d0)[n := b] else Flat(d) == Flat(d0) && n !in Flat(d)
  {
    var d0, d := Tree(t0.roots, disk0), Tree(t.roots, disk);
    var c := if TopStored(d0, n) then b else 0;
    forall m: nat | m < TRIPLE_LIMIT ensures Lookup(d, m) == if m == n then c else Lookup(d0, m) {
      LookupOnDevice(t0, disk0, true, top, m);
      LookupOnDevice(t, disk, true, top, m);
      LookupMapped(t0, t, n, b, m);
    }
    if c == 0 {
      LookupOnDevice(t0, disk0, true, top, n);
      FlatSame(d0, d);
    } else {
      FlatMapped(d0, d, n, c);
    }
  }

  lemma LookupMapped(t0: Tree, t: Tree, n: nat, b: nat, m: nat)
    requires |t0.roots| == 15 && |t.roots| == 15 && n < TRIPLE_LIMIT && m < TRIPLE_LIMIT
    requires b != 0 && Flat(t) == Flat(t0)[n := b]
    ensures Lookup(t, m) == if m == n then b else Lookup(t0, m)
  {
    assert m in Flat(t) <==> Lookup(t, m) != 0;
    assert m in Flat(t0) <==> Lookup(t0, m) != 0;
  }

  lemma FlatMapped(t0: Tree, t: Tree, n: nat, b: nat)
    requires |t0.roots| == 15 && |t.roots| == 15 && n < TRIPLE_LIMIT && b != 0
    requires forall m: nat :: m < TRIPLE_LIMIT ==> Lookup(t, m) == if m == n then b else Lookup(t0, m)
    ensures Flat(t) == Flat(t0)[n := b]
  {
  }

  lemma FlatSame(t0: Tree, t: Tree)
    requires |t0.roots| == 15 && |t.roots| == 15
    requires forall m: nat :: m < TRIPLE_LIMIT ==> Lookup(t, m) == Lookup(t0, m)
    ensures Flat(t) == Flat(t0)
  {
  }

  /** All that a completed growth along the path of index `n` comes to. */
  lemma SetDone(t0: Tree, t: Tree, disk0: Disk, disk: Disk, lost: bool, top: Block, n: nat, got: seq<A.AllocatedBlock>)
    requires WellFormed(t0) && Mirrors(t0.roots[14], disk0, t0.disk, lost, top)
    requires n < TRIPLE_LIMIT && ValidPath(PathOf(n)) && Grown(t0, t, PathOf(n), |PathOf(n)|, Numbers(got))
    requires Mirrors(t.roots[14], disk, t.disk, lost, top)
    ensures Assigned(t0, t, n, NodeAt(t, PathOf(n)), Numbers(got)) && |got| == Missing(t0, PathOf(n))
    ensures Keeping(t0, t)
    ensures var d0, d := Tree(t0.roots, disk0), Tree(t.roots, disk);
            && (Flat(d) == if !lost || TopStored(d0, n) then Flat(d0)[n := NodeAt(t, PathOf(n))] else Flat(d0))
            && (n in Flat(d) <==> !lost || TopStored(d0, n))
    ensures Lookup(Tree(t0.roots, disk), n) == Lookup(t, n) <==>
            t0.roots[PathOf(n)[0]] != 0 && (!lost || TopStored(Tree(t0.roots, disk0), n))
  {
    var p := PathOf(n);
    GrownAssigned(t0, t, n, got);
    GrownCount(t0, t, p, |p|, Numbers(got));
    GrownKeeping(t0, t, p, |p|, Numbers(got));
    RootKept(t0, t, p, |p|, got);
    InodeReachesIff(t0, t, n, Numbers(got));
    AssignedOnDevice(t0, t, disk0, disk, lost, top, n, NodeAt(t, p));
    if t0.roots[p[0]] == 0 {
      Unreached(t0.roots, disk, n);
    }
  }

  /** The first of a list of blocks are among its numbers. */
  lemma NumbersOfFirst(got: seq<A.AllocatedBlock>, rest: seq<A.AllocatedBlock>, x: nat)
    requires x in Numbers(got)
    ensures x in Numbers(got + rest)
  {
    var i :| 0 <= i < |got| && Numbers(got)[i] == x;
    assert Numbers(got + rest)[i] == x;
  }

  /** A growth writes to no block that is neither in the tree nor available. */
  lemma Elsewhere(t0: Tree, t: Tree, p: Path, k: nat, got: seq<A.AllocatedBlock>, order: seq<A.AllocatedBlock>,
                  rest: seq<A.AllocatedBlock>, disk0: Disk, disk: Disk, lost: bool, top: Block)
    requires WellFormed(t0) && ValidPath(p) && k <= |p| && Grown(t0, t, p, k, Numbers(got)) && order == got + rest
    requires Mirrors(t0.roots[14], disk0, t0.disk, lost, top) && Mirrors(t.roots[14], disk, t.disk, lost, top)
    ensures forall x :: Unused(t0, x) && x !in Numbers(order) ==> Read(disk, x) == Read(disk0, x)
  {
    forall x | Unused(t0, x) && x !in Numbers(order) ensures Read(disk, x) == Read(disk0, x) {
      if x in Numbers(got) {
        NumbersOfFirst(got, rest, x);
      }
      assert OthersKept(t0, t, Numbers(got));
      assert At([14]) && ValidPath([14]) && Spot(x);
      assert NodeAt(t0, [14]) != x && NodeAt(t, [14]) == Filled(t0, p, k, Numbers(got), [14]);
    }
  }

  lemma StuckElsewhere(t0: Tree, t: Tree, n: nat, got: seq<A.AllocatedBlock>, avail: set<A.AllocatedBlock>,
                       order: seq<A.AllocatedBlock>, rest: seq<A.AllocatedBlock>, disk0: Disk, disk: Disk,
                       lost: bool, top: Block)
    requires WellFormed(t0) && n < TRIPLE_LIMIT && ValidPath(PathOf(n)) && Stuck(t0, t, PathOf(n), got, avail)
    requires order == got + rest
    requires Mirrors(t0.roots[14], disk0, t0.disk, lost, top) && Mirrors(t.roots[14], disk, t.disk, lost, top)
    ensures forall x :: Unused(t0, x) && x !in Numbers(order) ==> Read(disk, x) == Read(disk0, x)
  {
    var p := PathOf(n);
    var k: nat :| k < |p| && Grown(t0, t, p, k, Numbers(got)) && ValidPath(p[..k + 1]) && NodeAt(t, p[..k + 1]) == 0;
    Elsewhere(t0, t, p, k, got, order, rest, disk0, disk, lost, top);
  }

  // ----- reading -----

  datatype GetResult = Element(buf: Block, isTerminated: bool, blockIdx: nat) | Panicked

  /** What a block number stands for when read; 0 is a hole. */
  function Content(disk: Disk, b: nat): Block {
    if b == 0 then Zeros() else Read(disk, b)
  }

  /** The index whose block `Get` returns. In the single-indirect range the slot
      number is used as a byte offset. */
  function ReadIndex(n: nat): nat {
    if DIRECT <= n < IND_LIMIT then DIRECT + (n - DIRECT) / 4 else n
  }

  /** The block holding the pointer of index `n` exists. */
  predicate Reached(t: Tree, n: nat)
    requires |t.roots| == 15 && n < TRIPLE_LIMIT
  {
    n < DIRECT || PointerBlock(t, n) != 0
  }

  /** The single-indirect block of an index past the direct ones, 0 if absent. */
  function PointerBlock(t: Tree, n: nat): nat
    requires |t.roots| == 15 && DIRECT <= n < TRIPLE_LIMIT
  {
    PathOfValid(n);
    PrefixValid(PathOf(n), |PathOf(n)| - 1);
    NodeAt(t, Parent(PathOf(n)))
  }

  /** Ranges are told apart by the low 32 bits of an index. */
  const WORD32: nat := 0x1_0000_0000

  /** Past 2^32 the low bits choose a range in which the full index has no place. */
  function FarSpec(t: Tree, low: nat, buf: Block, stale: nat): GetResult
    requires |t.roots| == 15
  {
    if low >= TRIPLE_LIMIT then Element(buf, true, 0)
    else if low < DIRECT || t.roots[PathOf(low)[0]] != 0 then Panicked
    else Element(Zeros(), false, stale)
  }

  /** What `Get` returns at index `n`; `stale` is the block number it last reported. */
  function GetSpec(t: Tree, n: nat, buf: Block, stale: nat): GetResult
    requires |t.roots| == 15
  {
    if n >= WORD32 then FarSpec(t, n % WORD32, buf, stale)
    else if n >= TRIPLE_LIMIT then Element(buf, true, 0)
    else if DIRECT <= n < IND_LIMIT && t.roots[12] != 0 && (n - DIRECT) % 4 != 0 then Panicked
    else Element(Content(t.disk, Lookup(t, ReadIndex(n))), false,
                 if Reached(t, ReadIndex(n)) then Lookup(t, ReadIndex(n)) else stale)
  }

  /** A read that does not panic reports the end exactly when the low 32 bits of the index
      are past the last block that a file can have, and then leaves the buffer alone. */
  lemma TerminatesIff(t: Tree, n: nat, buf: Block, stale: nat)
    requires |t.roots| == 15 && GetSpec(t, n, buf, stale).Element?
    ensures GetSpec(t, n, buf, stale).isTerminated <==> n % WORD32 >= TRIPLE_LIMIT
    ensures n % WORD32 >= TRIPLE_LIMIT ==> GetSpec(t, n, buf, stale) == Element(buf, true, 0)
  {
    if n < WORD32 {
      assert n % WORD32 == n;
    }
  }

  /** A read panics exactly at the indices of the single-indirect range that are not a
      multiple of four behind its start, if that block exists, and, past 2^32, where the
      low bits select a direct block or a range that exists. */
  lemma PanicsIff(t: Tree, n: nat, buf: Block, stale: nat)
    requires |t.roots| == 15
    ensures n < WORD32 ==>
              (GetSpec(t, n, buf, stale).Panicked? <==>
               12 < n < 268 && t.roots[12] != 0 && n % 4 != 0)
    ensures n >= WORD32 ==>
              (GetSpec(t, n, buf, stale).Panicked? <==>
               var low := n % WORD32;
               low < 12 || (low < 268 && t.roots[12] != 0) || (268 <= low < 65804 && t.roots[13] != 0)
               || (65804 <= low < 16843020 && t.roots[14] != 0))
  {
  }

  lemma Walk2(t: Tree, a: nat, b: nat)
    requires |t.roots| == 15 && 12 <= a < 15 && b < 256
    ensures Parent([a, b]) == [a]
    ensures ValidPath([a]) && ValidPath([a, b]) && NodeAt(t, [a]) == t.roots[a]
    ensures NodeAt(t, [a, b]) == Slot(t.disk, t.roots[a], b)
  {
    assert Parent([a, b]) == [a];
  }

  lemma Walk3(t: Tree, a: nat, b: nat, c: nat)
    requires |t.roots| == 15 && 13 <= a < 15 && b < 256 && c < 256
    ensures Parent([a, b, c]) == [a, b]
    ensures ValidPath([a, b]) && ValidPath([a, b, c])
    ensures NodeAt(t, [a, b, c]) == Slot(t.disk, NodeAt(t, [a, b]), c)
  {
    assert Parent([a, b, c]) == [a, b];
  }

  lemma Walk4(t: Tree, a: nat, b: nat, c: nat, d: nat)
    requires |t.roots| == 15 && a == 14 && b < 256 && c < 256 && d < 256
    ensures Parent([a, b, c, d]) == [a, b, c]
    ensures ValidPath([a, b, c]) && ValidPath([a, b, c, d])
    ensures NodeAt(t, [a, b, c, d]) == Slot(t.disk, NodeAt(t, [a, b, c]), d)
  {
    assert Parent([a, b, c, d]) == [a, b, c];
  }

  /** A block read through the pointer block `q`. */
  function Via(t: Tree, q: nat, i: nat, stale: nat): GetResult
    requires i < 256
  {
    Element(Content(t.disk, Slot(t.disk, q, i)), false, if q != 0 then Slot(t.disk, q, i) else stale)
  }

  lemma SpecSingle(t: Tree, n: nat, buf: Block, stale: nat)
    requires |t.roots| == 15 && DIRECT <= n < IND_LIMIT
    ensures GetSpec(t, n, buf, stale) ==
            if t.roots[12] != 0 && (n - DIRECT) % 4 != 0 then Panicked
            else Via(t, t.roots[12], (n - DIRECT) / 4, stale)
  {
    Walk2(t, 12, (n - DIRECT) / 4);
    assert PathOf(ReadIndex(n)) == [12, (n - DIRECT) / 4];
  }

  lemma SpecDouble(t: Tree, n: nat, buf: Block, stale: nat)
    requires |t.roots| == 15 && IND_LIMIT <= n < DOUBLE_LIMIT
    ensures var m := n - IND_LIMIT;
            GetSpec(t, n, buf, stale) == Via(t, Slot(t.disk, t.roots[13], m / 256), m % 256, stale)
  {
    var m := n - IND_LIMIT;
    Walk2(t, 13, m / 256);
    Walk3(t, 13, m / 256, m % 256);
    assert PathOf(n) == [13, m / 256, m % 256];
  }

  lemma SpecTriple(t: Tree, n: nat, buf: Block, stale: nat)
    requires |t.roots| == 15 && DOUBLE_LIMIT <= n < TRIPLE_LIMIT
    ensures var m := n - DOUBLE_LIMIT;
            GetSpec(t, n, buf, stale) ==
            Via(t, Slot(t.disk, Slot(t.disk, t.roots[14], m / 65536), m / 256 % 256), m % 256, stale)
  {
    var m := n - DOUBLE_LIMIT;
    Walk2(t, 14, m / 65536);
    Walk3(t, 14, m / 65536, m / 256 % 256);
    Walk4(t, 14, m / 65536, m / 256 % 256, m % 256);
    assert PathOf(n) == [14, m / 65536, m / 256 % 256, m % 256];
  }

  lemma BelowPath(q: Path, i: nat) returns (p: Path)
    requires ValidPath(q) && Level(q) > 0 && i < 256
    ensures p == q + [i] && ValidPath(p) && Parent(p) == q && Last(p) == i && Level(p) == Level(q) - 1
  {
    p := q + [i];
    assert Parent(p) == q;
  }

  method DoubleOffsets(n: nat, ghost t: Tree, ghost buf: Block, ghost stale: nat) returns (d: nat, i: nat)
    requires |t.roots| == 15 && IND_LIMIT <= n < DOUBLE_LIMIT
    ensures d < 256 && i < 256
    ensures GetSpec(t, n, buf, stale) == Via(t, Slot(t.disk, t.roots[13], d), i, stale)
  {
    var m := n - IND_LIMIT;
    SpecDouble(t, n, buf, stale);
    d, i := m / 256, m % 256;
  }

  method TripleOffsets(n: nat, ghost t: Tree, ghost buf: Block, ghost stale: nat) returns (o: nat, d: nat, i: nat)
    requires |t.roots| == 15 && DOUBLE_LIMIT <= n < TRIPLE_LIMIT
    ensures o < 256 && d < 256 && i < 256
    ensures GetSpec(t, n, buf, stale) == Via(t, Slot(t.disk, Slot(t.disk, t.roots[14], o), d), i, stale)
  {
    var m := n - DOUBLE_LIMIT;
    SpecTriple(t, n, buf, stale);
    o, d, i := m / 65536, m / 256 % 256, m % 256;
  }

  lemma TookCount(before: seq<A.AllocatedBlock>, got: seq<A.AllocatedBlock>, rest: seq<A.AllocatedBlock>)
    requires got + rest == [] + before
    ensures |before| == |got| + |rest| && before == got + rest
  {
  }

  lemma TookFirst(b: A.AllocatedBlock, rest: seq<A.AllocatedBlock>)
    ensures [b] + rest == [] + ([b] + rest)
  {
  }

  lemma TookOne(got: seq<A.AllocatedBlock>, b: A.AllocatedBlock, rest: seq<A.AllocatedBlock>)
    ensures got + [b] + rest == got + ([b] + rest)
  {
  }

  datatype SetResult = Done(newBlocks: seq<A.AllocatedBlock>, blockIdx: nat) | NoSpaceLeft

  class InodeBlockIterator {
    const groupNumber: nat
    const allocator: A.BlockAllocator
    /** The inode's block array. */
    var blocks: seq<nat>
    /** The device behind the I/O handler. */
    var disk: Disk
    /** The device as the iterator sees it through its caches, and the triple-indirect
        block when it was cached without its number. */
    ghost var view: Disk
    ghost var top: Block
    var ind: Cache
    var double: Cache
    var triple: Cache
    var blocksLimit: nat
    var curIdx: nat
    var curBlockIdx: nat

    constructor (blocks: seq<nat>, disk: Disk, blocksLimit: nat, groupNumber: nat, allocator: A.BlockAllocator)
      requires WellFormed(Tree(blocks, disk)) && allocator.Valid() && groupNumber < |allocator.bitmapLba|
      requires Separate(Tree(blocks, disk), allocator.Available())
      ensures Valid() && Tagged() && T() == D() == Tree(blocks, disk) && triple.buf == None
      ensures this.allocator == allocator && this.groupNumber == groupNumber
      ensures this.blocksLimit == blocksLimit && curIdx == 0
    {
      this.blocks := blocks;
      this.disk := disk;
      view, top := disk, Zeros();
      this.blocksLimit := blocksLimit;
      this.groupNumber := groupNumber;
      this.allocator := allocator;
      ind, double, triple := Cache(None, 0), Cache(None, 0), Cache(None, 0);
      curIdx, curBlockIdx := 0, 0;
    }

    /** The tree as the iterator sees it. */
    ghost function T(): Tree
      reads this
    {
      Tree(blocks, view)
    }

    /** The tree on the device. */
    ghost function D(): Tree
      reads this
    {
      Tree(blocks, disk)
    }

    ghost predicate Valid()
      reads this, allocator
    {
      && allocator.Valid() && groupNumber < |allocator.bitmapLba|
      && Sound(T(), ind, double, triple, allocator.Available())
      && Mirrors(blocks[14], disk, view, !Tagged(), top)
    }

    /** The triple cache, if filled, knows which block it holds. */
    ghost predicate Tagged()
      reads this
    {
      triple.buf.Some? ==> triple.idx != 0
    }

    /** A pointer to index `n` would be stored where a later iterator finds it. */
    ghost predicate Keeps(n: nat)
      reads this
      requires |blocks| == 15 && n < TRIPLE_LIMIT
    {
      Tagged() || TopStored(D(), n)
    }

    /** Neither the tree nor the allocator has the block. */
    ghost predicate Fresh(b: A.AllocatedBlock)
      reads this, allocator
      requires |blocks| == 15 && allocator.Valid()
    {
      Unused(T(), b.globalIdx) && forall c :: c in allocator.Available() ==> c.globalIdx != b.globalIdx
    }

    /** The available blocks, in the order in which requests of this iterator take them. */
    ghost function Order(): seq<A.AllocatedBlock>
      reads allocator
      requires allocator.Valid()
    {
      A.SearchOrder(allocator.Maps(), allocator.pending, groupNumber)
    }

    /** The block is the first of those available, and the rest is left; or there is none. */
    ghost predicate Took(before: seq<A.AllocatedBlock>, block: Option<A.AllocatedBlock>)
      reads allocator
      requires allocator.Valid()
    {
      if block.Some? then before == [block.value] + Order() else before == Order() == [] && allocator.Available() == {}
    }

    /** The blocks of `got'` beyond those of `got` are the first of `before`, and the rest is
        left. */
    ghost predicate TookMore(before: seq<A.AllocatedBlock>, got: seq<A.AllocatedBlock>, got': seq<A.AllocatedBlock>)
      reads allocator
      requires allocator.Valid()
    {
      got' + Order() == got + before
    }

    /** The block is in use elsewhere, or not managed by the allocator. */
    ghost predicate Foreign(x: nat)
      reads this, allocator
      requires allocator.Valid() && |blocks| == 15
    {
      Unused(T(), x) && x !in Numbers(Order())
    }

    method RequestOne() returns (r: Option<A.AllocatedBlock>)
      requires allocator.Valid() && groupNumber < |allocator.bitmapLba|
      modifies allocator`pending
      ensures allocator.Valid() && allocator.Available() <= old(allocator.Available()) && Took(old(Order()), r)
      ensures r.Some? ==> r.value in old(allocator.Available())
      ensures r.Some? ==> forall c :: c in allocator.Available() ==> c.globalIdx != r.value.globalIdx
    {
      ghost var maps, held := allocator.Maps(), allocator.pending;
      var res := allocator.AllocateNBlocksInGroup(groupNumber, 1);
      if res.NoSpaceLeft? {
        A.NoneLeft(maps, held, groupNumber);
        A.NoneLeft(maps, allocator.pending, groupNumber);
        return None;
      }
      A.OneTaken(maps, held, groupNumber, res.value, allocator.pending);
      assert res.value == [res.value[0]];
      return Some(res.value[0]);
    }

    method AllocateOne() returns (r: Option<A.AllocatedBlock>)
      requires Valid()
      modifies allocator`pending
      ensures Valid()
      ensures r.Some? ==> Fresh(r.value)
      ensures Took(old(Order()), r)
    {
      r := RequestOne();
    }

    /** Bring pointer block `idx` into the single-indirect cache. */
    method LoadInd(idx: nat, ghost q: Path)
      requires Valid() && idx != 0 && ValidPath(q) && Level(q) == 1 && NodeAt(T(), q) == idx
      modifies `ind
      ensures Valid() && ind == Cache(Some(Read(view, idx)), idx)
    {
      SameRead(T(), disk, !Tagged(), top, q);
      if ind.idx != idx {
        ind := Cache(Some(Read(disk, idx)), idx);
      }
      assert NodeOfLevel(T(), idx, 1);
    }

    /** Bring pointer block `idx` into the double-indirect cache. */
    method LoadDouble(idx: nat, ghost q: Path)
      requires Valid() && idx != 0 && ValidPath(q) && Level(q) == 2 && NodeAt(T(), q) == idx
      modifies `double
      ensures Valid() && double == Cache(Some(Read(view, idx)), idx)
    {
      SameRead(T(), disk, !Tagged(), top, q);
      if double.idx != idx {
        double := Cache(Some(Read(disk, idx)), idx);
      }
      assert NodeOfLevel(T(), idx, 2);
    }

    /** The single-indirect block of the path is cached and lacks the pointer to its data. */
    ghost predicate DataAbsent(off: nat, got: seq<A.AllocatedBlock>, t0: Tree, p: Path)
      reads this
    {
      && |t0.roots| == 15 && |blocks| == 15 && ValidPath(p) && Level(p) == 0 && |p| > 1 && off == Last(p)
      && ValidPath(Parent(p)) && ind == Cache(Some(Read(view, NodeAt(T(), Parent(p)))), NodeAt(T(), Parent(p)))
      && Grown(t0, T(), p, |p| - 1, Numbers(got)) && NodeAt(T(), p) == 0 && ind.idx != 0
    }

    lemma DataStuck(off: nat, got: seq<A.AllocatedBlock>, t0: Tree, p: Path)
      requires DataAbsent(off, got, t0, p) && allocator.Valid() && allocator.Available() == {}
      ensures Stuck(t0, T(), p, got, allocator.Available())
    {
      assert p[..|p| - 1 + 1] == p;
      StuckAt(t0, T(), p, |p| - 1, got, allocator.Available());
    }

    /** Store the number of a data block through the single-indirect cache. */
    method StoreInd(off: nat, b: A.AllocatedBlock, ghost got: seq<A.AllocatedBlock>, ghost t0: Tree, ghost p: Path)
      requires Valid() && Fresh(b) && DataAbsent(off, got, t0, p)
      modifies `ind, `disk, `view
      ensures Valid() && Grown(t0, T(), p, |p|, Numbers(got + [b])) && NodeAt(T(), p) == b.globalIdx
    {
      var buf := ind.buf.value[off := b.globalIdx];
      assert p[..|p| - 1 + 1] == p && Parent(p) != [14];
      SetStep(t0, T(), p, |p| - 1, got, b, ind, double, triple,
              Cache(Some(buf), ind.idx), double, triple, allocator.Available());
      MirrorsLink(T(), disk, !Tagged(), top, Parent(p), buf, b.globalIdx);
      ind := Cache(Some(buf), ind.idx);
      disk, view := disk[ind.idx := buf], view[ind.idx := buf];
    }

    /** Make sure the slot of a single-indirect block is filled. */
    method HandleSetBlock(indBlockIdx: nat, off: nat, got: seq<A.AllocatedBlock>, ghost t0: Tree, ghost p: Path)
      returns (ok: bool, got': seq<A.AllocatedBlock>)
      requires Valid() && |t0.roots| == 15
      requires ValidPath(p) && Level(p) == 0 && |p| > 1 && off == Last(p)
      requires Grown(t0, T(), p, |p| - 1, Numbers(got))
      requires ValidPath(Parent(p)) && NodeAt(T(), Parent(p)) == indBlockIdx != 0
      modifies `ind, `disk, `view, `curBlockIdx, allocator`pending
      ensures Valid() && TookMore(old(Order()), got, got')
      ensures ok ==> Grown(t0, T(), p, |p|, Numbers(got')) && curBlockIdx == NodeAt(T(), p)
      ensures !ok ==> Stuck(t0, T(), p, got', allocator.Available())
    {
      var res;
      res, got' := EnsureData(indBlockIdx, off, got, t0, p);
      ok := res != 0;
      if ok {
        curBlockIdx := res;
      }
    }

    /** The data block of the path, allocated if need be. */
    method EnsureData(indBlockIdx: nat, off: nat, got: seq<A.AllocatedBlock>, ghost t0: Tree, ghost p: Path)
      returns (res: nat, got': seq<A.AllocatedBlock>)
      requires Valid() && |t0.roots| == 15
      requires ValidPath(p) && Level(p) == 0 && |p| > 1 && off == Last(p)
      requires Grown(t0, T(), p, |p| - 1, Numbers(got))
      requires ValidPath(Parent(p)) && NodeAt(T(), Parent(p)) == indBlockIdx != 0
      modifies `ind, `disk, `view, allocator`pending
      ensures Valid() && TookMore(old(Order()), got, got')
      ensures res != 0 ==> Grown(t0, T(), p, |p|, Numbers(got')) && res == NodeAt(T(), p)
      ensures res == 0 ==> Stuck(t0, T(), p, got', allocator.Available())
    {
      got' := got;
      assert p[..|p| - 1 + 1] == p;
      LoadInd(indBlockIdx, Parent(p));
      res := ind.buf.value[off];
      if res == 0 {
        res, got' := NewData(off, got, t0, p);
      } else {
        GrowSkip(t0, T(), p, |p| - 1, Numbers(got));
      }
    }

    /** A new data block for a slot of the cached single-indirect block. */
    method NewData(off: nat, got: seq<A.AllocatedBlock>, ghost t0: Tree, ghost p: Path)
      returns (res: nat, got': seq<A.AllocatedBlock>)
      requires Valid() && DataAbsent(off, got, t0, p)
      modifies `ind, `disk, `view, allocator`pending
      ensures Valid() && TookMore(old(Order()), got, got')
      ensures ValidPath(p)
      ensures res != 0 ==> Grown(t0, T(), p, |p|, Numbers(got')) && res == NodeAt(T(), p)
      ensures res == 0 ==> Stuck(t0, T(), p, got', allocator.Available())
    {
      var block := AllocateOne();
      if block.None? {
        DataStuck(off, got, t0, p);
        return 0, got;
      }
      res, got' := block.value.globalIdx, got + [block.value];
      TookOne(got, block.value, Order());
      StoreInd(off, block.value, got, t0, p);
    }

    /** Store the number of a single-indirect block through the double-indirect cache and
        clear the block. */
    method StoreDouble(off: nat, b: A.AllocatedBlock, ghost got: seq<A.AllocatedBlock>, ghost t0: Tree,
                       ghost p: Path, ghost k: nat)
      requires Valid() && |t0.roots| == 15 && Fresh(b)
      requires ValidPath(p) && 1 <= k < |p| && ValidPath(p[..k + 1]) && Level(p[..k + 1]) == 1 && off == p[k]
      requires ValidPath(p[..k]) && double == Cache(Some(Read(view, NodeAt(T(), p[..k]))), NodeAt(T(), p[..k]))
      requires Grown(t0, T(), p, k, Numbers(got)) && NodeAt(T(), p[..k + 1]) == 0 && double.idx != 0
      modifies `double, `disk, `view
      ensures Valid() && Grown(t0, T(), p, k + 1, Numbers(got + [b])) && NodeAt(T(), p[..k + 1]) == b.globalIdx
    {
      var buf := double.buf.value[off := b.globalIdx];
      assert Parent(p[..k + 1]) == p[..k] && p[..k] != [14];
      SetStep(t0, T(), p, k, got, b, ind, double, triple,
              ind, Cache(Some(buf), double.idx), triple, allocator.Available());
      MirrorsLink(T(), disk, !Tagged(), top, p[..k], buf, b.globalIdx);
      double := Cache(Some(buf), double.idx);
      disk, view := disk[double.idx := buf][b.globalIdx := Zeros()], view[double.idx := buf][b.globalIdx := Zeros()];
    }

    /** Make sure the single-indirect block of the path exists, then its slot. */
    method HandleSetIndirectBlock(doubleIdx: nat, offDouble: nat, offInd: nat, got: seq<A.AllocatedBlock>,
                                  ghost t0: Tree, ghost p: Path)
      returns (ok: bool, got': seq<A.AllocatedBlock>)
      requires Valid() && |t0.roots| == 15
      requires ValidPath(p) && Level(p) == 0 && |p| > 2 && offDouble == p[|p| - 2] && offInd == p[|p| - 1]
      requires Grown(t0, T(), p, |p| - 2, Numbers(got))
      requires ValidPath(p[..|p| - 2]) && NodeAt(T(), p[..|p| - 2]) == doubleIdx != 0
      modifies `ind, `double, `disk, `view, `curBlockIdx, allocator`pending
      ensures Valid() && TookMore(old(Order()), got, got')
      ensures ok ==> Grown(t0, T(), p, |p|, Numbers(got')) && curBlockIdx == NodeAt(T(), p)
      ensures !ok ==> Stuck(t0, T(), p, got', allocator.Available())
    {
      var indIdx;
      indIdx, got' := EnsureInd(doubleIdx, offDouble, got, t0, p);
      if indIdx == 0 {
        return false, got';
      }
      ok, got' := HandleSetBlock(indIdx, offInd, got', t0, p);
    }

    /** The single-indirect block of the path, allocated if need be. */
    method EnsureInd(doubleIdx: nat, offDouble: nat, got: seq<A.AllocatedBlock>, ghost t0: Tree, ghost p: Path)
      returns (indIdx: nat, got': seq<A.AllocatedBlock>)
      requires Valid() && |t0.roots| == 15
      requires ValidPath(p) && Level(p) == 0 && |p| > 2 && offDouble == p[|p| - 2]
      requires Grown(t0, T(), p, |p| - 2, Numbers(got))
      requires ValidPath(p[..|p| - 2]) && NodeAt(T(), p[..|p| - 2]) == doubleIdx != 0
      modifies `double, `disk, `view, allocator`pending
      ensures Valid() && ValidPath(Parent(p)) && TookMore(old(Order()), got, got')
      ensures indIdx != 0 ==> Grown(t0, T(), p, |p| - 1, Numbers(got')) && NodeAt(T(), Parent(p)) == indIdx
      ensures indIdx == 0 ==> Stuck(t0, T(), p, got', allocator.Available())
    {
      ghost var k := |p| - 2;
      PrefixValid(p, k + 1);
      assert p[..k + 1] == Parent(p);
      got' := got;
      LoadDouble(doubleIdx, p[..k]);
      indIdx := double.buf.value[offDouble];
      assert indIdx == NodeAt(T(), p[..k + 1]);
      if indIdx == 0 {
        var block := AllocateOne();
        if block.None? {
          StuckAt(t0, T(), p, k, got, allocator.Available());
          return;
        }
        StoreDouble(offDouble, block.value, got, t0, p, k);
        indIdx := block.value.globalIdx;
        got' := got + [block.value];
        TookOne(got, block.value, Order());
      } else {
        GrowSkip(t0, T(), p, k, Numbers(got));
      }
      assert At(p[..k + 1]);
    }

    /** Store the number of a double-indirect block through the triple-indirect cache and
        clear the block. The cache is written to the block whose number it has, which
        is block 0 after a read. */
    method StoreTriple(off: nat, b: A.AllocatedBlock, ghost got: seq<A.AllocatedBlock>, ghost t0: Tree, ghost p: Path)
      requires Valid() && |t0.roots| == 15 && Fresh(b)
      requires ValidPath(p) && |p| == 4 && off == p[1]
      requires triple.buf == Some(Read(view, blocks[14])) && blocks[14] != 0
      requires ValidPath(p[..2]) && Grown(t0, T(), p, 1, Numbers(got)) && NodeAt(T(), p[..2]) == 0
      modifies `triple, `disk, `view
      ensures Valid() && triple.idx == old(triple.idx) && triple.buf.Some?
      ensures Grown(t0, T(), p, 2, Numbers(got + [b])) && NodeAt(T(), p[..2]) == b.globalIdx
    {
      var buf := triple.buf.value[off := b.globalIdx];
      assert Parent(p[..2]) == [14];
      SetStep(t0, T(), p, 1, got, b, ind, double, triple,
              ind, double, Cache(Some(buf), triple.idx), allocator.Available());
      MirrorsTriple(T(), disk, !Tagged(), top, off, b.globalIdx, triple.idx);
      triple := Cache(Some(buf), triple.idx);
      disk, view := disk[triple.idx := buf][b.globalIdx := Zeros()], view[blocks[14] := buf][b.globalIdx := Zeros()];
    }

    /** Make sure the double-indirect block of the path exists, then the rest. */
    method HandleSetDoubleIndirectBlock(offTriple: nat, offDouble: nat, offInd: nat, got: seq<A.AllocatedBlock>,
                                        ghost t0: Tree, ghost p: Path)
      returns (ok: bool, got': seq<A.AllocatedBlock>)
      requires Valid() && |t0.roots| == 15
      requires ValidPath(p) && |p| == 4 && offTriple == p[1] && offDouble == p[2] && offInd == p[3]
      requires triple.buf == Some(Read(view, blocks[14]))
      requires Grown(t0, T(), p, 1, Numbers(got)) && blocks[14] != 0
      modifies `ind, `double, `triple, `disk, `view, `curBlockIdx, allocator`pending
      ensures Valid() && triple.idx == old(triple.idx) && triple.buf.Some?
      ensures TookMore(old(Order()), got, got')
      ensures ok ==> Grown(t0, T(), p, 4, Numbers(got')) && curBlockIdx == NodeAt(T(), p)
      ensures !ok ==> Stuck(t0, T(), p, got', allocator.Available())
    {
      var doubleIdx;
      doubleIdx, got' := EnsureDouble(offTriple, got, t0, p);
      if doubleIdx == 0 {
        return false, got';
      }
      ok, got' := HandleSetIndirectBlock(doubleIdx, offDouble, offInd, got', t0, p);
    }

    /** The double-indirect block of the path, allocated if need be. */
    method EnsureDouble(offTriple: nat, got: seq<A.AllocatedBlock>, ghost t0: Tree, ghost p: Path)
      returns (doubleIdx: nat, got': seq<A.AllocatedBlock>)
      requires Valid() && |t0.roots| == 15
      requires ValidPath(p) && |p| == 4 && offTriple == p[1]
      requires triple.buf == Some(Read(view, blocks[14]))
      requires Grown(t0, T(), p, 1, Numbers(got)) && blocks[14] != 0
      modifies `triple, `disk, `view, allocator`pending
      ensures Valid() && triple.idx == old(triple.idx) && triple.buf.Some?
      ensures ValidPath(p[..2]) && TookMore(old(Order()), got, got')
      ensures doubleIdx != 0 ==> Grown(t0, T(), p, 2, Numbers(got')) && NodeAt(T(), p[..2]) == doubleIdx
      ensures doubleIdx == 0 ==> Stuck(t0, T(), p, got', allocator.Available())
    {
      PrefixValid(p, 2);
      assert Parent(p[..2]) == [14];
      got' := got;
      doubleIdx := triple.buf.value[offTriple];
      assert doubleIdx == NodeAt(T(), p[..2]);
      if doubleIdx == 0 {
        var block := AllocateOne();
        if block.None? {
          StuckAt(t0, T(), p, 1, got, allocator.Available());
          return;
        }
        StoreTriple(offTriple, block.value, got, t0, p);
        doubleIdx := block.value.globalIdx;
        got' := got + [block.value];
        TookOne(got, block.value, Order());
      } else {
        GrowSkip(t0, T(), p, 1, Numbers(got));
      }
      assert At(p[..2]);
    }

    /** Store the number of a pointer block in inode slot `idx` and clear the block. */
    method StoreRoot(idx: nat, b: A.AllocatedBlock, ghost t0: Tree, ghost p: Path)
      requires Valid() && t0 == T() && Fresh(b)
      requires ValidPath(p) && |p| > 1 && p[0] == idx && blocks[idx] == 0
      modifies `blocks, `disk, `view
      ensures Valid() && Grown(t0, T(), p, 1, Numbers([b])) && blocks[idx] != 0
    {
      GrowStart(t0, p);
      assert Numbers([]) == [] && p[..0 + 1] == [idx] && [] + [b] == [b];
      SetStep(t0, T(), p, 0, [], b, ind, double, triple, ind, double, triple, allocator.Available());
      NotTheRoot(T(), b.globalIdx);
      MirrorsWrite(blocks[14], disk, view, !Tagged(), top, b.globalIdx, Zeros());
      blocks := blocks[idx := b.globalIdx];
      disk, view := disk[blocks[idx] := Zeros()], view[blocks[idx] := Zeros()];
    }

    /** Make sure inode slot `idx`, a root of pointer blocks, is filled. */
    method HandleBlockInBlocksArray(idx: nat, ghost t0: Tree, ghost p: Path)
      returns (ok: bool, got: seq<A.AllocatedBlock>)
      requires Valid() && ValidPath(p) && |p| > 1 && p[0] == idx
      requires t0 == T()
      modifies `blocks, `disk, `view, allocator`pending
      ensures Valid() && TookMore(old(Order()), [], got)
      ensures ok ==> Grown(t0, T(), p, 1, Numbers(got)) && blocks[idx] != 0
      ensures !ok ==> Stuck(t0, T(), p, got, allocator.Available())
    {
      GrowStart(t0, p);
      assert Numbers([]) == [] && p[..0 + 1] == [idx];
      got, ok := [], true;
      if blocks[idx] == 0 {
        ok, got := NewRoot(idx, t0, p);
      } else {
        GrowSkip(t0, T(), p, 0, []);
      }
    }

    method NewRoot(idx: nat, ghost t0: Tree, ghost p: Path) returns (ok: bool, got: seq<A.AllocatedBlock>)
      requires Valid() && ValidPath(p) && |p| > 1 && p[0] == idx && blocks[idx] == 0
      requires t0 == T() && Grown(t0, t0, p, 0, Numbers([]))
      modifies `blocks, `disk, `view, allocator`pending
      ensures Valid() && TookMore(old(Order()), [], got)
      ensures ok ==> Grown(t0, T(), p, 1, Numbers(got)) && blocks[idx] != 0
      ensures !ok ==> Stuck(t0, T(), p, got, allocator.Available())
    {
      var block := AllocateOne();
      if block.None? {
        assert p[..0 + 1] == [idx];
        StuckAt(t0, T(), p, 0, [], allocator.Available());
        return false, [];
      }
      ok, got := true, [block.value];
      TookFirst(block.value, Order());
      StoreRoot(idx, block.value, t0, p);
    }

    /** Store the number of a data block in the inode slot. */
    method StoreDirect(b: A.AllocatedBlock, ghost t0: Tree, ghost p: Path)
      requires Valid() && curIdx < DIRECT && t0 == T() && Fresh(b) && blocks[curIdx] == 0
      requires p == [curIdx] && ValidPath(p)
      modifies `blocks
      ensures Valid() && Grown(t0, T(), p, 1, Numbers([b])) && |blocks| == 15 && blocks[curIdx] == b.globalIdx
    {
      GrowStart(t0, p);
      assert Numbers([]) == [] && p[..0 + 1] == p && [] + [b] == [b];
      SetStep(t0, T(), p, 0, [], b, ind, double, triple, ind, double, triple, allocator.Available());
      blocks := blocks[curIdx := b.globalIdx];
    }

    /** A direct block: the inode slot itself. */
    method SetDirect(ghost t0: Tree, ghost p: Path) returns (ok: bool, got: seq<A.AllocatedBlock>)
      requires Valid() && curIdx < DIRECT && t0 == T()
      requires p == PathOf(curIdx) && ValidPath(p)
      modifies `blocks, `curBlockIdx, allocator`pending
      ensures Valid() && TookMore(old(Order()), [], got)
      ensures ok ==> Grown(t0, T(), p, |p|, Numbers(got)) && curBlockIdx == NodeAt(T(), p)
      ensures !ok ==> Stuck(t0, T(), p, got, allocator.Available())
    {
      ok, got := EnsureDirect(t0, p);
      if ok {
        curBlockIdx := blocks[curIdx];
      }
    }

    method EnsureDirect(ghost t0: Tree, ghost p: Path) returns (ok: bool, got: seq<A.AllocatedBlock>)
      requires Valid() && curIdx < DIRECT && t0 == T()
      requires p == [curIdx] && ValidPath(p)
      modifies `blocks, allocator`pending
      ensures Valid() && TookMore(old(Order()), [], got)
      ensures ok ==> Grown(t0, T(), p, 1, Numbers(got))
      ensures !ok ==> Stuck(t0, T(), p, got, allocator.Available())
    {
      GrowStart(t0, p);
      assert Numbers([]) == [] && p[..0 + 1] == p;
      got, ok := [], true;
      if blocks[curIdx] == 0 {
        ok, got := NewDirect(t0, p);
      } else {
        GrowSkip(t0, T(), p, 0, []);
      }
    }

    method NewDirect(ghost t0: Tree, ghost p: Path) returns (ok: bool, got: seq<A.AllocatedBlock>)
      requires Valid() && curIdx < DIRECT && t0 == T() && blocks[curIdx] == 0
      requires p == [curIdx] && ValidPath(p) && Grown(t0, t0, p, 0, Numbers([]))
      modifies `blocks, allocator`pending
      ensures Valid() && TookMore(old(Order()), [], got)
      ensures ok ==> Grown(t0, T(), p, 1, Numbers(got))
      ensures !ok ==> Stuck(t0, T(), p, got, allocator.Available())
    {
      var block := AllocateOne();
      if block.None? {
        assert p[..0 + 1] == p;
        StuckAt(t0, T(), p, 0, [], allocator.Available());
        return false, [];
      }
      ok, got := true, [block.value];
      TookFirst(block.value, Order());
      StoreDirect(block.value, t0, p);
    }

    method SetSingle(ghost t0: Tree, ghost p: Path) returns (ok: bool, got: seq<A.AllocatedBlock>)
      requires Valid() && DIRECT <= curIdx < IND_LIMIT && t0 == T()
      requires p == PathOf(curIdx) && ValidPath(p)
      modifies `blocks, `ind, `disk, `view, `curBlockIdx, allocator`pending
      ensures Valid() && TookMore(old(Order()), [], got)
      ensures ok ==> Grown(t0, T(), p, |p|, Numbers(got)) && curBlockIdx == NodeAt(T(), p)
      ensures !ok ==> Stuck(t0, T(), p, got, allocator.Available())
    {
      ok, got := HandleBlockInBlocksArray(12, t0, p);
      if !ok {
        return;
      }
      Walk2(T(), 12, p[1]);
      SameRead(T(), disk, !Tagged(), top, [12]);
      if ind.buf == None {
        ind := Cache(Some(Read(disk, blocks[12])), blocks[12]);
        assert NodeOfLevel(T(), blocks[12], 1);
      }
      ok, got := HandleSetBlock(blocks[12], curIdx - DIRECT, got, t0, p);
    }

    method SetDouble(ghost t0: Tree, ghost p: Path) returns (ok: bool, got: seq<A.AllocatedBlock>)
      requires Valid() && IND_LIMIT <= curIdx < DOUBLE_LIMIT && t0 == T()
      requires p == PathOf(curIdx) && ValidPath(p)
      modifies `blocks, `ind, `double, `disk, `view, `curBlockIdx, allocator`pending
      ensures Valid() && TookMore(old(Order()), [], got)
      ensures ok ==> Grown(t0, T(), p, |p|, Numbers(got)) && curBlockIdx == NodeAt(T(), p)
      ensures !ok ==> Stuck(t0, T(), p, got, allocator.Available())
    {
      ok, got := HandleBlockInBlocksArray(13, t0, p);
      if !ok {
        return;
      }
      assert p[..1] == [13] && NodeAt(T(), [13]) == blocks[13];
      SameRead(T(), disk, !Tagged(), top, [13]);
      if double.buf == None {
        double := Cache(Some(Read(disk, blocks[13])), blocks[13]);
        assert NodeOfLevel(T(), blocks[13], 2);
      }
      var m := curIdx - IND_LIMIT;
      ok, got := HandleSetIndirectBlock(blocks[13], m / 256, m % 256, got, t0, p);
    }

    method SetTriple(ghost t0: Tree, ghost p: Path) returns (ok: bool, got: seq<A.AllocatedBlock>)
      requires Valid() && DOUBLE_LIMIT <= curIdx < TRIPLE_LIMIT && t0 == T()
      requires p == PathOf(curIdx) && ValidPath(p)
      modifies `blocks, `ind, `double, `triple, `disk, `view, `curBlockIdx, allocator`pending
      ensures Valid() && (Tagged() <==> old(Tagged())) && TookMore(old(Order()), [], got)
      ensures ok ==> Grown(t0, T(), p, |p|, Numbers(got)) && curBlockIdx == NodeAt(T(), p)
      ensures !ok ==> Stuck(t0, T(), p, got, allocator.Available())
    {
      ok, got := HandleBlockInBlocksArray(14, t0, p);
      if !ok {
        return;
      }
      if triple.buf == None {
        triple := Cache(Some(Read(disk, blocks[14])), blocks[14]);
      }
      var m := curIdx - DOUBLE_LIMIT;
      ok, got := HandleSetDoubleIndirectBlock(m / 65536, m / 256 % 256, m % 256, got, t0, p);
    }

    method SetByRange(ghost t0: Tree, ghost p: Path) returns (ok: bool, got: seq<A.AllocatedBlock>)
      requires Valid() && curIdx < TRIPLE_LIMIT && t0 == T()
      requires p == PathOf(curIdx) && ValidPath(p)
      modifies `blocks, `ind, `double, `triple, `disk, `view, `curBlockIdx, allocator`pending
      ensures Valid() && (Tagged() <==> old(Tagged())) && TookMore(old(Order()), [], got)
      ensures ok ==> Grown(t0, T(), p, |p|, Numbers(got)) && curBlockIdx == NodeAt(T(), p)
      ensures !ok ==> Stuck(t0, T(), p, got, allocator.Available())
    {
      if curIdx < DIRECT {
        ok, got := SetDirect(t0, p);
      } else if curIdx < IND_LIMIT {
        ok, got := SetSingle(t0, p);
      } else if curIdx < DOUBLE_LIMIT {
        ok, got := SetDouble(t0, p);
      } else {
        ok, got := SetTriple(t0, p);
      }
    }

    /** Allocate a block for the current index, if it has none. The iterator sees it from
        then on; it is on the device, too, unless its pointer goes into the
        triple-indirect block and a read has cached that block. */
    method Set() returns (r: SetResult)
      requires Valid() && curIdx < TRIPLE_LIMIT
      modifies `blocks, `ind, `double, `triple, `disk, `view, `curBlockIdx, allocator`pending
      ensures Valid() && (Tagged() <==> old(Tagged()))
      ensures |blocks| == 15 && Keeping(old(T()), T())
      ensures r.NoSpaceLeft? <==> |old(allocator.Available())| < Missing(old(T()), PathOf(curIdx))
      ensures r.Done? ==> Assigned(old(T()), T(), curIdx, r.blockIdx, Numbers(r.newBlocks))
      ensures r.Done? ==> (curIdx in Flat(D()) <==> old(Keeps(curIdx)))
      ensures r.Done? ==>
                Flat(D()) == if old(Keeps(curIdx)) then old(Flat(D()))[curIdx := r.blockIdx] else old(Flat(D()))
      ensures r.Done? ==>
                (Lookup(Tree(old(blocks), disk), curIdx) == r.blockIdx <==>
                 old(blocks)[PathOf(curIdx)[0]] != 0 && old(Keeps(curIdx)))
      ensures r.NoSpaceLeft? ==> Flat(T()) == old(Flat(T())) && Flat(D()) == old(Flat(D()))
      ensures r.Done? ==> old(Order()) == r.newBlocks + Order()
      ensures r.NoSpaceLeft? ==> allocator.Available() == {}
      ensures forall x :: old(Foreign(x)) ==> Read(disk, x) == Read(old(disk), x)
    {
      ghost var t0 := T();
      PathOfValid(curIdx);
      ghost var order := Order();
      A.NoneLeft(allocator.Maps(), allocator.pending, groupNumber);
      var ok, got := SetByRange(t0, PathOf(curIdx));
      A.NoneLeft(allocator.Maps(), allocator.pending, groupNumber);
      TookCount(order, got, Order());
      if !ok {
        StuckFlat(t0, T(), curIdx, got, allocator.Available());
        SameOnDevice(t0, T(), old(disk), disk, !Tagged(), top);
        StuckElsewhere(t0, T(), curIdx, got, allocator.Available(), order, Order(), old(disk), disk, !Tagged(), top);
        return NoSpaceLeft;
      }
      SetDone(t0, T(), old(disk), disk, !Tagged(), top, curIdx, got);
      Elsewhere(t0, T(), PathOf(curIdx), |PathOf(curIdx)|, got, order, Order(), old(disk), disk, !Tagged(), top);
      return Done(got, curBlockIdx);
    }

    method NextSet() returns (r: SetResult)
      requires Valid() && curIdx < TRIPLE_LIMIT
      modifies `blocks, `ind, `double, `triple, `disk, `view, `curBlockIdx, `curIdx, allocator`pending
      ensures Valid() && (Tagged() <==> old(Tagged()))
      ensures r.Done? ==>
                Assigned(old(T()), T(), old(curIdx), r.blockIdx, Numbers(r.newBlocks)) && curIdx == old(curIdx) + 1
      ensures r.Done? ==>
                Flat(D()) == if old(Keeps(curIdx)) then old(Flat(D()))[old(curIdx) := r.blockIdx] else old(Flat(D()))
      ensures r.NoSpaceLeft? ==> Flat(T()) == old(Flat(T())) && Flat(D()) == old(Flat(D())) && curIdx == old(curIdx)
      ensures r.Done? ==> old(Order()) == r.newBlocks + Order()
      ensures forall x :: old(Foreign(x)) ==> Read(disk, x) == Read(old(disk), x)
    {
      r := Set();
      if r.Done? {
        curIdx := curIdx + 1;
      }
    }

    method Skip(count: nat)
      modifies `curIdx
      ensures curIdx == old(curIdx) + count
    {
      curIdx := curIdx + count;
    }

    // ----- reading -----

    method HandleBlock(blockIdx: nat) returns (buf: Block)
      modifies `curBlockIdx
      ensures buf == Content(disk, blockIdx) && curBlockIdx == blockIdx
    {
      curBlockIdx := blockIdx;
      buf := if blockIdx == 0 then Zeros() else Read(disk, blockIdx);
    }

    /** Bring a pointer block into its cache, which at first takes the one of the inode. */
    method FillInd(indIdx: nat, ghost q: Path)
      requires Valid() && indIdx != 0 && ValidPath(q) && Level(q) == 1 && NodeAt(T(), q) == indIdx
      modifies `ind
      ensures Valid() && ind == Cache(Some(Read(view, indIdx)), indIdx)
    {
      SameRead(T(), disk, !Tagged(), top, q);
      if ind.buf == None {
        ind := Cache(Some(Read(disk, blocks[12])), blocks[12]);
      }
      if indIdx != ind.idx {
        ind := Cache(Some(Read(disk, indIdx)), indIdx);
      }
      assert NodeOfLevel(T(), indIdx, 1);
    }

    method FillDouble(doubleIdx: nat, ghost q: Path)
      requires Valid() && doubleIdx != 0 && ValidPath(q) && Level(q) == 2 && NodeAt(T(), q) == doubleIdx
      modifies `double
      ensures Valid() && double == Cache(Some(Read(view, doubleIdx)), doubleIdx)
    {
      SameRead(T(), disk, !Tagged(), top, q);
      if double.buf == None {
        double := Cache(Some(Read(disk, blocks[13])), blocks[13]);
      }
      if doubleIdx != double.idx {
        double := Cache(Some(Read(disk, doubleIdx)), doubleIdx);
      }
      assert NodeOfLevel(T(), doubleIdx, 2);
    }

    /** Follow the pointer at byte `off` of a single-indirect block; a pointer
        that is not word-aligned makes the cast panic. */
    method HandleIndBlock(off: nat, indIdx: nat, ghost q: Path) returns (r: GetResult)
      requires Valid() && off < 1024 && ValidPath(q) && Level(q) == 1 && NodeAt(T(), q) == indIdx
      modifies `ind, `curBlockIdx
      ensures Valid()
      ensures r == if indIdx != 0 && off % 4 != 0 then Panicked else Via(T(), indIdx, off / 4, old(curBlockIdx))
    {
      if indIdx == 0 {
        return Element(Zeros(), false, curBlockIdx);
      }
      FillInd(indIdx, q);
      if off % 4 != 0 {
        return Panicked;
      }
      var buf := HandleBlock(ind.buf.value[off / 4]);
      DataRead(T(), disk, !Tagged(), top, q, off / 4);
      return Element(buf, false, curBlockIdx);
    }

    method HandleDoubleIndBlock(offDouble: nat, offInd: nat, doubleIdx: nat, ghost q: Path) returns (r: GetResult)
      requires Valid() && offDouble < 256 && offInd < 256
      requires ValidPath(q) && Level(q) == 2 && NodeAt(T(), q) == doubleIdx
      modifies `ind, `double, `curBlockIdx
      ensures Valid()
      ensures r == Via(T(), Slot(view, doubleIdx, offDouble), offInd, old(curBlockIdx))
    {
      if doubleIdx == 0 {
        return Element(Zeros(), false, curBlockIdx);
      }
      FillDouble(doubleIdx, q);
      ghost var q' := BelowPath(q, offDouble);
      r := HandleIndBlock(offInd * 4, double.buf.value[offDouble], q');
    }

    method GetDirect(ghost buf: Block) returns (r: GetResult)
      requires Valid() && curIdx < DIRECT
      modifies `curBlockIdx
      ensures Valid() && r == GetSpec(T(), curIdx, buf, old(curBlockIdx))
    {
      var b := HandleBlock(blocks[curIdx]);
      if blocks[curIdx] != 0 {
        SameRead(T(), disk, !Tagged(), top, [curIdx]);
      }
      r := Element(b, false, curBlockIdx);
    }

    method GetSingle(ghost buf: Block) returns (r: GetResult)
      requires Valid() && DIRECT <= curIdx < IND_LIMIT
      modifies `ind, `curBlockIdx
      ensures Valid() && r == GetSpec(T(), curIdx, buf, old(curBlockIdx))
    {
      SpecSingle(T(), curIdx, buf, curBlockIdx);
      r := HandleIndBlock(curIdx - DIRECT, blocks[12], [12]);
    }

    method GetDouble(ghost buf: Block) returns (r: GetResult)
      requires Valid() && IND_LIMIT <= curIdx < DOUBLE_LIMIT
      modifies `ind, `double, `curBlockIdx
      ensures Valid() && r == GetSpec(T(), curIdx, buf, old(curBlockIdx))
    {
      var d, i := DoubleOffsets(curIdx, T(), buf, curBlockIdx);
      r := HandleDoubleIndBlock(d, i, blocks[13], [13]);
    }

    method HandleTripleIndBlock(offTriple: nat, offDouble: nat, offInd: nat) returns (r: GetResult)
      requires Valid() && offTriple < 256 && offDouble < 256 && offInd < 256
      modifies `ind, `double, `triple, `top, `curBlockIdx
      ensures Valid() && triple.idx == old(triple.idx)
      ensures triple.buf.Some? <==> old(triple.buf.Some?) || blocks[14] != 0
      ensures r == Via(T(), Slot(view, Slot(view, blocks[14], offTriple), offDouble), offInd, old(curBlockIdx))
    {
      if blocks[14] == 0 {
        return Element(Zeros(), false, curBlockIdx);
      }
      if triple.buf == None {
        top := Read(disk, blocks[14]);
        triple := triple.(buf := Some(Read(disk, blocks[14])));
      }
      Walk2(T(), 14, offTriple);
      r := HandleDoubleIndBlock(offDouble, offInd, triple.buf.value[offTriple], [14, offTriple]);
    }

    method GetTriple(ghost buf: Block) returns (r: GetResult)
      requires Valid() && DOUBLE_LIMIT <= curIdx < TRIPLE_LIMIT
      modifies `ind, `double, `triple, `top, `curBlockIdx
      ensures Valid() && r == GetSpec(T(), curIdx, buf, old(curBlockIdx))
      ensures (triple.buf.Some? <==> old(triple.buf.Some?) || blocks[14] != 0) && triple.idx == old(triple.idx)
    {
      var t, d, i := TripleOffsets(curIdx, T(), buf, curBlockIdx);
      r := HandleTripleIndBlock(t, d, i);
    }

    /** An index past 2^32: the slice of the inode's array or of a pointer block that
        it selects is out of bounds, unless there is no pointer block. */
    method GetFar(low: nat, buf: Block) returns (r: GetResult)
      requires Valid()
      ensures r == FarSpec(T(), low, buf, curBlockIdx)
    {
      if low < DIRECT {
        return Panicked;
      }
      if low >= TRIPLE_LIMIT {
        return Element(buf, true, 0);
      }
      var root := if low < IND_LIMIT then blocks[12] else if low < DOUBLE_LIMIT then blocks[13] else blocks[14];
      return if root == 0 then Element(Zeros(), false, curBlockIdx) else Panicked;
    }

    /** Read the block at the current index. The buffer is returned as it is when
        the index is past the end of the tree. */
    method Get(buf: Block) returns (r: GetResult)
      requires Valid()
      modifies `ind, `double, `triple, `top, `curBlockIdx
      ensures Valid()
      ensures r == GetSpec(T(), curIdx, buf, old(curBlockIdx))
      ensures Tagged() <==> old(Tagged())
                            && !(DOUBLE_LIMIT <= curIdx < TRIPLE_LIMIT && blocks[14] != 0 && old(triple.buf == None))
    {
      if curIdx >= WORD32 {
        r := GetFar(curIdx % WORD32, buf);
      } else if curIdx < DIRECT {
        r := GetDirect(buf);
      } else if curIdx < IND_LIMIT {
        r := GetSingle(buf);
      } else if curIdx < DOUBLE_LIMIT {
        r := GetDouble(buf);
      } else if curIdx < TRIPLE_LIMIT {
        r := GetTriple(buf);
      } else {
        r := Element(buf, true, 0);
      }
    }

    method Next(buf: Block) returns (r: GetResult)
      requires Valid()
      modifies `ind, `double, `triple, `top, `curBlockIdx, `curIdx
      ensures Valid()
      ensures old(Tagged()) && old(curIdx) < DOUBLE_LIMIT ==> Tagged()
      ensures old(curIdx) >= blocksLimit ==> r == Element(buf, true, 0) && curIdx == old(curIdx)
      ensures old(curIdx) < blocksLimit ==> r == GetSpec(T(), old(curIdx), buf, old(curBlockIdx))
      ensures old(curIdx) < blocksLimit && r.Element? ==> curIdx == old(curIdx) + 1
    {
      if curIdx >= blocksLimit {
        return Element(buf, true, 0);
      }
      r := Get(buf);
      if r.Element? {
        curIdx := curIdx + 1;
      }
    }
  }

  // ----- where reading departs from the tree -----

  /** What reading index `n` should yield: the block, or zeros for a hole. */
  function Walk(t: Tree, n: nat): Block
    requires |t.roots| == 15 && n < TRIPLE_LIMIT
  {
    Content(t.disk, Lookup(t, n))
  }

  ghost predicate ReadsRight(t: Tree, n: nat)
    requires |t.roots| == 15 && n < TRIPLE_LIMIT
  {
    forall buf: Block, stale: nat ::
      GetSpec(t, n, buf, stale).Element? && GetSpec(t, n, buf, stale).buf == Walk(t, n)
  }

  /** Reading agrees with the uncached walk on every tree exactly outside the
      single-indirect range, whose first index is the one exception. */
  lemma ReadsRightIff(n: nat)
    requires n < TRIPLE_LIMIT
    ensures (forall t :: WellFormed(t) ==> ReadsRight(t, n)) <==> !(13 <= n < IND_LIMIT)
  {
    if 13 <= n < IND_LIMIT {
      var t := Misread(n);
      assert !ReadsRight(t, n) by {
        assert var r := GetSpec(t, n, Zeros(), 0); !(r.Element? && r.buf == Walk(t, n));
      }
    } else {
      forall t | WellFormed(t) ensures ReadsRight(t, n) {
        ReadsRightAt(t, n);
      }
    }
  }

  lemma ReadsRightAt(t: Tree, n: nat)
    requires WellFormed(t) && n < TRIPLE_LIMIT && !(13 <= n < IND_LIMIT)
    ensures ReadsRight(t, n)
  {
    assert ReadIndex(n) == n;
  }

  lemma EmptyNode(t: Tree, p: Path)
    requires t.roots == seq(15, i => 0) && ValidPath(p)
    ensures NodeAt(t, p) == 0
    decreases |p|
  {
    if |p| > 1 {
      PrefixValid(p, |p| - 1);
      EmptyNode(t, Parent(p));
    }
  }

  /** A file whose single-indirect block points to block 2 from slot `k` only. */
  lemma OneSlotTree(k: nat) returns (t: Tree)
    requires k < 256
    ensures WellFormed(t) && t.roots[12] == 1 && Read(t.disk, 2) == Zeros()[0 := 7]
    ensures forall i: nat :: i < 256 ==> Slot(t.disk, 1, i) == if i == k then 2 else 0
  {
    var t0 := Tree(seq(15, i => 0), map[2 := Zeros()[0 := 7]]);
    forall p | ValidPath(p) ensures NodeAt(t0, p) == 0 {
      EmptyNode(t0, p);
    }
    var t1 := Link(t0, [12], 1);
    LinkEffect(t0, [12], 1);
    LinkNode(t0, [12], 1, [12]);
    Walk2(t1, 12, k);
    LinkNode(t0, [12], 1, [12, k]);
    assert Unused(t1, 2);
    t := Link(t1, [12, k], 2);
    LinkEffect(t1, [12, k], 2);
  }

  /** A well-formed tree on which index `n` is misread. */
  lemma Misread(n: nat) returns (t: Tree)
    requires 13 <= n < IND_LIMIT
    ensures WellFormed(t) && GetSpec(t, n, Zeros(), 0) != Element(Walk(t, n), false, Lookup(t, n))
    ensures var r := GetSpec(t, n, Zeros(), 0); !(r.Element? && r.buf == Walk(t, n))
  {
    var k := (n - DIRECT) / 4;
    t := OneSlotTree(k);
    SpecSingle(t, n, Zeros(), 0);
    Walk2(t, 12, n - DIRECT);
    assert Zeros()[0 := 7][0] == 7;
  }

  /** The block number reported beside the buffer is that of the index exactly
      when its pointer block exists or the last reported number was 0. */
  lemma ReportedNumberIff(t: Tree, n: nat, buf: Block, stale: nat)
    requires WellFormed(t) && n < TRIPLE_LIMIT && !(13 <= n < IND_LIMIT)
    ensures GetSpec(t, n, buf, stale).Element?
    ensures GetSpec(t, n, buf, stale).blockIdx == Lookup(t, n) <==> Reached(t, n) || stale == 0
  {
    assert ReadIndex(n) == n;
    if n >= DIRECT {
      PathOfValid(n);
      PrefixValid(PathOf(n), |PathOf(n)| - 1);
      assert !Reached(t, n) ==> Lookup(t, n) == 0;
    }
  }

  /** With a single-indirect block, the indices that are read at all in its range are every
      fourth, and they yield the first 64 blocks of the range. */
  lemma EveryFourth(t: Tree, n: nat, buf: Block, stale: nat)
    requires WellFormed(t) && DIRECT <= n < IND_LIMIT && t.roots[12] != 0
    ensures GetSpec(t, n, buf, stale).Element? <==> exists k: nat :: n == DIRECT + 4 * k
    ensures forall k: nat :: n == DIRECT + 4 * k ==>
              k < 64 && GetSpec(t, n, buf, stale) == Element(Walk(t, DIRECT + k), false, Lookup(t, DIRECT + k))
  {
    SpecSingle(t, n, buf, stale);
    if (n - DIRECT) % 4 == 0 {
      assert n == DIRECT + 4 * ((n - DIRECT) / 4);
    }
    forall k: nat | n == DIRECT + 4 * k
      ensures k < 64 && GetSpec(t, n, buf, stale) == Element(Walk(t, DIRECT + k), false, Lookup(t, DIRECT + k))
    {
      Walk2(t, 12, k);
      assert PathOf(DIRECT + k) == [12, k];
    }
  }

  /** A tree with no blocks. */
  lemma EmptyTree() returns (t: Tree)
    ensures WellFormed(t) && t == Tree(seq(15, i => 0), map[])
    ensures forall p :: ValidPath(p) ==> NodeAt(t, p) == 0
  {
    t := Tree(seq(15, i => 0), map[]);
    forall p | ValidPath(p) ensures NodeAt(t, p) == 0 {
      EmptyNode(t, p);
    }
  }

  /** A file of one block `b`: after its first read, index `n` is reported as `b`, too. */
  lemma StaleNumber(n: nat, b: nat) returns (t: Tree)
    requires DIRECT <= n < TRIPLE_LIMIT && !(13 <= n < IND_LIMIT) && b != 0
    ensures WellFormed(t) && GetSpec(t, 0, Zeros(), 0) == Element(Walk(t, 0), false, b)
    ensures Lookup(t, n) == 0 && GetSpec(t, n, Zeros(), b) == Element(Walk(t, n), false, b)
  {
    var e := EmptyTree();
    t := Link(e, [0], b);
    LinkEffect(e, [0], b);
    LinkNode(e, [0], b, [0]);
    PathOfValid(n);
    PrefixValid(PathOf(n), |PathOf(n)| - 1);
    LinkNode(e, [0], b, PathOf(n));
    LinkNode(e, [0], b, Parent(PathOf(n)));
  }

  // ----- whole runs -----

  /** Different indices have different blocks. */
  lemma FlatInjective(t: Tree, m: nat, n: nat)
    requires WellFormed(t) && m in Flat(t) && n in Flat(t) && m != n
    ensures Flat(t)[m] != Flat(t)[n]
  {
    PathOfInjective(m, n);
    PathOfValid(m);
    PathOfValid(n);
    assert At(PathOf(m)) && At(PathOf(n));
  }

  datatype Op = SkipOp(count: nat) | SetOp | GetOp

  /** Why a run ended. */
  datatype Stop = Finished | Full | PastTheTree | ReadPanic

  /** The flat map after the given assignments. */
  function Replay(flat: map<nat, nat>, log: seq<(nat, nat)>): map<nat, nat> {
    if log == [] then flat else
      Replay(flat, log[..|log| - 1])[log[|log| - 1].0 := log[|log| - 1].1]
  }

  /** `t` is `t0` with `n` mapped to `b`, and nothing remapped. */
  ghost predicate Extends(t0: Tree, t: Tree, n: nat, b: nat) {
    && |t0.roots| == 15 && |t.roots| == 15
    && Flat(t) == Flat(t0)[n := b] && (n in Flat(t0) ==> Flat(t0)[n] == b)
  }

  lemma AssignedExtends(t0: Tree, t: Tree, n: nat, b: nat, added: seq<nat>)
    requires Assigned(t0, t, n, b, added)
    ensures Extends(t0, t, n, b)
  {
  }

  method Apply(it: InodeBlockIterator, op: Op) returns (entry: Option<(nat, nat)>, stop: Stop)
    requires it.Valid()
    modifies it, it.allocator`pending
    ensures it.Valid() && it.blocksLimit == old(it.blocksLimit)
    ensures entry.None? ==> Flat(it.T()) == old(Flat(it.T()))
    ensures entry.Some? ==> Extends(old(it.T()), it.T(), entry.value.0, entry.value.1)
    ensures stop.Finished? && op.SetOp? ==> entry.Some? && entry.value.0 == old(it.curIdx)
  {
    entry, stop := None, Finished;
    match op
    case SkipOp(count) =>
      it.Skip(count);
    case SetOp =>
      if it.curIdx >= TRIPLE_LIMIT {
        stop := PastTheTree;
      } else {
        var idx := it.curIdx;
        var r := it.NextSet();
        if r.NoSpaceLeft? {
          stop := Full;
        } else {
          AssignedExtends(old(it.T()), it.T(), idx, r.blockIdx, Numbers(r.newBlocks));
          entry := Some((idx, r.blockIdx));
        }
      }
    case GetOp =>
      var r := it.Next(Zeros());
      if r.Panicked? {
        stop := ReadPanic;
      }
  }

  /** Mappings there at the start and mappings made since are in force. */
  ghost predicate Kept(start: map<nat, nat>, log: seq<(nat, nat)>, now: map<nat, nat>) {
    && now == Replay(start, log)
    && (forall n :: n in start ==> n in now && now[n] == start[n])
    && (forall i :: 0 <= i < |log| ==> log[i].0 in now && now[log[i].0] == log[i].1)
  }

  lemma KeptStep(t0: Tree, t: Tree, start: map<nat, nat>, log: seq<(nat, nat)>, n: nat, b: nat)
    requires Extends(t0, t, n, b) && Kept(start, log, Flat(t0))
    ensures Kept(start, log + [(n, b)], Flat(t))
  {
    assert (log + [(n, b)])[..|log|] == log;
  }

  lemma KeptInjective(t: Tree, start: map<nat, nat>, log: seq<(nat, nat)>)
    requires WellFormed(t) && Kept(start, log, Flat(t))
    ensures forall i, j :: 0 <= i < j < |log| ==> (log[i].0 == log[j].0 <==> log[i].1 == log[j].1)
  {
    forall i, j | 0 <= i < j < |log| ensures log[i].0 == log[j].0 <==> log[i].1 == log[j].1 {
      if log[i].0 != log[j].0 {
        FlatInjective(t, log[i].0, log[j].0);
      }
    }
  }

  /** Every run of `skip`, `next_set` and `next` behaves as assignments to a flat
      map: an assigned index keeps its block for good, different indices get
      different blocks, and reads change nothing. Of that map the device holds what is
      below pointers that are in its triple-indirect block: all of it, unless a read
      cached that block first. */
  method Run(it: InodeBlockIterator, ops: seq<Op>) returns (log: seq<(nat, nat)>, stop: Stop)
    requires it.Valid()
    modifies it, it.allocator`pending
    ensures it.Valid()
    ensures Kept(old(Flat(it.T())), log, Flat(it.T()))
    ensures Flat(it.D()) == map n: nat | n in Flat(it.T()) && TopStored(it.D(), n) :: Flat(it.T())[n]
    ensures it.Tagged() ==> it.D() == it.T()
    ensures forall i, j :: 0 <= i < j < |log| ==> (log[i].0 == log[j].0 <==> log[i].1 == log[j].1)
  {
    log, stop := [], Finished;
    ghost var flat := Flat(it.T());
    for k := 0 to |ops|
      invariant it.Valid()
      invariant Kept(flat, log, Flat(it.T()))
    {
      ghost var t := it.T();
      var entry, why := Apply(it, ops[k]);
      if entry.Some? {
        KeptStep(t, it.T(), flat, log, entry.value.0, entry.value.1);
        log := log + [entry.value];
      }
      if why != Finished {
        stop := why;
        break;
      }
    }
    KeptInjective(it.T(), flat, log);
    FlatOnDevice(it.T(), it.disk, !it.Tagged(), it.top);
  }

  /** A read in the triple range, then a set whose pointer goes into the triple-indirect
      block: the iterator has the block from then on, the device does not. */
  method GetThenSet(it: InodeBlockIterator, buf: Block) returns (s: SetResult)
    requires it.Valid() && DOUBLE_LIMIT <= it.curIdx < TRIPLE_LIMIT
    requires it.triple.buf == None && it.blocks[14] != 0 && !TopStored(it.D(), it.curIdx)
    modifies it, it.allocator`pending
    ensures it.Valid() && it.curIdx == old(it.curIdx)
    ensures s.Done? ==> it.curIdx in Flat(it.T()) && it.curIdx !in Flat(it.D()) && Flat(it.D()) == old(Flat(it.D()))
  {
    var r := it.Get(buf);
    s := it.Set();
  }

  /** There are such files: one whose only block is an empty triple-indirect block. */
  lemma OnlyTriple(b: nat, n: nat) returns (t: Tree)
    requires b != 0 && DOUBLE_LIMIT <= n < TRIPLE_LIMIT
    ensures WellFormed(t) && t.roots[14] == b && !TopStored(t, n)
  {
    var e := EmptyTree();
    t := Link(e, [14], b);
    LinkEffect(e, [14], b);
  }
}
