/** A directory: an inode whose blocks the iterator yields. Adding an entry scans the
    blocks for one with room and asks the iterator for a new one if there is none;
    looking a name up, and deleting it, scans them in order.

    The meaning of a directory is the list of the record lists of its blocks, as the
    iterator reads them.
 */
module Directory {
  import opened Common
  import opened DirBlock
  import A = BlockAllocation
  import I = BlockIterator
  import T = BlockTree

  // ----- lists of record lists -----

  type Lists = seq<seq<Record>>

  /** The records of the first `n` lists, and of all of them. */
  function FlatTo(ls: Lists, n: nat): seq<Record>
    requires n <= |ls|
  {
    if n == 0 then [] else FlatTo(ls, n - 1) + ls[n - 1]
  }

  function Flat(ls: Lists): seq<Record> {
    FlatTo(ls, |ls|)
  }

  lemma {:induction false} SameBefore(ls: Lists, i: nat, m: seq<Record>, n: nat)
    requires n <= i < |ls|
    ensures FlatTo(ls[i := m], n) == FlatTo(ls, n)
  {
    if n > 0 {
      SameBefore(ls, i, m, n - 1);
    }
  }

  /** The records before, in and after list `i`, and the same with `m` in its place. */
  lemma {:induction false} Around(ls: Lists, i: nat, m: seq<Record>, n: nat) returns (rest: seq<Record>)
    requires i < n <= |ls|
    ensures FlatTo(ls, n) == FlatTo(ls, i) + ls[i] + rest
    ensures FlatTo(ls[i := m], n) == FlatTo(ls, i) + m + rest
  {
    if n == i + 1 {
      rest := [];
      SameBefore(ls, i, m, i);
    } else {
      var front := Around(ls, i, m, n - 1);
      rest := front + ls[n - 1];
      AppendAssoc(FlatTo(ls, i) + ls[i], front, ls[n - 1]);
      AppendAssoc(FlatTo(ls, i) + m, front, ls[n - 1]);
    }
  }

  lemma AppendAssoc(x: seq<Record>, y: seq<Record>, z: seq<Record>)
    ensures x + (y + z) == x + y + z
  {
  }

  lemma FindThree(a: seq<Record>, l: seq<Record>, b: seq<Record>, name: string)
    ensures Find(a + l + b, name)
            == if Find(a, name).Some? then Find(a, name)
               else if Find(l, name).Some? then Find(l, name) else Find(b, name)
  {
    FindConcat(a, l, name);
    FindConcat(a + l, b, name);
  }

  lemma LiveThree(a: seq<Record>, l: seq<Record>, b: seq<Record>)
    ensures Live(a + l + b) == Live(a) + Live(l) + Live(b)
  {
    LiveConcat(a, l);
    LiveConcat(a + l, b);
  }

  /** `t` is `s` with `e` put in at some place. */
  ghost predicate OneMore<T(!new)>(s: seq<T>, t: seq<T>, e: T) {
    exists k :: 0 <= k <= |s| && t == s[..k] + [e] + s[k..]
  }

  lemma OneMoreAt<T(!new)>(x: seq<T>, y: seq<T>, e: T)
    ensures OneMore(x + y, x + [e] + y, e)
  {
    assert (x + y)[..|x|] == x && (x + y)[|x|..] == y;
  }

  lemma OneMoreInside<T(!new)>(a: seq<T>, s: seq<T>, t: seq<T>, b: seq<T>, e: T)
    requires OneMore(s, t, e)
    ensures OneMore(a + s + b, a + t + b, e)
  {
    var k :| 0 <= k <= |s| && t == s[..k] + [e] + s[k..];
    assert s == s[..k] + s[k..];
    OneMoreAround(a, s[..k], s[k..], b, e);
  }

  lemma OneMoreAround<T(!new)>(a: seq<T>, p: seq<T>, q: seq<T>, b: seq<T>, e: T)
    ensures OneMore(a + (p + q) + b, a + (p + [e] + q) + b, e)
  {
    OneMoreAt(a + p, q + b, e);
    assert (a + p) + (q + b) == a + (p + q) + b;
    assert (a + p) + [e] + (q + b) == a + (p + [e] + q) + b;
  }

  // ----- what an insertion into one block means for the directory -----

  lemma InsertLive(l: seq<Record>, child: nat, name: Bytes)
    requires child != 0 && FirstFit(l, MinRecLen(|name|)) < |l|
    ensures OneMore(Live(l), Live(Insert(l, child, name)), (child, name))
  {
    var k := FirstFit(l, MinRecLen(|name|));
    SplitLive(l, k, MinRecLen(|l[k].name|), Record(child, Slack(l[k]), name));
    OneMoreAt(Live(l[..k + 1]), Live(l[k + 1..]), (child, name));
  }

  lemma InsertFind(l: seq<Record>, child: nat, name: Bytes, other: string)
    requires FirstFit(l, MinRecLen(|name|)) < |l|
    ensures other != Latin1(name) || child == 0 || IsDots(other) ==>
              Find(Insert(l, child, name), other) == Find(l, other)
    ensures other == Latin1(name) && child != 0 && !IsDots(other) && Find(l, other) == None ==>
              Find(Insert(l, child, name), other) == Some(child)
  {
    var k := FirstFit(l, MinRecLen(|name|));
    SplitFind(l, k, MinRecLen(|l[k].name|), Record(child, Slack(l[k]), name), other);
  }

  /** The entry just added is found; every other name is found as before. */
  ghost predicate Found(l: seq<Record>, m: seq<Record>, child: nat, name: Bytes, other: string) {
    if other == Latin1(name) && child != 0 && !IsDots(other)
    then Find(l, other) == None ==> Find(m, other) == Some(child)
    else Find(m, other) == Find(l, other)
  }

  /** One live entry more; the new name is found; the rest is found as before. */
  ghost predicate Grown(ls: Lists, ms: Lists, child: nat, name: Bytes) {
    && (child != 0 ==> OneMore(Live(Flat(ls)), Live(Flat(ms)), (child, name)))
    && forall other :: Found(Flat(ls), Flat(ms), child, name, other)
  }

  lemma FoundInside(x: seq<Record>, l: seq<Record>, y: seq<Record>, child: nat, name: Bytes, other: string)
    requires FirstFit(l, MinRecLen(|name|)) < |l|
    ensures Found(x + l + y, x + Insert(l, child, name) + y, child, name, other)
  {
    InsertFind(l, child, name, other);
    FindThree(x, l, y, other);
    FindThree(x, Insert(l, child, name), y, other);
  }

  lemma OneMoreLive(x: seq<Record>, l: seq<Record>, m: seq<Record>, y: seq<Record>, e: (nat, Bytes))
    requires OneMore(Live(l), Live(m), e)
    ensures OneMore(Live(x + l + y), Live(x + m + y), e)
  {
    LiveThree(x, l, y);
    LiveThree(x, m, y);
    OneMoreInside(Live(x), Live(l), Live(m), Live(y), e);
  }

  /** An insertion into one list is an insertion into the directory. */
  lemma GrownInside(ls: Lists, i: nat, child: nat, name: Bytes)
    requires i < |ls| && FirstFit(ls[i], MinRecLen(|name|)) < |ls[i]|
    ensures Grown(ls, ls[i := Insert(ls[i], child, name)], child, name)
  {
    var x, l, m := FlatTo(ls, i), ls[i], Insert(ls[i], child, name);
    var y := Around(ls, i, m, |ls|);
    if child != 0 {
      InsertLive(l, child, name);
      OneMoreLive(x, l, m, y, (child, name));
    }
    var before, after := Flat(ls), Flat(ls[i := m]);
    forall other ensures Found(before, after, child, name, other) {
      FoundInside(x, l, y, child, name, other);
    }
  }

  /** The entry is put into the first list that has room for it. */
  ghost predicate InsertedFirst(ls: Lists, ms: Lists, at: nat, child: nat, name: Bytes) {
    && at < |ls| && Full(ls, at, MinRecLen(|name|)) && FirstFit(ls[at], MinRecLen(|name|)) < |ls[at]|
    && ms == ls[at := Insert(ls[at], child, name)]
  }

  lemma {:induction false} FlatSnoc(ls: Lists, l: seq<Record>, n: nat)
    requires n <= |ls|
    ensures FlatTo(ls + [l], n) == FlatTo(ls, n)
  {
    if n > 0 {
      FlatSnoc(ls, l, n - 1);
    }
  }

  lemma FoundBehind(x: seq<Record>, r: Record, other: string)
    ensures Found(x, x + [r], r.inode, r.name, other)
  {
    FindConcat(x, [r], other);
    FindOne(r, other);
  }

  lemma LiveBehind(x: seq<Record>, r: Record)
    requires r.inode != 0
    ensures OneMore(Live(x), Live(x + [r]), (r.inode, r.name))
  {
    LiveConcat(x, [r]);
    assert [r][1..] == [];
    assert Live([r]) == [(r.inode, r.name)];
    OneMoreAt(Live(x), [], (r.inode, r.name));
    assert Live(x) + [] == Live(x) && Live(x) + [(r.inode, r.name)] + [] == Live(x) + [(r.inode, r.name)];
  }

  /** A new block with the entry as its only record is an insertion, too. */
  lemma GrownBehind(ls: Lists, r: Record)
    ensures Grown(ls, ls + [[r]], r.inode, r.name)
  {
    FlatSnoc(ls, [r], |ls|);
    var x := Flat(ls);
    assert Flat(ls + [[r]]) == x + [r];
    if r.inode != 0 {
      LiveBehind(x, r);
    }
    forall other ensures Found(x, x + [r], r.inode, r.name, other) {
      FoundBehind(x, r, other);
    }
  }

  /** A new name is found after it was added exactly when it is ASCII. */
  lemma AddThenFindIff(ls: Lists, ms: Lists, child: nat, name: string)
    requires Grown(ls, ms, child, Utf8(name)) && child != 0 && !IsDots(name) && Find(Flat(ls), name) == None
    ensures Find(Flat(ms), name) == Some(child) <==> Ascii(name)
  {
    ReadBackIff(name);
    assert Found(Flat(ls), Flat(ms), child, Utf8(name), name);
  }

  /** No record of the first `n` lists has the slack. */
  ghost predicate Full(ls: Lists, n: nat, need: nat)
    requires n <= |ls|
  {
    forall i :: 0 <= i < n ==> FirstFit(ls[i], need) == |ls[i]|
  }

  lemma FullStep(ls: Lists, i: nat, need: nat)
    requires i < |ls| && Full(ls, i, need) && FirstFit(ls[i], need) == |ls[i]|
    ensures Full(ls, i + 1, need)
  {
  }

  // ----- what a deletion from one block means for the directory -----

  /** The first match, which is in list `i`, is gone: one live entry less, the name
      is found only if a later record carries it, other names are found as before. */
  ghost predicate Shrunk(ls: Lists, ms: Lists, i: nat, name: string)
    requires i < |ls| && FirstMatch(ls[i], name) < |ls[i]|
  {
    var r := ls[i][FirstMatch(ls[i], name)];
    && OneMore(Live(Flat(ms)), Live(Flat(ls)), (r.inode, r.name))
    && FirstMatch(Flat(ls), name) < |Flat(ls)|
    && Find(Flat(ms), name) == Find(Flat(ls)[FirstMatch(Flat(ls), name) + 1..], name)
    && (forall other :: other != name ==> Find(Flat(ms), other) == Find(Flat(ls), other))
  }

  lemma RemoveOneLess(l: seq<Record>, k: nat)
    requires k < |l| && l[k].inode != 0
    ensures OneMore(Live(Remove(l, k)), Live(l), (l[k].inode, l[k].name))
  {
    RemoveLive(l, k);
    OneMoreAt(Live(l[..k]), Live(l[k + 1..]), (l[k].inode, l[k].name));
  }

  lemma RemovedOther(x: seq<Record>, l: seq<Record>, y: seq<Record>, k: nat, name: string, other: string)
    requires k < |l| && Matches(l[k], name) && other != name
    ensures Find(x + Remove(l, k) + y, other) == Find(x + l + y, other)
  {
    RemoveFindOther(l, k, name, other);
    FindThree(x, l, y, other);
    FindThree(x, Remove(l, k), y, other);
  }

  lemma RemovedNext(x: seq<Record>, l: seq<Record>, y: seq<Record>, name: string)
    requires Find(x, name) == None && FirstMatch(l, name) < |l|
    ensures FirstMatch(x + l + y, name) < |x + l + y|
    ensures Find(x + Remove(l, FirstMatch(l, name)) + y, name)
            == Find((x + l + y)[FirstMatch(x + l + y, name) + 1..], name)
  {
    var t := FirstInThree(x, l, y, name);
    RemoveFind(l, name);
    SameRest(x, Remove(l, FirstMatch(l, name)), t, y, name);
  }

  lemma SameRest(x: seq<Record>, m: seq<Record>, t: seq<Record>, y: seq<Record>, name: string)
    requires Find(x, name) == None && Find(m, name) == Find(t, name)
    ensures Find(x + m + y, name) == Find(t + y, name)
  {
    FindThree(x, m, y, name);
    FindConcat(t, y, name);
  }

  /** The first match is the one in `l`, and `t` is what follows it there. */
  lemma FirstInThree(x: seq<Record>, l: seq<Record>, y: seq<Record>, name: string) returns (t: seq<Record>)
    requires Find(x, name) == None && FirstMatch(l, name) < |l|
    ensures t == l[FirstMatch(l, name) + 1..]
    ensures FirstMatch(x + l + y, name) < |x + l + y| && (x + l + y)[FirstMatch(x + l + y, name) + 1..] == t + y
  {
    var k := FirstMatch(l, name);
    t := l[k + 1..];
    MatchAfter(x, l + y, name);
    assert x + (l + y) == x + l + y;
    FirstMatchIs(l + y, name, k);
    assert (l + y)[k + 1..] == t + y;
  }

  /** A deletion from one list is a deletion from the directory. */
  lemma ShrunkInside(ls: Lists, i: nat, name: string)
    requires i < |ls| && Find(FlatTo(ls, i), name) == None && FirstMatch(ls[i], name) < |ls[i]|
    ensures Shrunk(ls, ls[i := Remove(ls[i], FirstMatch(ls[i], name))], i, name)
  {
    var x, l, k := FlatTo(ls, i), ls[i], FirstMatch(ls[i], name);
    var m := Remove(l, k);
    var y := Around(ls, i, m, |ls|);
    RemoveOneLess(l, k);
    OneMoreLive(x, m, l, y, (l[k].inode, l[k].name));
    RemovedNext(x, l, y, name);
    var before, after := Flat(ls), Flat(ls[i := m]);
    forall other | other != name ensures Find(after, other) == Find(before, other) {
      RemovedOther(x, l, y, k, name, other);
    }
  }

  lemma SeekThree(x: seq<Record>, l: seq<Record>, y: seq<Record>, name: string)
    requires Find(x, name) == None
    ensures Find(l, name).Some? ==> Find(x + l + y, name) == Find(l, name)
    ensures Find(l, name) == None ==> Find(x + l, name) == None
  {
    FindThree(x, l, y, name);
    FindConcat(x, l, name);
  }

  /** The name is in none of the lists before `i`; list `i` decides. */
  lemma SeekRest(ls: Lists, i: nat, name: string)
    requires i < |ls| && Find(FlatTo(ls, i), name) == None
    ensures Find(ls[i], name).Some? ==> Find(Flat(ls), name) == Find(ls[i], name)
    ensures Find(ls[i], name) == None ==> Find(FlatTo(ls, i + 1), name) == None
  {
    var y := Around(ls, i, ls[i], |ls|);
    SeekThree(FlatTo(ls, i), ls[i], y, name);
  }

  /** The names before list `i + 1` have been looked at. */
  ghost predicate Sought(ls: Lists, i: nat, name: string) {
    i <= |ls| && Find(FlatTo(ls, i), name) == None && (i == |ls| ==> Find(Flat(ls), name) == None)
  }

  lemma SeekStart(ls: Lists, name: string)
    ensures Sought(ls, 0, name)
  {
  }

  lemma SeekStep(ls: Lists, i: nat, name: string, res: Option<nat>)
    requires i < |ls| && Sought(ls, i, name) && res == Find(ls[i], name)
    ensures if res.Some? then res == Find(Flat(ls), name) else Sought(ls, i + 1, name)
  {
    SeekRest(ls, i, name);
  }

  // ----- blocks -----

  ghost predicate WellFormed(bs: seq<Bytes>) {
    forall i :: 0 <= i < |bs| ==> |bs[i]| == BLOCK_SIZE && Tiles(bs[i], 0, BLOCK_SIZE)
  }

  ghost function ListsOf(bs: seq<Bytes>): (ls: Lists)
    requires WellFormed(bs)
    ensures |ls| == |bs| && forall i :: 0 <= i < |bs| ==> ls[i] == Block(bs[i])
  {
    seq(|bs|, i requires 0 <= i < |bs| => Block(bs[i]))
  }

  lemma ListsUpdate(bs: seq<Bytes>, i: nat, b: Bytes)
    requires WellFormed(bs) && i < |bs| && |b| == BLOCK_SIZE && Tiles(b, 0, BLOCK_SIZE)
    ensures WellFormed(bs[i := b]) && ListsOf(bs[i := b]) == ListsOf(bs)[i := Block(b)]
  {
  }

  /** Every name the driver can write back fits the record it is deleted from. */
  lemma AsciiPadFits(b: Bytes, name: string)
    requires |b| == BLOCK_SIZE && Tiles(b, 0, BLOCK_SIZE) && FirstMatch(Block(b), name) < |Block(b)| && Ascii(name)
    ensures PadFits(Block(b), name)
  {
    ReadBackIff(name);
    BlockAt(b, 0);
    NameSize(b, 0);
    assert Block(b)[0] == RecordAt(b, 0);
  }

  lemma ListsSnoc(bs: seq<Bytes>, b: Bytes)
    requires WellFormed(bs) && |b| == BLOCK_SIZE && Tiles(b, 0, BLOCK_SIZE)
    ensures WellFormed(bs + [b]) && ListsOf(bs + [b]) == ListsOf(bs) + [Block(b)]
  {
  }

  // ----- blocks as words and as bytes -----

  function ToWords(b: Bytes): T.Block
    requires |b| == BLOCK_SIZE
  {
    seq(256, i requires 0 <= i < 256 => U32(b, 4 * i))
  }

  function ByteOf(w: nat, k: nat): Byte {
    if k == 0 then w % 256 else if k == 1 then w / 256 % 256 else if k == 2 then w / 65536 % 256 else w / 16777216 % 256
  }

  function ToBytes(w: T.Block): (b: Bytes)
    ensures |b| == BLOCK_SIZE
  {
    seq(BLOCK_SIZE, j requires 0 <= j < BLOCK_SIZE => ByteOf(w[j / 4], j % 4))
  }

  lemma ByteOfU32(b: Bytes, o: nat, k: nat)
    requires o + 4 <= |b| && k < 4
    ensures ByteOf(U32(b, o), k) == b[o + k]
  {
    FourBytes(b[o], b[o + 1], b[o + 2], b[o + 3]);
  }

  lemma FourBytes(a: Byte, b: Byte, c: Byte, d: Byte)
    ensures var v: nat := a + 256 * b + 65536 * c + 16777216 * d;
            ByteOf(v, 0) == a && ByteOf(v, 1) == b && ByteOf(v, 2) == c && ByteOf(v, 3) == d
  {
    var v := a + 256 * b + 65536 * c + 16777216 * d;
    assert v / 256 == b + 256 * c + 65536 * d && v / 65536 == c + 256 * d && v / 16777216 == d;
  }

  lemma BytesBack(b: Bytes)
    requires |b| == BLOCK_SIZE
    ensures ToBytes(ToWords(b)) == b
  {
    forall j | 0 <= j < BLOCK_SIZE ensures ToBytes(ToWords(b))[j] == b[j] {
      assert ToWords(b)[j / 4] == U32(b, 4 * (j / 4));
      ByteOfU32(b, 4 * (j / 4), j % 4);
    }
  }

  /** What a block that the inode does not reach reads as. */
  function Hole(): Bytes {
    seq(BLOCK_SIZE, i => 0)
  }

  lemma HoleIsNoBlock()
    ensures ToBytes(T.Zeros()) == Hole() && !Tiles(Hole(), 0, BLOCK_SIZE)
  {
    assert RecLen(Hole(), 0) == 0;
  }

  // ----- what the iterator reads -----

  /** Block `n` as the iterator reads it; None if it panics. */
  function SeenAt(t: T.Tree, n: nat): Option<Bytes>
    requires |t.roots| == 15
  {
    match I.GetSpec(t, n, T.Zeros(), 0)
    case Panicked => None
    case Element(buf, _, _) => Some(ToBytes(buf))
  }

  /** The first `count` blocks can all be read, and records tile each of them. */
  ghost predicate Readable(t: T.Tree, count: nat) {
    |t.roots| == 15 && forall n :: 0 <= n < count ==> SeenAt(t, n).Some? && Tiles(SeenAt(t, n).value, 0, BLOCK_SIZE)
  }

  ghost function Seen(t: T.Tree, count: nat): (bs: seq<Bytes>)
    requires Readable(t, count)
    ensures |bs| == count && WellFormed(bs) && forall n :: 0 <= n < count ==> SeenAt(t, n) == Some(bs[n])
  {
    seq(count, n requires 0 <= n < count => SeenAt(t, n).value)
  }

  /** Reading an index up to 12 yields the block that the tree has for it. */
  lemma SeenBlock(t: T.Tree, n: nat, stale: nat)
    requires |t.roots| == 15 && n <= 12
    ensures SeenAt(t, n) == Some(ToBytes(I.Content(t.disk, T.Lookup(t, n))))
    ensures T.Lookup(t, n) != 0 ==>
              I.GetSpec(t, n, T.Zeros(), stale) == I.Element(T.Read(t.disk, T.Lookup(t, n)), false, T.Lookup(t, n))
  {
    assert I.ReadIndex(n) == n;
    if n == 12 {
      assert T.PathOf(12) == [12, 0] && T.Parent([12, 0]) == [12];
    }
  }

  /** A block that can be scanned is there. */
  lemma SeenIsThere(t: T.Tree, n: nat)
    requires |t.roots| == 15 && n <= 12 && SeenAt(t, n).Some? && Tiles(SeenAt(t, n).value, 0, BLOCK_SIZE)
    ensures T.Lookup(t, n) != 0
  {
    SeenBlock(t, n, 0);
    HoleIsNoBlock();
  }

  lemma RootThere(t: T.Tree)
    requires |t.roots| == 15 && t.roots[12] == 0
    ensures T.Lookup(t, 12) == 0
  {
    T.Unreached(t.roots, t.disk, 12);
  }

  /** With an indirect block, index 13 cannot be read. */
  lemma ThirteenPanics(t: T.Tree, buf: T.Block, stale: nat)
    requires |t.roots| == 15 && t.roots[12] != 0
    ensures I.GetSpec(t, 13, buf, stale) == I.Panicked && SeenAt(t, 13) == None
  {
  }

  /** So no directory of more than 13 blocks can be scanned. */
  lemma AtMostThirteen(t: T.Tree, count: nat)
    requires Readable(t, count)
    ensures count <= 13 && (count == 13 ==> t.roots[12] != 0)
  {
    if count > 12 {
      assert SeenAt(t, 12).Some?;
      SeenIsThere(t, 12);
      if t.roots[12] == 0 {
        RootThere(t);
      }
      if count > 13 {
        ThirteenPanics(t, T.Zeros(), 0);
      }
    }
  }

  /** The tree has `bs` as its first blocks, readable each. */
  ghost predicate Shows(t: T.Tree, bs: seq<Bytes>) {
    && T.WellFormed(t) && |bs| <= 13 && WellFormed(bs)
    && forall n :: 0 <= n < |bs| ==> ShownAt(t, n, bs[n])
  }

  ghost predicate ShownAt(t: T.Tree, n: nat, b: Bytes)
    requires |t.roots| == 15
  {
    n < T.TRIPLE_LIMIT && T.Lookup(t, n) != 0 && ToBytes(T.Read(t.disk, T.Lookup(t, n))) == b
  }

  lemma ReadableShows(t: T.Tree, count: nat)
    requires T.WellFormed(t) && Readable(t, count)
    ensures Shows(t, Seen(t, count))
  {
    AtMostThirteen(t, count);
    var bs := Seen(t, count);
    forall n | 0 <= n < count ensures ShownAt(t, n, bs[n]) {
      assert SeenAt(t, n).Some?;
      SeenIsThere(t, n);
      SeenBlock(t, n, 0);
    }
  }

  lemma ShowsReadable(t: T.Tree, bs: seq<Bytes>)
    requires Shows(t, bs)
    ensures Readable(t, |bs|) && Seen(t, |bs|) == bs
  {
    forall n | 0 <= n < |bs| ensures SeenAt(t, n) == Some(bs[n]) {
      assert ShownAt(t, n, bs[n]);
      SeenBlock(t, n, 0);
    }
  }

  /** Different indices have different blocks. */
  lemma OtherBlock(t: T.Tree, m: nat, n: nat)
    requires T.WellFormed(t) && m < T.TRIPLE_LIMIT && n < T.TRIPLE_LIMIT && m != n && T.Lookup(t, m) != 0
    ensures T.Lookup(t, m) != T.Lookup(t, n)
  {
    T.PathOfInjective(m, n);
    T.PathOfValid(m);
    T.PathOfValid(n);
    assert T.At(T.PathOf(m)) && T.At(T.PathOf(n));
  }

  lemma SameLookup(t: T.Tree, t': T.Tree, n: nat)
    requires |t.roots| == 15 && |t'.roots| == 15 && T.SameNodes(t, t') && n < T.TRIPLE_LIMIT
    ensures T.Lookup(t', n) == T.Lookup(t, n)
  {
    T.PathOfValid(n);
    assert T.At(T.PathOf(n));
  }

  /** Block `i` is written. */
  ghost predicate WroteBlock(t: T.Tree, t': T.Tree, n: nat, b: Bytes)
    requires |t.roots| == 15 && n < T.TRIPLE_LIMIT && |b| == BLOCK_SIZE
  {
    t' == T.Tree(t.roots, t.disk[T.Lookup(t, n) := ToWords(b)])
  }

  lemma WrittenAt(t: T.Tree, t': T.Tree, bs: seq<Bytes>, i: nat, b: Bytes, j: nat)
    requires Shows(t, bs) && i < |bs| && |b| == BLOCK_SIZE && j < |bs|
    requires WroteBlock(t, t', i, b) && T.SameNodes(t, t')
    ensures SeenAt(t', j) == Some(if j == i then b else bs[j])
  {
    assert ShownAt(t, i, bs[i]) && ShownAt(t, j, bs[j]);
    SameLookup(t, t', j);
    if j == i {
      BytesBack(b);
    } else {
      OtherBlock(t, j, i);
    }
    SeenBlock(t', j, 0);
  }

  lemma ShowsWrite(t: T.Tree, t': T.Tree, bs: seq<Bytes>, i: nat, b: Bytes)
    requires Shows(t, bs) && i < |bs| && |b| == BLOCK_SIZE && WroteBlock(t, t', i, b)
    ensures T.WellFormed(t') && T.SameNodes(t, t')
    ensures forall j :: 0 <= j < |bs| ==> SeenAt(t', j) == Some(if j == i then b else bs[j])
  {
    assert ShownAt(t, i, bs[i]);
    T.WriteData(t, i, ToWords(b));
    forall j | 0 <= j < |bs| ensures SeenAt(t', j) == Some(if j == i then b else bs[j]) {
      WrittenAt(t, t', bs, i, b, j);
    }
  }

  /** If it is written with a tiled block, the directory is readable with that block. */
  lemma SeenWrite(t: T.Tree, t': T.Tree, bs: seq<Bytes>, i: nat, b: Bytes)
    requires Shows(t, bs) && i < |bs| && |b| == BLOCK_SIZE && WroteBlock(t, t', i, b)
    requires T.WellFormed(t') && forall j :: 0 <= j < |bs| ==> SeenAt(t', j) == Some(if j == i then b else bs[j])
    requires WellFormed(bs[i := b])
    ensures Readable(t', |bs|) && Seen(t', |bs|) == bs[i := b]
  {
    forall j | 0 <= j < |bs| ensures SeenAt(t', j) == Some(bs[i := b][j]) && Tiles(bs[i := b][j], 0, BLOCK_SIZE) {
    }
  }

  // ----- a new block -----

  /** The blocks that were shown are shown after the iterator has added a block, whether
      the inode has the new pointers or not. */
  lemma ShowsKept(t0: T.Tree, t: T.Tree, bs: seq<Bytes>)
    requires Shows(t0, bs) && T.WellFormed(t) && T.Keeping(t0, t)
    ensures Shows(T.Tree(t0.roots, t.disk), bs)
  {
    var d := T.Tree(t0.roots, t.disk);
    if t.roots == t0.roots {
      assert d == t;
    } else {
      T.SameWellFormed(t0, d);
    }
    forall n | 0 <= n < |bs| ensures ShownAt(d, n, bs[n]) {
      assert ShownAt(t0, n, bs[n]);
      LookupKept(t0, t, n);
    }
  }

  lemma LookupKept(t0: T.Tree, t: T.Tree, n: nat)
    requires |t0.roots| == 15 && |t.roots| == 15 && T.Keeping(t0, t) && n < T.TRIPLE_LIMIT && T.Lookup(t0, n) != 0
    ensures T.Lookup(T.Tree(t0.roots, t.disk), n) == T.Lookup(t0, n)
    ensures T.Read(t.disk, T.Lookup(t0, n)) == T.Read(t0.disk, T.Lookup(t0, n))
  {
    var p := T.PathOf(n);
    T.PathOfValid(n);
    assert T.DataKept(t0, t) && T.At(p);
    if t.roots == t0.roots {
      assert T.Tree(t0.roots, t.disk) == t;
    } else {
      assert T.SameNodes(t0, T.Tree(t0.roots, t.disk));
    }
  }

  /** The available blocks are not among those of the inode. */
  lemma SeparateKept(t0: T.Tree, t: T.Tree, avail: set<A.AllocatedBlock>)
    requires |t0.roots| == 15 && |t.roots| == 15 && T.Keeping(t0, t) && I.Separate(t, avail)
    ensures I.Separate(T.Tree(t0.roots, t.disk), avail)
  {
    var d := T.Tree(t0.roots, t.disk);
    if t.roots == t0.roots {
      assert d == t;
    } else {
      assert T.SameNodes(t0, d);
      forall b | b in avail ensures T.Unused(d, b.globalIdx) {
        assert T.Unused(t, b.globalIdx);
        forall p | T.ValidPath(p) ensures T.NodeAt(d, p) != b.globalIdx {
          assert T.At(p);
        }
      }
    }
  }

  lemma SeparateSame(t: T.Tree, t': T.Tree, avail: set<A.AllocatedBlock>)
    requires |t.roots| == 15 && |t'.roots| == 15 && T.SameNodes(t, t') && I.Separate(t, avail)
    ensures I.Separate(t', avail)
  {
    forall b | b in avail ensures T.Unused(t', b.globalIdx) {
      forall p | T.ValidPath(p) ensures T.NodeAt(t', p) != b.globalIdx {
        assert T.At(p);
      }
    }
  }

  /** The iterator has mapped index `n`, by way of `t`; the inode has the pointers of `t0`. */
  ghost predicate Mapped(t0: T.Tree, t: T.Tree, n: nat) {
    && T.WellFormed(t0) && T.WellFormed(t) && T.Keeping(t0, t) && n < T.TRIPLE_LIMIT && T.Lookup(t, n) != 0
    && (T.Lookup(T.Tree(t0.roots, t.disk), n) == T.Lookup(t, n) <==> t0.roots[T.PathOf(n)[0]] != 0)
  }

  /** The block is not one of the inode's, if the inode does not reach it. */
  lemma NotOfTheInode(t0: T.Tree, t: T.Tree, n: nat)
    requires Mapped(t0, t, n) && t0.roots[T.PathOf(n)[0]] == 0
    ensures T.SameNodes(t0, T.Tree(t0.roots, t.disk)) && T.Unused(T.Tree(t0.roots, t.disk), T.Lookup(t, n))
  {
    var d, p := T.Tree(t0.roots, t.disk), T.PathOf(n);
    T.PathOfValid(n);
    T.Unreached(t0.roots, t0.disk, n);
    T.Unreached(t0.roots, t.disk, n);
    assert t.roots != t0.roots;
    assert T.SameNodes(t0, d);
    forall q | T.ValidPath(q) ensures T.NodeAt(d, q) != T.Lookup(t, n) {
      assert T.At(q) && T.At(p);
    }
  }

  /** The new block holds `b`. Every block shown before is shown as before; the inode still
      has a proper tree, without the blocks that are available. */
  lemma NewBlockWritten(t0: T.Tree, t: T.Tree, bs: seq<Bytes>, b: Bytes, d: T.Tree, avail: set<A.AllocatedBlock>)
    requires Shows(t0, bs) && Mapped(t0, t, |bs|) && |b| == BLOCK_SIZE && I.Separate(t, avail)
    requires d == T.Tree(t0.roots, t.disk[T.Lookup(t, |bs|) := ToWords(b)])
    ensures T.WellFormed(d) && Shows(d, bs) && I.Separate(d, avail)
    ensures T.Lookup(d, |bs|) == if t0.roots[T.PathOf(|bs|)[0]] != 0 then T.Lookup(t, |bs|) else 0
  {
    var n, e := |bs|, T.Tree(t0.roots, t.disk);
    ShowsKept(t0, t, bs);
    SeparateKept(t0, t, avail);
    if t0.roots[T.PathOf(n)[0]] != 0 {
      T.WriteData(e, n, ToWords(b));
    } else {
      NotOfTheInode(t0, t, n);
      T.WriteUnused(e, T.Lookup(t, n), ToWords(b));
      T.Unreached(t0.roots, e.disk, n);
    }
    SeparateSame(e, d, avail);
    SameLookup(e, d, n);
    forall m | 0 <= m < n ensures ShownAt(d, m, bs[m]) {
      assert ShownAt(e, m, bs[m]);
      OldBlockKept(e, d, n, T.Lookup(t, n), ToWords(b), m);
    }
  }

  lemma OldBlockKept(e: T.Tree, d: T.Tree, n: nat, x: nat, w: T.Block, m: nat)
    requires T.WellFormed(e) && n < T.TRIPLE_LIMIT && m < n && d == T.Tree(e.roots, e.disk[x := w]) && T.SameNodes(e, d)
    requires T.Lookup(e, m) != 0 && (T.Lookup(e, n) == x || T.Unused(e, x))
    ensures T.Lookup(d, m) == T.Lookup(e, m) && T.Read(d.disk, T.Lookup(d, m)) == T.Read(e.disk, T.Lookup(e, m))
  {
    SameLookup(e, d, m);
    if T.Lookup(e, n) == x {
      OtherBlock(e, m, n);
    } else {
      T.PathOfValid(m);
      assert T.At(T.PathOf(m));
    }
  }

  /** What the directory with one block more reads as: all of it, with the new block last,
      exactly when it had at most 12 blocks and the inode slot of that number was in
      use. Otherwise the last block is a hole or cannot be read. */
  lemma NewBlockSeenIff(t0: T.Tree, t: T.Tree, bs: seq<Bytes>, b: Bytes, d: T.Tree)
    requires Shows(t0, bs) && Mapped(t0, t, |bs|) && |b| == BLOCK_SIZE && Tiles(b, 0, BLOCK_SIZE)
    requires d == T.Tree(t0.roots, t.disk[T.Lookup(t, |bs|) := ToWords(b)]) && Shows(d, bs)
    requires T.Lookup(d, |bs|) == if t0.roots[T.PathOf(|bs|)[0]] != 0 then T.Lookup(t, |bs|) else 0
    ensures Readable(d, |bs| + 1) <==> |bs| <= 12 && t0.roots[|bs|] != 0
    ensures Readable(d, |bs| + 1) ==> Seen(d, |bs| + 1) == bs + [b]
    ensures |bs| == 13 ==> SeenAt(d, 13) == None
    ensures |bs| <= 12 && t0.roots[|bs|] == 0 ==> SeenAt(d, |bs|) == Some(Hole())
  {
    var n := |bs|;
    HoleIsNoBlock();
    if n == 13 {
      assert ShownAt(d, 12, bs[12]);
      if d.roots[12] == 0 {
        RootThere(d);
      }
      ThirteenPanics(d, T.Zeros(), 0);
    } else {
      SeenBlock(d, n, 0);
      BytesBack(b);
      if t0.roots[n] != 0 {
        ShowsMore(d, bs, b);
      }
    }
  }

  /** A block that shows is in the tree. */
  lemma NotUnused(t: T.Tree, bs: seq<Bytes>, i: nat)
    requires Shows(t, bs) && i < |bs|
    ensures !T.Unused(t, T.Lookup(t, i))
  {
    assert ShownAt(t, i, bs[i]);
    T.PathOfValid(i);
    assert T.At(T.PathOf(i));
  }

  /** The block that the iterator maps is of the tree, or was available. */
  lemma NotForeign(t0: T.Tree, t: T.Tree, n: nat, x: nat, got: seq<A.AllocatedBlock>, rest: seq<A.AllocatedBlock>)
    requires I.Assigned(t0, t, n, x, I.Numbers(got))
    ensures !(T.Unused(t0, x) && x !in I.Numbers(got + rest))
  {
    if got != [] {
      assert I.Numbers(got)[|got| - 1] == x;
      I.NumbersOfFirst(got, rest, x);
    } else {
      T.PathOfValid(n);
      I.LookupMapped(t0, t, n, x, n);
      assert x in T.Owned(t) && x in T.Owned(t0);
      var p :| T.ValidPath(p) && T.NodeAt(t0, p) == x;
      assert T.At(p);
    }
  }

  /** All of it, for a block with one record. */
  lemma NewBlockAdded(t0: T.Tree, t: T.Tree, bs: seq<Bytes>, b: Bytes, d: T.Tree, avail: set<A.AllocatedBlock>,
                      r: Record)
    requires Shows(t0, bs) && Mapped(t0, t, |bs|) && I.Separate(t, avail)
    requires |b| == BLOCK_SIZE && Tiles(b, 0, BLOCK_SIZE) && Block(b) == [r]
    requires d == T.Tree(t0.roots, t.disk[T.Lookup(t, |bs|) := ToWords(b)])
    ensures T.WellFormed(d) && I.Separate(d, avail)
    ensures Readable(d, |bs| + 1) <==> |bs| <= 12 && t0.roots[|bs|] != 0
    ensures Readable(d, |bs| + 1) ==> ListsOf(Seen(d, |bs| + 1)) == ListsOf(bs) + [[r]]
    ensures !Readable(d, |bs| + 1) ==> SeenAt(d, |bs|) == if |bs| == 13 then None else Some(Hole())
  {
    NewBlockWritten(t0, t, bs, b, d, avail);
    NewBlockSeenIff(t0, t, bs, b, d);
    ListsSnoc(bs, b);
  }

  lemma ShowsMore(d: T.Tree, bs: seq<Bytes>, b: Bytes)
    requires Shows(d, bs) && |bs| <= 12 && |b| == BLOCK_SIZE && Tiles(b, 0, BLOCK_SIZE)
    requires T.Lookup(d, |bs|) != 0 && ToBytes(T.Read(d.disk, T.Lookup(d, |bs|))) == b
    ensures Readable(d, |bs| + 1) && Seen(d, |bs| + 1) == bs + [b]
  {
    var bs' := bs + [b];
    forall n | 0 <= n < |bs'| ensures ShownAt(d, n, bs'[n]) {
      assert n < |bs| ==> ShownAt(d, n, bs[n]);
    }
    ShowsReadable(d, bs');
  }

  // ----- the operations -----

  datatype AddResult = Added | NoSpaceLeft | NameTooLong | Failed

  class Dir {
    const groupNumber: nat
    const allocator: A.BlockAllocator
    /** The inode's block array and size. */
    var roots: seq<nat>
    var size: nat
    var disk: T.Disk

    constructor (roots: seq<nat>, size: nat, disk: T.Disk, groupNumber: nat, allocator: A.BlockAllocator)
      ensures this.roots == roots && this.size == size && this.disk == disk
      ensures this.groupNumber == groupNumber && this.allocator == allocator
    {
      this.roots, this.size, this.disk := roots, size, disk;
      this.groupNumber, this.allocator := groupNumber, allocator;
    }

    ghost function Tree(): T.Tree
      reads this
    {
      T.Tree(roots, disk)
    }

    function Count(): nat
      reads this
    {
      size / BLOCK_SIZE
    }

    /** The inode's tree is proper, and no available block is in it. */
    ghost predicate Mounted()
      reads this, allocator
    {
      && allocator.Valid() && groupNumber < |allocator.bitmapLba| && size == BLOCK_SIZE * Count()
      && T.WellFormed(Tree()) && I.Separate(Tree(), allocator.Available())
    }

    /** And every block of the directory can be scanned. */
    ghost predicate Valid()
      reads this, allocator
    {
      Mounted() && Readable(Tree(), Count())
    }

    ghost function Contents(): Lists
      reads this
      requires Readable(Tree(), Count())
    {
      ListsOf(Seen(Tree(), Count()))
    }

    /** No record has the slack for the name. */
    ghost predicate IsFull(name: string)
      reads this
      requires Readable(Tree(), Count())
    {
      Full(Contents(), Count(), MinRecLen(|Utf8(name)|))
    }

    /** The inode slot on the way to one more block is in use, and that block can be read. */
    predicate SlotInUse()
      reads this
      requires |roots| == 15
    {
      Count() <= 12 && roots[Count()] != 0
    }

    /** The last block is a hole, or, if it is block 13, reading it panics. */
    ghost predicate LastUnreadable()
      reads this
      requires |roots| == 15 && Count() > 0
    {
      SeenAt(Tree(), Count() - 1) == if Count() == 14 then None else Some(Hole())
    }

    /** The block is in use elsewhere, or not managed by the allocator. */
    ghost predicate Foreign(x: nat)
      reads this, allocator
      requires Mounted()
    {
      T.Unused(Tree(), x) && x !in I.Numbers(A.SearchOrder(allocator.Maps(), allocator.pending, groupNumber))
    }

    /** The allocator has the blocks that one more block of the directory takes. */
    ghost predicate HasSpace()
      reads this, allocator
      requires Valid()
    {
      AtMostThirteen(Tree(), Count());
      T.PathOfValid(Count());
      |allocator.Available()| >= T.Missing(Tree(), T.PathOf(Count()))
    }

    method Iterate() returns (it: I.InodeBlockIterator)
      requires Mounted()
      ensures fresh(it) && it.Valid() && it.Tagged() && it.T() == it.D() == Tree()
      ensures it.allocator == allocator && it.groupNumber == groupNumber
      ensures it.blocksLimit == Count() && it.curIdx == 0
    {
      it := new I.InodeBlockIterator(roots, disk, Count(), groupNumber, allocator);
    }

    /** Add an entry to the first block with room, or to a new block: one more live
        entry, found by name when the name is ASCII and new; all others are found as
        before. A new block is asked for exactly when no record has the slack. The
        directory can then be scanned exactly when it had at most 12 blocks and the
        inode slot of that number was in use: the iterator's new pointers are never
        copied to the inode, and block 13 cannot be read. */
    method AddDirEntry(child: nat, name: string) returns (out: AddResult, ghost at: nat)
      requires Valid() && child < 0x1_0000_0000
      modifies this`size, this`disk, allocator`pending
      ensures Mounted()
      ensures |Utf8(name)| > 255 ==> out != Added
      ensures |Utf8(name)| <= 255 ==> out == Added || out == NoSpaceLeft
      ensures |Utf8(name)| <= 255 ==>
                (out == NoSpaceLeft <==> old(IsFull(name)) && !old(HasSpace()))
      ensures out != Added ==> Valid() && Contents() == old(Contents()) && size == old(size)
      ensures out == Added ==> (Valid() <==> !old(IsFull(name)) || old(SlotInUse()))
      ensures out == Added && Valid() ==> Grown(old(Contents()), Contents(), child, Utf8(name))
      ensures out == Added && !old(IsFull(name)) ==>
                size == old(size) && InsertedFirst(old(Contents()), Contents(), at, child, Utf8(name))
      ensures out == Added && old(IsFull(name)) ==> size == old(size) + BLOCK_SIZE
      ensures out == Added && old(IsFull(name)) && Valid() ==>
                Contents() == old(Contents()) + [[Record(child, BLOCK_SIZE, Utf8(name))]]
      ensures out == Added && !Valid() ==> LastUnreadable()
      ensures forall x :: old(Foreign(x)) ==> T.Read(disk, x) == T.Read(old(disk), x)
    {
      ghost var bs := Seen(Tree(), Count());
      var it, o, blockIdx, b;
      it, o, blockIdx, b, at := LocateRoom(child, Utf8(name), bs);
      if o == Inserted {
        WriteBlock(blockIdx, b, bs, at);
        GrownInside(ListsOf(bs), at, child, Utf8(name));
        out := Added;
      } else if o == NoRoom {
        out := AddInNewBlock(it, child, name, bs);
        GrownBehind(ListsOf(bs), Record(child, BLOCK_SIZE, Utf8(name)));
      } else {
        out := if o == BadName then NameTooLong else Failed;
      }
    }

    method LocateRoom(child: nat, name: Bytes, ghost bs: seq<Bytes>)
      returns (it: I.InodeBlockIterator, o: Outcome, blockIdx: nat, b: Bytes, ghost i: nat)
      requires Valid() && bs == Seen(Tree(), Count()) && child < 0x1_0000_0000
      ensures fresh(it) && Shows(Tree(), bs)
      ensures o == NoRoom ==> Reading(it, Tree(), bs, |bs|) && it.allocator == allocator
      ensures it.groupNumber == groupNumber
      ensures |name| > 255 ==> o != Inserted
      ensures |name| <= 255 ==> o == Inserted || o == NoRoom
      ensures |name| <= 255 ==> (o == NoRoom <==> Full(ListsOf(bs), |bs|, MinRecLen(|name|)))
      ensures o == Inserted ==> i < |bs| && blockIdx == T.Lookup(Tree(), i) && |b| == BLOCK_SIZE
      ensures o == Inserted ==> WellFormed(bs[i := b])
      ensures o == Inserted ==> InsertedFirst(ListsOf(bs), ListsOf(bs[i := b]), i, child, name)
    {
      ReadableShows(Tree(), Count());
      it := Iterate();
      o, blockIdx, b, i := ScanForRoom(it, child, name, Tree(), bs);
    }

    /** Write block `i` of the directory. */
    method WriteBlock(blockIdx: nat, b: Bytes, ghost bs: seq<Bytes>, ghost i: nat)
      requires Mounted() && Shows(Tree(), bs) && |bs| == Count() && i < |bs| && blockIdx == T.Lookup(Tree(), i)
      requires |b| == BLOCK_SIZE
      modifies this`disk
      ensures Mounted()
      ensures forall j :: 0 <= j < |bs| ==> SeenAt(Tree(), j) == Some(if j == i then b else bs[j])
      ensures WellFormed(bs[i := b]) ==> Readable(Tree(), Count()) && Seen(Tree(), Count()) == bs[i := b]
      ensures forall x :: T.Unused(old(Tree()), x) ==> T.Read(disk, x) == T.Read(old(disk), x)
    {
      ghost var t := Tree();
      NotUnused(t, bs, i);
      disk := disk[blockIdx := ToWords(b)];
      ShowsWrite(t, Tree(), bs, i, b);
      SeparateSame(t, Tree(), allocator.Available());
      if WellFormed(bs[i := b]) {
        SeenWrite(t, Tree(), bs, i, b);
      }
    }

    /** The entry alone in a new block behind the others. */
    method AddInNewBlock(it: I.InodeBlockIterator, child: nat, name: string, ghost bs: seq<Bytes>)
      returns (out: AddResult)
      requires Valid() && child < 0x1_0000_0000 && Shows(Tree(), bs) && bs == Seen(Tree(), Count())
      requires it.Valid() && it.Tagged() && it.T() == Tree() && it.curIdx == Count()
      requires it.allocator == allocator && it.groupNumber == groupNumber
      modifies this`size, this`disk, it, allocator`pending
      ensures Mounted()
      ensures out == NoSpaceLeft <==> !old(HasSpace())
      ensures out == Added <==> out != NoSpaceLeft && |Utf8(name)| <= 255
      ensures out != Added ==> Valid() && Contents() == ListsOf(bs) && size == old(size)
      ensures out == Added ==> (Valid() <==> old(SlotInUse()))
      ensures out == Added ==> size == old(size) + BLOCK_SIZE
      ensures out == Added && Valid() ==> Contents() == ListsOf(bs) + [[Record(child, BLOCK_SIZE, Utf8(name))]]
      ensures out == Added && !Valid() ==> LastUnreadable()
      ensures forall x :: old(Foreign(x)) ==> T.Read(disk, x) == T.Read(old(disk), x)
    {
      ghost var t0 := Tree();
      var s := AskForBlock(it, bs);
      if s.NoSpaceLeft? {
        return NoSpaceLeft;
      }
      var b := FreshBlock(child, name);
      if b == None {
        return NameTooLong;
      }
      WriteNew(it, s.blockIdx, b.value, t0, bs, Record(child, BLOCK_SIZE, Utf8(name)));
      return Added;
    }

    /** Let the iterator add a block. Its pointers are not copied to the inode. */
    method AskForBlock(it: I.InodeBlockIterator, ghost bs: seq<Bytes>) returns (s: I.SetResult)
      requires Mounted() && Shows(Tree(), bs) && |bs| == Count()
      requires it.Valid() && it.Tagged() && it.T() == Tree() && it.curIdx == Count()
      requires it.allocator == allocator && it.groupNumber == groupNumber
      modifies this`disk, it, allocator`pending
      ensures Mounted() && Readable(Tree(), |bs|) && Seen(Tree(), |bs|) == bs
      ensures s.NoSpaceLeft? <==> |old(allocator.Available())| < T.Missing(old(Tree()), T.PathOf(|bs|))
      ensures s.Done? ==> Mapped(old(Tree()), it.T(), |bs|) && s.blockIdx == T.Lookup(it.T(), |bs|)
      ensures s.Done? ==> I.Separate(it.T(), allocator.Available()) && it.T().disk == disk
      ensures forall x :: old(Foreign(x)) ==> T.Read(disk, x) == T.Read(old(disk), x)
      ensures s.Done? ==> forall x :: old(Foreign(x)) ==> x != s.blockIdx
    {
      ghost var t0 := Tree();
      s := it.Set();
      if s.Done? {
        NotForeign(t0, it.T(), |bs|, s.blockIdx, s.newBlocks, it.Order());
      }
      disk := it.disk;
      ShowsKept(t0, it.T(), bs);
      ShowsReadable(Tree(), bs);
      SeparateKept(t0, it.T(), allocator.Available());
      if s.Done? {
        I.LookupMapped(t0, it.T(), |bs|, s.blockIdx, |bs|);
      }
    }

    /** Write the new block, and count it. */
    method WriteNew(it: I.InodeBlockIterator, blockIdx: nat, b: Bytes, ghost t0: T.Tree, ghost bs: seq<Bytes>,
                    ghost r: Record)
      requires Mounted() && |bs| == Count() && it.T().disk == disk && t0.roots == roots && Shows(t0, bs)
      requires Mapped(t0, it.T(), |bs|) && blockIdx == T.Lookup(it.T(), |bs|)
      requires I.Separate(it.T(), allocator.Available())
      requires |b| == BLOCK_SIZE && Tiles(b, 0, BLOCK_SIZE) && Block(b) == [r]
      modifies this`size, this`disk
      ensures Mounted() && |roots| == 15 && Count() == |bs| + 1 && size == old(size) + BLOCK_SIZE
      ensures disk == old(disk)[blockIdx := ToWords(b)]
      ensures Readable(Tree(), |bs| + 1) <==> |bs| <= 12 && roots[|bs|] != 0
      ensures Readable(Tree(), |bs| + 1) ==> Contents() == ListsOf(bs) + [[r]]
      ensures !Readable(Tree(), |bs| + 1) ==> SeenAt(Tree(), |bs|) == if |bs| == 13 then None else Some(Hole())
    {
      ghost var t := it.T();
      disk := disk[blockIdx := ToWords(b)];
      size := size + BLOCK_SIZE;
      NewBlockAdded(t0, t, bs, b, Tree(), allocator.Available(), r);
    }

    /** Look a name up in all blocks, and delete what is found. The deletion takes
        away exactly that entry, unless its record is the first of its block and
        is too short for the name written out again. */
    method FindEntry(name: string, delete: bool) returns (res: Option<nat>, ghost at: nat)
      requires Valid()
      modifies this`disk
      ensures Mounted()
      ensures res == Find(Flat(old(Contents())), name)
      ensures res.Some? ==> at < Count() && FirstMatch(old(Contents())[at], name) < |old(Contents())[at]|
      ensures !(delete && res.Some?) ==> disk == old(disk)
      ensures forall x :: T.Unused(old(Tree()), x) ==> T.Read(disk, x) == T.Read(old(disk), x)
      ensures delete && res.Some? ==> DeletedIn(old(Tree()), Tree(), Count(), at, name)
      ensures delete && res.Some? && (Ascii(name) || PadFits(old(Contents())[at], name)) ==>
                Valid() && Shrunk(old(Contents()), Contents(), at, name)
    {
      ghost var bs := Seen(Tree(), Count());
      var blockIdx, b;
      res, blockIdx, b, at := Locate(name, delete, bs);
      if delete && res.Some? {
        ghost var t := Tree();
        WriteBlock(blockIdx, b, bs, at);
        OneDeleted(t, Tree(), bs, at, b, name);
      }
    }

    method Locate(name: string, delete: bool, ghost bs: seq<Bytes>)
      returns (res: Option<nat>, blockIdx: nat, b: Bytes, ghost at: nat)
      requires Valid() && bs == Seen(Tree(), Count())
      ensures Shows(Tree(), bs) && SeekResult(Tree(), bs, name, delete, res, blockIdx, b, at)
    {
      ReadableShows(Tree(), Count());
      var it := Iterate();
      res, blockIdx, b, at := Seek(it, name, delete, size, Tree(), bs);
    }
  }

  /** Every full directory of fewer than 12 blocks, with no block behind its last, loses the
      entry that it is given a new block for: the block is a hole. */
  method GrowsIntoHole(d: Dir, child: nat, name: string) returns (out: AddResult)
    requires d.Valid() && child < 0x1_0000_0000 && |Utf8(name)| <= 255
    requires d.Count() < 12 && T.Lookup(d.Tree(), d.Count()) == 0 && d.IsFull(name) && d.HasSpace()
    modifies d`size, d`disk, d.allocator`pending
    ensures out == Added && !d.Valid() && d.Count() == old(d.Count()) + 1
    ensures SeenAt(d.Tree(), old(d.Count())) == Some(Hole())
  {
    ghost var at;
    out, at := d.AddDirEntry(child, name);
  }

  /** A new directory without blocks is one. */
  lemma EmptyDirectory() returns (t: T.Tree)
    ensures T.WellFormed(t) && Readable(t, 0) && T.Lookup(t, 0) == 0
    ensures forall need: nat :: Full(ListsOf(Seen(t, 0)), 0, need)
  {
    t := I.EmptyTree();
  }

  /** The iterator stands before block `n` of a directory that shows `bs`. */
  ghost predicate Reading(it: I.InodeBlockIterator, t: T.Tree, bs: seq<Bytes>, n: nat)
    reads it, it.allocator
  {
    it.Valid() && it.Tagged() && it.T() == t && it.curIdx == n && it.blocksLimit == |bs| && Shows(t, bs) && n <= |bs|
  }

  /** The next block, its number and its bytes, unless there is none left. */
  method NextBlock(it: I.InodeBlockIterator, ghost t: T.Tree, ghost bs: seq<Bytes>, ghost n: nat)
    returns (more: bool, blockIdx: nat, block: Bytes)
    requires Reading(it, t, bs, n)
    modifies it
    ensures more <==> n < |bs|
    ensures more ==> n < T.TRIPLE_LIMIT && |t.roots| == 15 && blockIdx == T.Lookup(t, n) && block == bs[n]
    ensures Reading(it, t, bs, if more then n + 1 else n)
  {
    if n < |bs| {
      assert ShownAt(t, n, bs[n]);
      SeenBlock(t, n, it.curBlockIdx);
    }
    var e := it.Next(T.Zeros());
    more, blockIdx, block := !e.isTerminated, e.blockIdx, ToBytes(e.buf);
  }

  /** The size of `n` blocks. */
  predicate IsSize(size: int, n: nat) {
    size == BLOCK_SIZE * n
  }

  /** The name is in block `i`, which a deletion turns into `b`. */
  ghost predicate Located(bs: seq<Bytes>, name: string, delete: bool, i: nat, b: Bytes)
    requires WellFormed(bs)
  {
    && i < |bs| && FirstMatch(ListsOf(bs)[i], name) < |ListsOf(bs)[i]|
    && (delete ==> |b| == BLOCK_SIZE && DeleteEffect(bs[i], b, name))
    && (delete && (Ascii(name) || PadFits(ListsOf(bs)[i], name)) ==>
          WellFormed(bs[i := b]) && Shrunk(ListsOf(bs), ListsOf(bs[i := b]), i, name))
  }

  /** One turn of the lookup: block `i`. */
  method SeekBlock(block: Bytes, name: string, delete: bool, remaining: nat, ghost bs: seq<Bytes>, ghost i: nat,
                   ghost left: nat)
    returns (res: Option<nat>, terminated: bool, rem: nat, b: Bytes)
    requires WellFormed(bs) && i < |bs| && block == bs[i] && left > 0 && IsSize(remaining, left)
    requires Find(FlatTo(ListsOf(bs), i), name) == None
    ensures res == Find(ListsOf(bs)[i], name)
    ensures res.Some? ==> Located(bs, name, delete, i, b)
    ensures terminated ==> left == 1
    ensures res == None ==> IsSize(rem, left - 1)
  {
    var buf := ReadBlock(block);
    var fault;
    res, terminated, rem, fault := FindInBlock(buf, name, delete, remaining);
    b := buf[..];
    if delete && res.Some? {
      if Ascii(name) {
        AsciiPadFits(bs[i], name);
      }
      if PadFits(Block(bs[i]), name) {
        ListsUpdate(bs, i, b);
        ShrunkInside(ListsOf(bs), i, name);
      }
    }
  }

  /** Only block `at` has changed: the record found there is deleted. */
  ghost predicate DeletedIn(t: T.Tree, t': T.Tree, count: nat, at: nat, name: string) {
    && Readable(t, count) && |t'.roots| == 15 && at < count
    && (forall j :: 0 <= j < count && j != at ==> SeenAt(t', j) == SeenAt(t, j))
    && FirstMatch(Block(SeenAt(t, at).value), name) < |Block(SeenAt(t, at).value)|
    && SeenAt(t', at).Some? && DeleteEffect(SeenAt(t, at).value, SeenAt(t', at).value, name)
  }

  lemma OneDeleted(t: T.Tree, t': T.Tree, bs: seq<Bytes>, at: nat, b: Bytes, name: string)
    requires Readable(t, |bs|) && bs == Seen(t, |bs|) && |t'.roots| == 15 && Located(bs, name, true, at, b)
    requires forall j :: 0 <= j < |bs| ==> SeenAt(t', j) == Some(if j == at then b else bs[j])
    ensures DeletedIn(t, t', |bs|, at, name)
  {
    assert SeenAt(t, at) == Some(bs[at]);
    forall j | 0 <= j < |bs| && j != at ensures SeenAt(t', j) == SeenAt(t, j) {
    }
  }

  /** The lookup before block `i`. */
  ghost predicate Seeking(it: I.InodeBlockIterator, t: T.Tree, bs: seq<Bytes>, name: string, i: nat, remaining: nat)
    reads it, it.allocator
  {
    Reading(it, t, bs, i) && IsSize(remaining, |bs| - i) && Sought(ListsOf(bs), i, name)
  }

  /** What the lookup comes to. */
  ghost predicate SeekResult(t: T.Tree, bs: seq<Bytes>, name: string, delete: bool, res: Option<nat>, blockIdx: nat,
                             b: Bytes, i: nat)
  {
    && |t.roots| == 15 && WellFormed(bs) && |bs| <= 13 && res == Find(Flat(ListsOf(bs)), name)
    && (res.Some? ==> Located(bs, name, delete, i, b) && blockIdx == T.Lookup(t, i))
  }

  /** One turn of the lookup. */
  method SeekTurn(it: I.InodeBlockIterator, name: string, delete: bool, remaining: nat,
                  ghost t: T.Tree, ghost bs: seq<Bytes>, ghost i: nat)
    returns (stop: bool, res: Option<nat>, rem: nat, blockIdx: nat, b: Bytes)
    requires Seeking(it, t, bs, name, i, remaining)
    modifies it
    ensures if stop then SeekResult(t, bs, name, delete, res, blockIdx, b, i)
            else i < |bs| && Seeking(it, t, bs, name, i + 1, rem)
  {
    var more, block;
    more, blockIdx, block := NextBlock(it, t, bs, i);
    if !more {
      return true, None, remaining, 0, [];
    }
    res, stop, rem, b := SeekBlock(block, name, delete, remaining, bs, i, |bs| - i);
    SeekStep(ListsOf(bs), i, name, res);
    stop := stop || res.Some?;
  }

  /** The lookup: the first block with a match, and what it becomes. */
  method Seek(it: I.InodeBlockIterator, name: string, delete: bool, size: nat, ghost t: T.Tree, ghost bs: seq<Bytes>)
    returns (res: Option<nat>, blockIdx: nat, b: Bytes, ghost i: nat)
    requires Reading(it, t, bs, 0) && IsSize(size, |bs|)
    modifies it
    ensures SeekResult(t, bs, name, delete, res, blockIdx, b, i)
  {
    SeekStart(ListsOf(bs), name);
    var stop, remaining := false, size;
    res, blockIdx, b, i := None, 0, [], 0;
    while !stop
      invariant stop ==> SeekResult(t, bs, name, delete, res, blockIdx, b, i)
      invariant !stop ==> Seeking(it, t, bs, name, i, remaining)
      decreases !stop, |bs| - i
    {
      stop, res, remaining, blockIdx, b := SeekTurn(it, name, delete, remaining, t, bs, i);
      i := if stop then i else i + 1;
    }
  }

  /** One turn of the scan: block `i`, with the entry if it has room. */
  method TryBlock(block: Bytes, child: nat, name: Bytes, ghost bs: seq<Bytes>, ghost i: nat)
    returns (o: Outcome, b: Bytes)
    requires WellFormed(bs) && i < |bs| && block == bs[i] && child < 0x1_0000_0000
    ensures |name| > 255 ==> o != Inserted
    ensures |name| <= 255 ==> o == Inserted || o == NoRoom
    ensures |name| <= 255 ==>
              (o == NoRoom <==> FirstFit(ListsOf(bs)[i], MinRecLen(|name|)) == |ListsOf(bs)[i]|)
    ensures o == Inserted ==> |b| == BLOCK_SIZE && WellFormed(bs[i := b])
    ensures o == Inserted ==> FirstFit(ListsOf(bs)[i], MinRecLen(|name|)) < |ListsOf(bs)[i]|
    ensures o == Inserted ==> ListsOf(bs[i := b]) == ListsOf(bs)[i := Insert(ListsOf(bs)[i], child, name)]
  {
    var buf := ReadBlock(block);
    o := AddEntryInBlock(buf, child, name);
    b := buf[..];
    if o == Inserted {
      ListsUpdate(bs, i, b);
    }
  }

  /** The scan: the first block with room, and what it becomes. */
  method ScanForRoom(it: I.InodeBlockIterator, child: nat, name: Bytes, ghost t: T.Tree, ghost bs: seq<Bytes>)
    returns (o: Outcome, blockIdx: nat, b: Bytes, ghost i: nat)
    requires Reading(it, t, bs, 0) && child < 0x1_0000_0000
    modifies it
    ensures |name| > 255 ==> o != Inserted
    ensures |name| <= 255 ==> o == Inserted || o == NoRoom
    ensures |name| <= 255 ==> (o == NoRoom <==> Full(ListsOf(bs), |bs|, MinRecLen(|name|)))
    ensures o == NoRoom ==> Reading(it, t, bs, |bs|)
    ensures o == Inserted ==> i < |bs| && blockIdx == T.Lookup(t, i)
    ensures o == Inserted ==> |b| == BLOCK_SIZE && WellFormed(bs[i := b])
    ensures o == Inserted ==> InsertedFirst(ListsOf(bs), ListsOf(bs[i := b]), i, child, name)
  {
    i, b := 0, [];
    var more, block;
    more, blockIdx, block := NextBlock(it, t, bs, 0);
    while more
      invariant i <= |bs| && (more <==> i < |bs|)
      invariant more ==> blockIdx == T.Lookup(t, i) && block == bs[i]
      invariant Reading(it, t, bs, if more then i + 1 else i)
      invariant |name| <= 255 ==> Full(ListsOf(bs), i, MinRecLen(|name|))
      decreases |bs| - i
    {
      o, b := TryBlock(block, child, name, bs, i);
      if o != NoRoom {
        return;
      }
      if |name| <= 255 {
        FullStep(ListsOf(bs), i, MinRecLen(|name|));
      }
      i := i + 1;
      more, blockIdx, block := NextBlock(it, t, bs, i);
    }
    o := NoRoom;
  }

  /** A block of zeros with the entry written over its front; None if the name is too
      long. */
  method FreshBlock(child: nat, name: string) returns (b: Option<Bytes>)
    requires child < 0x1_0000_0000
    ensures b == None <==> |Utf8(name)| > 255
    ensures b.Some? ==> |b.value| == BLOCK_SIZE && Tiles(b.value, 0, BLOCK_SIZE)
    ensures b.Some? ==> Block(b.value) == [Record(child, BLOCK_SIZE, Utf8(name))]
  {
    var buf := ReadBlock(Hole());
    var r := SerializeEntry(Entry(child, BLOCK_SIZE, name), buf, 0);
    if r.Done? {
      OnlyRecord(Hole(), buf[..], child, Utf8(name));
      return Some(buf[..]);
    }
    return None;
  }

  lemma OnlyRecord(b: Bytes, c: Bytes, child: nat, name: Bytes)
    requires |b| == BLOCK_SIZE && |name| <= 255 && EntryPut(b, c, 0, child, BLOCK_SIZE, name)
    ensures Tiles(c, 0, BLOCK_SIZE) && Block(c) == [Record(child, BLOCK_SIZE, name)]
  {
    MinRecLenRounds(|name|);
    assert Tiles(c, BLOCK_SIZE, BLOCK_SIZE) && Records(c, BLOCK_SIZE, BLOCK_SIZE) == [];
  }

  method ReadBlock(b: Bytes) returns (buf: array<Byte>)
    ensures fresh(buf) && buf[..] == b
  {
    buf := new Byte[|b|](i requires 0 <= i < |b| => b[i]);
  }
}
