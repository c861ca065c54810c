/** The ext2 block allocator: per-group block bitmaps on disk (1 = in use) plus
    the in-memory set of blocks handed out but not yet written back.

    Block sizes are those of a file system formatted with 1024-byte blocks.
    Blocks are named by the allocator's own global number
    `group * BLOCKS_PER_GROUP + bit`.
 */
module BlockAllocation {
  import opened Bits
  import opened Common

  const BLOCK_SIZE: nat := 1024
  const BLOCKS_PER_GROUP: nat := 8192
  const SECTORS_PER_BLOCK: int := 2
  const RESERVED_BOOT_RECORD_OFFSET: int := 2

  datatype Result<+T> = Ok(value: T) | NoSpaceLeft

  datatype AllocatedBlock = AllocatedBlock(addr: int, globalIdx: nat, relativeIdx: nat, group: nat)

  // ----- numbering -----

  /** First sector of a block group. */
  function GroupLba(g: nat): int {
    if g == 0 then RESERVED_BOOT_RECORD_OFFSET
    else RESERVED_BOOT_RECORD_OFFSET + (BLOCKS_PER_GROUP - 1) * SECTORS_PER_BLOCK + 1024 / 512
         + (g - 1) * BLOCKS_PER_GROUP * SECTORS_PER_BLOCK
  }

  /** The record the allocator builds for bit `idx` of group `g`. */
  function BlockAt(g: nat, idx: nat): AllocatedBlock {
    AllocatedBlock(GroupLba(g) + idx * SECTORS_PER_BLOCK, g * BLOCKS_PER_GROUP + idx, idx, g)
  }

  /** The number and the address of a block determine each other and the bit. */
  lemma NumberIs(g: nat, idx: nat)
    requires idx < BLOCKS_PER_GROUP
    ensures var b := BlockAt(g, idx);
            && b.globalIdx / BLOCKS_PER_GROUP == b.group == g && b.globalIdx % BLOCKS_PER_GROUP == b.relativeIdx == idx
            && b.addr == RESERVED_BOOT_RECORD_OFFSET + SECTORS_PER_BLOCK * b.globalIdx
  {
  }

  /** The sector at which block `n` of a file is read and written. */
  function BlockLba(n: nat): int {
    n * BLOCK_SIZE / 512
  }

  /** A file that stores the number of a block is never read at the address of that block,
      but always at the address of the block before it. */
  lemma ReadOneBefore(g: nat, idx: nat)
    requires idx < BLOCKS_PER_GROUP
    ensures var b := BlockAt(g, idx);
            && BlockLba(b.globalIdx) != b.addr
            && forall h: nat, j: nat :: j < BLOCKS_PER_GROUP ==>
                 (BlockLba(b.globalIdx) == BlockAt(h, j).addr <==> BlockAt(h, j).globalIdx + 1 == b.globalIdx)
  {
    NumberIs(g, idx);
    forall h: nat, j: nat | j < BLOCKS_PER_GROUP
      ensures BlockLba(BlockAt(g, idx).globalIdx) == BlockAt(h, j).addr <==>
              BlockAt(h, j).globalIdx + 1 == BlockAt(g, idx).globalIdx
    {
      NumberIs(h, j);
    }
  }

  /** Sector addresses grow strictly with (group, bit). The pending set compares
      blocks by address alone, so it confuses no two blocks; block numbers are
      as good a name. */
  lemma AddressesStrictlyIncrease(g: nat, i: nat, h: nat, j: nat)
    requires i < BLOCKS_PER_GROUP && j < BLOCKS_PER_GROUP
    ensures BlockAt(g, i).addr < BlockAt(h, j).addr <==> (g < h || (g == h && i < j))
    ensures BlockAt(g, i).addr == BlockAt(h, j).addr <==> (g == h && i == j)
    ensures BlockAt(g, i).globalIdx == BlockAt(h, j).globalIdx <==> (g == h && i == j)
  {
  }

  // ----- availability -----

  /** The block bitmaps of all groups, as rows of bits. */
  type Bitmaps = seq<seq<bool>>
  /** The blocks handed out and not yet written back. */
  type Held = set<AllocatedBlock>

  predicate WellSized(bitmaps: Bitmaps) {
    forall g :: 0 <= g < |bitmaps| ==> |bitmaps[g]| == BLOCKS_PER_GROUP
  }

  /** Bit `i` of group `g` is clear and its block is not held. */
  predicate Avail(bitmaps: Bitmaps, held: Held, g: nat, i: nat)
    requires WellSized(bitmaps)
  {
    && g < |bitmaps| && i < BLOCKS_PER_GROUP
    && !bitmaps[g][i]
    && BlockAt(g, i) !in held
  }

  /** The number of `b` names a clear bit, which is the one in its record, and its address
      is that many blocks behind the boot record. */
  ghost predicate NamesClearBit(bitmaps: Bitmaps, b: AllocatedBlock)
    requires WellSized(bitmaps)
  {
    var n := b.globalIdx;
    && n / BLOCKS_PER_GROUP < |bitmaps| && !bitmaps[n / BLOCKS_PER_GROUP][n % BLOCKS_PER_GROUP]
    && b.group == n / BLOCKS_PER_GROUP && b.relativeIdx == n % BLOCKS_PER_GROUP
    && b.addr == RESERVED_BOOT_RECORD_OFFSET + SECTORS_PER_BLOCK * n
  }

  /** The record `b` is that of an available block. */
  predicate IsAvail(bitmaps: Bitmaps, held: Held, b: AllocatedBlock)
    requires WellSized(bitmaps)
  {
    b == BlockAt(b.group, b.relativeIdx) && Avail(bitmaps, held, b.group, b.relativeIdx)
  }

  /** The available blocks among the first `k` bits of group `g`, in order. */
  function AvailList(bitmaps: Bitmaps, held: Held, g: nat, k: nat): seq<AllocatedBlock>
    requires WellSized(bitmaps)
  {
    if k == 0 then [] else
      AvailList(bitmaps, held, g, k - 1) + if Avail(bitmaps, held, g, k - 1) then [BlockAt(g, k - 1)] else []
  }

  function GroupList(bitmaps: Bitmaps, held: Held, g: nat): seq<AllocatedBlock>
    requires WellSized(bitmaps)
  {
    if g < |bitmaps| then AvailList(bitmaps, held, g, |bitmaps[g]|) else []
  }

  /** The available blocks of the first `k` groups, leaving out one of them. */
  function OthersList(bitmaps: Bitmaps, held: Held, exclude: int, k: nat): seq<AllocatedBlock>
    requires WellSized(bitmaps)
  {
    if k == 0 then [] else
      OthersList(bitmaps, held, exclude, k - 1) + if k - 1 == exclude then [] else GroupList(bitmaps, held, k - 1)
  }

  /** The order in which a request that prefers group `g` looks for blocks. */
  function SearchOrder(bitmaps: Bitmaps, held: Held, g: nat): seq<AllocatedBlock>
    requires WellSized(bitmaps)
  {
    GroupList(bitmaps, held, g) + OthersList(bitmaps, held, g, |bitmaps|)
  }

  function Take(s: seq<AllocatedBlock>, n: nat): seq<AllocatedBlock> {
    if n <= |s| then s[..n] else s
  }

  ghost predicate Distinct(s: seq<AllocatedBlock>) {
    forall i, j :: 0 <= i < j < |s| ==> s[i] != s[j]
  }

  lemma {:induction false} AvailListMembers(bitmaps: Bitmaps, held: Held, g: nat, k: nat)
    requires WellSized(bitmaps)
    ensures forall b :: b in AvailList(bitmaps, held, g, k) <==>
                        b.group == g && b.relativeIdx < k && IsAvail(bitmaps, held, b)
    ensures Distinct(AvailList(bitmaps, held, g, k))
  {
    if k > 0 {
      AvailListMembers(bitmaps, held, g, k - 1);
    }
  }

  lemma {:induction false} AvailListPrefix(bitmaps: Bitmaps, held: Held, g: nat, j: nat, k: nat)
    requires WellSized(bitmaps) && j <= k
    ensures AvailList(bitmaps, held, g, j) <= AvailList(bitmaps, held, g, k)
  {
    if j < k {
      AvailListPrefix(bitmaps, held, g, j, k - 1);
    }
  }

  /** Taking blocks of other groups does not change the list of a group. */
  lemma {:induction false} AvailListFrame(bitmaps: Bitmaps, held: Held, held': Held, g: nat, k: nat)
    requires WellSized(bitmaps)
    requires forall i: nat :: i < k ==> (BlockAt(g, i) in held <==> BlockAt(g, i) in held')
    ensures AvailList(bitmaps, held, g, k) == AvailList(bitmaps, held', g, k)
  {
    if k > 0 {
      AvailListFrame(bitmaps, held, held', g, k - 1);
      assert BlockAt(g, k - 1) in held <==> BlockAt(g, k - 1) in held';
    }
  }

  lemma DistinctConcat(s: seq<AllocatedBlock>, t: seq<AllocatedBlock>)
    requires Distinct(s) && Distinct(t)
    requires forall n :: n in s ==> n !in t
    ensures Distinct(s + t)
  {
    var u := s + t;
    forall i, j | 0 <= i < j < |u| ensures u[i] != u[j] {
      if i < |s| && |s| <= j {
        assert u[i] in s && u[j] in t;
      }
    }
  }

  lemma GroupMembers(bitmaps: Bitmaps, held: Held, g: nat)
    requires WellSized(bitmaps)
    ensures forall b :: b in GroupList(bitmaps, held, g) <==> b.group == g && IsAvail(bitmaps, held, b)
    ensures Distinct(GroupList(bitmaps, held, g))
  {
    if g < |bitmaps| {
      AvailListMembers(bitmaps, held, g, |bitmaps[g]|);
    }
  }

  lemma GroupFrame(bitmaps: Bitmaps, held: Held, held': Held, g: nat)
    requires WellSized(bitmaps)
    requires forall i: nat :: i < BLOCKS_PER_GROUP ==> (BlockAt(g, i) in held <==> BlockAt(g, i) in held')
    ensures GroupList(bitmaps, held, g) == GroupList(bitmaps, held', g)
  {
    if g < |bitmaps| {
      AvailListFrame(bitmaps, held, held', g, |bitmaps[g]|);
    }
  }

  lemma {:induction false} OthersMembers(bitmaps: Bitmaps, held: Held, exclude: int, k: nat)
    requires WellSized(bitmaps)
    ensures forall b :: b in OthersList(bitmaps, held, exclude, k) <==>
                        b.group < k && b.group != exclude && IsAvail(bitmaps, held, b)
    ensures Distinct(OthersList(bitmaps, held, exclude, k))
  {
    if k > 0 {
      OthersMembers(bitmaps, held, exclude, k - 1);
      var mine := OthersLast(bitmaps, held, exclude, k);
      AddGroup(bitmaps, held, exclude, k, OthersList(bitmaps, held, exclude, k - 1), mine);
    }
  }

  /** What the last group contributes: nothing if it is the one left out. */
  lemma OthersLast(bitmaps: Bitmaps, held: Held, exclude: int, k: nat) returns (mine: seq<AllocatedBlock>)
    requires WellSized(bitmaps) && k > 0
    ensures OthersList(bitmaps, held, exclude, k) == OthersList(bitmaps, held, exclude, k - 1) + mine
    ensures Distinct(mine)
    ensures forall b :: b in mine <==> k - 1 != exclude && b.group == k - 1 && IsAvail(bitmaps, held, b)
  {
    if k - 1 == exclude {
      mine := [];
    } else {
      mine := GroupBlocks(bitmaps, held, k - 1);
    }
  }

  lemma GroupBlocks(bitmaps: Bitmaps, held: Held, g: nat) returns (mine: seq<AllocatedBlock>)
    requires WellSized(bitmaps)
    ensures mine == GroupList(bitmaps, held, g) && Distinct(mine)
    ensures forall b :: b in mine <==> b.group == g && IsAvail(bitmaps, held, b)
  {
    GroupMembers(bitmaps, held, g);
    mine := GroupList(bitmaps, held, g);
  }

  lemma AddGroup(bitmaps: Bitmaps, held: Held, exclude: int, k: nat,
                 before: seq<AllocatedBlock>, mine: seq<AllocatedBlock>)
    requires WellSized(bitmaps) && k > 0 && Distinct(before) && Distinct(mine)
    requires forall b :: b in before <==> b.group < k - 1 && b.group != exclude && IsAvail(bitmaps, held, b)
    requires forall b :: b in mine <==> k - 1 != exclude && b.group == k - 1 && IsAvail(bitmaps, held, b)
    ensures Distinct(before + mine)
    ensures forall b :: b in before + mine <==> b.group < k && b.group != exclude && IsAvail(bitmaps, held, b)
  {
    DistinctConcat(before, mine);
    assert forall b :: b in before + mine <==> b in before || b in mine;
  }

  lemma OthersSkip(bitmaps: Bitmaps, held: Held, g: nat)
    requires WellSized(bitmaps)
    ensures OthersList(bitmaps, held, g, g + 1) == OthersList(bitmaps, held, g, g)
  {
  }

  lemma {:induction false} OthersFrame(bitmaps: Bitmaps, held: Held, held': Held, exclude: int, k: nat)
    requires WellSized(bitmaps)
    requires forall g: nat, i: nat :: g != exclude && i < BLOCKS_PER_GROUP ==>
                                      (BlockAt(g, i) in held <==> BlockAt(g, i) in held')
    ensures OthersList(bitmaps, held, exclude, k) == OthersList(bitmaps, held', exclude, k)
  {
    if k > 0 {
      OthersFrame(bitmaps, held, held', exclude, k - 1);
      if k - 1 != exclude {
        GroupFrame(bitmaps, held, held', k - 1);
      }
    }
  }

  lemma {:induction false} OthersPrefix(bitmaps: Bitmaps, held: Held, exclude: int, j: nat, k: nat)
    requires WellSized(bitmaps) && j <= k
    ensures OthersList(bitmaps, held, exclude, j) <= OthersList(bitmaps, held, exclude, k)
  {
    if j < k {
      OthersPrefix(bitmaps, held, exclude, j, k - 1);
    }
  }

  /** The blocks a request can be served from. */
  function AvailSet(bitmaps: Bitmaps, held: Held): set<AllocatedBlock>
    requires WellSized(bitmaps)
  {
    set g: nat, i: nat | g < |bitmaps| && i < BLOCKS_PER_GROUP && Avail(bitmaps, held, g, i) :: BlockAt(g, i)
  }

  lemma AvailSetMembers(bitmaps: Bitmaps, held: Held)
    requires WellSized(bitmaps)
    ensures forall b :: b in AvailSet(bitmaps, held) <==> IsAvail(bitmaps, held, b)
  {
    forall b | IsAvail(bitmaps, held, b) ensures b in AvailSet(bitmaps, held) {
      assert b == BlockAt(b.group, b.relativeIdx);
    }
  }

  /** The search order lists every available block once and nothing else. */
  lemma SearchOrderExact(bitmaps: Bitmaps, held: Held, g: nat)
    requires WellSized(bitmaps) && g < |bitmaps|
    ensures Distinct(SearchOrder(bitmaps, held, g))
    ensures ToSet(SearchOrder(bitmaps, held, g)) == AvailSet(bitmaps, held)
    ensures |SearchOrder(bitmaps, held, g)| == |AvailSet(bitmaps, held)|
  {
    var mine, others := GroupList(bitmaps, held, g), OthersList(bitmaps, held, g, |bitmaps|);
    GroupMembers(bitmaps, held, g);
    OthersMembers(bitmaps, held, g, |bitmaps|);
    DistinctConcat(mine, others);
    AvailSetMembers(bitmaps, held);
    DistinctSize(mine + others);
  }

  /** A request that prefers group `g` looks at `a` before `b`: its own group first, the
      others in order, and each group from its lowest bit. */
  predicate LookedAtBefore(g: nat, a: AllocatedBlock, b: AllocatedBlock) {
    if a.group == b.group then a.relativeIdx < b.relativeIdx
    else a.group == g || (b.group != g && a.group < b.group)
  }

  ghost predicate InSearchOrder(g: nat, s: seq<AllocatedBlock>) {
    forall i, j :: 0 <= i < j < |s| ==> LookedAtBefore(g, s[i], s[j])
  }

  lemma OrderConcat(g: nat, a: seq<AllocatedBlock>, b: seq<AllocatedBlock>)
    requires InSearchOrder(g, a) && InSearchOrder(g, b)
    requires forall x, y :: x in a && y in b ==> LookedAtBefore(g, x, y)
    ensures InSearchOrder(g, a + b)
  {
    var s := a + b;
    forall i, j | 0 <= i < j < |s| ensures LookedAtBefore(g, s[i], s[j]) {
      if i < |a| <= j {
        assert s[i] in a && s[j] in b;
      }
    }
  }

  lemma {:induction false} AvailListOrdered(bitmaps: Bitmaps, held: Held, g: nat, h: nat, k: nat)
    requires WellSized(bitmaps)
    ensures InSearchOrder(g, AvailList(bitmaps, held, h, k))
  {
    if k > 0 {
      AvailListOrdered(bitmaps, held, g, h, k - 1);
      AvailListMembers(bitmaps, held, h, k - 1);
    }
  }

  lemma GroupListOrdered(bitmaps: Bitmaps, held: Held, g: nat, h: nat)
    requires WellSized(bitmaps)
    ensures InSearchOrder(g, GroupList(bitmaps, held, h))
    ensures forall b :: b in GroupList(bitmaps, held, h) ==> b.group == h
  {
    if h < |bitmaps| {
      AvailListOrdered(bitmaps, held, g, h, |bitmaps[h]|);
      AvailListMembers(bitmaps, held, h, |bitmaps[h]|);
    }
  }

  /** A list of blocks of groups below `k` other than `g`, in order. */
  ghost predicate OrderedBelow(g: nat, k: nat, s: seq<AllocatedBlock>) {
    InSearchOrder(g, s) && forall b :: b in s ==> b.group != g && b.group < k
  }

  lemma OrderedStep(g: nat, k: nat, front: seq<AllocatedBlock>, part: seq<AllocatedBlock>)
    requires OrderedBelow(g, k, front) && InSearchOrder(g, part)
    requires forall b :: b in part ==> b.group == k != g
    ensures OrderedBelow(g, k + 1, front + part)
  {
    OrderConcat(g, front, part);
  }

  lemma PartOrdered(bitmaps: Bitmaps, held: Held, g: nat, k: nat) returns (part: seq<AllocatedBlock>)
    requires WellSized(bitmaps) && k > 0
    ensures OthersList(bitmaps, held, g, k) == OthersList(bitmaps, held, g, k - 1) + part
    ensures InSearchOrder(g, part) && forall b :: b in part ==> b.group == k - 1 != g
  {
    if k - 1 == g {
      part := [];
    } else {
      part := GroupList(bitmaps, held, k - 1);
      GroupListOrdered(bitmaps, held, g, k - 1);
    }
  }

  lemma {:induction false} OthersListOrdered(bitmaps: Bitmaps, held: Held, g: nat, k: nat)
    requires WellSized(bitmaps)
    ensures OrderedBelow(g, k, OthersList(bitmaps, held, g, k))
  {
    if k > 0 {
      OthersListOrdered(bitmaps, held, g, k - 1);
      var part := PartOrdered(bitmaps, held, g, k);
      OrderedStep(g, k - 1, OthersList(bitmaps, held, g, k - 1), part);
    }
  }

  /** The search order is the one in which the blocks are looked at. */
  lemma SearchOrdered(bitmaps: Bitmaps, held: Held, g: nat)
    requires WellSized(bitmaps)
    ensures InSearchOrder(g, SearchOrder(bitmaps, held, g))
  {
    GroupListOrdered(bitmaps, held, g, g);
    OthersListOrdered(bitmaps, held, g, |bitmaps|);
    OrderConcat(g, GroupList(bitmaps, held, g), OthersList(bitmaps, held, g, |bitmaps|));
  }

  /** There is only one list of the same blocks in that order. */
  lemma {:induction false} OrderUnique(g: nat, s: seq<AllocatedBlock>, t: seq<AllocatedBlock>)
    requires InSearchOrder(g, s) && InSearchOrder(g, t) && ToSet(s) == ToSet(t)
    ensures s == t
  {
    assert s != [] ==> s[0] in ToSet(s);
    assert t != [] ==> t[0] in ToSet(t);
    if s != [] {
      SameFirst(g, s, t);
      SameTails(g, s, t);
      OrderUnique(g, s[1..], t[1..]);
      assert s == [s[0]] + s[1..] && t == [t[0]] + t[1..];
    }
  }

  lemma FirstBefore(g: nat, s: seq<AllocatedBlock>, b: AllocatedBlock)
    requires InSearchOrder(g, s) && b in s
    ensures b == s[0] || LookedAtBefore(g, s[0], b)
  {
    var i :| 0 <= i < |s| && s[i] == b;
  }

  lemma SameFirst(g: nat, s: seq<AllocatedBlock>, t: seq<AllocatedBlock>)
    requires InSearchOrder(g, s) && InSearchOrder(g, t) && s != [] && t != [] && s[0] in t && t[0] in s
    ensures s[0] == t[0]
  {
    FirstBefore(g, s, t[0]);
    FirstBefore(g, t, s[0]);
  }

  lemma SameTails(g: nat, s: seq<AllocatedBlock>, t: seq<AllocatedBlock>)
    requires InSearchOrder(g, s) && InSearchOrder(g, t) && ToSet(s) == ToSet(t) && s != [] && t != [] && s[0] == t[0]
    ensures InSearchOrder(g, s[1..]) && InSearchOrder(g, t[1..]) && ToSet(s[1..]) == ToSet(t[1..])
  {
    TailSet(g, s);
    TailSet(g, t);
  }

  lemma TailSet(g: nat, s: seq<AllocatedBlock>)
    requires InSearchOrder(g, s) && s != []
    ensures InSearchOrder(g, s[1..]) && ToSet(s[1..]) == ToSet(s) - {s[0]}
  {
    forall i, j | 0 <= i < j < |s[1..]| ensures LookedAtBefore(g, s[1..][i], s[1..][j]) {
      assert LookedAtBefore(g, s[i + 1], s[j + 1]);
    }
    forall b | b in s[1..] ensures b != s[0] {
      var i :| 0 <= i < |s[1..]| && s[1..][i] == b;
      assert LookedAtBefore(g, s[0], s[i + 1]);
    }
    assert s == [s[0]] + s[1..];
  }

  /** Taking the first block leaves the others in their order. */
  lemma FirstTaken(bitmaps: Bitmaps, held: Held, g: nat)
    requires WellSized(bitmaps) && g < |bitmaps| && SearchOrder(bitmaps, held, g) != []
    ensures var order := SearchOrder(bitmaps, held, g);
            SearchOrder(bitmaps, held + {order[0]}, g) == order[1..]
  {
    var order := SearchOrder(bitmaps, held, g);
    var held' := held + {order[0]};
    SearchOrdered(bitmaps, held, g);
    SearchOrdered(bitmaps, held', g);
    SearchOrderExact(bitmaps, held, g);
    SearchOrderExact(bitmaps, held', g);
    TailSet(g, order);
    AvailAfter(bitmaps, held, {order[0]});
    OrderUnique(g, SearchOrder(bitmaps, held', g), order[1..]);
  }

  /** A request for one block takes the first, and no other block with its number is left. */
  lemma OneTaken(bitmaps: Bitmaps, held: Held, g: nat, value: seq<AllocatedBlock>, held': Held)
    requires WellSized(bitmaps) && g < |bitmaps| && |value| == 1 && value <= SearchOrder(bitmaps, held, g)
    requires held' == held + ToSet(value)
    ensures SearchOrder(bitmaps, held, g) == value + SearchOrder(bitmaps, held', g)
    ensures value[0] in AvailSet(bitmaps, held)
    ensures forall c :: c in AvailSet(bitmaps, held') ==> c.globalIdx != value[0].globalIdx
  {
    var order, b := SearchOrder(bitmaps, held, g), value[0];
    assert b == order[0] && ToSet(value) == {b} && order == [b] + order[1..];
    FirstTaken(bitmaps, held, g);
    SearchOrderExact(bitmaps, held, g);
    assert b in ToSet(order);
    AvailSetMembers(bitmaps, held);
    AvailSetMembers(bitmaps, held');
    forall c | c in AvailSet(bitmaps, held') ensures c.globalIdx != b.globalIdx {
      AddressesStrictlyIncrease(b.group, b.relativeIdx, c.group, c.relativeIdx);
    }
  }

  lemma NoneLeft(bitmaps: Bitmaps, held: Held, g: nat)
    requires WellSized(bitmaps) && g < |bitmaps|
    ensures |AvailSet(bitmaps, held)| == |SearchOrder(bitmaps, held, g)|
    ensures AvailSet(bitmaps, held) == {} ==> SearchOrder(bitmaps, held, g) == []
  {
    SearchOrderExact(bitmaps, held, g);
  }

  lemma {:induction false} DistinctSize(s: seq<AllocatedBlock>)
    requires Distinct(s)
    ensures |ToSet(s)| == |s|
  {
    if s != [] {
      var t, last := s[..|s| - 1], s[|s| - 1];
      DistinctSize(t);
      assert s == t + [last];
      assert ToSet(s) == ToSet(t) + {last};
      assert last !in t;
    }
  }

  /** The numbers of available blocks name clear bits. */
  lemma NumbersClear(bitmaps: Bitmaps, held: Held, blocks: seq<AllocatedBlock>)
    requires WellSized(bitmaps) && ToSet(blocks) <= AvailSet(bitmaps, held)
    ensures forall b :: b in blocks ==> NamesClearBit(bitmaps, b)
  {
    AvailSetMembers(bitmaps, held);
    forall b | b in blocks ensures NamesClearBit(bitmaps, b) {
      assert b in ToSet(blocks);
      NumberIs(b.group, b.relativeIdx);
    }
  }

  lemma ToSetConcat(s: seq<AllocatedBlock>, t: seq<AllocatedBlock>)
    ensures ToSet(s + t) == ToSet(s) + ToSet(t)
  {
  }

  lemma AvailAfter(bitmaps: Bitmaps, held: Held, taken: Held)
    requires WellSized(bitmaps)
    ensures AvailSet(bitmaps, held + taken) == AvailSet(bitmaps, held) - taken
  {
    AvailSetMembers(bitmaps, held);
    AvailSetMembers(bitmaps, held + taken);
  }

  /** One bit of the scan of group `g`. */
  lemma ScanStep(bitmaps: Bitmaps, held: Held, g: nat, idx: nat)
    requires WellSized(bitmaps) && g < |bitmaps| && idx < BLOCKS_PER_GROUP
    ensures var taken := AvailList(bitmaps, held, g, idx);
            && BlockAt(g, idx) !in taken
            && AvailList(bitmaps, held, g, idx + 1) ==
               if bitmaps[g][idx] || BlockAt(g, idx) in held then taken else taken + [BlockAt(g, idx)]
  {
    AvailListMembers(bitmaps, held, g, idx);
  }

  /** What the scan of group `g` has taken when it stops before bit `idx`. */
  lemma ScanStop(bitmaps: Bitmaps, held: Held, g: nat, idx: nat, num: nat)
    requires WellSized(bitmaps) && idx <= BLOCKS_PER_GROUP && g < |bitmaps|
    ensures var taken := AvailList(bitmaps, held, g, idx);
            |taken| == num || (|taken| < num && idx == BLOCKS_PER_GROUP) ==>
              taken == Take(GroupList(bitmaps, held, g), num)
  {
    AvailListPrefix(bitmaps, held, g, idx, |bitmaps[g]|);
  }

  /** Blocks already taken from earlier groups do not disturb group `g`. */
  lemma GroupIsolated(bitmaps: Bitmaps, held: Held, exclude: int, g: nat, num: nat)
    requires WellSized(bitmaps)
    ensures GroupList(bitmaps, held + ToSet(Take(OthersList(bitmaps, held, exclude, g), num)), g) ==
            GroupList(bitmaps, held, g)
  {
    var taken := Take(OthersList(bitmaps, held, exclude, g), num);
    OthersMembers(bitmaps, held, exclude, g);
    assert forall b :: b in taken ==> b in OthersList(bitmaps, held, exclude, g);
    GroupFrame(bitmaps, held, held + ToSet(taken), g);
  }

  lemma TakeIs(order: seq<AllocatedBlock>, num: nat, blocks: seq<AllocatedBlock>)
    requires blocks == Take(order, num)
    ensures |blocks| < num <==> |order| < num
    ensures |blocks| <= num && (|order| >= num ==> blocks == order[..num])
  {
  }

  /** One group of a request over several groups. */
  lemma GroupAdded(bitmaps: Bitmaps, held: Held, exclude: int, g: nat, num: nat,
                   taken: seq<AllocatedBlock>, before: Held, more: seq<AllocatedBlock>)
    requires WellSized(bitmaps) && g != exclude && taken == Take(OthersList(bitmaps, held, exclude, g), num)
    requires before == held + ToSet(taken) && more == Take(GroupList(bitmaps, before, g), num - |taken|)
    ensures taken + more == Take(OthersList(bitmaps, held, exclude, g + 1), num)
    ensures before + ToSet(more) == held + ToSet(taken + more)
  {
    GroupIsolated(bitmaps, held, exclude, g, num);
    var front, part := OthersList(bitmaps, held, exclude, g), GroupList(bitmaps, held, g);
    assert OthersList(bitmaps, held, exclude, g + 1) == front + part;
    TakeTwo(front, part, num);
    AddedTwice(held, taken, more);
  }

  lemma TakeTwo(s: seq<AllocatedBlock>, t: seq<AllocatedBlock>, num: nat)
    ensures Take(s, num) + Take(t, num - |Take(s, num)|) == Take(s + t, num)
  {
  }

  lemma AddedTwice(held: Held, taken: seq<AllocatedBlock>, more: seq<AllocatedBlock>)
    ensures held + ToSet(taken) + ToSet(more) == held + ToSet(taken + more)
  {
    ToSetConcat(taken, more);
  }

  lemma GroupStop(bitmaps: Bitmaps, held: Held, exclude: int, g: nat, num: nat)
    requires WellSized(bitmaps) && g <= |bitmaps|
    requires g == |bitmaps| || num <= |OthersList(bitmaps, held, exclude, g)|
    ensures Take(OthersList(bitmaps, held, exclude, g), num) ==
            Take(OthersList(bitmaps, held, exclude, |bitmaps|), num)
  {
    OthersPrefix(bitmaps, held, exclude, g, |bitmaps|);
  }

  /** What a request takes from the search order, and what is then left. */
  lemma RequestEffect(bitmaps: Bitmaps, held: Held, g: nat, num: nat)
    requires WellSized(bitmaps) && g < |bitmaps|
    ensures var order := SearchOrder(bitmaps, held, g);
            var taken := Take(order, num);
            && Distinct(taken) && taken <= order
            && ToSet(taken) <= AvailSet(bitmaps, held)
            && (|taken| == num <==> |AvailSet(bitmaps, held)| >= num)
            && (|taken| != num ==> ToSet(taken) == AvailSet(bitmaps, held))
            && AvailSet(bitmaps, held + ToSet(taken)) == AvailSet(bitmaps, held) - ToSet(taken)
  {
    var order := SearchOrder(bitmaps, held, g);
    SearchOrderExact(bitmaps, held, g);
    AvailAfter(bitmaps, held, ToSet(Take(order, num)));
    assert forall b :: b in Take(order, num) ==> b in order;
  }

  /** How many blocks a request takes before the first outside of group 0. */
  function InsideZero(bitmaps: Bitmaps, held: Held, g: nat): nat
    requires WellSized(bitmaps)
  {
    if g > 0 && GroupList(bitmaps, held, g) != [] then 0 else |GroupList(bitmaps, held, 0)|
  }

  lemma ZeroPrefix(bitmaps: Bitmaps, held: Held, g: nat)
    requires WellSized(bitmaps) && g < |bitmaps| && (g > 0 ==> GroupList(bitmaps, held, g) == [])
    ensures GroupList(bitmaps, held, 0) <= SearchOrder(bitmaps, held, g)
  {
    if g > 0 {
      assert OthersList(bitmaps, held, g, 1) == GroupList(bitmaps, held, 0);
      OthersPrefix(bitmaps, held, g, 1, |bitmaps|);
    }
  }

  lemma NoMoreZeros(order: seq<AllocatedBlock>, zero: seq<AllocatedBlock>)
    requires zero <= order && Distinct(order) && forall b :: b in order && b.group == 0 ==> b in zero
    ensures |zero| < |order| ==> order[|zero|].group > 0
  {
    if |zero| < |order| {
      assert forall i :: 0 <= i < |zero| ==> zero[i] == order[i];
      assert order[|zero|] !in zero;
    }
  }

  lemma ZeroFirst(bitmaps: Bitmaps, held: Held, g: nat, order: seq<AllocatedBlock>, n: nat)
    requires WellSized(bitmaps) && g < |bitmaps|
    requires order == SearchOrder(bitmaps, held, g) && n == InsideZero(bitmaps, held, g)
    ensures n <= |order| && (forall i :: 0 <= i < n ==> order[i].group == 0) && (n < |order| ==> order[n].group > 0)
  {
    if g > 0 && GroupList(bitmaps, held, g) != [] {
      GroupMembers(bitmaps, held, g);
      assert order[0] == GroupList(bitmaps, held, g)[0];
    } else {
      var zero := GroupBlocks(bitmaps, held, 0);
      ZeroPrefix(bitmaps, held, g);
      SearchOrderExact(bitmaps, held, g);
      assert forall b :: b in order ==> b in ToSet(order);
      AvailSetMembers(bitmaps, held);
      NoMoreZeros(order, zero);
      assert forall i :: 0 <= i < n ==> order[i] == zero[i];
    }
  }

  /** A request leaves a block outside of group 0 pending, at which the next write-back
      panics, exactly when it takes more than group 0 is asked for. */
  lemma LeavesZeroIff(bitmaps: Bitmaps, held: Held, g: nat, num: nat)
    requires WellSized(bitmaps) && g < |bitmaps|
    ensures var order, n := SearchOrder(bitmaps, held, g), InsideZero(bitmaps, held, g);
            (exists b :: b in Take(order, num) && b.group > 0) <==> num > n && |order| > n
  {
    var order, n := SearchOrder(bitmaps, held, g), InsideZero(bitmaps, held, g);
    ZeroFirst(bitmaps, held, g, order, n);
    if num > n && |order| > n {
      assert Take(order, num)[n] == order[n];
    }
  }

  /** The fallback after group `g` itself did not suffice. */
  lemma FallbackStep(bitmaps: Bitmaps, held: Held, g: nat, num: nat)
    requires WellSized(bitmaps) && g < |bitmaps|
    ensures var mine := Take(GroupList(bitmaps, held, g), num);
            var more := Take(OthersList(bitmaps, held + ToSet(mine), g, |bitmaps|), num - |mine|);
            mine + more == Take(SearchOrder(bitmaps, held, g), num)
  {
    var mine := Take(GroupList(bitmaps, held, g), num);
    GroupMembers(bitmaps, held, g);
    assert forall b :: b in mine ==> b in GroupList(bitmaps, held, g);
    OthersFrame(bitmaps, held, held + ToSet(mine), g, |bitmaps|);
  }

  // ----- the pending set, searched by address -----

  /** Is a record with this address in the set? The set's order looks at nothing else. */
  predicate ContainsAddr(held: Held, addr: int) {
    exists b :: b in held && b.addr == addr
  }

  /** Every pending record is one the allocator built, for a block whose bit is
      still clear. */
  predicate PendingOk(bitmaps: Bitmaps, held: Held)
    requires WellSized(bitmaps)
  {
    forall b :: b in held ==>
      && b == BlockAt(b.group, b.relativeIdx)
      && b.group < |bitmaps| && b.relativeIdx < BLOCKS_PER_GROUP
      && !bitmaps[b.group][b.relativeIdx]
  }

  /** Looking a block up by its address is looking the block up. */
  lemma FoundByAddress(bitmaps: Bitmaps, held: Held, g: nat, i: nat)
    requires WellSized(bitmaps) && PendingOk(bitmaps, held) && i < BLOCKS_PER_GROUP
    ensures ContainsAddr(held, BlockAt(g, i).addr) <==> BlockAt(g, i) in held
  {
    if ContainsAddr(held, BlockAt(g, i).addr) {
      var b :| b in held && b.addr == BlockAt(g, i).addr;
      AddressesStrictlyIncrease(g, i, b.group, b.relativeIdx);
    }
  }

  lemma PendingStep(bitmaps: Bitmaps, held: Held, g: nat, i: nat)
    requires WellSized(bitmaps) && PendingOk(bitmaps, held)
    requires g < |bitmaps| && i < BLOCKS_PER_GROUP && !bitmaps[g][i]
    ensures ContainsAddr(held, BlockAt(g, i).addr) <==> BlockAt(g, i) in held
    ensures PendingOk(bitmaps, held + {BlockAt(g, i)})
  {
    FoundByAddress(bitmaps, held, g, i);
  }

  // ----- bit iterator -----

  class BitIterator {
    const num: seq<bv8>
    var idx: nat
    var bitIdx: nat

    constructor (num: seq<bv8>)
      ensures this.num == num && Valid() && Position() == 0
    {
      this.num := num;
      idx, bitIdx := 0, 0;
    }

    predicate Valid()
      reads this
    {
      bitIdx < 8 && idx <= |num| && (idx == |num| ==> bitIdx == 0)
    }

    /** Number of bits already produced. */
    function Position(): nat
      reads this
    {
      8 * idx + bitIdx
    }

    method Next() returns (r: Option<bool>)
      requires Valid()
      modifies this
      ensures Valid()
      ensures old(Position()) < 8 * |num| ==> r == Some(Row(num)[old(Position())]) && Position() == old(Position()) + 1
      ensures old(Position()) == 8 * |num| ==> r == None && Position() == old(Position())
    {
      if idx >= |num| {
        return None;
      }
      var bit := Test(num[idx], bitIdx);
      bitIdx := bitIdx + 1;
      if bitIdx >= 8 {
        bitIdx := 0;
        idx := idx + 1;
      }
      return Some(bit);
    }
  }

  // ----- the allocator -----

  type Disk = map<int, seq<bv8>>

  /** One bitmap per group, at distinct non-negative addresses. */
  predicate DiskOk(lbas: seq<int>, disk: Disk) {
    && (forall g :: 0 <= g < |lbas| ==> lbas[g] >= 0 && lbas[g] in disk && |disk[lbas[g]]| == BLOCK_SIZE)
    && (forall g, h :: 0 <= g < h < |lbas| ==> lbas[g] != lbas[h])
  }

  function MapsOf(lbas: seq<int>, disk: Disk): (bitmaps: Bitmaps)
    requires DiskOk(lbas, disk)
    ensures |bitmaps| == |lbas| && WellSized(bitmaps)
    ensures forall g :: 0 <= g < |lbas| ==> bitmaps[g] == Row(disk[lbas[g]])
  {
    seq(|lbas|, g requires 0 <= g < |lbas| => Row(disk[lbas[g]]))
  }

  /** The bit positions of a set of blocks, within their groups. */
  function BitsOf(held: Held): set<nat> {
    set b | b in held :: b.relativeIdx
  }

  lemma BitsOfStep(held: Held, b: AllocatedBlock)
    ensures BitsOf(held + {b}) == BitsOf(held) + {b.relativeIdx}
  {
  }

  lemma Lowest(held: Held)
    requires held != {}
    ensures exists b :: b in held && forall c :: c in held ==> b.addr <= c.addr
  {
    var b :| b in held;
    if held != {b} {
      Lowest(held - {b});
      var d :| d in held - {b} && forall c :: c in held - {b} ==> d.addr <= c.addr;
      var m := if b.addr <= d.addr then b else d;
      assert m in held && forall c :: c in held ==> m.addr <= c.addr;
    }
  }

  lemma BitsOfSize(held: Held)
    requires forall b :: b in held ==> b.group == 0 && b == BlockAt(b.group, b.relativeIdx)
    ensures |BitsOf(held)| == |held|
  {
    if held != {} {
      var b :| b in held;
      BitsOfSize(held - {b});
      BitsOfStep(held - {b}, b);
      assert held - {b} + {b} == held;
    }
  }

  /** Setting the bits of the pending blocks of group 0 turns "pending" into "in
      use" and changes nothing else. */
  lemma FlushEffect(lbas: seq<int>, disk: Disk, held: Held, buf: seq<bv8>)
    requires DiskOk(lbas, disk) && PendingOk(MapsOf(lbas, disk), held)
    requires |lbas| > 0 && |buf| == BLOCK_SIZE && forall b :: b in held ==> b.group == 0
    requires ClearBits(buf) == ClearBits(disk[lbas[0]]) - BitsOf(held)
    ensures DiskOk(lbas, disk[lbas[0] := buf])
    ensures AvailSet(MapsOf(lbas, disk[lbas[0] := buf]), {}) == AvailSet(MapsOf(lbas, disk), held)
    ensures |ClearBits(buf)| == |ClearBits(disk[lbas[0]])| - |held|
  {
    var maps, maps' := MapsOf(lbas, disk), MapsOf(lbas, disk[lbas[0] := buf]);
    forall g: nat, i: nat ensures Avail(maps', {}, g, i) <==> Avail(maps, held, g, i) {
      if g == 0 && i < BLOCKS_PER_GROUP {
        assert maps'[0][i] <==> i !in ClearBits(buf);
        assert maps[0][i] <==> i !in ClearBits(disk[lbas[0]]);
        assert i in BitsOf(held) <==> BlockAt(0, i) in held;
      }
    }
    AvailSetMembers(maps, held);
    AvailSetMembers(maps', {});
    BitsOfSize(held);
    assert BitsOf(held) <= ClearBits(disk[lbas[0]]);
  }

  /** Set the bits that the blocks' global numbers select, in a buffer long enough. */
  function MarkAll(buf: seq<bv8>, blocks: seq<AllocatedBlock>): (r: seq<bv8>)
    ensures |r| == |buf|
  {
    if blocks == [] then buf else
      var rest, idx := MarkAll(buf, blocks[..|blocks| - 1]), blocks[|blocks| - 1].globalIdx;
      if idx < 8 * |buf| then rest[idx / 8 := Set(rest[idx / 8], idx % 8)] else rest
  }

  lemma {:induction false} MarkAllClears(buf: seq<bv8>, blocks: seq<AllocatedBlock>)
    requires |buf| == BLOCK_SIZE
    requires forall b :: b in blocks ==> b.relativeIdx < BLOCKS_PER_GROUP && b == BlockAt(0, b.relativeIdx)
    ensures ClearBits(MarkAll(buf, blocks)) == ClearBits(buf) - BitsOf(ToSet(blocks))
  {
    if blocks == [] {
      assert ToSet(blocks) == {};
    } else {
      var t, b := blocks[..|blocks| - 1], blocks[|blocks| - 1];
      MarkAllClears(buf, t);
      SetBitRemoves(MarkAll(buf, t), b.globalIdx);
      assert blocks == t + [b] && b in blocks;
      ToSetConcat(t, [b]);
      assert ToSet([b]) == {b};
      BitsOfStep(ToSet(t), b);
    }
  }

  /** Each block lies in some group, and its global number selects a byte inside
      a bitmap buffer only if that is group 0, whose addresses are the lowest. */
  predicate Placed(held: Held, groups: nat) {
    forall b :: b in held ==>
      b.group < groups && (b.globalIdx / 8 < BLOCK_SIZE <==> b.group == 0) && (b.addr < GroupLba(1) <==> b.group == 0)
  }

  /** The blocks of group 0. */
  function InZero(held: Held): Held {
    set b | b in held && b.group == 0
  }

  /** Those visited so far are all of group 0 when the lowest of the rest is not. */
  lemma ZeroVisited(held: Held, groups: nat, rest: Held, order: seq<AllocatedBlock>, b: AllocatedBlock)
    requires Placed(held, groups) && rest <= held && held - rest == ToSet(order) && b in rest && b.group > 0
    requires forall c :: c in order ==> c.group == 0
    requires forall c :: c in rest ==> b.addr <= c.addr
    ensures ToSet(order) == InZero(held)
  {
    forall c | c in held ensures c in ToSet(order) <==> c in InZero(held) {
      if c in rest {
        assert b.addr <= c.addr;
      }
    }
  }

  /** The bitmap of group 0 with the bits of its pending blocks set, if there are any. */
  function ZeroWritten(lbas: seq<int>, disk: Disk, order: seq<AllocatedBlock>): Disk
    requires DiskOk(lbas, disk) && |lbas| > 0
  {
    if order == [] then disk else disk[lbas[0] := MarkAll(disk[lbas[0]], order)]
  }

  /** Only the bitmap of group 0 has changed: it has these bits set as well. */
  ghost predicate OnlySet(lbas: seq<int>, disk: Disk, disk': Disk, bits: set<nat>)
    requires DiskOk(lbas, disk)
  {
    && |lbas| > 0 && disk'.Keys == disk.Keys
    && (forall lba :: lba in disk && lba != lbas[0] ==> disk'[lba] == disk[lba])
    && ClearBits(disk'[lbas[0]]) == ClearBits(disk[lbas[0]]) - bits
  }

  /** The bits set on the disk are those of the pending blocks of group 0. */
  lemma ZeroWrittenIs(lbas: seq<int>, disk: Disk, held: Held, order: seq<AllocatedBlock>)
    requires DiskOk(lbas, disk) && PendingOk(MapsOf(lbas, disk), held) && |lbas| > 0 && ToSet(order) == InZero(held)
    ensures OnlySet(lbas, disk, ZeroWritten(lbas, disk, order), BitsOf(InZero(held)))
  {
    assert forall b :: b in order ==> b in ToSet(order);
    MarkAllClears(disk[lbas[0]], order);
  }

  lemma PendingPlaced(bitmaps: Bitmaps, held: Held)
    requires WellSized(bitmaps) && PendingOk(bitmaps, held)
    ensures Placed(held, |bitmaps|)
  {
  }

  /** Descriptors count the clear bits of their bitmaps. */
  ghost predicate CountsOk(lbas: seq<int>, disk: Disk, counts: seq<nat>)
    requires DiskOk(lbas, disk)
  {
    |counts| == |lbas| && forall g :: 0 <= g < |lbas| ==> counts[g] == |ClearBits(disk[lbas[g]])|
  }

  predicate Fits16(counts: seq<nat>) {
    forall g :: 0 <= g < |counts| ==> counts[g] < 65536
  }

  /** Subtraction of 16-bit numbers, wrapping around below zero. */
  function Less16(a: nat, n: nat): nat {
    (a + 65536 - n % 65536) % 65536
  }

  /** The effect of writing back the buffer of group 0 with all pending bits set. */
  lemma WriteBackEffect(lbas: seq<int>, disk: Disk, held: Held, order: seq<AllocatedBlock>, counts: seq<nat>)
    requires DiskOk(lbas, disk) && PendingOk(MapsOf(lbas, disk), held)
    requires |lbas| > 0 && |counts| == |lbas| && forall b :: b in held ==> b.group == 0
    requires Distinct(order) && ToSet(order) == held
    ensures var disk' := disk[lbas[0] := MarkAll(disk[lbas[0]], order)];
            && DiskOk(lbas, disk')
            && AvailSet(MapsOf(lbas, disk'), {}) == AvailSet(MapsOf(lbas, disk), held)
            && OnlySet(lbas, disk, disk', BitsOf(held))
            && (CountsOk(lbas, disk, counts) && Fits16(counts) ==>
                  var counts' := counts[0 := Less16(counts[0], |order|)];
                  CountsOk(lbas, disk', counts') && Fits16(counts'))
  {
    var buf := MarkAll(disk[lbas[0]], order);
    assert forall b :: b in order ==> b in ToSet(order);
    MarkAllClears(disk[lbas[0]], order);
    DistinctSize(order);
    FlushEffect(lbas, disk, held, buf);
    BufferWritten(lbas, disk, buf, BitsOf(held));
    if CountsOk(lbas, disk, counts) && Fits16(counts) {
      CountsStep(lbas, disk, counts, buf, |order|);
    }
  }

  lemma BufferWritten(lbas: seq<int>, disk: Disk, buf: seq<bv8>, bits: set<nat>)
    requires DiskOk(lbas, disk) && |lbas| > 0 && ClearBits(buf) == ClearBits(disk[lbas[0]]) - bits
    ensures OnlySet(lbas, disk, disk[lbas[0] := buf], bits)
  {
  }

  lemma WrittenTwice(disk: Disk, buf: seq<bv8>)
    ensures disk[-1 := buf][-1 := buf] == disk[-1 := buf]
  {
  }

  /** A write outside of the disk proper reaches no bitmap. */
  lemma StrayWrite(lbas: seq<int>, disk: Disk, buf: seq<bv8>, counts: seq<nat>)
    requires DiskOk(lbas, disk)
    ensures var disk' := disk[-1 := buf];
            && DiskOk(lbas, disk') && MapsOf(lbas, disk') == MapsOf(lbas, disk)
            && (CountsOk(lbas, disk', counts) <==> CountsOk(lbas, disk, counts))
  {
  }

  lemma CountsStep(lbas: seq<int>, disk: Disk, counts: seq<nat>, buf: seq<bv8>, n: nat)
    requires DiskOk(lbas, disk) && CountsOk(lbas, disk, counts) && Fits16(counts)
    requires |lbas| > 0 && |buf| == BLOCK_SIZE && |ClearBits(buf)| == |ClearBits(disk[lbas[0]])| - n
    ensures DiskOk(lbas, disk[lbas[0] := buf])
    ensures CountsOk(lbas, disk[lbas[0] := buf], counts[0 := Less16(counts[0], n)])
    ensures Fits16(counts[0 := Less16(counts[0], n)])
  {
  }

  datatype FlushResult = Flushed | Panicked

  class BlockAllocator {
    /** Sector address of each group's block bitmap. */
    const bitmapLba: seq<int>
    /** Buffers on the device, by sector address relative to the partition. */
    var disk: Disk
    /** `bg_free_blocks_count` of each group descriptor (16 bits). */
    var freeCounts: seq<nat>
    /** Blocks handed out but not written back, ordered by address only. */
    var pending: Held

    constructor (bitmapLba: seq<int>, disk: Disk, freeCounts: seq<nat>)
      ensures this.bitmapLba == bitmapLba && this.disk == disk && this.freeCounts == freeCounts
      ensures pending == {}
    {
      this.bitmapLba := bitmapLba;
      this.disk := disk;
      this.freeCounts := freeCounts;
      pending := {};
    }

    /** The device holds one bitmap per group, at distinct non-negative
        addresses, and every pending record is one the allocator built for a
        block whose bit is still clear. */
    ghost predicate Valid()
      reads this
    {
      && |freeCounts| == |bitmapLba|
      && DiskOk(bitmapLba, disk)
      && PendingOk(Maps(), pending)
    }

    ghost function Maps(): (bitmaps: Bitmaps)
      requires DiskOk(bitmapLba, disk)
      reads this
    {
      MapsOf(bitmapLba, disk)
    }

    ghost function Available(): set<AllocatedBlock>
      requires Valid()
      reads this
    {
      AvailSet(Maps(), pending)
    }

    /** Bit `idx` is clear: take its block unless it is pending. */
    method TakeIfFree(g: nat, idx: nat, blocks: seq<AllocatedBlock>, remaining: nat,
                      ghost maps: Bitmaps, ghost held: Held)
      returns (blocks': seq<AllocatedBlock>, remaining': nat)
      requires Valid() && maps == Maps() && g < |bitmapLba| && idx < BLOCKS_PER_GROUP && !maps[g][idx]
      requires blocks == AvailList(maps, held, g, idx) && pending == held + ToSet(blocks) && remaining > 0
      modifies `pending
      ensures PendingOk(maps, pending)
      ensures blocks' == AvailList(maps, held, g, idx + 1) && pending == held + ToSet(blocks')
      ensures remaining' + |blocks'| == remaining + |blocks|
    {
      blocks', remaining' := blocks, remaining;
      ScanStep(maps, held, g, idx);
      PendingStep(maps, pending, g, idx);
      var block := BlockAt(g, idx);
      if !ContainsAddr(pending, block.addr) {
        remaining' := remaining - 1;
        pending := pending + {block};
        ToSetConcat(blocks, [block]);
        blocks' := blocks + [block];
      }
    }

    /** Scan one group's bitmap for up to `num` blocks. */
    method ScanGroup(g: nat, num: nat) returns (blocks: seq<AllocatedBlock>, remaining: nat)
      requires Valid() && g < |bitmapLba|
      modifies `pending
      ensures Valid()
      ensures blocks == Take(GroupList(Maps(), old(pending), g), num)
      ensures remaining == num - |blocks|
      ensures pending == old(pending) + ToSet(blocks)
    {
      blocks, remaining := [], num;
      var buf := disk[bitmapLba[g]];
      var it := new BitIterator(buf);
      var idx: nat := 0;
      ghost var maps, held := Maps(), pending;
      while true
        invariant it.Valid() && fresh(it) && it.num == buf && it.Position() == idx <= BLOCKS_PER_GROUP
        invariant blocks == AvailList(maps, held, g, idx)
        invariant |blocks| <= num && remaining == num - |blocks|
        invariant PendingOk(maps, pending) && pending == held + ToSet(blocks)
        decreases BLOCKS_PER_GROUP - idx
      {
        var bit := it.Next();
        if bit == None || remaining == 0 {
          break;
        }
        if bit == Some(false) {
          blocks, remaining := TakeIfFree(g, idx, blocks, remaining, maps, held);
        } else {
          ScanStep(maps, held, g, idx);
        }
        idx := idx + 1;
      }
      ScanStop(maps, held, g, idx, num);
    }

    /** The fallback loop before group `g`: what it has collected, out of `num`, and what
        is still wanted. */
    ghost predicate Collected(maps: Bitmaps, held: Held, exclude: int, g: nat, num: nat,
                              blocks: seq<AllocatedBlock>, remaining: nat)
      reads this
    {
      && Valid() && maps == Maps()
      && blocks == Take(OthersList(maps, held, exclude, g), num) && remaining == num - |blocks|
      && pending == held + ToSet(blocks)
    }

    /** One turn of the loop: add what group `g` has. */
    method GroupTurn(g: nat, ghost exclude: int, ghost num: nat, blocks: seq<AllocatedBlock>, remaining: nat,
                     ghost maps: Bitmaps, ghost held: Held)
      returns (blocks': seq<AllocatedBlock>, remaining': nat)
      requires g < |bitmapLba| && g != exclude && Collected(maps, held, exclude, g, num, blocks, remaining)
      modifies `pending
      ensures Collected(maps, held, exclude, g + 1, num, blocks', remaining')
    {
      ghost var before := pending;
      var more;
      more, remaining' := ScanGroup(g, remaining);
      assert more == Take(GroupList(maps, before, g), remaining);
      blocks' := blocks + more;
      GroupAdded(maps, held, exclude, g, num, blocks, before, more);
    }

    lemma StartCollected(exclude: int, num: nat, maps: Bitmaps, held: Held)
      requires Valid() && maps == Maps() && held == pending
      ensures Collected(maps, held, exclude, 0, num, [], num)
    {
    }

    lemma SkipTurn(g: nat, num: nat, blocks: seq<AllocatedBlock>, remaining: nat, maps: Bitmaps, held: Held)
      requires Collected(maps, held, g, g, num, blocks, remaining)
      ensures Collected(maps, held, g, g + 1, num, blocks, remaining)
    {
      OthersSkip(maps, held, g);
    }

    lemma AllCollected(exclude: int, g: nat, num: nat, blocks: seq<AllocatedBlock>, remaining: nat,
                       maps: Bitmaps, held: Held)
      requires g <= |bitmapLba| && Collected(maps, held, exclude, g, num, blocks, remaining)
      requires g == |bitmapLba| || remaining == 0
      ensures Collected(maps, held, exclude, |bitmapLba|, num, blocks, remaining)
    {
      GroupStop(maps, held, exclude, g, num);
    }

    /** Collect up to `num` blocks from every group except one. */
    method CollectOthers(exclude: int, num: nat, ghost maps: Bitmaps, ghost held: Held)
      returns (blocks: seq<AllocatedBlock>, remaining: nat)
      requires Valid() && maps == Maps() && held == pending
      modifies `pending
      ensures Collected(maps, held, exclude, |bitmapLba|, num, blocks, remaining)
    {
      blocks, remaining := [], num;
      StartCollected(exclude, num, maps, held);
      var g: nat := 0;
      while g < |bitmapLba|
        invariant g <= |bitmapLba| && Collected(maps, held, exclude, g, num, blocks, remaining)
      {
        if g != exclude {
          if remaining == 0 {
            break;
          }
          blocks, remaining := GroupTurn(g, exclude, num, blocks, remaining, maps, held);
        } else {
          SkipTurn(g, num, blocks, remaining, maps, held);
        }
        g := g + 1;
      }
      AllCollected(exclude, g, num, blocks, remaining, maps, held);
    }

    /** Serve a request from every group except one. */
    method AllocateNBlocks(exclude: int, num: nat) returns (r: Result<seq<AllocatedBlock>>)
      requires Valid()
      modifies `pending
      ensures Valid()
      ensures var order := OthersList(Maps(), old(pending), exclude, |bitmapLba|);
              && pending == old(pending) + ToSet(Take(order, num))
              && r == if |order| < num then NoSpaceLeft else Ok(order[..num])
    {
      var blocks, remaining := CollectOthers(exclude, num, Maps(), pending);
      TakeIs(OthersList(Maps(), old(pending), exclude, |bitmapLba|), num, blocks);
      return if remaining > 0 then NoSpaceLeft else Ok(blocks);
    }

    /** Serve a request, preferring group `g`. It succeeds exactly when enough
        blocks are available; a failing request keeps every available block. */
    method AllocateNBlocksInGroup(g: nat, num: nat) returns (r: Result<seq<AllocatedBlock>>)
      requires Valid() && g < |bitmapLba|
      modifies `pending
      ensures Valid()
      ensures r.Ok? <==> |old(Available())| >= num
      ensures r.Ok? ==> |r.value| == num && Distinct(r.value) && ToSet(r.value) <= old(Available())
      ensures r.Ok? ==> r.value <= SearchOrder(Maps(), old(pending), g)
      ensures r.Ok? ==> forall b :: b in r.value ==> NamesClearBit(Maps(), b)
      ensures pending == old(pending) + if r.Ok? then ToSet(r.value) else old(Available())
      ensures Available() == old(Available()) - if r.Ok? then ToSet(r.value) else old(Available())
    {
      ghost var maps, held := Maps(), pending;
      ghost var order := SearchOrder(maps, held, g);
      FallbackStep(maps, held, g, num);
      RequestEffect(maps, held, g, num);
      var blocks, left := ScanGroup(g, num);
      if left != 0 {
        var rest := AllocateNBlocks(g, left);
        if rest.NoSpaceLeft? {
          return NoSpaceLeft;
        }
        ToSetConcat(blocks, rest.value);
        blocks := blocks + rest.value;
      }
      assert blocks == Take(order, num);
      NumbersClear(maps, held, blocks);
      return Ok(blocks);
    }

    /** First half of the write-back: set the pending bits in bitmap buffers, one
        buffer at a time, in address order. Returns the last buffer, which is
        still to be written, and the number of blocks of its group. */
    method MarkPending(spare: seq<bv8>)
      returns (panicked: bool, curLba: int, buf: seq<bv8>, count: nat, ghost order: seq<AllocatedBlock>)
      requires DiskOk(bitmapLba, disk) && Placed(pending, |bitmapLba|)
      modifies `disk
      ensures panicked <==> exists b :: b in pending && b.group > 0
      ensures panicked ==>
                |bitmapLba| > 0 && ToSet(order) == InZero(pending) && disk == ZeroWritten(bitmapLba, old(disk), order)
      ensures !panicked ==> disk == old(disk) && Distinct(order) && ToSet(order) == pending && count == |order|
      ensures !panicked && order == [] ==> curLba == -1 && buf == spare
      ensures !panicked && order != [] ==>
                |bitmapLba| > 0 && curLba == bitmapLba[0] && buf == MarkAll(disk[bitmapLba[0]], order)
    {
      curLba, buf, count, panicked, order := -1, spare, 0, false, [];
      var perGroup: map<nat, nat> := map[];
      var todo := pending;
      while todo != {}
        invariant disk == old(disk)
        invariant todo <= pending && pending - todo == ToSet(order) && Distinct(order)
        invariant forall b :: b in order ==> b.group == 0
        invariant forall g :: g in perGroup <==> g == 0 && order != []
        invariant order == [] ==> curLba == -1 && buf == spare
        invariant order != [] ==>
                    && |bitmapLba| > 0 && curLba == bitmapLba[0] && buf == MarkAll(disk[bitmapLba[0]], order)
                    && perGroup[0] == |order|
      {
        Lowest(todo);
        var b :| b in todo && forall c :: c in todo ==> b.addr <= c.addr;
        ghost var rest := todo;
        todo := todo - {b};
        perGroup := perGroup[b.group := if b.group in perGroup then perGroup[b.group] + 1 else 1];
        var lba := bitmapLba[b.group];
        if curLba != lba {
          if curLba != -1 {
            disk := disk[curLba := buf];
          }
          buf := disk[lba];
          curLba := lba;
        }
        if b.globalIdx / 8 >= |buf| {
          panicked := true;
          assert b in pending && b.group > 0;
          ZeroVisited(pending, |bitmapLba|, rest, order, b);
          return;
        }
        buf := buf[b.globalIdx / 8 := Set(buf[b.globalIdx / 8], b.globalIdx % 8)];
        assert (order + [b])[..|order|] == order;
        ToSetConcat(order, [b]);
        order := order + [b];
      }
      assert pending - todo == pending;
      assert forall b :: b in pending ==> b in ToSet(order);
      count := if 0 in perGroup then perGroup[0] else 0;
    }

    /** Write the pending blocks back. The bit is indexed by the block's global
        number, so the call works only for blocks of group 0: any other block
        lies past the end of the buffer, and by then the bits of group 0 are on the
        disk while its blocks are still pending and its count is the old one. With
        nothing pending it overwrites the sector before the partition. */
    method WriteNewlyAllocatedBlocks(spare: seq<bv8>) returns (r: FlushResult)
      requires Valid()
      modifies `disk, `freeCounts, `pending
      ensures r.Panicked? <==> exists b :: b in old(pending) && b.group > 0
      ensures r.Panicked? ==> pending == old(pending) && freeCounts == old(freeCounts)
      ensures r.Panicked? ==> OnlySet(bitmapLba, old(disk), disk, BitsOf(InZero(pending)))
      ensures r.Flushed? ==> Valid() && pending == {} && Available() == old(Available())
      ensures r.Flushed? && old(pending) == {} ==> disk == old(disk)[-1 := spare] && freeCounts == old(freeCounts)
      ensures r.Flushed? && old(pending) != {} ==> OnlySet(bitmapLba, old(disk), disk, BitsOf(old(pending)))
      ensures r.Flushed? && old(CountsOk(bitmapLba, disk, freeCounts)) && old(Fits16(freeCounts)) ==>
                CountsOk(bitmapLba, disk, freeCounts) && Fits16(freeCounts)
    {
      PendingPlaced(Maps(), pending);
      var panicked, curLba, buf, count, order := MarkPending(spare);
      if panicked {
        ZeroWrittenIs(bitmapLba, old(disk), pending, order);
        return Panicked;
      }
      disk := disk[curLba := buf];
      if pending == {} {
        // The second write, of the descriptor buffer, goes to the same place.
        disk := disk[-1 := buf];
        StrayWrite(bitmapLba, old(disk), buf, freeCounts);
        WrittenTwice(old(disk), buf);
      } else {
        WriteBackEffect(bitmapLba, old(disk), pending, order, freeCounts);
        freeCounts := freeCounts[0 := Less16(freeCounts[0], count)];
      }
      pending := {};
      r := Flushed;
    }
  }

  // ----- whole runs -----

  datatype Op = Alloc(group: nat, num: nat) | Flush

  /** Over every run of requests and write-backs, up to a panic, no block number
      is handed out twice, only blocks that were available at the start are
      handed out, and exact descriptor counts stay exact. */
  method Run(a: BlockAllocator, ops: seq<Op>, spare: seq<bv8>) returns (handed: seq<AllocatedBlock>, panicked: bool)
    requires a.Valid()
    requires forall k :: 0 <= k < |ops| && ops[k].Alloc? ==> ops[k].group < |a.bitmapLba|
    modifies a
    ensures forall i, j :: 0 <= i < j < |handed| ==> handed[i].globalIdx != handed[j].globalIdx
    ensures ToSet(handed) <= old(a.Available())
    ensures forall b :: b in handed ==> NamesClearBit(old(a.Maps()), b)
    ensures !panicked ==> a.Valid() && ToSet(handed) !! a.Available()
    ensures !panicked && old(CountsOk(a.bitmapLba, a.disk, a.freeCounts)) && old(Fits16(a.freeCounts)) ==>
              CountsOk(a.bitmapLba, a.disk, a.freeCounts)
  {
    handed, panicked := [], false;
    ghost var exact := CountsOk(a.bitmapLba, a.disk, a.freeCounts) && Fits16(a.freeCounts);
    ghost var start := a.Available();
    for n := 0 to |ops|
      invariant a.Valid() && a.Available() <= start
      invariant Distinct(handed) && ToSet(handed) <= start && ToSet(handed) !! a.Available()
      invariant exact ==> CountsOk(a.bitmapLba, a.disk, a.freeCounts) && Fits16(a.freeCounts)
    {
      match ops[n]
      case Alloc(g, num) =>
        var r := a.AllocateNBlocksInGroup(g, num);
        if r.Ok? {
          assert forall b :: b in handed ==> b in ToSet(handed);
          assert forall b :: b in r.value ==> b in ToSet(r.value);
          DistinctConcat(handed, r.value);
          ToSetConcat(handed, r.value);
          handed := handed + r.value;
        }
      case Flush =>
        var r := a.WriteNewlyAllocatedBlocks(spare);
        if r.Panicked? {
          panicked := true;
          break;
        }
    }
    DistinctNumbers(old(a.Maps()), old(a.pending), handed);
    NumbersClear(old(a.Maps()), old(a.pending), handed);
  }

  lemma DistinctNumbers(bitmaps: Bitmaps, held: Held, blocks: seq<AllocatedBlock>)
    requires WellSized(bitmaps) && Distinct(blocks) && ToSet(blocks) <= AvailSet(bitmaps, held)
    ensures forall i, j :: 0 <= i < j < |blocks| ==> blocks[i].globalIdx != blocks[j].globalIdx
  {
    AvailSetMembers(bitmaps, held);
    forall i, j | 0 <= i < j < |blocks| ensures blocks[i].globalIdx != blocks[j].globalIdx {
      var b, c := blocks[i], blocks[j];
      assert b in ToSet(blocks) && c in ToSet(blocks);
      AddressesStrictlyIncrease(b.group, b.relativeIdx, c.group, c.relativeIdx);
    }
  }
}
