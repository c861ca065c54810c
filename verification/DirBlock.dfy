/** Directory blocks of ext2 revision 0: variable-length records that tile a
    block. Each record holds an inode number (0 for padding), its own length, a
    name length, a zero byte and the name; the rest up to its length is slack.

    The abstract state of a block is its list of records.
 */
module DirBlock {

  import opened Common
  import S = Serialize

  const BLOCK_SIZE: nat := 1024
  const HEADER: nat := 8

  datatype Record = Record(inode: nat, recLen: nat, name: Bytes)

  // ----- little-endian numbers -----

  function U16(b: Bytes, o: nat): nat
    requires o + 2 <= |b|
  {
    b[o] as int + 256 * (b[o + 1] as int)
  }

  function U32(b: Bytes, o: nat): nat
    requires o + 4 <= |b|
  {
    b[o] as int + 256 * (b[o + 1] as int) + 65536 * (b[o + 2] as int) + 16777216 * (b[o + 3] as int)
  }

  function Le16(v: nat): Bytes
    requires v < 65536
  {
    [v % 256, v / 256]
  }

  function Le32(v: nat): Bytes
    requires v < 0x1_0000_0000
  {
    [v % 256, v / 256 % 256, v / 65536 % 256, v / 16777216]
  }

  // ----- records -----

  /** Smallest record that holds a name of `n` bytes, in steps of four. */
  function MinRecLen(n: nat): (m: nat)
    ensures HEADER + n <= m < HEADER + n + 4
  {
    if n == 0 then HEADER else if n <= 4 then HEADER + 4 else 4 + MinRecLen(n - 4)
  }

  /** It is the header and the name rounded up to a multiple of four by masking. */
  lemma {:induction false} MinRecLenRounds(n: nat)
    ensures MinRecLen(n) == (HEADER + n + 3) / 4 * 4
  {
    if n > 4 {
      MinRecLenRounds(n - 4);
    }
  }

  /** The length field of a record. */
  function RecLen(b: Bytes, o: nat): nat
    requires o + HEADER <= |b|
  {
    U16(b, o + 4)
  }

  /** A record at `o`, within the bytes before `end`, with room for its name. */
  predicate RecOk(b: Bytes, o: nat, end: nat)
    requires end <= |b|
  {
    && o + HEADER <= end
    && b[o + 7] == 0
    && MinRecLen(b[o + 6]) <= RecLen(b, o)
    && o + RecLen(b, o) <= end
  }

  function RecordAt(b: Bytes, o: nat): Record
    requires RecOk(b, o, |b|)
  {
    Record(U32(b, o), RecLen(b, o), b[o + HEADER..o + HEADER + b[o + 6]])
  }

  /** Records tile the bytes from `o` to `end` exactly. */
  predicate Tiles(b: Bytes, o: nat, end: nat)
    requires o <= end <= |b|
    decreases end - o
  {
    o == end || (RecOk(b, o, end) && Tiles(b, o + RecLen(b, o), end))
  }

  function Records(b: Bytes, o: nat, end: nat): seq<Record>
    requires o <= end <= |b| && Tiles(b, o, end)
    decreases end - o
  {
    if o == end then [] else [RecordAt(b, o)] + Records(b, o + RecLen(b, o), end)
  }

  /** Two adjacent tilings make one. */
  lemma {:induction false} TilesConcat(b: Bytes, o: nat, m: nat, end: nat)
    requires o <= m <= end <= |b| && Tiles(b, o, m) && Tiles(b, m, end)
    ensures Tiles(b, o, end) && Records(b, o, end) == Records(b, o, m) + Records(b, m, end)
    decreases m - o
  {
    if o < m {
      var n := o + RecLen(b, o);
      TilesConcat(b, n, m, end);
      assert RecOk(b, o, end);
      ConsAssoc(RecordAt(b, o), Records(b, n, m), Records(b, m, end));
    }
  }

  lemma ConsAssoc(r: Record, x: seq<Record>, y: seq<Record>)
    ensures [r] + (x + y) == ([r] + x) + y
  {
  }

  ghost predicate Agree(b: Bytes, c: Bytes, o: nat, end: nat)
    requires end <= |b| && end <= |c|
  {
    forall i :: o <= i < end ==> b[i] == c[i]
  }

  /** The tiling of a range depends on the bytes of the range only. */
  lemma {:induction false} TilesFrame(b: Bytes, c: Bytes, o: nat, end: nat)
    requires o <= end <= |b| == |c| && Agree(b, c, o, end) && Tiles(b, o, end)
    ensures Tiles(c, o, end) && Records(c, o, end) == Records(b, o, end)
    decreases end - o
  {
    if o < end {
      assert RecLen(c, o) == RecLen(b, o) && c[o + 6] == b[o + 6] && c[o + 7] == b[o + 7];
      TilesFrame(b, c, o + RecLen(b, o), end);
      assert RecordAt(c, o) == RecordAt(b, o);
    }
  }

  // ----- names -----

  /** UTF-8, as names are written. */
  function Utf8Char(c: char): Bytes {
    var n := c as int;
    if n < 0x80 then [n]
    else if n < 0x800 then [0xC0 + n / 64, 0x80 + n % 64]
    else if n < 0x10000 then [0xE0 + n / 4096, 0x80 + n / 64 % 64, 0x80 + n % 64]
    else [0xF0 + n / 262144 % 8, 0x80 + n / 4096 % 64, 0x80 + n / 64 % 64, 0x80 + n % 64]
  }

  function Utf8(name: string): Bytes {
    if name == [] then [] else Utf8(name[..|name| - 1]) + Utf8Char(name[|name| - 1])
  }

  /** One character per byte, as names are read. */
  function Latin1(b: Bytes): string {
    seq(|b|, i requires 0 <= i < |b| => b[i] as char)
  }

  predicate Ascii(name: string) {
    forall i :: 0 <= i < |name| ==> name[i] as int < 128
  }

  /** A name is read back as it was written exactly when it is ASCII. */
  lemma {:induction false} ReadBackIff(name: string)
    ensures |Utf8(name)| >= |name|
    ensures |Utf8(name)| == |name| <==> Ascii(name)
    ensures Latin1(Utf8(name)) == name <==> Ascii(name)
  {
    if name != [] {
      var r, c := name[..|name| - 1], name[|name| - 1];
      ReadBackIff(r);
      assert name == r + [c];
      if Ascii(name) {
        assert Ascii(r);
        assert Latin1(Utf8(name)) == Latin1(Utf8(r)) + [c];
      }
    }
  }

  // ----- the list of records -----

  /** Bytes of a record that its header and name do not need. */
  function Slack(r: Record): int {
    r.recLen - MinRecLen(|r.name|)
  }

  /** Position of the first record from `i` on with `need` bytes of slack, or the length. */
  function FirstFitFrom(l: seq<Record>, need: nat, i: nat): (k: nat)
    requires i <= |l|
    ensures i <= k <= |l| && forall j :: i <= j < k ==> Slack(l[j]) < need
    ensures k < |l| ==> Slack(l[k]) >= need
    decreases |l| - i
  {
    if i == |l| || Slack(l[i]) >= need then i else FirstFitFrom(l, need, i + 1)
  }

  function FirstFit(l: seq<Record>, need: nat): (k: nat)
    ensures k <= |l| && forall j :: 0 <= j < k ==> Slack(l[j]) < need
    ensures k < |l| ==> Slack(l[k]) >= need
  {
    FirstFitFrom(l, need, 0)
  }

  lemma {:induction false} FirstFitIs(l: seq<Record>, need: nat, i: nat, k: nat)
    requires i <= k <= |l| && (forall j :: i <= j < k ==> Slack(l[j]) < need) && (k < |l| ==> Slack(l[k]) >= need)
    ensures FirstFitFrom(l, need, i) == k
    decreases k - i
  {
    if i < k {
      FirstFitIs(l, need, i + 1, k);
    }
  }

  /** A record is scanned past exactly when it lacks the room. */
  lemma FirstFitAfter(a: seq<Record>, b: seq<Record>, need: nat)
    requires FirstFit(a, need) == |a|
    ensures FirstFit(a + b, need) == |a| + FirstFit(b, need)
  {
    FirstFitIs(a + b, need, 0, |a| + FirstFit(b, need));
  }

  /** Record `k` cut down to `small` bytes, and `e` put behind it. */
  function Split(l: seq<Record>, k: nat, small: nat, e: Record): seq<Record>
    requires k < |l|
  {
    l[..k] + [l[k].(recLen := small), e] + l[k + 1..]
  }

  /** Split the first record with enough slack; the new entry gets all of it. */
  function Insert(l: seq<Record>, child: nat, name: Bytes): seq<Record>
    requires FirstFit(l, MinRecLen(|name|)) < |l|
  {
    var k := FirstFit(l, MinRecLen(|name|));
    Split(l, k, MinRecLen(|l[k].name|), Record(child, Slack(l[k]), name))
  }

  predicate IsDots(name: string) {
    name == "." || name == ".."
  }

  /** A live record with this name; "." and ".." are never looked at. */
  predicate Matches(r: Record, name: string) {
    r.inode != 0 && Latin1(r.name) == name && !IsDots(name)
  }

  /** Position of the first match from `i` on, or the length. */
  function FirstMatchFrom(l: seq<Record>, name: string, i: nat): (k: nat)
    requires i <= |l|
    ensures i <= k <= |l| && forall j :: i <= j < k ==> !Matches(l[j], name)
    ensures k < |l| ==> Matches(l[k], name)
    decreases |l| - i
  {
    if i == |l| || Matches(l[i], name) then i else FirstMatchFrom(l, name, i + 1)
  }

  function FirstMatch(l: seq<Record>, name: string): (k: nat)
    ensures k <= |l| && forall j :: 0 <= j < k ==> !Matches(l[j], name)
    ensures k < |l| ==> Matches(l[k], name)
  {
    FirstMatchFrom(l, name, 0)
  }

  lemma {:induction false} FirstMatchFromIs(l: seq<Record>, name: string, i: nat, k: nat)
    requires i <= k <= |l| && (forall j :: i <= j < k ==> !Matches(l[j], name)) && (k < |l| ==> Matches(l[k], name))
    ensures FirstMatchFrom(l, name, i) == k
    decreases k - i
  {
    if i < k {
      FirstMatchFromIs(l, name, i + 1, k);
    }
  }

  lemma FirstMatchIs(l: seq<Record>, name: string, k: nat)
    requires k <= |l| && (forall j :: 0 <= j < k ==> !Matches(l[j], name)) && (k < |l| ==> Matches(l[k], name))
    ensures FirstMatch(l, name) == k
  {
    FirstMatchFromIs(l, name, 0, k);
  }

  function Find(l: seq<Record>, name: string): Option<nat> {
    var k := FirstMatch(l, name);
    if k < |l| then Some(l[k].inode) else None
  }

  /** The entries "." and ".." are never found, whatever the directory holds. */
  lemma DotsNotFound(l: seq<Record>)
    ensures Find(l, ".") == None && Find(l, "..") == None
  {
    assert FirstMatch(l, ".") == |l| && FirstMatch(l, "..") == |l|;
  }

  /** Record `k` taken away: its predecessor absorbs it, or, if it is the first,
      it becomes padding. */
  function Remove(l: seq<Record>, k: nat): seq<Record>
    requires k < |l|
  {
    if k == 0 then [Record(0, l[0].recLen, [])] + l[1..]
    else l[..k - 1] + [l[k - 1].(recLen := l[k - 1].recLen + l[k].recLen)] + l[k + 1..]
  }

  /** The entry of one record, if it is live. */
  function EntryOf(r: Record): seq<(nat, Bytes)> {
    if r.inode != 0 then [(r.inode, r.name)] else []
  }

  /** The entries a reader of the directory sees: inode and name of live records. */
  function Live(l: seq<Record>): seq<(nat, Bytes)> {
    if l == [] then [] else EntryOf(l[0]) + Live(l[1..])
  }

  lemma {:induction false} LiveConcat(a: seq<Record>, b: seq<Record>)
    ensures Live(a + b) == Live(a) + Live(b)
  {
    if a == [] {
      assert a + b == b;
    } else {
      assert (a + b)[1..] == a[1..] + b;
      LiveConcat(a[1..], b);
      assert EntryOf(a[0]) + (Live(a[1..]) + Live(b)) == EntryOf(a[0]) + Live(a[1..]) + Live(b);
    }
  }

  lemma LiveSnoc(a: seq<Record>, r: Record)
    ensures Live(a + [r]) == Live(a) + EntryOf(r)
  {
    LiveConcat(a, [r]);
    assert [r][1..] == [];
  }

  lemma LiveAround(a: seq<Record>, r: Record, b: seq<Record>)
    ensures Live(a + [r] + b) == Live(a) + EntryOf(r) + Live(b)
  {
    LiveConcat(a + [r], b);
    LiveSnoc(a, r);
  }

  lemma LiveCut(a: seq<Record>, x: Record, y: Record, e: Record, b: seq<Record>)
    requires EntryOf(x) == EntryOf(y)
    ensures Live(a + [y, e] + b) == Live(a + [x]) + EntryOf(e) + Live(b)
  {
    assert a + [y, e] + b == (a + [y]) + [e] + b;
    LiveAround(a + [y], e, b);
    LiveSnoc(a, x);
    LiveSnoc(a, y);
  }

  lemma LiveHalves(l: seq<Record>, k: nat)
    requires k <= |l|
    ensures Live(l) == Live(l[..k]) + Live(l[k..])
  {
    assert l == l[..k] + l[k..];
    LiveConcat(l[..k], l[k..]);
  }

  lemma LiveThrough(l: seq<Record>, k: nat)
    requires k < |l|
    ensures Live(l[..k + 1]) == Live(l[..k]) + EntryOf(l[k])
  {
    assert l[..k + 1] == l[..k] + [l[k]];
    LiveSnoc(l[..k], l[k]);
  }

  /** A split adds one live entry, behind those of the records up to `k`. */
  lemma SplitLive(l: seq<Record>, k: nat, small: nat, e: Record)
    requires k < |l| && e.inode != 0
    ensures Live(l) == Live(l[..k + 1]) + Live(l[k + 1..])
    ensures Live(Split(l, k, small, e)) == Live(l[..k + 1]) + [(e.inode, e.name)] + Live(l[k + 1..])
  {
    LiveHalves(l, k + 1);
    LiveThrough(l, k);
    LiveCut(l[..k], l[k], l[k].(recLen := small), e, l[k + 1..]);
    LiveSnoc(l[..k], l[k]);
  }

  lemma LiveRemove(l: seq<Record>, k: nat)
    requires k < |l|
    ensures Live(Remove(l, k)) == Live(l[..k]) + Live(l[k + 1..])
  {
    if k == 0 {
      LiveConcat([Record(0, l[0].recLen, [])], l[1..]);
      LiveSnoc([], Record(0, l[0].recLen, []));
    } else {
      LiveAround(l[..k - 1], l[k - 1].(recLen := l[k - 1].recLen + l[k].recLen), l[k + 1..]);
      LiveThrough(l, k - 1);
    }
  }

  /** Removing a live record removes exactly its entry. */
  lemma RemoveLive(l: seq<Record>, k: nat)
    requires k < |l| && l[k].inode != 0
    ensures Live(l) == Live(l[..k]) + [(l[k].inode, l[k].name)] + Live(l[k + 1..])
    ensures Live(Remove(l, k)) == Live(l[..k]) + Live(l[k + 1..])
  {
    LiveHalves(l, k + 1);
    LiveThrough(l, k);
    LiveRemove(l, k);
  }

  /** What a split and a removal leave at each position. */
  lemma SplitAt(l: seq<Record>, k: nat, small: nat, e: Record)
    requires k < |l|
    ensures var s := Split(l, k, small, e);
            && |s| == |l| + 1 && s[k] == l[k].(recLen := small) && s[k + 1] == e
            && (forall j :: 0 <= j < k ==> s[j] == l[j]) && (forall j :: k + 1 < j < |s| ==> s[j] == l[j - 1])
  {
  }

  lemma MatchesIgnoresLength(r: Record, n: nat, name: string)
    ensures Matches(r.(recLen := n), name) == Matches(r, name)
  {
  }

  /** After a split other names are found as before, and the new one is found
      unless an earlier record carries it. */
  lemma SplitFind(l: seq<Record>, k: nat, small: nat, e: Record, name: string)
    requires k < |l|
    ensures !Matches(e, name) ==> Find(Split(l, k, small, e), name) == Find(l, name)
    ensures Matches(e, name) && FirstMatch(l, name) > k ==> Find(Split(l, k, small, e), name) == Some(e.inode)
  {
    var s, m := Split(l, k, small, e), FirstMatch(l, name);
    SplitAt(l, k, small, e);
    MatchesIgnoresLength(l[k], small, name);
    if !Matches(e, name) {
      FirstMatchIs(s, name, if m <= k then m else m + 1);
    } else if m > k {
      FirstMatchIs(s, name, k + 1);
    }
  }

  lemma MatchAfter(a: seq<Record>, b: seq<Record>, name: string)
    requires forall j :: 0 <= j < |a| ==> !Matches(a[j], name)
    ensures FirstMatch(a + b, name) == |a| + FirstMatch(b, name)
    ensures Find(a + b, name) == Find(b, name)
  {
    FirstMatchIs(a + b, name, |a| + FirstMatch(b, name));
  }

  /** Searching one list after the other. */
  lemma FindConcat(a: seq<Record>, b: seq<Record>, name: string)
    ensures Find(a + b, name) == if Find(a, name).Some? then Find(a, name) else Find(b, name)
  {
    var k := FirstMatch(a, name);
    if k < |a| {
      FirstMatchIs(a + b, name, k);
    } else {
      MatchAfter(a, b, name);
    }
  }

  lemma FindOne(r: Record, name: string)
    ensures Find([r], name) == if Matches(r, name) then Some(r.inode) else None
  {
    FirstMatchIs([r], name, if Matches(r, name) then 0 else 1);
  }

  lemma FindAround(a: seq<Record>, r: Record, b: seq<Record>, name: string)
    ensures Find(a + [r] + b, name) == if Find(a, name).Some? then Find(a, name)
                                       else if Matches(r, name) then Some(r.inode) else Find(b, name)
  {
    FindConcat(a + [r], b, name);
    FindConcat(a, [r], name);
    FindOne(r, name);
  }

  lemma RemoveFindAt(f: seq<Record>, r: Record, x: Record, q: seq<Record>, n: nat, other: string)
    requires !Matches(x, other)
    ensures Find(f + [r.(recLen := n)] + q, other) == Find(f + [r] + [x] + q, other)
  {
    FindAround(f, r.(recLen := n), q, other);
    FindAround(f + [r], x, q, other);
    FindConcat(f, [r], other);
    FindOne(r, other);
    MatchesIgnoresLength(r, n, other);
  }

  lemma NoMatch(f: seq<Record>, name: string)
    requires forall j :: 0 <= j < |f| ==> !Matches(f[j], name)
    ensures Find(f, name) == None
  {
    FirstMatchIs(f, name, |f|);
  }

  lemma RemoveFindBehind(f: seq<Record>, r: Record, q: seq<Record>, n: nat, name: string)
    requires (forall j :: 0 <= j < |f| ==> !Matches(f[j], name)) && !Matches(r, name)
    ensures Find(f + [r.(recLen := n)] + q, name) == Find(q, name)
  {
    FindAround(f, r.(recLen := n), q, name);
    NoMatch(f, name);
    MatchesIgnoresLength(r, n, name);
  }

  lemma FindBehindPad(n: nat, q: seq<Record>, name: string)
    ensures Find([Record(0, n, [])] + q, name) == Find(q, name)
  {
    FindConcat([Record(0, n, [])], q, name);
    FindOne(Record(0, n, []), name);
  }

  /** After the first match of `name` is removed, it is found exactly when a later
      record carries it too. */
  lemma RemoveFind(l: seq<Record>, name: string)
    requires FirstMatch(l, name) < |l|
    ensures Find(Remove(l, FirstMatch(l, name)), name) == Find(l[FirstMatch(l, name) + 1..], name)
  {
    var k := FirstMatch(l, name);
    if k == 0 {
      FindBehindPad(l[0].recLen, l[1..], name);
    } else {
      var f, r, x, q := Pieces(l, k);
      RemoveFindBehind(f, r, q, r.recLen + x.recLen, name);
    }
  }

  /** Other names are found as before. */
  lemma RemoveFindOther(l: seq<Record>, k: nat, name: string, other: string)
    requires k < |l| && Matches(l[k], name) && other != name
    ensures Find(Remove(l, k), other) == Find(l, other)
  {
    if k == 0 {
      RemoveFirstFindOther(l, other);
    } else {
      RemoveLaterFindOther(l, k, other);
    }
  }

  lemma RemoveFirstFindOther(l: seq<Record>, other: string)
    requires l != [] && !Matches(l[0], other)
    ensures Find(Remove(l, 0), other) == Find(l, other)
  {
    var x, q := FirstPiece(l);
    RemoveFindFirst(x, q, other);
  }

  lemma RemoveLaterFindOther(l: seq<Record>, k: nat, other: string)
    requires 0 < k < |l| && !Matches(l[k], other)
    ensures Find(Remove(l, k), other) == Find(l, other)
  {
    var f, r, x, q := Pieces(l, k);
    RemoveFindAt(f, r, x, q, r.recLen + x.recLen, other);
  }

  lemma FirstPiece(l: seq<Record>) returns (x: Record, q: seq<Record>)
    requires l != []
    ensures l == [x] + q && x == l[0] && Remove(l, 0) == [Record(0, x.recLen, [])] + q
  {
    x, q := l[0], l[1..];
  }

  lemma RemoveFindFirst(x: Record, q: seq<Record>, other: string)
    requires !Matches(x, other)
    ensures Find([Record(0, x.recLen, [])] + q, other) == Find([x] + q, other)
  {
    var pad := Record(0, x.recLen, []);
    FindConcat([pad], q, other);
    FindConcat([x], q, other);
    FindOne(pad, other);
    FindOne(x, other);
  }

  lemma Pieces(l: seq<Record>, k: nat) returns (f: seq<Record>, r: Record, x: Record, q: seq<Record>)
    requires 0 < k < |l|
    ensures l == f + [r] + [x] + q && x == l[k] && r == l[k - 1] && q == l[k + 1..]
    ensures |f| == k - 1 && forall j :: 0 <= j < |f| ==> f[j] == l[j]
    ensures Remove(l, k) == f + [r.(recLen := r.recLen + x.recLen)] + q
  {
    f, r, x, q := l[..k - 1], l[k - 1], l[k], l[k + 1..];
  }

  /** Removing a freshly split-off record restores the list, lengths included. */
  lemma SplitThenRemove(l: seq<Record>, k: nat, small: nat, e: Record)
    requires k < |l| && small + e.recLen == l[k].recLen
    ensures Remove(Split(l, k, small, e), k + 1) == l
  {
    SplitAt(l, k, small, e);
  }

  // ----- editing the bytes -----

  /** A directory entry as it is written: inode, length, name length, file type 0
      and the name. */
  function EntryBytes(inode: nat, recLen: nat, name: Bytes): (s: Bytes)
    requires inode < 0x1_0000_0000 && recLen < 65536 && |name| <= 255
    ensures |s| == HEADER + |name|
  {
    Le32(inode) + Le16(recLen) + [|name|, 0] + name
  }

  function Uint(size: nat): S.Schema {
    S.Int(S.IntType(size, false))
  }

  /** The header as the serializer sees it: four integers one after the other. */
  function Header(): S.Schema {
    S.Struct(S.Field(Uint(4), Fields2()))
  }

  function Fields2(): S.Fields {
    S.Field(Uint(2), Fields1())
  }

  function Fields1(): S.Fields {
    S.Field(Uint(1), S.Field(Uint(1), S.End))
  }

  function HeaderValue(inode: nat, recLen: nat, nameLen: nat, fileType: nat): S.Value {
    S.StructValue(S.FieldValue(S.IntValue(inode), Values2(recLen, nameLen, fileType)))
  }

  function Values2(recLen: nat, nameLen: nat, fileType: nat): S.Values {
    S.FieldValue(S.IntValue(recLen), Values1(nameLen, fileType))
  }

  function Values1(nameLen: nat, fileType: nat): S.Values {
    S.FieldValue(S.IntValue(nameLen), S.FieldValue(S.IntValue(fileType), S.EndValue))
  }

  lemma Powers()
    ensures S.Pow(0) == 1 && S.Pow(1) == 256 && S.Pow(2) == 65536 && S.Pow(3) == 16777216 && S.Pow(4) == 0x1_0000_0000
  {
    assert S.Pow(1) == 256 * S.Pow(0);
    assert S.Pow(2) == 256 * S.Pow(1);
    assert S.Pow(3) == 256 * S.Pow(2);
    assert S.Pow(4) == 256 * S.Pow(3);
  }

  lemma LowBytes(b: Bytes)
    ensures |b| == 1 ==> S.FromLe(b) == b[0]
    ensures |b| == 2 ==> S.FromLe(b) == U16(b, 0)
    ensures |b| == 4 ==> S.FromLe(b) == U32(b, 0)
  {
    if |b| == 1 {
      assert b[1..] == [];
    } else if |b| == 2 {
      LowBytes(b[1..]);
    } else if |b| == 4 {
      LowBytes(b[1..][1..]);
    }
  }

  lemma LowestBytes(size: nat, v: nat, b: Bytes)
    requires |b| == size && S.FromLe(b) == v
    ensures S.ToLe(v, size) == b
  {
    S.LeRoundTripBytes(b);
  }

  predicate Fits(size: nat, v: nat) {
    (size == 1 && v < 256) || (size == 2 && v < 65536) || (size == 4 && v < 0x1_0000_0000)
  }

  lemma UintFits(size: nat, v: nat)
    requires Fits(size, v)
    ensures S.InRange(S.IntType(size, false), v)
  {
    Powers();
  }

  function UintBytes(size: nat, v: nat): (b: Bytes)
    requires Fits(size, v)
    ensures |b| == size
  {
    if size == 1 then [v] else if size == 2 then Le16(v) else Le32(v)
  }

  lemma UintBytesRead(size: nat, v: nat)
    requires Fits(size, v)
    ensures S.FromLe(UintBytes(size, v)) == v
  {
    var b := UintBytes(size, v);
    LowBytes(b);
    if size == 2 {
      Le16Reads(v, b, 0);
    } else if size == 4 {
      Le32Reads(v, b, 0);
    }
  }

  lemma EncodeUint(size: nat, v: nat)
    requires Fits(size, v)
    ensures S.HasType(S.IntValue(v), Uint(size)) && S.Encode(Uint(size), S.IntValue(v), S.Little) == UintBytes(size, v)
  {
    UintFits(size, v);
    UintBytesRead(size, v);
    LowestBytes(size, v, UintBytes(size, v));
  }

  /** An entry is written as its header in little-endian order, then its name. */
  lemma EntryIsSerialized(inode: nat, recLen: nat, name: Bytes)
    requires inode < 0x1_0000_0000 && recLen < 65536 && |name| < 256
    ensures S.HasType(HeaderValue(inode, recLen, |name|, 0), Header())
    ensures EntryBytes(inode, recLen, name)
            == S.Encode(Header(), HeaderValue(inode, recLen, |name|, 0), S.Little) + name
  {
    EncodeUint(4, inode);
    EncodeUint(2, recLen);
    EncodeUint(1, |name|);
    EncodeUint(1, 0);
    assert S.EncodeFields(Fields1(), Values1(|name|, 0), S.Little) == [|name|, 0];
    assert S.EncodeFields(Fields2(), Values2(recLen, |name|, 0), S.Little) == Le16(recLen) + [|name|, 0];
    Regroup(Le32(inode), Le16(recLen), [|name|, 0], name);
  }

  lemma Regroup(a: Bytes, b: Bytes, c: Bytes, d: Bytes)
    ensures a + b + c + d == a + (b + c) + d
  {
  }

  lemma DecodeUint(size: nat, b: Bytes)
    requires |b| == size && (size == 1 || size == 2 || size == 4)
    ensures S.Decode(Uint(size), b, S.Little)
            == S.IntValue(if size == 1 then b[0] else if size == 2 then U16(b, 0) else U32(b, 0))
  {
    LowBytes(b);
  }

  /** The fields of a record are those of the header that the serializer reads there. */
  lemma HeaderIsDeserialized(b: Bytes, o: nat)
    requires o + HEADER <= |b|
    ensures S.Size(Header()) == HEADER
    ensures S.Decode(Header(), b[o..o + HEADER], S.Little)
            == HeaderValue(U32(b, o), RecLen(b, o), b[o + 6], b[o + 7])
  {
    var w := b[o..o + HEADER];
    DecodeRest(w);
    DecodeUint(4, w[..4]);
    assert S.SizeOf(S.Field(Uint(4), Fields2())) == HEADER;
  }

  lemma DecodeRest(w: Bytes)
    requires |w| == HEADER
    ensures S.SizeOf(Fields2()) == 4
    ensures S.DecodeFields(Fields2(), w[4..], S.Little) == Values2(U16(w, 4), w[6], w[7])
  {
    assert w[4..][2..] == w[6..];
    DecodeUint(2, w[4..][..2]);
    DecodeLast(w[6..]);
  }

  lemma DecodeLast(w: Bytes)
    requires |w| == 2
    ensures S.SizeOf(Fields1()) == 2
    ensures S.DecodeFields(Fields1(), w, S.Little) == Values1(w[0], w[1])
  {
    assert w[1..][1..] == [];
    DecodeUint(1, w[..1]);
    DecodeUint(1, w[1..][..1]);
  }

  /** `c` is `b` with the bytes from `o` on overwritten by `s`. */
  ghost predicate Written(b: Bytes, c: Bytes, o: nat, s: Bytes) {
    && o + |s| <= |b| == |c|
    && Agree(b, c, 0, o) && c[o..o + |s|] == s && Agree(b, c, o + |s|, |b|)
  }

  /** `c` is `b` with `n` as the length of the record at `o`. */
  ghost predicate Resized(b: Bytes, c: Bytes, o: nat, n: nat) {
    && o + HEADER <= |b| == |c|
    && RecLen(c, o) == n && Agree(b, c, 0, o + 4) && Agree(b, c, o + 6, |b|)
  }

  /** `c` is `b` with an entry put at `o`. */
  ghost predicate EntryPut(b: Bytes, c: Bytes, o: nat, inode: nat, n: nat, name: Bytes) {
    && o + HEADER + |name| <= |b| == |c|
    && U32(c, o) == inode && RecLen(c, o) == n && c[o + 6] == |name| && c[o + 7] == 0
    && c[o + HEADER..o + HEADER + |name|] == name
    && Agree(b, c, 0, o) && Agree(b, c, o + HEADER + |name|, |b|)
  }

  lemma Le32Reads(v: nat, b: Bytes, o: nat)
    requires v < 0x1_0000_0000 && o + 4 <= |b| && b[o..o + 4] == Le32(v)
    ensures U32(b, o) == v
  {
    assert v / 65536 == v / 256 / 256 && v / 16777216 == v / 65536 / 256;
    var s := b[o..o + 4];
    assert b[o] == s[0] && b[o + 1] == s[1] && b[o + 2] == s[2] && b[o + 3] == s[3];
  }

  lemma Le16Reads(v: nat, b: Bytes, o: nat)
    requires v < 65536 && o + 2 <= |b| && b[o..o + 2] == Le16(v)
    ensures U16(b, o) == v
  {
    var s := b[o..o + 2];
    assert b[o] == s[0] && b[o + 1] == s[1];
  }

  lemma SubSlice(b: Bytes, o: nat, n: nat, i: nat, j: nat)
    requires o + n <= |b| && i <= j <= n
    ensures b[o..o + n][i..j] == b[o + i..o + j]
  {
    var x, y := b[o..o + n][i..j], b[o + i..o + j];
    forall k | 0 <= k < j - i ensures x[k] == y[k] {
      assert b[o..o + n][i + k] == b[o + (i + k)];
    }
  }

  lemma EntryParts(b: Bytes, o: nat, inode: nat, recLen: nat, name: Bytes)
    requires inode < 0x1_0000_0000 && recLen < 65536 && |name| <= 255 && o + HEADER + |name| <= |b|
    requires b[o..o + HEADER + |name|] == EntryBytes(inode, recLen, name)
    ensures b[o..o + 4] == Le32(inode) && b[o + 4..o + 6] == Le16(recLen)
    ensures b[o + 6] == |name| && b[o + 7] == 0 && b[o + HEADER..o + HEADER + |name|] == name
  {
    var s, n := EntryBytes(inode, recLen, name), HEADER + |name|;
    assert s[0..4] == Le32(inode) && s[4..6] == Le16(recLen) && s[HEADER..n] == name;
    assert s[6..8] == [|name|, 0];
    SubSlice(b, o, n, 0, 4);
    SubSlice(b, o, n, 4, 6);
    SubSlice(b, o, n, 6, 8);
    SubSlice(b, o, n, 8, n);
    assert b[o + 6] == b[o + 6..o + 8][0] && b[o + 7] == b[o + 6..o + 8][1];
  }

  lemma EntryIsPut(b: Bytes, c: Bytes, o: nat, inode: nat, n: nat, name: Bytes)
    requires inode < 0x1_0000_0000 && n < 65536 && |name| <= 255
    requires Written(b, c, o, EntryBytes(inode, n, name))
    ensures EntryPut(b, c, o, inode, n, name)
  {
    EntryParts(c, o, inode, n, name);
    Le32Reads(inode, c, o);
    Le16Reads(n, c, o + 4);
  }

  /** An entry put at `o` is read back. */
  lemma EntryReads(b: Bytes, c: Bytes, o: nat, end: nat, inode: nat, n: nat, name: Bytes)
    requires EntryPut(b, c, o, inode, n, name) && MinRecLen(|name|) <= n && o + n <= end <= |b|
    ensures RecOk(c, o, end) && RecordAt(c, o) == Record(inode, n, name)
  {
  }

  /** A record whose length field alone changes keeps its inode and name. */
  lemma ResizeReads(b: Bytes, c: Bytes, o: nat, n: nat, end: nat)
    requires RecOk(b, o, |b|) && MinRecLen(b[o + 6]) <= n && o + n <= end <= |b| && Resized(b, c, o, n)
    ensures RecOk(c, o, end) && RecordAt(c, o) == RecordAt(b, o).(recLen := n)
  {
    assert U32(c, o) == U32(b, o);
    assert c[o + HEADER..o + HEADER + b[o + 6]] == b[o + HEADER..o + HEADER + b[o + 6]];
  }

  lemma OneRecord(b: Bytes, o: nat, end: nat)
    requires end <= |b| && RecOk(b, o, end)
    ensures var m := o + RecLen(b, o); Tiles(b, o, m) && Records(b, o, m) == [RecordAt(b, o)]
  {
    assert Tiles(b, o + RecLen(b, o), o + RecLen(b, o));
  }

  /** Scanning one record further. */
  lemma Advance(b: Bytes, o: nat, end: nat)
    requires o < end <= |b| && Tiles(b, 0, o) && Tiles(b, o, end)
    ensures var m := o + RecLen(b, o);
            && Tiles(b, 0, m) && Records(b, 0, m) == Records(b, 0, o) + [RecordAt(b, o)]
            && Tiles(b, m, end) && Records(b, o, end) == [RecordAt(b, o)] + Records(b, m, end)
  {
    OneRecord(b, o, end);
    TilesConcat(b, 0, o, o + RecLen(b, o));
  }

  /** Rewriting the range from `o` to `m` replaces its records and no others. */
  lemma Rewrite(b: Bytes, c: Bytes, o: nat, m: nat, end: nat)
    requires o <= m <= end <= |b| == |c| && Agree(b, c, 0, o) && Agree(b, c, m, end)
    requires Tiles(b, 0, o) && Tiles(b, m, end) && Tiles(c, o, m)
    ensures Tiles(c, 0, end)
    ensures Records(c, 0, end) == Records(b, 0, o) + Records(c, o, m) + Records(b, m, end)
  {
    TilesFrame(b, c, 0, o);
    TilesFrame(b, c, m, end);
    TilesConcat(c, 0, o, m);
    TilesConcat(c, 0, m, end);
  }

  /** One record over the range from `o` on. */
  lemma RewriteOne(b: Bytes, c: Bytes, o: nat, n: nat, end: nat)
    requires o + n <= end <= |b| == |c| && Agree(b, c, 0, o) && Agree(b, c, o + n, end)
    requires Tiles(b, 0, o) && Tiles(b, o + n, end) && RecOk(c, o, o + n) && RecLen(c, o) == n
    ensures Tiles(c, 0, end)
    ensures Records(c, 0, end) == Records(b, 0, o) + [RecordAt(c, o)] + Records(b, o + n, end)
  {
    var mid := [RecordAt(c, o)];
    assert Tiles(c, o, o + n) && Records(c, o, o + n) == mid by {
      OneRecord(c, o, o + n);
    }
    RewriteWith(b, c, o, o + n, end, mid);
  }

  /** Two records over the range from `o` on. */
  lemma RewriteTwo(b: Bytes, c: Bytes, o: nat, m: nat, n: nat, end: nat)
    requires m <= n && o + n <= end <= |b| == |c| && Agree(b, c, 0, o) && Agree(b, c, o + n, end)
    requires Tiles(b, 0, o) && Tiles(b, o + n, end)
    requires RecOk(c, o, o + m) && RecLen(c, o) == m && RecOk(c, o + m, o + n) && RecLen(c, o + m) == n - m
    ensures Tiles(c, 0, end)
    ensures Records(c, 0, end) == Records(b, 0, o) + [RecordAt(c, o), RecordAt(c, o + m)] + Records(b, o + n, end)
  {
    TwoRecords(c, o, m, n);
    RewriteWith(b, c, o, o + n, end, [RecordAt(c, o), RecordAt(c, o + m)]);
  }

  lemma RewriteWith(b: Bytes, c: Bytes, o: nat, m: nat, end: nat, mid: seq<Record>)
    requires o <= m <= end <= |b| == |c| && Agree(b, c, 0, o) && Agree(b, c, m, end)
    requires Tiles(b, 0, o) && Tiles(b, m, end) && Tiles(c, o, m) && Records(c, o, m) == mid
    ensures Tiles(c, 0, end) && Records(c, 0, end) == Records(b, 0, o) + mid + Records(b, m, end)
  {
    Rewrite(b, c, o, m, end);
  }

  lemma TwoRecords(c: Bytes, o: nat, m: nat, n: nat)
    requires m <= n && o + n <= |c|
    requires RecOk(c, o, o + m) && RecLen(c, o) == m && RecOk(c, o + m, o + n) && RecLen(c, o + m) == n - m
    ensures Tiles(c, o, o + n) && Records(c, o, o + n) == [RecordAt(c, o), RecordAt(c, o + m)]
  {
    OneRecord(c, o, o + m);
    OneRecord(c, o + m, o + n);
    TilesConcat(c, o, o + m, o + n);
  }

  /** A record is the same after a write elsewhere. */
  lemma RecordFrame(b: Bytes, c: Bytes, o: nat, end: nat)
    requires end <= |b| == |c| && RecOk(b, o, end) && Agree(b, c, o, end)
    ensures RecOk(c, o, end) && RecordAt(c, o) == RecordAt(b, o)
  {
    assert RecLen(c, o) == RecLen(b, o) && U32(c, o) == U32(b, o);
    assert c[o + 6] == b[o + 6] && c[o + 7] == b[o + 7];
    assert c[o + HEADER..o + HEADER + b[o + 6]] == b[o + HEADER..o + HEADER + b[o + 6]];
  }

  /** The two writes of an insertion split the record at `o`: its length becomes
      `m`, and the new entry behind it takes the rest. */
  lemma SplitReads(b: Bytes, x: Bytes, c: Bytes, o: nat, m: nat, n: nat, child: nat, name: Bytes)
    requires RecOk(b, o, |b|) && n == RecLen(b, o) && m == MinRecLen(b[o + 6]) && n - m >= MinRecLen(|name|)
    requires Resized(b, x, o, m) && EntryPut(x, c, o + m, child, n - m, name)
    ensures |b| == |c| && Agree(b, c, 0, o) && Agree(b, c, o + n, |b|)
    ensures RecOk(c, o, o + m) && RecordAt(c, o) == RecordAt(b, o).(recLen := m)
    ensures RecOk(c, o + m, o + n) && RecordAt(c, o + m) == Record(child, n - m, name)
  {
    ResizeReads(b, x, o, m, o + m);
    assert Agree(x, c, o, o + m);
    RecordFrame(x, c, o, o + m);
    EntryReads(x, c, o + m, o + n, child, n - m, name);
  }

  /** They leave the other records alone. */
  lemma SplitBytes(b: Bytes, x: Bytes, c: Bytes, o: nat, end: nat, m: nat, n: nat, child: nat, name: Bytes)
    requires o < end <= |b| && Tiles(b, 0, o) && RecOk(b, o, end) && n == RecLen(b, o) && Tiles(b, o + n, end)
    requires m == MinRecLen(b[o + 6]) && n - m >= MinRecLen(|name|)
    requires Resized(b, x, o, m) && EntryPut(x, c, o + m, child, n - m, name)
    ensures |c| == |b| && Tiles(c, 0, end)
    ensures Records(c, 0, end) == Records(b, 0, o)
              + [RecordAt(b, o).(recLen := m), Record(child, n - m, name)] + Records(b, o + n, end)
  {
    SplitReads(b, x, c, o, m, n, child, name);
    RewriteTwo(b, c, o, m, n, end);
  }

  /** Writing a new length over the record at `p` makes it absorb its successor. */
  lemma MergeBytes(b: Bytes, c: Bytes, p: nat, o: nat, end: nat, n: nat)
    requires p < o < end <= |b| && Tiles(b, 0, p)
    requires RecOk(b, p, end) && o == p + RecLen(b, p) && RecOk(b, o, end)
    requires n == RecLen(b, p) + RecLen(b, o) && Tiles(b, p + n, end) && Resized(b, c, p, n)
    ensures |c| == |b| && Tiles(c, 0, end)
    ensures Records(c, 0, end) == Records(b, 0, p) + [RecordAt(b, p).(recLen := n)] + Records(b, p + n, end)
  {
    ResizeReads(b, c, p, n, p + n);
    RewriteOne(b, c, p, n, end);
  }

  lemma PadKeeps(b: Bytes, c: Bytes, end: nat, n: nat)
    requires 0 < end <= |b| && Tiles(b, 0, end) && RecLen(b, 0) == n && EntryPut(b, c, 0, 0, n, [])
    ensures Tiles(c, 0, end) && Records(c, 0, end) == [Record(0, n, [])] + Records(b, n, end)
  {
    EntryReads(b, c, 0, n, 0, n, []);
    RewriteOne(b, c, 0, n, end);
    assert Records(b, 0, 0) == [];
  }

  /** Overwriting the header of the first record makes it padding of length `n`;
      the block reads as intended exactly when `n` is the old length. */
  lemma PadBytes(b: Bytes, c: Bytes, end: nat, n: nat)
    requires 0 < end <= |b| && Tiles(b, 0, end) && RecLen(b, 0) <= n && EntryPut(b, c, 0, 0, n, [])
    ensures n == RecLen(b, 0) ==> Tiles(c, 0, end)
    ensures n == RecLen(b, 0) ==> Records(c, 0, end) == [Record(0, n, [])] + Records(b, n, end)
    ensures n != RecLen(b, 0) && Tiles(c, 0, end) ==> Records(c, 0, end)[0].recLen != RecordAt(b, 0).recLen
  {
    if n == RecLen(b, 0) {
      PadKeeps(b, c, end, n);
    } else if Tiles(c, 0, end) {
      assert Records(c, 0, end)[0] == RecordAt(c, 0);
    }
  }

  // ----- the two block operations -----

  method WriteAt(buf: array<Byte>, o: nat, s: Bytes)
    requires o + |s| <= buf.Length
    modifies buf
    ensures Written(old(buf[..]), buf[..], o, s)
  {
    for i := 0 to |s|
      invariant forall j :: 0 <= j < i ==> buf[o + j] == s[j]
      invariant forall j :: 0 <= j < buf.Length && !(o <= j < o + i) ==> buf[j] == old(buf[j])
    {
      buf[o + i] := s[i];
    }
    assert forall j :: 0 <= j < |s| ==> buf[..][o + j] == s[j];
  }

  method SetRecLen(buf: array<Byte>, o: nat, n: nat)
    requires o + HEADER <= buf.Length && n < 65536
    modifies buf
    ensures Resized(old(buf[..]), buf[..], o, n)
  {
    WriteAt(buf, o + 4, Le16(n));
    Le16Reads(n, buf[..], o + 4);
  }

  method PutEntry(buf: array<Byte>, o: nat, inode: nat, n: nat, name: Bytes)
    requires o + HEADER + |name| <= buf.Length && inode < 0x1_0000_0000 && n < 65536 && |name| <= 255
    modifies buf
    ensures EntryPut(old(buf[..]), buf[..], o, inode, n, name)
  {
    WriteAt(buf, o, EntryBytes(inode, n, name));
    EntryIsPut(old(buf[..]), buf[..], o, inode, n, name);
  }

  datatype Outcome = Inserted | NoRoom | Corrupted | BadName | Panicked

  /** Size of an entry with a name of `n` bytes, in 16-bit arithmetic; the sum can
      overflow, which panics. */
  function RecordLength(n: nat, recLen: nat): Option<nat> {
    var length := (HEADER + n) % 65536;
    if length + 3 >= 65536 then None else
      var rounded := (length + 3) / 4 * 4;
      Some(if rounded >= recLen then rounded else recLen)
  }

  /** For a name that can be stored it is the smallest record, or the given length. */
  lemma RecordLengthIs(n: nat, recLen: nat)
    requires n <= 510
    ensures RecordLength(n, recLen) == Some(if MinRecLen(n) >= recLen then MinRecLen(n) else recLen)
  {
    MinRecLenRounds(n);
    assert (HEADER + n) % 65536 == HEADER + n;
  }

  // ----- one entry by itself -----

  /** A directory entry in memory; its file type is always 0. */
  datatype Entry = Entry(inode: nat, recLen: nat, name: string)

  datatype Serialized = Done(size: nat) | BadStringLength | BufferTooSmall | IndexPanic

  /** Write the entry into the slice from `lo` on. A slice that holds the header but
      not the name makes an index panic. */
  method SerializeEntry(e: Entry, target: array<Byte>, lo: nat) returns (r: Serialized)
    requires lo <= target.Length && e.inode < 0x1_0000_0000 && e.recLen < 65536
    modifies target
    ensures r.Done? <==> |Utf8(e.name)| <= 255 && HEADER + |Utf8(e.name)| <= target.Length - lo
    ensures r.Done? ==>
              r.size == if MinRecLen(|Utf8(e.name)|) >= e.recLen then MinRecLen(|Utf8(e.name)|) else e.recLen
    ensures r.Done? ==> EntryPut(old(target[..]), target[..], lo, e.inode, r.size, Utf8(e.name))
    ensures r == BadStringLength <==> |Utf8(e.name)| > 255
    ensures r == BufferTooSmall <==> |Utf8(e.name)| <= 255 && target.Length - lo < HEADER
  {
    var name := Utf8(e.name);
    if |name| > 255 {
      return BadStringLength;
    }
    if target.Length - lo < HEADER {
      return BufferTooSmall;
    }
    if target.Length - lo < HEADER + |name| {
      return IndexPanic;
    }
    RecordLengthIs(|name|, e.recLen);
    var n := RecordLength(|name|, e.recLen).value;
    PutEntry(target, lo, e.inode, n, name);
    return Done(n);
  }

  /** Read an entry from the front of `input`; it fails exactly when the header or the
      name is cut short. */
  method DeserializeEntry(input: Bytes) returns (r: Option<(Entry, nat)>)
    ensures r == None <==> |input| < HEADER || |input| < HEADER + input[6] as int
    ensures r.Some? ==> r.value.0 == Entry(U32(input, 0), RecLen(input, 0), Latin1(input[HEADER..HEADER + input[6]]))
    ensures r.Some? ==> r.value.1 == RecLen(input, 0)
  {
    if |input| < HEADER {
      return None;
    }
    var nameLen := input[6] as int;
    var name: string := "";
    for i := 0 to nameLen
      invariant HEADER + i <= |input| && name == Latin1(input[HEADER..HEADER + i])
    {
      if i >= |input| - HEADER {
        return None;
      }
      name := name + [input[HEADER + i] as char];
    }
    return Some((Entry(U32(input, 0), RecLen(input, 0), name), RecLen(input, 0)));
  }

  /** An entry is read back as it was written exactly when its name is ASCII. */
  method EntryRoundTrip(e: Entry, target: array<Byte>) returns (r: Option<(Entry, nat)>)
    requires e.inode < 0x1_0000_0000 && MinRecLen(|Utf8(e.name)|) <= e.recLen < 65536
    requires |Utf8(e.name)| <= 255 && HEADER + |Utf8(e.name)| <= target.Length
    modifies target
    ensures r.Some? && r.value.1 == e.recLen
    ensures r == Some((e, e.recLen)) <==> Ascii(e.name)
  {
    var w := SerializeEntry(e, target, 0);
    ghost var c := target[..];
    assert c[0 + HEADER..0 + HEADER + |Utf8(e.name)|] == Utf8(e.name);
    ReadBackIff(e.name);
    r := DeserializeEntry(target[..]);
  }

  /** The block holds records only, and `o` is between two of them. */
  ghost predicate Boundary(b: Bytes, o: nat) {
    |b| == BLOCK_SIZE && o <= BLOCK_SIZE && Tiles(b, 0, o) && Tiles(b, o, BLOCK_SIZE)
  }

  function Block(b: Bytes): seq<Record>
    requires |b| == BLOCK_SIZE && Tiles(b, 0, BLOCK_SIZE)
  {
    Records(b, 0, BLOCK_SIZE)
  }

  lemma AtBoundary(b: Bytes, o: nat)
    requires Boundary(b, o)
    ensures Tiles(b, 0, BLOCK_SIZE) && Block(b) == Records(b, 0, o) + Records(b, o, BLOCK_SIZE)
  {
    TilesConcat(b, 0, o, BLOCK_SIZE);
  }

  /** What adding an entry to a block does, on its records. */
  ghost predicate AddEffect(b: Bytes, c: Bytes, child: nat, name: Bytes, out: Outcome)
    requires |b| == BLOCK_SIZE == |c| && Tiles(b, 0, BLOCK_SIZE)
  {
    if FirstFit(Block(b), MinRecLen(|name|)) < |Block(b)|
    then out == Inserted && Tiles(c, 0, BLOCK_SIZE) && Block(c) == Insert(Block(b), child, name)
    else out == NoRoom && c == b
  }

  lemma FitAt(p: seq<Record>, r: Record, q: seq<Record>, need: nat)
    requires FirstFit(p, need) == |p| && Slack(r) >= need
    ensures FirstFit(p + [r] + q, need) == |p|
  {
    FirstFitIs(p + [r] + q, need, 0, |p|);
  }

  lemma SplitAround(p: seq<Record>, r: Record, q: seq<Record>, small: nat, e: Record)
    ensures (p + [r] + q)[|p|] == r && Split(p + [r] + q, |p|, small, e) == p + [r.(recLen := small), e] + q
  {
  }

  lemma InsertAt(p: seq<Record>, r: Record, q: seq<Record>, child: nat, name: Bytes)
    requires FirstFit(p, MinRecLen(|name|)) == |p| && Slack(r) >= MinRecLen(|name|)
    ensures FirstFit(p + [r] + q, MinRecLen(|name|)) == |p|
    ensures Insert(p + [r] + q, child, name)
            == p + [r.(recLen := MinRecLen(|r.name|)), Record(child, Slack(r), name)] + q
  {
    FitAt(p, r, q, MinRecLen(|name|));
    SplitAround(p, r, q, MinRecLen(|r.name|), Record(child, Slack(r), name));
  }

  lemma BlockAt(b: Bytes, o: nat)
    requires Boundary(b, o) && o < BLOCK_SIZE
    ensures RecOk(b, o, BLOCK_SIZE) && Boundary(b, o + RecLen(b, o))
    ensures Records(b, 0, o + RecLen(b, o)) == Records(b, 0, o) + [RecordAt(b, o)]
    ensures Tiles(b, 0, BLOCK_SIZE)
    ensures Block(b) == Records(b, 0, o) + [RecordAt(b, o)] + Records(b, o + RecLen(b, o), BLOCK_SIZE)
  {
    Advance(b, o, BLOCK_SIZE);
    AtBoundary(b, o + RecLen(b, o));
  }

  lemma NameSize(b: Bytes, o: nat)
    requires RecOk(b, o, |b|)
    ensures |RecordAt(b, o).name| == b[o + 6] as int
    ensures Slack(RecordAt(b, o)) == RecLen(b, o) - MinRecLen(b[o + 6])
  {
  }

  /** The scan has found room at `o`. */
  lemma AddHere(b: Bytes, x: Bytes, c: Bytes, o: nat, m: nat, n: nat, child: nat, name: Bytes)
    requires Boundary(b, o) && o < BLOCK_SIZE && FirstFit(Records(b, 0, o), MinRecLen(|name|)) == |Records(b, 0, o)|
    requires m == MinRecLen(b[o + 6]) && n == RecLen(b, o) && n - m >= MinRecLen(|name|)
    requires Resized(b, x, o, m) && EntryPut(x, c, o + m, child, n - m, name)
    ensures Tiles(b, 0, BLOCK_SIZE) && AddEffect(b, c, child, name, Inserted)
  {
    NameSize(b, o);
    var p, r, q := Records(b, 0, o), RecordAt(b, o), Records(b, o + n, BLOCK_SIZE);
    assert Tiles(b, 0, BLOCK_SIZE) && Block(b) == p + [r] + q by {
      BlockAt(b, o);
    }
    assert |c| == BLOCK_SIZE && Tiles(c, 0, BLOCK_SIZE)
           && Block(c) == p + [r.(recLen := m), Record(child, n - m, name)] + q by {
      SplitBytes(b, x, c, o, BLOCK_SIZE, m, n, child, name);
    }
    InsertAt(p, r, q, child, name);
    assert Record(child, Slack(r), name) == Record(child, n - m, name);
    assert r.(recLen := MinRecLen(|r.name|)) == r.(recLen := m);
  }

  /** The scan looks at the record at `o` and goes on when it lacks the room. */
  lemma ScanAt(b: Bytes, o: nat, need: nat)
    requires Boundary(b, o) && o < BLOCK_SIZE && FirstFit(Records(b, 0, o), need) == |Records(b, 0, o)|
    ensures RecOk(b, o, BLOCK_SIZE) && U16(b, o + 6) == b[o + 6] as int && Boundary(b, o + RecLen(b, o))
    ensures RecLen(b, o) - MinRecLen(b[o + 6]) < need ==>
              FirstFit(Records(b, 0, o + RecLen(b, o)), need) == |Records(b, 0, o + RecLen(b, o))|
  {
    BlockAt(b, o);
    NameSize(b, o);
    if Slack(RecordAt(b, o)) < need {
      FitSnoc(Records(b, 0, o), RecordAt(b, o), need);
    }
  }

  lemma FitSnoc(p: seq<Record>, r: Record, need: nat)
    requires FirstFit(p, need) == |p| && Slack(r) < need
    ensures FirstFit(p + [r], need) == |p + [r]|
  {
    FirstFitAfter(p, [r], need);
  }

  /** Shrink the record at `o` and write the entry behind it. */
  method InsertEntry(buf: array<Byte>, o: nat, m: nat, n: nat, child: nat, name: Bytes)
    requires buf.Length == BLOCK_SIZE && child < 0x1_0000_0000 && |name| <= 255
    requires HEADER <= m && o + m + HEADER + |name| <= o + n <= BLOCK_SIZE
    modifies buf
    ensures Boundary(old(buf[..]), o) && o < BLOCK_SIZE && m == MinRecLen(old(buf[..])[o + 6])
            && n == RecLen(old(buf[..]), o) && n - m >= MinRecLen(|name|)
            && FirstFit(Records(old(buf[..]), 0, o), MinRecLen(|name|)) == |Records(old(buf[..]), 0, o)| ==>
              Tiles(old(buf[..]), 0, BLOCK_SIZE) && AddEffect(old(buf[..]), buf[..], child, name, Inserted)
  {
    ghost var b := buf[..];
    SetRecLen(buf, o, m);
    ghost var x := buf[..];
    PutEntry(buf, o + m, child, n - m, name);
    if Boundary(b, o) && o < BLOCK_SIZE && m == MinRecLen(b[o + 6]) && n == RecLen(b, o) && n - m >= MinRecLen(|name|)
       && FirstFit(Records(b, 0, o), MinRecLen(|name|)) == |Records(b, 0, o)| {
      AddHere(b, x, buf[..], o, m, n, child, name);
    }
  }

  /** What is wrong with the record at `o`, if anything: it reaches past the block, or the
      slice or the 16-bit arithmetic on its header panics. */
  function HeaderFault(b: Bytes, o: nat): Option<Outcome>
    requires |b| == BLOCK_SIZE
  {
    if o + HEADER > BLOCK_SIZE then Some(Panicked)
    else if BLOCK_SIZE < o + RecLen(b, o) < 65536 then Some(Corrupted)
    else if o + RecLen(b, o) >= 65536 || U16(b, o + 6) >= 65536 - 11 || RecLen(b, o) < MinRecLen(U16(b, o + 6))
    then Some(Panicked) else None
  }

  /** The header of the record at `o`, with the checks and the 16-bit arithmetic that
      can fail on it: its length and the length its name needs. */
  method ReadHeader(buf: array<Byte>, o: nat) returns (bad: Option<Outcome>, recLen: nat, min: nat)
    requires buf.Length == BLOCK_SIZE
    ensures bad == HeaderFault(buf[..], o)
    ensures bad == None ==> recLen == RecLen(buf[..], o) && min == MinRecLen(U16(buf[..], o + 6))
  {
    recLen, min := 0, 0;
    if o + HEADER > buf.Length {
      return Some(Panicked), 0, 0;
    }
    recLen := U16(buf[..], o + 4);
    var nameLen := U16(buf[..], o + 6);
    if recLen + o >= 65536 {
      return Some(Panicked), 0, 0;
    }
    if recLen + o > BLOCK_SIZE {
      return Some(Corrupted), 0, 0;
    }
    if HEADER + nameLen + 3 >= 65536 {
      return Some(Panicked), 0, 0;
    }
    min := (HEADER + nameLen + 3) / 4 * 4;
    MinRecLenRounds(nameLen);
    if recLen < min {
      return Some(Panicked), 0, 0;
    }
    bad := None;
  }

  /** What the scan of any block from `o` on comes to, for an entry of `need` bytes: the
      first record with that much slack, the first fault, or neither. */
  function RoomFrom(b: Bytes, o: nat, need: nat): Outcome
    requires |b| == BLOCK_SIZE
    decreases BLOCK_SIZE - o
  {
    if o >= BLOCK_SIZE then NoRoom
    else if HeaderFault(b, o).Some? then HeaderFault(b, o).value
    else if RecLen(b, o) - MinRecLen(U16(b, o + 6)) >= need then Inserted
    else RoomFrom(b, o + RecLen(b, o), need)
  }

  /** The scan of a tiled block is at the record at `o`; those before it lack the room. */
  ghost predicate Passed(b: Bytes, o: nat, need: nat) {
    Boundary(b, o) && FirstFit(Records(b, 0, o), need) == |Records(b, 0, o)|
  }

  lemma PassStart(b: Bytes, need: nat)
    requires |b| == BLOCK_SIZE && Tiles(b, 0, BLOCK_SIZE)
    ensures Passed(b, 0, need)
  {
  }

  lemma PassStep(b: Bytes, o: nat, need: nat)
    requires Passed(b, o, need) && o < BLOCK_SIZE
    ensures HeaderFault(b, o) == None && U16(b, o + 6) == b[o + 6] as int
    ensures RecLen(b, o) - MinRecLen(b[o + 6]) < need ==> Passed(b, o + RecLen(b, o), need)
  {
    ScanAt(b, o, need);
  }

  lemma PassedAll(b: Bytes, o: nat, child: nat, name: Bytes)
    requires Passed(b, o, MinRecLen(|name|)) && o >= BLOCK_SIZE
    ensures Tiles(b, 0, BLOCK_SIZE) && AddEffect(b, b, child, name, NoRoom)
  {
    AtBoundary(b, o);
  }

  /** Put the entry where the scan of any block finds room first. On a block that records
      tile the effect is the insertion into the list of records. */
  method AddEntryInBlock(buf: array<Byte>, child: nat, name: Bytes) returns (out: Outcome)
    requires buf.Length == BLOCK_SIZE && child < 0x1_0000_0000
    modifies buf
    ensures |name| <= 255 ==> out == RoomFrom(old(buf[..]), 0, MinRecLen(|name|))
    ensures |name| > 255 ==> out != Inserted
    ensures out != Inserted && out != BadName ==> buf[..] == old(buf[..])
    ensures |name| <= 255 && Tiles(old(buf[..]), 0, BLOCK_SIZE) ==>
              AddEffect(old(buf[..]), buf[..], child, name, out)
  {
    ghost var b := buf[..];
    ghost var good := Tiles(b, 0, BLOCK_SIZE) && |name| <= 255;
    var length := RecordLength(|name|, 0);
    if |name| <= 255 {
      RecordLengthIs(|name|, 0);
    }
    if length == None {
      return Panicked;
    }
    var need := length.value;
    var progr := 0;
    if good {
      PassStart(b, need);
    }
    while progr < buf.Length
      invariant progr >= 0 && buf[..] == b
      invariant |name| <= 255 ==> need == MinRecLen(|name|) && RoomFrom(b, 0, need) == RoomFrom(b, progr, need)
      invariant good ==> Passed(b, progr, need)
      decreases BLOCK_SIZE - progr
    {
      var bad, recLen, min := ReadHeader(buf, progr);
      if good {
        PassStep(b, progr, need);
      }
      if bad.Some? {
        return bad.value;
      }
      if recLen - min >= need {
        if |name| > 255 {
          SetRecLen(buf, progr, min);
          return BadName;
        }
        InsertEntry(buf, progr, min, recLen, child, name);
        return Inserted;
      }
      progr := progr + recLen;
    }
    if good {
      PassedAll(b, progr, child, name);
    }
    return NoRoom;
  }

  // ----- looking a name up in a block, and deleting it -----

  lemma MatchHere(p: seq<Record>, r: Record, q: seq<Record>, name: string)
    requires FirstMatch(p, name) == |p|
    ensures Matches(r, name) ==> FirstMatch(p + [r] + q, name) == |p| && Find(p + [r] + q, name) == Some(r.inode)
    ensures !Matches(r, name) ==> FirstMatch(p + [r], name) == |p + [r]|
  {
    MatchAfter(p, [r], name);
    assert p + [r] + q == p + ([r] + q);
    MatchAfter(p, [r] + q, name);
  }

  /** The scan looks at the record at `o`. */
  lemma SeekAt(b: Bytes, o: nat, name: string)
    requires Boundary(b, o) && o < BLOCK_SIZE && FirstMatch(Records(b, 0, o), name) == |Records(b, 0, o)|
    ensures RecOk(b, o, BLOCK_SIZE) && Boundary(b, o + RecLen(b, o)) && Tiles(b, 0, BLOCK_SIZE)
    ensures Matches(RecordAt(b, o), name) ==> Find(Block(b), name) == Some(RecordAt(b, o).inode)
    ensures Matches(RecordAt(b, o), name) ==> FirstMatch(Block(b), name) == |Records(b, 0, o)|
    ensures !Matches(RecordAt(b, o), name) ==>
              FirstMatch(Records(b, 0, o + RecLen(b, o)), name) == |Records(b, 0, o + RecLen(b, o))|
  {
    BlockAt(b, o);
    MatchHere(Records(b, 0, o), RecordAt(b, o), Records(b, o + RecLen(b, o), BLOCK_SIZE), name);
  }

  lemma RemoveInside(p: seq<Record>, r: Record, x: Record, q: seq<Record>, n: nat)
    requires n == r.recLen + x.recLen
    ensures Remove(p + [r] + [x] + q, |p| + 1) == p + [r.(recLen := n)] + q
  {
    assert r.(recLen := n) == r.(recLen := r.recLen + x.recLen);
  }

  lemma BlockPair(b: Bytes, p: nat, o: nat, n: nat)
    returns (f: seq<Record>, r: Record, x: Record, q: seq<Record>)
    requires Boundary(b, p) && p < o < BLOCK_SIZE && o == p + RecLen(b, p) && Boundary(b, o)
    requires n == RecLen(b, p) + RecLen(b, o)
    ensures RecOk(b, p, BLOCK_SIZE) && RecOk(b, o, BLOCK_SIZE) && Boundary(b, p + n) && Tiles(b, 0, BLOCK_SIZE)
    ensures f == Records(b, 0, p) && r == RecordAt(b, p) && q == Records(b, p + n, BLOCK_SIZE)
    ensures |Records(b, 0, o)| == |f| + 1 && r.recLen + x.recLen == n && Block(b) == f + [r] + [x] + q
  {
    BlockAt(b, p);
    BlockAt(b, o);
    f, r, x, q := Records(b, 0, p), RecordAt(b, p), RecordAt(b, o), Records(b, p + n, BLOCK_SIZE);
  }

  /** The record at `o`, behind the one at `p`, is deleted by merging. */
  lemma MergeHere(b: Bytes, c: Bytes, p: nat, o: nat, n: nat)
    requires Boundary(b, p) && p < o < BLOCK_SIZE && o == p + RecLen(b, p) && Boundary(b, o)
    requires n == RecLen(b, p) + RecLen(b, o) && Resized(b, c, p, n)
    ensures Tiles(b, 0, BLOCK_SIZE) && |Records(b, 0, o)| < |Block(b)|
    ensures |c| == |b| && Tiles(c, 0, BLOCK_SIZE) && Block(c) == Remove(Block(b), |Records(b, 0, o)|)
  {
    var f, r, x, q := BlockPair(b, p, o, n);
    MergeBytes(b, c, p, o, BLOCK_SIZE, n);
    RemoveInside(f, r, x, q, n);
  }

  /** The first record is deleted by turning it into padding of length `n`. */
  lemma PadHere(b: Bytes, c: Bytes, n: nat)
    requires |b| == BLOCK_SIZE && Tiles(b, 0, BLOCK_SIZE) && RecLen(b, 0) <= n && EntryPut(b, c, 0, 0, n, [])
    ensures Block(b) != [] && Block(b)[0] == RecordAt(b, 0)
    ensures (Tiles(c, 0, BLOCK_SIZE) && Block(c) == Remove(Block(b), 0)) <==> n == RecLen(b, 0)
  {
    BlockAt(b, 0);
    PadBytes(b, c, BLOCK_SIZE, n);
    var q := Records(b, RecLen(b, 0), BLOCK_SIZE);
    assert Records(b, 0, 0) == [];
    assert Block(b) == [RecordAt(b, 0)] + q;
    assert Remove([RecordAt(b, 0)] + q, 0) == [Record(0, RecLen(b, 0), [])] + q;
  }

  lemma {:induction false} Utf8Latin1(b: Bytes)
    ensures |Utf8(Latin1(b))| <= 2 * |b|
  {
    if b != [] {
      var n := |b| - 1;
      Utf8Latin1(b[..n]);
      assert Latin1(b)[..n] == Latin1(b[..n]);
    }
  }

  /** The name, written out again, fits the record it is deleted from; it may not
      when it is the first record and the name has bytes above 127. */
  ghost predicate PadFits(l: seq<Record>, name: string)
    requires FirstMatch(l, name) < |l|
  {
    FirstMatch(l, name) > 0 || MinRecLen(|Utf8(name)|) <= l[0].recLen
  }

  /** Four bytes above 127 in the first record, with no slack: written out again the
      name needs eight. */
  lemma PadTooShort(q: seq<Record>)
    ensures var r := Record(5, 12, [255, 255, 255, 255]); var name := Latin1(r.name);
            FirstMatch([r] + q, name) == 0 && !PadFits([r] + q, name)
  {
    var r := Record(5, 12, [255, 255, 255, 255]);
    var name, c := Latin1(r.name), 255 as char;
    assert name == [c, c, c, c];
    assert c as int == 255 && |Utf8Char(c)| == 2;
    Utf8Snoc([], c);
    assert [] + [c] == [c] && [c] + [c] == [c, c] && [c, c] + [c] == [c, c, c] && [c, c, c] + [c] == name;
    Utf8Snoc([c], c);
    Utf8Snoc([c, c], c);
    Utf8Snoc([c, c, c], c);
  }

  lemma Utf8Snoc(s: string, c: char)
    ensures Utf8(s + [c]) == Utf8(s) + Utf8Char(c)
  {
    assert (s + [c])[..|s|] == s;
  }

  ghost predicate DeleteEffect(b: Bytes, c: Bytes, name: string)
    requires |b| == BLOCK_SIZE == |c| && Tiles(b, 0, BLOCK_SIZE) && FirstMatch(Block(b), name) < |Block(b)|
  {
    (Tiles(c, 0, BLOCK_SIZE) && Block(c) == Remove(Block(b), FirstMatch(Block(b), name)))
    <==> PadFits(Block(b), name)
  }

  /** How a lookup fails: an entry does not fit the block, its length is more than the
      size that is left, a length of zero keeps it in place for ever, or the merged
      length does not fit 16 bits. */
  datatype Fault = CutShort | SizeUnderflow | NoEnd | LengthOverflow

  /** The entry at `o`, whether or not its length makes sense. */
  function EntryAt(b: Bytes, o: nat): Record
    requires o + HEADER <= |b| && o + HEADER + b[o + 6] <= |b|
  {
    Record(U32(b, o), RecLen(b, o), b[o + HEADER..o + HEADER + b[o + 6]])
  }

  /** What a lookup meets first, from `o` on, with `left` bytes of the directory to go. */
  datatype Sighting = Hit(inode: nat) | Nothing | Broken(fault: Fault)

  function Sight(b: Bytes, name: string, o: nat, left: nat): Sighting
    requires |b| == BLOCK_SIZE
    decreases BLOCK_SIZE - o
  {
    if o >= BLOCK_SIZE then Nothing
    else if o + HEADER > BLOCK_SIZE || o + HEADER + b[o + 6] > BLOCK_SIZE then Broken(CutShort)
    else
      var r := EntryAt(b, o);
      if r.recLen > left then Broken(SizeUnderflow)
      else if Matches(r, name) then Hit(r.inode)
      else if r.recLen == left then Nothing
      else if r.recLen == 0 then Broken(NoEnd)
      else Sight(b, name, o + r.recLen, left - r.recLen)
  }

  /** In a tiled block, with its whole size to go, that is the first match. */
  lemma {:induction false} SightTiled(b: Bytes, name: string, o: nat, left: nat)
    requires Boundary(b, o) && Tiles(b, 0, BLOCK_SIZE) && left >= BLOCK_SIZE - o
    requires FirstMatch(Records(b, 0, o), name) == |Records(b, 0, o)|
    ensures Sight(b, name, o, left) ==
            if Find(Block(b), name).Some? then Hit(Find(Block(b), name).value) else Nothing
    decreases BLOCK_SIZE - o
  {
    if o == BLOCK_SIZE {
      AtBoundary(b, o);
    } else {
      SeekAt(b, o, name);
      SightStep(b, name, o, left);
      if !Matches(RecordAt(b, o), name) {
        SightTiled(b, name, o + RecLen(b, o), left - RecLen(b, o));
      }
    }
  }

  lemma SightStep(b: Bytes, name: string, o: nat, left: nat)
    requires |b| == BLOCK_SIZE && RecOk(b, o, BLOCK_SIZE) && RecLen(b, o) <= left
    requires RecLen(b, o) == left ==> o + left >= BLOCK_SIZE
    ensures Sight(b, name, o, left) ==
            if Matches(RecordAt(b, o), name) then Hit(RecordAt(b, o).inode)
            else Sight(b, name, o + RecLen(b, o), left - RecLen(b, o))
  {
    assert EntryAt(b, o) == RecordAt(b, o);
  }

  /** The block is tiled, `this_` is where its first match is, and `last` is the record
      before it. */
  ghost predicate AtMatch(b: Bytes, last: nat, this_: nat, name: string) {
    && this_ < BLOCK_SIZE && Boundary(b, this_) && RecOk(b, this_, BLOCK_SIZE)
    && FirstMatch(Records(b, 0, this_), name) == |Records(b, 0, this_)| && Matches(RecordAt(b, this_), name)
    && if this_ == 0 then last == 0
       else last < this_ && Boundary(b, last) && last + RecLen(b, last) == this_
  }

  /** Delete the entry at `this_`. In a tiled block that reads as its removal exactly when
      the name fits; in any other the lengths can overflow. */
  method DeleteAt(buf: array<Byte>, last: nat, this_: nat, name: string) returns (ok: bool)
    requires buf.Length == BLOCK_SIZE && last <= this_ && this_ + HEADER <= BLOCK_SIZE
    requires this_ + HEADER + buf[this_ + 6] <= BLOCK_SIZE && Matches(EntryAt(buf[..], this_), name)
    modifies buf
    ensures !ok ==> buf[..] == old(buf[..])
    ensures ok <==> last == this_ || old(RecLen(buf[..], last) + RecLen(buf[..], this_)) < 65536
    ensures AtMatch(old(buf[..]), last, this_, name) ==>
              && ok && Tiles(old(buf[..]), 0, BLOCK_SIZE)
              && FirstMatch(Block(old(buf[..])), name) < |Block(old(buf[..]))|
              && DeleteEffect(old(buf[..]), buf[..], name)
  {
    ghost var b := buf[..];
    if this_ == last {
      PadFirst(buf, this_, name);
    } else {
      var n := RecLen(buf[..], last) + RecLen(buf[..], this_);
      if n >= 65536 {
        if AtMatch(b, last, this_, name) {
          SeekAt(b, this_, name);
        }
        return false;
      }
      SetRecLen(buf, last, n);
      if AtMatch(b, last, this_, name) {
        SeekAt(b, this_, name);
        MergeHere(b, buf[..], last, this_, n);
      }
    }
    ok := true;
  }

  /** Turn the first entry into padding. */
  method PadFirst(buf: array<Byte>, this_: nat, name: string)
    requires buf.Length == BLOCK_SIZE && this_ + HEADER <= BLOCK_SIZE
    requires this_ + HEADER + buf[this_ + 6] <= BLOCK_SIZE && Matches(EntryAt(buf[..], this_), name)
    modifies buf
    ensures AtMatch(old(buf[..]), this_, this_, name) ==>
              && Tiles(old(buf[..]), 0, BLOCK_SIZE)
              && FirstMatch(Block(old(buf[..])), name) < |Block(old(buf[..]))|
              && DeleteEffect(old(buf[..]), buf[..], name)
  {
    ghost var b := buf[..];
    Utf8Latin1(EntryAt(b, this_).name);
    var recLen := RecLen(buf[..], this_);
    RecordLengthIs(|Utf8(name)|, recLen);
    var n := RecordLength(|Utf8(name)|, recLen).value;
    PutEntry(buf, 0, 0, n, []);
    if AtMatch(b, this_, this_, name) {
      SeekAt(b, this_, name);
      PadHere(b, buf[..], n);
    }
  }

  /** The outcome of a lookup that meets `sight` first. */
  ghost predicate Meets(sight: Sighting, delete: bool, res: Option<nat>, fault: Option<Fault>) {
    match sight
    case Hit(inode) =>
      if fault == None then res == Some(inode) else res == None && delete && fault == Some(LengthOverflow)
    case Nothing => res == None && fault == None
    case Broken(f) => res == None && fault == Some(f)
  }

  /** One turn of the lookup, at entry `o`. */
  method FindTurn(buf: array<Byte>, name: string, delete: bool, last: nat, o: nat, left: nat, ghost good: bool)
    returns (stop: bool, res: Option<nat>, terminated: bool, rem: nat, fault: Option<Fault>, n: nat)
    requires buf.Length == BLOCK_SIZE && o < BLOCK_SIZE && last <= o
    requires good ==> Tiles(buf[..], 0, BLOCK_SIZE) && Unmatched(buf[..], name, last, o) && left >= BLOCK_SIZE - o
    modifies buf
    ensures !(stop && delete && res.Some?) ==> buf[..] == old(buf[..])
    ensures if stop then Meets(Sight(old(buf[..]), name, o, left), delete, res, fault)
            else n > 0 && Sight(old(buf[..]), name, o, left) == Sight(old(buf[..]), name, o + n, rem)
    ensures good && stop ==>
              fault == None && TiledLookup(old(buf[..]), buf[..], name, delete, left + o, res, terminated, rem)
    ensures good && !stop ==> Unmatched(old(buf[..]), name, o, o + n) && rem == left - n
  {
    ghost var b := buf[..];
    if good {
      SeekAt(b, o, name);
    }
    stop, res, terminated, rem, fault, n := true, None, false, left, None, 0;
    if o + HEADER > BLOCK_SIZE || o + HEADER + buf[o + 6] > BLOCK_SIZE {
      fault := Some(CutShort);
      return;
    }
    var entry := EntryAt(buf[..], o);
    n := entry.recLen;
    if n > left {
      fault := Some(SizeUnderflow);
      return;
    }
    rem := left - n;
    if Matches(entry, name) {
      res, fault := TakeMatch(buf, name, delete, last, o, entry.inode);
      terminated := rem == 0;
    } else if rem == 0 {
      terminated := IsDots(Latin1(entry.name));
      if good {
        AtBoundary(b, o + n);
      }
    } else if n == 0 {
      fault := Some(NoEnd);
    } else {
      stop := false;
    }
  }

  /** The entry at `o` has the name. */
  method TakeMatch(buf: array<Byte>, name: string, delete: bool, last: nat, o: nat, inode: nat)
    returns (res: Option<nat>, fault: Option<Fault>)
    requires buf.Length == BLOCK_SIZE && last <= o && o + HEADER <= BLOCK_SIZE
    requires o + HEADER + buf[o + 6] <= BLOCK_SIZE && Matches(EntryAt(buf[..], o), name)
    modifies buf
    ensures Meets(Hit(inode), delete, res, fault)
    ensures !(delete && res.Some?) ==> buf[..] == old(buf[..])
    ensures AtMatch(old(buf[..]), last, o, name) ==>
              && fault == None && Tiles(old(buf[..]), 0, BLOCK_SIZE)
              && FirstMatch(Block(old(buf[..])), name) < |Block(old(buf[..]))|
              && (delete ==> DeleteEffect(old(buf[..]), buf[..], name))
  {
    ghost var b := buf[..];
    if AtMatch(b, last, o, name) {
      SeekAt(b, o, name);
    }
    res, fault := Some(inode), None;
    if delete {
      var ok := DeleteAt(buf, last, o, name);
      if !ok {
        res, fault := None, Some(LengthOverflow);
      }
    }
  }

  /** Look a name up in any block. On a tiled block, with its whole size to go, the first
      match is found; on every other the outcome is what `Sight` meets first. */
  method FindInBlock(buf: array<Byte>, name: string, delete: bool, remaining: nat)
    returns (res: Option<nat>, terminated: bool, rem: nat, fault: Option<Fault>)
    requires buf.Length == BLOCK_SIZE
    modifies buf
    ensures Meets(Sight(old(buf[..]), name, 0, remaining), delete, res, fault)
    ensures !(delete && res.Some?) ==> buf[..] == old(buf[..])
    ensures Tiles(old(buf[..]), 0, BLOCK_SIZE) && remaining >= BLOCK_SIZE ==>
              TiledLookup(old(buf[..]), buf[..], name, delete, remaining, res, terminated, rem) && fault == None
  {
    ghost var b := buf[..];
    ghost var good := Tiles(b, 0, BLOCK_SIZE) && remaining >= BLOCK_SIZE;
    rem, res, terminated, fault := remaining, None, false, None;
    var progr: nat, lastIdx: nat := 0, 0;
    while progr < BLOCK_SIZE
      invariant buf[..] == b && res == None && fault == None && !terminated && lastIdx <= progr
      invariant Sight(b, name, 0, remaining) == Sight(b, name, progr, rem)
      invariant good ==> Unmatched(b, name, lastIdx, progr) && rem == remaining - progr
      decreases BLOCK_SIZE - progr
    {
      var stop, n;
      stop, res, terminated, rem, fault, n := FindTurn(buf, name, delete, lastIdx, progr, rem, good);
      if stop {
        return;
      }
      res, terminated, fault := None, false, None;
      lastIdx, progr := progr, progr + n;
    }
    if good {
      AtBoundary(b, progr);
    }
  }

  /** Records tile the block up to `o`, the last of them at `last`; none has the name. */
  ghost predicate Unmatched(b: Bytes, name: string, last: nat, o: nat) {
    && Boundary(b, o) && FirstMatch(Records(b, 0, o), name) == |Records(b, 0, o)|
    && if o == 0 then last == 0 else last < o && Boundary(b, last) && last + RecLen(b, last) == o
  }

  /** The lookup in a tiled block. */
  ghost predicate TiledLookup(b: Bytes, c: Bytes, name: string, delete: bool, remaining: nat,
                              res: Option<nat>, terminated: bool, rem: nat)
    requires |b| == BLOCK_SIZE == |c| && Tiles(b, 0, BLOCK_SIZE)
  {
    && res == Find(Block(b), name)
    && (delete && res.Some? ==> DeleteEffect(b, c, name))
    && (terminated ==> remaining == BLOCK_SIZE)
    && (res == None ==> rem == remaining - BLOCK_SIZE)
  }
}
