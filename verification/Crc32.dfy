/** CRC-32, computed a byte at a time from a table of 256 words. The reference is the
    bit-at-a-time division by the reflected polynomial of section 8 of RFC 1952.
 */
module Crc32 {

  const POLY: bv32 := 0xEDB88320

  // ----- bit at a time -----

  /** Divide by one bit. */
  function Step(c: bv32): bv32 {
    if c & 1 == 1 then (c >> 1) ^ POLY else c >> 1
  }

  function Step8(c: bv32): bv32 {
    Step(Step(Step(Step(Step(Step(Step(Step(c))))))))
  }

  /** Divide by one byte. */
  function Next(c: bv32, d: bv8): bv32 {
    Step8(c ^ (d as bv32))
  }

  /** The remainder after the bytes, from the running remainder `c`. */
  function Divide(c: bv32, data: seq<bv8>): bv32 {
    if data == [] then c else Next(Divide(c, data[..|data| - 1]), data[|data| - 1])
  }

  /** The checksum: the register starts with all ones and is complemented at the end. */
  function Checksum(data: seq<bv8>): bv32 {
    Divide(0xFFFFFFFF, data) ^ 0xFFFFFFFF
  }

  // ----- the table -----

  /** The table, eight words to a row. */
  function Row(r: nat): (row: seq<bv32>)
    requires r < 32
    ensures |row| == 8
  {
    match r
    case 0 => [0x00000000, 0x77073096, 0xee0e612c, 0x990951ba, 0x076dc419, 0x706af48f, 0xe963a535, 0x9e6495a3]
    case 1 => [0x0edb8832, 0x79dcb8a4, 0xe0d5e91e, 0x97d2d988, 0x09b64c2b, 0x7eb17cbd, 0xe7b82d07, 0x90bf1d91]
    case 2 => [0x1db71064, 0x6ab020f2, 0xf3b97148, 0x84be41de, 0x1adad47d, 0x6ddde4eb, 0xf4d4b551, 0x83d385c7]
    case 3 => [0x136c9856, 0x646ba8c0, 0xfd62f97a, 0x8a65c9ec, 0x14015c4f, 0x63066cd9, 0xfa0f3d63, 0x8d080df5]
    case 4 => [0x3b6e20c8, 0x4c69105e, 0xd56041e4, 0xa2677172, 0x3c03e4d1, 0x4b04d447, 0xd20d85fd, 0xa50ab56b]
    case 5 => [0x35b5a8fa, 0x42b2986c, 0xdbbbc9d6, 0xacbcf940, 0x32d86ce3, 0x45df5c75, 0xdcd60dcf, 0xabd13d59]
    case 6 => [0x26d930ac, 0x51de003a, 0xc8d75180, 0xbfd06116, 0x21b4f4b5, 0x56b3c423, 0xcfba9599, 0xb8bda50f]
    case 7 => [0x2802b89e, 0x5f058808, 0xc60cd9b2, 0xb10be924, 0x2f6f7c87, 0x58684c11, 0xc1611dab, 0xb6662d3d]
    case 8 => [0x76dc4190, 0x01db7106, 0x98d220bc, 0xefd5102a, 0x71b18589, 0x06b6b51f, 0x9fbfe4a5, 0xe8b8d433]
    case 9 => [0x7807c9a2, 0x0f00f934, 0x9609a88e, 0xe10e9818, 0x7f6a0dbb, 0x086d3d2d, 0x91646c97, 0xe6635c01]
    case 10 => [0x6b6b51f4, 0x1c6c6162, 0x856530d8, 0xf262004e, 0x6c0695ed, 0x1b01a57b, 0x8208f4c1, 0xf50fc457]
    case 11 => [0x65b0d9c6, 0x12b7e950, 0x8bbeb8ea, 0xfcb9887c, 0x62dd1ddf, 0x15da2d49, 0x8cd37cf3, 0xfbd44c65]
    case 12 => [0x4db26158, 0x3ab551ce, 0xa3bc0074, 0xd4bb30e2, 0x4adfa541, 0x3dd895d7, 0xa4d1c46d, 0xd3d6f4fb]
    case 13 => [0x4369e96a, 0x346ed9fc, 0xad678846, 0xda60b8d0, 0x44042d73, 0x33031de5, 0xaa0a4c5f, 0xdd0d7cc9]
    case 14 => [0x5005713c, 0x270241aa, 0xbe0b1010, 0xc90c2086, 0x5768b525, 0x206f85b3, 0xb966d409, 0xce61e49f]
    case 15 => [0x5edef90e, 0x29d9c998, 0xb0d09822, 0xc7d7a8b4, 0x59b33d17, 0x2eb40d81, 0xb7bd5c3b, 0xc0ba6cad]
    case 16 => [0xedb88320, 0x9abfb3b6, 0x03b6e20c, 0x74b1d29a, 0xead54739, 0x9dd277af, 0x04db2615, 0x73dc1683]
    case 17 => [0xe3630b12, 0x94643b84, 0x0d6d6a3e, 0x7a6a5aa8, 0xe40ecf0b, 0x9309ff9d, 0x0a00ae27, 0x7d079eb1]
    case 18 => [0xf00f9344, 0x8708a3d2, 0x1e01f268, 0x6906c2fe, 0xf762575d, 0x806567cb, 0x196c3671, 0x6e6b06e7]
    case 19 => [0xfed41b76, 0x89d32be0, 0x10da7a5a, 0x67dd4acc, 0xf9b9df6f, 0x8ebeeff9, 0x17b7be43, 0x60b08ed5]
    case 20 => [0xd6d6a3e8, 0xa1d1937e, 0x38d8c2c4, 0x4fdff252, 0xd1bb67f1, 0xa6bc5767, 0x3fb506dd, 0x48b2364b]
    case 21 => [0xd80d2bda, 0xaf0a1b4c, 0x36034af6, 0x41047a60, 0xdf60efc3, 0xa867df55, 0x316e8eef, 0x4669be79]
    case 22 => [0xcb61b38c, 0xbc66831a, 0x256fd2a0, 0x5268e236, 0xcc0c7795, 0xbb0b4703, 0x220216b9, 0x5505262f]
    case 23 => [0xc5ba3bbe, 0xb2bd0b28, 0x2bb45a92, 0x5cb36a04, 0xc2d7ffa7, 0xb5d0cf31, 0x2cd99e8b, 0x5bdeae1d]
    case 24 => [0x9b64c2b0, 0xec63f226, 0x756aa39c, 0x026d930a, 0x9c0906a9, 0xeb0e363f, 0x72076785, 0x05005713]
    case 25 => [0x95bf4a82, 0xe2b87a14, 0x7bb12bae, 0x0cb61b38, 0x92d28e9b, 0xe5d5be0d, 0x7cdcefb7, 0x0bdbdf21]
    case 26 => [0x86d3d2d4, 0xf1d4e242, 0x68ddb3f8, 0x1fda836e, 0x81be16cd, 0xf6b9265b, 0x6fb077e1, 0x18b74777]
    case 27 => [0x88085ae6, 0xff0f6a70, 0x66063bca, 0x11010b5c, 0x8f659eff, 0xf862ae69, 0x616bffd3, 0x166ccf45]
    case 28 => [0xa00ae278, 0xd70dd2ee, 0x4e048354, 0x3903b3c2, 0xa7672661, 0xd06016f7, 0x4969474d, 0x3e6e77db]
    case 29 => [0xaed16a4a, 0xd9d65adc, 0x40df0b66, 0x37d83bf0, 0xa9bcae53, 0xdebb9ec5, 0x47b2cf7f, 0x30b5ffe9]
    case 30 => [0xbdbdf21c, 0xcabac28a, 0x53b39330, 0x24b4a3a6, 0xbad03605, 0xcdd70693, 0x54de5729, 0x23d967bf]
    case _ => [0xb3667a2e, 0xc4614ab8, 0x5d681b02, 0x2a6f2b94, 0xb40bbe37, 0xc30c8ea1, 0x5a05df1b, 0x2d02ef8d]
  }

  /** The table, indexed by a byte. */
  function Entry(i: bv8): bv32 {
    Row((i >> 3) as int)[(i & 7) as int]
  }

  lemma LowEntries(i: bv8)
    requires i < 64
    ensures Entry(i) == Step8(i as bv32)
  {
  }

  lemma SecondEntries(i: bv8)
    requires 64 <= i < 128
    ensures Entry(i) == Step8(i as bv32)
  {
  }

  lemma ThirdEntries(i: bv8)
    requires 128 <= i < 192
    ensures Entry(i) == Step8(i as bv32)
  {
  }

  lemma HighEntries(i: bv8)
    requires i >= 192
    ensures Entry(i) == Step8(i as bv32)
  {
  }

  /** Every word of the table is eight steps of the division. */
  lemma EntryIs(i: bv8)
    ensures Entry(i) == Step8(i as bv32)
  {
    if i < 64 {
      LowEntries(i);
    } else if i < 128 {
      SecondEntries(i);
    } else if i < 192 {
      ThirdEntries(i);
    } else {
      HighEntries(i);
    }
  }

  // ----- the byte step -----

  predicate Sum(a: bv32, b: bv32, c: bv32) {
    c == a ^ b
  }

  lemma XorParts(a: bv32, b: bv32)
    ensures (a ^ b) >> 1 == (a >> 1) ^ (b >> 1) && (a ^ b) & 1 == (a & 1) ^ (b & 1)
  {
  }

  /** Division is linear. */
  lemma StepSum(a: bv32, b: bv32, c: bv32)
    requires Sum(a, b, c)
    ensures Sum(Step(a), Step(b), Step(c))
  {
    XorParts(a, b);
    if a & 1 == 1 {
      if b & 1 == 1 {
      } else {
      }
    } else {
      if b & 1 == 1 {
      } else {
      }
    }
  }

  lemma Step4Sum(a: bv32, b: bv32, c: bv32)
    requires Sum(a, b, c)
    ensures Sum(Step(Step(Step(Step(a)))), Step(Step(Step(Step(b)))), Step(Step(Step(Step(c)))))
  {
    StepSum(a, b, c);
    StepSum(Step(a), Step(b), Step(c));
    StepSum(Step(Step(a)), Step(Step(b)), Step(Step(c)));
    StepSum(Step(Step(Step(a))), Step(Step(Step(b))), Step(Step(Step(c))));
  }

  lemma Step8Sum(a: bv32, b: bv32, c: bv32)
    requires Sum(a, b, c)
    ensures Sum(Step8(a), Step8(b), Step8(c))
  {
    Step4Sum(a, b, c);
    Step4Sum(Step(Step(Step(Step(a)))), Step(Step(Step(Step(b)))), Step(Step(Step(Step(c)))));
  }

  /** `e` is `c` divided by eight bits. */
  predicate Is8(c: bv32, e: bv32) {
    e == Step8(c)
  }

  lemma Is8Sum(a: bv32, b: bv32, c: bv32, x: bv32, y: bv32, z: bv32)
    requires Sum(a, b, c) && Is8(a, x) && Is8(b, y) && Sum(x, y, z)
    ensures Is8(c, z)
  {
    Step8Sum(a, b, c);
    SumUnique(x, y, z, Step8(c));
  }

  lemma SumUnique(a: bv32, b: bv32, c: bv32, d: bv32)
    requires Sum(a, b, c) && Sum(a, b, d)
    ensures c == d
  {
  }

  /** Bits above the lowest byte only move down. */
  lemma HighBytes(c: bv32, e: bv32)
    requires c & 0xFF == 0 && e == c >> 8
    ensures Is8(c, e)
  {
  }

  /** `high` is `x` without its lowest byte, and `h` is `c` moved down by one. */
  predicate Upper(x: bv32, high: bv32) {
    high == x & 0xFFFFFF00
  }

  predicate Down(c: bv32, h: bv32) {
    h == c >> 8
  }

  lemma LowAndHigh(x: bv32) returns (high: bv32)
    ensures Upper(x, high) && Sum(x & 0xFF, high, x)
  {
    high := x & 0xFFFFFF00;
  }

  lemma UpperMovesDown(x: bv32, high: bv32, h: bv32)
    requires Upper(x, high) && Down(high, h)
    ensures Is8(high, h)
  {
    HighBytes(high, h);
  }

  /** The data byte does not reach the upper bytes. */
  lemma DataStaysLow(c: bv32, d: bv8, x: bv32, high: bv32, h: bv32)
    requires x == c ^ (d as bv32) && Upper(x, high) && Down(c, h)
    ensures Down(high, h)
  {
  }

  lemma SumTurned(c: bv32, e: bv32, h: bv32, z: bv32)
    requires z == (c >> 8) ^ e
    requires Down(c, h)
    ensures Sum(e, h, z)
  {
  }

  lemma MoveDown(c: bv32) returns (h: bv32)
    ensures Down(c, h)
  {
    h := c >> 8;
  }

  /** One table look-up does the work of eight steps. */
  lemma ByteStep(c: bv32, d: bv8, x: bv32, e: bv32, z: bv32)
    requires x == c ^ (d as bv32) && Is8(x & 0xFF, e) && z == (c >> 8) ^ e
    ensures Is8(x, z)
  {
    var high := LowAndHigh(x);
    var h := MoveDown(c);
    DataStaysLow(c, d, x, high, h);
    UpperMovesDown(x, high, h);
    SumTurned(c, e, h, z);
    Is8Sum(x & 0xFF, high, x, e, h, z);
  }

  lemma DataInLowByte(c: bv32, d: bv8)
    ensures (c & 0xFF) ^ (d as bv32) == (c ^ (d as bv32)) & 0xFF
  {
  }

  predicate Divided(c: bv32, data: seq<bv8>, r: bv32) {
    r == Divide(c, data)
  }

  lemma DivideMore(c: bv32, data: seq<bv8>, i: nat, r: bv32, e: bv32)
    requires i < |data| && Divided(c, data[..i], r) && Is8(r ^ (data[i] as bv32), e)
    ensures Divided(c, data[..i + 1], e)
  {
    assert data[..i + 1][..i] == data[..i];
  }

  method Lookup(i: bv32) returns (e: bv32)
    requires i <= 0xFF
    ensures Is8(i, e)
  {
    EntryIs(i as bv8);
    e := Entry(i as bv8);
  }

  method PartialTurn(r: bv32, d: bv8) returns (s: bv32)
    ensures Is8(r ^ (d as bv32), s)
  {
    DataInLowByte(r, d);
    var e := Lookup((r & 0xFF) ^ (d as bv32));
    s := (r >> 8) ^ e;
    ByteStep(r, d, r ^ (d as bv32), e, s);
  }

  method PartialCrc(crc: bv32, data: seq<bv8>) returns (r: bv32)
    ensures r == Divide(crc, data)
  {
    r := crc;
    for i := 0 to |data|
      invariant Divided(crc, data[..i], r)
    {
      var s := PartialTurn(r, data[i]);
      DivideMore(crc, data, i, r, s);
      r := s;
    }
    assert data[..|data|] == data;
  }

  method FullTurn(r: bv32, d: bv8) returns (s: bv32)
    ensures Is8(r ^ (d as bv32), s)
  {
    var e := Lookup((r ^ (d as bv32)) & 0xFF);
    s := (r >> 8) ^ e;
    ByteStep(r, d, r ^ (d as bv32), e, s);
  }

  method FullCrc(data: seq<bv8>) returns (r: bv32)
    ensures r == Checksum(data)
  {
    var start: bv32 := 0xFFFFFFFF;
    r := start;
    for i := 0 to |data|
      invariant Divided(start, data[..i], r)
    {
      var s := FullTurn(r, data[i]);
      DivideMore(start, data, i, r, s);
      r := s;
    }
    assert data[..|data|] == data;
    r := r ^ 0xFFFFFFFF;
  }

  method IsVerifiedCrc32(data: seq<bv8>, crc: bv32) returns (ok: bool)
    ensures ok <==> crc == Checksum(data)
  {
    var full := FullCrc(data);
    ok := crc == full;
  }

  // ----- what the checksum tells apart -----

  /** A running checksum can be continued. */
  lemma {:induction false} DivideConcat(c: bv32, a: seq<bv8>, b: seq<bv8>)
    ensures Divide(c, a + b) == Divide(Divide(c, a), b)
  {
    if b == [] {
      assert a + b == a;
    } else {
      assert (a + b)[..|a + b| - 1] == a + b[..|b| - 1];
      DivideConcat(c, a, b[..|b| - 1]);
    }
  }

  /** A step of the division can be undone: the top bit says whether the polynomial
      was subtracted. */
  function Back(e: bv32): bv32 {
    if e & 0x80000000 != 0 then ((e ^ POLY) << 1) | 1 else e << 1
  }

  predicate IsBack(e: bv32, c: bv32) {
    c == Back(e)
  }

  lemma StepBack(c: bv32)
    ensures IsBack(Step(c), c)
  {
  }

  function Back8(e: bv32): bv32 {
    Back(Back(Back(Back(Back(Back(Back(Back(e))))))))
  }

  lemma Back4(c: bv32, e: bv32)
    requires e == Step(Step(Step(Step(c))))
    ensures c == Back(Back(Back(Back(e))))
  {
    StepBack(c);
    StepBack(Step(c));
    StepBack(Step(Step(c)));
    StepBack(Step(Step(Step(c))));
  }

  lemma Step8Back(c: bv32)
    ensures Back8(Step8(c)) == c
  {
    var m := Step(Step(Step(Step(c))));
    Back4(c, m);
    Back4(m, Step(Step(Step(Step(m)))));
  }

  lemma Is8Back(c: bv32, e: bv32)
    requires Is8(c, e)
    ensures c == Back8(e)
  {
    Step8Back(c);
  }

  /** The whole division run backwards. */
  function Undo(e: bv32, data: seq<bv8>): bv32
    decreases |data|
  {
    if data == [] then e else Undo(Back8(e) ^ (data[|data| - 1] as bv32), data[..|data| - 1])
  }

  lemma XorTwice(c: bv32, d: bv32, x: bv32)
    requires x == c ^ d
    ensures x ^ d == c
  {
  }

  lemma NextBack(c: bv32, d: bv8, e: bv32)
    requires e == Next(c, d)
    ensures Back8(e) ^ (d as bv32) == c
  {
    Step8Back(c ^ (d as bv32));
    XorTwice(c, d as bv32, Back8(e));
  }

  /** Knowing the bytes, the remainder before them can be had from the one after. */
  lemma {:induction false} UndoDivide(c: bv32, data: seq<bv8>)
    ensures Undo(Divide(c, data), data) == c
  {
    if data != [] {
      var n := |data| - 1;
      NextBack(Divide(c, data[..n]), data[n], Divide(c, data));
      UndoDivide(c, data[..n]);
    }
  }

  // Four bytes at once.

  lemma Up(t: bv32) returns (x: bv32)
    requires t <= 0xFFFFFF
    ensures x == t << 8 && x & 0xFF == 0 && t == x >> 8
  {
    x := t << 8;
  }

  predicate IsNext(c: bv32, d: bv8, e: bv32) {
    Is8(c ^ (d as bv32), e)
  }

  /** `u` is the byte `d` with up to three more bytes `t` above it. */
  predicate Above(d: bv8, t: bv32, u: bv32) {
    t <= 0xFFFFFF && u == (d as bv32) ^ (t << 8)
  }

  /** Bytes that come later can be added early, one place up. */
  lemma Early(c: bv32, d: bv8, e: bv32, t: bv32, u: bv32, y: bv32) returns (z: bv32)
    requires IsNext(c, d, e) && Above(d, t, u) && Sum(c, u, y)
    ensures Is8(y, z) && Sum(e, t, z)
  {
    var h := Up(t);
    HighBytes(h, t);
    var x := c ^ (d as bv32);
    assert Sum(x, h, y);
    z := e ^ t;
    Is8Sum(x, h, y, e, t, z);
  }

  lemma LastByte(c: bv32, d: bv8, e: bv32, t: bv32, y: bv32)
    requires IsNext(c, d, e) && t == d as bv32 && Sum(c, t, y)
    ensures Is8(y, e)
  {
  }

  /** Four bytes as a word, the first lowest. */
  function Word(a: bv8, b: bv8, c: bv8, d: bv8): bv32 {
    (a as bv32) ^ (((b as bv32) ^ (((c as bv32) ^ ((d as bv32) << 8)) << 8)) << 8)
  }

  function Back32(e: bv32): bv32 {
    Back8(Back8(Back8(Back8(e))))
  }

  lemma WordParts(a: bv8, b: bv8, c: bv8, d: bv8) returns (t1: bv32, t2: bv32, t3: bv32)
    ensures t3 == d as bv32 && Above(c, t3, t2) && Above(b, t2, t1) && Above(a, t1, Word(a, b, c, d))
  {
    t3 := d as bv32;
    t2 := (c as bv32) ^ (t3 << 8);
    t1 := (b as bv32) ^ (t2 << 8);
  }

  lemma BackChain(x0: bv32, x1: bv32, x2: bv32, x3: bv32, x4: bv32)
    requires Is8(x0, x1) && Is8(x1, x2) && Is8(x2, x3) && Is8(x3, x4)
    ensures x0 == Back32(x4)
  {
    Is8Back(x0, x1);
    Is8Back(x1, x2);
    Is8Back(x2, x3);
    Is8Back(x3, x4);
  }

  /** Dividing four bytes is dividing their word by 32 bits. */
  lemma FourForward(r: bv32, a: bv8, b: bv8, c: bv8, d: bv8, e1: bv32, e2: bv32, e3: bv32, e4: bv32, y: bv32)
    returns (y1: bv32, y2: bv32, y3: bv32)
    requires IsNext(r, a, e1) && IsNext(e1, b, e2) && IsNext(e2, c, e3) && IsNext(e3, d, e4)
    requires Sum(r, Word(a, b, c, d), y)
    ensures Is8(y, y1) && Is8(y1, y2) && Is8(y2, y3) && Is8(y3, e4)
  {
    var t1, t2, t3 := WordParts(a, b, c, d);
    y1 := Early(r, a, e1, t1, Word(a, b, c, d), y);
    y2 := Early(e1, b, e2, t2, t1, y1);
    y3 := Early(e2, c, e3, t3, t2, y2);
    LastByte(e3, d, e4, t3, y3);
  }

  lemma FourBytes(r: bv32, a: bv8, b: bv8, c: bv8, d: bv8, e1: bv32, e2: bv32, e3: bv32, e4: bv32, y: bv32)
    requires IsNext(r, a, e1) && IsNext(e1, b, e2) && IsNext(e2, c, e3) && IsNext(e3, d, e4)
    requires Sum(r, Word(a, b, c, d), y)
    ensures y == Back32(e4)
  {
    var y1, y2, y3 := FourForward(r, a, b, c, d, e1, e2, e3, e4, y);
    BackChain(y, y1, y2, y3, e4);
  }

  lemma WordInjective(r: bv32, y: bv32, a: bv8, b: bv8, c: bv8, d: bv8, a': bv8, b': bv8, c': bv8, d': bv8)
    requires Sum(r, Word(a, b, c, d), y) && Sum(r, Word(a', b', c', d'), y)
    ensures a == a' && b == b' && c == c' && d == d'
  {
  }

  lemma DivideTurn(r: bv32, w: seq<bv8>, k: nat)
    requires k < |w|
    ensures IsNext(Divide(r, w[..k]), w[k], Divide(r, w[..k + 1]))
  {
    assert w[..k + 1][..k] == w[..k];
  }

  lemma DivideTurns(r: bv32, w: seq<bv8>) returns (e1: bv32, e2: bv32, e3: bv32, e4: bv32)
    requires |w| == 4
    ensures IsNext(r, w[0], e1) && IsNext(e1, w[1], e2) && IsNext(e2, w[2], e3) && IsNext(e3, w[3], e4)
    ensures e4 == Divide(r, w)
  {
    DivideTurn(r, w, 0);
    DivideTurn(r, w, 1);
    DivideTurn(r, w, 2);
    DivideTurn(r, w, 3);
    assert w[..0] == [] && w[..4] == w;
    e1, e2, e3, e4 := Divide(r, w[..1]), Divide(r, w[..2]), Divide(r, w[..3]), Divide(r, w[..4]);
  }

  lemma DivideFour(r: bv32, w: seq<bv8>) returns (y: bv32)
    requires |w| == 4
    ensures Sum(r, Word(w[0], w[1], w[2], w[3]), y) && y == Back32(Divide(r, w))
  {
    var e1, e2, e3, e4 := DivideTurns(r, w);
    y := r ^ Word(w[0], w[1], w[2], w[3]);
    FourBytes(r, w[0], w[1], w[2], w[3], e1, e2, e3, e4, y);
  }

  /** From one remainder, four bytes lead to one remainder only. */
  lemma FourInjective(r: bv32, v: seq<bv8>, w: seq<bv8>)
    requires |v| == 4 == |w| && Divide(r, v) == Divide(r, w)
    ensures v == w
  {
    var y := DivideFour(r, v);
    var z := DivideFour(r, w);
    WordInjective(r, y, v[0], v[1], v[2], v[3], w[0], w[1], w[2], w[3]);
  }

  lemma UpToFourInjective(r: bv32, v: seq<bv8>, w: seq<bv8>)
    requires |v| == |w| <= 4 && Divide(r, v) == Divide(r, w)
    ensures v == w
  {
    var pad := seq(4 - |v|, i => 0 as bv8);
    DivideConcat(r, v, pad);
    DivideConcat(r, w, pad);
    FourInjective(r, v + pad, w + pad);
    assert v == (v + pad)[..|v|] && w == (w + pad)[..|w|];
  }

  lemma DivideBurst(start: bv32, p: seq<bv8>, v: seq<bv8>, w: seq<bv8>, q: seq<bv8>)
    requires |v| == |w| <= 4 && Divide(start, p + v + q) == Divide(start, p + w + q)
    ensures v == w
  {
    DivideConcat(start, p + v, q);
    DivideConcat(start, p + w, q);
    UndoDivide(Divide(start, p + v), q);
    UndoDivide(Divide(start, p + w), q);
    DivideConcat(start, p, v);
    DivideConcat(start, p, w);
    UpToFourInjective(Divide(start, p), v, w);
  }

  /** Two inputs of the same length that differ only within four adjacent bytes, in
      particular in a single byte, never share a checksum. */
  lemma BurstDetected(p: seq<bv8>, v: seq<bv8>, w: seq<bv8>, q: seq<bv8>)
    requires |v| == |w| <= 4
    ensures Checksum(p + v + q) == Checksum(p + w + q) <==> v == w
  {
    if Checksum(p + v + q) == Checksum(p + w + q) {
      SameRemainder(p + v + q, p + w + q, Checksum(p + v + q));
      DivideBurst(0xFFFFFFFF, p, v, w, q);
    }
  }

  lemma ChecksumSum(x: seq<bv8>, c: bv32)
    requires c == Checksum(x)
    ensures Sum(Divide(0xFFFFFFFF, x), 0xFFFFFFFF, c)
  {
  }

  lemma SumCancel(a: bv32, b: bv32, d: bv32, c: bv32)
    requires Sum(a, d, c) && Sum(b, d, c)
    ensures a == b
  {
  }

  lemma SameRemainder(x: seq<bv8>, y: seq<bv8>, c: bv32)
    requires Checksum(x) == c && Checksum(y) == c
    ensures Divide(0xFFFFFFFF, x) == Divide(0xFFFFFFFF, y)
  {
    ChecksumSum(x, c);
    ChecksumSum(y, c);
    SumCancel(Divide(0xFFFFFFFF, x), Divide(0xFFFFFFFF, y), 0xFFFFFFFF, c);
  }

  // ----- known values -----

  /** Four bytes that the driver's own test prints the checksum of. */
  lemma CheckValue()
    ensures Checksum([0x31, 0x32, 0x33, 0x34]) == 0x9BE3E0A3
  {
    var w: seq<bv8> := [0x31, 0x32, 0x33, 0x34];
    CheckBytes();
    assert Divided(0xFFFFFFFF, w[..0], 0xFFFFFFFF);
    DivideMore(0xFFFFFFFF, w, 0, 0xFFFFFFFF, 0x7C231048);
    DivideMore(0xFFFFFFFF, w, 1, 0x7C231048, 0xB0ACBB32);
    DivideMore(0xFFFFFFFF, w, 2, 0xB0ACBB32, 0x77B79C2D);
    DivideMore(0xFFFFFFFF, w, 3, 0x77B79C2D, 0x641C1F5C);
    assert w[..4] == w;
  }

  lemma CheckBytes()
    ensures IsNext(0xFFFFFFFF, 0x31, 0x7C231048) && IsNext(0x7C231048, 0x32, 0xB0ACBB32)
    ensures IsNext(0xB0ACBB32, 0x33, 0x77B79C2D) && IsNext(0x77B79C2D, 0x34, 0x641C1F5C)
  {
  }

  /** The bytes of a word, the lowest first. */
  function BytesOf(x: bv32): (b: seq<bv8>)
    ensures |b| == 4
  {
    [(x & 0xFF) as bv8, ((x >> 8) & 0xFF) as bv8, ((x >> 16) & 0xFF) as bv8, (x >> 24) as bv8]
  }

  lemma WordOf(x: bv32)
    ensures var b := BytesOf(x); Word(b[0], b[1], b[2], b[3]) == x
  {
  }

  lemma AllOnes(r: bv32, x: bv32, y: bv32)
    requires Sum(r, 0xFFFFFFFF, x) && Sum(r, x, y)
    ensures y == 0xFFFFFFFF
  {
  }

  lemma FromAllOnes(y1: bv32, y2: bv32, y3: bv32, e: bv32)
    requires Is8(0xFFFFFFFF, y1) && Is8(y1, y2) && Is8(y2, y3) && Is8(y3, e)
    ensures e == 0xDEBB20E3
  {
    assert Is8(0xFFFFFFFF, 0x2DFD1072);
    assert Is8(0x2DFD1072, 0xBE26ED00);
    assert Is8(0xBE26ED00, 0x00BE26ED);
    assert Is8(0x00BE26ED, 0xDEBB20E3);
  }

  /** Data followed by its own checksum, lowest byte first, always has the same checksum. */
  lemma Residue(data: seq<bv8>)
    ensures Checksum(data + BytesOf(Checksum(data))) == 0x2144DF1C
  {
    var r, x := Divide(0xFFFFFFFF, data), Checksum(data);
    var w := BytesOf(x);
    DivideConcat(0xFFFFFFFF, data, w);
    WordOf(x);
    var e1, e2, e3, e4 := DivideTurns(r, w);
    var y := r ^ x;
    ChecksumSum(data, x);
    AllOnes(r, x, y);
    var y1, y2, y3 := FourForward(r, w[0], w[1], w[2], w[3], e1, e2, e3, e4, y);
    FromAllOnes(y1, y2, y3, e4);
  }
}
