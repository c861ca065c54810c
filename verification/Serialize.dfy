/** The serializer: integers in either byte order, arrays of integers, and structs
    whose derived code handles the fields one after the other. A schema is the type
    that is serialized; every schema built from these is covered.
 */
module Serialize {

  import opened Common
  import ModArith

  datatype Result<+T> = Ok(value: T) | BufferTooSmall | WrongBufferSize

  datatype Endianness = Little | Big | NA

  /** An integer type of `size` bytes. */
  datatype IntType = IntType(size: nat, signed: bool)

  datatype Schema = Int(t: IntType) | Array(elem: IntType, n: nat) | Struct(fields: Fields)
  datatype Fields = End | Field(head: Schema, rest: Fields)

  datatype Value = IntValue(i: int) | ArrayValue(elems: seq<int>) | StructValue(values: Values)
  datatype Values = EndValue | FieldValue(head: Value, rest: Values)

  function Pow(n: nat): (p: nat)
    ensures p > 0
  {
    if n == 0 then 1 else 256 * Pow(n - 1)
  }

  predicate InRange(t: IntType, v: int) {
    if t.signed then 0 - Pow(t.size) <= 2 * v < Pow(t.size) else 0 <= v < Pow(t.size)
  }

  predicate HasType(v: Value, s: Schema)
    decreases s
  {
    match s
    case Int(t) => v.IntValue? && InRange(t, v.i)
    case Array(t, n) => v.ArrayValue? && |v.elems| == n && forall i :: 0 <= i < n ==> InRange(t, v.elems[i])
    case Struct(fs) => v.StructValue? && HaveTypes(v.values, fs)
  }

  predicate HaveTypes(vs: Values, fs: Fields)
    decreases fs
  {
    match fs
    case End => vs == EndValue
    case Field(s, rest) => vs.FieldValue? && HasType(vs.head, s) && HaveTypes(vs.rest, rest)
  }

  /** The size of `n` elements. */
  function Total(size: nat, n: nat): nat {
    if n == 0 then 0 else Total(size, n - 1) + size
  }

  lemma {:induction false} TotalIs(size: nat, n: nat)
    ensures Total(size, n) == size * n
  {
    if n > 0 {
      TotalIs(size, n - 1);
      assert size * n == size * (n - 1) + size;
    }
  }

  function Size(s: Schema): nat
    decreases s
  {
    match s
    case Int(t) => t.size
    case Array(t, n) => Total(t.size, n)
    case Struct(fs) => SizeOf(fs)
  }

  function SizeOf(fs: Fields): nat
    decreases fs
  {
    match fs
    case End => 0
    case Field(s, rest) => Size(s) + SizeOf(rest)
  }

  // ----- integers as bytes -----

  /** The lowest `n` bytes of `u`, lowest first. */
  function ToLe(u: nat, n: nat): (b: Bytes)
    ensures |b| == n
    decreases n
  {
    if n == 0 then [] else [u % 256] + ToLe(u / 256, n - 1)
  }

  function FromLe(b: Bytes): (u: nat)
    ensures u < Pow(|b|)
  {
    if b == [] then 0 else
      assert |b[1..]| == |b| - 1;
      b[0] as int + 256 * FromLe(b[1..])
  }

  /** Two's complement. */
  function ToUnsigned(t: IntType, v: int): (u: nat)
    requires InRange(t, v)
    ensures u < Pow(t.size)
  {
    if v < 0 then v + Pow(t.size) else v
  }

  function FromUnsigned(t: IntType, u: nat): (v: int)
    requires u < Pow(t.size)
    ensures InRange(t, v)
  {
    if t.signed && 2 * u >= Pow(t.size) then u - Pow(t.size) else u
  }

  function EncodeInt(t: IntType, v: int, e: Endianness): (b: Bytes)
    requires InRange(t, v)
    ensures |b| == t.size
  {
    var le := ToLe(ToUnsigned(t, v), t.size);
    if e == Big then Reverse(le) else le
  }

  function DecodeInt(t: IntType, b: Bytes, e: Endianness): (v: int)
    requires |b| == t.size
    ensures InRange(t, v)
  {
    FromUnsigned(t, FromLe(if e == Big then Reverse(b) else b))
  }

  lemma {:induction false} LeRoundTrip(u: nat, n: nat)
    requires u < Pow(n)
    ensures FromLe(ToLe(u, n)) == u
    decreases n
  {
    if n > 0 {
      LeRoundTrip(u / 256, n - 1);
      assert ToLe(u, n)[1..] == ToLe(u / 256, n - 1);
    }
  }

  lemma {:induction false} LeRoundTripBytes(b: Bytes)
    ensures ToLe(FromLe(b), |b|) == b
  {
    if b != [] {
      var u := FromLe(b);
      assert u % 256 == b[0] as int && u / 256 == FromLe(b[1..]);
      LeRoundTripBytes(b[1..]);
    }
  }

  lemma {:induction false} ReverseTwice(b: Bytes)
    ensures Reverse(Reverse(b)) == b
  {
    if b != [] {
      ReverseSnoc(Reverse(b[1..]), b[0]);
      ReverseTwice(b[1..]);
    }
  }

  lemma IntRoundTrip(t: IntType, v: int, e: Endianness)
    requires InRange(t, v)
    ensures DecodeInt(t, EncodeInt(t, v, e), e) == v
  {
    var u := ToUnsigned(t, v);
    LeRoundTrip(u, t.size);
    ReverseTwice(ToLe(u, t.size));
  }

  lemma IntRoundTripBytes(t: IntType, b: Bytes, e: Endianness)
    requires |b| == t.size
    ensures EncodeInt(t, DecodeInt(t, b, e), e) == b
  {
    var le := if e == Big then Reverse(b) else b;
    LeRoundTripBytes(le);
    ReverseTwice(b);
  }

  // ----- which byte is where -----

  /** Byte `k` of the two's complement of `v`, counted from the lowest. */
  function ByteOf(t: IntType, v: int, k: nat): int {
    v % Pow(t.size) / Pow(k) % 256
  }

  /** Which of the bytes of an integer is written in place `k`. */
  function Place(t: IntType, e: Endianness, k: nat): (j: nat)
    requires k < t.size
  {
    if e == Big then t.size - 1 - k else k
  }

  /** The bytes of `v`, lowest first or highest first. */
  function IntBytes(t: IntType, v: int, e: Endianness): (b: seq<int>)
    ensures |b| == t.size
  {
    seq(t.size, k requires 0 <= k < t.size => ByteOf(t, v, Place(t, e, k)))
  }

  /** They are in `b` from `at` on. */
  ghost predicate IntLaid(t: IntType, v: int, e: Endianness, b: Bytes, at: nat) {
    at + t.size <= |b| && b[at..at + t.size] == IntBytes(t, v, e)
  }

  ghost predicate ArrayLaid(t: IntType, vs: seq<int>, e: Endianness, b: Bytes, at: nat) {
    forall i :: 0 <= i < |vs| ==> IntLaid(t, vs[i], e, b, at + Total(t.size, i))
  }

  /** The value is in `b` from `at` on: elements one after the other, fields in order. */
  ghost predicate Laid(s: Schema, v: Value, e: Endianness, b: Bytes, at: nat)
    requires HasType(v, s)
    decreases s
  {
    match s
    case Int(t) => IntLaid(t, v.i, e, b, at)
    case Array(t, n) => ArrayLaid(t, v.elems, e, b, at)
    case Struct(fs) => FieldsLaid(fs, v.values, e, b, at)
  }

  ghost predicate FieldsLaid(fs: Fields, vs: Values, e: Endianness, b: Bytes, at: nat)
    requires HaveTypes(vs, fs)
    decreases fs
  {
    match fs
    case End => true
    case Field(s, rest) => Laid(s, vs.head, e, b, at) && FieldsLaid(rest, vs.rest, e, b, at + Size(s))
  }

  lemma DivideTwice(u: nat, p: nat)
    requires p > 0
    ensures u / 256 / p == u / (256 * p)
  {
    var q, r := u / 256 / p, u / 256 % p;
    assert u / 256 == q * p + r;
    assert u == q * (256 * p) + (256 * r + u % 256);
    ModArith.DivModUnique(q, 256 * p, 256 * r + u % 256);
  }

  lemma {:induction false} LeByte(u: nat, n: nat, k: nat)
    requires k < n
    ensures ToLe(u, n)[k] == u / Pow(k) % 256
    decreases n
  {
    if k > 0 {
      LeByte(u / 256, n - 1, k - 1);
      DivideTwice(u, Pow(k - 1));
    }
  }

  lemma UnsignedIs(t: IntType, v: int)
    requires InRange(t, v)
    ensures ToUnsigned(t, v) == v % Pow(t.size)
  {
    var p := Pow(t.size);
    if v < 0 {
      ModArith.DivModUnique(-1, p, v + p);
    } else {
      ModArith.DivModUnique(0, p, v);
    }
  }

  /** The byte order: `Little` and `NA` have the lowest byte in front, `Big` the highest. */
  lemma EncodeIntIs(t: IntType, v: int, e: Endianness)
    requires InRange(t, v)
    ensures EncodeInt(t, v, e) == IntBytes(t, v, e)
  {
    var u := ToUnsigned(t, v);
    UnsignedIs(t, v);
    forall k | 0 <= k < t.size ensures EncodeInt(t, v, e)[k] == ByteOf(t, v, Place(t, e, k)) {
      LeByte(u, t.size, k);
      LeByte(u, t.size, t.size - 1 - k);
      ReverseAt(ToLe(u, t.size), k);
    }
  }

  // ----- all schemas -----

  function EncodeInts(t: IntType, vs: seq<int>, e: Endianness): (b: Bytes)
    requires forall i :: 0 <= i < |vs| ==> InRange(t, vs[i])
    ensures |b| == Total(t.size, |vs|)
  {
    if vs == [] then [] else
      var n := |vs| - 1;
      EncodeInts(t, vs[..n], e) + EncodeInt(t, vs[n], e)
  }

  function DecodeInts(t: IntType, n: nat, b: Bytes, e: Endianness): (vs: seq<int>)
    requires |b| == Total(t.size, n)
    ensures |vs| == n && forall i :: 0 <= i < n ==> InRange(t, vs[i])
  {
    if n == 0 then [] else
      var m := Total(t.size, n - 1);
      DecodeInts(t, n - 1, b[..m], e) + [DecodeInt(t, b[m..], e)]
  }

  function Encode(s: Schema, v: Value, e: Endianness): (b: Bytes)
    requires HasType(v, s)
    ensures |b| == Size(s)
    decreases s
  {
    match s
    case Int(t) => EncodeInt(t, v.i, e)
    case Array(t, n) => EncodeInts(t, v.elems, e)
    case Struct(fs) => EncodeFields(fs, v.values, e)
  }

  function EncodeFields(fs: Fields, vs: Values, e: Endianness): (b: Bytes)
    requires HaveTypes(vs, fs)
    ensures |b| == SizeOf(fs)
    decreases fs
  {
    match fs
    case End => []
    case Field(s, rest) => Encode(s, vs.head, e) + EncodeFields(rest, vs.rest, e)
  }

  function Decode(s: Schema, b: Bytes, e: Endianness): (v: Value)
    requires |b| == Size(s)
    ensures HasType(v, s)
    decreases s
  {
    match s
    case Int(t) => IntValue(DecodeInt(t, b, e))
    case Array(t, n) => ArrayValue(DecodeInts(t, n, b, e))
    case Struct(fs) => StructValue(DecodeFields(fs, b, e))
  }

  function DecodeFields(fs: Fields, b: Bytes, e: Endianness): (vs: Values)
    requires |b| == SizeOf(fs)
    ensures HaveTypes(vs, fs)
    decreases fs
  {
    match fs
    case End => EndValue
    case Field(s, rest) => FieldValue(Decode(s, b[..Size(s)], e), DecodeFields(rest, b[Size(s)..], e))
  }

  lemma {:induction false} IntsRoundTrip(t: IntType, vs: seq<int>, e: Endianness)
    requires forall i :: 0 <= i < |vs| ==> InRange(t, vs[i])
    ensures DecodeInts(t, |vs|, EncodeInts(t, vs, e), e) == vs
  {
    if vs != [] {
      var n := |vs| - 1;
      var init, x := vs[..n], vs[n];
      assert vs == init + [x];
      IntsRoundTrip(t, init, e);
      IntRoundTrip(t, x, e);
      DecodeJoined(t, n, EncodeInts(t, init, e), EncodeInt(t, x, e), e);
    }
  }

  lemma DecodeJoined(t: IntType, n: nat, a: Bytes, c: Bytes, e: Endianness)
    requires |a| == Total(t.size, n) && |c| == t.size
    ensures |a + c| == Total(t.size, n + 1)
    ensures DecodeInts(t, n + 1, a + c, e) == DecodeInts(t, n, a, e) + [DecodeInt(t, c, e)]
  {
    assert (a + c)[..|a|] == a && (a + c)[|a|..] == c;
  }

  lemma EncodeSnoc(t: IntType, vs: seq<int>, x: int, e: Endianness)
    requires InRange(t, x) && forall i :: 0 <= i < |vs| ==> InRange(t, vs[i])
    ensures EncodeInts(t, vs + [x], e) == EncodeInts(t, vs, e) + EncodeInt(t, x, e)
  {
    assert (vs + [x])[..|vs|] == vs;
  }

  lemma DecodeLast(t: IntType, n: nat, b: Bytes, e: Endianness)
    returns (front: Bytes, back: Bytes, vs: seq<int>, x: int)
    requires n > 0 && |b| == Total(t.size, n)
    ensures b == front + back && |front| == Total(t.size, n - 1) && |back| == t.size
    ensures vs == DecodeInts(t, n - 1, front, e) && x == DecodeInt(t, back, e) && DecodeInts(t, n, b, e) == vs + [x]
  {
    var m := Total(t.size, n - 1);
    front, back := b[..m], b[m..];
    vs, x := DecodeInts(t, n - 1, front, e), DecodeInt(t, back, e);
  }

  lemma EncodeLast(t: IntType, vs: seq<int>, x: int, e: Endianness, all: seq<int>, front: Bytes, back: Bytes)
    requires InRange(t, x) && (forall i :: 0 <= i < |vs| ==> InRange(t, vs[i])) && all == vs + [x]
    requires EncodeInts(t, vs, e) == front && EncodeInt(t, x, e) == back
    ensures (forall i :: 0 <= i < |all| ==> InRange(t, all[i])) && EncodeInts(t, all, e) == front + back
  {
    EncodeSnoc(t, vs, x, e);
  }

  lemma {:induction false} IntsRoundTripBytes(t: IntType, n: nat, b: Bytes, e: Endianness)
    requires |b| == Total(t.size, n)
    ensures EncodeInts(t, DecodeInts(t, n, b, e), e) == b
  {
    if n > 0 {
      var front, back, vs, x := DecodeLast(t, n, b, e);
      assert EncodeInts(t, vs, e) == front by {
        IntsRoundTripBytes(t, n - 1, front, e);
      }
      assert EncodeInt(t, x, e) == back by {
        IntRoundTripBytes(t, back, e);
      }
      EncodeLast(t, vs, x, e, DecodeInts(t, n, b, e), front, back);
    }
  }

  /** What was written is read back, whatever the schema and the byte order. */
  lemma {:induction false} RoundTrip(s: Schema, v: Value, e: Endianness)
    requires HasType(v, s)
    ensures Decode(s, Encode(s, v, e), e) == v
    decreases s
  {
    match s
    case Int(t) => IntRoundTrip(t, v.i, e);
    case Array(t, n) => IntsRoundTrip(t, v.elems, e);
    case Struct(fs) => FieldsRoundTrip(fs, v.values, e);
  }

  lemma {:induction false} FieldsRoundTrip(fs: Fields, vs: Values, e: Endianness)
    requires HaveTypes(vs, fs)
    ensures DecodeFields(fs, EncodeFields(fs, vs, e), e) == vs
    decreases fs
  {
    match fs
    case End =>
    case Field(s, rest) =>
      var a, c := Encode(s, vs.head, e), EncodeFields(rest, vs.rest, e);
      RoundTrip(s, vs.head, e);
      FieldsRoundTrip(rest, vs.rest, e);
      assert (a + c)[..|a|] == a && (a + c)[|a|..] == c;
  }

  /** And every byte string of the right length is the encoding of what it decodes to. */
  lemma {:induction false} RoundTripBytes(s: Schema, b: Bytes, e: Endianness)
    requires |b| == Size(s)
    ensures Encode(s, Decode(s, b, e), e) == b
    decreases s
  {
    match s
    case Int(t) => IntRoundTripBytes(t, b, e);
    case Array(t, n) => IntsRoundTripBytes(t, n, b, e);
    case Struct(fs) => FieldsRoundTripBytes(fs, b, e);
  }

  lemma {:induction false} FieldsRoundTripBytes(fs: Fields, b: Bytes, e: Endianness)
    requires |b| == SizeOf(fs)
    ensures EncodeFields(fs, DecodeFields(fs, b, e), e) == b
    decreases fs
  {
    match fs
    case End =>
    case Field(s, rest) =>
      RoundTripBytes(s, b[..Size(s)], e);
      FieldsRoundTripBytes(rest, b[Size(s)..], e);
      assert b == b[..Size(s)] + b[Size(s)..];
  }

  // ----- the code -----

  /** What is laid out in `bytes` is laid out in a buffer that has these from `at` on. */
  lemma IntMoved(t: IntType, v: int, e: Endianness, bytes: Bytes, off: nat, b: Bytes, at: nat)
    requires IntLaid(t, v, e, bytes, off) && at + |bytes| <= |b| && b[at..at + |bytes|] == bytes
    ensures IntLaid(t, v, e, b, at + off)
  {
    var lo := at + off;
    forall i | lo <= i < lo + t.size ensures b[i] == bytes[i - at] {
      assert b[i] == b[at..at + |bytes|][i - at];
    }
    assert b[lo..lo + t.size] == bytes[off..off + t.size];
  }

  lemma IntInFront(t: IntType, v: int, e: Endianness, front: Bytes, back: Bytes, off: nat)
    requires IntLaid(t, v, e, front, off)
    ensures IntLaid(t, v, e, front + back, off)
  {
    assert (front + back)[off..off + t.size] == front[off..off + t.size];
  }

  lemma IntBehind(t: IntType, v: int, e: Endianness, front: Bytes)
    requires InRange(t, v)
    ensures IntLaid(t, v, e, front + EncodeInt(t, v, e), |front|)
  {
    EncodeIntIs(t, v, e);
    assert (front + EncodeInt(t, v, e))[|front|..|front| + t.size] == EncodeInt(t, v, e);
  }

  lemma {:induction false} IntsLaid(t: IntType, vs: seq<int>, e: Endianness, i: nat)
    requires i < |vs| && forall k :: 0 <= k < |vs| ==> InRange(t, vs[k])
    ensures IntLaid(t, vs[i], e, EncodeInts(t, vs, e), Total(t.size, i))
    decreases |vs|
  {
    var n := |vs| - 1;
    var init := vs[..n];
    var front := EncodeInts(t, init, e);
    if i < n {
      IntsLaid(t, init, e, i);
      IntInFront(t, vs[i], e, front, EncodeInt(t, vs[n], e), Total(t.size, i));
    } else {
      IntBehind(t, vs[n], e, front);
    }
  }

  lemma ElementLaid(t: IntType, vs: seq<int>, e: Endianness, i: nat, b: Bytes, at: nat)
    requires i < |vs| && forall k :: 0 <= k < |vs| ==> InRange(t, vs[k])
    requires at + Total(t.size, |vs|) <= |b| && b[at..at + Total(t.size, |vs|)] == EncodeInts(t, vs, e)
    ensures IntLaid(t, vs[i], e, b, at + Total(t.size, i))
  {
    IntsLaid(t, vs, e, i);
    IntMoved(t, vs[i], e, EncodeInts(t, vs, e), Total(t.size, i), b, at);
  }

  lemma ElementsLaid(t: IntType, vs: seq<int>, e: Endianness, b: Bytes, at: nat)
    requires forall k :: 0 <= k < |vs| ==> InRange(t, vs[k])
    requires at + Total(t.size, |vs|) <= |b| && b[at..at + Total(t.size, |vs|)] == EncodeInts(t, vs, e)
    ensures ArrayLaid(t, vs, e, b, at)
  {
    forall i | 0 <= i < |vs| ensures IntLaid(t, vs[i], e, b, at + Total(t.size, i)) {
      ElementLaid(t, vs, e, i, b, at);
    }
  }

  /** The layout of every schema: where a buffer has the encoding, every integer is at its
      offset with its bytes in order. */
  lemma {:induction false} EncodeLaid(s: Schema, v: Value, e: Endianness, b: Bytes, at: nat)
    requires HasType(v, s) && at + Size(s) <= |b| && b[at..at + Size(s)] == Encode(s, v, e)
    ensures Laid(s, v, e, b, at)
    decreases s
  {
    match s
    case Int(t) => EncodeIntIs(t, v.i, e);
    case Array(t, n) => ElementsLaid(t, v.elems, e, b, at);
    case Struct(fs) => EncodeFieldsLaid(fs, v.values, e, b, at);
  }

  lemma {:induction false} EncodeFieldsLaid(fs: Fields, vs: Values, e: Endianness, b: Bytes, at: nat)
    requires HaveTypes(vs, fs) && at + SizeOf(fs) <= |b| && b[at..at + SizeOf(fs)] == EncodeFields(fs, vs, e)
    ensures FieldsLaid(fs, vs, e, b, at)
    decreases fs
  {
    match fs
    case End =>
    case Field(s, rest) =>
      var w, m := b[at..at + SizeOf(fs)], at + Size(s);
      assert b[at..m] == w[..Size(s)] == Encode(s, vs.head, e);
      assert b[m..m + SizeOf(rest)] == w[Size(s)..] == EncodeFields(rest, vs.rest, e);
      EncodeLaid(s, vs.head, e, b, at);
      EncodeFieldsLaid(rest, vs.rest, e, b, m);
  }

  /** What the front of `b` decodes to is laid out there. */
  lemma DecodeLaid(s: Schema, e: Endianness, b: Bytes)
    requires Size(s) <= |b|
    ensures Laid(s, Decode(s, b[..Size(s)], e), e, b, 0)
  {
    RoundTripBytes(s, b[..Size(s)], e);
    EncodeLaid(s, Decode(s, b[..Size(s)], e), e, b, 0);
  }

  /** Outside of the bytes from `lo` to `hi` the buffer is as it was. */
  ghost predicate Kept(b: Bytes, c: Bytes, lo: nat, hi: nat) {
    |b| == |c| && forall i :: 0 <= i < |b| && !(lo <= i < hi) ==> c[i] == b[i]
  }

  /** The buffer `c` is `b` with `bytes` written at `lo`. */
  ghost predicate Wrote(b: Bytes, c: Bytes, lo: nat, bytes: Bytes) {
    lo + |bytes| <= |b| && Kept(b, c, lo, lo + |bytes|) && c[lo..lo + |bytes|] == bytes
  }

  /** Two writes next to each other are one. */
  lemma WroteTwice(b: Bytes, c: Bytes, d: Bytes, lo: nat, x: Bytes, y: Bytes)
    requires Wrote(b, c, lo, x) && Wrote(c, d, lo + |x|, y)
    ensures Wrote(b, d, lo, x + y)
  {
    var m, n := lo + |x|, lo + |x| + |y|;
    assert d[lo..m] == c[lo..m];
    assert d[lo..n] == d[lo..m] + d[m..n];
  }

  lemma WroteNothing(b: Bytes, lo: nat)
    requires lo <= |b|
    ensures Wrote(b, b, lo, [])
  {
  }

  method CopyFromSlice(target: array<Byte>, lo: nat, bytes: Bytes)
    requires lo + |bytes| <= target.Length
    modifies target
    ensures Wrote(old(target[..]), target[..], lo, bytes)
  {
    for i := 0 to |bytes|
      invariant forall j :: 0 <= j < i ==> target[lo + j] == bytes[j]
      invariant forall j :: 0 <= j < target.Length && !(lo <= j < lo + i) ==> target[j] == old(target[j])
    {
      target[lo + i] := bytes[i];
    }
    assert forall j :: 0 <= j < |bytes| ==> target[..][lo + j] == bytes[j];
  }

  /** The integer `v` into the slice from `lo` to `hi`. */
  method SerializeInt(t: IntType, v: int, e: Endianness, target: array<Byte>, lo: nat, hi: nat)
    returns (r: Result<nat>)
    requires InRange(t, v) && lo <= hi <= target.Length
    modifies target
    ensures r == if t.size <= hi - lo then Ok(t.size) else BufferTooSmall
    ensures r.Ok? ==> Wrote(old(target[..]), target[..], lo, EncodeInt(t, v, e))
    ensures r.Ok? ==> IntLaid(t, v, e, target[..], lo)
    ensures !r.Ok? ==> target[..] == old(target[..])
  {
    if hi - lo < t.size {
      return BufferTooSmall;
    }
    CopyFromSlice(target, lo, EncodeInt(t, v, e));
    EncodeIntIs(t, v, e);
    return Ok(t.size);
  }

  /** The element at `i` lies within the array. */
  lemma {:induction false} Fits(i: nat, n: nat, size: nat)
    requires i < n
    ensures i * size == Total(size, i) && Total(size, i) + size == Total(size, i + 1) <= Total(size, n)
    decreases n
  {
    TotalIs(size, i);
    if i + 1 < n {
      Fits(i, n - 1, size);
    }
  }

  lemma EncodeNext(t: IntType, vs: seq<int>, i: nat, e: Endianness)
    requires i < |vs| && forall k :: 0 <= k < |vs| ==> InRange(t, vs[k])
    ensures EncodeInts(t, vs[..i + 1], e) == EncodeInts(t, vs[..i], e) + EncodeInt(t, vs[i], e)
  {
    EncodeSnoc(t, vs[..i], vs[i], e);
    assert vs[..i + 1] == vs[..i] + [vs[i]];
  }

  method SerializeArray(t: IntType, vs: seq<int>, e: Endianness, target: array<Byte>, lo: nat, hi: nat)
    returns (r: Result<nat>)
    requires (forall i :: 0 <= i < |vs| ==> InRange(t, vs[i])) && lo <= hi <= target.Length
    modifies target
    ensures r == if Total(t.size, |vs|) <= hi - lo then Ok(Total(t.size, |vs|)) else BufferTooSmall
    ensures r.Ok? ==> Wrote(old(target[..]), target[..], lo, EncodeInts(t, vs, e))
    ensures !r.Ok? ==> target[..] == old(target[..])
  {
    var total := t.size * |vs|;
    TotalIs(t.size, |vs|);
    if hi - lo < total {
      return BufferTooSmall;
    }
    ghost var b := target[..];
    WroteNothing(b, lo);
    for i := 0 to |vs|
      invariant Wrote(b, target[..], lo, EncodeInts(t, vs[..i], e))
    {
      Fits(i, |vs|, t.size);
      ghost var x := EncodeInts(t, vs[..i], e);
      SerializeElement(t, vs[i], e, target, lo, i * t.size, b, x);
      EncodeNext(t, vs, i, e);
    }
    assert vs[..|vs|] == vs;
    return Ok(total);
  }

  method SerializeElement(t: IntType, v: int, e: Endianness, target: array<Byte>, lo: nat, offset: nat,
                          ghost b: Bytes, ghost x: Bytes)
    requires InRange(t, v) && |x| == offset && lo + offset + t.size <= target.Length && Wrote(b, target[..], lo, x)
    modifies target
    ensures Wrote(b, target[..], lo, x + EncodeInt(t, v, e))
  {
    ghost var c := target[..];
    var w := SerializeInt(t, v, e, target, lo + offset, lo + offset + t.size);
    WroteTwice(b, c, target[..], lo, x, EncodeInt(t, v, e));
  }

  /** Success exactly when the slice holds the size of the schema; then the encoding is
      in front and nothing else has changed. */
  method SerializeValue(s: Schema, v: Value, e: Endianness, target: array<Byte>, lo: nat, hi: nat)
    returns (r: Result<nat>)
    requires HasType(v, s) && lo <= hi <= target.Length
    modifies target
    ensures r == if Size(s) <= hi - lo then Ok(Size(s)) else BufferTooSmall
    ensures r.Ok? ==> Wrote(old(target[..]), target[..], lo, Encode(s, v, e)) && Laid(s, v, e, target[..], lo)
    ensures Kept(old(target[..]), target[..], lo, hi)
    decreases s
  {
    match s {
      case Int(t) => r := SerializeInt(t, v.i, e, target, lo, hi);
      case Array(t, n) => r := SerializeArray(t, v.elems, e, target, lo, hi);
      case Struct(fs) => r := SerializeFields(fs, v.values, e, target, lo, hi, lo);
    }
    if r.Ok? {
      EncodeLaid(s, v, e, target[..], lo);
    }
  }

  /** The derived code from the field at `acc` on. */
  method SerializeFields(fs: Fields, vs: Values, e: Endianness, target: array<Byte>, lo: nat, hi: nat, acc: nat)
    returns (r: Result<nat>)
    requires HaveTypes(vs, fs) && lo <= acc <= hi <= target.Length
    modifies target
    ensures r == if SizeOf(fs) <= hi - acc then Ok(acc - lo + SizeOf(fs)) else BufferTooSmall
    ensures r.Ok? ==> Wrote(old(target[..]), target[..], acc, EncodeFields(fs, vs, e))
    ensures Kept(old(target[..]), target[..], acc, hi)
    decreases fs
  {
    ghost var b := target[..];
    match fs {
      case End =>
        WroteNothing(b, acc);
        r := Ok(acc - lo);
      case Field(s, rest) =>
        var w := SerializeValue(s, vs.head, e, target, acc, hi);
        if w.BufferTooSmall? {
          return BufferTooSmall;
        }
        ghost var c := target[..];
        r := SerializeFields(rest, vs.rest, e, target, lo, hi, acc + w.value);
        if r.Ok? {
          WroteTwice(b, c, target[..], acc, Encode(s, vs.head, e), EncodeFields(rest, vs.rest, e));
        }
    }
  }

  method DeserializeInt(t: IntType, e: Endianness, input: Bytes) returns (r: Result<(int, nat)>)
    ensures r == if t.size <= |input| then Ok((DecodeInt(t, input[..t.size], e), t.size)) else WrongBufferSize
  {
    if |input| < t.size {
      return WrongBufferSize;
    }
    return Ok((DecodeInt(t, input[..t.size], e), t.size));
  }

  method DeserializeArray(t: IntType, n: nat, e: Endianness, input: Bytes) returns (r: Result<(seq<int>, nat)>)
    ensures r == if Total(t.size, n) <= |input|
                 then Ok((DecodeInts(t, n, input[..Total(t.size, n)], e), Total(t.size, n))) else WrongBufferSize
  {
    var total := t.size * n;
    TotalIs(t.size, n);
    if |input| < total {
      return WrongBufferSize;
    }
    var result: seq<int> := [];
    for i := 0 to n
      invariant Total(t.size, i) <= total && result == DecodeInts(t, i, input[..Total(t.size, i)], e)
    {
      Fits(i, n, t.size);
      var offset := i * t.size;
      var elem := DeserializeInt(t, e, input[offset..offset + t.size]);
      DecodeSnoc(t, i, input, offset, e);
      result := result + [elem.value.0];
    }
    return Ok((result, total));
  }

  lemma DecodeSnoc(t: IntType, i: nat, input: Bytes, offset: nat, e: Endianness)
    requires offset == Total(t.size, i) && offset + t.size <= |input|
    ensures DecodeInts(t, i + 1, input[..Total(t.size, i + 1)], e)
            == DecodeInts(t, i, input[..offset], e) + [DecodeInt(t, input[offset..offset + t.size][..t.size], e)]
  {
    var b := input[..offset + t.size];
    assert b[..offset] == input[..offset];
    assert b[offset..] == input[offset..offset + t.size] == input[offset..offset + t.size][..t.size];
  }

  /** Success exactly when the input holds the size of the schema; then the value that
      its first bytes decode to. */
  method DeserializeValue(s: Schema, e: Endianness, input: Bytes) returns (r: Result<(Value, nat)>)
    ensures r == if Size(s) <= |input| then Ok((Decode(s, input[..Size(s)], e), Size(s))) else WrongBufferSize
    ensures r.Ok? ==> Laid(s, r.value.0, e, input, 0)
    decreases s
  {
    match s {
      case Int(t) =>
        var d := DeserializeInt(t, e, input);
        r := if d.Ok? then Ok((IntValue(d.value.0), d.value.1)) else WrongBufferSize;
      case Array(t, n) =>
        var d := DeserializeArray(t, n, e, input);
        r := if d.Ok? then Ok((ArrayValue(d.value.0), d.value.1)) else WrongBufferSize;
      case Struct(fs) =>
        var d := DeserializeFields(fs, e, input, 0);
        r := if d.Ok? then Ok((StructValue(d.value.0), d.value.1)) else WrongBufferSize;
    }
    if r.Ok? {
      DecodeLaid(s, e, input);
    }
  }

  method DeserializeFields(fs: Fields, e: Endianness, input: Bytes, acc: nat) returns (r: Result<(Values, nat)>)
    requires acc <= |input|
    ensures r == if SizeOf(fs) <= |input| - acc
                 then Ok((DecodeFields(fs, input[acc..acc + SizeOf(fs)], e), acc + SizeOf(fs))) else WrongBufferSize
    decreases fs
  {
    match fs {
      case End => r := Ok((EndValue, acc));
      case Field(s, rest) =>
        var d := DeserializeValue(s, e, input[acc..]);
        if d.WrongBufferSize? {
          return WrongBufferSize;
        }
        var more := DeserializeFields(rest, e, input, acc + d.value.1);
        if more.WrongBufferSize? {
          return WrongBufferSize;
        }
        DecodeCons(s, rest, input, acc, e);
        r := Ok((FieldValue(d.value.0, more.value.0), more.value.1));
    }
  }

  lemma DecodeCons(s: Schema, rest: Fields, input: Bytes, acc: nat, e: Endianness)
    requires acc + Size(s) + SizeOf(rest) <= |input|
    ensures var m := acc + Size(s);
            DecodeFields(Field(s, rest), input[acc..m + SizeOf(rest)], e)
            == FieldValue(Decode(s, input[acc..][..Size(s)], e), DecodeFields(rest, input[m..m + SizeOf(rest)], e))
  {
    var m := acc + Size(s);
    var b := input[acc..m + SizeOf(rest)];
    assert b[..Size(s)] == input[acc..][..Size(s)] && b[Size(s)..] == input[m..m + SizeOf(rest)];
  }

  /** Serialize into a buffer that is large enough, then deserialize it: the same value
      and the same length. */
  method ThereAndBack(s: Schema, v: Value, e: Endianness, target: array<Byte>) returns (r: Result<(Value, nat)>)
    requires HasType(v, s) && Size(s) <= target.Length
    modifies target
    ensures r == Ok((v, Size(s))) && Kept(old(target[..]), target[..], 0, Size(s))
  {
    var w := SerializeValue(s, v, e, target, 0, target.Length);
    assert target[..][0..Size(s)] == target[..][..Size(s)];
    RoundTrip(s, v, e);
    r := DeserializeValue(s, e, target[..]);
  }
}
