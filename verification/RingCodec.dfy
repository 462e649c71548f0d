/** Byte formats of the resource ring: little-endian integers, the FNV-1a
    checksum, records and the file header. */
module RingCodec {
  import opened Orders

  const RING_BYTES := 65536
  const HEADER_BYTES := 64
  const RECORD_BYTES := 64
  const CAPACITY := 1023
  const FORMAT_VERSION := 1
  /** "EOSRING" and a NUL. */
  const MAGIC: seq<byte> := [0x45, 0x4F, 0x53, 0x52, 0x49, 0x4E, 0x47, 0]

  const TWO_64 := 0x1_0000_0000_0000_0000

  // ---- little-endian integers ------------------------------------------------

  function Pow256(n: nat): nat {
    if n == 0 then 1 else 256 * Pow256(n - 1)
  }

  function Le(value: nat, width: nat): (bytes: seq<byte>)
    ensures |bytes| == width
  {
    if width == 0 then [] else [value % 256] + Le(value / 256, width - 1)
  }

  function FromLe(bytes: seq<byte>): nat {
    if bytes == [] then 0 else bytes[0] + 256 * FromLe(bytes[1..])
  }

  lemma {:induction false} LeRoundTrip(value: nat, width: nat)
    requires value < Pow256(width)
    ensures FromLe(Le(value, width)) == value
  {
    if width > 0 {
      LeRoundTrip(value / 256, width - 1);
      assert Le(value, width)[1..] == Le(value / 256, width - 1);
    }
  }

  lemma {:induction false} FromLeRoundTrip(bytes: seq<byte>)
    ensures FromLe(bytes) < Pow256(|bytes|)
    ensures Le(FromLe(bytes), |bytes|) == bytes
  {
    if bytes != [] {
      FromLeRoundTrip(bytes[1..]);
      FirstDigit(bytes[0], FromLe(bytes[1..]));
      LeOf(FromLe(bytes), bytes[0], FromLe(bytes[1..]), |bytes| - 1);
    }
  }

  lemma FirstDigit(first: byte, rest: nat)
    ensures (first + 256 * rest) % 256 == first && (first + 256 * rest) / 256 == rest
  {
  }

  lemma LeOf(value: nat, first: byte, rest: nat, width: nat)
    requires value % 256 == first && value / 256 == rest
    ensures Le(value, width + 1) == [first] + Le(rest, width)
  {
  }

  lemma Widths()
    ensures Pow256(4) == 0x1_0000_0000 && Pow256(8) == TWO_64
  {
    assert Pow256(2) == 0x1_0000;
    assert Pow256(4) == 256 * (256 * Pow256(2));
    assert Pow256(6) == 256 * (256 * Pow256(4));
    assert Pow256(8) == 256 * (256 * Pow256(6));
  }

  // ---- FNV-1a ------------------------------------------------------------------

  const FNV_BASIS: U64 := 0xcbf2_9ce4_8422_2325
  const FNV_PRIME: U64 := 0x100_0000_01b3
  /** The inverse of the prime modulo 2^64. */
  const FNV_INVERSE: U64 := 0xce96_5057_aff6_957b

  /** Bitwise exclusive or of the low `bits` bits. */
  function Xor(a: nat, b: nat, bits: nat): nat {
    if bits == 0 then 0
    else (if a % 2 == b % 2 then 0 else 1) + 2 * Xor(a / 2, b / 2, bits - 1)
  }

  function Pow2(n: nat): nat {
    if n == 0 then 1 else 2 * Pow2(n - 1)
  }

  lemma {:induction false} XorSymmetric(a: nat, b: nat, bits: nat)
    ensures Xor(b, a, bits) == Xor(a, b, bits) < Pow2(bits)
  {
    if bits > 0 {
      XorSymmetric(a / 2, b / 2, bits - 1);
    }
  }

  lemma {:induction false} XorUndone(a: nat, b: nat, bits: nat)
    requires a < Pow2(bits)
    ensures Xor(Xor(a, b, bits), b, bits) == a
  {
    if bits > 0 {
      XorUndone(a / 2, b / 2, bits - 1);
      var x := Xor(a, b, bits);
      assert x / 2 == Xor(a / 2, b / 2, bits - 1);
      assert x % 2 == 0 <==> a % 2 == b % 2;
    }
  }

  /** Exclusive or with a fixed byte is injective. */
  lemma ByteXorInjective(a: byte, b: byte, c: byte)
    requires Xor(a, c, 8) == Xor(b, c, 8)
    ensures a == b
  {
    ByteWidth();
    XorUndone(a, c, 8);
    XorUndone(b, c, 8);
  }

  lemma ByteWidth()
    ensures Pow2(8) == 256
  {
    assert Pow2(4) == 16;
    assert Pow2(8) == 2 * (2 * (2 * (2 * Pow2(4))));
  }

  /** `hash ^ byte`: only the low eight bits are affected. */
  function Mixed(hash: U64, b: byte): nat {
    hash - hash % 256 + Xor(hash % 256, b, 8)
  }

  /** `(hash ^ byte).wrapping_mul(prime)`. */
  function FnvStep(hash: U64, b: byte): U64 {
    Mixed(hash, b) * FNV_PRIME % TWO_64
  }

  function Fnv(hash: U64, bytes: seq<byte>): U64
    decreases |bytes|
  {
    if bytes == [] then hash else Fnv(FnvStep(hash, bytes[0]), bytes[1..])
  }

  function Checksum(bytes: seq<byte>): U64 {
    Fnv(FNV_BASIS, bytes)
  }

  method ComputeChecksum(bytes: seq<byte>) returns (hash: U64)
    ensures hash == Checksum(bytes)
  {
    hash := FNV_BASIS;
    for k := 0 to |bytes|
      invariant Fnv(hash, bytes[k..]) == Checksum(bytes)
    {
      assert bytes[k..][1..] == bytes[k + 1..];
      hash := FnvStep(hash, bytes[k]);
    }
  }

  /** The published FNV-1a values of the empty string and of "a". */
  lemma KnownChecksums()
    ensures Checksum([]) == 0xcbf2_9ce4_8422_2325
    ensures Checksum([97]) == 0xaf63_dc4c_8601_ec8c
  {
    FirstStepOfA();
    OneStep(FNV_BASIS, 97);
  }

  lemma OneStep(hash: U64, b: byte)
    ensures Fnv(hash, [b]) == FnvStep(hash, b)
  {
    assert [b][1..] == [];
  }

  lemma FirstStepOfA()
    ensures FnvStep(FNV_BASIS, 97) == 0xaf63_dc4c_8601_ec8c
  {
    MixedWithA();
    assert 0xcbf2_9ce4_8422_2344 * FNV_PRIME == 0xaf63_dc4c_8601_ec8c + TWO_64 * 0xcbf29ce5de;
    MultiplesVanish(0xaf63_dc4c_8601_ec8c, 0xcbf29ce5de);
  }

  lemma MixedWithA()
    ensures Mixed(FNV_BASIS, 97) == 0xcbf2_9ce4_8422_2344
  {
    LowXor();
    assert FNV_BASIS % 256 == 0x25;
  }

  /** 0x25 and 0x61 differ in bits 2 and 6. */
  lemma LowXor()
    ensures Xor(0x25, 97, 8) == 0x44
  {
    assert Xor(2, 6, 4) == 4;
    assert Xor(0x25, 97, 8) == 0 + 2 * (0 + 2 * (1 + 2 * (0 + 2 * Xor(2, 6, 4))));
  }

  lemma MultiplesVanish(x: nat, z: int)
    requires x < TWO_64
    ensures (x + TWO_64 * z) % TWO_64 == x
  {
  }

  lemma PrimeIsInvertible(x: nat)
    requires x < TWO_64
    ensures (x * FNV_PRIME % TWO_64) * FNV_INVERSE % TWO_64 == x
  {
    var y, a := x * FNV_PRIME % TWO_64, x * FNV_PRIME / TWO_64;
    assert y == x * FNV_PRIME - a * TWO_64;
    assert FNV_PRIME * FNV_INVERSE == 1 + 0xce9650590f * TWO_64;
    assert y * FNV_INVERSE == x + TWO_64 * (0xce9650590f * x - a * FNV_INVERSE);
    MultiplesVanish(x, 0xce9650590f * x - a * FNV_INVERSE);
  }

  lemma TimesPrimeInjective(x: nat, y: nat)
    requires x < TWO_64 && y < TWO_64 && x * FNV_PRIME % TWO_64 == y * FNV_PRIME % TWO_64
    ensures x == y
  {
    PrimeIsInvertible(x);
    PrimeIsInvertible(y);
  }

  lemma MixedParts(hash: U64, b: byte)
    ensures Mixed(hash, b) < TWO_64
    ensures Mixed(hash, b) / 256 == hash / 256 && Mixed(hash, b) % 256 == Xor(hash % 256, b, 8)
  {
    ByteWidth();
    XorSymmetric(hash % 256, b, 8);
  }

  /** Each step is injective in the hash and in the byte. */
  lemma FnvStepInjective(g: U64, h: U64, b: byte, c: byte)
    requires FnvStep(g, b) == FnvStep(h, c) && (g == h || b == c)
    ensures g == h && b == c
  {
    MixedParts(g, b);
    MixedParts(h, c);
    TimesPrimeInjective(Mixed(g, b), Mixed(h, c));
    if g == h {
      XorSymmetric(g % 256, b, 8);
      XorSymmetric(g % 256, c, 8);
      ByteXorInjective(b, c, g % 256);
    } else {
      ByteXorInjective(g % 256, h % 256, b);
    }
  }

  lemma {:induction false} FnvInjective(g: U64, h: U64, bytes: seq<byte>)
    requires Fnv(g, bytes) == Fnv(h, bytes)
    ensures g == h
    decreases |bytes|
  {
    if bytes != [] {
      FnvInjective(FnvStep(g, bytes[0]), FnvStep(h, bytes[0]), bytes[1..]);
      FnvStepInjective(g, h, bytes[0], bytes[0]);
    }
  }

  /** Changing any one byte changes the hash. */
  lemma {:induction false} FnvDetectsOneByte(hash: U64, bytes: seq<byte>, i: nat, b: byte)
    requires i < |bytes| && b != bytes[i]
    ensures Fnv(hash, bytes[i := b]) != Fnv(hash, bytes)
    decreases |bytes|
  {
    if i == 0 {
      assert bytes[i := b][1..] == bytes[1..];
      if Fnv(hash, bytes[i := b]) == Fnv(hash, bytes) {
        FnvInjective(FnvStep(hash, b), FnvStep(hash, bytes[0]), bytes[1..]);
        FnvStepInjective(hash, hash, b, bytes[0]);
      }
    } else {
      assert bytes[i := b][1..] == bytes[1..][i - 1 := b];
      FnvDetectsOneByte(FnvStep(hash, bytes[0]), bytes[1..], i - 1, b);
    }
  }

  // ---- byte buffers ------------------------------------------------------------

  /** `bytes` written over `file` from `offset` on. */
  function WriteAt(file: seq<byte>, offset: nat, bytes: seq<byte>): (r: seq<byte>)
    requires offset + |bytes| <= |file|
    ensures |r| == |file|
    ensures r[offset..offset + |bytes|] == bytes
  {
    file[..offset] + bytes + file[offset + |bytes|..]
  }

  /** A write leaves every range it does not meet alone. */
  lemma WriteElsewhere(file: seq<byte>, offset: nat, bytes: seq<byte>, lo: nat, hi: nat)
    requires offset + |bytes| <= |file| && lo <= hi <= |file|
    requires hi <= offset || offset + |bytes| <= lo
    ensures WriteAt(file, offset, bytes)[lo..hi] == file[lo..hi]
  {
    var r := WriteAt(file, offset, bytes);
    forall k | lo <= k < hi ensures r[k] == file[k] {
    }
  }

  lemma WriteOver(file: seq<byte>, offset: nat, first: seq<byte>, second: seq<byte>)
    requires |first| == |second| && offset + |first| <= |file|
    ensures WriteAt(WriteAt(file, offset, first), offset, second) == WriteAt(file, offset, second)
  {
  }

  /** `put_u32` and `put_u64`. */
  method PutLe(buffer: array<byte>, offset: nat, value: nat, width: nat)
    requires offset + width <= buffer.Length
    modifies buffer
    ensures buffer[..] == WriteAt(old(buffer[..]), offset, Le(value, width))
  {
    var rest := value;
    ghost var before := buffer[..];
    for k := 0 to width
      invariant LeDone(value, width, k, rest)
      invariant buffer[..] == WriteAt(before, offset, Le(value, width)[..k])
    {
      ghost var written := buffer[..];
      LeStep(value, width, k, rest);
      buffer[offset + k] := rest % 256;
      assert buffer[..] == written[offset + k := rest % 256];
      WriteOneMore(before, offset, Le(value, width), k);
      rest := rest / 256;
    }
    assert Le(value, width)[..width] == Le(value, width);
  }

  /** `rest` is what is left of `value` after its first `k` bytes. */
  ghost predicate LeDone(value: nat, width: nat, k: nat, rest: nat) {
    k <= width && Le(value, width)[k..] == Le(rest, width - k)
  }

  lemma LeStep(value: nat, width: nat, k: nat, rest: nat)
    requires LeDone(value, width, k, rest) && k < width
    ensures Le(value, width)[k] == rest % 256 && LeDone(value, width, k + 1, rest / 256)
  {
    var bytes := Le(value, width);
    assert bytes[k] == bytes[k..][0] && bytes[k + 1..] == bytes[k..][1..];
  }

  lemma WriteOneMore(file: seq<byte>, offset: nat, bytes: seq<byte>, k: nat)
    requires offset + |bytes| <= |file| && k < |bytes|
    ensures WriteAt(file, offset, bytes[..k])[offset + k := bytes[k]] == WriteAt(file, offset, bytes[..k + 1])
  {
  }

  // ---- records -----------------------------------------------------------------

  datatype Metrics = Metrics(
    cpuUsageUsec: Option<U64>, memoryCurrentBytes: Option<U64>, memoryLimitBytes: Option<U64>,
    ioReadBytes: Option<U64>, ioWriteBytes: Option<U64>)

  datatype Sample = Sample(time: I64, metrics: Metrics)

  function Values(m: Metrics): (v: seq<Option<U64>>)
    ensures |v| == 5
  {
    [m.cpuUsageUsec, m.memoryCurrentBytes, m.memoryLimitBytes, m.ioReadBytes, m.ioWriteBytes]
  }

  /** `as u64` and `as i64`. */
  function Unsigned(t: I64): U64 {
    if t < 0 then t + TWO_64 else t
  }

  function Signed(u: U64): I64 {
    if u >= 0x8000_0000_0000_0000 then u - TWO_64 else u
  }

  /** Bit `i` says whether counter `i` is present. */
  function Validity(values: seq<Option<U64>>): nat {
    if values == [] then 0 else (if values[0].Some? then 1 else 0) + 2 * Validity(values[1..])
  }

  lemma {:induction false} ValidityRange(values: seq<Option<U64>>)
    ensures Validity(values) < Pow2(|values|)
  {
    if values != [] {
      ValidityRange(values[1..]);
    }
  }

  /** `validity & (1 << i) != 0`. */
  predicate Bit(validity: nat, i: nat) {
    if i == 0 then validity % 2 != 0 else Bit(validity / 2, i - 1)
  }

  lemma LowBit(low: nat, rest: nat)
    requires low < 2
    ensures (low + 2 * rest) % 2 == low && (low + 2 * rest) / 2 == rest
  {
  }

  lemma {:induction false} ValidityBits(values: seq<Option<U64>>, i: nat)
    requires i < |values|
    ensures Bit(Validity(values), i) <==> values[i].Some?
  {
    LowBit(if values[0].Some? then 1 else 0, Validity(values[1..]));
    if i > 0 {
      ValidityBits(values[1..], i - 1);
    }
  }

  /** An absent counter leaves zero bytes. */
  function Counter(value: Option<U64>): (bytes: seq<byte>)
    ensures |bytes| == 8
  {
    Le(if value.Some? then value.value else 0, 8)
  }

  function Counters(values: seq<Option<U64>>): (bytes: seq<byte>)
    ensures |bytes| == 8 * |values|
  {
    if values == [] then [] else Counter(values[0]) + Counters(values[1..])
  }

  lemma {:induction false} CounterAt(values: seq<Option<U64>>, i: nat)
    requires i < |values|
    ensures Counters(values)[8 * i..8 * i + 8] == Counter(values[i])
  {
    var head, rest := Counter(values[0]), Counters(values[1..]);
    if i > 0 {
      CounterAt(values[1..], i - 1);
      DropHead(head, rest, 8 * i, 8 * i + 8);
    }
  }

  lemma DropHead(head: seq<byte>, rest: seq<byte>, lo: nat, hi: nat)
    requires |head| <= lo <= hi <= |head| + |rest|
    ensures (head + rest)[lo..hi] == rest[lo - |head|..hi - |head|]
  {
  }

  function Payload(s: Sample): (bytes: seq<byte>)
    ensures |bytes| == 56
  {
    Le(Unsigned(s.time), 8) + Le(Validity(Values(s.metrics)), 8) + Counters(Values(s.metrics))
  }

  function EncodeRecord(s: Sample): (bytes: seq<byte>)
    ensures |bytes| == RECORD_BYTES
  {
    Payload(s) + Le(Checksum(Payload(s)), 8)
  }

  function U64At(bytes: seq<byte>, offset: nat): U64
    requires offset + 8 <= |bytes|
  {
    Widths();
    FromLeRoundTrip(bytes[offset..offset + 8]);
    FromLe(bytes[offset..offset + 8])
  }

  predicate Intact(bytes: seq<byte>)
    requires |bytes| == RECORD_BYTES
  {
    U64At(bytes, 56) == Checksum(bytes[..56])
  }

  function DecodeCounter(bytes: seq<byte>, i: nat): Option<U64>
    requires |bytes| == RECORD_BYTES && i < 5
  {
    if Bit(U64At(bytes, 8), i) then Some(U64At(bytes, 16 + i * 8)) else None
  }

  function DecodeRecord(bytes: seq<byte>): Option<Sample>
    requires |bytes| == RECORD_BYTES
  {
    if !Intact(bytes) then None
    else
      Some(Sample(Signed(U64At(bytes, 0)),
                  Metrics(DecodeCounter(bytes, 0), DecodeCounter(bytes, 1), DecodeCounter(bytes, 2),
                          DecodeCounter(bytes, 3), DecodeCounter(bytes, 4))))
  }

  /** Every sample is read back from its record, whatever its time and whichever
      counters are absent. */
  lemma RecordRoundTrip(s: Sample)
    ensures DecodeRecord(EncodeRecord(s)) == Some(s)
  {
    FixedPartsRoundTrip(s);
    CounterRoundTrip(s, 0);
    CounterRoundTrip(s, 1);
    CounterRoundTrip(s, 2);
    CounterRoundTrip(s, 3);
    CounterRoundTrip(s, 4);
  }

  lemma FixedPartsRoundTrip(s: Sample)
    ensures Intact(EncodeRecord(s)) && Signed(U64At(EncodeRecord(s), 0)) == s.time
  {
    RecordParts(s);
    WordAt(EncodeRecord(s), 56, Checksum(Payload(s)));
    WordAt(EncodeRecord(s), 0, Unsigned(s.time));
  }

  lemma Pow2Five()
    ensures Pow2(5) == 32
  {
  }

  lemma WordAt(bytes: seq<byte>, offset: nat, value: U64)
    requires offset + 8 <= |bytes| && bytes[offset..offset + 8] == Le(value, 8)
    ensures U64At(bytes, offset) == value
  {
    Widths();
    LeRoundTrip(value, 8);
  }

  lemma RecordParts(s: Sample)
    ensures var bytes := EncodeRecord(s);
            && bytes[..56] == Payload(s)
            && bytes[56..64] == Le(Checksum(Payload(s)), 8)
            && bytes[0..8] == Le(Unsigned(s.time), 8)
            && bytes[8..16] == Le(Validity(Values(s.metrics)), 8)
            && bytes[16..56] == Counters(Values(s.metrics))
  {
  }

  lemma CounterRoundTrip(s: Sample, i: nat)
    requires i < 5
    ensures DecodeCounter(EncodeRecord(s), i) == Values(s.metrics)[i]
  {
    CounterBit(s, i);
    CounterBytes(s, i);
    var value := Values(s.metrics)[i];
    if value.Some? {
      WordAt(EncodeRecord(s), 16 + i * 8, value.value);
    }
  }

  lemma CounterBit(s: Sample, i: nat)
    requires i < 5
    ensures Bit(U64At(EncodeRecord(s), 8), i) <==> Values(s.metrics)[i].Some?
  {
    var values := Values(s.metrics);
    RecordParts(s);
    ValidityRange(values);
    Pow2Five();
    WordAt(EncodeRecord(s), 8, Validity(values));
    ValidityBits(values, i);
  }

  lemma CounterBytes(s: Sample, i: nat)
    requires i < 5
    ensures EncodeRecord(s)[16 + i * 8..16 + i * 8 + 8] == Counter(Values(s.metrics)[i])
  {
    RecordParts(s);
    CounterAt(Values(s.metrics), i);
    SliceOfSlice(EncodeRecord(s), 16, 56, 8 * i, 8 * i + 8);
  }

  lemma SliceOfSlice(bytes: seq<byte>, from: nat, to: nat, lo: nat, hi: nat)
    requires from <= to <= |bytes| && lo <= hi <= to - from
    ensures bytes[from..to][lo..hi] == bytes[from + lo..from + hi]
  {
    var a, b := bytes[from..to][lo..hi], bytes[from + lo..from + hi];
    forall k | 0 <= k < |a| ensures a[k] == b[k] {
      assert a[k] == bytes[from..to][lo + k] == bytes[from + lo + k];
    }
  }

  /** Any change to a single byte of an intact record is refused. */
  lemma OneByteChangeIsRefused(bytes: seq<byte>, i: nat, b: byte)
    requires |bytes| == RECORD_BYTES && Intact(bytes) && i < RECORD_BYTES && b != bytes[i]
    ensures DecodeRecord(bytes[i := b]) == None
  {
    var changed := bytes[i := b];
    if i < 56 {
      assert changed[..56] == bytes[..56][i := b];
      assert changed[56..64] == bytes[56..64];
      FnvDetectsOneByte(FNV_BASIS, bytes[..56], i, b);
    } else {
      assert changed[..56] == bytes[..56];
      FromLeRoundTrip(changed[56..64]);
      FromLeRoundTrip(bytes[56..64]);
      assert changed[56..64][i - 56] == b && bytes[56..64][i - 56] == bytes[i];
    }
  }

  function Zeros(n: nat): (bytes: seq<byte>)
    ensures |bytes| == n
  {
    seq(n, i => 0)
  }

  lemma {:induction false} LeZero(width: nat)
    ensures Le(0, width) == Zeros(width)
  {
    if width > 0 {
      LeZero(width - 1);
    }
  }

  lemma {:induction false} AppendCounter(values: seq<Option<U64>>, value: Option<U64>)
    ensures Counters(values + [value]) == Counters(values) + Counter(value)
  {
    if values == [] {
      assert values + [value] == [value];
    } else {
      AppendCounter(values[1..], value);
      FirstCounter(values[0], values[1..] + [value], values + [value]);
      FirstCounter(values[0], values[1..], values);
      Associative(Counter(values[0]), Counters(values[1..]), Counter(value));
    }
  }

  lemma FirstCounter(first: Option<U64>, rest: seq<Option<U64>>, values: seq<Option<U64>>)
    requires values == [first] + rest
    ensures Counters(values) == Counter(first) + Counters(rest)
  {
    assert values[1..] == rest;
  }

  lemma Associative(a: seq<byte>, b: seq<byte>, c: seq<byte>)
    ensures a + (b + c) == (a + b) + c
  {
  }

  lemma {:induction false} AppendValidity(values: seq<Option<U64>>, value: Option<U64>)
    ensures Validity(values + [value]) == Validity(values) + if value.Some? then Pow2(|values|) else 0
  {
    if values == [] {
      assert values + [value] == [value];
    } else {
      AppendValidity(values[1..], value);
      assert (values + [value])[1..] == values[1..] + [value];
    }
  }

  /** A record buffer while its counters are being filled in. */
  ghost function Filling(head: seq<byte>, values: seq<Option<U64>>, done: nat, zeros: nat): seq<byte>
    requires done <= |values|
  {
    head + Counters(values[..done]) + Zeros(zeros)
  }

  lemma FillStep(head: seq<byte>, values: seq<Option<U64>>, done: nat, zeros: nat)
    requires done < |values| && zeros >= 8
    ensures var before := Filling(head, values, done, zeros);
            Filling(head, values, done + 1, zeros - 8) ==
            if values[done].None? then before
            else WriteAt(before, |head| + 8 * done, Le(values[done].value, 8))
  {
    assert values[..done + 1] == values[..done] + [values[done]];
    AppendCounter(values[..done], values[done]);
    FillSlot(head, Counters(values[..done]), Counter(values[done]), zeros);
    LeZero(8);
  }

  /** Writing eight bytes at the start of `zeros` zeros; eight zeros change nothing. */
  lemma FillSlot(head: seq<byte>, counters: seq<byte>, counter: seq<byte>, zeros: nat)
    requires |counter| == 8 && zeros >= 8
    ensures WriteAt(head + counters + Zeros(zeros), |head| + |counters|, counter) ==
            head + (counters + counter) + Zeros(zeros - 8)
    ensures counter == Zeros(8) ==>
              head + (counters + counter) + Zeros(zeros - 8) == head + counters + Zeros(zeros)
  {
  }

  lemma FillStart(time: seq<byte>, values: seq<Option<U64>>)
    requires |time| == 8
    ensures WriteAt(Zeros(RECORD_BYTES), 0, time) == Filling(time + Zeros(8), values, 0, 48)
  {
    assert values[..0] == [];
  }

  lemma FillEnd(time: seq<byte>, values: seq<Option<U64>>, validity: seq<byte>, checksum: seq<byte>)
    requires |time| == |validity| == |checksum| == 8 && |values| == 5
    ensures var payload := time + validity + Counters(values);
            var filled := WriteAt(Filling(time + Zeros(8), values, 5, 8), 8, validity);
            filled[..56] == payload && WriteAt(filled, 56, checksum) == payload + checksum
  {
    assert values[..5] == values;
    FillValidity(time, Zeros(8), Counters(values), Zeros(8), validity);
    FillChecksum(time + validity + Counters(values), Zeros(8), checksum);
  }

  lemma FillValidity(time: seq<byte>, gap: seq<byte>, counters: seq<byte>, rest: seq<byte>, validity: seq<byte>)
    requires |gap| == |validity|
    ensures WriteAt(time + gap + counters + rest, |time|, validity) == time + validity + counters + rest
  {
  }

  lemma FillChecksum(payload: seq<byte>, gap: seq<byte>, checksum: seq<byte>)
    requires |gap| == |checksum|
    ensures (payload + gap)[..|payload|] == payload
    ensures WriteAt(payload + gap, |payload|, checksum) == payload + checksum
  {
  }

  method PutCounter(buffer: array<byte>, offset: nat, value: Option<U64>)
    requires offset + 8 <= buffer.Length
    modifies buffer
    ensures buffer[..] == if value.None? then old(buffer[..]) else WriteAt(old(buffer[..]), offset, Le(value.value, 8))
  {
    if value.Some? {
      PutLe(buffer, offset, value.value, 8);
    }
  }

  /** The loop over the counters, which also collects the validity bits. */
  method FillCounters(buffer: array<byte>, values: seq<Option<U64>>, ghost head: seq<byte>) returns (validity: nat)
    requires |head| == 16 && |values| == 5 && buffer[..] == Filling(head, values, 0, 48)
    modifies buffer
    ensures buffer[..] == Filling(head, values, 5, 8) && validity == Validity(values)
  {
    validity := 0;
    ghost var zeros := 48;
    for i := 0 to 5
      invariant zeros == 48 - 8 * i && buffer[..] == Filling(head, values, i, zeros)
      invariant validity == Validity(values[..i])
    {
      assert values[..i + 1] == values[..i] + [values[i]];
      AppendValidity(values[..i], values[i]);
      FillStep(head, values, i, zeros);
      assert |buffer[..]| == |head| + 8 * i + zeros;
      if values[i].Some? {
        validity := validity + Pow2(i);
      }
      PutCounter(buffer, 16 + i * 8, values[i]);
      zeros := zeros - 8;
    }
    assert values[..5] == values;
  }

  method BuildRecord(s: Sample) returns (bytes: seq<byte>)
    ensures bytes == EncodeRecord(s)
  {
    var buffer := new byte[RECORD_BYTES](i => 0);
    assert buffer[..] == Zeros(RECORD_BYTES);
    var values := Values(s.metrics);
    ghost var time := Le(Unsigned(s.time), 8);
    FillStart(time, values);
    PutLe(buffer, 0, Unsigned(s.time), 8);
    var validity := FillCounters(buffer, values, time + Zeros(8));
    FillEnd(time, values, Le(validity, 8), Le(Checksum(Payload(s)), 8));
    PutLe(buffer, 8, validity, 8);
    assert buffer[..56] == buffer[..][..56];
    var hash := ComputeChecksum(buffer[..56]);
    PutLe(buffer, 56, hash, 8);
    bytes := buffer[..];
  }

  // ---- header ------------------------------------------------------------------

  datatype Header = Header(next: U32, count: U32, sequence: U64)

  predicate ValidHeader(h: Header) {
    h.next < CAPACITY && h.count <= CAPACITY
  }

  function HeaderFields(h: Header): (bytes: seq<byte>)
    ensures |bytes| == 40
  {
    MAGIC + Le(FORMAT_VERSION, 4) + Le(HEADER_BYTES, 4) + Le(RECORD_BYTES, 4) + Le(CAPACITY, 4)
    + Le(h.next, 4) + Le(h.count, 4) + Le(h.sequence, 8)
  }

  function EncodeHeader(h: Header): (bytes: seq<byte>)
    ensures |bytes| == HEADER_BYTES
  {
    HeaderFields(h) + Le(Checksum(HeaderFields(h)), 8) + Zeros(16)
  }

  function U32At(bytes: seq<byte>, offset: nat): U32
    requires offset + 4 <= |bytes|
  {
    Widths();
    FromLeRoundTrip(bytes[offset..offset + 4]);
    FromLe(bytes[offset..offset + 4])
  }

  function ReadHeader(file: seq<byte>): (r: Option<Header>)
    ensures r.Some? ==> |file| == RING_BYTES && ValidHeader(r.value)
  {
    if |file| != RING_BYTES then None
    else
      var bytes := file[..HEADER_BYTES];
      if || bytes[..8] != MAGIC
         || U32At(bytes, 8) != FORMAT_VERSION
         || U32At(bytes, 12) != HEADER_BYTES
         || U32At(bytes, 16) != RECORD_BYTES
         || U32At(bytes, 20) != CAPACITY
         || U64At(bytes, 40) != Checksum(bytes[..40])
      then None
      else
        var h := Header(U32At(bytes, 24), U32At(bytes, 28), U64At(bytes, 32));
        if ValidHeader(h) then Some(h) else None
  }

  lemma HalfWordAt(bytes: seq<byte>, offset: nat, value: U32)
    requires offset + 4 <= |bytes| && bytes[offset..offset + 4] == Le(value, 4)
    ensures U32At(bytes, offset) == value
  {
    Widths();
    LeRoundTrip(value, 4);
  }

  /** The fields of a header, each found where it was put. */
  lemma FieldsAt(
    magic: seq<byte>, a: seq<byte>, b: seq<byte>, c: seq<byte>, d: seq<byte>, next: seq<byte>, count: seq<byte>,
    sequence: seq<byte>, checksum: seq<byte>, rest: seq<byte>)
    requires |magic| == |sequence| == |checksum| == 8 && |a| == |b| == |c| == |d| == |next| == |count| == 4
    ensures var fields := magic + a + b + c + d + next + count + sequence;
            var bytes := fields + checksum + rest;
            && bytes[..8] == magic && bytes[8..12] == a && bytes[12..16] == b && bytes[16..20] == c
            && bytes[20..24] == d && bytes[24..28] == next && bytes[28..32] == count && bytes[32..40] == sequence
            && bytes[..40] == fields && bytes[40..48] == checksum
  {
    var start := magic + a + b + c;
    var fields := start + d + next + count + sequence;
    var bytes := fields + checksum + rest;
    assert fields == magic + a + b + c + d + next + count + sequence;
    assert bytes[..20] == start;
    SliceOfSlice(bytes, 0, 20, 8, 12);
    SliceOfSlice(bytes, 0, 20, 12, 16);
    SliceOfSlice(bytes, 0, 20, 16, 20);
  }

  lemma HeaderFieldsAt(h: Header)
    ensures var bytes := EncodeHeader(h);
            && bytes[..8] == MAGIC && bytes[..40] == HeaderFields(h)
            && bytes[8..12] == Le(FORMAT_VERSION, 4)
            && bytes[12..16] == Le(HEADER_BYTES, 4)
            && bytes[16..20] == Le(RECORD_BYTES, 4)
            && bytes[20..24] == Le(CAPACITY, 4)
            && bytes[24..28] == Le(h.next, 4)
            && bytes[28..32] == Le(h.count, 4)
            && bytes[32..40] == Le(h.sequence, 8)
            && bytes[40..48] == Le(Checksum(HeaderFields(h)), 8)
  {
    FieldsAt(MAGIC, Le(FORMAT_VERSION, 4), Le(HEADER_BYTES, 4), Le(RECORD_BYTES, 4), Le(CAPACITY, 4),
             Le(h.next, 4), Le(h.count, 4), Le(h.sequence, 8), Le(Checksum(HeaderFields(h)), 8), Zeros(16));
  }

  /** A file that starts with an encoded header is read back with that header. */
  lemma HeaderRoundTrip(file: seq<byte>, h: Header)
    requires |file| == RING_BYTES && ValidHeader(h) && file[..HEADER_BYTES] == EncodeHeader(h)
    ensures ReadHeader(file) == Some(h)
  {
    var bytes := EncodeHeader(h);
    HeaderFieldsAt(h);
    HalfWordAt(bytes, 8, FORMAT_VERSION);
    HalfWordAt(bytes, 12, HEADER_BYTES);
    HalfWordAt(bytes, 16, RECORD_BYTES);
    HalfWordAt(bytes, 20, CAPACITY);
    HalfWordAt(bytes, 24, h.next);
    HalfWordAt(bytes, 28, h.count);
    WordAt(bytes, 32, h.sequence);
    WordAt(bytes, 40, Checksum(HeaderFields(h)));
  }

  lemma HalfWordIs(bytes: seq<byte>, offset: nat)
    requires offset + 4 <= |bytes|
    ensures bytes[offset..offset + 4] == Le(U32At(bytes, offset), 4)
  {
    FromLeRoundTrip(bytes[offset..offset + 4]);
  }

  lemma WordIs(bytes: seq<byte>, offset: nat)
    requires offset + 8 <= |bytes|
    ensures bytes[offset..offset + 8] == Le(U64At(bytes, offset), 8)
  {
    FromLeRoundTrip(bytes[offset..offset + 8]);
  }

  lemma Fields(bytes: seq<byte>)
    requires |bytes| >= 48
    ensures bytes[..40] == bytes[..8] + bytes[8..12] + bytes[12..16] + bytes[16..20] + bytes[20..24]
                           + bytes[24..28] + bytes[28..32] + bytes[32..40]
    ensures bytes[..48] == bytes[..40] + bytes[40..48]
  {
  }

  /** What a header that is read looks like. */
  lemma ReadHeaderIsEncoded(file: seq<byte>)
    requires ReadHeader(file).Some?
    ensures var h := ReadHeader(file).value;
            file[..48] == HeaderFields(h) + Le(Checksum(HeaderFields(h)), 8)
  {
    var bytes := file[..HEADER_BYTES];
    HalfWordIs(bytes, 8);
    HalfWordIs(bytes, 12);
    HalfWordIs(bytes, 16);
    HalfWordIs(bytes, 20);
    HalfWordIs(bytes, 24);
    HalfWordIs(bytes, 28);
    WordIs(bytes, 32);
    WordIs(bytes, 40);
    Fields(bytes);
    assert file[..48] == bytes[..48];
  }

  /** Only the first 48 bytes of a header are looked at. */
  lemma OnlyFieldsMatter(a: seq<byte>, b: seq<byte>)
    requires |a| == |b| == RING_BYTES && a[..48] == b[..48]
    ensures ReadHeader(a) == ReadHeader(b)
  {
    SameSlice(a, b, 0, 8);
    SameSlice(a, b, 8, 12);
    SameSlice(a, b, 12, 16);
    SameSlice(a, b, 16, 20);
    SameSlice(a, b, 20, 24);
    SameSlice(a, b, 24, 28);
    SameSlice(a, b, 28, 32);
    SameSlice(a, b, 32, 40);
    SameSlice(a, b, 0, 40);
    SameSlice(a, b, 40, 48);
  }

  lemma SameSlice(a: seq<byte>, b: seq<byte>, lo: nat, hi: nat)
    requires |a| >= HEADER_BYTES && |b| >= HEADER_BYTES && a[..48] == b[..48] && lo <= hi <= 48
    ensures a[..HEADER_BYTES][lo..hi] == b[..HEADER_BYTES][lo..hi]
  {
    SliceOfSlice(a, 0, HEADER_BYTES, lo, hi);
    SliceOfSlice(b, 0, HEADER_BYTES, lo, hi);
    SliceOfSlice(a, 0, 48, lo, hi);
    SliceOfSlice(b, 0, 48, lo, hi);
  }

  /** A header is read exactly where it was encoded: no other file of the right length, of
      another version, size or capacity, has this or any header. */
  lemma HeaderExactly(file: seq<byte>, h: Header)
    requires |file| == RING_BYTES
    ensures ReadHeader(file) == Some(h) <==> ValidHeader(h) && file[..48] == EncodeHeader(h)[..48]
  {
    HeaderFieldsAt(h);
    assert EncodeHeader(h)[..48] == HeaderFields(h) + Le(Checksum(HeaderFields(h)), 8);
    if ReadHeader(file) == Some(h) {
      ReadHeaderIsEncoded(file);
    }
    if ValidHeader(h) && file[..48] == EncodeHeader(h)[..48] {
      var other := EncodeHeader(h) + Zeros(RING_BYTES - HEADER_BYTES);
      assert other[..HEADER_BYTES] == EncodeHeader(h) && other[..48] == EncodeHeader(h)[..48];
      HeaderRoundTrip(other, h);
      OnlyFieldsMatter(file, other);
    }
  }

  /** Any change to a single byte of the checked part of a valid header is refused. */
  lemma OneHeaderByteChangeIsRefused(file: seq<byte>, i: nat, b: byte)
    requires ReadHeader(file).Some? && i < 48 && b != file[i]
    ensures ReadHeader(file[i := b]) == None
  {
    var bytes, changed := file[..HEADER_BYTES], file[i := b][..HEADER_BYTES];
    assert changed == bytes[i := b];
    if i < 40 {
      assert changed[..40] == bytes[..40][i := b];
      assert changed[40..48] == bytes[40..48];
      FnvDetectsOneByte(FNV_BASIS, bytes[..40], i, b);
    } else {
      assert changed[..40] == bytes[..40];
      FromLeRoundTrip(changed[40..48]);
      FromLeRoundTrip(bytes[40..48]);
      assert changed[40..48][i - 40] == b && bytes[40..48][i - 40] == bytes[i];
    }
  }
}
