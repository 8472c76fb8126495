/** Packet fingerprints from padded scalar loads and from overlapping 16-byte vector loads.
    Models src/simd_packet_hotpath.rs. A byte or a u64 is the sequence of its bits, least significant first. */
module PacketFingerprint {
  import opened Machine

  type Byte = b: seq<bool> | |b| == 8 witness seq(8, _ => false)

  type Word = w: seq<bool> | |w| == 64 witness seq(64, _ => false)

  type Bytes = seq<Byte>

  const ZERO_BYTE: Byte := seq(8, _ => false)

  function Xor(a: Word, b: Word): Word {
    seq(64, i requires 0 <= i < 64 => a[i] != b[i])
  }

  /** Bit i moves to bit i + n. */
  function RotateLeft(w: Word, n: nat): Word
    requires n <= 64
  {
    w[64 - n..] + w[..64 - n]
  }

  /** `u64::from_le_bytes`: the first byte holds the least significant bits. */
  function FromLeBytes(b: Bytes): Word
    requires |b| == 8
  {
    var first: seq<bool> := b[0];
    first + b[1] + b[2] + b[3] + b[4] + b[5] + b[6] + b[7]
  }

  // ----- loads

  /** The first eight bytes, short slices padded with zeroes. */
  function Padded(bytes: Bytes): (padded: Bytes)
    ensures |padded| == 8
  {
    seq(8, i requires 0 <= i < 8 => if i < |bytes| then bytes[i] else ZERO_BYTE)
  }

  method LoadU64Padded(bytes: Bytes) returns (value: Word)
    ensures value == FromLeBytes(Padded(bytes))
  {
    var buffer := new Byte[8](_ => ZERO_BYTE);
    var n := if |bytes| < 8 then |bytes| else 8;
    for i := 0 to n
      invariant forall j | 0 <= j < 8 :: buffer[j] == if j < i then bytes[j] else ZERO_BYTE
    {
      buffer[i] := bytes[i];
    }
    assert buffer[..] == Padded(bytes);
    value := FromLeBytes(buffer[..]);
  }

  /** A 16-byte vector as two 64-bit lanes. */
  function LowLane(vector: Bytes): Word
    requires |vector| == 16
  {
    FromLeBytes(vector[..8])
  }

  function HighLane(vector: Bytes): Word
    requires |vector| == 16
  {
    FromLeBytes(vector[8..])
  }

  /** The low lane of a load at the start of the packet. */
  function SimdFirstU64(packet: Bytes): Word
    requires |packet| >= 16
  {
    LowLane(packet[..16])
  }

  /** The high lane of a load sixteen bytes before the end, which overlaps the first for short packets. */
  function SimdLastU64(packet: Bytes): Word
    requires |packet| >= 16
  {
    HighLane(packet[|packet| - 16..])
  }

  function LastBytes(packet: Bytes): Bytes {
    packet[if |packet| < 8 then 0 else |packet| - 8..]
  }

  lemma LanesArePaddedLoads(packet: Bytes)
    requires |packet| >= 16
    ensures SimdFirstU64(packet) == FromLeBytes(Padded(packet))
    ensures SimdLastU64(packet) == FromLeBytes(Padded(LastBytes(packet)))
  {
    hide FromLeBytes;
    assert packet[..16][..8] == Padded(packet);
    assert packet[|packet| - 16..][8..] == Padded(LastBytes(packet));
  }

  // ----- the length as a word

  /** The low `count` bits of a number. */
  function BitsOf(n: nat, count: nat): (bits: seq<bool>)
    ensures |bits| == count
  {
    if count == 0 then [] else [n % 2 == 1] + BitsOf(n / 2, count - 1)
  }

  function ValueOf(bits: seq<bool>): nat {
    if bits == [] then 0 else (if bits[0] then 1 else 0) + 2 * ValueOf(bits[1..])
  }

  lemma {:induction false} BitsHoldValue(n: nat, count: nat)
    requires n < PowerOf2(count)
    ensures ValueOf(BitsOf(n, count)) == n
  {
    if count == 0 {
    } else {
      BitsHoldValue(n / 2, count - 1);
    }
  }

  /** `u64::try_from(packet.len()).unwrap_or(u64::MAX)`. */
  function LengthWord(packet: Bytes): Word {
    BitsOf(Capped(|packet|), 64)
  }

  lemma LengthWordIsLength(packet: Bytes)
    ensures ValueOf(LengthWord(packet)) == Capped(|packet|)
  {
    hide BitsOf, ValueOf, PowerOf2;
    WordsHold64Bits();
    BitsHoldValue(Capped(|packet|), 64);
  }

  // ----- fingerprints

  function Mix(len: Word, prefix: Word, suffix: Word): Word {
    Xor(Xor(RotateLeft(len, 17), RotateLeft(prefix, 29)), RotateLeft(suffix, 43))
  }

  /** What both forms compute: length, first eight and last eight bytes, mixed. */
  function Fingerprint(packet: Bytes): Word {
    Mix(LengthWord(packet), FromLeBytes(Padded(packet)), FromLeBytes(Padded(LastBytes(packet))))
  }

  // ----- every bit of a fingerprint, read off the packet

  /** Bit `k` of the packet's length, capped to a u64. */
  predicate LengthBit(packet: Bytes, k: nat) {
    ShiftedRight(if |packet| <= 0xFFFF_FFFF_FFFF_FFFF then |packet| else 0xFFFF_FFFF_FFFF_FFFF, k) % 2 == 1
  }

  /** Bit `k` of the first eight bytes, in little-endian order and with zeroes past the end. */
  predicate FirstBit(packet: Bytes, k: nat) {
    k / 8 < |packet| && packet[k / 8][k % 8]
  }

  /** The same for the last eight bytes, or all of them when there are fewer. */
  predicate LastBit(packet: Bytes, k: nat) {
    var from := if |packet| < 8 then 0 else |packet| - 8;
    from + k / 8 < |packet| && packet[from + k / 8][k % 8]
  }

  lemma {:induction false} BitOfNumber(n: nat, count: nat, k: nat)
    requires k < count
    ensures BitsOf(n, count)[k] <==> ShiftedRight(n, k) % 2 == 1
  {
    if k == 0 {
    } else {
      BitOfNumber(n / 2, count - 1, k - 1);
    }
  }

  lemma ByteOfWord(b: Bytes, i: nat)
    requires |b| == 8 && i < 8
    ensures FromLeBytes(b)[8 * i..8 * i + 8] == b[i]
  {
  }

  lemma BitOfWord(b: Bytes, i: nat, j: nat)
    requires |b| == 8 && i < 8 && j < 8
    ensures FromLeBytes(b)[8 * i + j] == b[i][j]
  {
    hide FromLeBytes;
    ByteOfWord(b, i);
    assert FromLeBytes(b)[8 * i..8 * i + 8][j] == FromLeBytes(b)[8 * i + j];
  }

  lemma RotatedBit(w: Word, n: nat, i: nat)
    requires n <= 64 && i < 64
    ensures RotateLeft(w, n)[i] == w[if i < n then i + 64 - n else i - n]
  {
  }

  /** Rotations by 17, 29 and 43 and two exclusive ors, bit by bit. */
  lemma MixedBit(len: Word, prefix: Word, suffix: Word, i: nat)
    requires i < 64
    ensures Mix(len, prefix, suffix)[i]
       <==> ((len[(i + 47) % 64] != prefix[(i + 35) % 64]) != suffix[(i + 21) % 64])
  {
    hide RotateLeft;
    RotatedBit(len, 17, i);
    RotatedBit(prefix, 29, i);
    RotatedBit(suffix, 43, i);
  }

  lemma LoadedBit(bytes: Bytes, k: nat)
    requires k < 64
    ensures FromLeBytes(Padded(bytes))[k] <==> FirstBit(bytes, k)
  {
    hide FromLeBytes;
    BitOfWord(Padded(bytes), k / 8, k % 8);
  }

  lemma LastLoadedBit(packet: Bytes, k: nat)
    requires k < 64
    ensures FromLeBytes(Padded(LastBytes(packet)))[k] <==> LastBit(packet, k)
  {
    hide FromLeBytes, Padded;
    LoadedBit(LastBytes(packet), k);
  }

  lemma LengthWordBit(packet: Bytes, k: nat)
    requires k < 64
    ensures LengthWord(packet)[k] <==> LengthBit(packet, k)
  {
    hide BitsOf, ShiftedRight;
    BitOfNumber(Capped(|packet|), 64, k);
  }

  lemma FingerprintBit(packet: Bytes, i: nat)
    requires i < 64
    ensures Fingerprint(packet)[i]
       <==> ((LengthBit(packet, (i + 47) % 64) != FirstBit(packet, (i + 35) % 64))
             != LastBit(packet, (i + 21) % 64))
  {
    hide Mix, FromLeBytes, Padded, LastBytes, LengthWord, LengthBit, FirstBit, LastBit;
    MixedBit(LengthWord(packet), FromLeBytes(Padded(packet)), FromLeBytes(Padded(LastBytes(packet))), i);
    LengthWordBit(packet, (i + 47) % 64);
    LoadedBit(packet, (i + 35) % 64);
    LastLoadedBit(packet, (i + 21) % 64);
  }

  /** Every bit of the fingerprint of every packet. */
  lemma FingerprintBits(packet: Bytes)
    ensures forall i | 0 <= i < 64 ::
              Fingerprint(packet)[i]
              <==> ((LengthBit(packet, (i + 47) % 64) != FirstBit(packet, (i + 35) % 64))
                    != LastBit(packet, (i + 21) % 64))
  {
    forall i | 0 <= i < 64
      ensures Fingerprint(packet)[i]
              <==> ((LengthBit(packet, (i + 47) % 64) != FirstBit(packet, (i + 35) % 64))
                    != LastBit(packet, (i + 21) % 64))
    {
      FingerprintBit(packet, i);
    }
  }

  method PacketFingerprintScalar(packet: Bytes) returns (fingerprint: Word)
    ensures fingerprint == Fingerprint(packet)
    ensures forall i | 0 <= i < 64 ::
              fingerprint[i]
              <==> ((LengthBit(packet, (i + 47) % 64) != FirstBit(packet, (i + 35) % 64))
                    != LastBit(packet, (i + 21) % 64))
  {
    FingerprintBits(packet);
    hide LengthBit, FirstBit, LastBit;
    var len := LengthWord(packet);
    var prefix := LoadU64Padded(packet);
    var suffix := LoadU64Padded(LastBytes(packet));
    fingerprint := Mix(len, prefix, suffix);
  }

  /** The vector form computes the scalar fingerprint, for every packet. */
  method PacketFingerprintSimd(packet: Bytes) returns (fingerprint: Word)
    ensures fingerprint == Fingerprint(packet)
    ensures forall i | 0 <= i < 64 ::
              fingerprint[i]
              <==> ((LengthBit(packet, (i + 47) % 64) != FirstBit(packet, (i + 35) % 64))
                    != LastBit(packet, (i + 21) % 64))
  {
    FingerprintBits(packet);
    hide LengthBit, FirstBit, LastBit;
    if |packet| < 16 {
      fingerprint := PacketFingerprintScalar(packet);
      return;
    }
    LanesArePaddedLoads(packet);
    fingerprint := Mix(LengthWord(packet), SimdFirstU64(packet), SimdLastU64(packet));
  }

  // ----- rotation and exclusive or

  const ZERO_WORD: Word := seq(64, _ => false)

  lemma XorIsZero(a: Word, b: Word)
    ensures Xor(a, b) == ZERO_WORD <==> a == b
  {
    if Xor(a, b) == ZERO_WORD {
      forall i | 0 <= i < 64 ensures a[i] == b[i] {
        assert !Xor(a, b)[i];
      }
    }
  }

  lemma XorWithZero(w: Word)
    ensures Xor(w, ZERO_WORD) == w && Xor(ZERO_WORD, w) == w
  {
  }

  lemma XorBalances(a1: Word, b1: Word, c1: Word, a2: Word, b2: Word, c2: Word)
    ensures Xor(Xor(a1, b1), c1) == Xor(Xor(a2, b2), c2) <==> Xor(b1, b2) == Xor(Xor(a1, a2), Xor(c1, c2))
  {
    var l, r := Xor(Xor(a1, b1), c1), Xor(Xor(a2, b2), c2);
    var x, y := Xor(b1, b2), Xor(Xor(a1, a2), Xor(c1, c2));
    assert forall i | 0 <= i < 64 :: l[i] == r[i] <==> x[i] == y[i];
    hide Xor;
    if l == r {
      assert x == y;
    }
    if x == y {
      assert l == r;
    }
  }

  lemma RotateXor(a: Word, b: Word, n: nat)
    requires n <= 64
    ensures RotateLeft(Xor(a, b), n) == Xor(RotateLeft(a, n), RotateLeft(b, n))
  {
  }

  lemma RotateTwice(w: Word, n: nat, m: nat)
    requires n <= 64 && m <= 64
    ensures RotateLeft(RotateLeft(w, n), m) == RotateLeft(w, if n + m <= 64 then n + m else n + m - 64)
  {
  }

  lemma RotateInjective(a: Word, b: Word, n: nat)
    requires n <= 64 && RotateLeft(a, n) == RotateLeft(b, n)
    ensures a == b
  {
    RotateTwice(a, n, 64 - n);
    RotateTwice(b, n, 64 - n);
  }

  lemma RotatedIsZero(w: Word, n: nat)
    requires n <= 64
    ensures RotateLeft(w, n) == ZERO_WORD <==> w == ZERO_WORD
  {
    assert RotateLeft(ZERO_WORD, n) == ZERO_WORD;
    hide RotateLeft;
    if RotateLeft(w, n) == ZERO_WORD {
      RotateInjective(w, ZERO_WORD, n);
    }
  }

  // ----- what a fingerprint distinguishes

  /** Fingerprints collide exactly when the difference of the prefixes is the difference of the lengths,
      rotated left by 52, against that of the suffixes, rotated left by 14. */
  lemma MixCollides(len1: Word, p1: Word, s1: Word, len2: Word, p2: Word, s2: Word)
    ensures Mix(len1, p1, s1) == Mix(len2, p2, s2)
       <==> Xor(p1, p2) == Xor(RotateLeft(Xor(len1, len2), 52), RotateLeft(Xor(s1, s2), 14))
  {
    hide Xor, RotateLeft;
    XorBalances(RotateLeft(len1, 17), RotateLeft(p1, 29), RotateLeft(s1, 43),
                RotateLeft(len2, 17), RotateLeft(p2, 29), RotateLeft(s2, 43));
    RotateXor(len1, len2, 17);
    RotateXor(p1, p2, 29);
    RotateXor(s1, s2, 43);
    var len, s := Xor(len1, len2), Xor(s1, s2);
    RotateTwice(len, 52, 29);
    RotateTwice(s, 14, 29);
    RotateXor(RotateLeft(len, 52), RotateLeft(s, 14), 29);
    if Mix(len1, p1, s1) == Mix(len2, p2, s2) {
      RotateInjective(Xor(p1, p2), Xor(RotateLeft(len, 52), RotateLeft(s, 14)), 29);
    }
  }

  /** When two of the three parts agree, the third decides. */
  lemma MixDistinguishes(len1: Word, p1: Word, s1: Word, len2: Word, p2: Word, s2: Word)
    ensures len1 == len2 && s1 == s2 ==> (Mix(len1, p1, s1) == Mix(len2, p2, s2) <==> p1 == p2)
    ensures len1 == len2 && p1 == p2 ==> (Mix(len1, p1, s1) == Mix(len2, p2, s2) <==> s1 == s2)
    ensures p1 == p2 && s1 == s2 ==> (Mix(len1, p1, s1) == Mix(len2, p2, s2) <==> len1 == len2)
  {
    hide Mix, Xor, RotateLeft;
    MixCollides(len1, p1, s1, len2, p2, s2);
    XorIsZero(len1, len2);
    XorIsZero(p1, p2);
    XorIsZero(s1, s2);
    RotatedIsZero(Xor(len1, len2), 52);
    RotatedIsZero(Xor(s1, s2), 14);
    XorWithZero(RotateLeft(Xor(len1, len2), 52));
    XorWithZero(RotateLeft(Xor(s1, s2), 14));
  }

  lemma LeBytesAreInjective(a: Bytes, b: Bytes)
    requires |a| == |b| == 8 && FromLeBytes(a) == FromLeBytes(b)
    ensures a == b
  {
    forall i | 0 <= i < 8 ensures a[i] == b[i] {
      ByteOfWord(a, i);
      ByteOfWord(b, i);
    }
  }

  /** When two of length, first eight and last eight bytes agree, the fingerprints agree exactly when the
      third does. */
  lemma FingerprintsDistinguish(a: Bytes, b: Bytes)
    requires 8 <= |a| <= U64_MAX && 8 <= |b| <= U64_MAX
    ensures |a| == |b| && LastBytes(a) == LastBytes(b) ==> (Fingerprint(a) == Fingerprint(b) <==> a[..8] == b[..8])
    ensures |a| == |b| && a[..8] == b[..8] ==> (Fingerprint(a) == Fingerprint(b) <==> LastBytes(a) == LastBytes(b))
    ensures a[..8] == b[..8] && LastBytes(a) == LastBytes(b) ==> (Fingerprint(a) == Fingerprint(b) <==> |a| == |b|)
  {
    hide Mix, FromLeBytes, BitsOf;
    assert Padded(a) == a[..8] && Padded(b) == b[..8];
    assert Padded(LastBytes(a)) == LastBytes(a) && Padded(LastBytes(b)) == LastBytes(b);
    LengthWordIsLength(a);
    LengthWordIsLength(b);
    assert |a| == |b| ==> LengthWord(a) == LengthWord(b);
    hide Padded, LastBytes, LengthWord, ValueOf;
    var fa, fb := FromLeBytes(a[..8]), FromLeBytes(b[..8]);
    var la, lb := FromLeBytes(LastBytes(a)), FromLeBytes(LastBytes(b));
    MixDistinguishes(LengthWord(a), fa, la, LengthWord(b), fb, lb);
    if fa == fb {
      LeBytesAreInjective(a[..8], b[..8]);
    }
    if la == lb {
      LeBytesAreInjective(LastBytes(a), LastBytes(b));
    }
  }

  lemma FingerprintIsMix(packet: Bytes)
    ensures Fingerprint(packet)
         == Mix(LengthWord(packet), FromLeBytes(Padded(packet)), FromLeBytes(Padded(LastBytes(packet))))
  {
  }

  /** Packets of one length collide exactly when the difference of their first eight bytes is that of their
      last eight, rotated left by 14; shorter packets are padded, so first and last are the same bytes. */
  lemma PacketsCollide(a: Bytes, b: Bytes)
    requires |a| == |b|
    ensures Fingerprint(a) == Fingerprint(b)
       <==> Xor(FromLeBytes(Padded(a)), FromLeBytes(Padded(b)))
            == RotateLeft(Xor(FromLeBytes(Padded(LastBytes(a))), FromLeBytes(Padded(LastBytes(b)))), 14)
  {
    var len := LengthWord(a);
    assert LengthWord(b) == len;
    hide *;
    var pa, pb := FromLeBytes(Padded(a)), FromLeBytes(Padded(b));
    var sa, sb := FromLeBytes(Padded(LastBytes(a))), FromLeBytes(Padded(LastBytes(b)));
    FingerprintIsMix(a);
    FingerprintIsMix(b);
    MixCollides(len, pa, sa, len, pb, sb);
    XorIsZero(len, len);
    RotatedIsZero(Xor(len, len), 52);
    XorWithZero(RotateLeft(Xor(sa, sb), 14));
  }

  // ----- packets shorter than a word

  lemma RotatedAround(w: Word)
    requires RotateLeft(w, 14) == w
    ensures RotateLeft(w, 62) == w
  {
    hide RotateLeft;
    RotateTwice(w, 14, 14);
    RotateTwice(w, 28, 28);
    RotateTwice(w, 56, 56);
    RotateTwice(w, 48, 14);
  }

  /** Rotation by 14 fixes only words of period 2. */
  lemma FixedByRotation(w: Word)
    requires RotateLeft(w, 14) == w
    ensures forall i | 0 <= i < 62 :: w[i] == w[i + 2]
  {
    RotatedAround(w);
    var r := w[2..] + w[..2];
    assert r == w;
    hide RotateLeft;
    assert forall i | 0 <= i < 62 :: r[i] == w[i + 2];
  }

  lemma {:induction false} PeriodicFromTop(w: Word, i: nat)
    requires i < 64 && !w[62] && !w[63] && forall j | 0 <= j < 62 :: w[j] == w[j + 2]
    ensures !w[i]
    decreases 64 - i
  {
    if i >= 62 {
    } else {
      PeriodicFromTop(w, i + 2);
    }
  }

  lemma ShortPacketsFillNoWord(packet: Bytes)
    requires |packet| < 8
    ensures !FromLeBytes(Padded(packet))[62] && !FromLeBytes(Padded(packet))[63]
  {
    var w := FromLeBytes(Padded(packet));
    hide FromLeBytes;
    ByteOfWord(Padded(packet), 7);
    assert w[56..64][6] == w[62] && w[56..64][7] == w[63];
  }

  /** Different packets of one length below eight bytes never collide, although prefix and suffix are the
      same padded word. */
  lemma ShortPacketsNeverCollide(a: Bytes, b: Bytes)
    requires |a| == |b| < 8
    ensures Fingerprint(a) == Fingerprint(b) <==> a == b
  {
    hide Mix, Fingerprint, FromLeBytes, BitsOf, RotateLeft;
    assert LastBytes(a) == a && LastBytes(b) == b;
    if Fingerprint(a) == Fingerprint(b) {
      var wa, wb := FromLeBytes(Padded(a)), FromLeBytes(Padded(b));
      var x := Xor(wa, wb);
      PacketsCollide(a, b);
      FixedByRotation(x);
      ShortPacketsFillNoWord(a);
      ShortPacketsFillNoWord(b);
      forall i | 0 <= i < 64 ensures !x[i] {
        PeriodicFromTop(x, i);
      }
      assert x == ZERO_WORD;
      XorIsZero(wa, wb);
      LeBytesAreInjective(Padded(a), Padded(b));
      assert forall i | 0 <= i < |a| :: a[i] == Padded(a)[i] && b[i] == Padded(b)[i];
    }
  }

  // ----- packets of a word or more

  const ONES_BYTE: Byte := seq(8, _ => true)

  const ONES_WORD: Word := seq(64, _ => true)

  /** A packet of one byte repeated. */
  function Repeated(byte: Byte, n: nat): (packet: Bytes)
    ensures |packet| == n
  {
    seq(n, _ => byte)
  }

  lemma RepeatedLoads(byte: Byte, n: nat)
    requires n >= 8
    ensures Padded(Repeated(byte, n)) == Padded(LastBytes(Repeated(byte, n))) == Repeated(byte, 8)
  {
  }

  lemma ConstantWords()
    ensures FromLeBytes(Repeated(ZERO_BYTE, 8)) == ZERO_WORD
    ensures FromLeBytes(Repeated(ONES_BYTE, 8)) == ONES_WORD
  {
    forall i | 0 <= i < 64
      ensures !FromLeBytes(Repeated(ZERO_BYTE, 8))[i] && FromLeBytes(Repeated(ONES_BYTE, 8))[i]
    {
      BitOfWord(Repeated(ZERO_BYTE, 8), i / 8, i % 8);
      BitOfWord(Repeated(ONES_BYTE, 8), i / 8, i % 8);
    }
  }

  /** From eight bytes on, the packets of zeroes and of ones collide: rotation fixes their difference. */
  lemma LongPacketsCollide(n: nat)
    requires n >= 8
    ensures Repeated(ZERO_BYTE, n) != Repeated(ONES_BYTE, n)
    ensures Fingerprint(Repeated(ZERO_BYTE, n)) == Fingerprint(Repeated(ONES_BYTE, n))
  {
    var a, b := Repeated(ZERO_BYTE, n), Repeated(ONES_BYTE, n);
    assert a[0][0] != b[0][0];
    RepeatedLoads(ZERO_BYTE, n);
    RepeatedLoads(ONES_BYTE, n);
    ConstantWords();
    assert Xor(ZERO_WORD, ONES_WORD) == ONES_WORD == RotateLeft(ONES_WORD, 14);
    hide *;
    PacketsCollide(a, b);
  }

  /** Fingerprints tell all packets of one length apart exactly below eight bytes. */
  lemma LengthsWithoutCollision(n: nat)
    ensures (forall a: Bytes, b: Bytes | |a| == |b| == n && a != b :: Fingerprint(a) != Fingerprint(b)) <==> n < 8
  {
    hide *;
    if n < 8 {
      forall a: Bytes, b: Bytes | |a| == |b| == n && a != b ensures Fingerprint(a) != Fingerprint(b) {
        ShortPacketsNeverCollide(a, b);
      }
    } else {
      LongPacketsCollide(n);
      assert |Repeated(ZERO_BYTE, n)| == |Repeated(ONES_BYTE, n)| == n;
    }
  }
}
