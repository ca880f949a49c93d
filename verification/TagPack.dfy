/**
 * Storage and reference tags packed into command dwords 2, 3 and 14. Section 5.2.1 of the NVM Command Set
 * Specification lays the two tags side by side in a field whose width W depends on the protection format.
 */
module TagPack {
  import opened Options
  import opened Arithmetic

  function Pow2(n: nat): (p: nat)
    ensures p > 0
  {
    if n == 0 then 1 else 2 * Pow2(n - 1)
  }

  /** Bitwise or. */
  function Or(x: nat, y: nat): nat {
    if x == 0 then y
    else 2 * Or(x / 2, y / 2) + if x % 2 == 1 || y % 2 == 1 then 1 else 0
  }

  const TWO16 := 0x1_0000
  const TWO32 := 0x1_0000_0000
  const TWO64 := 0x1_0000_0000_0000_0000

  // ----- machine operations on 64-bit words -----

  /**
   * Counts outside 0 to 63 are undefined in C. For 64, which a legal tag size reaches, hardware either masks the
   * count to zero or shifts everything out.
   */
  function Shl(x: nat, n: int, masked: bool): nat {
    if 0 <= n < 64 then x * Pow2(n) % TWO64 else if n == 64 && masked then x else 0
  }

  function Shr(x: nat, n: int): nat {
    if n < 0 then 0 else QuotientIsNat(x, Pow2(n)); x / Pow2(n)
  }

  /** x & 0xffff0000. */
  function AndHigh(x: nat): nat {
    x % TWO32 / TWO16 * TWO16
  }

  // ----- powers of two -----

  lemma {:induction false} PowSum(a: nat, b: nat)
    ensures Pow2(a + b) == Pow2(a) * Pow2(b)
  {
    if a > 0 {
      PowSum(a - 1, b);
      assert Pow2(a + b) == 2 * Pow2(a - 1 + b);
      assert 2 * (Pow2(a - 1) * Pow2(b)) == (2 * Pow2(a - 1)) * Pow2(b);
    }
  }

  lemma Pow16() ensures Pow2(16) == TWO16
  {
    assert Pow2(8) == 256;
    PowSum(8, 8);
  }

  lemma Pow32() ensures Pow2(32) == TWO32
  {
    Pow16();
    PowSum(16, 16);
  }

  lemma Pow64() ensures Pow2(64) == TWO64
  {
    Pow32();
    PowSum(32, 32);
  }

  // ----- quotients and remainders, with the products spelled out -----

  lemma Regroup(a: int, b: int, q: int, r: int, t: int)
    ensures a * (b * q + r) + t == (a * b) * q + (a * r + t)
  {
  }

  lemma Factor(s: int, a: int, b: int, q: int, t: int)
    ensures s * (a * b) + (a * q + t) == a * (s * b + q) + t
  {
  }

  lemma BelowProduct(a: int, b: int, r: int, t: int)
    requires 0 <= r < b && 0 <= t < a
    ensures 0 <= a * r + t < a * b
  {
    var d := b - 1 - r;
    assert a * d >= 0 && a * r >= 0;
    assert a * b == a * (d + 1 + r) == a * d + a + a * r;
  }

  /** Dividing by a product is dividing twice. */
  lemma DivDiv(x: nat, a: nat, b: nat)
    requires a > 0 && b > 0 && a * b > 0
    ensures x / (a * b) == x / a / b
  {
    var d, t := x / a, x % a;
    var q, r := d / b, d % b;
    assert x == a * d + t && d == b * q + r;
    Regroup(a, b, q, r, t);
    BelowProduct(a, b, r, t);
    ModUnique(x, a * b, q, a * r + t);
  }

  /** Reducing modulo a multiple first changes nothing. */
  lemma ModMod(x: nat, a: nat, b: nat)
    requires a > 0 && b > 0 && a * b > 0
    ensures x % (a * b) % a == x % a
  {
    var q, r := x / (a * b), x % (a * b);
    assert x == (a * b) * q + r;
    Regroup(a, b, q, 0, r);
    ModShift(r, a, b * q);
  }

  /** Dividing s * (a * b) + r by a. */
  lemma DivSum(s: nat, a: nat, b: nat, r: nat)
    requires a > 0 && b > 0 && r < a * b
    ensures (s * (a * b) + r) / a == s * b + r / a && (s * (a * b)) / a == s * b && r / a < b
  {
    var q, t := r / a, r % a;
    assert r == a * q + t;
    Factor(s, a, b, q, t);
    Factor(s, a, b, 0, 0);
    ModUnique(s * (a * b) + r, a, s * b + q, t);
    ModUnique(s * (a * b), a, s * b, 0);
    MulSign(a, q - b);
    assert a * (q - b) == a * q - a * b;
  }

  /** Reducing s * a + r modulo a multiple of a. */
  lemma ModSum(s: nat, a: nat, b: nat, r: nat)
    requires r < a && b > 0 && a * b > 0
    ensures (s * a) % (a * b) == (s % b) * a && (s * a + r) % (a * b) == (s % b) * a + r && r % (a * b) == r
  {
    var q, m := s / b, s % b;
    assert s == b * q + m;
    Regroup(a, b, q, m, r);
    Regroup(a, b, q, m, 0);
    BelowProduct(a, b, m, r);
    BelowProduct(a, b, m, 0);
    BelowProduct(a, b, 0, r);
    ModUnique(a * s, a * b, q, a * m);
    ModUnique(a * s + r, a * b, q, a * m + r);
    ModUnique(r, a * b, 0, r);
  }

  /** A multiple of the modulus adds nothing. */
  lemma ModMultiple(s: nat, a: nat, b: nat, r: nat)
    requires a > 0
    ensures (s * (a * b)) % a == 0 && (s * (a * b) + r) % a == r % a
  {
    Factor(s, a, b, 0, 0);
    ModUnique(s * (a * b), a, s * b, 0);
    ModShift(r, a, s * b);
  }

  lemma {:induction false} OrZero(x: nat)
    ensures Or(x, 0) == x
  {
    if x > 0 {
      OrZero(x / 2);
    }
  }

  /** Or of a small number and a multiple of a power of two above it is their sum. */
  lemma {:induction false} OrDisjoint(x: nat, k: nat, m: nat)
    requires x < Pow2(k)
    ensures Or(x, m * Pow2(k)) == m * Pow2(k) + x
  {
    if k == 0 {
      assert x == 0;
    } else {
      var y := m * Pow2(k);
      assert y == 2 * (m * Pow2(k - 1)) by {
        assert m * (2 * Pow2(k - 1)) == 2 * (m * Pow2(k - 1));
      }
      OrDisjoint(x / 2, k - 1, m);
    }
  }

  // ----- one chunk of the packed number -----

  /** The packed number: the storage tag above k bits of reference tag. */
  function Packed(stag: nat, k: nat, rtag: nat): nat {
    stag * Pow2(k) + rtag
  }

  lemma {:induction false} DropLow(stag: nat, k: nat, rtag: nat, o: nat)
    requires rtag < Pow2(k) && o <= k
    ensures Packed(stag, k, rtag) / Pow2(o) == Packed(stag, k - o, rtag / Pow2(o))
    ensures stag * Pow2(k) / Pow2(o) == stag * Pow2(k - o)
    ensures rtag / Pow2(o) < Pow2(k - o)
  {
    PowSum(o, k - o);
    DivSum(stag, Pow2(o), Pow2(k - o), rtag);
  }

  /** Above the reference tag there is only the storage tag. */
  lemma {:induction false} DropAll(stag: nat, k: nat, rtag: nat, o: nat)
    requires rtag < Pow2(k) && k <= o
    ensures Packed(stag, k, rtag) / Pow2(o) == stag / Pow2(o - k) == stag * Pow2(k) / Pow2(o)
    ensures rtag / Pow2(o) == 0
  {
    PowSum(k, o - k);
    var a, b := Pow2(k), Pow2(o - k);
    DivDiv(Packed(stag, k, rtag), a, b);
    DivDiv(stag * a, a, b);
    DivDiv(rtag, a, b);
    ModUnique(Packed(stag, k, rtag), a, stag, rtag);
    ModUnique(stag * a, a, stag, 0);
    ModUnique(rtag, a, 0, rtag);
  }

  lemma {:induction false} ChunkAtBottom(stag: nat, k: nat, rtag: nat, w: nat)
    requires rtag < Pow2(k)
    ensures Or(rtag % Pow2(w), stag * Pow2(k) % Pow2(w)) == Packed(stag, k, rtag) % Pow2(w)
  {
    if k >= w {
      PowSum(w, k - w);
      ModMultiple(stag, Pow2(w), Pow2(k - w), rtag);
      OrZero(rtag % Pow2(w));
    } else {
      PowSum(k, w - k);
      ModSum(stag, Pow2(k), Pow2(w - k), rtag);
      OrDisjoint(rtag, k, stag % Pow2(w - k));
    }
  }

  /** A chunk of the packed number is the bitwise or of the tags' own contributions to it. */
  lemma {:induction false} ChunkIsOr(stag: nat, k: nat, rtag: nat, o: nat, w: nat)
    requires rtag < Pow2(k)
    ensures Or(rtag / Pow2(o) % Pow2(w), stag * Pow2(k) / Pow2(o) % Pow2(w))
        == Packed(stag, k, rtag) / Pow2(o) % Pow2(w)
  {
    QuotientIsNat(rtag, Pow2(o));
    if k <= o {
      DropAll(stag, k, rtag, o);
      ModUnique(0, Pow2(w), 0, 0);
    } else {
      DropLow(stag, k, rtag, o);
      var r: nat := rtag / Pow2(o);
      ChunkAtBottom(stag, k - o, r, w);
    }
  }

  // ----- the dwords -----

  datatype Format = Guard16 | Guard32 | Guard64 | Reserved

  datatype Dwords = Dwords(cdw2: nat, cdw3: nat, cdw14: nat)

  /** cdw2:cdw3:cdw14 read as one number. */
  function Number(d: Dwords): nat {
    d.cdw2 * TWO64 + d.cdw3 * TWO32 + d.cdw14
  }

  function Width(f: Format): nat {
    match f
    case Guard16 => 32
    case Guard32 => 80
    case Guard64 => 48
    case Reserved => 0
  }

  /** The storage tag sizes a format allows, and tags that fit. */
  predicate Legal(f: Format, sts: nat, stag: nat, rtag: nat) {
    && f != Reserved
    && (if f == Guard32 then 16 <= sts <= 64 else sts <= Width(f))
    && stag < Pow2(sts) && rtag < Pow2(Width(f) - sts)
  }

  lemma {:induction false} ShlMod(stag: nat, n: nat, w: nat)
    requires n < 64 && w <= 64
    ensures Shl(stag, n, true) % Pow2(w) == stag * Pow2(n) % Pow2(w) == Shl(stag, n, false) % Pow2(w)
  {
    Pow64();
    PowSum(w, 64 - w);
    ModMod(stag * Pow2(n), Pow2(w), Pow2(64 - w));
  }

  lemma {:induction false} LowDword(stag: nat, k: nat, rtag: nat, masked: bool)
    requires rtag < Pow2(k) && k < 64
    ensures Or(rtag % TWO32, Shl(stag, k, masked) % TWO32) == Packed(stag, k, rtag) % TWO32
  {
    Pow32();
    ShlMod(stag, k, 32);
    ChunkAtBottom(stag, k, rtag, 32);
  }

  /** A multiple of 0x10000 loses nothing to the mask 0xffff0000. */
  lemma AndHighOfMultiple(m: nat)
    ensures AndHigh(m * TWO16) == m * TWO16 % TWO32
  {
    ModSum(m, TWO16, TWO16, 0);
    ExactQuotient(TWO16, m % TWO16 * TWO16, m % TWO16);
  }

  lemma {:induction false} ShlMultiple(stag: nat, k: nat)
    requires 16 <= k
    ensures stag * Pow2(k) == (stag * Pow2(k - 16)) * TWO16
  {
    Pow16();
    PowSum(16, k - 16);
    Factor(stag, TWO16, Pow2(k - 16), 0, 0);
  }

  /** The mask sees only the low 32 bits. */
  lemma AndHighMod(x: nat, y: nat)
    requires x % TWO32 == y % TWO32
    ensures AndHigh(x) == AndHigh(y)
  {
  }

  lemma {:induction false} AndHighShl(stag: nat, k: nat, masked: bool)
    requires 16 <= k <= 64 && (k == 64 ==> stag < TWO16)
    ensures AndHigh(Shl(stag, k, masked)) == stag * Pow2(k) % TWO32
  {
    Pow32();
    if k < 64 {
      ShlMod(stag, k, 32);
      AndHighMod(Shl(stag, k, masked), stag * Pow2(k));
      ShlMultiple(stag, k);
      AndHighOfMultiple(stag * Pow2(k - 16));
    } else {
      Pow64();
      ModMultiple(stag, TWO32, TWO32, 0);
    }
  }

  lemma {:induction false} LowDwordHigh(stag: nat, k: nat, rtag: nat, masked: bool)
    requires rtag < Pow2(k) && 16 <= k <= 64 && (k == 64 ==> stag < TWO16)
    ensures Or(rtag % TWO32, AndHigh(Shl(stag, k, masked))) == Packed(stag, k, rtag) % TWO32
  {
    Pow32();
    AndHighShl(stag, k, masked);
    ChunkAtBottom(stag, k, rtag, 32);
  }

  /** The part of the storage tag that lies above bit 32. */
  function Above32(stag: nat, k: nat, masked: bool): nat {
    if k <= 32 then Shr(stag, 32 - k) else Shl(stag, k - 32, masked)
  }

  lemma {:induction false} MidDword(stag: nat, k: nat, rtag: nat, w: nat, masked: bool)
    requires rtag < Pow2(k) && k <= 64 && w <= 32
    ensures Or(rtag / TWO32 % Pow2(w), Above32(stag, k, masked) % Pow2(w)) == Packed(stag, k, rtag) / TWO32 % Pow2(w)
  {
    Pow32();
    if k <= 32 {
      DropAll(stag, k, rtag, 32);
    } else {
      DropLow(stag, k, rtag, 32);
      ShlMod(stag, k - 32, w);
    }
    ChunkIsOr(stag, k, rtag, 32, w);
  }

  lemma {:induction false} PackedBelow(sts: nat, stag: nat, k: nat, rtag: nat)
    requires stag < Pow2(sts) && rtag < Pow2(k)
    ensures Packed(stag, k, rtag) < Pow2(sts + k)
  {
    PowSum(k, sts);
    BelowProduct(Pow2(k), Pow2(sts), stag, rtag);
  }

  /** A number is its three digits. */
  lemma Digits(v: nat)
    ensures v / TWO64 * TWO64 + v / TWO32 % TWO32 * TWO32 + v % TWO32 == v
  {
    DivDiv(v, TWO32, TWO32);
  }

  lemma SmallDigits(v: nat)
    requires v < 0x1_0000_0000_0000
    ensures v / TWO64 == 0 && v / TWO32 % TWO32 == v / TWO32 == v / TWO32 % TWO16
  {
  }

  lemma {:induction false} Pack16(sts: nat, stag: nat, rtag: nat, masked: bool)
    requires Legal(Guard16, sts, stag, rtag)
    ensures Number(Dwords(0, 0, Or(rtag % TWO32, Shl(stag, 32 - sts, masked) % TWO32))) == Packed(stag, 32 - sts, rtag)
  {
    Pow32();
    PackedBelow(sts, stag, 32 - sts, rtag);
    LowDword(stag, 32 - sts, rtag, masked);
  }

  lemma {:induction false} Pack64(sts: nat, stag: nat, rtag: nat, masked: bool)
    requires Legal(Guard64, sts, stag, rtag)
    ensures var k := 48 - sts;
            Number(Dwords(0, Or(rtag / TWO32 % TWO16, Above32(stag, k, masked) % TWO16),
                          Or(rtag % TWO32, Shl(stag, k, masked) % TWO32))) == Packed(stag, k, rtag)
  {
    var k := 48 - sts;
    Pow16();
    Pow32();
    PowSum(32, 16);
    PackedBelow(sts, stag, k, rtag);
    LowDword(stag, k, rtag, masked);
    MidDword(stag, k, rtag, 16, masked);
    SmallDigits(Packed(stag, k, rtag));
    Digits(Packed(stag, k, rtag));
  }

  lemma {:induction false} TopDword(sts: nat, stag: nat, rtag: nat)
    requires Legal(Guard32, sts, stag, rtag)
    ensures Shr(stag, sts - 16) % TWO16 == Packed(stag, 80 - sts, rtag) / TWO64
  {
    Pow16();
    Pow64();
    PowSum(sts - 16, 16);
    DropAll(stag, 80 - sts, rtag, 64);
    DivSum(0, Pow2(sts - 16), TWO16, stag);
  }

  lemma {:induction false} Pack32(sts: nat, stag: nat, rtag: nat, masked: bool)
    requires Legal(Guard32, sts, stag, rtag)
    ensures var k := 80 - sts;
            Number(Dwords(Shr(stag, sts - 16) % TWO16, Or(rtag / TWO32 % TWO32, Above32(stag, k, masked) % TWO32),
                          Or(rtag % TWO32, AndHigh(Shl(stag, k, masked))))) == Packed(stag, k, rtag)
  {
    var k := 80 - sts;
    Pow16();
    Pow32();
    TopDword(sts, stag, rtag);
    MidDword(stag, k, rtag, 32, masked);
    LowDwordHigh(stag, k, rtag, masked);
    Digits(Packed(stag, k, rtag));
  }

  /** What a format's branch has to build from legal tags. */
  predicate Packs(f: Format, sts: nat, stag: nat, rtag: nat, d: Dwords) {
    Legal(f, sts, stag, rtag) ==> Number(d) == Packed(stag, Width(f) - sts, rtag)
  }

  method SetTags16(sts: nat, rtag: nat, stag: nat, masked: bool) returns (d: Dwords)
    ensures Packs(Guard16, sts, stag, rtag, d)
  {
    var cdw14 := rtag % TWO32;
    cdw14 := Or(cdw14, Shl(stag, 32 - sts, masked) % TWO32);
    if Legal(Guard16, sts, stag, rtag) {
      Pack16(sts, stag, rtag, masked);
    }
    d := Dwords(0, 0, cdw14);
  }

  method SetTags32(sts: nat, rtag: nat, stag: nat, masked: bool) returns (d: Dwords)
    ensures Packs(Guard32, sts, stag, rtag, d)
  {
    var cdw2 := Shr(stag, sts - 16) % TWO16;
    var cdw3 := Shr(rtag, 32) % TWO32;
    var cdw14 := rtag % TWO32;
    cdw14 := Or(cdw14, AndHigh(Shl(stag, 80 - sts, masked)));
    if sts >= 48 {
      cdw3 := Or(cdw3, Shr(stag, sts - 48) % TWO32);
    } else {
      cdw3 := Or(cdw3, Shl(stag, 48 - sts, masked) % TWO32);
    }
    if Legal(Guard32, sts, stag, rtag) {
      Pow32();
      Pack32(sts, stag, rtag, masked);
    }
    d := Dwords(cdw2, cdw3, cdw14);
  }

  method SetTags64(sts: nat, rtag: nat, stag: nat, masked: bool) returns (d: Dwords)
    ensures Packs(Guard64, sts, stag, rtag, d)
  {
    var cdw3 := Shr(rtag, 32) % TWO16;
    var cdw14 := rtag % TWO32;
    cdw14 := Or(cdw14, Shl(stag, 48 - sts, masked) % TWO32);
    if sts >= 16 {
      cdw3 := Or(cdw3, Shr(stag, sts - 16) % TWO16);
    } else {
      cdw3 := Or(cdw3, Shl(stag, 16 - sts, masked) % TWO16);
    }
    if Legal(Guard64, sts, stag, rtag) {
      Pow32();
      Pack64(sts, stag, rtag, masked);
    }
    d := Dwords(0, cdw3, cdw14);
  }

  /** unvmed_sqe_set_tags. The dwords read as one number are the tags side by side. */
  method SetTags(nsExists: bool, f: Format, sts: nat, rtag: nat, stag: nat, masked: bool) returns (r: Option<Dwords>)
    ensures r.Some? <==> nsExists && f != Reserved
    ensures nsExists && Legal(f, sts, stag, rtag) ==> Number(r.value) == Packed(stag, Width(f) - sts, rtag)
  {
    if !nsExists {
      return None;
    }
    var d;
    match f {
      case Guard16 => d := SetTags16(sts, rtag, stag, masked);
      case Guard32 => d := SetTags32(sts, rtag, stag, masked);
      case Guard64 => d := SetTags64(sts, rtag, stag, masked);
      case Reserved => return None;
    }
    r := Some(d);
  }

  /** Both tags can be read back from the packed number, so no two pairs of tags share one. */
  lemma {:induction false} TagsRecoverable(f: Format, sts: nat, stag: nat, rtag: nat)
    requires Legal(f, sts, stag, rtag)
    ensures var k := Width(f) - sts; var v := Packed(stag, k, rtag);
            v / Pow2(k) == stag && v % Pow2(k) == rtag && v < Pow2(Width(f))
  {
    var k := Width(f) - sts;
    ModUnique(Packed(stag, k, rtag), Pow2(k), stag, rtag);
    PackedBelow(sts, stag, k, rtag);
  }
}
