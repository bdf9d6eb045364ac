/** Floating-point numbers as IEEE 754 lays them out, and what the PSON encoder asks of them:
    whether a number is an integer, and whether single precision holds it.

    A finite number is a sign and a magnitude, a whole number of the format's smallest units:
    2^-149 for single and 2^-1074 for double precision. */
module Floats {
  import opened Bytes

  /** Sign, biased exponent and fraction. */
  datatype Parts = Parts(negative: bool, exponent: nat, fraction: nat)

  type Single = x: Parts | x.exponent < 0x100 && x.fraction < 0x80_0000 witness Parts(false, 0, 0)
  type Double = x: Parts | x.exponent < 0x800 && x.fraction < 0x10_0000_0000_0000 witness Parts(false, 0, 0)

  /** The implicit leading bit of a normal number. */
  const HIDDEN32: nat := 0x80_0000
  const HIDDEN64: nat := 0x10_0000_0000_0000

  /** The exponents of infinities and of what is not a number. */
  const SPECIAL32: nat := 0xff
  const SPECIAL64: nat := 0x7ff

  /** How many binary places lie between the units of double and single precision, and between
      the units of double precision and one. */
  const PLACES_TO_SINGLE: nat := 925
  const PLACES_TO_ONE: nat := 1074

  /** `m` followed by `j` binary places. */
  function Shift(m: nat, j: nat): (r: nat)
    ensures r >= m
    decreases j, m
  {
    if j == 0 then m else 2 * Shift(m, j - 1)
  }

  /** `n` without its last `j` binary places. */
  function Drop(n: nat, j: nat): nat
    decreases j, n
  {
    if j == 0 then n else Drop(n / 2, j - 1)
  }

  /** The magnitude of a finite number, in the smallest units of its format. */
  function Units(hidden: nat, x: Parts): nat {
    if x.exponent == 0 then x.fraction else Shift(hidden + x.fraction, x.exponent - 1)
  }

  /** The leading binary digits of `n`, less than twice `hidden`, and how many places follow them. */
  function Leading(n: nat, hidden: nat): (r: (nat, nat))
    requires hidden > 0
    ensures r.0 < 2 * hidden && (n >= 2 * hidden ==> r.0 >= hidden)
    ensures n < 2 * hidden <==> r.1 == 0
  {
    if n < 2 * hidden then (n, 0)
    else
      var r := Leading(n / 2, hidden);
      (r.0, r.1 + 1)
  }

  /** The number of `n` units, without the digits the format has no room for. */
  function OfUnits(hidden: nat, negative: bool, n: nat): (r: Parts)
    requires hidden > 0
    ensures r.fraction < hidden && r.negative == negative
  {
    var (digits, places) := Leading(n, hidden);
    if digits < hidden then Parts(negative, 0, digits) else Parts(negative, places + 1, digits - hidden)
  }

  // ---- digits -----------------------------------------------------------------------

  lemma {:induction false} ShiftTwice(m: nat, i: nat, j: nat)
    ensures Shift(Shift(m, i), j) == Shift(m, i + j)
  {
    if j > 0 { ShiftTwice(m, i, j - 1); }
  }

  lemma {:induction false} DropShifted(m: nat, j: nat)
    ensures Drop(Shift(m, j), j) == m
  {
    if j > 0 { DropShifted(m, j - 1); }
  }

  lemma {:induction false} LeadingExact(m: nat, j: nat, hidden: nat)
    requires 0 < hidden <= m < 2 * hidden
    ensures Leading(Shift(m, j), hidden) == (m, j)
  {
    if j > 0 { LeadingExact(m, j - 1, hidden); }
  }

  /** Digits that fit are all kept, whatever places follow them. */
  lemma {:induction false} LeadingKeeps(m: nat, j: nat, hidden: nat)
    requires m < 2 * hidden
    ensures var r := Leading(Shift(m, j), hidden); Shift(r.0, r.1) == Shift(m, j) && r.1 <= j
  {
    if Shift(m, j) >= 2 * hidden { LeadingKeeps(m, j - 1, hidden); }
  }

  /** A finite number is determined by its sign and its units. */
  lemma UnitsDetermine(hidden: nat, x: Parts)
    requires hidden > 0 && x.fraction < hidden
    ensures OfUnits(hidden, x.negative, Units(hidden, x)) == x
  {
    if x.exponent > 0 { LeadingExact(hidden + x.fraction, x.exponent - 1, hidden); }
  }

  /** A magnitude whose digits fit is held exactly. */
  lemma HeldExactly(hidden: nat, negative: bool, m: nat, j: nat)
    requires m < 2 * hidden
    ensures var x := OfUnits(hidden, negative, Shift(m, j)); Units(hidden, x) == Shift(m, j) && x.exponent <= j + 1
  {
    LeadingKeeps(m, j, hidden);
  }

  // ---- between the formats ----------------------------------------------------------

  function Quiet(fraction: nat): nat {
    if fraction < HIDDEN32 / 2 then fraction + HIDDEN32 / 2 else fraction
  }

  /** The magnitude of a finite single, in the units of double precision. */
  function SingleUnits(s: Single): nat {
    Shift(Units(HIDDEN32, s), PLACES_TO_SINGLE)
  }

  /** `static_cast<double>`, which changes no number; what is not a number becomes a quiet one. */
  function Widen(s: Single): Double {
    if s.exponent == SPECIAL32 then
      Parts(s.negative, SPECIAL64, if s.fraction == 0 then 0 else Quiet(s.fraction) * 0x2000_0000)
    else
      WidenFits(s);
      OfUnits(HIDDEN64, s.negative, SingleUnits(s))
  }

  /** Double precision holds it exactly. */
  lemma WidenFits(s: Single)
    ensures var d := OfUnits(HIDDEN64, s.negative, SingleUnits(s));
            Units(HIDDEN64, d) == SingleUnits(s) && d.exponent < SPECIAL64
  {
    hide OfUnits;
    if s.exponent == 0 {
      HeldExactly(HIDDEN64, s.negative, s.fraction, PLACES_TO_SINGLE);
    } else {
      ShiftTwice(HIDDEN32 + s.fraction, s.exponent - 1, PLACES_TO_SINGLE);
      HeldExactly(HIDDEN64, s.negative, HIDDEN32 + s.fraction, s.exponent - 1 + PLACES_TO_SINGLE);
    }
  }

  /** `static_cast<float>` where it does not change the number. How the cast rounds is of no
      interest: its result is compared with the number it was made of. */
  function Narrow(d: Double): Option<Single> {
    if d.exponent == SPECIAL64 then
      if d.fraction == 0 then Some(Parts(d.negative, SPECIAL32, 0)) else None
    else
      var s := OfUnits(HIDDEN32, d.negative, Drop(Units(HIDDEN64, d), PLACES_TO_SINGLE));
      if s.exponent < SPECIAL32 && SingleUnits(s) == Units(HIDDEN64, d) then Some(s) else None
  }

  predicate NotANumber(x: Parts, special: nat) {
    x.exponent == special && x.fraction != 0
  }

  /** What is not a number stays none: it keeps its sign and its fraction, whose first bit is set. */
  lemma WidenedNaN(s: Single)
    requires NotANumber(s, SPECIAL32)
    ensures var d := Widen(s);
            && NotANumber(d, SPECIAL64) && d.negative == s.negative
            && d.fraction == 0x2000_0000 * if s.fraction < 0x40_0000 then s.fraction + 0x40_0000 else s.fraction
  {
  }

  /** What is narrowed is that number: widening gives it back. */
  lemma NarrowedWidens(d: Double)
    requires Narrow(d).Some?
    ensures Widen(Narrow(d).value) == d
  {
    hide Units, OfUnits, SingleUnits, Drop;
    if d.exponent != SPECIAL64 { UnitsDetermine(HIDDEN64, d); }
  }

  lemma WidenedNarrows(s: Single)
    requires !NotANumber(s, SPECIAL32)
    ensures Narrow(Widen(s)) == Some(s)
  {
    hide Units, OfUnits, Drop, Shift;
    if s.exponent != SPECIAL32 {
      WidenFits(s);
      UnitsDetermine(HIDDEN32, s);
      DropShifted(Units(HIDDEN32, s), PLACES_TO_SINGLE);
    }
  }

  /** Single precision is chosen exactly for the numbers that are one. */
  lemma NarrowIff(d: Double)
    ensures Narrow(d).Some? <==> exists s: Single :: !NotANumber(s, SPECIAL32) && Widen(s) == d
  {
    if Narrow(d).Some? {
      NarrowedWidens(d);
      assert !NotANumber(Narrow(d).value, SPECIAL32);
    }
    hide Narrow, Widen;
    if s: Single :| !NotANumber(s, SPECIAL32) && Widen(s) == d { WidenedNarrows(s); }
  }

  // ---- integers ---------------------------------------------------------------------

  /** `static_cast<int64_t>` where it does not change the number. Beyond the range of the type the
      cast is undefined; taken as unequal to the number, as with the value most processors give. */
  function Whole(d: Double): Option<i64> {
    if d.exponent == SPECIAL64 then None
    else
      var n := Drop(Units(HIDDEN64, d), PLACES_TO_ONE);
      var i := if d.negative then 0 - n else n;
      if Shift(n, PLACES_TO_ONE) == Units(HIDDEN64, d) && -TWO63 <= i < TWO63 then Some(i) else None
  }

  function Abs(i: int): nat {
    if i < 0 then -i else i
  }

  /** A number counts as the integer `i` exactly if it is `i`. */
  lemma WholeIff(d: Double, i: i64)
    ensures Whole(d) == Some(i) <==>
            && d.exponent != SPECIAL64
            && Units(HIDDEN64, d) == Shift(Abs(i), PLACES_TO_ONE)
            && (i == 0 || (d.negative <==> i < 0))
  {
    DropShifted(Abs(i), PLACES_TO_ONE);
    hide Units, Shift, Drop;
  }

  // ---- as bytes ---------------------------------------------------------------------

  /** The `k` bytes of a number in memory, the lowest first. */
  function LittleEndian(n: nat, k: nat): (s: seq<byte>)
    ensures |s| == k
  {
    if k == 0 then [] else [n % 256] + LittleEndian(n / 256, k - 1)
  }

  function FromLittleEndian(s: seq<byte>): (n: nat)
    decreases |s|
  {
    if s == [] then 0 else s[0] + 256 * FromLittleEndian(s[1..])
  }

  function Pow256(k: nat): nat {
    if k == 0 then 1 else 256 * Pow256(k - 1)
  }

  lemma {:induction false} BytesOfNumber(n: nat, k: nat)
    requires n < Pow256(k)
    ensures FromLittleEndian(LittleEndian(n, k)) == n
  {
    if k > 0 {
      BytesOfNumber(n / 256, k - 1);
      assert LittleEndian(n, k)[1..] == LittleEndian(n / 256, k - 1);
    }
  }

  function Flag(b: bool): nat {
    if b then 1 else 0
  }

  function Word32(s: Single): nat {
    (Flag(s.negative) * 0x100 + s.exponent) * HIDDEN32 + s.fraction
  }

  function Word64(d: Double): nat {
    (Flag(d.negative) * 0x800 + d.exponent) * HIDDEN64 + d.fraction
  }

  function SingleBytes(s: Single): (r: seq<byte>)
    ensures |r| == 4
  {
    LittleEndian(Word32(s), 4)
  }

  function DoubleBytes(d: Double): (r: seq<byte>)
    ensures |r| == 8
  {
    LittleEndian(Word64(d), 8)
  }

  function OfWord32(w: nat): Single {
    Parts(w / HIDDEN32 / 0x100 == 1, w / HIDDEN32 % 0x100, w % HIDDEN32)
  }

  function OfWord64(w: nat): Double {
    Parts(w / HIDDEN64 / 0x800 == 1, w / HIDDEN64 % 0x800, w % HIDDEN64)
  }

  function SingleOf(s: seq<byte>): Single {
    OfWord32(FromLittleEndian(s))
  }

  function DoubleOf(s: seq<byte>): Double {
    OfWord64(FromLittleEndian(s))
  }

  lemma Fraction32(q: nat, r: nat)
    requires r < HIDDEN32
    ensures (q * HIDDEN32 + r) / HIDDEN32 == q && (q * HIDDEN32 + r) % HIDDEN32 == r
  {
  }

  lemma Fraction64(q: nat, r: nat)
    requires r < HIDDEN64
    ensures (q * HIDDEN64 + r) / HIDDEN64 == q && (q * HIDDEN64 + r) % HIDDEN64 == r
  {
  }

  lemma SingleRoundTrip(s: Single)
    ensures SingleOf(SingleBytes(s)) == s
  {
    assert Word32(s) < Pow256(4);
    BytesOfNumber(Word32(s), 4);
    hide LittleEndian, FromLittleEndian, Pow256;
    Fraction32(Flag(s.negative) * 0x100 + s.exponent, s.fraction);
  }

  lemma DoubleRoundTrip(d: Double)
    ensures DoubleOf(DoubleBytes(d)) == d
  {
    assert Word64(d) < Pow256(8);
    BytesOfNumber(Word64(d), 8);
    hide LittleEndian, FromLittleEndian, Pow256;
    Fraction64(Flag(d.negative) * 0x800 + d.exponent, d.fraction);
  }

  /** A tenth, and 2^62, as they stand in memory. */
  lemma Layout()
    ensures DoubleOf([0x9a, 0x99, 0x99, 0x99, 0x99, 0x99, 0xb9, 0x3f]) == Parts(false, 1019, 0x9_9999_9999_999a)
    ensures DoubleOf([0x9a, 0x99, 0x99, 0x99, 0x99, 0x99, 0xb9, 0xbf]) == Parts(true, 1019, 0x9_9999_9999_999a)
    ensures SingleOf([0xcd, 0xcc, 0xcc, 0xbd]) == Parts(true, 123, 0x4c_cccd)
    ensures SingleOf([0, 0, 0x80, 0x5e]) == PowerOfTwo(false, 62)
  {
    hide FromLittleEndian, OfWord64, OfWord32;
    LayoutOfDouble(0x3f);
    LayoutOfDouble(0xbf);
    FourBytes(0xcd, 0xcc, 0xcc, 0xbd);
    FourBytes(0, 0, 0x80, 0x5e);
    Words();
  }

  lemma Words()
    ensures OfWord64(0x3fb9_9999_9999_999a) == Parts(false, 1019, 0x9_9999_9999_999a)
    ensures OfWord64(0xbfb9_9999_9999_999a) == Parts(true, 1019, 0x9_9999_9999_999a)
    ensures OfWord32(0xbdcc_cccd) == Parts(true, 123, 0x4c_cccd)
    ensures OfWord32(0x5e80_0000) == PowerOfTwo(false, 62)
  {
  }

  lemma LayoutOfDouble(top: byte)
    ensures FromLittleEndian([0x9a, 0x99, 0x99, 0x99, 0x99, 0x99, 0xb9, top]) ==
            top as int * 0x100_0000_0000_0000 + 0xb9_9999_9999_999a
  {
    FourBytes(0x99, 0x99, 0xb9, top);
    OneMore(0x99, [0x99, 0x99, 0xb9, top]);
    OneMore(0x99, [0x99, 0x99, 0x99, 0xb9, top]);
    OneMore(0x99, [0x99, 0x99, 0x99, 0x99, 0xb9, top]);
    OneMore(0x9a, [0x99, 0x99, 0x99, 0x99, 0x99, 0xb9, top]);
  }

  lemma FourBytes(a: byte, b: byte, c: byte, d: byte)
    ensures FromLittleEndian([a, b, c, d]) == a + 256 * (b + 256 * (c + 256 * d))
  {
    OneMore(d, []);
    OneMore(c, [d]);
    OneMore(b, [c, d]);
    OneMore(a, [b, c, d]);
  }

  lemma OneMore(b: byte, s: seq<byte>)
    ensures FromLittleEndian([b] + s) == b + 256 * FromLittleEndian(s)
    ensures FromLittleEndian([]) == 0
  {
    assert ([b] + s)[1..] == s;
  }

  // ---- powers of two ----------------------------------------------------------------

  function PowerOfTwo(negative: bool, n: nat): Single
    requires n <= 63
  {
    Parts(negative, 127 + n, 0)
  }

  lemma {:induction false} LargerPower(i: nat, j: nat)
    requires i <= j
    ensures Shift(1, i) <= Shift(1, j) && (i < j ==> 2 * Shift(1, i) <= Shift(1, j))
  {
    if i < j { LargerPower(i, j - 1); }
  }

  lemma EightPlaces(m: nat, j: nat)
    ensures Shift(m, j + 8) == 256 * Shift(m, j)
  {
    assert Shift(m, j + 2) == 4 * Shift(m, j);
    assert Shift(m, j + 4) == 4 * Shift(m, j + 2);
    assert Shift(m, j + 6) == 4 * Shift(m, j + 4);
    assert Shift(m, j + 8) == 4 * Shift(m, j + 6);
  }

  lemma LargestPowers()
    ensures Shift(1, 23) == HIDDEN32 && Shift(1, 63) == TWO63
  {
    EightPlaces(1, 0);
    assert Shift(1, 0) == 1 && Shift(1, 8) == 2 * Shift(1, 7);
    hide Shift;
    EightPlaces(1, 7);
    EightPlaces(1, 15);
    EightPlaces(1, 23);
    EightPlaces(1, 31);
    EightPlaces(1, 39);
    EightPlaces(1, 47);
    EightPlaces(1, 55);
  }

  lemma PowerUnits(negative: bool, n: nat)
    requires n <= 63
    ensures SingleUnits(PowerOfTwo(negative, n)) == Shift(Shift(1, n), PLACES_TO_ONE)
  {
    LargestPowers();
    ShiftTwice(1, 23, 126 + n);
    ShiftTwice(1, 149 + n, PLACES_TO_SINGLE);
    ShiftTwice(1, n, PLACES_TO_ONE);
    hide Shift;
  }

  /** 2^n in single precision is that integer, and so is -2^n. */
  lemma PowerIsWhole(negative: bool, n: nat)
    requires n < 63 || (n == 63 && negative)
    ensures Shift(1, n) < TWO63 || (Shift(1, n) == TWO63 && negative)
    ensures Whole(Widen(PowerOfTwo(negative, n))) == Some(if negative then 0 - Shift(1, n) else Shift(1, n))
  {
    LargerPower(n, 63);
    LargestPowers();
    WidenFits(PowerOfTwo(negative, n));
    PowerUnits(negative, n);
    hide Shift, OfUnits, Units, SingleUnits, Whole;
    WholeIff(Widen(PowerOfTwo(negative, n)), if negative then 0 - Shift(1, n) else Shift(1, n));
  }
}
