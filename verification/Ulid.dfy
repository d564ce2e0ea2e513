// The 26-symbol identifiers, written by two routes: shifting two machine words, and dividing one big
// number.
module Ulid {
  type Byte = x: int | 0 <= x < 256

  const ALPHABET := "0123456789ABCDEFGHJKMNPQRSTVWXYZ"

  /** The symbols are the digits and the capital letters in order, without I, L, O and U. */
  lemma AlphabetIs(d: nat)
    requires d < 32
    ensures ALPHABET[d] as int ==
      if d < 10 then '0' as int + d
      else if d < 18 then 'A' as int + d - 10
      else if d < 20 then 'J' as int + d - 18
      else if d < 22 then 'M' as int + d - 20
      else if d < 27 then 'P' as int + d - 22
      else 'V' as int + d - 27
  {
  }

  const WORD := 0x1_0000_0000_0000_0000

  type Word = x: int | 0 <= x < WORD

  function Pow(b: nat, n: nat): (r: nat)
    ensures b > 0 ==> r > 0
  {
    if n == 0 then 1 else b * Pow(b, n - 1)
  }

  // ----- Machine words -----

  function Or(a: nat, b: nat): nat {
    if a == 0 && b == 0 then 0
    else (if a % 2 == 1 || b % 2 == 1 then 1 else 0) + 2 * Or(a / 2, b / 2)
  }

  function And(a: nat, b: nat): nat {
    if a == 0 || b == 0 then 0
    else (if a % 2 == 1 && b % 2 == 1 then 1 else 0) + 2 * And(a / 2, b / 2)
  }

  function ShiftLeft(x: Word, n: nat): Word {
    x * Pow(2, n) % WORD
  }

  function ShiftRight(x: Word, n: nat): nat {
    x / Pow(2, n)
  }

  lemma {:induction false} OrNothing(a: nat)
    ensures Or(a, 0) == a
  {
    if a > 0 {
      OrNothing(a / 2);
    }
  }

  lemma HalfOfMultiple(q: nat, n: nat)
    requires n > 0
    ensures q * Pow(2, n) % 2 == 0 && q * Pow(2, n) / 2 == q * Pow(2, n - 1)
  {
    var half := q * Pow(2, n - 1);
    assert q * Pow(2, n) == 2 * half;
  }

  /** Bits that do not overlap are put together by adding. */
  lemma {:induction false} OrIsSum(a: nat, q: nat, n: nat)
    requires a < Pow(2, n)
    ensures Or(a, q * Pow(2, n)) == a + q * Pow(2, n)
  {
    if n == 0 {
      OrCommutes(0, q);
      OrNothing(q);
    } else {
      HalfOfMultiple(q, n);
      var b := q * Pow(2, n);
      OrIsSum(a / 2, q, n - 1);
      if a > 0 || b > 0 {
        assert Or(a, b) == a % 2 + 2 * Or(a / 2, b / 2);
      }
    }
  }

  lemma {:induction false} OrCommutes(a: nat, b: nat)
    ensures Or(a, b) == Or(b, a)
    decreases a + b
  {
    if a > 0 || b > 0 {
      OrCommutes(a / 2, b / 2);
    }
  }

  /** A mask of `n` ones takes the remainder. */
  lemma {:induction false} AndIsRemainder(a: nat, n: nat)
    ensures And(a, Pow(2, n) - 1) == a % Pow(2, n)
  {
    if n > 0 {
      var mask := Pow(2, n) - 1;
      assert mask == 2 * Pow(2, n - 1) - 1;
      AndIsRemainder(a / 2, n - 1);
      assert mask / 2 == Pow(2, n - 1) - 1 && mask % 2 == 1;
      RemainderByHalves(a, Pow(2, n - 1));
    }
  }

  lemma RemainderByHalves(a: nat, m: nat)
    requires m > 0
    ensures a % (2 * m) == a % 2 + 2 * (a / 2 % m)
  {
    var h, q := a / 2, a / 2 / m;
    assert h == m * q + h % m;
    var r := a % 2 + 2 * (h % m);
    assert a == 2 * m * q + r;
    assert 0 <= r < 2 * m;
    Unique(a, 2 * m, q, r);
  }

  /** Quotient and remainder are the only such pair. */
  lemma Unique(a: int, m: nat, q: int, r: int)
    requires m > 0 && a == m * q + r && 0 <= r < m
    ensures a / m == q && a % m == r
  {
    assert m * (a / m - q) == r - a % m;
    Multiple(m, a / m - q);
  }

  lemma Multiple(m: nat, d: int)
    ensures d >= 1 ==> m * d >= m
    ensures d <= -1 ==> m * d + m <= 0
  {
  }

  lemma {:induction false} PowSum(b: nat, m: nat, n: nat)
    ensures Pow(b, m + n) == Pow(b, m) * Pow(b, n)
  {
    if m > 0 {
      PowSum(b, m - 1, n);
      Associative(b, Pow(b, m - 1), Pow(b, n));
    }
  }

  lemma Associative(a: nat, b: nat, c: nat)
    ensures a * (b * c) == (a * b) * c
  {
  }

  lemma Powers()
    ensures Pow(2, 5) == 32 && Pow(2, 16) == 0x1_0000 && Pow(2, 59) == 0x800_0000_0000_0000
  {
    assert Pow(2, 3) == 2 * Pow(2, 2) == 8;
    assert Pow(2, 5) == 2 * (2 * Pow(2, 3));
    PowSum(2, 5, 3);
    PowSum(2, 8, 8);
    PowSum(2, 16, 16);
    PowSum(2, 8, 3);
    PowSum(2, 16, 11);
    PowSum(2, 32, 27);
  }

  // ----- The two encoders -----

  /** The last `n` base-32 digits of `v`, the highest first. */
  function Symbols(v: nat, n: nat): (s: string)
    ensures |s| == n
  {
    if n == 0 then "" else Symbols(v / 32, n - 1) + [ALPHABET[v % 32]]
  }

  function BigEndian(b: seq<Byte>): nat {
    if b == [] then 0 else 256 * BigEndian(b[..|b| - 1]) + b[|b| - 1]
  }

  lemma {:induction false} BigEndianBound(b: seq<Byte>)
    ensures BigEndian(b) < Pow(256, |b|)
  {
    if b != [] {
      BigEndianBound(b[..|b| - 1]);
    }
  }

  /** One turn of the two-word loop takes off one base-32 digit. */
  lemma ShiftStep(hi: Word, lo: Word)
    ensures var v := hi * WORD + lo;
      && And(lo, 31) == v % 32
      && Or(ShiftRight(lo, 5), ShiftLeft(hi, 59)) < WORD
      && ShiftRight(hi, 5) * WORD + Or(ShiftRight(lo, 5), ShiftLeft(hi, 59)) == v / 32
  {
    Powers();
    var v, top := hi * WORD + lo, 0x800_0000_0000_0000;
    AndIsRemainder(lo, 5);
    Unique(v, 32, hi * top + lo / 32, lo % 32);
    Unique(hi * top, WORD, hi / 32, (hi % 32) * top);
    OrIsSum(lo / 32, hi % 32, 59);
  }

  method EncodeWords(high: Word, low: Word) returns (out: string)
    ensures out == Symbols(high * WORD + low, 26)
  {
    var hi: Word, lo: Word := high, low;
    var a := new char[26];
    ghost var done := "";
    var i := 25;
    while i >= 0
      invariant -1 <= i <= 25
      invariant Symbols(high * WORD + low, 26) == Symbols(hi * WORD + lo, i + 1) + done
      invariant a[i + 1..] == done
    {
      ShiftStep(hi, lo);
      var symbol := ALPHABET[And(lo, 31)];
      a[i] := symbol;
      assert a[i..] == [symbol] + a[i + 1..];
      done := [symbol] + done;
      lo, hi := Or(ShiftRight(lo, 5), ShiftLeft(hi, 59)), ShiftRight(hi, 5);
      i := i - 1;
    }
    out := a[..];
  }

  method EncodeNumber(number: nat) returns (out: string)
    ensures out == Symbols(number, 26)
  {
    var v := number;
    var a := new char[26];
    ghost var done := "";
    var i := 25;
    while i >= 0
      invariant -1 <= i <= 25
      invariant Symbols(number, 26) == Symbols(v, i + 1) + done
      invariant a[i + 1..] == done
    {
      var symbol := ALPHABET[v % 32];
      a[i] := symbol;
      assert a[i..] == [symbol] + a[i + 1..];
      done := [symbol] + done;
      v := v / 32;
      i := i - 1;
    }
    out := a[..];
  }

  // ----- What the 26 symbols mean -----

  /** The value of a symbol; 32 for what is none. */
  ghost function Rank(c: char): nat {
    if exists i | 0 <= i < 32 :: ALPHABET[i] == c then
      var i :| 0 <= i < 32 && ALPHABET[i] == c; i
    else 32
  }

  ghost function Decode(s: string): nat {
    if s == "" then 0 else 32 * Decode(s[..|s| - 1]) + Rank(s[|s| - 1])
  }

  lemma {:induction false} Ascending(i: nat, j: nat)
    requires i < j < 32
    ensures ALPHABET[i] < ALPHABET[j]
  {
    if i + 1 < j {
      Ascending(i, j - 1);
    }
  }

  lemma SymbolIndex(d: nat)
    requires d < 32
    ensures Rank(ALPHABET[d]) == d
  {
    var i := Rank(ALPHABET[d]);
    assert ALPHABET[d] == ALPHABET[d];
    if i < d {
      Ascending(i, d);
    } else if d < i {
      Ascending(d, i);
    }
  }

  lemma Quotient(v: nat, m: nat, p: nat)
    requires m > 0 && v < m * p
    ensures 0 <= v / m < p
  {
    if v / m >= p {
      Multiple(m, v / m - p + 1);
    }
  }

  lemma {:induction false} DecodeSymbols(v: nat, n: nat)
    requires v < Pow(32, n)
    ensures Decode(Symbols(v, n)) == v
  {
    if n > 0 {
      Quotient(v, 32, Pow(32, n - 1));
      DecodeSymbols(v / 32, n - 1);
      SymbolIndex(v % 32);
      assert Symbols(v, n)[..n - 1] == Symbols(v / 32, n - 1);
    }
  }

  /** The leading symbol holds what is above the other digits. */
  lemma {:induction false} FirstSymbol(v: nat, n: nat, p: nat, d: nat)
    requires n > 0 && p == Pow(32, n - 1) && v < 32 * p && d == v / p
    ensures d < 32 && Symbols(v, n)[0] == ALPHABET[d]
  {
    Quotient(v, p, 32);
    if n > 1 {
      var q := Pow(32, n - 2);
      Quotient(v, 32, p);
      DivideTwice(v, q);
      FirstSymbol(v / 32, n - 1, q, d);
      assert Symbols(v, n)[0] == Symbols(v / 32, n - 1)[0];
    }
  }

  lemma DivideTwice(v: nat, m: nat)
    requires m > 0
    ensures v / 32 / m == v / (32 * m)
  {
    var q := v / 32 / m;
    var r := 32 * (v / 32 % m) + v % 32;
    assert v / 32 == m * q + v / 32 % m;
    assert v == 32 * m * q + r;
    Unique(v, 32 * m, q, r);
  }

  lemma Powers32()
    ensures Pow(32, 25) == 0x2000_0000_0000_0000_0000_0000_0000_0000
    ensures Pow(32, 26) == 4 * WORD * WORD
  {
    assert Pow(32, 1) == 32 * Pow(32, 0) == 32;
    assert Pow(32, 2) == 32 * Pow(32, 1);
    PowSum(32, 1, 2);
    PowSum(32, 3, 3);
    PowSum(32, 6, 6);
    PowSum(32, 12, 12);
    PowSum(32, 24, 1);
    PowSum(32, 24, 2);
  }

  lemma LeadingSymbol(v: nat, n: nat, p: nat)
    requires n > 0 && p == Pow(32, n - 1) && v < 8 * p
    ensures v < Pow(32, n) && Rank(Symbols(v, n)[0]) <= 7
  {
    var d := v / p;
    Quotient(v, p, 8);
    FirstSymbol(v, n, p, d);
    SymbolIndex(d);
  }

  /** Twenty-six symbols give back the 128-bit number; the first is at most '7'. */
  lemma DecodesBack(v: nat, n: nat)
    requires v < WORD * WORD && n == 26
    ensures Decode(Symbols(v, n)) == v
    ensures Rank(Symbols(v, n)[0]) <= 7
  {
    Powers32();
    LeadingSymbol(v, n, Pow(32, 25));
    DecodeSymbols(v, n);
  }

  ghost predicate Before(a: string, b: string) {
    exists i | 0 <= i < |a| && i < |b| :: a[..i] == b[..i] && a[i] < b[i]
  }

  lemma BeforeExtended(a: string, b: string, c: char, d: char)
    requires |a| == |b|
    ensures Before(a, b) ==> Before(a + [c], b + [d])
    ensures a == b && c < d ==> Before(a + [c], b + [d])
  {
    var x, y := a + [c], b + [d];
    if Before(a, b) {
      var i :| 0 <= i < |a| && i < |b| && a[..i] == b[..i] && a[i] < b[i];
      assert x[..i] == a[..i] && y[..i] == b[..i];
    } else if a == b && c < d {
      assert x[..|a|] == y[..|a|] && x[|a|] < y[|a|];
    }
  }

  /** Strings of symbols sort as their numbers do. */
  lemma {:induction false} SymbolsSort(v: nat, w: nat, n: nat)
    requires v < w < Pow(32, n)
    ensures Before(Symbols(v, n), Symbols(w, n))
  {
    if n > 0 {
      Quotient(w, 32, Pow(32, n - 1));
      if v / 32 < w / 32 {
        SymbolsSort(v / 32, w / 32, n - 1);
      } else {
        Ascending(v % 32, w % 32);
      }
      BeforeExtended(Symbols(v / 32, n - 1), Symbols(w / 32, n - 1), ALPHABET[v % 32], ALPHABET[w % 32]);
    }
  }

  // ----- The identifiers -----

  const STAMPS := 0x1_0000_0000_0000

  /** The number of a time-stamped identifier: 48 bits of milliseconds above 80 random bits. */
  function Stamped(ms: int, random: seq<Byte>): nat {
    ms % STAMPS * Pow(256, 10) + BigEndian(random)
  }

  function BytesOf(x: nat, n: nat): (b: seq<Byte>)
    ensures |b| == n
  {
    if n == 0 then [] else BytesOf(x / 256, n - 1) + [x % 256]
  }

  lemma {:induction false} BigEndianOf(x: nat, n: nat)
    requires x < Pow(256, n)
    ensures BigEndian(BytesOf(x, n)) == x
  {
    if n > 0 {
      BigEndianOf(x / 256, n - 1);
    }
  }

  lemma {:induction false} BigEndianConcat(a: seq<Byte>, b: seq<Byte>)
    ensures BigEndian(a + b) == BigEndian(a) * Pow(256, |b|) + BigEndian(b)
  {
    if b == [] {
      assert a + b == a;
    } else {
      var front := b[..|b| - 1];
      assert (a + b)[..|a + b| - 1] == a + front;
      BigEndianConcat(a, front);
      Distribute(BigEndian(a), Pow(256, |front|), BigEndian(front));
    }
  }

  lemma Distribute(x: nat, p: nat, y: nat)
    ensures 256 * (x * p + y) == x * (256 * p) + 256 * y
  {
  }

  lemma Powers256()
    ensures Pow(256, 6) == STAMPS && Pow(256, 8) == WORD && STAMPS * Pow(256, 10) == WORD * WORD
  {
    assert Pow(256, 1) == 256 * Pow(256, 0) == 256;
    assert Pow(256, 2) == 256 * Pow(256, 1);
    PowSum(256, 2, 2);
    PowSum(256, 2, 4);
    PowSum(256, 2, 6);
    PowSum(256, 2, 8);
  }

  lemma BytesPrefix(x: nat, n: nat)
    ensures BytesOf(x, n + 2)[..n] == BytesOf(x / 256 / 256, n)
  {
    assert BytesOf(x, n + 2) == BytesOf(x / 256, n + 1) + [x % 256];
    assert BytesOf(x / 256, n + 1) == BytesOf(x / 256 / 256, n) + [x / 256 % 256];
  }

  lemma ShiftedStamp(m: Word)
    ensures ShiftLeft(m, 16) == m % STAMPS * 0x1_0000
  {
    Powers();
    Unique(m * 0x1_0000, WORD, m / STAMPS, m % STAMPS * 0x1_0000);
  }

  lemma TwoBytesDown(y: nat)
    ensures y * 0x1_0000 / 256 / 256 == y
  {
    Unique(y * 0x1_0000, 256, y * 256, 0);
    Unique(y * 256, 256, y, 0);
  }

  lemma WordStamp(ms: int)
    ensures ms % WORD % STAMPS == ms % STAMPS
  {
    var m := ms % WORD;
    Unique(ms, STAMPS, 0x1_0000 * (ms / WORD) + m / STAMPS, m % STAMPS);
  }

  /** The first six of the eight stamp bytes are the milliseconds. */
  lemma StampBytes(ms: int, n: nat)
    requires n == 6
    ensures BigEndian(BytesOf(ShiftLeft(ms % WORD, 16), n + 2)[..n]) == ms % STAMPS
  {
    var x := ShiftLeft(ms % WORD, 16);
    ShiftedStamp(ms % WORD);
    WordStamp(ms);
    TwoBytesDown(ms % STAMPS);
    BytesPrefix(x, n);
    Powers256();
    BigEndianOf(ms % STAMPS, n);
  }

  /** The two words of the sixteen bytes, side by side, are the stamped number. */
  lemma WordsOfBytes(ms: int, random: seq<Byte>, b: seq<Byte>, n: nat)
    requires |random| == 10 && n == 6 && b == BytesOf(ShiftLeft(ms % WORD, 16), n + 2)[..n] + random
    ensures |b| == 16 && BigEndian(b[..8]) < WORD && BigEndian(b[8..]) < WORD
    ensures BigEndian(b[..8]) * WORD + BigEndian(b[8..]) == Stamped(ms, random)
  {
    StampBytes(ms, n);
    Powers256();
    BigEndianConcat(b[..6], random);
    assert b == b[..6] + random;
    assert b == b[..8] + b[8..];
    BigEndianConcat(b[..8], b[8..]);
    BigEndianBound(b[..8]);
    BigEndianBound(b[8..]);
  }

  /** `ms` may be any time; the random bytes are the caller's. */
  method NewULID(ms: int, random: seq<Byte>) returns (out: string)
    requires |random| == 10
    ensures out == Symbols(Stamped(ms, random), 26)
  {
    var b := new Byte[16];
    var stamp := BytesOf(ShiftLeft(ms % WORD, 16), 8);
    forall j | 0 <= j < 8 {
      b[j] := stamp[j];
    }
    forall j | 6 <= j < 16 {
      b[j] := random[j - 6];
    }
    assert b[..] == stamp[..6] + random;
    WordsOfBytes(ms, random, b[..], 6);
    var hi, lo := BigEndian(b[..8]), BigEndian(b[8..]);
    assert b[..][..8] == b[..8] && b[..][8..] == b[8..];
    out := EncodeWords(hi, lo);
  }

  method GenerateULID(b: seq<Byte>) returns (out: string)
    requires |b| == 16
    ensures out == Symbols(BigEndian(b), 26)
  {
    out := EncodeNumber(BigEndian(b));
  }

  lemma StampedFits(ms: int, random: seq<Byte>)
    requires |random| == 10
    ensures Stamped(ms, random) < WORD * WORD
  {
    Powers256();
    BigEndianBound(random);
    Multiple(Pow(256, 10), STAMPS - ms % STAMPS);
  }

  /** An earlier millisecond sorts first, whatever the random bytes are. */
  lemma EarlierSortsFirst(ms: nat, later: nat, random: seq<Byte>, other: seq<Byte>)
    requires ms < later < STAMPS && |random| == 10 && |other| == 10
    ensures Before(Symbols(Stamped(ms, random), 26), Symbols(Stamped(later, other), 26))
  {
    Powers256();
    Powers32();
    BigEndianBound(random);
    StampedFits(later, other);
    StampsApart(ms, later, Pow(256, 10), BigEndian(random), BigEndian(other));
    SymbolsSort(Stamped(ms, random), Stamped(later, other), 26);
  }

  lemma StampsApart(ms: nat, later: nat, p: nat, r: nat, s: nat)
    requires ms < later && r < p
    ensures ms * p + r < later * p + s
  {
    Multiple(p, later - ms);
  }
}
