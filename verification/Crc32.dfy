/** The table-driven CRC-32 and the bit-at-a-time definition it implements (section 8 of RFC 1952):
    a 32-bit register, reflected, polynomial 0xEDB88320, complemented before and after. */
module Crc32 {

  const POLY: bv32 := 0xEDB8_8320

  function Xor(a: bv32, b: bv32): bv32 { a ^ b }

  function Half(c: bv32): bv32 { c >> 1 }

  predicate Odd(c: bv32) { c & 1 != 0 }

  // ---- one bit at a time ----

  /** Multiplies the register by x modulo the polynomial. */
  function Step(c: bv32): bv32
  {
    if Odd(c) then Xor(POLY, Half(c)) else Half(c)
  }

  function Steps(c: bv32, n: nat): bv32
    decreases n
  {
    if n == 0 then c else Steps(Step(c), n - 1)
  }

  /** One message bit enters the register. */
  function FeedBit(c: bv32, bit: bool): bv32
  {
    if Odd(c) != bit then Xor(POLY, Half(c)) else Half(c)
  }

  /** The n low bits of v enter it, lowest first. */
  function FeedBits(c: bv32, v: bv32, n: nat): bv32
    decreases n
  {
    if n == 0 then c else FeedBits(FeedBit(c, Odd(v)), Half(v), n - 1)
  }

  /** Eight bits for each byte. */
  function Feed(c: bv32, buf: seq<bv8>): bv32
    decreases |buf|
  {
    if buf == [] then c else Feed(FeedBits(c, buf[0] as bv32, 8), buf[1..])
  }

  function Complement(c: bv32): bv32 { Xor(c, 0xFFFF_FFFF) }

  /** CRC-32 of a message, continuing from the CRC of what came before it. */
  function Crc(seed: bv32, buf: seq<bv8>): bv32
  {
    Complement(Feed(Complement(seed), buf))
  }

  lemma ComplementTwice(c: bv32)
    ensures Complement(Complement(c)) == c
  {
  }

  lemma {:induction false} FeedConcat(c: bv32, a: seq<bv8>, b: seq<bv8>)
    ensures Feed(c, a + b) == Feed(Feed(c, a), b)
    decreases |a|
  {
    hide FeedBits;
    if a == [] {
      assert a + b == b;
    } else {
      assert (a + b)[1..] == a[1..] + b;
      FeedConcat(FeedBits(c, a[0] as bv32, 8), a[1..], b);
    }
  }

  /** The CRC of two pieces in turn is the CRC of both together. */
  lemma CrcConcat(seed: bv32, a: seq<bv8>, b: seq<bv8>)
    ensures Crc(Crc(seed, a), b) == Crc(seed, a + b)
  {
    hide Complement, Feed;
    ComplementTwice(Feed(Complement(seed), a));
    FeedConcat(Complement(seed), a, b);
  }

  // ---- the register is linear ----

  lemma XorLaws(p: bv32, a: bv32, b: bv32)
    ensures Xor(Xor(p, a), Xor(p, b)) == Xor(a, b)
    ensures Xor(Xor(p, a), b) == Xor(p, Xor(a, b))
    ensures Xor(a, Xor(p, b)) == Xor(p, Xor(a, b))
    ensures Xor(a, b) == Xor(b, a) && Xor(p, 0) == p
  {
    hide Xor;
    XorCancels(p, a, b);
    XorMoves(p, a, b);
    XorSwaps(p, a, b);
  }

  lemma XorIs(a: bv32, b: bv32)
    ensures Xor(a, b) == a ^ b
  {
  }

  lemma XorBits(p: bv32, a: bv32, b: bv32)
    ensures (p ^ a) ^ (p ^ b) == a ^ b && (p ^ a) ^ b == p ^ (a ^ b) && a ^ (p ^ b) == p ^ (a ^ b) && a ^ b == b ^ a && p ^ 0 == p
  {
  }

  lemma XorCancels(p: bv32, a: bv32, b: bv32)
    ensures Xor(Xor(p, a), Xor(p, b)) == Xor(a, b)
  {
    hide Xor;
    XorIs(p, a);
    XorIs(p, b);
    XorIs(a, b);
    XorIs(p ^ a, p ^ b);
    XorBits(p, a, b);
  }

  lemma XorMoves(p: bv32, a: bv32, b: bv32)
    ensures Xor(Xor(p, a), b) == Xor(p, Xor(a, b))
  {
    hide Xor;
    XorIs(p, a);
    XorIs(a, b);
    XorIs(p ^ a, b);
    XorIs(p, a ^ b);
    XorBits(p, a, b);
  }

  lemma XorSwaps(p: bv32, a: bv32, b: bv32)
    ensures Xor(a, Xor(p, b)) == Xor(p, Xor(a, b)) && Xor(a, b) == Xor(b, a) && Xor(p, 0) == p
  {
    hide Xor;
    XorIs(a, b);
    XorIs(b, a);
    XorIs(p, b);
    XorIs(p, 0);
    XorIs(a, p ^ b);
    XorIs(p, a ^ b);
    XorBits(p, a, b);
  }

  lemma HalfXor(a: bv32, b: bv32)
    ensures Half(Xor(a, b)) == Xor(Half(a), Half(b))
    ensures Odd(Xor(a, b)) <==> Odd(a) != Odd(b)
  {
  }

  lemma StepLinear(a: bv32, b: bv32)
    ensures Step(Xor(a, b)) == Xor(Step(a), Step(b))
  {
    hide Xor, Half, Odd;
    HalfXor(a, b);
    XorLaws(POLY, Half(a), Half(b));
  }

  lemma {:induction false} StepsLinear(a: bv32, b: bv32, n: nat)
    ensures Steps(Xor(a, b), n) == Xor(Steps(a, n), Steps(b, n))
    decreases n
  {
    hide Step, Xor;
    if n > 0 {
      StepLinear(a, b);
      StepsLinear(Step(a), Step(b), n - 1);
    }
  }

  lemma {:induction false} StepsAdd(c: bv32, m: nat, n: nat)
    ensures Steps(c, m + n) == Steps(Steps(c, m), n)
    decreases m
  {
    hide Step;
    if m > 0 { StepsAdd(Step(c), m - 1, n); }
  }

  // ---- bits already in the register's low end are the same as bits fed in ----

  lemma FeedStep(c: bv32, v: bv32)
    ensures Step(Xor(c, v)) == Xor(FeedBit(c, Odd(v)), Half(v))
  {
    hide Xor, Half, Odd;
    HalfXor(c, v);
    XorLaws(POLY, Half(c), Half(v));
  }

  /** v has no bits from position n on. */
  predicate Short(v: bv32, n: nat)
    decreases n
  {
    if n == 0 then v == 0 else Short(Half(v), n - 1)
  }

  lemma {:induction false} FeedIsSteps(c: bv32, v: bv32, n: nat)
    requires Short(v, n)
    ensures FeedBits(c, v, n) == Steps(Xor(c, v), n)
    decreases n
  {
    hide Step, FeedBit, Xor, Half, Odd;
    if n == 0 {
      XorLaws(c, 0, 0);
    } else {
      FeedStep(c, v);
      FeedIsSteps(FeedBit(c, Odd(v)), Half(v), n - 1);
    }
  }

  lemma ByteIsShort(b: bv8)
    ensures Short(b as bv32, 8) && (b as bv32) < 0x100
  {
    ShortByte(b as bv32);
  }

  lemma ShortByte(v: bv32)
    requires v < 0x100
    ensures Short(v, 8)
  {
    assert Short(Half(Half(Half(Half(Half(Half(Half(Half(v)))))))), 0);
    assert Short(Half(Half(Half(Half(Half(Half(v)))))), 2);
    assert Short(Half(Half(Half(Half(v)))), 4);
    assert Short(Half(Half(v)), 6);
  }

  lemma FeedByte(c: bv32, b: bv8)
    ensures FeedBits(c, b as bv32, 8) == Steps(Xor(c, b as bv32), 8)
  {
    hide FeedBits, Steps, Short, Xor;
    ByteIsShort(b);
    FeedIsSteps(c, b as bv32, 8);
  }

  // ---- a byte's worth of steps ----

  function Up(w: bv32): bv32 { w << 8 }

  function Down(x: bv32): bv32 { x >> 8 }

  function LowByte(x: bv32): bv32 { x & 0xFF }

  function Halves(c: bv32, n: nat): bv32
    decreases n
  {
    if n == 0 then c else Halves(c >> 1, n - 1)
  }

  /** The n low bits of c are zero. */
  predicate Even(c: bv32, n: nat)
    decreases n
  {
    n == 0 || (c & 1 == 0 && Even(c >> 1, n - 1))
  }

  lemma {:induction false} StepsEven(c: bv32, n: nat)
    requires Even(c, n)
    ensures Steps(c, n) == Halves(c, n)
    decreases n
  {
    if n > 0 {
      assert Step(c) == c >> 1;
      hide Step;
      StepsEven(c >> 1, n - 1);
    }
  }

  lemma Climb(v: bv32, n: nat, w: bv32) returns (u: bv32)
    requires v < 0x8000_0000 && Even(v, n) && Halves(v, n) == w
    ensures u == v << 1 && Even(u, n + 1) && Halves(u, n + 1) == w
  {
    hide Even, Halves;
    u := v << 1;
    HalfOfDouble(v, u);
    ClimbBy(v, u, n);
  }

  lemma HalfOfDouble(v: bv32, u: bv32)
    requires v < 0x8000_0000 && u == v << 1
    ensures u >> 1 == v && u & 1 == 0
  {
  }

  lemma ClimbBy(v: bv32, u: bv32, n: nat)
    requires u >> 1 == v && u & 1 == 0 && Even(v, n)
    ensures Even(u, n + 1) && Halves(u, n + 1) == Halves(v, n)
  {
  }

  lemma Start(w: bv32)
    ensures Even(w, 0) && Halves(w, 0) == w
  {
  }

  lemma TwoBounds(v: bv32, u: bv32)
    requires v < 0x4000_0000 && u == v << 1
    ensures v < 0x8000_0000 && u < 0x8000_0000 && u << 1 == v << 2
  {
  }

  lemma ClimbTwice(v: bv32, n: nat, w: bv32) returns (u: bv32)
    requires v < 0x4000_0000 && Even(v, n) && Halves(v, n) == w
    ensures u == v << 2 && Even(u, n + 2) && Halves(u, n + 2) == w
  {
    hide Even, Halves;
    TwoBounds(v, v << 1);
    var t := Climb(v, n, w);
    u := Climb(t, n + 1, w);
  }

  lemma FourBounds(v: bv32, u: bv32)
    requires v < 0x1000_0000 && u == v << 2
    ensures v < 0x4000_0000 && u < 0x4000_0000 && u << 2 == v << 4
  {
  }

  lemma ClimbFour(v: bv32, n: nat, w: bv32) returns (u: bv32)
    requires v < 0x1000_0000 && Even(v, n) && Halves(v, n) == w
    ensures u == v << 4 && Even(u, n + 4) && Halves(u, n + 4) == w
  {
    hide Even, Halves;
    FourBounds(v, v << 2);
    var t := ClimbTwice(v, n, w);
    u := ClimbTwice(t, n + 2, w);
  }

  lemma EightBounds(v: bv32, u: bv32)
    requires v < 0x100_0000 && u == v << 4
    ensures v < 0x1000_0000 && u < 0x1000_0000 && u << 4 == v << 8
  {
  }

  lemma UpIsEven(w: bv32) returns (u: bv32)
    requires w < 0x100_0000
    ensures u == w << 8 && Even(u, 8) && Halves(u, 8) == w
  {
    hide Even, Halves;
    Start(w);
    EightBounds(w, w << 4);
    var t := ClimbFour(w, 0, w);
    u := ClimbFour(t, 4, w);
  }

  /** Eight steps move a value with an empty low byte down by one byte. */
  lemma StepsDown(w: bv32)
    requires w < 0x100_0000
    ensures Steps(Up(w), 8) == w
  {
    hide Steps, Even, Halves;
    var u := UpIsEven(w);
    StepsEven(u, 8);
  }

  lemma SplitLowByte(x: bv32)
    ensures x == Xor(LowByte(x), Up(Down(x))) && Down(x) < 0x100_0000 && LowByte(x) < 0x100
  {
  }

  /** The low byte alone decides what is added to the rest moving down. */
  lemma StepsByByte(x: bv32)
    ensures Steps(x, 8) == Xor(Steps(LowByte(x), 8), Down(x))
  {
    hide Steps, Xor, Up, Down, LowByte;
    SplitLowByte(x);
    StepsLinear(LowByte(x), Up(Down(x)), 8);
    StepsDown(Down(x));
  }

  // ---- the register step is a bijection ----

  function Unstep(d: bv32): bv32
  {
    if d & 0x8000_0000 != 0 then ((d ^ POLY) << 1) | 1 else d << 1
  }

  lemma StepInverse(c: bv32)
    ensures Unstep(Step(c)) == c
  {
  }

  lemma {:induction false} StepsInjective(a: bv32, b: bv32, n: nat)
    requires Steps(a, n) == Steps(b, n)
    ensures a == b
    decreases n
  {
    hide Step, Unstep;
    if n > 0 {
      StepsInjective(Step(a), Step(b), n - 1);
      StepInverse(a);
      StepInverse(b);
    }
  }

  lemma XorInjective(c: bv32, d: bv32, x: bv32)
    requires Xor(c, x) == Xor(d, x)
    ensures c == d
  {
    assert c == (c ^ x) ^ x;
  }

  lemma {:induction false} FeedInjective(c: bv32, d: bv32, buf: seq<bv8>)
    requires Feed(c, buf) == Feed(d, buf)
    ensures c == d
    decreases |buf|
  {
    hide FeedBits, Steps, Xor;
    if buf != [] {
      FeedInjective(FeedBits(c, buf[0] as bv32, 8), FeedBits(d, buf[0] as bv32, 8), buf[1..]);
      FeedByte(c, buf[0]);
      FeedByte(d, buf[0]);
      StepsInjective(Xor(c, buf[0] as bv32), Xor(d, buf[0] as bv32), 8);
      XorInjective(c, d, buf[0] as bv32);
    }
  }

  // ---- up to four bytes act as one word ----

  function Word(bytes: seq<bv8>): bv32
  {
    if bytes == [] then 0 else Xor(bytes[0] as bv32, Up(Word(bytes[1..])))
  }

  lemma ShiftedBound(b: bv32, w: bv32)
    requires b < 0x100
    ensures w == 0 ==> Xor(b, Up(w)) < 0x100
    ensures w < 0x100 ==> Xor(b, Up(w)) < 0x1_0000
    ensures w < 0x1_0000 ==> Xor(b, Up(w)) < 0x100_0000
  {
  }

  lemma {:induction false} WordBound(bytes: seq<bv8>)
    ensures |bytes| == 0 ==> Word(bytes) == 0
    ensures |bytes| <= 1 ==> Word(bytes) < 0x100
    ensures |bytes| <= 2 ==> Word(bytes) < 0x1_0000
    ensures |bytes| <= 3 ==> Word(bytes) < 0x100_0000
  {
    hide Xor, Up;
    if bytes != [] {
      WordBound(bytes[1..]);
      ByteIsShort(bytes[0]);
      ShiftedBound(bytes[0] as bv32, Word(bytes[1..]));
    }
  }

  lemma WordParts(b: bv32, w: bv32)
    requires b < 0x100 && w < 0x100_0000
    ensures LowByte(Xor(b, Up(w))) == b && Down(Xor(b, Up(w))) == w
  {
  }

  lemma SameByte(a: bv8, b: bv8)
    requires a as bv32 == b as bv32
    ensures a == b
  {
  }

  lemma {:induction false} WordInjective(a: seq<bv8>, b: seq<bv8>)
    requires |a| == |b| <= 4 && Word(a) == Word(b)
    ensures a == b
  {
    hide Xor, Up, LowByte, Down;
    if a != [] {
      WordBound(a[1..]);
      WordBound(b[1..]);
      ByteIsShort(a[0]);
      ByteIsShort(b[0]);
      WordParts(a[0] as bv32, Word(a[1..]));
      WordParts(b[0] as bv32, Word(b[1..]));
      SameByte(a[0], b[0]);
      WordInjective(a[1..], b[1..]);
      assert a == [a[0]] + a[1..] && b == [b[0]] + b[1..];
    }
  }

  lemma {:induction false} FeedIsWord(c: bv32, bytes: seq<bv8>)
    requires |bytes| <= 4
    ensures Feed(c, bytes) == Steps(Xor(c, Word(bytes)), 8 * |bytes|)
    decreases |bytes|
  {
    hide FeedBits, Xor, Up;
    if bytes == [] {
      XorLaws(c, 0, 0);
    } else {
      var b, rest := bytes[0] as bv32, bytes[1..];
      var w := Word(rest);
      hide Steps;
      FeedByte(c, bytes[0]);
      FeedIsWord(Steps(Xor(c, b), 8), rest);
      WordBound(rest);
      StepsDown(w);
      StepsLinear(Xor(c, b), Up(w), 8);
      XorLaws(c, b, Up(w));
      StepsAdd(Xor(c, Xor(b, Up(w))), 8, 8 * |rest|);
    }
  }

  lemma PiecesFed(seed: bv32, before: seq<bv8>, mid: seq<bv8>, after: seq<bv8>)
    requires |mid| <= 4
    ensures Feed(seed, before + mid + after) == Feed(Steps(Xor(Feed(seed, before), Word(mid)), 8 * |mid|), after)
  {
    hide Feed, Steps, Word, Xor;
    FeedConcat(seed, before + mid, after);
    FeedConcat(seed, before, mid);
    FeedIsWord(Feed(seed, before), mid);
  }

  /** Messages that differ only inside four consecutive bytes never have the same CRC. */
  lemma BurstDetected(seed: bv32, before: seq<bv8>, a: seq<bv8>, b: seq<bv8>, after: seq<bv8>)
    requires |a| == |b| <= 4 && a != b
    ensures Crc(seed, before + a + after) != Crc(seed, before + b + after)
  {
    hide Feed, Steps, Word, Xor, Complement;
    if Crc(seed, before + a + after) == Crc(seed, before + b + after) {
      var start := Complement(seed);
      ComplementTwice(Feed(start, before + a + after));
      ComplementTwice(Feed(start, before + b + after));
      var c := Feed(start, before);
      PiecesFed(start, before, a, after);
      PiecesFed(start, before, b, after);
      FeedInjective(Steps(Xor(c, Word(a)), 8 * |a|), Steps(Xor(c, Word(b)), 8 * |b|), after);
      StepsInjective(Xor(c, Word(a)), Xor(c, Word(b)), 8 * |a|);
      XorLaws(c, c, Word(a));
      XorLaws(c, c, Word(b));
      XorInjective(Word(a), Word(b), c);
      WordInjective(a, b);
    }
  }

  // ---- the table ----

  /** crc_table, sixteen entries to a row. */
  function Row(r: bv32): (s: seq<bv32>)
    requires r < 16
    ensures |s| == 16
  {
    match r
    case 0 =>
          [0x00000000, 0x77073096, 0xEE0E612C, 0x990951BA, 0x076DC419, 0x706AF48F, 0xE963A535, 0x9E6495A3,
           0x0EDB8832, 0x79DCB8A4, 0xE0D5E91E, 0x97D2D988, 0x09B64C2B, 0x7EB17CBD, 0xE7B82D07, 0x90BF1D91]
    case 1 =>
          [0x1DB71064, 0x6AB020F2, 0xF3B97148, 0x84BE41DE, 0x1ADAD47D, 0x6DDDE4EB, 0xF4D4B551, 0x83D385C7,
           0x136C9856, 0x646BA8C0, 0xFD62F97A, 0x8A65C9EC, 0x14015C4F, 0x63066CD9, 0xFA0F3D63, 0x8D080DF5]
    case 2 =>
          [0x3B6E20C8, 0x4C69105E, 0xD56041E4, 0xA2677172, 0x3C03E4D1, 0x4B04D447, 0xD20D85FD, 0xA50AB56B,
           0x35B5A8FA, 0x42B2986C, 0xDBBBC9D6, 0xACBCF940, 0x32D86CE3, 0x45DF5C75, 0xDCD60DCF, 0xABD13D59]
    case 3 =>
          [0x26D930AC, 0x51DE003A, 0xC8D75180, 0xBFD06116, 0x21B4F4B5, 0x56B3C423, 0xCFBA9599, 0xB8BDA50F,
           0x2802B89E, 0x5F058808, 0xC60CD9B2, 0xB10BE924, 0x2F6F7C87, 0x58684C11, 0xC1611DAB, 0xB6662D3D]
    case 4 =>
          [0x76DC4190, 0x01DB7106, 0x98D220BC, 0xEFD5102A, 0x71B18589, 0x06B6B51F, 0x9FBFE4A5, 0xE8B8D433,
           0x7807C9A2, 0x0F00F934, 0x9609A88E, 0xE10E9818, 0x7F6A0DBB, 0x086D3D2D, 0x91646C97, 0xE6635C01]
    case 5 =>
          [0x6B6B51F4, 0x1C6C6162, 0x856530D8, 0xF262004E, 0x6C0695ED, 0x1B01A57B, 0x8208F4C1, 0xF50FC457,
           0x65B0D9C6, 0x12B7E950, 0x8BBEB8EA, 0xFCB9887C, 0x62DD1DDF, 0x15DA2D49, 0x8CD37CF3, 0xFBD44C65]
    case 6 =>
          [0x4DB26158, 0x3AB551CE, 0xA3BC0074, 0xD4BB30E2, 0x4ADFA541, 0x3DD895D7, 0xA4D1C46D, 0xD3D6F4FB,
           0x4369E96A, 0x346ED9FC, 0xAD678846, 0xDA60B8D0, 0x44042D73, 0x33031DE5, 0xAA0A4C5F, 0xDD0D7CC9]
    case 7 =>
          [0x5005713C, 0x270241AA, 0xBE0B1010, 0xC90C2086, 0x5768B525, 0x206F85B3, 0xB966D409, 0xCE61E49F,
           0x5EDEF90E, 0x29D9C998, 0xB0D09822, 0xC7D7A8B4, 0x59B33D17, 0x2EB40D81, 0xB7BD5C3B, 0xC0BA6CAD]
    case 8 =>
          [0xEDB88320, 0x9ABFB3B6, 0x03B6E20C, 0x74B1D29A, 0xEAD54739, 0x9DD277AF, 0x04DB2615, 0x73DC1683,
           0xE3630B12, 0x94643B84, 0x0D6D6A3E, 0x7A6A5AA8, 0xE40ECF0B, 0x9309FF9D, 0x0A00AE27, 0x7D079EB1]
    case 9 =>
          [0xF00F9344, 0x8708A3D2, 0x1E01F268, 0x6906C2FE, 0xF762575D, 0x806567CB, 0x196C3671, 0x6E6B06E7,
           0xFED41B76, 0x89D32BE0, 0x10DA7A5A, 0x67DD4ACC, 0xF9B9DF6F, 0x8EBEEFF9, 0x17B7BE43, 0x60B08ED5]
    case 10 =>
          [0xD6D6A3E8, 0xA1D1937E, 0x38D8C2C4, 0x4FDFF252, 0xD1BB67F1, 0xA6BC5767, 0x3FB506DD, 0x48B2364B,
           0xD80D2BDA, 0xAF0A1B4C, 0x36034AF6, 0x41047A60, 0xDF60EFC3, 0xA867DF55, 0x316E8EEF, 0x4669BE79]
    case 11 =>
          [0xCB61B38C, 0xBC66831A, 0x256FD2A0, 0x5268E236, 0xCC0C7795, 0xBB0B4703, 0x220216B9, 0x5505262F,
           0xC5BA3BBE, 0xB2BD0B28, 0x2BB45A92, 0x5CB36A04, 0xC2D7FFA7, 0xB5D0CF31, 0x2CD99E8B, 0x5BDEAE1D]
    case 12 =>
          [0x9B64C2B0, 0xEC63F226, 0x756AA39C, 0x026D930A, 0x9C0906A9, 0xEB0E363F, 0x72076785, 0x05005713,
           0x95BF4A82, 0xE2B87A14, 0x7BB12BAE, 0x0CB61B38, 0x92D28E9B, 0xE5D5BE0D, 0x7CDCEFB7, 0x0BDBDF21]
    case 13 =>
          [0x86D3D2D4, 0xF1D4E242, 0x68DDB3F8, 0x1FDA836E, 0x81BE16CD, 0xF6B9265B, 0x6FB077E1, 0x18B74777,
           0x88085AE6, 0xFF0F6A70, 0x66063BCA, 0x11010B5C, 0x8F659EFF, 0xF862AE69, 0x616BFFD3, 0x166CCF45]
    case 14 =>
          [0xA00AE278, 0xD70DD2EE, 0x4E048354, 0x3903B3C2, 0xA7672661, 0xD06016F7, 0x4969474D, 0x3E6E77DB,
           0xAED16A4A, 0xD9D65ADC, 0x40DF0B66, 0x37D83BF0, 0xA9BCAE53, 0xDEBB9EC5, 0x47B2CF7F, 0x30B5FFE9]
    case _ =>
          [0xBDBDF21C, 0xCABAC28A, 0x53B39330, 0x24B4A3A6, 0xBAD03605, 0xCDD70693, 0x54DE5729, 0x23D967BF,
           0xB3667A2E, 0xC4614AB8, 0x5D681B02, 0x2A6F2B94, 0xB40BBE37, 0xC30C8EA1, 0x5A05DF1B, 0x2D02EF8D]
  }

  lemma NibbleBound(i: bv32)
    requires i < 0x100
    ensures i >> 4 < 16 && (i & 0xF) as int < 16 && i & 0xF < 16 && i == Xor(i >> 4 << 4, i & 0xF)
  {
  }

  /** crc_table[i] */
  function Table(i: bv32): bv32
    requires i < 0x100
  {
    NibbleBound(i);
    Row(i >> 4)[(i & 0xF) as int]
  }

  lemma Unrolled(c: bv32)
    ensures Steps(c, 8) == Step(Step(Step(Step(Step(Step(Step(Step(c))))))))
  {
    hide Step;
    assert Steps(c, 8) == Steps(Step(Step(c)), 6);
    assert Steps(Step(Step(c)), 6) == Steps(Step(Step(Step(Step(c)))), 4);
  }

  lemma FirstRow(k: bv32)
    requires k < 16
    ensures Row(0)[k as int] == Steps(k, 8)
  {
    Unrolled(k);
    hide Steps;
    if k == 0 {} else if k == 1 {} else if k == 2 {} else if k == 3 {} else if k == 4 {} else if k == 5 {} else if k == 6 {}
    else if k == 7 {} else if k == 8 {} else if k == 9 {} else if k == 10 {} else if k == 11 {} else if k == 12 {}
    else if k == 13 {} else if k == 14 {} else { assert k == 15; }
  }

  lemma FirstColumn(r: bv32)
    requires r < 16
    ensures Row(r)[0] == Steps(r << 4, 8)
  {
    Unrolled(r << 4);
    hide Steps;
    if r == 0 {} else if r == 1 {} else if r == 2 {} else if r == 3 {} else if r == 4 {} else if r == 5 {} else if r == 6 {}
    else if r == 7 {} else if r == 8 {} else if r == 9 {} else if r == 10 {} else if r == 11 {} else if r == 12 {}
    else if r == 13 {} else if r == 14 {} else { assert r == 15; }
  }

  /** Row r with each entry combined with c. */
  function XorRow(c: bv32, s: seq<bv32>): seq<bv32>
    requires |s| == 16
  {
    [Xor(c, s[0]), Xor(c, s[1]), Xor(c, s[2]), Xor(c, s[3]), Xor(c, s[4]), Xor(c, s[5]), Xor(c, s[6]), Xor(c, s[7]),
     Xor(c, s[8]), Xor(c, s[9]), Xor(c, s[10]), Xor(c, s[11]), Xor(c, s[12]), Xor(c, s[13]), Xor(c, s[14]), Xor(c, s[15])]
  }

  lemma LowRowsXor(r: bv32)
    requires r < 8
    ensures Row(r) == XorRow(Row(r)[0], Row(0))
  {
    if r == 0 {} else if r == 1 {} else if r == 2 {} else if r == 3 {} else if r == 4 {} else if r == 5 {} else if r == 6 {} else { assert r == 7; }
  }

  lemma NextRowsXor(r: bv32)
    requires 8 <= r < 10
    ensures Row(r) == XorRow(Row(r)[0], Row(0))
  {
    if r == 8 {} else { assert r == 9; }
  }

  lemma MiddleRowsXor(r: bv32)
    requires 10 <= r < 12
    ensures Row(r) == XorRow(Row(r)[0], Row(0))
  {
    if r == 10 {} else { assert r == 11; }
  }

  lemma HighRowsXor(r: bv32)
    requires 12 <= r < 14
    ensures Row(r) == XorRow(Row(r)[0], Row(0))
  {
    if r == 12 {} else { assert r == 13; }
  }

  lemma LastRowsXor(r: bv32)
    requires 14 <= r < 16
    ensures Row(r) == XorRow(Row(r)[0], Row(0))
  {
    if r == 14 {} else { assert r == 15; }
  }

  lemma XorRowAt(c: bv32, s: seq<bv32>, k: nat)
    requires |s| == 16 && k < 16
    ensures XorRow(c, s)[k] == Xor(c, s[k])
  {
    hide Xor;
    if k < 8 {
      if k == 0 {} else if k == 1 {} else if k == 2 {} else if k == 3 {} else if k == 4 {} else if k == 5 {} else if k == 6 {} else { assert k == 7; }
    } else {
      if k == 8 {} else if k == 9 {} else if k == 10 {} else if k == 11 {} else if k == 12 {} else if k == 13 {} else if k == 14 {} else { assert k == 15; }
    }
  }

  lemma RowsLinear(r: bv32, k: bv32)
    requires r < 16 && k < 16
    ensures Row(r)[k as int] == Xor(Row(r)[0], Row(0)[k as int])
  {
    hide Row, XorRow, Xor;
    if r < 8 { LowRowsXor(r); } else if r < 10 { NextRowsXor(r); } else if r < 12 { MiddleRowsXor(r); } else if r < 14 { HighRowsXor(r); } else { LastRowsXor(r); }
    XorRowAt(Row(r)[0], Row(0), k as int);
  }

  /** Every entry is the register after eight steps from its index: the table is the one
      make_crc_table computes. */
  lemma TableOk(i: bv32)
    requires i < 0x100
    ensures Table(i) == Steps(i, 8)
  {
    hide Row, Steps, Xor;
    NibbleBound(i);
    var r, k := i >> 4, i & 0xF;
    RowsLinear(r, k);
    FirstColumn(r);
    FirstRow(k);
    StepsLinear(r << 4, k, 8);
  }

  // ---- the code ----

  /** make_crc_table */
  method MakeCrcTable(t: array<bv32>)
    requires t.Length == 256
    modifies t
    ensures forall n :: 0 <= n < 256 ==> t[n] == Table(n as bv32)
  {
    hide Step, Table;
    for n := 0 to 256
      invariant forall j :: 0 <= j < n ==> t[j] == Table(j as bv32)
    {
      var c := n as bv32;
      for k := 0 to 8
        invariant Steps(c, 8 - k) == Steps(n as bv32, 8)
      {
        c := Step(c);
      }
      EntryIs(n);
      t[n] := c;
    }
  }

  lemma EntryIs(n: nat)
    requires n < 256
    ensures (n as bv32) < 0x100 && Table(n as bv32) == Steps(n as bv32, 8)
  {
    hide Steps, Table;
    TableOk(n as bv32);
  }

  /** DO1 */
  function Do1(c: bv32, b: bv8): bv32
  {
    IndexBound(c, b);
    Xor(Table(LowByte(Xor(c, b as bv32))), Down(c))
  }

  lemma IndexBound(c: bv32, b: bv8)
    ensures LowByte(Xor(c, b as bv32)) < 0x100
  {
  }

  lemma DownOfXor(c: bv32, b: bv32)
    requires b < 0x100
    ensures Down(Xor(c, b)) == Down(c)
  {
  }

  lemma Do1IsFeed(c: bv32, b: bv8)
    ensures Do1(c, b) == FeedBits(c, b as bv32, 8)
  {
    hide Steps, Xor, Down, LowByte, Table, FeedBits;
    FeedByte(c, b);
    ByteIsShort(b);
    StepsByByte(Xor(c, b as bv32));
    DownOfXor(c, b as bv32);
    IndexBound(c, b);
    TableOk(LowByte(Xor(c, b as bv32)));
  }

  lemma FeedOne(c: bv32, buf: array<bv8>, i: nat)
    requires i < buf.Length
    ensures Feed(c, buf[..i + 1]) == Do1(Feed(c, buf[..i]), buf[i])
  {
    hide Do1, FeedBits;
    Do1IsFeed(Feed(c, buf[..i]), buf[i]);
    assert buf[..i + 1] == buf[..i] + [buf[i]];
    FeedConcat(c, buf[..i], [buf[i]]);
    assert Feed(Feed(c, buf[..i]), [buf[i]]) == Feed(FeedBits(Feed(c, buf[..i]), buf[i] as bv32, 8), []);
  }

  /** DO4 */
  method Do4(c: bv32, buf: array<bv8>, i: nat, ghost seed: bv32) returns (d: bv32)
    requires i + 4 <= buf.Length && c == Feed(seed, buf[..i])
    ensures d == Feed(seed, buf[..i + 4])
  {
    hide Do1, Feed;
    FeedOne(seed, buf, i);
    FeedOne(seed, buf, i + 1);
    FeedOne(seed, buf, i + 2);
    FeedOne(seed, buf, i + 3);
    d := Do1(c, buf[i]);
    d := Do1(d, buf[i + 1]);
    d := Do1(d, buf[i + 2]);
    d := Do1(d, buf[i + 3]);
  }

  /** crc32(): eight bytes at a time while there are eight, then one at a time. */
  method Crc32(crc: bv32, buf: array<bv8>, len: nat) returns (r: bv32)
    requires len <= buf.Length
    ensures r == Crc(crc, buf[..len])
  {
    hide Do1, Feed, Complement;
    var c, i, left := Complement(crc), 0, len;
    assert buf[..0] == [] && c == Feed(Complement(crc), buf[..0]) by { FeedNothing(c); }
    while left >= 8
      invariant i + left == len && c == Feed(Complement(crc), buf[..i])
    {
      c := Do4(c, buf, i, Complement(crc));
      c := Do4(c, buf, i + 4, Complement(crc));
      i, left := i + 8, left - 8;
    }
    while left > 0
      invariant i + left == len && c == Feed(Complement(crc), buf[..i])
    {
      FeedOne(Complement(crc), buf, i);
      c := Do1(c, buf[i]);
      i, left := i + 1, left - 1;
    }
    r := Complement(c);
  }

  lemma FeedNothing(c: bv32)
    ensures Feed(c, []) == c
  {
  }

  // ---- the check value ----

  const DIGITS: seq<bv8> := [0x31, 0x32, 0x33, 0x34, 0x35, 0x36, 0x37, 0x38, 0x39]

  /** The register before each of the nine digits and after the last. */
  const REGISTERS: seq<bv32> := [0xFFFF_FFFF, 0x7C23_1048, 0xB0AC_BB32, 0x77B7_9C2D, 0x641C_1F5C,
                                 0x340A_C5E3, 0xF68D_2C9E, 0xAFFC_9660, 0x651F_2550, 0x340B_C6D9]

  lemma FirstDigits(i: nat)
    requires i < 3
    ensures FeedBits(REGISTERS[i], DIGITS[i] as bv32, 8) == REGISTERS[i + 1]
  {
    Do1IsFeed(REGISTERS[i], DIGITS[i]);
    hide FeedBits;
    if i == 0 {} else if i == 1 {} else { assert i == 2; }
  }

  lemma MiddleDigits(i: nat)
    requires 3 <= i < 6
    ensures FeedBits(REGISTERS[i], DIGITS[i] as bv32, 8) == REGISTERS[i + 1]
  {
    Do1IsFeed(REGISTERS[i], DIGITS[i]);
    hide FeedBits;
    if i == 3 {} else if i == 4 {} else { assert i == 5; }
  }

  lemma LastDigits(i: nat)
    requires 6 <= i < 9
    ensures FeedBits(REGISTERS[i], DIGITS[i] as bv32, 8) == REGISTERS[i + 1]
  {
    Do1IsFeed(REGISTERS[i], DIGITS[i]);
    hide FeedBits;
    if i == 6 {} else if i == 7 {} else { assert i == 8; }
  }

  lemma {:induction false} FeedAlong(s: seq<bv8>, regs: seq<bv32>, i: nat)
    requires i <= |s| && |regs| == |s| + 1 && forall k :: i <= k < |s| ==> FeedBits(regs[k], s[k] as bv32, 8) == regs[k + 1]
    ensures Feed(regs[i], s[i..]) == regs[|s|]
    decreases |s| - i
  {
    hide FeedBits;
    if i < |s| { FeedAlong(s, regs, i + 1); }
  }

  /** The CRC of the nine digits is the check value that this CRC-32 is known by. */
  lemma CheckValue()
    ensures Crc(0, DIGITS) == 0xCBF4_3926
  {
    hide FeedBits, Feed;
    forall i | 0 <= i < 9 ensures FeedBits(REGISTERS[i], DIGITS[i] as bv32, 8) == REGISTERS[i + 1]
    {
      if i < 3 { FirstDigits(i); } else if i < 6 { MiddleDigits(i); } else { LastDigits(i); }
    }
    FeedAlong(DIGITS, REGISTERS, 0);
    assert DIGITS[0..] == DIGITS;
  }
}
