/** The bit vector: bits packed into words, and a search that remembers where it stopped. */
module BitVector {
  import opened Helpers

  // ---------- words as numbers ----------

  function Pow2(n: nat): (p: nat)
    ensures p > 0
  {
    if n == 0 then 1 else 2 * Pow2(n - 1)
  }

  lemma {:induction false} PowAdd(a: nat, b: nat)
    ensures Pow2(a + b) == Pow2(a) * Pow2(b)
    decreases a
  {
    if a > 0 {
      PowAdd(a - 1, b);
      Regroup(2, Pow2(a - 1), Pow2(b));
    }
  }

  lemma Regroup(a: nat, b: nat, c: nat)
    ensures a * (b * c) == (a * b) * c
  {
  }

  /** The bits of x from a on, b of them: shifting right by a and masking. */
  function Part(x: nat, a: nat, b: nat): (r: nat)
    ensures r < Pow2(b)
  {
    x / Pow2(a) % Pow2(b)
  }

  function Bit(x: nat, k: nat): bool {
    Part(x, k, 1) == 1
  }

  lemma Ordered(p: nat, q: nat, d: nat)
    ensures p < q ==> p * d + d <= q * d
  {
    if p < q {
      AtLeast(q - p, d);
      Distribute(p, q - p, d);
    }
  }

  lemma AtLeast(k: nat, d: nat)
    requires k > 0
    ensures k * d >= d
  {
    Distribute(1, k - 1, d);
  }

  lemma Distribute(a: nat, b: nat, d: nat)
    ensures (a + b) * d == a * d + b * d
  {
  }

  lemma DivUnique(x: nat, d: nat, q: nat, r: nat)
    requires d > 0 && r < d && x == q * d + r
    ensures x / d == q && x % d == r
  {
    Ordered(x / d, q, d);
    Ordered(q, x / d, d);
  }

  lemma Nested(q: nat, b: nat, s: nat, a: nat, r: nat)
    requires s < b && r < a
    ensures (q * b + s) * a + r == q * (a * b) + (s * a + r)
    ensures s * a + r < a * b
  {
    assert (q * b + s) * a == q * b * a + s * a;
    Regroup(q, b, a);
    Ordered(s, b, a);
  }

  lemma Positive(a: nat, b: nat)
    requires a > 0 && b > 0
    ensures a * b > 0
  {
  }

  lemma DivDiv(x: nat, a: nat, b: nat)
    requires a > 0 && b > 0
    ensures a * b > 0 && x / a / b == x / (a * b)
  {
    Positive(a, b);
    DivDivBy(x, a, b, x / a / b, x / a % b, x % a);
  }

  lemma DivDivBy(x: nat, a: nat, b: nat, q: nat, s: nat, r: nat)
    requires a > 0 && b > 0 && a * b > 0 && s < b && r < a && x == (q * b + s) * a + r
    ensures x / (a * b) == q
  {
    Nested(q, b, s, a, r);
    DivUnique(x, a * b, q, s * a + r);
  }

  lemma DivMod(x: nat, d: nat)
    requires d > 0
    ensures x == x / d * d + x % d && x % d < d
  {
  }

  /** Masking leaves the low part alone. */
  lemma DivOfMod(y: nat, c: nat, d: nat, e: nat)
    requires c > 0 && d > 0 && e > 0
    ensures c * (d * e) > 0 && y % (c * (d * e)) / c % d == y / c % d
  {
    Positive(d, e);
    Positive(c, d * e);
    DivOfMask(y, c, d, e, c * (d * e));
  }

  lemma DivOfMask(y: nat, c: nat, d: nat, e: nat, b: nat)
    requires b > 0 && c > 0 && d > 0 && b == c * (d * e)
    ensures y % b / c % d == y / c % d
  {
    DivMod(y, b);
    DivMod(y % b, c);
    DivMod(y % b / c, d);
    DivOfMaskBy(y, c, d, e, b, y / b, y % b, y % b / c, y % b % c, y % b / c / d, y % b / c % d);
  }

  lemma DivOfMaskBy(y: nat, c: nat, d: nat, e: nat, b: nat, q: nat, r: nat, s: nat, v: nat, t: nat, u: nat)
    requires c > 0 && d > 0 && b == c * (d * e) && v < c && u < d
    requires y == q * b + r && r == s * c + v && s == t * d + u
    ensures y / c % d == u
  {
    Multiples(q, c, d, e);
    Distribute(q * e, t, d);
    Distribute(q * e * d, s, c);
    DivUnique(y, c, (q * e + t) * d + u, v);
    DivUnique((q * e + t) * d + u, d, q * e + t, u);
  }

  lemma Multiples(q: nat, c: nat, d: nat, e: nat)
    ensures q * (c * (d * e)) == q * e * d * c
  {
    assert c * (d * e) == (d * e) * c;
    Regroup(q, d * e, c);
    assert d * e == e * d;
    Regroup(q, e, d);
  }

  /** A part of a part is a part. */
  lemma PartOfPart(x: nat, a: nat, b: nat, c: nat, d: nat)
    requires c + d <= b
    ensures Part(Part(x, a, b), c, d) == Part(x, a + c, d)
  {
    hide Pow2;
    var e := b - c - d;
    PowAdd(a, c);
    PowAdd(c, d + e);
    PowAdd(d, e);
    PartOfPartBy(x, Pow2(a), Pow2(b), Pow2(c), Pow2(d), Pow2(e));
  }

  lemma PartOfPartBy(x: nat, a: nat, b: nat, c: nat, d: nat, e: nat)
    requires a > 0 && c > 0 && d > 0 && e > 0 && b == c * (d * e)
    ensures b > 0 && a * c > 0
    ensures x / a % b / c % d == x / (a * c) % d
  {
    DivDiv(x, a, c);
    DivOfMod(x / a, c, d, e);
  }

  lemma HighBit(y: nat, k: nat, j: nat)
    requires j > k
    ensures Bit(y, j) == Bit(y / Pow2(k) / 2, j - k - 1)
  {
    hide Pow2;
    var m := j - k - 1;
    TwoIs();
    PowAdd(1, m);
    PowAdd(k, 1 + m);
    DivDiv(y, Pow2(k), 2 * Pow2(m));
    DivDiv(y / Pow2(k), 2, Pow2(m));
  }

  lemma TwoIs()
    ensures Pow2(0) == 1 && Pow2(1) == 2
  {
    assert Pow2(1) == 2 * Pow2(0);
  }

  lemma LowBit(y: nat, k: nat, j: nat)
    requires j < k
    ensures Bit(y, j) == Bit(y % Pow2(k), j)
  {
    hide Pow2;
    TwoIs();
    PartOfPart(y, 0, k, j, 1);
  }

  lemma BitIs(y: nat, k: nat)
    ensures Bit(y, k) == (y / Pow2(k) % 2 == 1)
    ensures !Bit(y, k) == (y / Pow2(k) % 2 == 0)
  {
    TwoIs();
  }

  /** Adding the k-th power of two sets bit k, if it was clear, and changes no other bit. */
  lemma SetBit(x: nat, k: nat, j: nat)
    requires !Bit(x, k)
    ensures Bit(x + Pow2(k), j) == (j == k || Bit(x, j))
  {
    hide Pow2, Bit;
    BitIs(x, k);
    BitIs(x + Pow2(k), k);
    var p, q := Pow2(k), x / Pow2(k);
    Distribute(q, 1, p);
    DivUnique(x + p, p, q + 1, x % p);
    if j > k {
      HighBit(x, k, j);
      HighBit(x + p, k, j);
      assert (q + 1) / 2 == q / 2;
    } else if j < k {
      LowBit(x, k, j);
      LowBit(x + p, k, j);
    }
  }

  lemma SetBitFits(x: nat, k: nat, n: nat)
    requires !Bit(x, k) && k < n && x < Pow2(n)
    ensures x + Pow2(k) < Pow2(n)
  {
    BitIs(x, k);
    PowSplits(k, n);
    FitsIn(x, Pow2(k), Pow2(n), Pow2(n - k - 1));
  }

  lemma PowSplits(k: nat, n: nat)
    requires k < n
    ensures Pow2(n) == Pow2(k) * (2 * Pow2(n - k - 1))
  {
    hide Pow2;
    TwoIs();
    PowAdd(1, n - k - 1);
    PowAdd(k, 1 + (n - k - 1));
  }

  lemma FitsIn(x: nat, p: nat, w: nat, m: nat)
    requires p > 0 && x / p % 2 == 0 && w == p * (2 * m) && x < w
    ensures x + p < w
  {
    FitsBelow(p, x / p, x % p, m);
  }

  lemma FitsBelow(p: nat, q: nat, r: nat, m: nat)
    requires r < p && q % 2 == 0 && q * p + r < p * (2 * m)
    ensures q * p + r + p < p * (2 * m)
  {
    assert p * (2 * m) == (2 * m) * p;
    Ordered(2 * m, q, p);
    Ordered(q + 1, 2 * m, p);
    Distribute(q, 1, p);
  }

  lemma ClearBit(x: nat, k: nat)
    requires Bit(x, k)
    ensures x >= Pow2(k) && !Bit(x - Pow2(k), k)
  {
    hide Pow2, Bit;
    BitIs(x, k);
    var p, q := Pow2(k), x / Pow2(k);
    Ordered(0, q, p);
    Distribute(q - 1, 1, p);
    DivUnique(x - p, p, q - 1, x % p);
    BitIs(x - p, k);
  }

  // ---------- the set of bits in a sequence of words ----------

  const BITS: nat := 64

  ghost function Bits(words: seq<nat>): set<nat> {
    set p | 0 <= p < BITS * |words| && Bit(words[p / BITS], p % BITS)
  }

  lemma BitsAt(words: seq<nat>, i: nat, k: nat)
    requires i < |words| && k < BITS
    ensures BITS * i + k in Bits(words) <==> Bit(words[i], k)
  {
    hide Bit;
    assert (BITS * i + k) / BITS == i && (BITS * i + k) % BITS == k;
  }

  lemma BitsOfZeros(words: seq<nat>)
    requires forall i | 0 <= i < |words| :: words[i] == 0
    ensures Bits(words) == {}
  {
    hide Pow2;
  }

  lemma BitsSet(words: seq<nat>, i: nat, k: nat)
    requires i < |words| && k < BITS && !Bit(words[i], k)
    ensures Bits(words[i := words[i] + Pow2(k)]) == Bits(words) + {BITS * i + k}
    ensures BITS * i + k !in Bits(words)
  {
    hide Bit, Pow2;
    BitsAt(words, i, k);
    var words' := words[i := words[i] + Pow2(k)];
    forall p ensures p in Bits(words') <==> p in Bits(words) || p == BITS * i + k {
      SetBit(words[i], k, p % BITS);
    }
  }

  // ---------- what the search should find ----------

  /** r is the least bit after last, or -1 if there is none. */
  ghost predicate IsNext(bits: set<nat>, last: int, r: int) {
    if forall p | p in bits :: p <= last then r == -1
    else r in bits && r > last && forall p | p in bits && p > last :: r <= p
  }

  /** No bit after last comes before position end. */
  ghost predicate NoneBefore(bits: set<nat>, last: int, end: nat) {
    forall p | p in bits && p > last :: p >= end
  }

  ghost function After(bits: set<nat>, last: int): set<nat> {
    set p | p in bits && p > last
  }

  ghost function Least(bits: set<nat>): (r: nat)
    requires bits != {}
    ensures r in bits && forall p | p in bits :: r <= p
    decreases bits
  {
    var x :| x in bits;
    if bits == {x} then x else
    var y := Least(bits - {x});
    assert forall p | p in bits :: p == x || p in bits - {x};
    Min(x, y)
  }

  lemma LeastLeft(bits: set<nat>, last: int)
    requires After(bits, last) != {}
    ensures var x := Least(After(bits, last));
      x > last && After(bits, x) == After(bits, last) - {x} && IsNext(bits, last, x)
  {
    var x := Least(After(bits, last));
    assert x in bits && x > last;
    assert forall p | p in bits && p > last :: p in After(bits, last);
  }

  /** The bits after last, least first. */
  ghost function Listing(bits: set<nat>, last: int): seq<nat>
    decreases After(bits, last)
  {
    if After(bits, last) == {} then [] else
    var x := Least(After(bits, last));
    LeastLeft(bits, last);
    [x] + Listing(bits, x)
  }

  lemma {:induction false} ListingIs(bits: set<nat>, last: int)
    ensures var s := Listing(bits, last);
      && |s| == |After(bits, last)|
      && (forall p :: p in s <==> p in After(bits, last))
      && (forall i, j | 0 <= i < j < |s| :: s[i] < s[j])
    decreases After(bits, last)
  {
    if After(bits, last) != {} {
      var x := Least(After(bits, last));
      LeastLeft(bits, last);
      ListingIs(bits, x);
      ListingStep(After(bits, last), x, Listing(bits, x));
    }
  }

  lemma ListingStep(after: set<nat>, x: nat, rest: seq<nat>)
    requires x in after && |rest| == |after - {x}|
    requires (forall p :: p in rest <==> p in after - {x}) && (forall p | p in rest :: x < p)
    requires forall i, j | 0 <= i < j < |rest| :: rest[i] < rest[j]
    ensures var s := [x] + rest;
      && |s| == |after| && (forall p :: p in s <==> p in after) && (forall i, j | 0 <= i < j < |s| :: s[i] < s[j])
  {
    var s := [x] + rest;
    forall p ensures p in s <==> p in after {
      assert p in s <==> p == x || p in rest;
    }
    forall i, j | 0 <= i < j < |s| ensures s[i] < s[j] {
      assert s[j] in rest;
    }
  }

  /** Where the search goes on after k results of a round, and after the last one. */
  lemma {:induction false} ListingNext(bits: set<nat>, last: int, k: nat)
    requires k <= |Listing(bits, last)|
    ensures var s := Listing(bits, last);
      IsNext(bits, if k == 0 then last else s[k - 1], if k < |s| then s[k] else -1)
    decreases k
  {
    if After(bits, last) == {} {
      assert forall p | p in bits :: p <= last by {
        assert forall p | p in bits && p > last :: p in After(bits, last);
      }
    } else {
      LeastLeft(bits, last);
      if k > 0 {
        ListingNext(bits, Least(After(bits, last)), k - 1);
      }
    }
  }

  lemma NextIsUnique(bits: set<nat>, last: int, r: int, r': int)
    requires IsNext(bits, last, r) && IsNext(bits, last, r')
    ensures r == r'
  {
  }

  lemma AfterAll(bits: set<nat>)
    ensures After(bits, -1) == bits
  {
  }

  /** The result of the n-th search after a reset: every bit once, least first, then -1, then all over again. */
  ghost function Nth(bits: set<nat>, n: nat): int {
    ListingIs(bits, -1);
    AfterAll(bits);
    var k := Turn(n, |bits| + 1);
    if k < |bits| then Listing(bits, -1)[k] else -1
  }

  /** Where the n-th of a cycle of turns stands. */
  function Turn(n: nat, size: nat): (k: nat)
    requires size > 0
    ensures k < size
    ensures n == 0 ==> k == 0
  {
    n % size
  }

  lemma ModBack(n: nat, size: nat)
    requires n > 0 && size > 0
    ensures Turn(n - 1, size) == if Turn(n, size) == 0 then size - 1 else Turn(n, size) - 1
  {
    var q := n / size;
    if n % size == 0 {
      Distribute(q - 1, 1, size);
      DivUnique(n - 1, size, q - 1, size - 1);
    } else {
      DivUnique(n - 1, size, q, n % size - 1);
    }
  }

  lemma NthFollows(bits: set<nat>, n: nat)
    ensures IsNext(bits, if n == 0 then -1 else Nth(bits, n - 1), Nth(bits, n))
  {
    hide Listing, IsNext, After, Turn;
    ListingIs(bits, -1);
    AfterAll(bits);
    var size := |bits| + 1;
    ListingNext(bits, -1, Turn(n, size));
    if n > 0 {
      ModBack(n, size);
    }
  }

  // ---------- the search inside a word ----------

  lemma ZeroPart(x: nat, a: nat, b: nat, c: nat)
    requires Part(x, a, b) == 0 && c < b
    ensures !Bit(x, a + c)
  {
    hide Pow2;
    PartOfPart(x, a, b, c, 1);
    TwoIs();
    ZeroDiv(Pow2(c));
  }

  lemma ZeroDiv(d: nat)
    requires d > 0
    ensures 0 / d == 0
  {
  }

  lemma PartOfZero(a: nat, b: nat)
    ensures Part(0, a, b) == 0
  {
    ZeroDiv(Pow2(a));
  }

  class BitVector {
    const capacity: nat
    const words: array<nat>
    var size: nat
    var lastPos: int

    ghost function Contents(): set<nat>
      reads words
    {
      Bits(words[..])
    }

    ghost predicate Valid()
      reads this, words
    {
      && words.Length == (capacity + 63) / BITS
      && (forall i | 0 <= i < words.Length :: words[i] < Pow2(BITS))
      && (forall p | p in Contents() :: p < capacity)
      && size == |Contents()|
      && -1 <= lastPos < capacity
    }

    /** Positions are 32-bit signed integers. */
    constructor (bits: nat)
      requires bits < 0x8000_0000
      ensures Valid() && fresh(words) && capacity == bits && Contents() == {} && lastPos == -1
    {
      capacity, size, lastPos := bits, 0, -1;
      words := new nat[(bits + 63) / BITS](_ => 0);
      new;
      BitsOfZeros(words[..]);
    }

    method Reset()
      requires Valid()
      modifies words, `size, `lastPos
      ensures Valid() && Contents() == {} && lastPos == -1
    {
      for i := 0 to words.Length
        invariant forall j | 0 <= j < i :: words[j] == 0
      {
        words[i] := 0;
      }
      BitsOfZeros(words[..]);
      size, lastPos := 0, -1;
    }

    method ResetFind()
      requires Valid()
      modifies `lastPos
      ensures Valid() && lastPos == -1
    {
      lastPos := -1;
    }

    method At(bit: nat) returns (r: bool)
      requires Valid() && bit < capacity
      ensures r == (bit in Contents())
    {
      hide Bit;
      BitsAt(words[..], bit / BITS, bit % BITS);
      r := Bit(words[bit / BITS], bit % BITS);
    }

    method Set(bit: nat)
      requires Valid() && bit < capacity
      modifies words, `size
      ensures Valid() && Contents() == old(Contents()) + {bit}
    {
      hide Bit, Pow2, Bits;
      var index, shift := bit / BITS, bit % BITS;
      BitsAt(words[..], index, shift);
      var there := At(bit);
      if !there {
        BitsSet(words[..], index, shift);
        SetBitFits(words[index], shift, BITS);
        ghost var before := words[..];
        words[index] := words[index] + Pow2(shift);
        assert words[..] == before[index := before[index] + Pow2(shift)];
        size := size + 1;
      }
    }

    method Clear(bit: nat)
      requires Valid() && bit < capacity
      modifies words, `size
      ensures Valid() && Contents() == old(Contents()) - {bit}
    {
      hide Bit, Pow2, Bits;
      var index, shift := bit / BITS, bit % BITS;
      BitsAt(words[..], index, shift);
      var there := At(bit);
      if there {
        ClearBit(words[index], shift);
        ghost var before := words[..];
        words[index] := words[index] - Pow2(shift);
        BitsSet(words[..], index, shift);
        assert before == words[..][index := words[index] + Pow2(shift)];
        assert Contents() == old(Contents()) - {bit};
        size := size - 1;
      }
    }

    /** Tests the bits of one byte of a word. */
    method FindInByte(windex: nat, a: nat, byte: nat) returns (r: int)
      requires Valid() && windex < words.Length && a + 8 <= BITS && byte == Part(words[windex], a, 8)
      requires NoneBefore(Contents(), lastPos, BITS * windex + a)
      modifies `lastPos
      ensures Valid() && lastPos == if r == -1 then old(lastPos) else r
      ensures r == -1 ==> NoneBefore(Contents(), lastPos, BITS * windex + a + 8)
      ensures r != -1 ==> IsNext(Contents(), old(lastPos), r)
    {
      hide Bit, Part, Pow2, Bits, IsNext, NoneBefore;
      for l := 0 to 8
        invariant Valid() && lastPos == old(lastPos)
        invariant NoneBefore(Contents(), lastPos, BITS * windex + a + l)
      {
        BitOfPart(words[windex], a, 8, l);
        BitsAt(words[..], windex, a + l);
        var pos: int := BITS * windex + a + l;
        if Bit(byte, l) && pos > lastPos {
          FoundNext(Contents(), lastPos, pos);
          lastPos := pos;
          return pos;
        }
        NoneHere(Contents(), lastPos, pos);
      }
      r := -1;
    }

    /** Tests the bytes of a quarter of a word that are not zero. */
    method FindInQuarter(windex: nat, a: nat, word16: nat) returns (r: int)
      requires Valid() && windex < words.Length && a + 16 <= BITS && word16 == Part(words[windex], a, 16)
      requires NoneBefore(Contents(), lastPos, BITS * windex + a)
      modifies `lastPos
      ensures Valid() && lastPos == if r == -1 then old(lastPos) else r
      ensures r == -1 ==> NoneBefore(Contents(), lastPos, BITS * windex + a + 16)
      ensures r != -1 ==> IsNext(Contents(), old(lastPos), r)
    {
      Powers();
      hide Bit, Part, Pow2, Bits, IsNext, NoneBefore, Valid;
      Halves(words[windex], a, 8);
      var words8 := [word16 % 0x100, word16 / 0x100];
      for i := 0 to 2
        invariant Valid() && lastPos == old(lastPos)
        invariant NoneBefore(Contents(), lastPos, BITS * windex + a + 8 * i)
      {
        if words8[i] != 0 {
          r := FindInByte(windex, a + 8 * i, words8[i]);
          if r != -1 {
            return;
          }
        } else {
          NoneInZero(words[..], lastPos, windex, a + 8 * i, 8);
        }
      }
      r := -1;
    }

    /** Tests the quarters of half a word that are not zero. */
    method FindInHalf(windex: nat, a: nat, word32: nat) returns (r: int)
      requires Valid() && windex < words.Length && a + 32 <= BITS && word32 == Part(words[windex], a, 32)
      requires NoneBefore(Contents(), lastPos, BITS * windex + a)
      modifies `lastPos
      ensures Valid() && lastPos == if r == -1 then old(lastPos) else r
      ensures r == -1 ==> NoneBefore(Contents(), lastPos, BITS * windex + a + 32)
      ensures r != -1 ==> IsNext(Contents(), old(lastPos), r)
    {
      Powers();
      hide Bit, Part, Pow2, Bits, IsNext, NoneBefore, Valid;
      Halves(words[windex], a, 16);
      var words16 := [word32 % 0x1_0000, word32 / 0x1_0000];
      for i := 0 to 2
        invariant Valid() && lastPos == old(lastPos)
        invariant NoneBefore(Contents(), lastPos, BITS * windex + a + 16 * i)
      {
        if words16[i] != 0 {
          r := FindInQuarter(windex, a + 16 * i, words16[i]);
          if r != -1 {
            return;
          }
        } else {
          NoneInZero(words[..], lastPos, windex, a + 16 * i, 16);
        }
      }
      r := -1;
    }

    /** Tests the halves of a word that are not zero. */
    method FindInWord(windex: nat) returns (r: int)
      requires Valid() && windex < words.Length
      requires NoneBefore(Contents(), lastPos, BITS * windex)
      modifies `lastPos
      ensures Valid() && lastPos == if r == -1 then old(lastPos) else r
      ensures r == -1 ==> NoneBefore(Contents(), lastPos, BITS * windex + 64)
      ensures r != -1 ==> IsNext(Contents(), old(lastPos), r)
    {
      WholeWord(words[windex]);
      Powers();
      hide Bit, Part, Pow2, Bits, IsNext, NoneBefore, Valid;
      var word := words[windex];
      Halves(words[windex], 0, 32);
      var words32 := [word % 0x1_0000_0000, word / 0x1_0000_0000];
      for i := 0 to 2
        invariant Valid() && lastPos == old(lastPos)
        invariant NoneBefore(Contents(), lastPos, BITS * windex + 32 * i)
      {
        if words32[i] != 0 {
          r := FindInHalf(windex, 32 * i, words32[i]);
          if r != -1 {
            return;
          }
        } else {
          NoneInZero(words[..], lastPos, windex, 32 * i, 32);
        }
      }
      r := -1;
    }

    /** The next bit after the one found last, word by word. */
    method Find() returns (r: int)
      requires Valid()
      modifies `lastPos
      ensures Valid() && lastPos == r && IsNext(Contents(), old(lastPos), r)
    {
      hide Bit, Part, Pow2, Bits, IsNext;
      var windex := if lastPos == -1 then 0 else lastPos / BITS;
      assert NoneBefore(Contents(), lastPos, BITS * windex);
      while windex < words.Length
        invariant 0 <= windex <= words.Length && lastPos == old(lastPos)
        invariant NoneBefore(Contents(), lastPos, BITS * windex)
      {
        if words[windex] != 0 {
          r := FindInWord(windex);
          if r != -1 {
            return;
          }
        } else {
          PartOfZero(0, BITS);
          NoneInZero(words[..], lastPos, windex, 0, BITS);
        }
        windex := windex + 1;
      }
      NoneLeft(words[..], lastPos);
      lastPos := -1;
      r := -1;
    }

    /** Starts over and searches n times: every bit comes once, least first, then -1, then all over again. */
    method FindTimes(n: nat) returns (found: seq<int>)
      requires Valid()
      modifies `lastPos
      ensures Valid() && |found| == n && forall k | 0 <= k < n :: found[k] == Nth(Contents(), k)
    {
      hide Bits, IsNext, Nth;
      ResetFind();
      found := [];
      for k := 0 to n
        invariant Valid() && |found| == k && lastPos == if k == 0 then -1 else Nth(Contents(), k - 1)
        invariant forall i | 0 <= i < k :: found[i] == Nth(Contents(), i)
      {
        NthFollows(Contents(), k);
        ghost var last := lastPos;
        var r := Find();
        NextIsUnique(Contents(), last, r, Nth(Contents(), k));
        found := found + [r];
      }
    }
  }

  /** The results of a round of searches. */
  ghost function Round(bits: set<nat>, round: nat): (s: seq<int>)
    ensures |s| == |bits| + 1
  {
    seq(|bits| + 1, k requires 0 <= k < |bits| + 1 => Nth(bits, round * (|bits| + 1) + k))
  }

  lemma TurnOf(round: nat, size: nat, k: nat)
    requires k < size
    ensures Turn(round * size + k, size) == k
  {
    DivUnique(round * size + k, size, round, k);
  }

  /** In every round each bit comes up once, in increasing order, and then comes -1. */
  lemma RoundListsBits(bits: set<nat>, round: nat)
    ensures var s := Round(bits, round);
      && s[|bits|] == -1
      && (forall k | 0 <= k < |bits| :: s[k] in bits)
      && (forall i, j | 0 <= i < j < |bits| :: s[i] < s[j])
      && (forall p | p in bits :: (p as int) in s)
  {
    hide Listing, Turn, After;
    ListingIs(bits, -1);
    AfterAll(bits);
    var s, listing := Round(bits, round), Listing(bits, -1);
    forall k | 0 <= k <= |bits| ensures s[k] == if k < |bits| then listing[k] else -1 {
      TurnOf(round, |bits| + 1, k);
    }
    forall p | p in bits ensures (p as int) in s {
      var k :| 0 <= k < |listing| && listing[k] == p;
      assert s[k] == p;
    }
  }

  lemma BitOfPart(x: nat, a: nat, b: nat, l: nat)
    requires l < b
    ensures Bit(Part(x, a, b), l) == Bit(x, a + l)
  {
    hide Pow2;
    PartOfPart(x, a, b, l, 1);
  }

  lemma FoundNext(bits: set<nat>, last: int, pos: nat)
    requires NoneBefore(bits, last, pos) && pos in bits && pos > last
    ensures IsNext(bits, last, pos)
  {
  }

  lemma NoneHere(bits: set<nat>, last: int, pos: nat)
    requires NoneBefore(bits, last, pos) && (pos in bits ==> pos <= last)
    ensures NoneBefore(bits, last, pos + 1)
  {
  }

  lemma NoneLeft(words: seq<nat>, last: int)
    requires NoneBefore(Bits(words), last, BITS * |words|)
    ensures IsNext(Bits(words), last, -1)
  {
    hide Bit;
    assert forall p | p in Bits(words) :: p <= last;
  }

  lemma NoneInZero(words: seq<nat>, last: int, i: nat, a: nat, b: nat)
    requires i < |words| && a + b <= BITS && Part(words[i], a, b) == 0
    requires NoneBefore(Bits(words), last, BITS * i + a)
    ensures NoneBefore(Bits(words), last, BITS * i + a + b)
  {
    hide Bit, Part, Pow2, Bits;
    forall p | p in Bits(words) && p > last ensures p >= BITS * i + a + b {
      if p < BITS * i + a + b {
        ZeroPart(words[i], a, b, p - BITS * i - a);
        BitsAt(words, i, p - BITS * i);
      }
    }
  }

  /** Splitting a part of twice the width into its low and its high half. */
  lemma Halves(x: nat, a: nat, b: nat)
    ensures Part(x, a, 2 * b) % Pow2(b) == Part(x, a, b)
    ensures Part(x, a, 2 * b) / Pow2(b) == Part(x, a + b, b)
  {
    hide Pow2;
    TwoIs();
    PartOfPart(x, a, 2 * b, 0, b);
    PartOfPart(x, a, 2 * b, b, b);
    PowAdd(b, b);
    QuotientFits(Part(x, a, 2 * b), Pow2(b));
  }

  lemma QuotientFits(x: nat, d: nat)
    requires d > 0 && x < d * d
    ensures x / d < d && x / d % d == x / d
  {
    Ordered(d - 1, x / d, d);
    Distribute(d - 1, 1, d);
    DivUnique(x / d, d, 0, x / d);
  }

  lemma WholeWord(x: nat)
    requires x < Pow2(BITS)
    ensures Part(x, 0, BITS) == x
  {
    hide Pow2;
    TwoIs();
    DivUnique(x, Pow2(BITS), 0, x);
  }

  lemma Powers()
    ensures Pow2(8) == 0x100 && Pow2(16) == 0x1_0000 && Pow2(32) == 0x1_0000_0000
  {
    assert Pow2(2) == 4 && Pow2(4) == 16 by {
      assert Pow2(1) == 2 && Pow2(3) == 8;
    }
    PowAdd(4, 4);
    PowAdd(8, 8);
    PowAdd(16, 16);
  }
}
