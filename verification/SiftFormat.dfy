/** The records of the Sniper instruction trace format and their bytes. */
module SiftFormat {
  import opened Helpers

  // ---------- little-endian numbers ----------

  ghost function Limit(n: nat): nat {
    if n == 0 then 1 else 256 * Limit(n - 1)
  }

  function Bytes(n: nat, v: nat): (s: seq<Byte>)
    ensures |s| == n
  {
    if n == 0 then [] else [v % 256] + Bytes(n - 1, v / 256)
  }

  function Value(s: seq<Byte>): nat {
    if s == [] then 0 else s[0] + 256 * Value(s[1..])
  }

  lemma {:induction false} ValueOfBytes(n: nat, v: nat)
    requires v < Limit(n)
    ensures Value(Bytes(n, v)) == v
  {
    if n > 0 {
      ValueOfBytes(n - 1, v / 256);
      assert Bytes(n, v)[1..] == Bytes(n - 1, v / 256);
    }
  }

  const WORD: nat := 0x1_0000_0000_0000_0000

  lemma Limits()
    ensures Limit(1) == 0x100 && Limit(2) == 0x1_0000 && Limit(4) == 0x1_0000_0000 && Limit(8) == WORD
  {
    assert Limit(1) == 256 * Limit(0);
    assert Limit(2) == 256 * Limit(1);
    assert Limit(3) == 256 * Limit(2);
    assert Limit(4) == 256 * Limit(3);
    assert Limit(5) == 256 * Limit(4);
    assert Limit(6) == 256 * Limit(5);
    assert Limit(7) == 256 * Limit(6);
    assert Limit(8) == 256 * Limit(7);
  }

  // ---------- the data addresses of an instruction ----------

  function Words(vs: seq<nat>): (s: seq<Byte>)
    ensures |s| == 8 * |vs|
  {
    if vs == [] then [] else Bytes(8, vs[0]) + Words(vs[1..])
  }

  function WordsOf(s: seq<Byte>, n: nat): (vs: seq<nat>)
    requires |s| >= 8 * n
    ensures |vs| == n
  {
    if n == 0 then [] else [Value(s[..8])] + WordsOf(s[8..], n - 1)
  }

  predicate AllWords(vs: seq<nat>) {
    forall i | 0 <= i < |vs| :: vs[i] < WORD
  }

  lemma FirstWord(vs: seq<nat>, rest: seq<Byte>)
    requires vs != []
    ensures var s := Words(vs) + rest; s[..8] == Bytes(8, vs[0]) && s[8..] == Words(vs[1..]) + rest
  {
    hide Bytes;
  }

  lemma {:induction false} WordsBack(vs: seq<nat>, rest: seq<Byte>)
    requires AllWords(vs)
    ensures WordsOf(Words(vs) + rest, |vs|) == vs
  {
    if vs != [] {
      assert vs[0] < WORD && AllWords(vs[1..]);
      FirstWord(vs, rest);
      Limits();
      hide Bytes, Value, Limit, AllWords, Words;
      ValueOfBytes(8, vs[0]);
      WordsBack(vs[1..], rest);
      assert [vs[0]] + vs[1..] == vs;
    }
  }

  // ---------- records ----------

  datatype Record =
    | Simple(size: nat, branch: bool, taken: bool, addresses: seq<nat>)
    | Extended(size: nat, branch: bool, taken: bool, isPredicate: bool, executed: bool, addr: nat, addresses: seq<nat>)
    | Other(kind: Byte, payload: seq<Byte>)

  predicate RecordOk(r: Record) {
    match r
    case Simple(size, _, _, addresses) =>
      0 < size < 16 && |addresses| < 4 && AllWords(addresses)
    case Extended(size, _, _, _, _, addr, addresses) =>
      0 < size < 16 && |addresses| < 4 && addr < WORD && AllWords(addresses)
    case Other(_, payload) =>
      |payload| < 0x1_0000_0000
  }

  function Bit(b: bool): nat {
    if b then 1 else 0
  }

  function Flag(b: Byte, weight: nat): bool
    requires weight > 0
  {
    b / weight % 2 == 1
  }

  function Low(b: Byte): nat {
    b % 16
  }

  function High(b: Byte): nat {
    b / 16
  }

  /** The only byte of a simple record's header: bit fields are packed from the least significant bit up. */
  function SimpleByte(size: nat, n: nat, branch: bool, taken: bool): Byte
    requires 0 < size < 16 && n < 4
  {
    size + 16 * n + 64 * Bit(branch) + 128 * Bit(taken)
  }

  /** The second byte of an extended record's header. */
  function FlagsByte(n: nat, branch: bool, taken: bool, isPredicate: bool, executed: bool): Byte
    requires n < 4
  {
    n + 4 * Bit(branch) + 8 * Bit(taken) + 16 * Bit(isPredicate) + 32 * Bit(executed)
  }

  lemma SimpleBits(size: nat, n: nat, branch: bool, taken: bool)
    requires 0 < size < 16 && n < 4
    ensures var b := SimpleByte(size, n, branch, taken);
      b != 0 && Low(b) == size && High(b) % 4 == n && Flag(b, 64) == branch && Flag(b, 128) == taken
  {
  }

  lemma FlagsBits(n: nat, branch: bool, taken: bool, isPredicate: bool, executed: bool)
    requires n < 4
    ensures var b := FlagsByte(n, branch, taken, isPredicate, executed);
      && b % 4 == n && Flag(b, 4) == branch && Flag(b, 8) == taken
      && Flag(b, 16) == isPredicate && Flag(b, 32) == executed
  {
  }

  lemma ExtendedBits(size: nat)
    requires 0 < size < 16
    ensures 0 < 16 * size < 256 && Low(16 * size) == 0 && High(16 * size) == size
  {
  }

  function Encode(r: Record): seq<Byte>
    requires RecordOk(r)
  {
    match r
    case Simple(size, branch, taken, addresses) =>
      [SimpleByte(size, |addresses|, branch, taken)] + Words(addresses)
    case Extended(size, branch, taken, isPredicate, executed, addr, addresses) =>
      [16 * size, FlagsByte(|addresses|, branch, taken, isPredicate, executed)] + Bytes(8, addr) + Words(addresses)
    case Other(kind, payload) =>
      [0, kind] + Bytes(4, |payload|) + payload
  }

  datatype Parsed = Truncated | Parsed(record: Record, rest: seq<Byte>)

  function DecodeOther(s: seq<Byte>): Parsed
    requires s != []
  {
    if |s| < 6 then Truncated else
    var size := Value(s[2..6]);
    if |s| < 6 + size then Truncated else Parsed(Other(s[1], s[6..6 + size]), s[6 + size..])
  }

  function DecodeSimple(s: seq<Byte>): Parsed
    requires s != []
  {
    var n := High(s[0]) % 4;
    if |s| < 1 + 8 * n then Truncated else
    Parsed(Simple(Low(s[0]), Flag(s[0], 64), Flag(s[0], 128), WordsOf(s[1..], n)), s[1 + 8 * n..])
  }

  function DecodeExtended(s: seq<Byte>): Parsed
    requires s != []
  {
    if |s| < 10 then Truncated else
    var n := s[1] % 4;
    if |s| < 10 + 8 * n then Truncated else
    Parsed(Extended(High(s[0]), Flag(s[1], 4), Flag(s[1], 8), Flag(s[1], 16), Flag(s[1], 32),
                    Value(s[2..10]), WordsOf(s[10..], n)),
           s[10 + 8 * n..])
  }

  /** What the first bytes of a stream say, and the bytes after them. */
  function Decode(s: seq<Byte>): Parsed {
    if s == [] then Truncated
    else if s[0] == 0 then DecodeOther(s)
    else if Low(s[0]) != 0 then DecodeSimple(s)
    else DecodeExtended(s)
  }

  lemma DecodeEncodeSimple(r: Record, rest: seq<Byte>)
    requires RecordOk(r) && r.Simple?
    ensures Decode(Encode(r) + rest) == Parsed(r, rest)
  {
    hide Bytes, Words, WordsOf, Value, Low, High, Flag, SimpleByte, DecodeOther, DecodeExtended;
    var s, n := Encode(r) + rest, |r.addresses|;
    SimpleBits(r.size, n, r.branch, r.taken);
    WordsBack(r.addresses, rest);
    assert s[0] == SimpleByte(r.size, n, r.branch, r.taken);
    assert s[1..] == Words(r.addresses) + rest;
    assert s[1 + 8 * n..] == rest;
  }

  lemma DecodeEncodeExtended(r: Record, rest: seq<Byte>)
    requires RecordOk(r) && r.Extended?
    ensures Decode(Encode(r) + rest) == Parsed(r, rest)
  {
    hide Bytes, Words, WordsOf, Value, Limit, Low, High, Flag, FlagsByte, DecodeOther, DecodeSimple;
    var s, n := Encode(r) + rest, |r.addresses|;
    ExtendedBits(r.size);
    FlagsBits(n, r.branch, r.taken, r.isPredicate, r.executed);
    WordsBack(r.addresses, rest);
    Limits();
    ValueOfBytes(8, r.addr);
    assert s[0] == 16 * r.size;
    assert s[1] == FlagsByte(n, r.branch, r.taken, r.isPredicate, r.executed);
    assert s[2..10] == Bytes(8, r.addr);
    assert s[10..] == Words(r.addresses) + rest;
    assert s[10 + 8 * n..] == rest;
  }

  lemma DecodeEncodeOther(r: Record, rest: seq<Byte>)
    requires RecordOk(r) && r.Other?
    ensures Decode(Encode(r) + rest) == Parsed(r, rest)
  {
    hide Bytes, Value, Limit, DecodeSimple, DecodeExtended;
    var s, n := Encode(r) + rest, |r.payload|;
    Limits();
    ValueOfBytes(4, n);
    assert s[2..6] == Bytes(4, n);
    assert s[6..6 + n] == r.payload;
    assert s[6 + n..] == rest;
  }

  /** A record is read back whole, whatever follows it. */
  lemma DecodeEncode(r: Record, rest: seq<Byte>)
    requires RecordOk(r)
    ensures Decode(Encode(r) + rest) == Parsed(r, rest)
  {
    hide Decode, Encode;
    match r
    case Simple(_, _, _, _) => DecodeEncodeSimple(r, rest);
    case Extended(_, _, _, _, _, _, _) => DecodeEncodeExtended(r, rest);
    case Other(_, _) => DecodeEncodeOther(r, rest);
  }

  lemma DecodeShrinks(s: seq<Byte>)
    ensures Decode(s).Parsed? ==> |Decode(s).rest| < |s|
  {
  }

  // ---------- where the bits are ----------

  lemma LimitPositive(n: nat)
    ensures Limit(n) > 0
  {
  }

  /** Numbers are written from the least significant byte up: byte k counts for 256 to the power of k. */
  lemma {:induction false} LittleEndian(n: nat, v: nat, k: nat)
    requires k < n
    ensures Limit(k) > 0 && Bytes(n, v)[k] == v / Limit(k) % 256
    decreases k
  {
    LimitPositive(k);
    if k > 0 {
      LittleEndian(n - 1, v / 256, k - 1);
      assert Limit(k) == 256 * Limit(k - 1);
      DivideTwice(v, Limit(k - 1));
      assert Bytes(n, v)[k] == Bytes(n - 1, v / 256)[k - 1];
    }
  }

  lemma DivideTwice(v: nat, l: nat)
    requires l > 0
    ensures v / (256 * l) == v / 256 / l
  {
    var a := v / 256;
    var q, r := a / l, v - 256 * a;
    assert a == l * q + a % l;
    var rest := 256 * (a % l) + r;
    assert v == 256 * (l * q) + rest && rest < 256 * l;
    QuotientIs(v, 256 * l, q, rest);
  }

  lemma QuotientIs(v: nat, d: nat, q: nat, r: nat)
    requires r < d && v == d * q + r
    ensures v / d == q
  {
    var p := v / d;
    assert v == d * p + v % d;
    Multiples(d, p, q);
    Multiples(d, q, p);
  }

  lemma AddMultiples(d: nat, a: nat, b: nat)
    ensures d * (a + b) == d * a + d * b && d * b >= 0 && d * (a + 1) == d * a + d
  {
  }

  lemma Multiples(d: nat, p: nat, q: nat)
    ensures p < q ==> d * p + d <= d * q
  {
    if p < q {
      AddMultiples(d, p, 1);
      AddMultiples(d, p + 1, q - p - 1);
    }
  }

  /** The layout of the three kinds of record, bit by bit. */
  lemma Layout(r: Record)
    requires RecordOk(r)
    ensures var s := Encode(r);
      match r
      case Simple(size, branch, taken, addresses) =>
        && s[0] % 16 == size && s[0] / 16 % 4 == |addresses|
        && (s[0] / 64 % 2 == 1 <==> branch) && (s[0] / 128 == 1 <==> taken) && s[1..] == Words(addresses)
      case Extended(size, branch, taken, isPredicate, executed, addr, addresses) =>
        && s[0] % 16 == 0 && s[0] / 16 == size && s[1] % 4 == |addresses|
        && (s[1] / 4 % 2 == 1 <==> branch) && (s[1] / 8 % 2 == 1 <==> taken)
        && (s[1] / 16 % 2 == 1 <==> isPredicate) && (s[1] / 32 == 1 <==> executed)
        && s[2..10] == Bytes(8, addr) && s[10..] == Words(addresses)
      case Other(kind, payload) =>
        s[0] == 0 && s[1] == kind && s[2..6] == Bytes(4, |payload|) && s[6..] == payload
  {
    hide Bytes, Words;
    match r
    case Simple(size, branch, taken, addresses) =>
      SimpleBits(size, |addresses|, branch, taken);
    case Extended(size, branch, taken, isPredicate, executed, addr, addresses) =>
      ExtendedBits(size);
      FlagsBits(|addresses|, branch, taken, isPredicate, executed);
    case Other(_, _) =>
  }

  // ---------- streams of records ----------

  predicate AllOk(rs: seq<Record>) {
    forall i | 0 <= i < |rs| :: RecordOk(rs[i])
  }

  function EncodeAll(rs: seq<Record>): seq<Byte>
    requires AllOk(rs)
  {
    if rs == [] then [] else Encode(rs[0]) + EncodeAll(rs[1..])
  }

  lemma {:induction false} EncodeAllConcat(a: seq<Record>, b: seq<Record>)
    requires AllOk(a) && AllOk(b)
    ensures AllOk(a + b) && EncodeAll(a + b) == EncodeAll(a) + EncodeAll(b)
  {
    hide Encode, RecordOk;
    if a == [] {
      assert a + b == b;
    } else {
      EncodeAllConcat(a[1..], b);
      assert (a + b)[1..] == a[1..] + b;
    }
  }
}
