/** Texts the writer would not write: words and marks as they stand, characters given by number, repeated keys; and
    that whatever is read can be written. */
module LocalJsonReading {
  import opened Helpers
  import opened LocalJson
  import opened LocalJsonText

  // ---------- words and marks ----------

  /** How values look, letter by letter. */
  lemma WrittenWords(slash: bool)
    ensures Written(Null, slash) == "null" && Written(Bool(true), slash) == "true"
    ensures Written(Bool(false), slash) == "false"
    ensures Written(List([]), slash) == "[]" && Written(Dict([]), slash) == "{}"
  {
    assert WrittenItems(List([]), 0, slash) == "" && WrittenEntries(Dict([]), 0, slash) == "";
  }

  lemma WrittenList(slash: bool, a: Json, b: Json)
    ensures Written(List([a, b]), slash) == "[" + (Written(a, slash) + "," + Written(b, slash)) + "]"
  {
    hide Written;
    var list := List([a, b]);
    assert list.items[0] == a && list.items[1] == b;
    var x, y := Written(a, slash), Written(b, slash);
    ItemsEnd(list, slash);
    assert WrittenItems(list, 1, slash) == y + "" + "" == y;
    assert WrittenItems(list, 0, slash) == x + "," + y;
    ListText(list, slash, x + "," + y);
  }

  lemma ItemsEnd(v: Json, slash: bool)
    requires v.List?
    ensures WrittenItems(v, |v.items|, slash) == ""
  {
  }

  lemma ListText(v: Json, slash: bool, inner: string)
    requires v.List? && WrittenItems(v, 0, slash) == inner
    ensures Written(v, slash) == "[" + inner + "]"
  {
  }

  lemma WrittenDict(slash: bool, a: Json, b: Json, c: Json, d: Json)
    ensures var first := Written(a, slash) + ":" + Written(b, slash);
      var second := Written(c, slash) + ":" + Written(d, slash);
      Written(Dict([Entry(a, b), Entry(c, d)]), slash) == "{" + (first + "," + second) + "}"
  {
    hide Written;
    var dict := Dict([Entry(a, b), Entry(c, d)]);
    assert dict.entries[0] == Entry(a, b) && dict.entries[1] == Entry(c, d);
    var first := Written(a, slash) + ":" + Written(b, slash);
    var second := Written(c, slash) + ":" + Written(d, slash);
    EntriesEnd(dict, slash);
    assert WrittenEntries(dict, 1, slash) == second + "" + "" == second;
    assert WrittenEntries(dict, 0, slash) == first + "," + second;
    DictText(dict, slash, first + "," + second);
  }

  lemma EntriesEnd(v: Json, slash: bool)
    requires v.Dict?
    ensures WrittenEntries(v, |v.entries|, slash) == ""
  {
  }

  lemma DictText(v: Json, slash: bool, inner: string)
    requires v.Dict? && WrittenEntries(v, 0, slash) == inner
    ensures Written(v, slash) == "{" + inner + "}"
  {
  }

  /** A word is read wherever it stands, and nothing else that begins like it. */
  lemma WordsRead(s: string, i: nat)
    requires i < |s|
    ensures s[i] == 't' ==> Value(s, i) == if At(s, i, "true") then Got(Bool(true), i + 4) else Bad
    ensures s[i] == 'f' ==> Value(s, i) == if At(s, i, "false") then Got(Bool(false), i + 5) else Bad
    ensures s[i] == 'n' ==> Value(s, i) == if At(s, i, "null") then Got(Null, i + 4) else Bad
  {
    if s[i] == 't' || s[i] == 'f' || s[i] == 'n' {
      NoSpace(s, i);
    }
  }

  /** Numbers as they stand. */
  lemma WrittenNumbers(slash: bool)
    ensures Written(Int(-120), slash) == "-120" && Written(Float(2.5), slash) == "2.500000"
  {
    DecimalLetters();
    FixedLetters();
    assert Micros(2.5) == 2500000 && 2500000 / MICRO == 2 && 2500000 % MICRO == 500000;
    hide Decimal, Fixed, Micros;
    assert Written(Int(-120), slash) == "-" + Decimal(120);
    assert Written(Float(2.5), slash) == "" + (Decimal(2) + "." + Fixed(500000, 6));
    assert "-" + "120" == "-120" && "" + ("2" + "." + "500000") == "2.500000";
  }

  lemma DecimalLetters()
    ensures Decimal(120) == "120" && Decimal(2) == "2"
  {
    assert Decimal(12) == Decimal(1) + "2" == "12";
    assert Decimal(120) == Decimal(12) + "0";
  }

  lemma FixedLetters()
    ensures Fixed(500000, 6) == "500000"
  {
    assert Fixed(5, 1) == Fixed(0, 0) + "5" == "5";
    assert Fixed(50, 2) == Fixed(5, 1) + "0" == "50";
    assert Fixed(500, 3) == Fixed(50, 2) + "0" == "500";
    assert Fixed(5000, 4) == Fixed(500, 3) + "0" == "5000";
    assert Fixed(50000, 5) == Fixed(5000, 4) + "0" == "50000";
  }

  /** No number with six digits after the point is nearer to a float than the one it is written as, and of two that
      are equally near the one with the even last digit is written. */
  lemma WrittenIsNearest(x: real, m: int)
    ensures var near, other := Distance(x, Rounded(x)), Distance(x, m as real / 1000000.0);
      near <= other && (near == other && m as real / 1000000.0 != Rounded(x) ==> Micros(x) % 2 == 0)
  {
    var y := (if x < 0.0 then -x else x) * 1000000.0;
    var k := if x < 0.0 then -m else m;
    NearestWhole(y, k);
    hide Round;
    assert Distance(x, Rounded(x)) * 1000000.0 == Distance(y, Micros(x) as real) by {
      var near := Micros(x) as real / 1000000.0;
      assert near * 1000000.0 == Micros(x) as real;
      hide Micros;
    }
    assert Distance(x, m as real / 1000000.0) * 1000000.0 == Distance(y, k as real) by {
      hide Micros, Rounded;
    }
  }

  function Distance(x: real, y: real): real {
    if x < y then y - x else x - y
  }

  lemma NearestWhole(y: real, k: int)
    requires y >= 0.0
    ensures Distance(y, Round(y) as real) <= Distance(y, k as real)
    ensures Distance(y, Round(y) as real) == Distance(y, k as real) && k != Round(y) ==> Round(y) % 2 == 0
  {
    var f := y.Floor;
    assert f as real <= y < f as real + 1.0;
    if k <= f {
      assert k as real <= f as real;
    } else {
      assert k as real >= f as real + 1.0;
    }
  }

  /** The characters behind the letters, by their codes. */
  lemma EscapeCodes(s: string, i: nat, slash: bool)
    requires i < |s|
    ensures Escape(8 as char, slash) == "\\b" && Escape(9 as char, slash) == "\\t"
    ensures Escape(10 as char, slash) == "\\n" && Escape(12 as char, slash) == "\\f"
    ensures Escape(13 as char, slash) == "\\r" && Escape(34 as char, slash) == "\\\""
    ensures Escape(92 as char, slash) == "\\\\" && Escape(47 as char, slash) == if slash then "\\/" else "/"
    ensures s[i] == 'b' ==> Escaped(s, i) == Got(8 as char, i + 1)
    ensures s[i] == 't' ==> Escaped(s, i) == Got(9 as char, i + 1)
    ensures s[i] == 'n' ==> Escaped(s, i) == Got(10 as char, i + 1)
    ensures s[i] == 'f' ==> Escaped(s, i) == Got(12 as char, i + 1)
    ensures s[i] == 'r' ==> Escaped(s, i) == Got(13 as char, i + 1)
  {
  }

  /** The text of a float is what its whole part and its fraction stand for, however many digits there are. */
  lemma FractionRead(whole: string, part: string)
    requires AllDigits(whole) && AllDigits(part) && whole != ""
    ensures NumberValue(whole + "." + part)
      == Some(Float(DigitsValue(whole) as real + DigitsValue(part) as real / Power(|part|) as real))
  {
    hide *;
    assert AllDigits(whole + part) && NumberValue(whole + "." + part) == Unsigned(whole + "." + part) by {
      NotNegative(whole, part);
    }
    UnsignedParts(whole, part);
    WholeAndPart(whole, part);
  }

  lemma NotNegative(whole: string, part: string)
    requires AllDigits(whole) && AllDigits(part) && whole != ""
    ensures AllDigits(whole + part) && NumberValue(whole + "." + part) == Unsigned(whole + "." + part)
  {
    hide Unsigned;
    DigitsHaveNoPoint(whole);
    assert (whole + "." + part)[0] == whole[0];
  }

  lemma WholeAndPart(whole: string, part: string)
    requires AllDigits(whole) && AllDigits(part) && AllDigits(whole + part)
    ensures DigitsValue(whole + part) as real / Power(|part|) as real
         == DigitsValue(whole) as real + DigitsValue(part) as real / Power(|part|) as real
  {
    hide *;
    DigitsJoin(whole, part);
    Divided(DigitsValue(whole + part), DigitsValue(whole), DigitsValue(part), Power(|part|));
  }

  lemma Divided(m: nat, w: nat, p: nat, d: nat)
    requires d > 0 && m == w * d + p
    ensures m as real / d as real == w as real + p as real / d as real
  {
    assert m as real == w as real * d as real + p as real;
    assert (w as real * d as real) / d as real == w as real;
  }

  // ---------- white space and comments ----------

  /** White space does not matter in front of a value, nor where the reader skips it between values. */
  lemma BlankSkipped(s: string, i: nat)
    requires i < |s| && s[i] as int in {9, 10, 11, 12, 13, 32}
    ensures Space(s, i) == Space(s, i + 1) && Value(s, i) == Value(s, i + 1)
  {
    ValueAfterSpace(s, i, i + 1);
  }

  lemma ValueAfterSpace(s: string, i: nat, j: nat)
    requires Space(s, i) == Space(s, j)
    ensures Value(s, i) == Value(s, j)
  {
    hide Space, Fields, Elements, Chars, Number, Word;
  }

  lemma {:induction false} LineEndsAt(s: string, i: nat, j: nat)
    requires i <= j < |s| && (s[j] == '\r' || s[j] == '\n')
    requires forall k | i <= k < j :: s[k] != '\r' && s[k] != '\n'
    ensures LineEnd(s, i) == j + 1
    decreases j - i
  {
    if i < j {
      LineEndsAt(s, i + 1, j);
    }
  }

  /** Nor does a comment up to the end of its line. */
  lemma LineSkipped(s: string, i: nat, j: nat)
    requires At(s, i, "//") && i + 2 <= j < |s| && (s[j] == '\r' || s[j] == '\n')
    requires forall k | i + 2 <= k < j :: s[k] != '\r' && s[k] != '\n'
    ensures Space(s, i) == Space(s, j + 1) && Value(s, i) == Value(s, j + 1)
  {
    LineEndsAt(s, i + 2, j);
    CommentStarts(s, i, '/');
    ValueAfterSpace(s, i, j + 1);
  }

  lemma CommentStarts(s: string, i: nat, c: char)
    requires At(s, i, ['/', c])
    ensures i + 1 < |s| && s[i] == '/' && s[i + 1] == c
  {
    assert s[i..i + 2] == ['/', c];
    assert s[i] == s[i..i + 2][0] && s[i + 1] == s[i..i + 2][1];
  }

  /** Position j is the first from i on where a comment ends or another one begins. */
  ghost predicate FirstMark(s: string, i: nat, j: nat) {
    && i <= j && (At(s, j, "*/") || At(s, j, "/*"))
    && forall k: nat | i <= k < j :: !At(s, k, "*/") && !At(s, k, "/*")
  }

  lemma PairAt(s: string, i: nat, a: char, b: char)
    ensures At(s, i, [a, b]) <==> i + 1 < |s| && s[i] == a && s[i + 1] == b
  {
    if i + 2 <= |s| {
      assert s[i..i + 2] == [s[i], s[i + 1]];
    }
  }

  lemma {:induction false} BlockEndsAt(s: string, i: nat, j: nat)
    requires FirstMark(s, i, j)
    ensures BlockEnd(s, i) == if At(s, j, "*/") then Got((), j + 2) else Bad
    decreases j - i
  {
    PairAt(s, i, '*', '/');
    PairAt(s, i, '/', '*');
    hide At;
    assert j < |s| by {
      PairAt(s, j, '*', '/');
      PairAt(s, j, '/', '*');
    }
    if i < j {
      BlockEndsAt(s, i + 1, j);
    }
  }

  /** Nor a comment between marks; but no comment may begin inside it. */
  lemma BlockSkipped(s: string, i: nat, j: nat)
    requires At(s, i, "/*") && FirstMark(s, i + 2, j)
    ensures if At(s, j, "*/") then Space(s, i) == Space(s, j + 2) && Value(s, i) == Value(s, j + 2)
      else Space(s, i) == Bad && Value(s, i) == Bad
  {
    BlockEndsAt(s, i + 2, j);
    CommentStarts(s, i, '*');
    hide FirstMark;
    if At(s, j, "*/") {
      ValueAfterSpace(s, i, j + 2);
    }
  }

  // ---------- characters by number ----------

  function HexDigit(n: nat, upper: bool): (c: char)
    requires n < 16
  {
    if upper then "0123456789ABCDEF"[n] else "0123456789abcdef"[n]
  }

  lemma HexBack(n: nat, upper: bool)
    requires n < 16
    ensures Hex(HexDigit(n, upper)) == n
  {
    var digits := if upper then "0123456789ABCDEF" else "0123456789abcdef";
    assert digits[n] == HexDigit(n, upper);
  }

  /** The k-th hexadecimal digit from the right. */
  function Digit(n: nat, k: nat): (d: nat)
    ensures d < 16
  {
    if k == 0 then n % 16 else Digit(n / 16, k - 1)
  }

  lemma DigitsAddUp(n: nat)
    requires n < 0x1_0000
    ensures n == 4096 * Digit(n, 3) + 256 * Digit(n, 2) + 16 * Digit(n, 1) + Digit(n, 0)
  {
    var a := n / 16;
    var b := a / 16;
    assert Digit(n, 1) == a % 16 && Digit(n, 2) == Digit(a, 1) == b % 16;
    assert Digit(n, 3) == Digit(a, 2) == Digit(b, 1) == b / 16 % 16 == b / 16;
  }

  /** A character given by its number, in hexadecimal digits of either case. */
  function ByNumber(c: char, upper: bool): string {
    var n := c as nat;
    ['\\', 'u', HexDigit(Digit(n, 3), upper), HexDigit(Digit(n, 2), upper), HexDigit(Digit(n, 1), upper),
     HexDigit(Digit(n, 0), upper)]
  }

  lemma NumberRead(s: string, i: nat, c: char, upper: bool)
    requires c < 0x1_0000 as char && At(s, i, ByNumber(c, upper))
    ensures i < |s| && s[i] == '\\'
    ensures Escaped(s, i + 1) == if c < 128 as char then Got(c, i + 6) else Bad
  {
    hide Hex, HexDigit, Digit;
    var n, w := c as nat, ByNumber(c, upper);
    assert forall k | 0 <= k < 6 :: s[i + k] == w[k];
    assert s[i] == '\\' && s[i + 1] == 'u' && i + 6 <= |s|;
    DigitsAddUp(n);
    HexBack(Digit(n, 3), upper);
    HexBack(Digit(n, 2), upper);
    HexBack(Digit(n, 1), upper);
    HexBack(Digit(n, 0), upper);
    assert s[i + 2] == HexDigit(Digit(n, 3), upper) && s[i + 3] == HexDigit(Digit(n, 2), upper);
    assert s[i + 4] == HexDigit(Digit(n, 1), upper) && s[i + 5] == HexDigit(Digit(n, 0), upper);
  }

  function AllByNumber(t: string, upper: bool): string {
    if t == "" then "" else ByNumber(t[0], upper) + AllByNumber(t[1..], upper)
  }

  lemma {:induction false} CharsByNumber(s: string, i: nat, t: string, upper: bool)
    requires At(s, i, AllByNumber(t, upper) + "\"") && forall k | 0 <= k < |t| :: t[k] < 0x1_0000 as char
    ensures Chars(s, i) == if Ascii(t) then Got(t, i + 6 * |t| + 1) else Bad
    decreases |t|
  {
    hide At, Escaped, ByNumber;
    AtParts(s, i, AllByNumber(t, upper), "\"");
    if t == "" {
      AtChar(s, i, '\"');
    } else {
      var rest := AllByNumber(t[1..], upper);
      AtParts(s, i, ByNumber(t[0], upper), rest);
      NumberRead(s, i, t[0], upper);
      SixLong(t[0], upper);
      AtParts(s, i + 6, rest, "\"");
      assert |t| > 0 && forall k | 0 <= k < |t[1..]| :: t[1..][k] == t[k + 1];
      CharsByNumber(s, i + 6, t[1..], upper);
      assert [t[0]] + t[1..] == t;
      AsciiNext(t);
      LengthByNumber(t, upper);
    }
  }

  lemma AsciiNext(t: string)
    requires t != ""
    ensures Ascii(t) <==> t[0] < 128 as char && Ascii(t[1..])
  {
    assert t == [t[0]] + t[1..];
  }

  lemma SixLong(c: char, upper: bool)
    ensures |ByNumber(c, upper)| == 6
  {
  }

  lemma {:induction false} LengthByNumber(t: string, upper: bool)
    ensures |AllByNumber(t, upper)| == 6 * |t|
  {
    if t != "" {
      LengthByNumber(t[1..], upper);
    }
  }

  /** Any string may be given by the numbers of its characters; it is read if and only if it is plain ASCII. */
  lemma StringByNumber(t: string, upper: bool)
    requires forall k | 0 <= k < |t| :: t[k] < 0x1_0000 as char
    ensures Value("\"" + AllByNumber(t, upper) + "\"", 0)
         == if Ascii(t) then Got(Str(t), 6 * |t| + 2) else Bad
  {
    var s := "\"" + AllByNumber(t, upper) + "\"";
    assert s == "\"" + (AllByNumber(t, upper) + "\"");
    assert s[0..|s|] == s;
    AtParts(s, 0, "\"", AllByNumber(t, upper) + "\"");
    hide AllByNumber, Chars;
    CharsByNumber(s, 1, t, upper);
    NoSpace(s, 0);
    hide At, Space, Elements, Fields, Number, Ascii;
  }

  // ---------- repeated keys ----------

  /** The dictionary these items give when they are set one after the other. */
  function Merged(entries: seq<Entry>): seq<Entry> {
    if entries == [] then [] else
    var last := entries[|entries| - 1];
    Put(Merged(entries[..|entries| - 1]), last.key, last.value)
  }

  ghost predicate KeysDiffer(entries: seq<Entry>) {
    forall i, j | 0 <= i < j < |entries| :: entries[i].key != entries[j].key
  }

  lemma {:induction false} PutKeeps(entries: seq<Entry>, key: Json, value: Json)
    requires KeysDiffer(entries)
    ensures var put := Put(entries, key, value);
      && KeysDiffer(put)
      && (forall e :: e in put <==> e == Entry(key, value) || (e in entries && e.key != key))
  {
    if entries != [] && entries[0].key != key {
      var rest := Put(entries[1..], key, value);
      PutKeeps(entries[1..], key, value);
      assert entries == [entries[0]] + entries[1..];
      forall j | 0 <= j < |rest| ensures rest[j].key != entries[0].key {
        assert rest[j] in rest;
      }
    } else if entries != [] {
      assert entries == [entries[0]] + entries[1..];
    }
  }

  /** No later item has the same key. */
  ghost predicate LastOfKey(entries: seq<Entry>, i: nat) {
    i < |entries| && forall j | i < j < |entries| :: entries[j].key != entries[i].key
  }

  /** This is the last item with its key. */
  ghost predicate IsLast(entries: seq<Entry>, e: Entry) {
    exists i: nat :: i < |entries| && LastOfKey(entries, i) && entries[i] == e
  }

  lemma LastIndex(entries: seq<Entry>, n: nat, i: nat)
    requires n + 1 == |entries|
    ensures LastOfKey(entries, n)
    ensures i < n ==> (LastOfKey(entries, i) <==> LastOfKey(entries[..n], i) && entries[n].key != entries[i].key)
    ensures i >= n ==> !LastOfKey(entries[..n], i)
    ensures i > n ==> !LastOfKey(entries, i)
  {
    if i < n && LastOfKey(entries, i) {
      assert forall j | i < j < n :: entries[..n][j] == entries[j];
    }
  }

  lemma LastNext(entries: seq<Entry>, n: nat, e: Entry)
    requires n + 1 == |entries|
    ensures IsLast(entries, e) <==> e == entries[n] || (IsLast(entries[..n], e) && e.key != entries[n].key)
  {
    var before := entries[..n];
    LastIndex(entries, n, n);
    hide LastOfKey;
    if IsLast(entries, e) {
      var i: nat :| i < |entries| && LastOfKey(entries, i) && entries[i] == e;
      LastIndex(entries, n, i);
    }
    if IsLast(before, e) && e.key != entries[n].key {
      var i: nat :| i < n && LastOfKey(before, i) && before[i] == e;
      LastIndex(entries, n, i);
    }
  }

  /** Each key keeps its last value, and is there once. */
  lemma {:induction false} LastValueStays(entries: seq<Entry>)
    ensures KeysDiffer(Merged(entries))
    ensures forall e :: e in Merged(entries) <==> IsLast(entries, e)
  {
    if entries == [] {
      assert forall e :: !IsLast(entries, e);
    } else {
      var n := |entries| - 1;
      LastValueStays(entries[..n]);
      PutKeeps(Merged(entries[..n]), entries[n].key, entries[n].value);
      hide IsLast, Put, KeysDiffer;
      forall e ensures e in Merged(entries) <==> IsLast(entries, e) {
        LastNext(entries, n, e);
      }
    }
  }

  /** The items of a dictionary as they are read: string keys, and values that can be read. */
  ghost predicate TextEntries(entries: seq<Entry>) {
    forall j | 0 <= j < |entries| ::
      IsText(entries[j].key) && Proper(entries[j].value) && KeysAreText(entries[j].value)
  }

  lemma TextEntry(v: Json, k: nat, slash: bool, s: string, i: nat)
    requires v.Dict? && k < |v.entries| && TextEntries(v.entries) && At(s, i, WrittenEntries(v, k, slash) + "}")
    ensures var e := v.entries[k];
      var colon := i + |Written(e.key, slash)|;
      && Value(s, i) == Got(Plain(e.key), colon) && Plain(e.key).Str?
      && FieldValue(s, colon) == Got(Plain(e.value), colon + 1 + |Written(e.value, slash)|)
  {
    hide Space, Value, Written, WrittenEntries, At, IsSpace, Stops, Plain;
    var e := v.entries[k];
    var colon := i + |Written(e.key, slash)|;
    EntryParts(v, k, slash, s, i);
    StopsAtMark(s, colon);
    StopsAtMark(s, colon + 1 + |Written(e.value, slash)|);
    ReadBack(e.key, slash, s, i);
    ReadBack(e.value, slash, s, colon + 1);
    FieldBack(s, colon, e.value, slash);
  }

  lemma {:induction false} EntriesMerge(v: Json, k: nat, slash: bool, s: string, i: nat)
    requires v.Dict? && k < |v.entries| && TextEntries(v.entries) && At(s, i, WrittenEntries(v, k, slash) + "}")
    ensures Fields(s, i, Merged(PlainEntries(v, k)))
         == Got(Dict(Merged(PlainEntries(v, |v.entries|))), i + |WrittenEntries(v, k, slash)| + 1)
    decreases |v.entries| - k
  {
    hide Space, Value, Written, WrittenEntries, At, IsSpace, Stops, Put, FieldValue, Plain, TextEntries, Merged;
    var e := v.entries[k];
    var next := i + |Written(e.key, slash)| + 1 + |Written(e.value, slash)|;
    EntryParts(v, k, slash, s, i);
    TextEntry(v, k, slash, s, i);
    StopsAtMark(s, next);
    MergedNext(PlainEntries(v, k), Plain(e.key), Plain(e.value));
    assert PlainEntries(v, k) + [Entry(Plain(e.key), Plain(e.value))] == PlainEntries(v, k + 1);
    if k + 1 < |v.entries| {
      EntriesMerge(v, k + 1, slash, s, next + 1);
    }
  }

  lemma MergedNext(entries: seq<Entry>, key: Json, value: Json)
    ensures Merged(entries + [Entry(key, value)]) == Put(Merged(entries), key, value)
  {
    assert (entries + [Entry(key, value)])[..|entries|] == entries;
  }

  /** A text with any items, of which some may have the same key: of each key the last value is read. */
  lemma RepeatedKeys(entries: seq<Entry>, slash: bool)
    requires TextEntries(entries)
    ensures var v := Dict(entries);
      var plain := PlainEntries(v, |entries|);
      Value(Written(v, slash), 0) == Got(Dict(Merged(plain)), |Written(v, slash)|)
      && KeysDiffer(Merged(plain)) && forall e :: e in Merged(plain) <==> IsLast(plain, e)
  {
    var v := Dict(entries);
    var s, inner := Written(v, slash), WrittenEntries(v, 0, slash);
    LastValueStays(PlainEntries(v, |entries|));
    assert s[0..|s|] == s && s[0] == '{';
    NoSpace(s, 0);
    hide Space, Fields, At, Value, Written, WrittenEntries, TextEntries, KeysDiffer, IsLast;
    DictIsRead(v, slash, s, 0);
    WholeText(s);
    AtParts(s, 0, "{", inner + "}");
    if entries == [] {
      EmptyDict(v, slash, 2);
      assert inner + "}" == "}";
      AtChar(s, 1, '}');
    } else {
      FirstEntry(v, slash, s, 1);
      assert PlainEntries(v, 0) == [];
      EntriesMerge(v, 0, slash, s, 1);
    }
  }

  lemma WholeText(s: string)
    ensures At(s, 0, s)
  {
    assert s[0..|s|] == s;
  }

  // ---------- what is read can be written ----------

  predicate Storable(v: Json) {
    Proper(v) && KeysAreText(v)
  }

  lemma {:induction false} ReadIsStorable(s: string, i: nat)
    ensures Value(s, i).Got? ==> Storable(Value(s, i).value)
    decreases Remaining(s, i), 1
  {
    hide Proper, KeysAreText, Fields, Elements, Number, Chars, Word;
    var start := Space(s, i);
    if Value(s, i).Got? {
      var j := start.next;
      if s[j] == '{' {
        StorableEmpty();
        FieldsAreStorable(s, j + 1, []);
      } else if s[j] == '[' {
        StorableEmpty();
        ElementsAreStorable(s, j + 1, []);
      } else {
        LeafRead(s, i);
      }
    }
  }

  lemma StorableEmpty()
    ensures Storable(Dict([])) && Storable(List([]))
  {
  }

  predicate IsLeaf(v: Json) {
    !v.List? && !v.Tuple? && !v.Dict?
  }

  lemma LeafRead(s: string, i: nat)
    requires Value(s, i).Got? && s[Space(s, i).next] != '{' && s[Space(s, i).next] != '['
    ensures Storable(Value(s, i).value)
  {
    hide Space, Fields, Elements, Chars, Proper, KeysAreText, Number;
    var j := Space(s, i).next;
    if s[j] == '-' || IsDigit(s[j]) {
      NumberIsLeaf(s, j);
    }
    assert IsLeaf(Value(s, i).value);
    LeafIsStorable(Value(s, i).value);
  }

  lemma NumberIsLeaf(s: string, j: nat)
    requires j < |s| && (s[j] == '-' || IsDigit(s[j]))
    ensures Number(s, j).Got? ==> IsLeaf(Number(s, j).value)
  {
    hide DigitsValue, NumberEnd;
  }

  lemma LeafIsStorable(v: Json)
    requires IsLeaf(v)
    ensures Storable(v)
  {
  }

  lemma {:induction false} ElementsAreStorable(s: string, i: nat, items: seq<Json>)
    requires forall k | 0 <= k < |items| :: Storable(items[k])
    ensures Elements(s, i, items).Got? ==> Storable(Elements(s, i, items).value)
    decreases Remaining(s, i), 2
  {
    hide Storable, Value;
    var item := Value(s, i);
    ReadIsStorable(s, i);
    if Elements(s, i, items).Got? {
      var after := Space(s, item.next);
      if s[after.next] == ',' {
        ElementsAreStorable(s, after.next + 1, items + [item.value]);
      } else {
        StorableList(items + [item.value]);
      }
    }
  }

  lemma StorableList(items: seq<Json>)
    requires forall k | 0 <= k < |items| :: Storable(items[k])
    ensures Storable(List(items))
  {
    assert forall k | 0 <= k < |items| :: Storable(items[k]);
  }

  /** Items with different string keys and storable values. */
  ghost predicate StorableEntries(entries: seq<Entry>) {
    KeysDiffer(entries) && forall e | e in entries :: e.key.Str? && Storable(e.value)
  }

  lemma {:induction false} FieldsAreStorable(s: string, i: nat, entries: seq<Entry>)
    requires StorableEntries(entries)
    ensures Fields(s, i, entries).Got? ==> Storable(Fields(s, i, entries).value)
    decreases Remaining(s, i), 3
  {
    hide Storable, Value, FieldValue, Put, StorableEntries;
    if Fields(s, i, entries).Got? {
      var key := Value(s, i);
      var value := FieldValue(s, key.next);
      FieldIsStorable(s, key.next);
      var all := Put(entries, key.value, value.value);
      PutStorable(entries, key.value, value.value);
      var after := Space(s, value.next);
      if s[after.next] == ',' {
        FieldsAreStorable(s, after.next + 1, all);
      } else {
        StorableDict(all);
      }
    }
  }

  lemma {:induction false} FieldIsStorable(s: string, i: nat)
    ensures FieldValue(s, i).Got? ==> Storable(FieldValue(s, i).value)
    decreases Remaining(s, i), 2
  {
    hide Storable, Value;
    if FieldValue(s, i).Got? {
      ReadIsStorable(s, Space(s, Space(s, i).next + 1).next);
    }
  }

  lemma PutStorable(entries: seq<Entry>, key: Json, value: Json)
    requires StorableEntries(entries) && key.Str? && Storable(value)
    ensures StorableEntries(Put(entries, key, value))
  {
    hide Storable, Put;
    PutKeeps(entries, key, value);
  }

  lemma StorableDict(entries: seq<Entry>)
    requires StorableEntries(entries)
    ensures Storable(Dict(entries))
  {
    forall j | 0 <= j < |entries| ensures entries[j].key.Str? && Storable(entries[j].value) {
      assert entries[j] in entries;
    }
  }

  /** Whatever is read from a text can be written, and is read again as it was, but for digits that floats lose. */
  lemma ReadWriteRead(s: string, i: nat, slash: bool)
    requires Value(s, i).Got?
    ensures var v := Value(s, i).value;
      Value(Written(v, slash), 0) == Got(Plain(v), |Written(v, slash)|)
  {
    hide Value, Written, Plain, Proper, KeysAreText;
    ReadIsStorable(s, i);
    RoundTrip(Value(s, i).value, slash);
  }
}
