/** What a text means to the JSON reader, position by position, and that a written value is read back. */
module LocalJsonText {
  import opened Helpers
  import opened LocalJson

  /** A value and the position after it; a text the reader rejects; or a number with an exponent, which this model
      does not evaluate and the writer never writes. */
  datatype Parse<T> = Got(value: T, next: nat) | Bad | Scaled

  predicate IsDigit(c: char) {
    '0' <= c <= '9'
  }

  predicate IsSpace(c: char) {
    c == ' ' || c == '\t' || c == '\n' || c == '\r' || c == VERTICAL_TAB || c == FORMFEED
  }

  function Remaining(s: string, i: nat): nat {
    if i <= |s| then |s| - i else 0
  }

  // ---------- white space and comments ----------

  /** After a comment that ends with its line, or with the text. */
  function LineEnd(s: string, i: nat): (j: nat)
    ensures i < j
    decreases Remaining(s, i)
  {
    if i >= |s| then i + 1 else if s[i] == '\r' || s[i] == '\n' then i + 1 else LineEnd(s, i + 1)
  }

  /** After a comment that ends with an asterisk and a slash. */
  function BlockEnd(s: string, i: nat): (r: Parse<()>)
    ensures !r.Scaled? && (r.Got? ==> i < r.next)
    decreases Remaining(s, i)
  {
    if i >= |s| then Bad
    else if s[i] == '*' && i + 1 < |s| && s[i + 1] == '/' then Got((), i + 2)
    else if s[i] == '/' && i + 1 < |s| && s[i + 1] == '*' then Bad
    else BlockEnd(s, i + 1)
  }

  function Comment(s: string, i: nat): (r: Parse<()>)
    requires i < |s| && s[i] == '/'
    ensures !r.Scaled? && (r.Got? ==> i < r.next)
  {
    if i + 1 >= |s| then Bad
    else if s[i + 1] == '/' then Got((), LineEnd(s, i + 2))
    else if s[i + 1] == '*' then BlockEnd(s, i + 2)
    else Bad
  }

  function Space(s: string, i: nat): (r: Parse<()>)
    ensures !r.Scaled? && (r.Got? ==> i <= r.next)
    ensures r.Got? && r.next < |s| ==> !IsSpace(s[r.next]) && s[r.next] != '/'
    decreases Remaining(s, i)
  {
    if i < |s| && IsSpace(s[i]) then Space(s, i + 1)
    else if i < |s| && s[i] == '/' then
      var c := Comment(s, i);
      if c.Got? then Space(s, c.next) else Bad
    else Got((), i)
  }

  // ---------- numbers and words ----------

  predicate InNumber(c: char) {
    IsDigit(c) || c == '.'
  }

  /** Where a run of digits and points ends. */
  function NumberEnd(s: string, i: nat): (j: nat)
    requires i <= |s|
    ensures i <= j <= |s|
    ensures forall k | i <= k < j :: InNumber(s[k])
    ensures j < |s| ==> !InNumber(s[j])
    decreases |s| - i
  {
    if i < |s| && InNumber(s[i]) then NumberEnd(s, i + 1) else i
  }

  predicate AllDigits(s: string) {
    forall k | 0 <= k < |s| :: IsDigit(s[k])
  }

  function DigitsValue(s: string): nat
    requires AllDigits(s)
  {
    if s == "" then 0 else
    assert IsDigit(s[|s| - 1]);
    10 * DigitsValue(s[..|s| - 1]) + (s[|s| - 1] - '0') as nat
  }

  function Power(n: nat): (p: nat)
    ensures p > 0
  {
    if n == 0 then 1 else 10 * Power(n - 1)
  }

  /** Where the first point is. */
  function Point(s: string): (p: nat)
    ensures p <= |s|
    ensures forall k | 0 <= k < p :: s[k] != '.'
    ensures p < |s| ==> s[p] == '.'
  {
    if s == "" || s[0] == '.' then 0 else 1 + Point(s[1..])
  }

  /** The number a text of digits and points stands for, without its sign: an integer, or a float if it has a point. */
  function Unsigned(s: string): Option<Json> {
    var p := Point(s);
    if p == |s| then
      if s != "" && AllDigits(s) then Some(Int(DigitsValue(s))) else None
    else
      var digits := s[..p] + s[p + 1..];
      if digits != "" && AllDigits(digits) then Some(Float(DigitsValue(digits) as real / Power(|s| - p - 1) as real))
      else None
  }

  function Negated(v: Json): Json {
    match v
    case Int(i) => Int(-i)
    case Float(x) => Float(-x)
    case _ => v
  }

  function NumberValue(s: string): Option<Json> {
    if s == "" || s[0] != '-' then Unsigned(s) else
    var u := Unsigned(s[1..]);
    if u.Some? then Some(Negated(u.value)) else None
  }

  function Number(s: string, i: nat): (r: Parse<Json>)
    requires i < |s| && (s[i] == '-' || IsDigit(s[i]))
    ensures r.Got? ==> i < r.next <= |s|
  {
    var j := NumberEnd(s, i + 1);
    if j < |s| && s[j] == 'e' then Scaled else
    var v := NumberValue(s[i..j]);
    if v.None? then Bad else Got(v.value, j)
  }

  function Word(s: string, i: nat, w: string, v: Json): (r: Parse<Json>)
    requires w != ""
    ensures r.Got? ==> i < r.next <= |s|
  {
    if i + |w| <= |s| && s[i..i + |w|] == w then Got(v, i + |w|) else Bad
  }

  // ---------- strings ----------

  function Hex(c: char): int {
    if IsDigit(c) then (c - '0') as int
    else if 'a' <= c <= 'f' then (c - 'a') as int + 10
    else if 'A' <= c <= 'F' then (c - 'A') as int + 10
    else -1
  }

  /** The character a backslash and what follows it stand for; characters over 127 given by number are rejected. */
  function Escaped(s: string, i: nat): (r: Parse<char>)
    ensures !r.Scaled? && (r.Got? ==> i < r.next <= |s|)
  {
    if i >= |s| then Bad
    else if s[i] == 'b' then Got(BACKSPACE, i + 1)
    else if s[i] == 'r' then Got('\r', i + 1)
    else if s[i] == 'n' then Got('\n', i + 1)
    else if s[i] == 'f' then Got(FORMFEED, i + 1)
    else if s[i] == 't' then Got('\t', i + 1)
    else if s[i] == 'u' then
      if i + 5 > |s| || Hex(s[i + 1]) < 0 || Hex(s[i + 2]) < 0 || Hex(s[i + 3]) < 0 || Hex(s[i + 4]) < 0 then Bad else
      var n := 4096 * Hex(s[i + 1]) + 256 * Hex(s[i + 2]) + 16 * Hex(s[i + 3]) + Hex(s[i + 4]);
      if n < 128 then Got(n as char, i + 5) else Bad
    else if s[i] == '\"' || s[i] == '/' || s[i] == '\\' then Got(s[i], i + 1)
    else Bad
  }

  /** The rest of a string from i on; the position after its closing quote. */
  function Chars(s: string, i: nat): (r: Parse<string>)
    ensures !r.Scaled? && (r.Got? ==> i < r.next <= |s|)
    decreases Remaining(s, i)
  {
    if i >= |s| then Bad
    else if s[i] == '\"' then Got("", i + 1)
    else
      var first := if s[i] == '\\' then Escaped(s, i + 1) else Got(s[i], i + 1);
      if !first.Got? then Bad else
      var others := Chars(s, first.next);
      if others.Got? then Got([first.value] + others.value, others.next) else Bad
  }

  // ---------- values ----------

  function Failure<A, B>(p: Parse<A>): Parse<B>
    requires !p.Got?
  {
    if p.Bad? then Bad else Scaled
  }

  function Value(s: string, i: nat): (r: Parse<Json>)
    ensures r.Got? ==> i < r.next <= |s|
    decreases Remaining(s, i), 1
  {
    var start := Space(s, i);
    if !start.Got? then Bad else
    var j := start.next;
    if j >= |s| then Bad
    else if s[j] == '{' then
      if j + 1 < |s| && s[j + 1] == '}' then Got(Dict([]), j + 2) else Fields(s, j + 1, [])
    else if s[j] == '[' then
      if j + 1 < |s| && s[j + 1] == ']' then Got(List([]), j + 2) else Elements(s, j + 1, [])
    else if s[j] == '\"' then
      var str := Chars(s, j + 1);
      if str.Got? then Got(Str(str.value), str.next) else Bad
    else if s[j] == '-' || IsDigit(s[j]) then Number(s, j)
    else if s[j] == 't' then Word(s, j, "true", Bool(true))
    else if s[j] == 'f' then Word(s, j, "false", Bool(false))
    else if s[j] == 'n' then Word(s, j, "null", Null)
    else Bad
  }

  /** The rest of a list, at least one item of which follows. */
  function Elements(s: string, i: nat, items: seq<Json>): (r: Parse<Json>)
    ensures r.Got? ==> i < r.next <= |s|
    decreases Remaining(s, i), 2
  {
    var item := Value(s, i);
    if !item.Got? then Failure(item) else
    var after := Space(s, item.next);
    if !after.Got? || after.next >= |s| then Bad
    else if s[after.next] == ']' then Got(List(items + [item.value]), after.next + 1)
    else if s[after.next] == ',' then Elements(s, after.next + 1, items + [item.value])
    else Bad
  }

  /** A dictionary with the value of one key set. */
  function Put(entries: seq<Entry>, key: Json, value: Json): seq<Entry> {
    if entries == [] then [Entry(key, value)]
    else if entries[0].key == key then [Entry(key, value)] + entries[1..]
    else [entries[0]] + Put(entries[1..], key, value)
  }

  /** The value that follows a key and a colon. */
  function FieldValue(s: string, i: nat): (r: Parse<Json>)
    ensures r.Got? ==> i < r.next <= |s|
    decreases Remaining(s, i), 2
  {
    var after := Space(s, i);
    if !after.Got? || after.next >= |s| || s[after.next] != ':' then Bad else
    var start := Space(s, after.next + 1);
    if !start.Got? then Bad else Value(s, start.next)
  }

  function Fields(s: string, i: nat, entries: seq<Entry>): (r: Parse<Json>)
    ensures r.Got? ==> i < r.next <= |s|
    decreases Remaining(s, i), 3
  {
    var key := Value(s, i);
    if !key.Got? then Failure(key)
    else if !key.value.Str? then Bad else
    var value := FieldValue(s, key.next);
    if !value.Got? then Failure(value) else
    var all := Put(entries, key.value, value.value);
    var after := Space(s, value.next);
    if !after.Got? || after.next >= |s| then Bad
    else if s[after.next] == '}' then Got(Dict(all), after.next + 1)
    else if s[after.next] == ',' then Fields(s, after.next + 1, all)
    else Bad
  }

  // ---------- reading back what was written ----------

  /** The text has w at position i. */
  predicate At(s: string, i: nat, w: string) {
    i + |w| <= |s| && s[i..i + |w|] == w
  }

  lemma AtParts(s: string, i: nat, a: string, b: string)
    ensures At(s, i, a + b) <==> At(s, i, a) && At(s, i + |a|, b)
  {
    if At(s, i, a + b) {
      assert s[i..i + |a|] == (a + b)[..|a|] == a;
      assert s[i + |a|..i + |a| + |b|] == (a + b)[|a|..] == b;
    }
    if At(s, i, a) && At(s, i + |a|, b) {
      assert s[i..i + |a| + |b|] == s[i..i + |a|] + s[i + |a|..i + |a| + |b|];
    }
  }

  lemma AtChar(s: string, i: nat, c: char)
    ensures At(s, i, [c]) <==> i < |s| && s[i] == c
  {
  }

  /** A number is read to its end only if what follows does not carry on with it. */
  predicate Stops(s: string, i: nat) {
    i < |s| ==> !InNumber(s[i]) && s[i] != 'e'
  }

  lemma {:induction false} DecimalBack(n: nat)
    ensures AllDigits(Decimal(n)) && DigitsValue(Decimal(n)) == n
  {
    if n >= 10 {
      DecimalBack(n / 10);
      assert Decimal(n)[..|Decimal(n)| - 1] == Decimal(n / 10);
    } else {
      assert Decimal(n)[..0] == "";
    }
  }

  lemma {:induction false} FixedBack(n: nat, width: nat)
    requires n < Power(width)
    ensures AllDigits(Fixed(n, width)) && DigitsValue(Fixed(n, width)) == n
  {
    if width > 0 {
      FixedBack(n / 10, width - 1);
      assert Fixed(n, width)[..width - 1] == Fixed(n / 10, width - 1);
    }
  }

  lemma {:induction false} DigitsJoin(a: string, b: string)
    requires AllDigits(a) && AllDigits(b)
    ensures AllDigits(a + b) && DigitsValue(a + b) == DigitsValue(a) * Power(|b|) + DigitsValue(b)
    decreases |b|
  {
    if b == "" {
      assert a + b == a;
    } else {
      var front := b[..|b| - 1];
      DigitsJoin(a, front);
      assert (a + b)[..|a + b| - 1] == a + front;
      assert IsDigit(b[|b| - 1]);
      ShiftUp(DigitsValue(a), Power(|front|), DigitsValue(front), (b[|b| - 1] - '0') as nat);
    }
  }

  lemma ShiftUp(a: nat, p: nat, b: nat, d: nat)
    ensures 10 * (a * p + b) + d == a * (10 * p) + (10 * b + d)
  {
  }

  lemma {:induction false} PointAt(s: string, p: nat)
    requires p <= |s| && (forall k | 0 <= k < p :: s[k] != '.') && (p < |s| ==> s[p] == '.')
    ensures Point(s) == p
  {
    if p > 0 {
      PointAt(s[1..], p - 1);
    }
  }

  lemma DigitsHaveNoPoint(s: string)
    requires AllDigits(s)
    ensures forall k | 0 <= k < |s| :: s[k] != '.' && s[k] != '-' && InNumber(s[k])
  {
    forall k | 0 <= k < |s| ensures s[k] != '.' && s[k] != '-' && InNumber(s[k]) {
      assert IsDigit(s[k]);
    }
  }

  /** What a number looks like as text. */
  predicate Numeric(s: string) {
    && s != "" && (s[0] == '-' || IsDigit(s[0]))
    && forall k | 1 <= k < |s| :: InNumber(s[k])
  }

  lemma IntValue(i: int)
    ensures Numeric(IntText(i)) && NumberValue(IntText(i)) == Some(Int(i))
  {
    var n := if i < 0 then -i else i;
    var digits := Decimal(n);
    DecimalBack(n);
    DigitsHaveNoPoint(digits);
    PointAt(digits, |digits|);
    if i < 0 {
      assert IntText(i)[1..] == digits;
    }
  }

  lemma UnsignedParts(whole: string, part: string)
    requires AllDigits(whole) && AllDigits(part) && whole != ""
    ensures AllDigits(whole + part)
    ensures Unsigned(whole + "." + part) == Some(Float(DigitsValue(whole + part) as real / Power(|part|) as real))
  {
    hide DigitsValue, IsDigit, Power;
    var s := whole + "." + part;
    DigitsHaveNoPoint(whole);
    PointAt(s, |whole|);
    assert s[..|whole|] == whole && s[|whole| + 1..] == part;
    assert |s| - |whole| - 1 == |part|;
  }

  lemma UnsignedFloat(m: nat)
    ensures var s := Decimal(m / MICRO) + "." + Fixed(m % MICRO, 6);
      && Unsigned(s) == Some(Float(m as real / 1000000.0))
      && s != "" && IsDigit(s[0]) && forall k | 0 <= k < |s| :: InNumber(s[k])
  {
    hide Decimal, Fixed, DigitsValue, IsDigit, Unsigned, Power;
    var whole, part := Decimal(m / MICRO), Fixed(m % MICRO, 6);
    SixDigits();
    DecimalBack(m / MICRO);
    FixedBack(m % MICRO, 6);
    DigitsHaveNoPoint(whole);
    DigitsHaveNoPoint(part);
    DigitsJoin(whole, part);
    UnsignedParts(whole, part);
    assert DigitsValue(whole + part) == m by {
      assert m == m / MICRO * MICRO + m % MICRO;
    }
    var s := whole + "." + part;
    assert s == Decimal(m / MICRO) + "." + Fixed(m % MICRO, 6);
    assert Unsigned(s) == Some(Float(m as real / 1000000.0));
  }

  lemma SixDigits()
    ensures Power(6) == MICRO
  {
    assert Power(3) == 10 * Power(2) && Power(2) == 10 * Power(1);
    assert Power(6) == 10 * Power(5) && Power(5) == 10 * Power(4) && Power(4) == 10 * Power(3);
  }

  lemma FloatValue(x: real)
    ensures Numeric(FloatText(x)) && NumberValue(FloatText(x)) == Some(Float(Rounded(x)))
  {
    hide Decimal, Fixed, Micros, Unsigned, IsDigit;
    UnsignedFloat(Micros(x));
    var s := Decimal(Micros(x) / MICRO) + "." + Fixed(Micros(x) % MICRO, 6);
    if x < 0.0 {
      assert FloatText(x)[1..] == s;
    } else {
      assert FloatText(x) == s;
      DigitIsNoSign(s[0]);
    }
  }

  lemma DigitIsNoSign(c: char)
    requires IsDigit(c)
    ensures c != '-'
  {
  }

  lemma {:induction false} NumberEndAt(s: string, i: nat, j: nat)
    requires i <= j <= |s| && (forall k | i <= k < j :: InNumber(s[k])) && (j < |s| ==> !InNumber(s[j]))
    ensures NumberEnd(s, i) == j
    decreases j - i
  {
    if i < j {
      NumberEndAt(s, i + 1, j);
    }
  }

  lemma NumberBack(s: string, i: nat, w: string, v: Json)
    requires At(s, i, w) && Stops(s, i + |w|) && Numeric(w) && NumberValue(w) == Some(v)
    ensures i < |s| && (s[i] == '-' || IsDigit(s[i])) && Number(s, i) == Got(v, i + |w|)
  {
    hide NumberValue, NumberEnd, InNumber;
    assert s[i] == w[0];
    forall k | i + 1 <= k < i + |w| ensures InNumber(s[k]) {
      assert s[k] == w[k - i];
    }
    NumberEndAt(s, i + 1, i + |w|);
  }

  lemma EscapeBack(s: string, i: nat, c: char, slash: bool)
    requires At(s, i, Escape(c, slash))
    ensures i < |s| && s[i] != '\"'
    ensures (if s[i] == '\\' then Escaped(s, i + 1) else Got(s[i], i + 1)) == Got(c, i + |Escape(c, slash)|)
  {
    var w := Escape(c, slash);
    assert s[i] == w[0];
    assert |w| == 2 ==> s[i + 1] == w[1];
  }

  lemma {:induction false} CharsBack(s: string, i: nat, t: string, slash: bool)
    requires At(s, i, EscapeAll(t, slash) + "\"")
    ensures Chars(s, i) == Got(t, i + |EscapeAll(t, slash)| + 1)
    decreases |t|
  {
    hide Escape, Escaped, At;
    AtParts(s, i, EscapeAll(t, slash), "\"");
    if t == "" {
      AtChar(s, i, '\"');
    } else {
      var w, rest := Escape(t[0], slash), EscapeAll(t[1..], slash);
      AtParts(s, i, w, rest);
      EscapeBack(s, i, t[0], slash);
      AtParts(s, i + |w|, rest, "\"");
      CharsBack(s, i + |w|, t[1..], slash);
      assert [t[0]] + t[1..] == t;
    }
  }

  lemma QuotedBack(s: string, i: nat, t: string, slash: bool)
    requires At(s, i, Quoted(t, slash))
    ensures i < |s| && s[i] == '\"' && Value(s, i) == Got(Str(t), i + |Quoted(t, slash)|)
  {
    hide Chars, EscapeAll;
    AtParts(s, i, "\"", EscapeAll(t, slash) + "\"");
    assert Quoted(t, slash) == "\"" + (EscapeAll(t, slash) + "\"");
    assert s[i..i + 1] == "\"";
    CharsBack(s, i + 1, t, slash);
  }

  /** No written value begins like white space, a comment or the end of a list or dictionary. */
  lemma FirstChar(v: Json, slash: bool)
    ensures var w := Written(v, slash);
      w != "" && !IsSpace(w[0]) && w[0] != '/' && w[0] != ']' && w[0] != '}'
  {
    if v.Int? {
      IntValue(v.i);
    } else if v.Float? {
      hide Numeric, FloatText;
      FloatFirst(v.x);
    }
  }

  lemma FloatFirst(x: real)
    ensures var w := FloatText(x); w != "" && (w[0] == '-' || IsDigit(w[0]))
  {
    FloatValue(x);
  }

  lemma NoSpace(s: string, i: nat)
    requires i < |s| && !IsSpace(s[i]) && s[i] != '/'
    ensures Space(s, i) == Got((), i)
  {
  }

  lemma {:induction false} PutNew(entries: seq<Entry>, key: Json, value: Json)
    requires forall e | e in entries :: e.key != key
    ensures Put(entries, key, value) == entries + [Entry(key, value)]
  {
    if entries != [] {
      PutNew(entries[1..], key, value);
      assert entries == [entries[0]] + entries[1..];
    }
  }

  /** What reading a written value gives: it fails at a key that is not a string. */
  function Outcome(v: Json, next: nat): Parse<Json> {
    if KeysAreText(v) then Got(Plain(v), next) else Bad
  }

  predicate IsNumber(v: Json) {
    v.Int? || v.Float?
  }

  /** Wherever a written value stands in a text, reading there gives what is left of the value and stops right after
      it, or fails at a key that is not a string. */
  lemma {:induction false} ReadBack(v: Json, slash: bool, s: string, i: nat)
    requires Proper(v) && At(s, i, Written(v, slash))
    requires IsNumber(v) ==> Stops(s, i + |Written(v, slash)|)
    ensures Value(s, i) == Outcome(v, i + |Written(v, slash)|)
    decreases v, 2, 0
  {
    hide Space, Chars, Elements, Fields, Number, IntText, FloatText, EscapeAll, WrittenItems, WrittenEntries, Proper,
         Numeric, NumberValue, Rounded;
    FirstChar(v, slash);
    assert s[i] == Written(v, slash)[0];
    NoSpace(s, i);
    match v
    case Null =>
    case Bool(b) =>
    case Int(n) =>
      IntValue(n);
      NumberBack(s, i, IntText(n), v);
    case Float(x) =>
      FloatValue(x);
      NumberBack(s, i, FloatText(x), Float(Rounded(x)));
    case Str(t) => QuotedBack(s, i, t, slash);
    case Unicode(t) => QuotedBack(s, i, t, slash);
    case List(items) => ListBack(v, slash, s, i);
    case Tuple(items) => ListBack(v, slash, s, i);
    case Dict(entries) => DictBack(v, slash, s, i);
  }

  predicate IsList(v: Json) {
    v.List? || v.Tuple?
  }

  /** What is left of the first k items. */
  function PlainItems(v: Json, k: nat): (r: seq<Json>)
    requires IsList(v) && k <= |v.items|
    ensures |r| == k && (k == |v.items| ==> Plain(v) == List(r))
  {
    seq(k, j requires 0 <= j < k => Plain(v.items[j]))
  }

  lemma ListIsRead(v: Json, slash: bool, s: string, i: nat)
    requires IsList(v) && i < |s| && s[i] == '[' && Space(s, i) == Got((), i)
    ensures Written(v, slash) == "[" + (WrittenItems(v, 0, slash) + "]")
    ensures Value(s, i) == if i + 1 < |s| && s[i + 1] == ']' then Got(List([]), i + 2) else Elements(s, i + 1, [])
  {
    hide Space, Elements, Fields, Chars, Number, WrittenItems;
    assert "[" + WrittenItems(v, 0, slash) + "]" == "[" + (WrittenItems(v, 0, slash) + "]");
  }

  lemma EmptyList(v: Json, slash: bool, next: nat)
    requires IsList(v) && v.items == []
    ensures Outcome(v, next) == Got(List([]), next) && WrittenItems(v, 0, slash) == ""
  {
    assert Plain(v).items == [];
  }

  lemma {:induction false} ListBack(v: Json, slash: bool, s: string, i: nat)
    requires IsList(v) && Proper(v) && At(s, i, Written(v, slash)) && i < |s|
        && s[i] == '[' && Space(s, i) == Got((), i)
    ensures Value(s, i) == Outcome(v, i + |Written(v, slash)|)
    decreases v, 1, |v.items| + 2
  {
    hide Space, Elements, At, Value, Written, WrittenItems, Proper, Outcome;
    var inner := WrittenItems(v, 0, slash);
    ListIsRead(v, slash, s, i);
    AtParts(s, i, "[", inner + "]");
    if v.items == [] {
      EmptyList(v, slash, i + 2);
      assert inner + "]" == "]";
      AtChar(s, i + 1, ']');
    } else {
      FirstItem(v, slash, s, i + 1);
      assert PlainItems(v, 0) == [];
      ItemsBack(v, 0, slash, s, i + 1);
      AllItems(v, i + |Written(v, slash)|);
    }
  }

  lemma FirstItem(v: Json, slash: bool, s: string, i: nat)
    requires IsList(v) && v.items != [] && At(s, i, WrittenItems(v, 0, slash) + "]")
    ensures i < |s| && s[i] != ']'
  {
    hide Written;
    FirstChar(v.items[0], slash);
    assert s[i] == (WrittenItems(v, 0, slash) + "]")[0];
  }

  predicate ItemsHaveTextKeys(v: Json, k: nat)
    requires IsList(v)
  {
    forall j | k <= j < |v.items| :: KeysAreText(v.items[j])
  }

  lemma AllItems(v: Json, next: nat)
    requires IsList(v)
    ensures Outcome(v, next) == if ItemsHaveTextKeys(v, 0) then Got(List(PlainItems(v, |v.items|)), next) else Bad
  {
  }

  lemma ItemParts(v: Json, k: nat, slash: bool, s: string, i: nat)
    requires IsList(v) && k < |v.items| && At(s, i, WrittenItems(v, k, slash) + "]")
    ensures var item := Written(v.items[k], slash);
      var next := i + |item|;
      && At(s, i, item) && next < |s|
      && if k + 1 < |v.items| then
           s[next] == ',' && At(s, next + 1, WrittenItems(v, k + 1, slash) + "]")
           && |WrittenItems(v, k, slash)| == |item| + 1 + |WrittenItems(v, k + 1, slash)|
         else s[next] == ']' && |WrittenItems(v, k, slash)| == |item|
  {
    hide Written, At;
    var item, rest := Written(v.items[k], slash), WrittenItems(v, k + 1, slash);
    var comma := if k + 1 < |v.items| then "," else "";
    assert WrittenItems(v, k, slash) + "]" == item + (comma + (rest + "]"));
    AtParts(s, i, item, comma + (rest + "]"));
    AtParts(s, i + |item|, comma, rest + "]");
    var next := i + |item|;
    if k + 1 < |v.items| {
      AtChar(s, next, ',');
    } else {
      assert comma + (rest + "]") == "]";
      AtChar(s, next, ']');
    }
  }

  /** One item, up to the mark after it. */
  lemma {:induction false} ItemBack(v: Json, k: nat, slash: bool, s: string, i: nat)
    requires IsList(v) && k < |v.items| && Proper(v) && At(s, i, WrittenItems(v, k, slash) + "]")
    ensures Value(s, i) == Outcome(v.items[k], i + |Written(v.items[k], slash)|)
    decreases v, 1, 0
  {
    hide Space, Value, Written, WrittenItems, At, IsSpace, Stops, Outcome;
    ItemParts(v, k, slash, s, i);
    StopsAtMark(s, i + |Written(v.items[k], slash)|);
    ReadBack(v.items[k], slash, s, i);
  }

  lemma {:induction false} ItemsBack(v: Json, k: nat, slash: bool, s: string, i: nat)
    requires IsList(v) && k < |v.items| && Proper(v) && At(s, i, WrittenItems(v, k, slash) + "]")
    ensures Elements(s, i, PlainItems(v, k))
         == if ItemsHaveTextKeys(v, k) then Got(List(PlainItems(v, |v.items|)), i + |WrittenItems(v, k, slash)| + 1)
             else Bad
    decreases v, 1, |v.items| - k + 1
  {
    hide Space, Value, Written, WrittenItems, At, IsSpace, Stops, KeysAreText, Plain, Proper;
    var next := i + |Written(v.items[k], slash)|;
    ItemParts(v, k, slash, s, i);
    ItemBack(v, k, slash, s, i);
    StopsAtMark(s, next);
    assert PlainItems(v, k) + [Plain(v.items[k])] == PlainItems(v, k + 1);
    if k + 1 < |v.items| {
      ItemsBack(v, k + 1, slash, s, next + 1);
    }
  }

  lemma StopsAtMark(s: string, i: nat)
    requires i < |s| && (s[i] == ',' || s[i] == ']' || s[i] == '}' || s[i] == ':')
    ensures Stops(s, i) && Space(s, i) == Got((), i)
  {
  }

  /** What is left of the first k entries. */
  function PlainEntries(v: Json, k: nat): (r: seq<Entry>)
    requires v.Dict? && k <= |v.entries|
    ensures |r| == k && (k == |v.entries| ==> Plain(v) == Dict(r))
  {
    seq(k, j requires 0 <= j < k => Entry(Plain(v.entries[j].key), Plain(v.entries[j].value)))
  }

  lemma DictIsRead(v: Json, slash: bool, s: string, i: nat)
    requires v.Dict? && i < |s| && s[i] == '{' && Space(s, i) == Got((), i)
    ensures Written(v, slash) == "{" + (WrittenEntries(v, 0, slash) + "}")
    ensures Value(s, i) == if i + 1 < |s| && s[i + 1] == '}' then Got(Dict([]), i + 2) else Fields(s, i + 1, [])
  {
    hide Space, Elements, Fields, Chars, Number, WrittenEntries;
    assert "{" + WrittenEntries(v, 0, slash) + "}" == "{" + (WrittenEntries(v, 0, slash) + "}");
  }

  lemma EmptyDict(v: Json, slash: bool, next: nat)
    requires v.Dict? && v.entries == []
    ensures Outcome(v, next) == Got(Dict([]), next) && WrittenEntries(v, 0, slash) == ""
  {
    assert Plain(v).entries == [];
  }

  lemma {:induction false} DictBack(v: Json, slash: bool, s: string, i: nat)
    requires v.Dict? && Proper(v) && At(s, i, Written(v, slash)) && i < |s| && s[i] == '{' && Space(s, i) == Got((), i)
    ensures Value(s, i) == Outcome(v, i + |Written(v, slash)|)
    decreases v, 1, |v.entries| + 2
  {
    hide Space, Fields, At, Value, Written, WrittenEntries, Proper, Outcome;
    var inner := WrittenEntries(v, 0, slash);
    DictIsRead(v, slash, s, i);
    AtParts(s, i, "{", inner + "}");
    if v.entries == [] {
      EmptyDict(v, slash, i + 2);
      assert inner + "}" == "}";
      AtChar(s, i + 1, '}');
    } else {
      FirstEntry(v, slash, s, i + 1);
      assert PlainEntries(v, 0) == [];
      EntriesBack(v, 0, slash, s, i + 1);
      AllEntries(v, i + |Written(v, slash)|);
    }
  }

  lemma FirstEntry(v: Json, slash: bool, s: string, i: nat)
    requires v.Dict? && v.entries != [] && At(s, i, WrittenEntries(v, 0, slash) + "}")
    ensures i < |s| && s[i] != '}'
  {
    hide Written;
    FirstChar(v.entries[0].key, slash);
    assert s[i] == (WrittenEntries(v, 0, slash) + "}")[0];
  }

  predicate EntriesHaveTextKeys(v: Json, k: nat)
    requires v.Dict?
  {
    forall j | k <= j < |v.entries| :: IsText(v.entries[j].key) && KeysAreText(v.entries[j].value)
  }

  lemma AllEntries(v: Json, next: nat)
    requires v.Dict?
    ensures Outcome(v, next) == if EntriesHaveTextKeys(v, 0) then Got(Dict(PlainEntries(v, |v.entries|)), next) else Bad
  {
  }

  lemma EntryParts(v: Json, k: nat, slash: bool, s: string, i: nat)
    requires v.Dict? && k < |v.entries| && At(s, i, WrittenEntries(v, k, slash) + "}")
    ensures var key, value := Written(v.entries[k].key, slash), Written(v.entries[k].value, slash);
      var next := i + |key| + 1 + |value|;
      && At(s, i, key) && i + |key| < |s| && s[i + |key|] == ':' && At(s, i + |key| + 1, value) && next < |s|
      && if k + 1 < |v.entries| then
           s[next] == ',' && At(s, next + 1, WrittenEntries(v, k + 1, slash) + "}")
           && |WrittenEntries(v, k, slash)| == |key| + 1 + |value| + 1 + |WrittenEntries(v, k + 1, slash)|
         else s[next] == '}' && |WrittenEntries(v, k, slash)| == |key| + 1 + |value|
  {
    hide Written, At;
    var e := v.entries[k];
    var key, value, rest := Written(e.key, slash), Written(e.value, slash), WrittenEntries(v, k + 1, slash);
    var comma := if k + 1 < |v.entries| then "," else "";
    assert WrittenEntries(v, k, slash) + "}" == key + (":" + (value + (comma + (rest + "}"))));
    AtParts(s, i, key, ":" + (value + (comma + (rest + "}"))));
    AtParts(s, i + |key|, ":", value + (comma + (rest + "}")));
    AtParts(s, i + |key| + 1, value, comma + (rest + "}"));
    var next := i + |key| + 1 + |value|;
    AtParts(s, next, comma, rest + "}");
    AtChar(s, i + |key|, ':');
    if k + 1 < |v.entries| {
      AtChar(s, next, ',');
    } else {
      assert comma + (rest + "}") == "}";
      AtChar(s, next, '}');
    }
  }

  /** The key of this entry, if it is a string, comes before no equal key. */
  lemma KeyIsNew(v: Json, k: nat)
    requires v.Dict? && k < |v.entries| && DistinctKeys(v.entries) && IsText(v.entries[k].key)
    requires forall j | 0 <= j < k :: IsText(v.entries[j].key)
    ensures forall e | e in PlainEntries(v, k) :: e.key != Plain(v.entries[k].key)
  {
  }

  /** One entry, up to the mark after it. */
  lemma {:induction false} EntryBack(v: Json, k: nat, slash: bool, s: string, i: nat)
    requires v.Dict? && k < |v.entries| && Proper(v) && At(s, i, WrittenEntries(v, k, slash) + "}")
    ensures var e := v.entries[k];
      var colon := i + |Written(e.key, slash)|;
      && (IsText(e.key) ==> Value(s, i) == Got(Plain(e.key), colon))
      && (!IsText(e.key) ==> Value(s, i) == Bad || (Value(s, i).Got? && !Value(s, i).value.Str?))
      && FieldValue(s, colon) == Outcome(e.value, colon + 1 + |Written(e.value, slash)|)
    decreases v, 1, 0
  {
    hide Space, Value, Written, WrittenEntries, At, IsSpace, Stops, Plain;
    var e := v.entries[k];
    var colon := i + |Written(e.key, slash)|;
    EntryParts(v, k, slash, s, i);
    StopsAtMark(s, colon);
    StopsAtMark(s, colon + 1 + |Written(e.value, slash)|);
    ReadBack(e.key, slash, s, i);
    ReadBack(e.value, slash, s, colon + 1);
    FieldBack(s, colon, e.value, slash);
  }

  lemma {:induction false} EntriesBack(v: Json, k: nat, slash: bool, s: string, i: nat)
    requires v.Dict? && k < |v.entries| && Proper(v) && At(s, i, WrittenEntries(v, k, slash) + "}")
    requires forall j | 0 <= j < k :: IsText(v.entries[j].key)
    ensures Fields(s, i, PlainEntries(v, k))
         == if EntriesHaveTextKeys(v, k) then
              Got(Dict(PlainEntries(v, |v.entries|)), i + |WrittenEntries(v, k, slash)| + 1)
            else Bad
    decreases v, 1, |v.entries| - k + 1
  {
    hide Space, Value, Written, WrittenEntries, At, IsSpace, Stops, Put, FieldValue, Plain, KeysAreText;
    var e := v.entries[k];
    var next := i + |Written(e.key, slash)| + 1 + |Written(e.value, slash)|;
    EntryParts(v, k, slash, s, i);
    EntryBack(v, k, slash, s, i);
    StopsAtMark(s, next);
    if IsText(e.key) {
      KeyIsNew(v, k);
      PutNew(PlainEntries(v, k), Plain(e.key), Plain(e.value));
      assert PlainEntries(v, k) + [Entry(Plain(e.key), Plain(e.value))] == PlainEntries(v, k + 1);
      if k + 1 < |v.entries| {
        EntriesBack(v, k + 1, slash, s, next + 1);
      }
    }
  }

  lemma FieldBack(s: string, i: nat, v: Json, slash: bool)
    requires i < |s| && s[i] == ':' && At(s, i + 1, Written(v, slash))
    ensures FieldValue(s, i) == Value(s, i + 1)
  {
    hide Value, Written;
    FirstChar(v, slash);
    assert s[i + 1] == Written(v, slash)[0];
    NoSpace(s, i + 1);
    NoSpace(s, i);
  }

  /** Reading what the writer wrote, with or without escaped slashes, succeeds if and only if all keys are strings,
      and gives back the value itself if and only if, moreover, it has no unicode string, no tuple, and no float with
      more than six digits after the point. */
  lemma RoundTrip(v: Json, slash: bool)
    requires Proper(v)
    ensures Value(Written(v, slash), 0) == if KeysAreText(v) then Got(Plain(v), |Written(v, slash)|) else Bad
    ensures Value(Written(v, slash), 0) == Got(v, |Written(v, slash)|) <==> KeysAreText(v) && Survives(v)
  {
    hide Written, Value, Plain, Survives, KeysAreText;
    var w := Written(v, slash);
    assert w[0..|w|] == w;
    ReadBack(v, slash, w, 0);
    PlainIffSurvives(v);
  }
}
