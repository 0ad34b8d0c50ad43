/** The JSON writer and reader of the tools: what is written for a value, what is read from a text, and that reading
    undoes writing. */
module LocalJson {

  /** A dictionary is the list of its items in the order it yields them. */
  datatype Json =
    | Null
    | Bool(b: bool)
    | Int(i: int)
    | Float(x: real)
    | Str(s: string)
    | Unicode(s: string)
    | List(items: seq<Json>)
    | Tuple(items: seq<Json>)
    | Dict(entries: seq<Entry>)

  datatype Entry = Entry(key: Json, value: Json)

  predicate IsText(v: Json) {
    v.Str? || v.Unicode?
  }

  predicate DistinctKeys(entries: seq<Entry>) {
    forall i, j | 0 <= i < j < |entries| ::
      IsText(entries[i].key) && IsText(entries[j].key) ==> entries[i].key.s != entries[j].key.s
  }

  /** No dictionary, at any depth, has the same key twice. */
  predicate Proper(v: Json) {
    match v
    case List(items) => forall i | 0 <= i < |items| :: Proper(items[i])
    case Tuple(items) => forall i | 0 <= i < |items| :: Proper(items[i])
    case Dict(entries) =>
      && DistinctKeys(entries)
      && forall i | 0 <= i < |entries| :: Proper(entries[i].key) && Proper(entries[i].value)
    case _ => true
  }

  predicate Ascii(s: string) {
    forall i | 0 <= i < |s| :: s[i] < 128 as char
  }

  /** The writer's buffer takes unicode strings only if they are plain ASCII. */
  predicate Encodable(v: Json) {
    match v
    case Unicode(s) => Ascii(s)
    case List(items) => forall i | 0 <= i < |items| :: Encodable(items[i])
    case Tuple(items) => forall i | 0 <= i < |items| :: Encodable(items[i])
    case Dict(entries) => forall i | 0 <= i < |entries| :: Encodable(entries[i].key) && Encodable(entries[i].value)
    case _ => true
  }

  const BACKSPACE: char := '\U{8}'
  const FORMFEED: char := '\U{c}'
  const VERTICAL_TAB: char := '\U{b}'

  // ---------- writing ----------

  /** Every occurrence of c replaced by t. */
  function Replace(s: string, c: char, t: string): string {
    if s == "" then "" else (if s[0] == c then t else [s[0]]) + Replace(s[1..], c, t)
  }

  /** The writer's replacements, one after the other over the whole string. */
  function ReplaceInTurn(s: string, slash: bool): string {
    var s1 := Replace(s, '\\', "\\\\");
    var s2 := if slash then Replace(s1, '/', "\\/") else s1;
    var s3 := Replace(s2, '\"', "\\\"");
    var s4 := Replace(s3, BACKSPACE, "\\b");
    var s5 := Replace(s4, FORMFEED, "\\f");
    var s6 := Replace(s5, '\n', "\\n");
    var s7 := Replace(s6, '\r', "\\r");
    Replace(s7, '\t', "\\t")
  }

  /** How a single character is written. */
  function Escape(c: char, slash: bool): string {
    if c == '\\' then "\\\\"
    else if c == '/' && slash then "\\/"
    else if c == '\"' then "\\\""
    else if c == BACKSPACE then "\\b"
    else if c == FORMFEED then "\\f"
    else if c == '\n' then "\\n"
    else if c == '\r' then "\\r"
    else if c == '\t' then "\\t"
    else [c]
  }

  function EscapeAll(s: string, slash: bool): string {
    if s == "" then "" else Escape(s[0], slash) + EscapeAll(s[1..], slash)
  }

  lemma {:induction false} ReplaceConcat(a: string, b: string, c: char, t: string)
    ensures Replace(a + b, c, t) == Replace(a, c, t) + Replace(b, c, t)
  {
    if a == "" {
      assert a + b == b;
    } else {
      assert (a + b)[1..] == a[1..] + b;
      ReplaceConcat(a[1..], b, c, t);
    }
  }

  lemma ReplaceInTurnConcat(a: string, b: string, slash: bool)
    ensures ReplaceInTurn(a + b, slash) == ReplaceInTurn(a, slash) + ReplaceInTurn(b, slash)
  {
    hide Replace;
    ReplaceConcat(a, b, '\\', "\\\\");
    var a1, b1 := Replace(a, '\\', "\\\\"), Replace(b, '\\', "\\\\");
    ReplaceConcat(a1, b1, '/', "\\/");
    var a2, b2 := if slash then Replace(a1, '/', "\\/") else a1, if slash then Replace(b1, '/', "\\/") else b1;
    ReplaceConcat(a2, b2, '\"', "\\\"");
    var a3, b3 := Replace(a2, '\"', "\\\""), Replace(b2, '\"', "\\\"");
    ReplaceConcat(a3, b3, BACKSPACE, "\\b");
    var a4, b4 := Replace(a3, BACKSPACE, "\\b"), Replace(b3, BACKSPACE, "\\b");
    ReplaceConcat(a4, b4, FORMFEED, "\\f");
    var a5, b5 := Replace(a4, FORMFEED, "\\f"), Replace(b4, FORMFEED, "\\f");
    ReplaceConcat(a5, b5, '\n', "\\n");
    var a6, b6 := Replace(a5, '\n', "\\n"), Replace(b5, '\n', "\\n");
    ReplaceConcat(a6, b6, '\r', "\\r");
    var a7, b7 := Replace(a6, '\r', "\\r"), Replace(b6, '\r', "\\r");
    ReplaceConcat(a7, b7, '\t', "\\t");
  }

  lemma ReplaceOne(x: char, c: char, t: string)
    ensures Replace([x], c, t) == if x == c then t else [x]
  {
    assert Replace([x], c, t) == (if x == c then t else [x]) + Replace([x][1..], c, t);
  }

  lemma ReplaceTwo(x: char, y: char, c: char, t: string)
    requires x != c && y != c
    ensures Replace([x, y], c, t) == [x, y]
  {
    ReplaceConcat([x], [y], c, t);
    ReplaceOne(x, c, t);
    ReplaceOne(y, c, t);
    assert [x, y] == [x] + [y];
  }

  /** On one character the chain of replacements touches what it finds once only. */
  lemma ReplaceInTurnOne(c: char, slash: bool)
    ensures ReplaceInTurn([c], slash) == Escape(c, slash)
  {
    hide Replace;
    forall x: char, t: string ensures Replace([c], x, t) == if c == x then t else [c] {
      ReplaceOne(c, x, t);
    }
    forall y: char, x: char, t: string | x != '\\' && x != y ensures Replace(['\\', y], x, t) == ['\\', y] {
      ReplaceTwo('\\', y, x, t);
    }
  }

  /** The chain of global replacements is one escape per character. */
  lemma {:induction false} ChainIsEscape(s: string, slash: bool)
    ensures ReplaceInTurn(s, slash) == EscapeAll(s, slash)
  {
    hide ReplaceInTurn, Escape;
    if s == "" {
      ReplaceNothing(slash);
    } else {
      ReplaceInTurnOne(s[0], slash);
      ReplaceInTurnConcat([s[0]], s[1..], slash);
      assert s == [s[0]] + s[1..];
      ChainIsEscape(s[1..], slash);
    }
  }

  lemma ReplaceNothing(slash: bool)
    ensures ReplaceInTurn("", slash) == ""
  {
  }

  function Decimal(n: nat): (s: string)
    ensures s != ""
  {
    var digit := (n % 10) as char + '0';
    if n < 10 then [digit] else Decimal(n / 10) + [digit]
  }

  function IntText(i: int): string {
    if i < 0 then "-" + Decimal(-i) else Decimal(i)
  }

  /** To the nearest integer, ties to the even one. */
  function Round(y: real): nat
    requires y >= 0.0
  {
    var f := y.Floor;
    var rest := y - f as real;
    if rest < 0.5 || (rest == 0.5 && f % 2 == 0) then f else f + 1
  }

  const MICRO: nat := 1000000

  function Micros(x: real): nat {
    Round((if x < 0.0 then -x else x) * 1000000.0)
  }

  /** The last digits of a number, with leading zeros. */
  function Fixed(n: nat, width: nat): (s: string)
    ensures |s| == width
  {
    if width == 0 then "" else Fixed(n / 10, width - 1) + [(n % 10) as char + '0']
  }

  /** A number with six digits after the point. */
  function FloatText(x: real): string {
    (if x < 0.0 then "-" else "") + (Decimal(Micros(x) / MICRO) + "." + Fixed(Micros(x) % MICRO, 6))
  }

  function Quoted(s: string, slash: bool): string {
    "\"" + EscapeAll(s, slash) + "\""
  }

  function Written(v: Json, slash: bool): string
    decreases v, 2, 0
  {
    match v
    case Null => "null"
    case Bool(b) => if b then "true" else "false"
    case Int(i) => IntText(i)
    case Float(x) => FloatText(x)
    case Str(s) => Quoted(s, slash)
    case Unicode(s) => Quoted(s, slash)
    case List(_) => "[" + WrittenItems(v, 0, slash) + "]"
    case Tuple(_) => "[" + WrittenItems(v, 0, slash) + "]"
    case Dict(_) => "{" + WrittenEntries(v, 0, slash) + "}"
  }

  /** The items from k on, with commas between them. */
  function WrittenItems(v: Json, k: nat, slash: bool): string
    requires (v.List? || v.Tuple?) && k <= |v.items|
    decreases v, 1, |v.items| - k
  {
    if k == |v.items| then ""
    else Written(v.items[k], slash) + (if k + 1 < |v.items| then "," else "") + WrittenItems(v, k + 1, slash)
  }

  function WrittenEntries(v: Json, k: nat, slash: bool): string
    requires v.Dict? && k <= |v.entries|
    decreases v, 1, |v.entries| - k
  {
    if k == |v.entries| then ""
    else
      Written(v.entries[k].key, slash) + ":" + Written(v.entries[k].value, slash)
      + (if k + 1 < |v.entries| then "," else "") + WrittenEntries(v, k + 1, slash)
  }

  // ---------- what writing keeps ----------

  function Rounded(x: real): real {
    var y := Micros(x) as real / 1000000.0;
    if x < 0.0 then -y else y
  }

  /** What is left of a value in its text: floats have six digits after the point, unicode strings are strings, and
      tuples are lists. */
  function Plain(v: Json): (r: Json)
    ensures IsText(v) <==> r.Str?
  {
    match v
    case Float(x) => Float(Rounded(x))
    case Unicode(s) => Str(s)
    case List(items) => List(seq(|items|, i requires 0 <= i < |items| => Plain(items[i])))
    case Tuple(items) => List(seq(|items|, i requires 0 <= i < |items| => Plain(items[i])))
    case Dict(entries) =>
      Dict(seq(|entries|, i requires 0 <= i < |entries| => Entry(Plain(entries[i].key), Plain(entries[i].value))))
    case _ => v
  }

  /** No unicode string, no tuple, and no float with more than six digits after the point, at any depth. */
  predicate Survives(v: Json) {
    match v
    case Float(x) => (x * 1000000.0).Floor as real == x * 1000000.0
    case Unicode(_) => false
    case List(items) => forall i | 0 <= i < |items| :: Survives(items[i])
    case Tuple(_) => false
    case Dict(entries) => forall i | 0 <= i < |entries| :: Survives(entries[i].key) && Survives(entries[i].value)
    case _ => true
  }

  /** All keys of all dictionaries are strings. */
  predicate KeysAreText(v: Json) {
    match v
    case List(items) => forall i | 0 <= i < |items| :: KeysAreText(items[i])
    case Tuple(items) => forall i | 0 <= i < |items| :: KeysAreText(items[i])
    case Dict(entries) => forall i | 0 <= i < |entries| :: IsText(entries[i].key) && KeysAreText(entries[i].value)
    case _ => true
  }

  lemma WholeMicros(x: real)
    ensures Rounded(x) == x <==> (x * 1000000.0).Floor as real == x * 1000000.0
  {
    var y := x * 1000000.0;
    if x < 0.0 {
      assert -x * 1000000.0 == -y;
      if y.Floor as real == y {
        assert (-y).Floor == -y.Floor;
      }
    }
  }

  lemma {:induction false} PlainIffSurvives(v: Json)
    ensures Plain(v) == v <==> Survives(v)
  {
    match v
    case Float(x) => WholeMicros(x);
    case List(items) =>
      forall i | 0 <= i < |items| ensures Plain(items[i]) == items[i] <==> Survives(items[i]) {
        PlainIffSurvives(items[i]);
      }
      SameItems(items, Plain(v).items);
    case Dict(entries) =>
      forall i | 0 <= i < |entries|
        ensures Plain(v).entries[i] == entries[i] <==> Survives(entries[i].key) && Survives(entries[i].value)
      {
        PlainIffSurvives(entries[i].key);
        PlainIffSurvives(entries[i].value);
      }
      SameItems(entries, Plain(v).entries);
    case _ =>
  }

  lemma SameItems<T>(a: seq<T>, b: seq<T>)
    requires |a| == |b|
    ensures a == b <==> forall i | 0 <= i < |a| :: b[i] == a[i]
  {
  }
}
