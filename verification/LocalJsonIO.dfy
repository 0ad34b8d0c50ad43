/** The JSON writer, which appends to a buffer, and the JSON reader, which moves an index over its text. */
module LocalJsonIO {
  import opened Helpers
  import opened LocalJson
  import opened LocalJsonText

  class JsonWriter {
    var results: string
    const escapedForwardSlash: bool

    constructor (escapedForwardSlash: bool)
      ensures results == "" && this.escapedForwardSlash == escapedForwardSlash
    {
      results, this.escapedForwardSlash := "", escapedForwardSlash;
    }

    method WriteString(s: string)
      modifies `results
      ensures results == old(results) + Quoted(s, escapedForwardSlash)
    {
      ChainIsEscape(s, escapedForwardSlash);
      hide Replace;
      results := results + "\"";
      var obj := Replace(s, '\\', "\\\\");
      if escapedForwardSlash {
        obj := Replace(obj, '/', "\\/");
      }
      obj := Replace(obj, '\"', "\\\"");
      obj := Replace(obj, BACKSPACE, "\\b");
      obj := Replace(obj, FORMFEED, "\\f");
      obj := Replace(obj, '\n', "\\n");
      obj := Replace(obj, '\r', "\\r");
      obj := Replace(obj, '\t', "\\t");
      assert obj == EscapeAll(s, escapedForwardSlash);
      results := results + obj + "\"";
    }

    /** Writes a value; the exception comes from a unicode string that is not plain ASCII. */
    method Write(v: Json) returns (ok: bool)
      modifies `results
      ensures ok <==> Encodable(v)
      ensures ok ==> results == old(results) + Written(v, escapedForwardSlash)
      decreases v
    {
      hide Quoted, IntText, FloatText, WrittenItems, WrittenEntries, Ascii;
      ok := true;
      match v
      case Dict(_) => ok := WriteDict(v);
      case List(_) => ok := WriteList(v);
      case Tuple(_) => ok := WriteList(v);
      case Str(s) => WriteString(s);
      case Unicode(s) =>
        ok := Ascii(s);
        if ok {
          WriteString(s);
        }
      case Int(i) => results := results + IntText(i);
      case Float(x) => results := results + FloatText(x);
      case Bool(b) => results := results + if b then "true" else "false";
      case Null => results := results + "null";
    }

    method WriteList(v: Json) returns (ok: bool)
      requires IsList(v)
      modifies `results
      ensures ok <==> forall i | 0 <= i < |v.items| :: Encodable(v.items[i])
      ensures ok ==> results == old(results) + Written(v, escapedForwardSlash)
      decreases v, 1
    {
      BracketItems(v, escapedForwardSlash);
      hide Written, Encodable, WrittenItems;
      results := results + "[";
      ok := WriteItems(v);
      results := results + "]";
    }

    method WriteItems(v: Json) returns (ok: bool)
      requires IsList(v)
      modifies `results
      ensures ok <==> forall i | 0 <= i < |v.items| :: Encodable(v.items[i])
      ensures ok ==> results == old(results) + WrittenItems(v, 0, escapedForwardSlash)
      decreases v, 0
    {
      hide Written, Encodable;
      var k := 0;
      while k < |v.items|
        invariant k <= |v.items|
        invariant forall i | 0 <= i < k :: Encodable(v.items[i])
        invariant results + WrittenItems(v, k, escapedForwardSlash)
            == old(results) + WrittenItems(v, 0, escapedForwardSlash)
      {
        ok := Write(v.items[k]);
        if !ok {
          return;
        }
        if k + 1 < |v.items| {
          results := results + ",";
        }
        k := k + 1;
      }
      ok := true;
    }

    method WriteDict(v: Json) returns (ok: bool)
      requires v.Dict?
      modifies `results
      ensures ok <==> forall i | 0 <= i < |v.entries| :: Encodable(v.entries[i].key) && Encodable(v.entries[i].value)
      ensures ok ==> results == old(results) + Written(v, escapedForwardSlash)
      decreases v, 2
    {
      BracketEntries(v, escapedForwardSlash);
      hide Written, Encodable, WrittenEntries;
      results := results + "{";
      ok := WriteEntries(v);
      results := results + "}";
    }

    method WriteEntries(v: Json) returns (ok: bool)
      requires v.Dict?
      modifies `results
      ensures ok <==> forall i | 0 <= i < |v.entries| :: Encodable(v.entries[i].key) && Encodable(v.entries[i].value)
      ensures ok ==> results == old(results) + WrittenEntries(v, 0, escapedForwardSlash)
      decreases v, 1
    {
      hide Written, WrittenEntries, Encodable, EntryText;
      var k := 0;
      ghost var done := "";
      assert done + WrittenEntries(v, 0, escapedForwardSlash) == WrittenEntries(v, 0, escapedForwardSlash);
      while k < |v.entries|
        invariant k <= |v.entries|
        invariant forall i | 0 <= i < k :: Encodable(v.entries[i].key) && Encodable(v.entries[i].value)
        invariant results == old(results) + done
        invariant done + WrittenEntries(v, k, escapedForwardSlash) == WrittenEntries(v, 0, escapedForwardSlash)
      {
        ghost var here, rest := EntryText(v, k, escapedForwardSlash), WrittenEntries(v, k + 1, escapedForwardSlash);
        NextEntry(v, k, escapedForwardSlash);
        ok := WriteEntry(v, k);
        if !ok {
          return;
        }
        assert done + (here + rest) == (done + here) + rest;
        assert (old(results) + done) + here == old(results) + (done + here);
        k, done := k + 1, done + here;
      }
      NoEntries(v, escapedForwardSlash);
      assert done + "" == done;
      ok := true;
    }

    /** A key, a colon, a value, and a comma if more entries follow. */
    method WriteEntry(v: Json, k: nat) returns (ok: bool)
      requires v.Dict? && k < |v.entries|
      modifies `results
      ensures ok <==> Encodable(v.entries[k].key) && Encodable(v.entries[k].value)
      ensures ok ==> results == old(results) + EntryText(v, k, escapedForwardSlash)
      decreases v, 0
    {
      hide Written, Encodable;
      ok := Write(v.entries[k].key);
      if !ok {
        return;
      }
      results := results + ":";
      ok := Write(v.entries[k].value);
      if ok && k + 1 < |v.entries| {
        results := results + ",";
      }
    }
  }

  /** A result, an exception, or a number with an exponent. */
  datatype Result<T> = Ok(value: T) | Raised | HasExponent

  class JsonReader {
    const text: string
    var index: int

    predicate Valid()
      reads `index
    {
      -1 <= index
    }

    /** The position of the character that comes next. */
    function Pos(): nat
      requires Valid()
      reads `index
    {
      index + 1
    }

    constructor (text: string)
      ensures this.text == text && Valid() && Pos() == 0
    {
      this.text, index := text, -1;
    }

    /** What a reading method did is what the text means at the position where it began. */
    ghost predicate Did<T>(r: Result<T>, p: Parse<T>)
      requires Valid()
      reads `index
    {
      match p
      case Got(value, next) => r == Ok(value) && Pos() == next
      case Bad => r.Raised?
      case Scaled => r.HasExponent?
    }

    function Peek(): (r: Option<char>)
      requires Valid()
      reads `index
    {
      if index + 1 < |text| then Some(text[index + 1]) else None
    }

    method Next() returns (r: Option<char>)
      requires Valid()
      modifies `index
      ensures Valid() && Pos() == old(Pos()) + 1 && r == old(Peek())
    {
      index := index + 1;
      r := if index < |text| then Some(text[index]) else None;
    }

    method Putback()
      requires Valid() && index >= 0
      modifies `index
      ensures Valid() && Pos() == old(Pos()) - 1
    {
      index := index - 1;
    }

    method ReadDoubleSolidusComment()
      requires Valid()
      modifies `index
      ensures Valid() && Pos() == LineEnd(text, old(Pos()))
    {
      var ch := Next();
      while ch.Some? && ch.value != '\r' && ch.value != '\n'
        invariant Valid() && Pos() > 0
        invariant ch == if Pos() - 1 < |text| then Some(text[Pos() - 1]) else None
        invariant LineEnd(text, Pos() - 1) == LineEnd(text, old(Pos()))
        decreases Remaining(text, Pos() - 1)
      {
        ch := Next();
      }
    }

    method ReadCStyleComment() returns (r: Result<()>)
      requires Valid()
      modifies `index
      ensures Valid() && Did(r, BlockEnd(text, old(Pos())))
    {
      var done := false;
      while !done
        invariant Valid()
        invariant !done ==> BlockEnd(text, Pos()) == BlockEnd(text, old(Pos()))
        invariant done ==> BlockEnd(text, old(Pos())) == Got((), Pos() + 1)
        decreases !done, Remaining(text, Pos())
      {
        var ch := Next();
        if ch.None? {
          return Raised;
        }
        done := ch.value == '*' && Peek() == Some('/');
        if !done && ch.value == '/' && Peek() == Some('*') {
          return Raised;
        }
      }
      var last := Next();
      r := Ok(());
    }

    method ReadComment() returns (r: Result<()>)
      requires Valid() && Peek() == Some('/')
      modifies `index
      ensures Valid() && Did(r, Comment(text, old(Pos())))
    {
      var first := Next();
      var second := Next();
      if second == Some('/') {
        ReadDoubleSolidusComment();
        r := Ok(());
      } else if second == Some('*') {
        r := ReadCStyleComment();
      } else {
        r := Raised;
      }
    }

    method EatWhitespace() returns (r: Result<()>)
      requires Valid()
      modifies `index
      ensures Valid() && Did(r, Space(text, old(Pos())))
    {
      hide Comment;
      while Peek().Some? && (IsSpace(Peek().value) || Peek() == Some('/'))
        invariant Valid()
        invariant Space(text, Pos()) == Space(text, old(Pos()))
        decreases Remaining(text, Pos())
      {
        if Peek() == Some('/') {
          var comment := ReadComment();
          if !comment.Ok? {
            return Raised;
          }
        } else {
          var ch := Next();
        }
      }
      r := Ok(());
    }

    /** Reads a number: a sign or a digit, then digits and points. */
    method ReadNumber() returns (r: Result<Json>)
      requires Valid() && Pos() < |text| && (text[Pos()] == '-' || IsDigit(text[Pos()]))
      modifies `index
      ensures Valid() && Did(r, Number(text, old(Pos())))
    {
      hide NumberValue;
      ghost var start := Pos();
      var first := Next();
      var result := [first.value];
      while Peek().Some? && InNumber(Peek().value)
        invariant Valid() && start < Pos() <= |text| && result == text[start..Pos()]
        invariant NumberEnd(text, Pos()) == NumberEnd(text, start + 1)
        decreases Remaining(text, Pos())
      {
        var ch := Next();
        result := result + [ch.value];
      }
      if Peek() == Some('e') {
        return HasExponent;
      }
      var v := NumberValue(result);
      r := if v.Some? then Ok(v.value) else Raised;
    }

    /** Reads a fixed word character by character. */
    method ReadWord(w: string, v: Json) returns (r: Result<Json>)
      requires Valid() && w != ""
      modifies `index
      ensures Valid() && Did(r, Word(text, old(Pos()), w, v))
    {
      ghost var start := Pos();
      var k := 0;
      while k < |w|
        invariant Valid() && k <= |w| && Pos() == start + k
        invariant start + k <= |text| || k == 0
        invariant k > 0 ==> text[start..start + k] == w[..k]
      {
        var ch := Next();
        if ch != Some(w[k]) {
          assert start + |w| <= |text| ==> text[start..start + |w|][k] != w[k];
          return Raised;
        }
        assert text[start..start + k + 1] == text[start..start + k] + [w[k]];
        assert w[..k + 1] == w[..k] + [w[k]];
        k := k + 1;
      }
      assert w[..|w|] == w;
      r := Ok(v);
    }

    method ReadHexDigit() returns (r: Result<nat>)
      requires Valid()
      modifies `index
      ensures Valid() && Pos() == old(Pos()) + 1
      ensures r == if old(Peek()).Some? && Hex(old(Peek()).value) >= 0 then Ok(Hex(old(Peek()).value)) else Raised
    {
      var ch := Next();
      r := if ch.Some? && Hex(ch.value) >= 0 then Ok(Hex(ch.value)) else Raised;
    }

    /** Reads what follows a backslash. */
    method ReadEscape() returns (r: Result<char>)
      requires Valid()
      modifies `index
      ensures Valid() && Did(r, Escaped(text, old(Pos())))
    {
      var ch := Next();
      if ch.None? {
        return Raised;
      }
      match ch.value
      case 'b' => r := Ok(BACKSPACE);
      case 'r' => r := Ok('\r');
      case 'n' => r := Ok('\n');
      case 'f' => r := Ok(FORMFEED);
      case 't' => r := Ok('\t');
      case 'u' =>
        var ch4096 := ReadHexDigit();
        var ch256 := ReadHexDigit();
        var ch16 := ReadHexDigit();
        var ch1 := ReadHexDigit();
        if !ch4096.Ok? || !ch256.Ok? || !ch16.Ok? || !ch1.Ok? {
          return Raised;
        }
        var n := 4096 * ch4096.value + 256 * ch256.value + 16 * ch16.value + ch1.value;
        r := if n < 128 then Ok(n as char) else Raised;
      case c => r := if c == '\"' || c == '/' || c == '\\' then Ok(c) else Raised;
    }

    method ReadString() returns (r: Result<string>)
      requires Valid() && Peek() == Some('\"')
      modifies `index
      ensures Valid() && Did(r, Chars(text, old(Pos()) + 1))
    {
      hide Escaped, Chars;
      var quote := Next();
      ghost var start := Pos();
      var result := "";
      CharsGlueNothing(text, start);
      while true
        invariant Valid() && Glue(result, Chars(text, Pos())) == Chars(text, start)
        decreases Remaining(text, Pos())
      {
        CharsNext(text, Pos(), result);
        ghost var here := Pos();
        var ch := Next();
        if ch.None? {
          return Raised;
        }
        if ch.value == '\"' {
          Putback();
          break;
        }
        var c := ch.value;
        if c == '\\' {
          var escaped := ReadEscape();
          if !escaped.Ok? {
            return Raised;
          }
          c := escaped.value;
        }
        result := result + [c];
      }
      var closing := Next();
      r := Ok(result);
    }

    /** Reads any value. */
    method Read() returns (r: Result<Json>)
      requires Valid()
      modifies `index
      ensures Valid() && Did(r, Value(text, old(Pos())))
      decreases Remaining(text, Pos()), 2
    {
      hide Space, Elements, Fields, Number, Word, Chars;
      var space := EatWhitespace();
      if !space.Ok? || Peek().None? {
        return Raised;
      }
      var ch := Peek().value;
      if ch == '{' {
        r := ReadObject();
      } else if ch == '[' {
        r := ReadArray();
      } else if ch == '\"' {
        var str := ReadString();
        r := if str.Ok? then Ok(Str(str.value)) else Raised;
      } else if ch == '-' || IsDigit(ch) {
        r := ReadNumber();
      } else if ch == 't' {
        r := ReadWord("true", Bool(true));
      } else if ch == 'f' {
        r := ReadWord("false", Bool(false));
      } else if ch == 'n' {
        r := ReadWord("null", Null);
      } else {
        r := Raised;
      }
    }

    method ReadArray() returns (r: Result<Json>)
      requires Valid() && Peek() == Some('[')
      modifies `index
      ensures Valid() && Did(r, ListAt(text, old(Pos())))
      decreases Remaining(text, Pos()), 1
    {
      hide Space, Value;
      ghost var start := Pos();
      var items: seq<Json> := [];
      var bracket := Next();
      var done := Peek() == Some(']');
      while !done
        invariant Valid() && Pos() > start
        invariant !done ==> Elements(text, Pos(), items) == ListAt(text, start)
        invariant done ==> Pos() < |text| && text[Pos()] == ']' && ListAt(text, start) == Got(List(items), Pos() + 1)
        decreases !done, Remaining(text, Pos())
      {
        var item := Read();
        if !item.Ok? {
          return if item.Raised? then Raised else HasExponent;
        }
        items := items + [item.value];
        var space := EatWhitespace();
        if !space.Ok? {
          return Raised;
        }
        done := Peek() == Some(']');
        if !done {
          var ch := Next();
          if ch != Some(',') {
            return Raised;
          }
        }
      }
      var closing := Next();
      r := Ok(List(items));
    }

    method ReadObject() returns (r: Result<Json>)
      requires Valid() && Peek() == Some('{')
      modifies `index
      ensures Valid() && Did(r, DictAt(text, old(Pos())))
      decreases Remaining(text, Pos()), 1
    {
      hide Space, Value, FieldValue, Put;
      ghost var start := Pos();
      var entries: seq<Entry> := [];
      var brace := Next();
      var done := Peek() == Some('}');
      while !done
        invariant Valid() && Pos() > start
        invariant !done ==> Fields(text, Pos(), entries) == DictAt(text, start)
        invariant done ==> Pos() < |text| && text[Pos()] == '}' && DictAt(text, start) == Got(Dict(entries), Pos() + 1)
        decreases !done, Remaining(text, Pos())
      {
        var key := Read();
        if !key.Ok? {
          return if key.Raised? then Raised else HasExponent;
        }
        if !key.value.Str? {
          return Raised;
        }
        var value := ReadFieldValue();
        if !value.Ok? {
          return if value.Raised? then Raised else HasExponent;
        }
        entries := Put(entries, key.value, value.value);
        var space := EatWhitespace();
        if !space.Ok? {
          return Raised;
        }
        done := Peek() == Some('}');
        if !done {
          var ch := Next();
          if ch != Some(',') {
            return Raised;
          }
        }
      }
      var closing := Next();
      r := Ok(Dict(entries));
    }

    /** Reads the colon and the value of a dictionary entry. */
    method ReadFieldValue() returns (r: Result<Json>)
      requires Valid()
      modifies `index
      ensures Valid() && Did(r, FieldValue(text, old(Pos())))
      decreases Remaining(text, Pos()), 3
    {
      hide Space, Value;
      var space := EatWhitespace();
      if !space.Ok? {
        return Raised;
      }
      var ch := Next();
      if ch != Some(':') {
        return Raised;
      }
      space := EatWhitespace();
      if !space.Ok? {
        return Raised;
      }
      r := Read();
    }
  }

  /** What the brackets at position i enclose. */
  function ListAt(s: string, i: nat): Parse<Json> {
    if i + 1 < |s| && s[i + 1] == ']' then Got(List([]), i + 2) else Elements(s, i + 1, [])
  }

  function DictAt(s: string, i: nat): Parse<Json> {
    if i + 1 < |s| && s[i + 1] == '}' then Got(Dict([]), i + 2) else Fields(s, i + 1, [])
  }

  ghost function Glue(done: string, p: Parse<string>): Parse<string> {
    if p.Got? then Got(done + p.value, p.next) else p
  }

  lemma CharsGlueNothing(s: string, i: nat)
    ensures Glue("", Chars(s, i)) == Chars(s, i)
  {
    assert Chars(s, i).Got? ==> "" + Chars(s, i).value == Chars(s, i).value;
  }

  /** One character of a string at a time. */
  lemma CharsNext(s: string, i: nat, done: string)
    ensures var all := Glue(done, Chars(s, i));
      if i >= |s| then all == Bad
      else if s[i] == '\"' then all == Got(done, i + 1)
      else
        var first := if s[i] == '\\' then Escaped(s, i + 1) else Got(s[i], i + 1);
        if first.Got? then all == Glue(done + [first.value], Chars(s, first.next)) else all == Bad
  {
    hide Escaped;
    if i < |s| && s[i] == '\"' {
      assert done + "" == done;
    } else if i < |s| {
      var first := if s[i] == '\\' then Escaped(s, i + 1) else Got(s[i], i + 1);
      if first.Got? && Chars(s, first.next).Got? {
        assert done + ([first.value] + Chars(s, first.next).value)
            == (done + [first.value]) + Chars(s, first.next).value;
      }
    }
  }

  function EntryText(v: Json, k: nat, slash: bool): string
    requires v.Dict? && k < |v.entries|
  {
    Written(v.entries[k].key, slash) + ":" + Written(v.entries[k].value, slash)
    + if k + 1 < |v.entries| then "," else ""
  }

  lemma BracketItems(v: Json, slash: bool)
    requires IsList(v)
    ensures Written(v, slash) == "[" + WrittenItems(v, 0, slash) + "]"
  {
  }

  lemma BracketEntries(v: Json, slash: bool)
    requires v.Dict?
    ensures Written(v, slash) == "{" + WrittenEntries(v, 0, slash) + "}"
  {
  }

  lemma NextEntry(v: Json, k: nat, slash: bool)
    requires v.Dict? && k < |v.entries|
    ensures WrittenEntries(v, k, slash) == EntryText(v, k, slash) + WrittenEntries(v, k + 1, slash)
  {
    hide Written;
  }

  lemma NoEntries(v: Json, slash: bool)
    requires v.Dict?
    ensures WrittenEntries(v, |v.entries|, slash) == ""
  {
  }

  /** Writes a value and reads its text: the writer raises an exception if and only if a unicode string is not plain
      ASCII; otherwise the reader does if and only if a key is not a string; and what comes back is the value itself
      if and only if it has no unicode string, no tuple, and no float with more than six digits after the point. */
  method WriteThenRead(v: Json, escapedForwardSlash: bool) returns (wrote: bool, r: Result<Json>)
    requires Proper(v)
    ensures wrote <==> Encodable(v)
    ensures wrote ==> r == if KeysAreText(v) then Ok(Plain(v)) else Raised
    ensures wrote ==> (r == Ok(v) <==> KeysAreText(v) && Survives(v))
  {
    hide Value, Written, Plain, Survives, KeysAreText, Encodable, Proper;
    r := Raised;
    var writer := new JsonWriter(escapedForwardSlash);
    wrote := writer.Write(v);
    if wrote {
      assert "" + Written(v, escapedForwardSlash) == Written(v, escapedForwardSlash);
      RoundTrip(v, escapedForwardSlash);
      PlainIffSurvives(v);
      var reader := new JsonReader(writer.results);
      r := reader.Read();
    }
  }
}
