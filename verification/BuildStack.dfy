/** Merging measured values into a stack of components: what is too small, or unknown, goes to "other". */
module BuildStack {

  type Values = map<string, real>

  /** A component that collects some keys, or a sub-stack. */
  datatype Item =
    | Component(name: string, threshold: real, keys: seq<string>)
    | SubStack(name: string, threshold: real, items: seq<Item>)

  datatype Entry = Entry(name: string, value: real)

  // ---------- sums ----------

  ghost function Total(m: Values): real {
    if m == map[] then 0.0 else
      var k :| k in m;
      m[k] + Total(m - {k})
  }

  lemma {:induction false} TotalWithout(m: Values, k: string)
    requires k in m
    ensures Total(m) == m[k] + Total(m - {k})
    decreases |m|
  {
    var j :| j in m && Total(m) == m[j] + Total(m - {j});
    if j != k {
      TotalWithout(m - {j}, k);
      TotalWithout(m - {k}, j);
      assert m - {j} - {k} == m - {k} - {j};
    }
  }

  function Listed(res: seq<Entry>): real {
    if res == [] then 0.0 else Listed(res[..|res| - 1]) + res[|res| - 1].value
  }

  lemma {:induction false} ListedConcat(a: seq<Entry>, b: seq<Entry>)
    ensures Listed(a + b) == Listed(a) + Listed(b)
  {
    if b == [] {
      assert a + b == a;
    } else {
      assert (a + b)[..|a + b| - 1] == a + b[..|b| - 1];
      ListedConcat(a, b[..|b| - 1]);
    }
  }

  // ---------- which keys the items mention ----------

  function Mentioned(items: seq<Item>): set<string> {
    if items == [] then {} else MentionedBy(items[0]) + Mentioned(items[1..])
  }

  function MentionedBy(item: Item): set<string> {
    match item
    case Component(_, _, keys) => set k | k in keys
    case SubStack(_, _, items) => Mentioned(items)
  }

  lemma {:induction false} MentionedNext(items: seq<Item>, i: nat)
    requires i < |items|
    ensures Mentioned(items[..i + 1]) == Mentioned(items[..i]) + MentionedBy(items[i])
  {
    if i == 0 {
      assert items[..1] == [items[0]];
      assert Mentioned([items[0]]) == MentionedBy(items[0]) + Mentioned([]);
    } else {
      assert items[..i + 1][1..] == items[1..][..i];
      assert items[..i][1..] == items[1..][..i - 1];
      MentionedNext(items[1..], i - 1);
    }
  }

  // ---------- what is to be listed ----------

  /** The values of some of the keys. */
  ghost function Only(m: Values, keys: set<string>): Values {
    map k | k in m && k in keys :: m[k]
  }

  lemma OnlyWithout(m: Values, keys: set<string>, k: string)
    requires k in m
    ensures k in keys ==> k in Only(m, keys) && Only(m, keys)[k] == m[k]
    ensures k in keys ==> Only(m, keys) - {k} == Only(m - {k}, keys) && m - keys == m - {k} - keys
    ensures k !in keys ==> k in m - keys && (m - keys)[k] == m[k]
    ensures k !in keys ==> Only(m, keys) == Only(m - {k}, keys) && m - keys - {k} == m - {k} - keys
  {
  }

  lemma {:induction false} TotalSplit(m: Values, keys: set<string>)
    ensures Total(m) == Total(Only(m, keys)) + Total(m - keys)
    decreases |m|
  {
    if m == map[] {
      assert Only(m, keys) == m - keys == map[];
    } else {
      assert m.Keys != {};
      var k :| k in m;
      TotalWithout(m, k);
      OnlyWithout(m, keys, k);
      hide Only, Total;
      TotalSplit(m - {k}, keys);
      if k in keys {
        TotalWithout(Only(m, keys), k);
      } else {
        TotalWithout(m - keys, k);
      }
    }
  }

  /** What an item is worth when these values are left: all that its keys measure. */
  ghost function Worth(left: Values, item: Item): real {
    Total(Only(left, MentionedBy(item)))
  }

  lemma TakenIsWorth(left: Values, item: Item, taken: real)
    requires taken + Total(left - MentionedBy(item)) == Total(left)
    ensures taken == Worth(left, item)
  {
    TotalSplit(left, MentionedBy(item));
  }

  /** Whether the item's share of the whole exceeds its threshold. */
  ghost predicate Above(left: Values, scale: real, item: Item)
    requires scale != 0.0
  {
    Worth(left, item) / scale > item.threshold
  }

  /** What is left for an item once those before it have taken their values. */
  ghost function LeftAt(values: Values, items: seq<Item>, i: nat): Values
    requires i < |items|
  {
    values - Mentioned(items[..i])
  }

  /** Every item of a stack is too small to be shown by itself. */
  ghost predicate AllSmall(items: seq<Item>, values: Values, scale: real)
    requires scale != 0.0
  {
    forall i | 0 <= i < |items| :: !Above(LeftAt(values, items, i), scale, items[i])
  }

  /** The entries for a list of items, in order. */
  ghost function Shown(prefix: string, items: seq<Item>, values: Values, scale: real, nocollapse: bool): seq<Entry>
    requires scale != 0.0
    decreases items
  {
    if items == [] then [] else
    ShownBy(prefix, items[0], values, scale, nocollapse)
    + Shown(prefix, items[1..], values - MentionedBy(items[0]), scale, nocollapse)
  }

  /** An item that is large enough is shown by itself, or by what it is made of. */
  ghost function ShownBy(prefix: string, item: Item, left: Values, scale: real, nocollapse: bool): seq<Entry>
    requires scale != 0.0
    decreases item
  {
    if !nocollapse && !Above(left, scale, item) then [] else
    match item
    case Component(name, _, _) => [Entry(prefix + name, Worth(left, item))]
    case SubStack(name, _, items) =>
      if !nocollapse && AllSmall(items, left, scale) then [Entry(prefix + name, Worth(left, item))]
      else Shown(prefix + name + "-", items, left, scale, nocollapse)
  }

  lemma {:induction false} ShownNext(prefix: string, items: seq<Item>, values: Values, scale: real, nocollapse: bool,
                                     i: nat)
    requires scale != 0.0 && i < |items|
    ensures Shown(prefix, items[..i + 1], values, scale, nocollapse)
         == Shown(prefix, items[..i], values, scale, nocollapse)
            + ShownBy(prefix, items[i], LeftAt(values, items, i), scale, nocollapse)
  {
    hide ShownBy, MentionedBy;
    if i == 0 {
      assert items[..1] == [items[0]] && items[..0] == [];
      assert Shown(prefix, [items[0]], values, scale, nocollapse)
          == ShownBy(prefix, items[0], values, scale, nocollapse) + [];
      assert values - Mentioned([]) == values;
    } else {
      assert items[..i + 1][1..] == items[1..][..i];
      assert items[..i][1..] == items[1..][..i - 1];
      var later := values - MentionedBy(items[0]);
      ShownNext(prefix, items[1..], later, scale, nocollapse, i - 1);
      assert LeftAt(later, items[1..], i - 1) == LeftAt(values, items, i) by {
        assert Mentioned(items[..i]) == MentionedBy(items[0]) + Mentioned(items[1..][..i - 1]);
      }
    }
  }

  lemma {:induction false} ShownAt(prefix: string, items: seq<Item>, values: Values, scale: real, nocollapse: bool,
                                   i: nat, n: nat)
    requires scale != 0.0 && i < n <= |items|
    ensures var part := ShownBy(prefix, items[i], LeftAt(values, items, i), scale, nocollapse);
      (part != [] ==> Shown(prefix, items[..n], values, scale, nocollapse) != [])
      && forall e | e in part :: e in Shown(prefix, items[..n], values, scale, nocollapse)
    decreases n
  {
    hide ShownBy, Shown;
    ShownNext(prefix, items, values, scale, nocollapse, n - 1);
    if i < n - 1 {
      ShownAt(prefix, items, values, scale, nocollapse, i, n - 1);
    }
  }

  lemma {:induction false} ShownFrom(prefix: string, items: seq<Item>, values: Values, scale: real, nocollapse: bool,
                                     n: nat, e: Entry) returns (i: nat)
    requires scale != 0.0 && n <= |items| && e in Shown(prefix, items[..n], values, scale, nocollapse)
    ensures i < n && e in ShownBy(prefix, items[i], LeftAt(values, items, i), scale, nocollapse)
    decreases n
  {
    hide ShownBy;
    assert n > 0;
    ShownNext(prefix, items, values, scale, nocollapse, n - 1);
    hide Shown;
    i := n - 1;
    if e !in ShownBy(prefix, items[n - 1], LeftAt(values, items, n - 1), scale, nocollapse) {
      i := ShownFrom(prefix, items, values, scale, nocollapse, n - 1, e);
    }
  }

  /** Nothing of a stack is shown just when every item of it is too small. */
  lemma {:induction false} NothingShownIff(prefix: string, items: seq<Item>, values: Values, scale: real)
    requires scale != 0.0
    ensures Shown(prefix, items, values, scale, false) == [] <==> AllSmall(items, values, scale)
    decreases items
  {
    assert items[..|items|] == items;
    if !AllSmall(items, values, scale) {
      var i :| 0 <= i < |items| && Above(LeftAt(values, items, i), scale, items[i]);
      ItemShownIff(prefix, items[i], LeftAt(values, items, i), scale);
      ShownAt(prefix, items, values, scale, false, i, |items|);
    } else if Shown(prefix, items, values, scale, false) != [] {
      var e := Shown(prefix, items, values, scale, false)[0];
      var i := ShownFrom(prefix, items, values, scale, false, |items|, e);
    }
  }

  lemma {:induction false} ItemShownIff(prefix: string, item: Item, left: Values, scale: real)
    requires scale != 0.0
    ensures ShownBy(prefix, item, left, scale, false) == [] <==> !Above(left, scale, item)
    decreases item
  {
    if item.SubStack? {
      NothingShownIff(prefix + item.name + "-", item.items, left, scale);
    }
  }

  // ---------- what is listed, item by item ----------

  /** The way to an item: which one to take in each stack. */
  predicate Leads(items: seq<Item>, path: seq<nat>) {
    && path != [] && path[0] < |items|
    && (|path| > 1 ==> items[path[0]].SubStack? && Leads(items[path[0]].items, path[1..]))
  }

  /** An item, its full name, and the values that no item before it has taken. */
  datatype Spot = Spot(item: Item, name: string, left: Values)

  ghost function SpotAt(prefix: string, items: seq<Item>, values: Values, path: seq<nat>): Spot
    requires Leads(items, path)
    decreases path
  {
    var item, left := items[path[0]], LeftAt(values, items, path[0]);
    if |path| == 1 then Spot(item, prefix + item.name, left)
    else SpotAt(prefix + item.name + "-", item.items, left, path[1..])
  }

  /** The item and every stack around it have shares above their thresholds. */
  ghost predicate Stands(items: seq<Item>, values: Values, scale: real, path: seq<nat>)
    requires scale != 0.0 && Leads(items, path)
    decreases path
  {
    var item, left := items[path[0]], LeftAt(values, items, path[0]);
    Above(left, scale, item) && (|path| > 1 ==> Stands(item.items, left, scale, path[1..]))
  }

  /** A stack none of whose items is large enough is shown as one. */
  ghost predicate Single(spot: Spot, scale: real)
    requires scale != 0.0
  {
    spot.item.SubStack? ==> AllSmall(spot.item.items, spot.left, scale)
  }

  ghost function EntryOf(spot: Spot): Entry {
    Entry(spot.name, Worth(spot.left, spot.item))
  }

  /** Whatever is large enough, with all that is around it, is listed with its own value. */
  lemma {:induction false} LargeIsListed(prefix: string, items: seq<Item>, values: Values, scale: real,
                                         path: seq<nat>)
    requires scale != 0.0 && Leads(items, path) && Stands(items, values, scale, path)
    requires Single(SpotAt(prefix, items, values, path), scale)
    ensures EntryOf(SpotAt(prefix, items, values, path)) in Shown(prefix, items, values, scale, false)
    decreases path
  {
    hide Shown, Worth, Above;
    var item, left := items[path[0]], LeftAt(values, items, path[0]);
    assert items[..|items|] == items;
    ShownAt(prefix, items, values, scale, false, path[0], |items|);
    if |path| > 1 {
      LargeIsListed(prefix + item.name + "-", item.items, left, scale, path[1..]);
      assert Above(LeftAt(left, item.items, path[1]), scale, item.items[path[1]]);
    }
  }

  /** And nothing else is listed. */
  lemma {:induction false} ListedIsLarge(prefix: string, items: seq<Item>, values: Values, scale: real, e: Entry)
    returns (path: seq<nat>)
    requires scale != 0.0 && e in Shown(prefix, items, values, scale, false)
    ensures Leads(items, path) && Stands(items, values, scale, path)
    ensures Single(SpotAt(prefix, items, values, path), scale) && e == EntryOf(SpotAt(prefix, items, values, path))
    decreases items
  {
    hide Shown, Worth, Above, MentionedBy;
    assert items[..|items|] == items;
    var i := ShownFrom(prefix, items, values, scale, false, |items|, e);
    var item, left := items[i], LeftAt(values, items, i);
    if item.Component? || AllSmall(item.items, left, scale) {
      path := [i];
    } else {
      var inside := ListedIsLarge(prefix + item.name + "-", item.items, left, scale, e);
      path := [i] + inside;
      assert path[1..] == inside;
    }
  }

  // ---------- without collapsing ----------

  /** A component with its full name. */
  datatype Leaf = Leaf(name: string, keys: set<string>)

  function Leaves(prefix: string, items: seq<Item>): seq<Leaf>
    decreases items
  {
    if items == [] then [] else LeavesOf(prefix, items[0]) + Leaves(prefix, items[1..])
  }

  function LeavesOf(prefix: string, item: Item): seq<Leaf>
    decreases item
  {
    match item
    case Component(name, _, keys) => [Leaf(prefix + name, set k | k in keys)]
    case SubStack(name, _, items) => Leaves(prefix + name + "-", items)
  }

  function KeysOf(leaves: seq<Leaf>): set<string> {
    set i, k | 0 <= i < |leaves| && k in leaves[i].keys :: k
  }

  /** One entry for each of these components, with what its keys measure and no component before it took. */
  ghost predicate OneEach(leaves: seq<Leaf>, values: Values, entries: seq<Entry>) {
    && |entries| == |leaves|
    && forall i | 0 <= i < |leaves| ::
         entries[i] == Entry(leaves[i].name, Total(Only(values - KeysOf(leaves[..i]), leaves[i].keys)))
  }

  lemma OneEachConcat(a: seq<Leaf>, b: seq<Leaf>, values: Values, x: seq<Entry>, y: seq<Entry>)
    requires OneEach(a, values, x) && OneEach(b, values - KeysOf(a), y)
    ensures OneEach(a + b, values, x + y) && KeysOf(a + b) == KeysOf(a) + KeysOf(b)
  {
    KeysJoin(a, b);
    forall i | 0 <= i < |a + b|
      ensures (x + y)[i]
           == Entry((a + b)[i].name, Total(Only(values - KeysOf((a + b)[..i]), (a + b)[i].keys)))
    {
      if i < |a| {
        assert (a + b)[..i] == a[..i];
      } else {
        assert (a + b)[..i] == a + b[..i - |a|];
        KeysJoin(a, b[..i - |a|]);
        assert values - KeysOf((a + b)[..i]) == values - KeysOf(a) - KeysOf(b[..i - |a|]);
      }
    }
  }

  lemma KeysJoin(a: seq<Leaf>, b: seq<Leaf>)
    ensures KeysOf(a + b) == KeysOf(a) + KeysOf(b)
  {
    forall k ensures k in KeysOf(a + b) <==> k in KeysOf(a) + KeysOf(b) {
      if k in KeysOf(a) {
        var i :| 0 <= i < |a| && k in a[i].keys;
        assert (a + b)[i] == a[i];
      }
      if k in KeysOf(b) {
        var i :| 0 <= i < |b| && k in b[i].keys;
        assert (a + b)[|a| + i] == b[i];
      }
    }
  }

  /** Without collapsing every component is listed, in order, whatever the thresholds. */
  lemma {:induction false} EveryComponentListed(prefix: string, items: seq<Item>, values: Values, scale: real)
    requires scale != 0.0
    ensures OneEach(Leaves(prefix, items), values, Shown(prefix, items, values, scale, true))
    ensures KeysOf(Leaves(prefix, items)) == Mentioned(items)
    decreases items
  {
    if items != [] {
      ItemListed(prefix, items[0], values, scale);
      EveryComponentListed(prefix, items[1..], values - MentionedBy(items[0]), scale);
      hide OneEach, KeysOf, Only;
      OneEachConcat(LeavesOf(prefix, items[0]), Leaves(prefix, items[1..]), values,
                    ShownBy(prefix, items[0], values, scale, true),
                    Shown(prefix, items[1..], values - MentionedBy(items[0]), scale, true));
    }
  }

  lemma {:induction false} ItemListed(prefix: string, item: Item, left: Values, scale: real)
    requires scale != 0.0
    ensures OneEach(LeavesOf(prefix, item), left, ShownBy(prefix, item, left, scale, true))
    ensures KeysOf(LeavesOf(prefix, item)) == MentionedBy(item)
    decreases item
  {
    match item
    case SubStack(name, _, items) => EveryComponentListed(prefix + name + "-", items, left, scale);
    case Component(name, _, keys) =>
      var leaves := LeavesOf(prefix, item);
      assert leaves == [Leaf(prefix + name, MentionedBy(item))] && leaves[..0] == [];
      assert KeysOf([]) == {} && left - {} == left;
      forall k | k in keys ensures k in KeysOf(leaves) {
        assert k in leaves[0].keys;
      }
  }

  // ---------- merging ----------

  /** The values of one core, which merging uses up. */
  class Stack {
    var values: Values
    const nocollapse: bool

    constructor (values: Values, nocollapse: bool)
      ensures this.values == values && this.nocollapse == nocollapse
    {
      this.values, this.nocollapse := values, nocollapse;
    }

    /** Sums the values of the keys, each of which is counted once, and takes them out. */
    method TakeKeys(keys: seq<string>) returns (value: real)
      modifies `values
      ensures value + Total(values) == old(Total(values))
      ensures values == old(values) - set k | k in keys
    {
      value := 0.0;
      for i := 0 to |keys|
        invariant value + Total(values) == old(Total(values))
        invariant values == old(values) - set k | k in keys[..i]
      {
        var key := keys[i];
        assert keys[..i + 1] == keys[..i] + [key];
        if key in values {
          TotalWithout(values, key);
          value := value + values[key];
          values := values - {key};
        }
      }
      assert keys[..|keys|] == keys;
    }

    /** Walks the items: the entries of those that are large enough are listed; what is listed and what goes to
        "other" make up the total, and the total is what was taken. */
    method GetItems(prefix: string, items: seq<Item>, scale: real) returns (res: seq<Entry>, total: real, other: real)
      requires scale != 0.0
      modifies `values
      ensures res == Shown(prefix, items, old(values), scale, nocollapse)
      ensures Listed(res) + other == total
      ensures total + Total(values) == old(Total(values))
      ensures values == old(values) - Mentioned(items)
      ensures nocollapse ==> other == 0.0
      decreases items
    {
      hide Shown, ShownBy, Worth, Total, Mentioned, AllSmall, Listed;
      res, total, other := [], 0.0, 0.0;
      NoItems(prefix, values, scale, nocollapse);
      assert items[..0] == [];
      for i := 0 to |items|
        invariant res == Shown(prefix, items[..i], old(values), scale, nocollapse)
        invariant Listed(res) + other == total
        invariant total + Total(values) == old(Total(values))
        invariant values == old(values) - Mentioned(items[..i])
        invariant nocollapse ==> other == 0.0
      {
        ghost var left := values;
        assert left == LeftAt(old(values), items, i);
        MentionedNext(items, i);
        ShownNext(prefix, items, old(values), scale, nocollapse, i);
        match items[i]
        case SubStack(name, threshold, subItems) =>
          var subRes, subTotal, subOther := GetItems(prefix + name + "-", subItems, scale);
          StackShown(prefix, items[i], left, scale, nocollapse, subTotal);
          total := total + subTotal;
          if subTotal / scale <= threshold && !nocollapse {
            other := other + subTotal;
          } else if subRes == [] && !nocollapse {
            ListedConcat(res, [Entry(prefix + name, subTotal)]);
            res := res + [Entry(prefix + name, subTotal)];
          } else {
            ListedConcat(res, subRes);
            res := res + subRes;
            other := other + subOther;
          }
        case Component(name, threshold, keys) =>
          var value := TakeKeys(keys);
          ComponentShown(prefix, items[i], left, scale, nocollapse, value);
          total := total + value;
          if value / scale <= threshold && !nocollapse {
            other := other + value;
          } else {
            ListedConcat(res, [Entry(prefix + name, value)]);
            res := res + [Entry(prefix + name, value)];
          }
      }
      assert items[..|items|] == items;
    }
  }

  lemma NoItems(prefix: string, values: Values, scale: real, nocollapse: bool)
    requires scale != 0.0
    ensures Shown(prefix, [], values, scale, nocollapse) == [] && Mentioned([]) == {} && Listed([]) == 0.0
  {
  }

  lemma OneListed(e: Entry)
    ensures Listed([e]) == e.value
  {
    assert Listed([e]) == Listed([]) + e.value;
  }

  /** What a component adds to the list, from the value that was taken for it. */
  lemma ComponentShown(prefix: string, item: Item, left: Values, scale: real, nocollapse: bool, value: real)
    requires scale != 0.0 && item.Component? && value + Total(left - MentionedBy(item)) == Total(left)
    ensures ShownBy(prefix, item, left, scale, nocollapse)
         == if value / scale <= item.threshold && !nocollapse then [] else [Entry(prefix + item.name, value)]
    ensures Listed([Entry(prefix + item.name, value)]) == value
    ensures MentionedBy(item) == set k | k in item.keys
  {
    TakenIsWorth(left, item, value);
    OneListed(Entry(prefix + item.name, value));
  }

  /** What a sub-stack adds to the list, from its total. */
  lemma StackShown(prefix: string, item: Item, left: Values, scale: real, nocollapse: bool, total: real)
    requires scale != 0.0 && item.SubStack? && total + Total(left - Mentioned(item.items)) == Total(left)
    ensures var inside := Shown(prefix + item.name + "-", item.items, left, scale, nocollapse);
      ShownBy(prefix, item, left, scale, nocollapse) ==
        if total / scale <= item.threshold && !nocollapse then []
        else if inside == [] && !nocollapse then [Entry(prefix + item.name, total)]
        else inside
    ensures Listed([Entry(prefix + item.name, total)]) == total
    ensures MentionedBy(item) == Mentioned(item.items)
  {
    assert MentionedBy(item) == Mentioned(item.items);
    TakenIsWorth(left, item, total);
    NothingShownIff(prefix + item.name + "-", item.items, left, scale);
    OneListed(Entry(prefix + item.name, total));
  }

  datatype Merged = Merged(res: seq<Entry>, total: real, other: real, scale: real)

  /** Everything that was measured is listed once, the rest of what the items show under "other". */
  ghost predicate Conserves(values: Values, items: seq<Item>, nocollapse: bool, r: Merged) {
    && r.scale == (if Total(values) != 0.0 then Total(values) else 1.0)
    && Listed(r.res) == Total(values)
    && r.total == Total(values) - Total(values - Mentioned(items))
    && r.res == Shown("", items, values, r.scale, nocollapse)
                + (if r.other != 0.0 then [Entry("other", r.other)] else [])
    && r.other == Total(values) - Listed(Shown("", items, values, r.scale, nocollapse))
    && (nocollapse ==> r.other == Total(values - Mentioned(items)))
  }

  method SumValues(values: Values) returns (sum: real)
    ensures sum == Total(values)
  {
    sum := 0.0;
    var rest := values;
    while rest != map[]
      invariant sum + Total(rest) == Total(values)
      decreases |rest|
    {
      assert rest.Keys != {};
      var k :| k in rest;
      TotalWithout(rest, k);
      sum := sum + rest[k];
      rest := rest - {k};
    }
  }

  method MergeCore(values: Values, items: seq<Item>, nocollapse: bool) returns (r: Merged)
    ensures Conserves(values, items, nocollapse, r)
  {
    var sum := SumValues(values);
    var scale := if sum != 0.0 then sum else 1.0;
    var stack := new Stack(values, nocollapse);
    var res, total, other := stack.GetItems("", items, scale);
    var unknown := SumValues(stack.values);
    other := other + unknown;
    if other != 0.0 {
      ListedConcat(res, [Entry("other", other)]);
      res := res + [Entry("other", other)];
    }
    r := Merged(res, total, other, scale);
  }

  method MergeItems(data: map<nat, Values>, items: seq<Item>, nocollapse: bool) returns (results: map<nat, Merged>)
    ensures results.Keys == data.Keys
    ensures forall core | core in data :: Conserves(data[core], items, nocollapse, results[core])
  {
    results := map[];
    var rest := data.Keys;
    while rest != {}
      invariant rest <= data.Keys && results.Keys == data.Keys - rest
      invariant forall core | core in results :: Conserves(data[core], items, nocollapse, results[core])
      decreases rest
    {
      var core :| core in rest;
      rest := rest - {core};
      var merged := MergeCore(data[core], items, nocollapse);
      results := results[core := merged];
    }
  }
}
