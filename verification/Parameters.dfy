/** Query parameters: the types inferred for the placeholders of a plan, and their order. */
module Parameters {
  import opened Wrappers
  import opened Digits

  datatype DataType = DataType(name: string)

  type Types = map<string, Option<DataType>>

  // ---------- The type of every placeholder ----------

  /** The expressions of a plan, as far as placeholders are concerned. */
  datatype Expr = Placeholder(id: string) | Cast(operand: Expr, dataType: DataType) | Other(operands: seq<Expr>)

  /** A placeholder met by the traversal, with the type of the cast it was met under. */
  datatype Sight = Sight(id: string, cast: Option<DataType>)

  /** What the traversal meets, parents first: a cast placeholder is met at the cast and then on its own. */
  function Sights(e: Expr): seq<Sight> {
    match e
    case Placeholder(id) => [Sight(id, None)]
    case Cast(operand, dataType) =>
      (if operand.Placeholder? then [Sight(operand.id, Some(dataType))] else []) + Sights(operand)
    case Other(operands) => SightsAll(operands)
  }

  function SightsAll(es: seq<Expr>): seq<Sight> {
    if es == [] then [] else SightsAll(es[..|es| - 1]) + Sights(es[|es| - 1])
  }

  /** The type given to `id` by the last cast it stands directly under. */
  function LastCast(sights: seq<Sight>, id: string): Option<DataType> {
    if sights == [] then None
    else
      var last := sights[|sights| - 1];
      if last.id == id && last.cast.Some? then last.cast else LastCast(sights[..|sights| - 1], id)
  }

  predicate Seen(sights: seq<Sight>, id: string) {
    exists i :: 0 <= i < |sights| && sights[i].id == id
  }

  /** The types told by what was met: each placeholder once, with its last cast. */
  ghost predicate Tells(types: Types, sights: seq<Sight>) {
    forall id :: (id in types <==> Seen(sights, id)) && (id in types ==> types[id] == LastCast(sights, id))
  }

  lemma SeenStep(sights: seq<Sight>, s: Sight)
    ensures forall id :: Seen(sights + [s], id) <==> Seen(sights, id) || id == s.id
    ensures forall id :: LastCast(sights + [s], id) == if id == s.id &&
            s.cast.Some? then s.cast else LastCast(sights, id)
  {
    assert (sights + [s])[..|sights|] == sights && (sights + [s])[|sights|] == s;
    forall id ensures Seen(sights + [s], id) <==> Seen(sights, id) || id == s.id {
      if i :| 0 <= i < |sights| && sights[i].id == id { assert (sights + [s])[i].id == id; }
      if id == s.id { assert (sights + [s])[|sights|].id == id; }
    }
  }

  lemma {:induction false} UncastStays(sights: seq<Sight>, id: string)
    requires !Seen(sights, id)
    ensures LastCast(sights, id) == None
  {
    if sights != [] {
      var n := |sights| - 1;
      assert sights[n].id != id;
      assert forall i :: 0 <= i < n ==> sights[..n][i] == sights[i];
      UncastStays(sights[..n], id);
    }
  }

  class Collector {
    var types: Types
    var casted: set<string>
    ghost var sights: seq<Sight>

    ghost predicate Valid()
      reads this
    {
      Tells(types, sights) && casted <= types.Keys
    }

    constructor ()
      ensures Valid() && sights == []
    {
      types, casted, sights := map[], {}, [];
    }

    method Apply(e: Expr)
      requires Valid()
      modifies this
      ensures Valid() && sights == old(sights) + Sights(e)
      decreases e
    {
      match e
      case Cast(operand, dataType) =>
        if operand.Placeholder? {
          SeenStep(sights, Sight(operand.id, Some(dataType)));
          types := types[operand.id := Some(dataType)];
          casted := casted + {operand.id};
          sights := sights + [Sight(operand.id, Some(dataType))];
        }
        Apply(operand);
      case Placeholder(id) =>
        SeenStep(sights, Sight(id, None));
        if id !in casted && id !in types {
          UncastStays(sights, id);
          types := types[id := None];
        }
        sights := sights + [Sight(id, None)];
      case Other(operands) =>
        var i := 0;
        while i < |operands|
          invariant 0 <= i <= |operands|
          invariant Valid() && sights == old(sights) + SightsAll(operands[..i])
        {
          assert operands[..i + 1][..i] == operands[..i] && operands[..i + 1][i] == operands[i];
          Apply(operands[i]);
          i := i + 1;
        }
        assert operands[..i] == operands;
    }
  }

  method ExtractPlaceholderCastTypes(exprs: seq<Expr>) returns (types: Types)
    ensures Tells(types, SightsAll(exprs))
  {
    var collector := new Collector();
    collector.Apply(Other(exprs));
    assert Sights(Other(exprs)) == SightsAll(exprs);
    assert [] + SightsAll(exprs) == SightsAll(exprs);
    types := collector.types;
  }

  /** Every placeholder of either side, a known type unchanged, an unknown one taken from the casts. */
  ghost predicate Merges(known: Types, casts: Types, merged: Types) {
    (forall id :: id in merged <==> id in known || id in casts) &&
    forall id :: id in merged ==>
      merged[id] == if id in known && (known[id].Some? || id !in casts) then known[id] else casts[id]
  }

  method Merge(known: Types, casts: Types) returns (merged: Types)
    ensures Merges(known, casts, merged)
  {
    merged := known;
    var todo := casts.Keys;
    while todo != {}
      invariant todo <= casts.Keys
      invariant forall id :: id in merged <==> id in known || (id in casts && id !in todo)
      invariant forall id :: id in merged ==>
        merged[id] == if id in known && (known[id].Some? || id !in casts || id in todo) then known[id] else casts[id]
      decreases |todo|
    {
      var id :| id in todo;
      if id !in merged || merged[id].None? { merged := merged[id := casts[id]]; }
      todo := todo - {id};
    }
  }

  /** The inferred types: the casts of the plan are consulted only if some type is unknown, and then add every
      placeholder the plan mentions. */
  method GetInferredParameterTypes(known: Types, exprs: seq<Expr>) returns (merged: Types)
    ensures (forall id :: id in known ==> known[id].Some?) ==> merged == known
    ensures forall id :: id in known && known[id].Some? ==> id in merged && merged[id] == known[id]
    ensures (exists id :: id in known && known[id].None?) ==>
            forall id :: (id in merged <==> id in known || Seen(SightsAll(exprs), id)) &&
                         (id in merged && !(id in known && known[id].Some?) ==>
                             merged[id] == LastCast(SightsAll(exprs), id))
  {
    hide LastCast, Seen, SightsAll;
    if forall id :: id in known ==> known[id].Some? { return known; }
    var casts := ExtractPlaceholderCastTypes(exprs);
    merged := Merge(known, casts);
    forall id | id in merged && !(id in known && known[id].Some?) ensures merged[id] == LastCast(SightsAll(exprs), id) {
      if id !in casts { UncastStays(SightsAll(exprs), id); }
    }
  }

  // ---------- Their order ----------

  const U32_MAX: nat := 0xFFFF_FFFF

  function TrimDollars(key: string): string {
    if key != [] && key[0] == '$' then TrimDollars(key[1..]) else key
  }

  /** The sort key: the number after the dollars, as a u32, or the largest u32. */
  function Number(key: string): nat {
    var s := TrimDollars(key);
    var digits := if |s| > 1 && s[0] == '+' then s[1..] else s;
    if digits != [] && AllDigits(digits) && ParseNat(digits) <= U32_MAX then ParseNat(digits) else U32_MAX
  }

  type Entry = (string, Option<DataType>)

  /** The library's stable sort. */
  function SortByNumber(items: seq<Entry>): seq<Entry> {
    if items == [] then [] else Place(items[|items| - 1], SortByNumber(items[..|items| - 1]))
  }

  function Place(item: Entry, sorted: seq<Entry>): seq<Entry> {
    if sorted == [] || Number(sorted[|sorted| - 1].0) <= Number(item.0) then sorted + [item]
    else Place(item, sorted[..|sorted| - 1]) + [sorted[|sorted| - 1]]
  }

  predicate Rises(items: seq<Entry>) {
    forall i, j :: 0 <= i < j < |items| ==> Number(items[i].0) < Number(items[j].0)
  }

  lemma {:induction false} PlaceSorts(item: Entry, sorted: seq<Entry>)
    requires Rises(sorted) && forall x :: x in sorted ==> Number(x.0) != Number(item.0)
    ensures Rises(Place(item, sorted))
    ensures forall x :: x in Place(item, sorted) <==> x in sorted || x == item
  {
    hide Number;
    if sorted != [] && Number(sorted[|sorted| - 1].0) > Number(item.0) {
      var front, last := sorted[..|sorted| - 1], sorted[|sorted| - 1];
      assert sorted == front + [last];
      PlaceSorts(item, front);
      var placed := Place(item, front);
      hide Place;
      forall x | x in front ensures Number(x.0) < Number(last.0) {
        var j :| 0 <= j < |front| && front[j] == x;
        assert sorted[j] == x;
      }
      forall i | 0 <= i < |placed| ensures Number(placed[i].0) < Number(last.0) {
        assert placed[i] in placed;
      }
    } else {
      hide Place;
      forall i | 0 <= i < |sorted| ensures Number(sorted[i].0) < Number(item.0) {
        assert sorted[i] in sorted;
      }
    }
  }

  lemma {:induction false} SortSorts(items: seq<Entry>)
    requires forall i, j :: 0 <= i < j < |items| ==> Number(items[i].0) != Number(items[j].0)
    ensures Rises(SortByNumber(items)) && forall x :: x in SortByNumber(items) <==> x in items
  {
    hide Number, Place;
    if items != [] {
      var n := |items| - 1;
      assert items == items[..n] + [items[n]];
      SortSorts(items[..n]);
      forall x | x in items[..n] ensures Number(x.0) != Number(items[n].0) {
        var j :| 0 <= j < n && items[..n][j] == x;
        assert items[j] == x;
      }
      PlaceSorts(items[n], SortByNumber(items[..n]));
    }
  }

  function Key(k: nat): string { "$" + Print(k) }

  lemma NumberOfKey(k: nat)
    requires k <= U32_MAX
    ensures Number(Key(k)) == k
  {
    assert Key(k)[1..] == Print(k);
    assert IsDigit(Print(k)[0]);
    assert TrimDollars(Print(k)) == Print(k);
    assert TrimDollars(Key(k)) == TrimDollars(Key(k)[1..]);
  }

  /** The keys are exactly `$1`, ..., `$n`. */
  ghost predicate Numbered(types: Types, n: nat) {
    n <= U32_MAX && forall key :: key in types <==> exists k :: 1 <= k <= n && key == Key(k)
  }

  /** Each entry of the map, once. */
  ghost predicate Enumerates(items: seq<Entry>, types: Types) {
    (forall i :: 0 <= i < |items| ==> items[i].0 in types && types[items[i].0] == items[i].1) &&
    (forall key :: key in types ==> (key, types[key]) in items) &&
    forall i, j :: 0 <= i < j < |items| ==> items[i].0 != items[j].0
  }

  lemma Bounded(numbers: seq<nat>, n: nat)
    requires forall i :: 0 <= i < |numbers| ==> 1 <= numbers[i] <= n
    ensures numbers == [] || n >= 1
  {
    if numbers != [] { assert 1 <= numbers[0] <= n; }
  }

  /** Numbers that rise strictly and are exactly 1, ..., n stand each at its own place. */
  lemma {:induction false} Dense(numbers: seq<nat>, n: nat)
    requires forall i, j :: 0 <= i < j < |numbers| ==> numbers[i] < numbers[j]
    requires forall i :: 0 <= i < |numbers| ==> 1 <= numbers[i] <= n
    requires forall k: nat :: 1 <= k <= n ==> k in numbers
    ensures |numbers| == n && forall i :: 0 <= i < n ==> numbers[i] == i + 1
  {
    Bounded(numbers, n);
    if n > 0 {
      assert n in numbers;
      var last := |numbers| - 1;
      var at :| 0 <= at < |numbers| && numbers[at] == n;
      assert 1 <= numbers[last] <= n;
      forall k: nat | 1 <= k <= n - 1 ensures k in numbers[..last] {
        assert k in numbers;
        var i :| 0 <= i < |numbers| && numbers[i] == k;
        assert numbers[..last][i] == k;
      }
      Dense(numbers[..last], n - 1);
    }
  }

  lemma NumberedKey(types: Types, n: nat, key: string)
    requires Numbered(types, n) && key in types
    ensures 1 <= Number(key) <= n && key == Key(Number(key))
  {
    var k :| 1 <= k <= n && key == Key(k);
    NumberOfKey(k);
  }

  /** However the map is iterated, the entry of `$(i+1)` comes out at position `i`. */
  lemma SortedPositions(types: Types, items: seq<Entry>, n: nat)
    requires Enumerates(items, types) && Numbered(types, n)
    ensures |SortByNumber(items)| == n
    ensures forall i :: 0 <= i < n ==> Key(i + 1) in types && SortByNumber(items)[i] == (Key(i + 1), types[Key(i + 1)])
  {
    hide SortByNumber, Key, Number;
    var sorted := SortByNumber(items);
    forall key | key in types ensures 1 <= Number(key) <= n && key == Key(Number(key)) { NumberedKey(types, n, key); }
    SortSorts(items);
    forall i | 0 <= i < |sorted| ensures sorted[i].0 in types && types[sorted[i].0] == sorted[i].1 {
      assert sorted[i] in sorted;
      assert sorted[i] in items;
    }
    var numbers := seq(|sorted|, i requires 0 <= i < |sorted| => Number(sorted[i].0));
    forall k: nat | 1 <= k <= n ensures k in numbers {
      KeyListed(types, items, sorted, n, k);
      var i :| 0 <= i < |sorted| && sorted[i].0 == Key(k);
      NumberOfKey(k);
      assert numbers[i] == k;
    }
    assert Rises(sorted);
    hide Enumerates, Numbered;
    Dense(numbers, n);
    forall i | 0 <= i < n ensures Key(i + 1) in types && sorted[i] == (Key(i + 1), types[Key(i + 1)]) {
      assert numbers[i] == i + 1;
    }
  }

  lemma KeyListed(types: Types, items: seq<Entry>, sorted: seq<Entry>, n: nat, k: nat)
    requires Enumerates(items, types) && Numbered(types, n) && 1 <= k <= n
    requires forall x :: x in sorted <==> x in items
    ensures exists i :: 0 <= i < |sorted| && sorted[i].0 == Key(k)
  {
    assert Key(k) in types;
    var x := (Key(k), types[Key(k)]);
    assert x in sorted;
    var i :| 0 <= i < |sorted| && sorted[i] == x;
  }

  /** Iterates the map, in any order. */
  method Iterate(types: Types) returns (items: seq<Entry>)
    ensures Enumerates(items, types)
  {
    items := [];
    var todo := types.Keys;
    while todo != {}
      invariant todo <= types.Keys
      invariant forall i :: 0 <= i < |items| ==>
                  items[i].0 in types && items[i].0 !in todo && types[items[i].0] == items[i].1
      invariant forall key :: key in types && key !in todo ==> (key, types[key]) in items
      invariant forall i, j :: 0 <= i < j < |items| ==> items[i].0 != items[j].0
      decreases |todo|
    {
      var key :| key in todo;
      items := items + [(key, types[key])];
      todo := todo - {key};
    }
  }

  /** Position `i` holds the type of `$(i+1)`, up to `$n`. */
  ghost predicate InOrder(ordered: seq<Option<DataType>>, types: Types, n: nat) {
    |ordered| == n && forall i :: 0 <= i < n ==> Key(i + 1) in types && ordered[i] == types[Key(i + 1)]
  }

  lemma SortedTypes(types: Types, items: seq<Entry>, ordered: seq<Option<DataType>>, n: nat)
    requires Enumerates(items, types) && Numbered(types, n)
    requires |ordered| == |SortByNumber(items)| && forall i :: 0 <= i < |ordered| ==>
               ordered[i] == SortByNumber(items)[i].1
    ensures InOrder(ordered, types, n)
  {
    SortedPositions(types, items, n);
    hide Number, Key, Numbered, Enumerates, SortByNumber;
  }

  method OrderedParamTypes(types: Types) returns (ordered: seq<Option<DataType>>)
    ensures forall n: nat :: Numbered(types, n) ==> InOrder(ordered, types, n)
  {
    hide Number, Key, Numbered, Enumerates, SortByNumber;
    var items := Iterate(types);
    var sorted := SortByNumber(items);
    ordered := seq(|sorted|, i requires 0 <= i < |sorted| => sorted[i].1);
    forall n: nat | Numbered(types, n) ensures InOrder(ordered, types, n) {
      SortedTypes(types, items, ordered, n);
    }
  }
}
