/** From JSON to Lua tables, and back. */
module LuaRoundTrip {
  import opened Options
  import opened LuaTable
  import opened LuaJson
  import opened LuaBridge
  import Decimal

  /** `Float64` of a literal: a number, or the error of a literal out of range. */
  datatype ParsedFloat = FloatOf(double: Double) | NoFloat

  datatype Problem = InvalidNumber(literal: string) | UnsupportedValue

  datatype Converted = Made(value: Value) | Refused(problem: Problem)

  function FloatNumberOf(parse: string -> ParsedFloat, literal: string): Option<Double> {
    match parse(literal)
    case FloatOf(double) => if double.Finite? then Some(double) else None
    case NoFloat => None
  }

  /** Whether `goToLua` accepts the value. */
  ghost predicate Convertible(parse: string -> ParsedFloat, j: Json) {
    match j
    case Null => true
    case Boolean(_) => true
    case String(_) => true
    case Number(literal) => Decimal.Parse(literal).Number? || FloatNumberOf(parse, literal).Some?
    case FloatNumber(_) => false
    case Array(items) => forall i :: 0 <= i < |items| ==> Convertible(parse, items[i])
    case Object(fields) => forall name :: name in fields ==> Convertible(parse, fields[name])
    case Unsupported(_) => false
  }

  /** 64-bit integer literals become canonical, other numbers become floats. */
  ghost function Normalize(parse: string -> ParsedFloat, j: Json): Json {
    match j
    case Number(literal) =>
      (match Decimal.Parse(literal)
       case Number(n) => Number(Decimal.Format(n))
       case Invalid => if FloatNumberOf(parse, literal).Some? then FloatNumber(FloatNumberOf(parse, literal).value) else j)
    case Array(items) => Array(seq(|items|, i requires 0 <= i < |items| => Normalize(parse, items[i])))
    case Object(fields) => Object(map name | name in fields :: Normalize(parse, fields[name]))
    case _ => j
  }

  ghost predicate NormalItems(parse: string -> ParsedFloat, items: seq<Json>, normal: seq<Json>) {
    |normal| == |items| && forall i :: 0 <= i < |items| ==> normal[i] == Normalize(parse, items[i])
  }

  ghost predicate NormalFields(parse: string -> ParsedFloat, fields: map<string, Json>, normal: map<string, Json>) {
    normal.Keys == fields.Keys && forall name :: name in fields ==> normal[name] == Normalize(parse, fields[name])
  }

  // ---- heaps that grow ------------------------------------------------------------------------

  ghost predicate Grows(heap: Heap, later: Heap) {
    forall t :: t in heap ==> t in later && later[t] == heap[t]
  }

  /** New tables do not change what old values stand for. */
  lemma {:induction false} DenotesGrows(b: Bridge, heap: Heap, later: Heap, v: Value, j: Json)
    requires Grows(heap, later) && Denotes(b, heap, v, j)
    ensures Denotes(b, later, v, j)
    decreases j
  {
    if v.Ref? && v.table != b.nullTable {
      var entries := heap[v.table].entries;
      if j.Array? {
        forall i | 0 <= i < |j.items|
          ensures Denotes(b, later, Lookup(entries, Int(i + 1)), j.items[i])
        {
          DenotesGrows(b, heap, later, Lookup(entries, Int(i + 1)), j.items[i]);
        }
      } else {
        forall name | name in j.fields
          ensures Denotes(b, later, Lookup(entries, Str(name)), j.fields[name])
        {
          DenotesGrows(b, heap, later, Lookup(entries, Str(name)), j.fields[name]);
        }
      }
    }
  }

  lemma ClosedGrows(heap: Heap, t: Table, c: Contents)
    requires Closed(heap) && t !in heap && WellFormed(c.entries)
    requires forall i :: 0 <= i < |c.entries| ==> Inside(heap, c.entries[i].value)
    ensures Closed(heap[t := c]) && Grows(heap, heap[t := c])
  {
  }

  /** The first items of an array, in a table under construction. */
  ghost predicate Items(b: Bridge, heap: Heap, entries: seq<Entry>, items: seq<Json>) {
    && WellFormed(entries) && |entries| <= |items|
    && (forall i :: 0 <= i < |entries| ==> entries[i].key == Int(i + 1))
    && (forall i :: 0 <= i < |entries| ==> Inside(heap, entries[i].value) && Denotes(b, heap, entries[i].value, items[i]))
  }

  lemma ItemsGrow(b: Bridge, heap: Heap, later: Heap, entries: seq<Entry>, items: seq<Json>, v: Value)
    requires Items(b, heap, entries, items) && Grows(heap, later) && |entries| < |items|
    requires v != Nil && Inside(later, v) && Denotes(b, later, v, items[|entries|])
    ensures !HasKey(entries, Int(|entries| + 1))
    ensures Items(b, later, entries + [Entry(Int(|entries| + 1), v)], items)
  {
    forall i | 0 <= i < |entries|
      ensures Denotes(b, later, entries[i].value, items[i])
    {
      DenotesGrows(b, heap, later, entries[i].value, items[i]);
    }
  }

  lemma ItemsDenote(b: Bridge, heap: Heap, t: Table, entries: seq<Entry>, items: seq<Json>)
    requires Closed(heap) && t !in heap && t != b.nullTable && Distinct(b)
    requires Items(b, heap, entries, items) && |entries| == |items|
    ensures var later := heap[t := Contents(b.arrayMeta, entries)];
            Closed(later) && Grows(heap, later) && Denotes(b, later, Ref(t), Array(items))
  {
    var later := heap[t := Contents(b.arrayMeta, entries)];
    ClosedGrows(heap, t, later[t]);
    forall k | 1 <= k <= |items|
      ensures HasKey(entries, Int(k))
    {
      assert entries[k - 1].key == Int(k);
    }
    SequentialKeys(entries, |items|);
    forall i | 0 <= i < |items|
      ensures Denotes(b, later, Lookup(entries, Int(i + 1)), items[i])
    {
      LookupAt(entries, i);
      DenotesGrows(b, heap, later, entries[i].value, items[i]);
    }
  }

  /** The fields of an object that are already in the table under construction. */
  ghost predicate Fields(b: Bridge, heap: Heap, entries: seq<Entry>, names: set<string>, fields: map<string, Json>) {
    && WellFormed(entries) && Named(entries, names) && names <= fields.Keys
    && (forall i :: 0 <= i < |entries| && IsName(entries[i].key, names) ==>
          Inside(heap, entries[i].value) && Denotes(b, heap, entries[i].value, fields[entries[i].key.text]))
  }

  lemma FieldsGrow(b: Bridge, heap: Heap, later: Heap, entries: seq<Entry>, names: set<string>, fields: map<string, Json>, name: string, v: Value)
    requires Fields(b, heap, entries, names, fields) && Grows(heap, later) && name in fields && name !in names
    requires v != Nil && Inside(later, v) && Denotes(b, later, v, fields[name])
    ensures !HasKey(entries, Str(name))
    ensures Fields(b, later, entries + [Entry(Str(name), v)], names + {name}, fields)
  {
    var longer := entries + [Entry(Str(name), v)];
    forall i | 0 <= i < |entries|
      ensures entries[i].key != Str(name) && IsName(entries[i].key, names)
      ensures Denotes(b, later, entries[i].value, fields[entries[i].key.text])
    {
      assert IsName(entries[i].key, names);
      DenotesGrows(b, heap, later, entries[i].value, fields[entries[i].key.text]);
    }
    forall other | other in names + {name}
      ensures HasKey(longer, Str(other))
    {
      if other != name {
        var i :| 0 <= i < |entries| && entries[i].key == Str(other);
        assert longer[i].key == Str(other);
      } else {
        assert longer[|entries|].key == Str(other);
      }
    }
  }

  lemma FieldsDenote(b: Bridge, heap: Heap, t: Table, entries: seq<Entry>, fields: map<string, Json>)
    requires Closed(heap) && t !in heap && t != b.nullTable && Distinct(b)
    requires Fields(b, heap, entries, fields.Keys, fields)
    ensures var later := heap[t := Contents(b.objectMeta, entries)];
            Closed(later) && Grows(heap, later) && Denotes(b, later, Ref(t), Object(fields))
  {
    var later := heap[t := Contents(b.objectMeta, entries)];
    assert forall i :: 0 <= i < |entries| ==> IsName(entries[i].key, fields.Keys);
    ClosedGrows(heap, t, later[t]);
    forall name | name in fields
      ensures Denotes(b, later, Lookup(entries, Str(name)), fields[name])
    {
      var i :| 0 <= i < |entries| && entries[i].key == Str(name);
      LookupAt(entries, i);
      DenotesGrows(b, heap, later, entries[i].value, fields[name]);
    }
  }

  // ---- the conversion -----------------------------------------------------------------------

  /** `goToLua`: new tables that stand for the normalised value. */
  method GoToLua(b: Bridge, parse: string -> ParsedFloat, j: Json, ghost heap: Heap) returns (r: Converted, ghost later: Heap)
    requires Distinct(b) && b.nullTable in heap && Closed(heap) && Snapshot(heap)
    ensures Closed(later) && Snapshot(later) && Grows(heap, later) && (forall t :: t in later && t !in heap ==> fresh(t))
    ensures r.Made? <==> Convertible(parse, j)
    ensures r.Made? ==> r.value != Nil && Inside(later, r.value) && Denotes(b, later, r.value, Normalize(parse, j))
    decreases j, 3
  {
    later := heap;
    match j
    case Null => r := Made(Ref(b.nullTable));
    case Boolean(flag) => r := Made(Bool(flag));
    case String(text) => r := Made(Str(text));
    case Number(literal) =>
      var integer := Decimal.Parse(literal);
      if integer.Number? {
        return Made(Int(integer.value)), heap;
      }
      var number := FloatNumberOf(parse, literal);
      r := if number.Some? then Made(Float(number.value)) else Refused(InvalidNumber(literal));
    case FloatNumber(_) => r := Refused(UnsupportedValue);
    case Unsupported(_) => r := Refused(UnsupportedValue);
    case Array(items) => r, later := ArrayToLua(b, parse, j, heap);
    case Object(fields) => r, later := ObjectToLua(b, parse, j, heap);
  }

  ghost predicate ConvertibleItems(parse: string -> ParsedFloat, items: seq<Json>, n: nat)
    requires n <= |items|
  {
    forall i :: 0 <= i < n ==> Convertible(parse, items[i])
  }

  ghost predicate ConvertibleFields(parse: string -> ParsedFloat, fields: map<string, Json>, names: set<string>)
    requires names <= fields.Keys
  {
    forall name :: name in names ==> Convertible(parse, fields[name])
  }

  /** The case of a slice. */
  method ArrayToLua(b: Bridge, parse: string -> ParsedFloat, j: Json, ghost heap: Heap) returns (r: Converted, ghost later: Heap)
    requires Distinct(b) && b.nullTable in heap && Closed(heap) && Snapshot(heap) && j.Array?
    ensures Closed(later) && Snapshot(later) && Grows(heap, later) && (forall t :: t in later && t !in heap ==> fresh(t))
    ensures r.Made? <==> Convertible(parse, j)
    ensures r.Made? ==> r.value.Ref? && Inside(later, r.value) && Denotes(b, later, r.value, Normalize(parse, j))
    decreases j, 2
  {
    var table := new Table(b.arrayMeta);
    ghost var items := StartArray(b, parse, heap, j);
    r, later := FillArray(b, parse, j, table, heap, items);
    if r.Made? {
      r, later := FinishArray(b, parse, j, table, later, items);
    }
  }

  /** The loop over the items. */
  method FillArray(b: Bridge, parse: string -> ParsedFloat, j: Json, table: Table, ghost heap: Heap, ghost items: seq<Json>) returns (r: Converted, ghost later: Heap)
    requires Distinct(b) && b.nullTable in heap && Closed(heap) && Snapshot(heap) && j.Array?
    requires table !in heap && table.entries == [] && NormalItems(parse, j.items, items) && Items(b, heap, [], items)
    modifies table`entries
    ensures Closed(later) && Snapshot(later) && Grows(heap, later) && (forall t :: t in later && t !in heap ==> fresh(t))
    ensures r.Refused? ==> !Convertible(parse, j)
    ensures r.Made? ==> table !in later && Items(b, later, table.entries, items) && |table.entries| == |items|
    ensures r.Made? ==> ConvertibleItems(parse, j.items, |j.items|)
    decreases j, 1
  {
    r, later := Made(Nil), heap;
    var index := 0;
    while index < |j.items|
      invariant 0 <= index <= |j.items| && index == |table.entries| && r.Made?
      invariant Closed(later) && Snapshot(later) && Grows(heap, later) && (forall t :: t in later && t !in heap ==> fresh(t))
      invariant table !in later && Items(b, later, table.entries, items)
      invariant ConvertibleItems(parse, j.items, index)
    {
      r, later := PutItem(b, parse, j, table, later, items);
      if r.Refused? {
        return;
      }
      index := index + 1;
    }
  }

  /** Converts the next item and appends it to the table. */
  method PutItem(b: Bridge, parse: string -> ParsedFloat, j: Json, table: Table, ghost heap: Heap, ghost items: seq<Json>) returns (r: Converted, ghost later: Heap)
    requires Distinct(b) && b.nullTable in heap && Closed(heap) && Snapshot(heap) && j.Array?
    requires table !in heap && |table.entries| < |j.items| && NormalItems(parse, j.items, items) && Items(b, heap, table.entries, items)
    requires ConvertibleItems(parse, j.items, |table.entries|)
    modifies table`entries
    ensures Closed(later) && Snapshot(later) && Grows(heap, later) && (forall t :: t in later && t !in heap ==> fresh(t))
    ensures r.Refused? ==> !Convertible(parse, j)
    ensures r.Made? ==> table !in later && Items(b, later, table.entries, items)
    ensures r.Made? ==> |table.entries| == old(|table.entries|) + 1 && ConvertibleItems(parse, j.items, |table.entries|)
    decreases j, 0
  {
    var index := |table.entries|;
    r, later := GoToLua(b, parse, j.items[index], heap);
    if r.Made? {
      ItemsGrow(b, heap, later, table.entries, items, r.value);
      table.Put(Int(index + 1), r.value);
    }
  }

  /** The finished table joins the heap. */
  method FinishArray(b: Bridge, ghost parse: string -> ParsedFloat, ghost j: Json, table: Table, ghost heap: Heap, ghost items: seq<Json>)
    returns (r: Converted, ghost later: Heap)
    requires Distinct(b) && b.nullTable in heap && Closed(heap) && Snapshot(heap) && table !in heap
    requires table.meta == b.arrayMeta && Items(b, heap, table.entries, items) && |table.entries| == |items|
    requires j.Array? && NormalItems(parse, j.items, items) && ConvertibleItems(parse, j.items, |j.items|)
    ensures Closed(later) && Snapshot(later) && Grows(heap, later) && table in later && (forall t :: t in later ==> t in heap || t == table)
    ensures r == Made(Ref(table)) && Denotes(b, later, Ref(table), Normalize(parse, j)) && Convertible(parse, j)
  {
    ItemsDenote(b, heap, table, table.entries, items);
    NormalArray(parse, j, items);
    later := heap[table := Contents(b.arrayMeta, table.entries)];
    r := Made(Ref(table));
  }

  method FinishObject(b: Bridge, ghost parse: string -> ParsedFloat, ghost j: Json, table: Table, ghost heap: Heap, ghost fields: map<string, Json>)
    returns (r: Converted, ghost later: Heap)
    requires Distinct(b) && b.nullTable in heap && Closed(heap) && Snapshot(heap) && table !in heap
    requires table.meta == b.objectMeta && Fields(b, heap, table.entries, fields.Keys, fields)
    requires j.Object? && NormalFields(parse, j.fields, fields) && ConvertibleFields(parse, j.fields, j.fields.Keys)
    ensures Closed(later) && Snapshot(later) && Grows(heap, later) && table in later && (forall t :: t in later ==> t in heap || t == table)
    ensures r == Made(Ref(table)) && Denotes(b, later, Ref(table), Normalize(parse, j)) && Convertible(parse, j)
  {
    FieldsDenote(b, heap, table, table.entries, fields);
    NormalObject(parse, j, fields);
    later := heap[table := Contents(b.objectMeta, table.entries)];
    r := Made(Ref(table));
  }

  /** The case of a map; its keys come in some order. */
  method ObjectToLua(b: Bridge, parse: string -> ParsedFloat, j: Json, ghost heap: Heap) returns (r: Converted, ghost later: Heap)
    requires Distinct(b) && b.nullTable in heap && Closed(heap) && Snapshot(heap) && j.Object?
    ensures Closed(later) && Snapshot(later) && Grows(heap, later) && (forall t :: t in later && t !in heap ==> fresh(t))
    ensures r.Made? <==> Convertible(parse, j)
    ensures r.Made? ==> r.value.Ref? && Inside(later, r.value) && Denotes(b, later, r.value, Normalize(parse, j))
    decreases j, 2
  {
    var table := new Table(b.objectMeta);
    ghost var fields := StartObject(b, parse, heap, j);
    r, later := FillObject(b, parse, j, table, heap, fields);
    if r.Made? {
      r, later := FinishObject(b, parse, j, table, later, fields);
    }
  }

  /** All fields but those left are in the table. */
  ghost predicate Filled(b: Bridge, parse: string -> ParsedFloat, heap: Heap, entries: seq<Entry>, j: Json, left: set<string>, fields: map<string, Json>)
    requires j.Object?
  {
    && left <= j.fields.Keys && NormalFields(parse, j.fields, fields)
    && ConvertibleFields(parse, j.fields, j.fields.Keys - left)
    && Fields(b, heap, entries, j.fields.Keys - left, fields)
  }

  lemma StartObject(b: Bridge, parse: string -> ParsedFloat, heap: Heap, j: Json) returns (fields: map<string, Json>)
    requires j.Object?
    ensures NormalFields(parse, j.fields, fields) && Filled(b, parse, heap, [], j, j.fields.Keys, fields)
  {
    fields := Normalize(parse, j).fields;
    assert j.fields.Keys - j.fields.Keys == {};
  }

  lemma StartArray(b: Bridge, parse: string -> ParsedFloat, heap: Heap, j: Json) returns (items: seq<Json>)
    requires j.Array?
    ensures NormalItems(parse, j.items, items) && Items(b, heap, [], items)
  {
    items := Normalize(parse, j).items;
  }

  lemma AllFilled(b: Bridge, parse: string -> ParsedFloat, heap: Heap, entries: seq<Entry>, j: Json, fields: map<string, Json>)
    requires j.Object? && Filled(b, parse, heap, entries, j, {}, fields)
    ensures Fields(b, heap, entries, fields.Keys, fields)
    ensures ConvertibleFields(parse, j.fields, j.fields.Keys)
  {
    assert j.fields.Keys - {} == fields.Keys == j.fields.Keys;
  }

  lemma NormalObject(parse: string -> ParsedFloat, j: Json, fields: map<string, Json>)
    requires j.Object? && NormalFields(parse, j.fields, fields) && ConvertibleFields(parse, j.fields, j.fields.Keys)
    ensures Normalize(parse, j) == Object(fields) && Convertible(parse, j)
  {
  }

  lemma NormalArray(parse: string -> ParsedFloat, j: Json, items: seq<Json>)
    requires j.Array? && NormalItems(parse, j.items, items) && ConvertibleItems(parse, j.items, |j.items|)
    ensures Normalize(parse, j) == Array(items) && Convertible(parse, j)
  {
  }

  /** The loop over the keys. */
  method FillObject(b: Bridge, parse: string -> ParsedFloat, j: Json, table: Table, ghost heap: Heap, ghost fields: map<string, Json>) returns (r: Converted, ghost later: Heap)
    requires Distinct(b) && b.nullTable in heap && Closed(heap) && Snapshot(heap) && j.Object?
    requires table !in heap && Filled(b, parse, heap, table.entries, j, j.fields.Keys, fields)
    modifies table`entries
    ensures Closed(later) && Snapshot(later) && Grows(heap, later) && (forall t :: t in later && t !in heap ==> fresh(t))
    ensures r.Refused? ==> !Convertible(parse, j)
    ensures r.Made? ==> table !in later && Fields(b, later, table.entries, fields.Keys, fields)
    ensures r.Made? ==> ConvertibleFields(parse, j.fields, j.fields.Keys)
    decreases j, 1
  {
    r, later := Made(Nil), heap;
    var left := j.fields.Keys;
    while left != {}
      invariant Closed(later) && Snapshot(later) && Grows(heap, later) && (forall t :: t in later && t !in heap ==> fresh(t))
      invariant r.Made? && table !in later && Filled(b, parse, later, table.entries, j, left, fields)
      decreases left
    {
      SomeName(left);
      var name :| name in left;
      left := left - {name};
      r, later := PutField(b, parse, j, name, left, table, later, fields);
      if r.Refused? {
        return;
      }
    }
    AllFilled(b, parse, later, table.entries, j, fields);
  }

  /** Converts one more field and adds it to the table. */
  method PutField(b: Bridge, parse: string -> ParsedFloat, j: Json, name: string, ghost left: set<string>, table: Table, ghost heap: Heap, ghost fields: map<string, Json>)
    returns (r: Converted, ghost later: Heap)
    requires Distinct(b) && b.nullTable in heap && Closed(heap) && Snapshot(heap) && j.Object?
    requires name !in left && name in j.fields
    requires table !in heap && Filled(b, parse, heap, table.entries, j, left + {name}, fields)
    modifies table`entries
    ensures Closed(later) && Snapshot(later) && Grows(heap, later) && (forall t :: t in later && t !in heap ==> fresh(t))
    ensures r.Refused? ==> !Convertible(parse, j)
    ensures r.Made? ==> table !in later && Filled(b, parse, later, table.entries, j, left, fields)
    decreases j, 0
  {
    r, later := GoToLua(b, parse, j.fields[name], heap);
    if r.Made? {
      ghost var done := j.fields.Keys - (left + {name});
      FieldsGrow(b, heap, later, table.entries, done, fields, name, r.value);
      table.Put(Str(name), r.value);
      assert done + {name} == j.fields.Keys - left;
    }
  }

  lemma SomeName(names: set<string>)
    requires names != {}
    ensures exists name :: name in names
  {
    assert (forall name :: name !in names) ==> names == {};
  }

  /** A program that returns its argument: the result is the argument, normalised. */
  method RoundTrip(b: Bridge, parse: string -> ParsedFloat, j: Json, ghost heap: Heap) returns (made: Converted, back: Outcome)
    requires Distinct(b) && b.nullTable in heap && Closed(heap) && Snapshot(heap)
    ensures made.Made? <==> Convertible(parse, j)
    ensures made.Made? ==> back == Ok(Normalize(parse, j))
  {
    ghost var later, at;
    made, later := GoToLua(b, parse, j, heap);
    back := Ok(Null);
    if made.Made? {
      back, at := Convert(b, made.value, later);
    }
  }

  /** A number is accepted exactly if it is a 64-bit integer or reads as a finite float, and what
      becomes of it. */
  lemma NumbersConvert(parse: string -> ParsedFloat, literal: string)
    ensures Convertible(parse, Number(literal)) <==>
            Decimal.Parse(literal).Number? || exists x: real :: parse(literal) == FloatOf(Finite(x))
    ensures Decimal.Parse(literal).Number? ==> Normalize(parse, Number(literal)) == Number(Decimal.Format(Decimal.Parse(literal).value))
    ensures forall x: real :: !Decimal.Parse(literal).Number? && parse(literal) == FloatOf(Finite(x)) ==>
              Normalize(parse, Number(literal)) == FloatNumber(Finite(x))
  {
    if FloatNumberOf(parse, literal).Some? {
      var double := FloatNumberOf(parse, literal).value;
      assert parse(literal) == FloatOf(Finite(double.value));
    }
  }

  // ---- what normalisation keeps ----------------------------------------------------------------

  /** Every number is written as `FormatInt` would. */
  ghost predicate Canonical(j: Json) {
    match j
    case Number(literal) => Decimal.Parse(literal).Number? && literal == Decimal.Format(Decimal.Parse(literal).value)
    case Array(items) => forall i :: 0 <= i < |items| ==> Canonical(items[i])
    case Object(fields) => forall name :: name in fields ==> Canonical(fields[name])
    case _ => true
  }

  /** Every number is a 64-bit integer, however written. */
  ghost predicate AllIntegers(j: Json) {
    match j
    case Number(literal) => Decimal.Parse(literal).Number?
    case Array(items) => forall i :: 0 <= i < |items| ==> AllIntegers(items[i])
    case Object(fields) => forall name :: name in fields ==> AllIntegers(fields[name])
    case _ => true
  }

  /** A round trip is the identity exactly on canonical 64-bit integers. */
  lemma {:induction false} UnchangedIff(parse: string -> ParsedFloat, j: Json)
    requires Convertible(parse, j)
    ensures Normalize(parse, j) == j <==> Canonical(j)
  {
    match j
    case Array(items) =>
      forall i | 0 <= i < |items|
        ensures Normalize(parse, items[i]) == items[i] <==> Canonical(items[i])
      {
        UnchangedIff(parse, items[i]);
      }
      var normal := Normalize(parse, j);
      assert normal == j ==> forall i :: 0 <= i < |items| ==> normal.items[i] == items[i];
    case Object(fields) =>
      forall name | name in fields
        ensures Normalize(parse, fields[name]) == fields[name] <==> Canonical(fields[name])
      {
        UnchangedIff(parse, fields[name]);
      }
      var normal := Normalize(parse, j);
      assert normal == j ==> forall name :: name in fields ==> normal.fields[name] == fields[name];
    case _ =>
  }

  /** Nulls stay where they are, containers keep their kind and size. */
  lemma ShapeKept(parse: string -> ParsedFloat, j: Json)
    ensures var normal := Normalize(parse, j);
            && (normal == Null <==> j == Null)
            && (normal.Array? <==> j.Array?) && (normal.Object? <==> j.Object?)
            && (j.Array? ==> |normal.items| == |j.items| && forall i :: 0 <= i < |j.items| ==> (normal.items[i] == Null <==> j.items[i] == Null))
            && (j.Object? ==> normal.fields.Keys == j.fields.Keys && forall name :: name in j.fields ==> (normal.fields[name] == Null <==> j.fields[name] == Null))
  {
  }

  /** A result can be fed back exactly when it holds no floats … */
  lemma {:induction false} SecondTripIff(parse: string -> ParsedFloat, j: Json)
    requires Convertible(parse, j)
    ensures Convertible(parse, Normalize(parse, j)) <==> AllIntegers(j)
  {
    match j
    case Number(literal) =>
      if Decimal.Parse(literal).Number? {
        Decimal.FormatParses(Decimal.Parse(literal).value);
      }
    case Array(items) =>
      var normal := Normalize(parse, j).items;
      forall i | 0 <= i < |items|
        ensures Convertible(parse, normal[i]) <==> AllIntegers(items[i])
      {
        SecondTripIff(parse, items[i]);
      }
    case Object(fields) =>
      var normal := Normalize(parse, j).fields;
      forall name | name in fields
        ensures Convertible(parse, normal[name]) <==> AllIntegers(fields[name])
      {
        SecondTripIff(parse, fields[name]);
      }
    case _ =>
  }

  /** … and then nothing more changes. */
  lemma {:induction false} SecondTripIsIdle(parse: string -> ParsedFloat, j: Json)
    requires Convertible(parse, j) && AllIntegers(j)
    ensures Canonical(Normalize(parse, j))
  {
    match j
    case Number(literal) =>
      Decimal.FormatParses(Decimal.Parse(literal).value);
    case Array(items) =>
      forall i | 0 <= i < |items|
        ensures Canonical(Normalize(parse, items[i]))
      {
        SecondTripIsIdle(parse, items[i]);
      }
    case Object(fields) =>
      forall name | name in fields
        ensures Canonical(Normalize(parse, fields[name]))
      {
        SecondTripIsIdle(parse, fields[name]);
      }
    case _ =>
  }
}
