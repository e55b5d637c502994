/** Which JSON value a Lua value stands for. */
module LuaJson {
  import opened LuaTable
  import opened Options
  import Decimal

  datatype Json =
    | Null
    | Boolean(flag: bool)
    | String(text: string)
    | Number(literal: string)
    | FloatNumber(double: Double)
    | Array(items: seq<Json>)
    | Object(fields: map<string, Json>)
    | Unsupported(kind: string)

  /** The metatables that tag containers, and the table that stands for null. */
  datatype Bridge = Bridge(objectMeta: Table, arrayMeta: Table, nullMeta: Table, nullTable: Table)

  ghost predicate Distinct(b: Bridge) {
    b.objectMeta != b.arrayMeta && b.objectMeta != b.nullMeta && b.arrayMeta != b.nullMeta
  }

  /** The contents of all tables at one moment. */
  type Heap = map<Table, Contents>

  /** Tables are well formed and lead only to other tables of the heap. */
  ghost predicate Closed(heap: Heap) {
    && (forall t :: t in heap ==> WellFormed(heap[t].entries))
    && (forall t, i :: t in heap && 0 <= i < |heap[t].entries| ==> Inside(heap, heap[t].entries[i].value))
  }

  ghost predicate Inside(heap: Heap, v: Value) { v.Ref? ==> v.table in heap }

  datatype Shape = ArrayShape | ObjectShape | NullShape

  predicate IsPositive(key: Value) { key.Int? && key.number >= 1 }

  predicate AllPositive(entries: seq<Entry>) {
    forall i :: 0 <= i < |entries| ==> IsPositive(entries[i].key)
  }

  /** A tagged table is what its tag says; an untagged one is an array if it has only positive keys, and some. */
  function ShapeOf(b: Bridge, c: Contents): Shape {
    if c.meta == b.objectMeta then ObjectShape
    else if c.meta == b.arrayMeta then ArrayShape
    else if c.meta == b.nullMeta then NullShape
    else if c.entries != [] && AllPositive(c.entries) then ArrayShape
    else ObjectShape
  }

  /** The keys are exactly the names of the fields. */
  ghost predicate Named(entries: seq<Entry>, names: set<string>) {
    && (forall i :: 0 <= i < |entries| ==> IsName(entries[i].key, names))
    && (forall name :: name in names ==> HasKey(entries, Str(name)))
  }

  predicate IsName(key: Value, names: set<string>) { key.Str? && key.text in names }

  /** The JSON value is the full unfolding of the Lua value; the order of entries plays no part. */
  ghost predicate Denotes(b: Bridge, heap: Heap, v: Value, j: Json)
    decreases j
  {
    match v
    case Nil => j == Null
    case Bool(flag) => j == Boolean(flag)
    case Str(text) => j == String(text)
    case Int(number) => j == Number(Decimal.Format(number))
    case Float(double) => double.Finite? && j == FloatNumber(double)
    case Ref(t) =>
      if t == b.nullTable then j == Null
      else
        t in heap &&
        (match ShapeOf(b, heap[t])
        case ArrayShape =>
          j.Array? && Sequential(heap[t].entries, |j.items|) &&
          forall i :: 0 <= i < |j.items| ==> Denotes(b, heap, Lookup(heap[t].entries, Int(i + 1)), j.items[i])
        case ObjectShape =>
          j.Object? && Named(heap[t].entries, j.fields.Keys) &&
          forall name :: name in j.fields ==> Denotes(b, heap, Lookup(heap[t].entries, Str(name)), j.fields[name])
        case NullShape => false)
    case VirtualTable => false
    case Other(_) => false
  }

  // ---- the meaning, case by case ----------------------------------------------------------

  /** The items under the keys 1 to n. */
  ghost predicate ItemsDenote(b: Bridge, heap: Heap, entries: seq<Entry>, j: Json) {
    && j.Array? && Sequential(entries, |j.items|)
    && forall i :: 0 <= i < |j.items| ==> Denotes(b, heap, Lookup(entries, Int(i + 1)), j.items[i])
  }

  /** The fields under their names. */
  ghost predicate FieldsDenote(b: Bridge, heap: Heap, entries: seq<Entry>, j: Json) {
    && j.Object? && Named(entries, j.fields.Keys)
    && forall name :: name in j.fields ==> Denotes(b, heap, Lookup(entries, Str(name)), j.fields[name])
  }

  ghost predicate PositiveKeys(entries: seq<Entry>) {
    entries != [] && forall i :: 0 <= i < |entries| ==> IsPositiveInteger(entries[i].key)
  }

  ghost predicate IsPositiveInteger(key: Value) {
    exists n: int :: n > 0 && key == Int(n)
  }

  /** A table counts as what its tag says; without a tag as an array exactly if it has entries and only
      positive integer keys, and as an object otherwise. */
  lemma TableDenotesIff(b: Bridge, heap: Heap, t: Table, j: Json)
    requires Distinct(b) && t in heap && t != b.nullTable
    ensures heap[t].meta == b.arrayMeta ==> (Denotes(b, heap, Ref(t), j) <==> ItemsDenote(b, heap, heap[t].entries, j))
    ensures heap[t].meta == b.objectMeta ==> (Denotes(b, heap, Ref(t), j) <==> FieldsDenote(b, heap, heap[t].entries, j))
    ensures heap[t].meta == b.nullMeta ==> !Denotes(b, heap, Ref(t), j)
    ensures heap[t].meta !in {b.arrayMeta, b.objectMeta, b.nullMeta} ==>
              (Denotes(b, heap, Ref(t), j) <==>
               if PositiveKeys(heap[t].entries) then ItemsDenote(b, heap, heap[t].entries, j)
               else FieldsDenote(b, heap, heap[t].entries, j))
  {
    PositiveMeans(heap[t].entries);
  }

  lemma PositiveMeans(entries: seq<Entry>)
    ensures PositiveKeys(entries) <==> entries != [] && AllPositive(entries)
  {
    forall i | 0 <= i < |entries|
      ensures IsPositive(entries[i].key) <==> IsPositiveInteger(entries[i].key)
    {
      if IsPositive(entries[i].key) {
        assert entries[i].key == Int(entries[i].key.number);
      }
    }
  }

  /** Everything else stands for itself, integers for their decimal text, or for nothing. */
  lemma ScalarsDenote(b: Bridge, heap: Heap, j: Json)
    ensures Denotes(b, heap, Nil, j) <==> j == Null
    ensures Denotes(b, heap, Ref(b.nullTable), j) <==> j == Null
    ensures forall flag :: Denotes(b, heap, Bool(flag), j) <==> j == Boolean(flag)
    ensures forall text :: Denotes(b, heap, Str(text), j) <==> j == String(text)
    ensures forall n :: Denotes(b, heap, Int(n), j) <==> j == Number(Decimal.Format(n))
    ensures forall x: real :: Denotes(b, heap, Float(Finite(x)), j) <==> j == FloatNumber(Finite(x))
    ensures !Denotes(b, heap, Float(Infinite), j) && !Denotes(b, heap, Float(NaN), j) && !Denotes(b, heap, VirtualTable, j)
    ensures forall kind :: !Denotes(b, heap, Other(kind), j)
  {
  }

  /** A Lua value stands for at most one JSON value. */
  lemma {:induction false} DenotesOne(b: Bridge, heap: Heap, v: Value, j: Json, k: Json)
    requires Denotes(b, heap, v, j) && Denotes(b, heap, v, k)
    requires Closed(heap)
    ensures j == k
    decreases j
  {
    if v.Ref? && v.table != b.nullTable {
      var entries := heap[v.table].entries;
      if j.Array? {
        SequentialKeys(entries, |j.items|);
        SequentialKeys(entries, |k.items|);
        forall i | 0 <= i < |j.items|
          ensures j.items[i] == k.items[i]
        {
          DenotesOne(b, heap, Lookup(entries, Int(i + 1)), j.items[i], k.items[i]);
        }
      } else {
        SameNames(entries, j.fields.Keys, k.fields.Keys);
        forall name | name in j.fields
          ensures j.fields[name] == k.fields[name]
        {
          DenotesOne(b, heap, Lookup(entries, Str(name)), j.fields[name], k.fields[name]);
        }
      }
    }
  }

  lemma SameNames(entries: seq<Entry>, names: set<string>, others: set<string>)
    requires Named(entries, names) && Named(entries, others)
    ensures names == others
  {
    forall name | name in names
      ensures name in others
    {
      var i :| 0 <= i < |entries| && entries[i].key == Str(name);
      assert IsName(entries[i].key, others);
    }
    forall name | name in others
      ensures name in names
    {
      var i :| 0 <= i < |entries| && entries[i].key == Str(name);
      assert IsName(entries[i].key, names);
    }
  }

  /** Empty containers keep their kind only by their tag. */
  lemma EmptyContainers(b: Bridge, heap: Heap, t: Table)
    requires Distinct(b) && t in heap && t != b.nullTable && heap[t].entries == []
    ensures heap[t].meta == b.arrayMeta ==> Denotes(b, heap, Ref(t), Array([]))
    ensures heap[t].meta != b.arrayMeta && heap[t].meta != b.nullMeta ==> Denotes(b, heap, Ref(t), Object(map[]))
    ensures heap[t].meta == b.nullMeta ==> forall j :: !Denotes(b, heap, Ref(t), j)
  {
  }

  /** A table reached twice is unfolded twice, to the same value. */
  lemma SharedItemsRepeat(b: Bridge, heap: Heap, t: Table, j: Json, i: nat, k: nat)
    requires Closed(heap) && t != b.nullTable && Denotes(b, heap, Ref(t), j) && j.Array? && i < |j.items| && k < |j.items|
    requires Lookup(heap[t].entries, Int(i + 1)) == Lookup(heap[t].entries, Int(k + 1))
    ensures j.items[i] == j.items[k]
  {
    DenotesOne(b, heap, Lookup(heap[t].entries, Int(i + 1)), j.items[i], j.items[k]);
  }

  // ---- the order of entries ------------------------------------------------------------

  /** The same fields, perhaps iterated in another order. */
  ghost predicate Reordered(c: Contents, d: Contents) {
    c.meta == d.meta && multiset(c.entries) == multiset(d.entries)
  }

  lemma SameEntries(entries: seq<Entry>, others: seq<Entry>, i: nat) returns (k: nat)
    requires multiset(entries) == multiset(others) && i < |entries|
    ensures k < |others| && others[k] == entries[i]
  {
    assert entries[i] in multiset(others);
    k :| k < |others| && others[k] == entries[i];
  }

  lemma SameKeys(entries: seq<Entry>, others: seq<Entry>)
    requires multiset(entries) == multiset(others)
    ensures |entries| == |others|
    ensures AllPositive(entries) ==> AllPositive(others)
    ensures forall n: nat :: Sequential(entries, n) ==> Sequential(others, n)
    ensures forall names :: Named(entries, names) ==> Named(others, names)
  {
    assert |multiset(entries)| == |multiset(others)|;
    forall i | 0 <= i < |others|
      ensures exists k :: 0 <= k < |entries| && entries[k].key == others[i].key
    {
      var k := SameEntries(others, entries, i);
    }
    forall i | 0 <= i < |entries|
      ensures HasKey(others, entries[i].key)
    {
      var k := SameEntries(entries, others, i);
    }
    forall names | Named(entries, names)
      ensures Named(others, names)
    {
      assert forall i :: 0 <= i < |others| ==> IsName(others[i].key, names);
    }
    forall n: nat | Sequential(entries, n)
      ensures Sequential(others, n)
    {
      assert forall i :: 0 <= i < |others| ==> IsIndex(others[i].key, n);
    }
  }

  lemma SameLookup(entries: seq<Entry>, others: seq<Entry>, key: Value)
    requires multiset(entries) == multiset(others) && WellFormed(entries) && WellFormed(others)
    requires HasKey(entries, key)
    ensures Lookup(entries, key) == Lookup(others, key)
  {
    var i :| 0 <= i < |entries| && entries[i].key == key;
    var k := SameEntries(entries, others, i);
    LookupAt(entries, i);
    LookupAt(others, k);
  }

  /** All that the bridge asks of a table is the same. */
  lemma SameTable(b: Bridge, c: Contents, d: Contents)
    requires Reordered(c, d) && WellFormed(c.entries) && WellFormed(d.entries)
    ensures ShapeOf(b, c) == ShapeOf(b, d)
    ensures forall n: nat :: Sequential(c.entries, n) ==> Sequential(d.entries, n)
    ensures forall names :: Named(c.entries, names) ==> Named(d.entries, names)
    ensures forall i: int :: HasKey(c.entries, Int(i)) ==> Lookup(c.entries, Int(i)) == Lookup(d.entries, Int(i))
    ensures forall name: string :: HasKey(c.entries, Str(name)) ==> Lookup(c.entries, Str(name)) == Lookup(d.entries, Str(name))
  {
    SameKeys(c.entries, d.entries);
    SameKeys(d.entries, c.entries);
    forall i: int | HasKey(c.entries, Int(i))
      ensures Lookup(c.entries, Int(i)) == Lookup(d.entries, Int(i))
    {
      SameLookup(c.entries, d.entries, Int(i));
    }
    forall name: string | HasKey(c.entries, Str(name))
      ensures Lookup(c.entries, Str(name)) == Lookup(d.entries, Str(name))
    {
      SameLookup(c.entries, d.entries, Str(name));
    }
  }

  /** Tables are looked up, not enumerated: reordering their entries changes nothing. */
  lemma {:induction false} OrderIsIrrelevant(b: Bridge, heap: Heap, other: Heap, v: Value, j: Json)
    requires heap.Keys == other.Keys && forall t :: t in heap ==> Reordered(heap[t], other[t])
    requires Closed(heap) && Closed(other) && Denotes(b, heap, v, j)
    ensures Denotes(b, other, v, j)
    decreases j
  {
    if v.Ref? && v.table != b.nullTable {
      SameTable(b, heap[v.table], other[v.table]);
      var entries := heap[v.table].entries;
      if j.Array? {
        forall i | 0 <= i < |j.items|
          ensures Denotes(b, other, Lookup(entries, Int(i + 1)), j.items[i])
        {
          OrderIsIrrelevant(b, heap, other, Lookup(entries, Int(i + 1)), j.items[i]);
        }
      } else {
        forall name | name in j.fields
          ensures Denotes(b, other, Lookup(entries, Str(name)), j.fields[name])
        {
          OrderIsIrrelevant(b, heap, other, Lookup(entries, Str(name)), j.fields[name]);
        }
      }
    }
  }

  // ---- walks and cycles -------------------------------------------------------------------

  /** The bridge descends into the entries of the value. */
  ghost predicate Descends(b: Bridge, heap: Heap, v: Value) {
    v.Ref? && v.table != b.nullTable && v.table in heap
  }

  /** Where following one entry after another leads; `steps` chooses them by position. */
  ghost function Walk(b: Bridge, heap: Heap, v: Value, steps: seq<nat>): Option<Value>
    decreases |steps|
  {
    if steps == [] then Some(v)
    else
      var last := |steps| - 1;
      var before := Walk(b, heap, v, steps[..last]);
      if before.Some? && Descends(b, heap, before.value) && steps[last] < |heap[before.value.table].entries|
      then Some(heap[before.value.table].entries[steps[last]].value) else None
  }

  /** A walk and a continuation of it that arrive at the same place: a cycle. */
  ghost predicate Revisits(b: Bridge, heap: Heap, v: Value, steps: seq<nat>, again: seq<nat>) {
    steps < again && Walk(b, heap, v, again).Some? && Walk(b, heap, v, steps) == Walk(b, heap, v, again)
  }

  lemma {:induction false} WalkConcat(b: Bridge, heap: Heap, v: Value, steps: seq<nat>, more: seq<nat>)
    requires Walk(b, heap, v, steps).Some?
    ensures Walk(b, heap, v, steps + more) == Walk(b, heap, Walk(b, heap, v, steps).value, more)
    decreases |more|
  {
    if more == [] {
      assert steps + more == steps;
    } else {
      var last := |more| - 1;
      WalkConcat(b, heap, v, steps, more[..last]);
      assert (steps + more)[..|steps| + last] == steps + more[..last];
    }
  }

  /** What an entry stands for is a part of what its table stands for. */
  lemma EntryDenotes(b: Bridge, heap: Heap, v: Value, i: nat, j: Json) returns (k: Json)
    requires Closed(heap) && Descends(b, heap, v) && i < |heap[v.table].entries| && Denotes(b, heap, v, j)
    ensures Denotes(b, heap, heap[v.table].entries[i].value, k) && k < j
  {
    var entries := heap[v.table].entries;
    LookupAt(entries, i);
    if j.Array? {
      assert IsIndex(entries[i].key, |j.items|);
      k := j.items[entries[i].key.number - 1];
    } else {
      assert IsName(entries[i].key, j.fields.Keys);
      k := j.fields[entries[i].key.text];
    }
  }

  /** Every place a walk reaches stands for a part, and a longer walk for a smaller one. */
  lemma {:induction false} WalkDenotes(b: Bridge, heap: Heap, v: Value, steps: seq<nat>, j: Json) returns (k: Json)
    requires Closed(heap) && Denotes(b, heap, v, j) && Walk(b, heap, v, steps).Some?
    ensures Denotes(b, heap, Walk(b, heap, v, steps).value, k)
    ensures k == j || k < j
    ensures steps != [] ==> k < j
    decreases |steps|
  {
    k := j;
    if steps != [] {
      var last := |steps| - 1;
      var before := WalkDenotes(b, heap, v, steps[..last], j);
      k := EntryDenotes(b, heap, Walk(b, heap, v, steps[..last]).value, steps[last], before);
    }
  }

  lemma {:induction false} WalkSome(b: Bridge, heap: Heap, v: Value, steps: seq<nat>, n: nat)
    requires n <= |steps| && Walk(b, heap, v, steps).Some?
    ensures Walk(b, heap, v, steps[..n]).Some?
    decreases |steps|
  {
    if n == |steps| {
      assert steps[..n] == steps;
    } else {
      WalkSome(b, heap, v, steps[..|steps| - 1], n);
      assert steps[..|steps| - 1][..n] == steps[..n];
    }
  }

  /** A value from which a cycle can be reached stands for nothing. */
  lemma CyclesNeverDenote(b: Bridge, heap: Heap, v: Value, steps: seq<nat>, again: seq<nat>, j: Json)
    requires Closed(heap) && Revisits(b, heap, v, steps, again)
    ensures !Denotes(b, heap, v, j)
  {
    if Denotes(b, heap, v, j) {
      var place := Walk(b, heap, v, steps).value;
      var more := again[|steps|..];
      assert steps + more == again;
      WalkConcat(b, heap, v, steps, more);
      var at := WalkDenotes(b, heap, v, steps, j);
      var later := WalkDenotes(b, heap, place, more, at);
      DenotesOne(b, heap, place, at, later);
    }
  }
}
