/** The conversion of Lua values to JSON values. */
module LuaBridge {
  import opened LuaTable
  import opened LuaJson
  import opened LuaGraph
  import Decimal

  datatype Outcome = Ok(json: Json) | Err(problem: Problem)

  /** The tables that are being converted, shared by the whole conversion. */
  class Active {
    var tables: set<Table>

    constructor ()
      ensures tables == {}
    {
      tables := {};
    }
  }

  /** The tables hold what the heap says. */
  ghost predicate Snapshot(heap: Heap)
    reads heap.Keys
  {
    forall t :: t in heap ==> t.meta == heap[t].meta && t.entries == heap[t].entries
  }

  // ---- the conversion ----------------------------------------------------------------------------

  /** `luaToGo`: converts exactly what stands for a JSON value, and leaves `active` as it was. */
  method LuaToGo(b: Bridge, v: Value, active: Active, ghost heap: Heap, ghost root: Value, ghost steps: seq<nat>)
    returns (r: Outcome, ghost at: seq<nat>)
    requires Closed(heap) && Snapshot(heap) && Inside(heap, v) && Trail(b, heap, active.tables, root, steps, v)
    modifies active
    ensures active.tables == old(active.tables)
    ensures r.Ok? ==> Denotes(b, heap, v, r.json)
    ensures r.Err? ==> Fails(b, heap, v)
    ensures r.Err? ==> steps <= at && Blame(b, heap, root, r.problem, at)
    decreases heap.Keys - active.tables, 0
  {
    at := steps;
    match v
    case Nil => r := Ok(Null);
    case Bool(flag) => r := Ok(Boolean(flag));
    case Str(text) => r := Ok(String(text));
    case Int(number) => r := Ok(Number(Decimal.Format(number)));
    case Float(double) => r := if double.Finite? then Ok(FloatNumber(double)) else Err(NonFinite);
    case VirtualTable => r := Err(VirtualResult);
    case Other(kind) => r := Err(UnsupportedResult(kind));
    case Ref(table) =>
      if table == b.nullTable {
        return Ok(Null), steps;
      }
      if table in active.tables {
        ghost var earlier := TrailCycle(b, heap, active.tables, root, steps, table);
        CycleFails(b, heap, v, steps[|earlier|..]);
        return Err(Cycle), steps;
      }
      active.tables := active.tables + {table};
      r, at := LuaTableToGo(b, table, active, heap, root, steps, old(active.tables));
      active.tables := active.tables - {table};
  }

  /** `luaTableToGo`: by tag, or else by the keys. */
  method LuaTableToGo(b: Bridge, table: Table, active: Active, ghost heap: Heap, ghost root: Value, ghost steps: seq<nat>, ghost above: set<Table>)
    returns (r: Outcome, ghost at: seq<nat>)
    requires Closed(heap) && Snapshot(heap) && table in heap && table != b.nullTable
    requires Trail(b, heap, above, root, steps, Ref(table)) && active.tables == above + {table}
    modifies active
    ensures active.tables == old(active.tables)
    ensures r.Ok? ==> Denotes(b, heap, Ref(table), r.json)
    ensures r.Err? ==> Fails(b, heap, Ref(table))
    ensures r.Err? ==> steps <= at && Blame(b, heap, root, r.problem, at)
    decreases heap.Keys - active.tables, 3
  {
    if table.meta == b.objectMeta {
      r, at := LuaObjectToGo(b, table, active, heap, root, steps, above);
      return;
    }
    if table.meta == b.arrayMeta {
      r, at := LuaArrayToGo(b, table, active, heap, root, steps, above);
      return;
    }
    if table.meta == b.nullMeta {
      return Err(InvalidNull), steps;
    }
    var count, isArray := InspectLuaTable(table);
    if isArray && count > 0 {
      r, at := LuaArrayToGo(b, table, active, heap, root, steps, above);
      return;
    }
    r, at := LuaObjectToGo(b, table, active, heap, root, steps, above);
  }

  /** `inspectLuaTable`: counts the entries and asks whether all keys are positive integers. */
  method InspectLuaTable(table: Table) returns (count: nat, isArray: bool)
    requires WellFormed(table.entries)
    ensures count == |table.entries| && (isArray <==> AllPositive(table.entries))
  {
    count, isArray := 0, true;
    var key := Nil;
    while true
      invariant count <= |table.entries|
      invariant key == if count == 0 then Nil else table.entries[count - 1].key
      invariant isArray <==> forall i :: 0 <= i < count ==> IsPositive(table.entries[i].key)
      decreases |table.entries| - count
    {
      var next := table.Step(key, count);
      if !next.Next? {
        break;
      }
      count := count + 1;
      if !next.key.Int? || next.key.number < 1 {
        isArray := false;
      }
      key := next.key;
    }
  }

  /** `luaArrayToGo`: the items under the keys 1 to the number of entries. */
  method LuaArrayToGo(b: Bridge, table: Table, active: Active, ghost heap: Heap, ghost root: Value, ghost steps: seq<nat>, ghost above: set<Table>)
    returns (r: Outcome, ghost at: seq<nat>)
    requires Closed(heap) && Snapshot(heap) && table in heap && table != b.nullTable && ShapeOf(b, heap[table]) == ArrayShape
    requires Trail(b, heap, above, root, steps, Ref(table)) && active.tables == above + {table}
    modifies active
    ensures active.tables == old(active.tables)
    ensures r.Ok? ==> Denotes(b, heap, Ref(table), r.json)
    ensures r.Err? ==> Fails(b, heap, Ref(table))
    ensures r.Err? ==> steps <= at && Blame(b, heap, root, r.problem, at)
    decreases heap.Keys - active.tables, 2
  {
    var count, isArray := InspectLuaTable(table);
    LengthRecognisesSequences(table.entries);
    if !isArray || Length(table.entries) != count {
      SequenceFails(b, heap, table);
      return Err(NotContiguous), steps;
    }
    var items: seq<Json> := [];
    var index := 1;
    while index <= count
      invariant 1 <= index <= count + 1 && |items| == index - 1
      invariant active.tables == old(active.tables)
      invariant forall i :: 0 <= i < |items| ==> Denotes(b, heap, Lookup(heap[table].entries, Int(i + 1)), items[i])
    {
      var item;
      item, at := ItemToGo(b, table, index, active, heap, root, steps, above);
      if item.Err? {
        return item, at;
      }
      items := items + [item.json];
      index := index + 1;
    }
    return Ok(Array(items)), steps;
  }

  /** One item of an array. */
  method ItemToGo(b: Bridge, table: Table, index: nat, active: Active, ghost heap: Heap, ghost root: Value, ghost steps: seq<nat>, ghost above: set<Table>)
    returns (r: Outcome, ghost at: seq<nat>)
    requires Closed(heap) && Snapshot(heap) && table in heap && table != b.nullTable && ShapeOf(b, heap[table]) == ArrayShape
    requires 1 <= index <= |heap[table].entries| && Sequential(heap[table].entries, |heap[table].entries|)
    requires Trail(b, heap, above, root, steps, Ref(table)) && active.tables == above + {table}
    modifies active
    ensures active.tables == old(active.tables)
    ensures r.Ok? ==> Denotes(b, heap, Lookup(heap[table].entries, Int(index)), r.json)
    ensures r.Err? ==> Fails(b, heap, Ref(table))
    ensures r.Err? ==> steps <= at && Blame(b, heap, root, r.problem, at)
    decreases heap.Keys - active.tables, 1
  {
    ghost var entry := IndexEntry(heap[table].entries, index);
    TrailEntry(b, heap, above, root, steps, table, entry);
    r, at := LuaToGo(b, Lookup(table.entries, Int(index)), active, heap, root, steps + [entry]);
    if r.Err? {
      ItemFails(b, heap, table, index - 1);
    }
  }

  /** `luaObjectToGo`: every entry, in the order of iteration. */
  method LuaObjectToGo(b: Bridge, table: Table, active: Active, ghost heap: Heap, ghost root: Value, ghost steps: seq<nat>, ghost above: set<Table>)
    returns (r: Outcome, ghost at: seq<nat>)
    requires Closed(heap) && Snapshot(heap) && table in heap && table != b.nullTable && ShapeOf(b, heap[table]) == ObjectShape
    requires Trail(b, heap, above, root, steps, Ref(table)) && active.tables == above + {table}
    modifies active
    ensures active.tables == old(active.tables)
    ensures r.Ok? ==> Denotes(b, heap, Ref(table), r.json)
    ensures r.Err? ==> Fails(b, heap, Ref(table))
    ensures r.Err? ==> steps <= at && Blame(b, heap, root, r.problem, at)
    decreases heap.Keys - active.tables, 2
  {
    var fields: map<string, Json> := map[];
    var key := Nil;
    ghost var i := 0;
    var next := table.Step(key, i);
    while next.Next?
      invariant 0 <= i <= |table.entries|
      invariant next == if i == |table.entries| then End else Next(table.entries[i].key, table.entries[i].value)
      invariant active.tables == old(active.tables)
      invariant Collected(b, heap, table, fields, i)
      decreases |table.entries| - i
    {
      key := next.key;
      r, at := FieldToGo(b, table, key, next.value, i, fields, active, heap, root, steps, above);
      if r.Err? {
        return;
      }
      fields := fields[key.text := r.json];
      i := i + 1;
      next := table.Step(key, i);
    }
    CollectedAll(b, heap, table, fields);
    return Ok(Object(fields)), steps;
  }

  /** One entry of an object. */
  method FieldToGo(b: Bridge, table: Table, key: Value, value: Value, ghost i: nat, ghost fields: map<string, Json>, active: Active, ghost heap: Heap, ghost root: Value, ghost steps: seq<nat>, ghost above: set<Table>)
    returns (r: Outcome, ghost at: seq<nat>)
    requires Closed(heap) && Snapshot(heap) && table in heap && table != b.nullTable && ShapeOf(b, heap[table]) == ObjectShape
    requires i < |heap[table].entries| && heap[table].entries[i] == Entry(key, value)
    requires Collected(b, heap, table, fields, i)
    requires Trail(b, heap, above, root, steps, Ref(table)) && active.tables == above + {table}
    modifies active
    ensures active.tables == old(active.tables)
    ensures r.Ok? ==> key.Str? && Collected(b, heap, table, fields[key.text := r.json], i + 1)
    ensures r.Err? ==> Fails(b, heap, Ref(table))
    ensures r.Err? ==> steps <= at && Blame(b, heap, root, r.problem, at)
    decreases heap.Keys - active.tables, 1
  {
    if !key.Str? {
      FieldFails(b, heap, table, i);
      return Err(NonStringKey), steps;
    }
    TrailEntry(b, heap, above, root, steps, table, i);
    r, at := LuaToGo(b, value, active, heap, root, steps + [i]);
    if r.Err? {
      FieldFails(b, heap, table, i);
    } else {
      CollectedNext(b, heap, table, fields, i, r.json);
    }
  }

  /** `newJSONBridge`: three metatables and the table that stands for null. */
  method NewBridge() returns (b: Bridge, ghost heap: Heap)
    ensures Distinct(b) && Closed(heap) && Snapshot(heap) && b.nullTable in heap
    ensures heap[b.nullTable] == Contents(b.nullMeta, [])
  {
    var objectMeta := new Table(null);
    var arrayMeta := new Table(null);
    var nullMeta := new Table(null);
    var nullTable := new Table(nullMeta);
    b := Bridge(objectMeta, arrayMeta, nullMeta, nullTable);
    heap := map[nullTable := Contents(nullMeta, [])];
  }

  /** From the outside: a result exactly for sound graphs without cycles, the only one the value
      stands for, and otherwise the place and the reason of the failure. */
  method Convert(b: Bridge, v: Value, ghost heap: Heap) returns (r: Outcome, ghost at: seq<nat>)
    requires Closed(heap) && Snapshot(heap) && Inside(heap, v)
    ensures r.Ok? <==> Sound(b, heap, v) && Acyclic(b, heap, v)
    ensures r.Ok? <==> !Fails(b, heap, v)
    ensures r.Ok? ==> Denotes(b, heap, v, r.json) && forall j :: Denotes(b, heap, v, j) ==> j == r.json
    ensures r.Err? ==> Blame(b, heap, v, r.problem, at)
  {
    var active := new Active();
    r, at := LuaToGo(b, v, active, heap, v, []);
    if r.Ok? {
      DenotedIsSound(b, heap, v, r.json);
      forall j | Denotes(b, heap, v, j)
        ensures j == r.json
      {
        DenotesOne(b, heap, v, j, r.json);
      }
    } else {
      BlameBreaks(b, heap, v, r.problem, at);
    }
  }
}
