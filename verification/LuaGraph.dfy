/** When a Lua value stands for a JSON value, told from the graph of its tables. */
module LuaGraph {
  import opened Options
  import opened LuaTable
  import opened LuaJson
  import Decimal

  datatype Problem =
    | NonFinite
    | VirtualResult
    | Cycle
    | InvalidNull
    | NotContiguous
    | NonStringKey
    | UnsupportedResult(kind: string)

  /** The value stands for no JSON value. */
  ghost predicate Fails(b: Bridge, heap: Heap, v: Value) {
    forall j :: !Denotes(b, heap, v, j)
  }

  // ---- the condition on the graph ------------------------------------------------------------

  /** One value on its own: a finite scalar, null, or a table whose keys fit its shape. */
  ghost predicate SoundAt(b: Bridge, heap: Heap, v: Value) {
    match v
    case Float(double) => double.Finite?
    case VirtualTable => false
    case Other(_) => false
    case Ref(t) => t == b.nullTable || (t in heap && KeysFit(b, heap[t]))
    case _ => true
  }

  ghost predicate KeysFit(b: Bridge, c: Contents) {
    match ShapeOf(b, c)
    case ArrayShape => Sequential(c.entries, |c.entries|)
    case ObjectShape => forall i :: 0 <= i < |c.entries| ==> c.entries[i].key.Str?
    case NullShape => false
  }

  /** Everything that can be reached is sound on its own. */
  ghost predicate Sound(b: Bridge, heap: Heap, v: Value) {
    forall steps: seq<nat> :: Walk(b, heap, v, steps).Some? ==> SoundAt(b, heap, Walk(b, heap, v, steps).value)
  }

  ghost predicate Acyclic(b: Bridge, heap: Heap, v: Value) {
    forall steps: seq<nat>, again: seq<nat> :: !Revisits(b, heap, v, steps, again)
  }

  /** Where the conversion of `root` meets the problem it reports. */
  ghost predicate Blame(b: Bridge, heap: Heap, root: Value, problem: Problem, at: seq<nat>) {
    Walk(b, heap, root, at).Some? &&
    var v := Walk(b, heap, root, at).value;
    match problem
    case NonFinite => v.Float? && !v.double.Finite?
    case VirtualResult => v.VirtualTable?
    case UnsupportedResult(kind) => v == Other(kind)
    case Cycle => exists steps: seq<nat> :: Revisits(b, heap, root, steps, at)
    case InvalidNull => Descends(b, heap, v) && ShapeOf(b, heap[v.table]) == NullShape
    case NotContiguous =>
      Descends(b, heap, v) && ShapeOf(b, heap[v.table]) == ArrayShape && !Sequential(heap[v.table].entries, |heap[v.table].entries|)
    case NonStringKey =>
      Descends(b, heap, v) && ShapeOf(b, heap[v.table]) == ObjectShape &&
      exists i :: 0 <= i < |heap[v.table].entries| && !heap[v.table].entries[i].key.Str?
  }

  /** A reported problem shows that the graph is not sound or not acyclic. */
  lemma BlameBreaks(b: Bridge, heap: Heap, root: Value, problem: Problem, at: seq<nat>)
    requires Blame(b, heap, root, problem, at)
    ensures !(Sound(b, heap, root) && Acyclic(b, heap, root))
  {
  }

  /** What stands for something is sound and acyclic. */
  lemma DenotedIsSound(b: Bridge, heap: Heap, v: Value, j: Json)
    requires Closed(heap) && Denotes(b, heap, v, j)
    ensures Sound(b, heap, v) && Acyclic(b, heap, v)
  {
    forall steps: seq<nat> | Walk(b, heap, v, steps).Some?
      ensures SoundAt(b, heap, Walk(b, heap, v, steps).value)
    {
      var k := WalkDenotes(b, heap, v, steps, j);
      DenotedIsSoundAt(b, heap, Walk(b, heap, v, steps).value, k);
    }
    forall steps: seq<nat>, again: seq<nat>
      ensures !Revisits(b, heap, v, steps, again)
    {
      if Revisits(b, heap, v, steps, again) {
        CyclesNeverDenote(b, heap, v, steps, again, j);
      }
    }
  }

  lemma DenotedIsSoundAt(b: Bridge, heap: Heap, v: Value, j: Json)
    requires Closed(heap) && Denotes(b, heap, v, j)
    ensures SoundAt(b, heap, v)
  {
    if v.Ref? && v.table != b.nullTable {
      var entries := heap[v.table].entries;
      if j.Array? {
        SequentialKeys(entries, |j.items|);
      } else {
        assert forall i :: 0 <= i < |entries| ==> IsName(entries[i].key, j.fields.Keys);
      }
    }
  }

  // ---- the way from the root ---------------------------------------------------------------------

  ghost predicate OnTrail(b: Bridge, heap: Heap, root: Value, steps: seq<nat>, t: Table) {
    exists k :: 0 <= k < |steps| && Walk(b, heap, root, steps[..k]) == Some(Ref(t))
  }

  /** The walk leads to the value, through the given tables. */
  ghost predicate Trail(b: Bridge, heap: Heap, tables: set<Table>, root: Value, steps: seq<nat>, v: Value) {
    && Walk(b, heap, root, steps) == Some(v)
    && tables <= heap.Keys
    && (forall t :: t in tables ==> OnTrail(b, heap, root, steps, t))
  }

  /** A table that is already on the trail closes a cycle. */
  lemma TrailCycle(b: Bridge, heap: Heap, tables: set<Table>, root: Value, steps: seq<nat>, t: Table) returns (earlier: seq<nat>)
    requires Trail(b, heap, tables, root, steps, Ref(t)) && t in tables
    ensures Revisits(b, heap, root, earlier, steps)
    ensures Revisits(b, heap, Ref(t), [], steps[|earlier|..])
  {
    assert OnTrail(b, heap, root, steps, t);
    var k :| 0 <= k < |steps| && Walk(b, heap, root, steps[..k]) == Some(Ref(t));
    earlier := steps[..k];
    assert earlier + steps[k..] == steps;
    WalkConcat(b, heap, root, earlier, steps[k..]);
  }

  /** The trail of an entry. */
  lemma TrailEntry(b: Bridge, heap: Heap, tables: set<Table>, root: Value, steps: seq<nat>, t: Table, i: nat)
    requires t in heap && t != b.nullTable && Trail(b, heap, tables, root, steps, Ref(t)) && i < |heap[t].entries|
    ensures Trail(b, heap, tables + {t}, root, steps + [i], heap[t].entries[i].value)
  {
    var longer := steps + [i];
    assert longer[..|steps|] == steps;
    forall u | u in tables + {t}
      ensures OnTrail(b, heap, root, longer, u)
    {
      if u != t {
        assert OnTrail(b, heap, root, steps, u);
        var k :| 0 <= k < |steps| && Walk(b, heap, root, steps[..k]) == Some(Ref(u));
        assert longer[..k] == steps[..k];
      }
    }
  }

  // ---- why a conversion fails ---------------------------------------------------------------

  lemma ItemFails(b: Bridge, heap: Heap, t: Table, i: nat)
    requires t in heap && t != b.nullTable && Closed(heap) && ShapeOf(b, heap[t]) == ArrayShape
    requires i < |heap[t].entries| && Fails(b, heap, Lookup(heap[t].entries, Int(i + 1)))
    ensures Fails(b, heap, Ref(t))
  {
    forall j
      ensures !Denotes(b, heap, Ref(t), j)
    {
      if j.Array? && Sequential(heap[t].entries, |j.items|) {
        SequentialKeys(heap[t].entries, |j.items|);
        assert !Denotes(b, heap, Lookup(heap[t].entries, Int(i + 1)), j.items[i]);
      }
    }
  }

  lemma SequenceFails(b: Bridge, heap: Heap, t: Table)
    requires t in heap && t != b.nullTable && Closed(heap) && ShapeOf(b, heap[t]) == ArrayShape
    requires !Sequential(heap[t].entries, |heap[t].entries|)
    ensures Fails(b, heap, Ref(t))
  {
    forall j
      ensures !Denotes(b, heap, Ref(t), j)
    {
      if j.Array? && Sequential(heap[t].entries, |j.items|) {
        SequentialKeys(heap[t].entries, |j.items|);
      }
    }
  }

  lemma FieldFails(b: Bridge, heap: Heap, t: Table, i: nat)
    requires t in heap && t != b.nullTable && Closed(heap) && ShapeOf(b, heap[t]) == ObjectShape && i < |heap[t].entries|
    requires heap[t].entries[i].key.Str? ==> Fails(b, heap, heap[t].entries[i].value)
    ensures Fails(b, heap, Ref(t))
  {
    var entry := heap[t].entries[i];
    LookupAt(heap[t].entries, i);
    forall j
      ensures !Denotes(b, heap, Ref(t), j)
    {
      if j.Object? && Named(heap[t].entries, j.fields.Keys) {
        assert IsName(entry.key, j.fields.Keys);
        assert !Denotes(b, heap, Lookup(heap[t].entries, entry.key), j.fields[entry.key.text]);
      }
    }
  }

  lemma CycleFails(b: Bridge, heap: Heap, v: Value, again: seq<nat>)
    requires Closed(heap) && Revisits(b, heap, v, [], again)
    ensures Fails(b, heap, v)
  {
    forall j {
      CyclesNeverDenote(b, heap, v, [], again, j);
    }
  }

  lemma IndexEntry(entries: seq<Entry>, index: nat) returns (at: nat)
    requires WellFormed(entries) && HasKey(entries, Int(index))
    ensures at < |entries| && entries[at].value == Lookup(entries, Int(index))
  {
    at :| at < |entries| && entries[at].key == Int(index);
    LookupAt(entries, at);
  }

  lemma CollectedAll(b: Bridge, heap: Heap, table: Table, fields: map<string, Json>)
    requires table in heap && table != b.nullTable && ShapeOf(b, heap[table]) == ObjectShape
    requires Collected(b, heap, table, fields, |heap[table].entries|)
    ensures Denotes(b, heap, Ref(table), Object(fields))
  {
  }

  /** The fields of the first `i` entries. */
  ghost predicate Collected(b: Bridge, heap: Heap, table: Table, fields: map<string, Json>, i: nat)
    requires table in heap && i <= |heap[table].entries|
  {
    var entries := heap[table].entries;
    && (forall k :: 0 <= k < i ==> IsName(entries[k].key, fields.Keys))
    && (forall name :: name in fields ==> HasKey(entries, Str(name)) && Denotes(b, heap, Lookup(entries, Str(name)), fields[name]))
  }

  lemma CollectedNext(b: Bridge, heap: Heap, table: Table, fields: map<string, Json>, i: nat, j: Json)
    requires Closed(heap) && table in heap && i < |heap[table].entries| && Collected(b, heap, table, fields, i)
    requires heap[table].entries[i].key.Str? && Denotes(b, heap, heap[table].entries[i].value, j)
    ensures Collected(b, heap, table, fields[heap[table].entries[i].key.text := j], i + 1)
  {
    LookupAt(heap[table].entries, i);
  }

  // ---- sound and acyclic graphs stand for something --------------------------------------------------

  lemma TrailIsNew(b: Bridge, heap: Heap, tables: set<Table>, root: Value, steps: seq<nat>, t: Table)
    requires Acyclic(b, heap, root) && Trail(b, heap, tables, root, steps, Ref(t))
    ensures t !in tables
  {
    if t in tables {
      var earlier := TrailCycle(b, heap, tables, root, steps, t);
      assert false;
    }
  }

  lemma {:induction false} Unfold(b: Bridge, heap: Heap, tables: set<Table>, root: Value, steps: seq<nat>, v: Value) returns (j: Json)
    requires Closed(heap) && Inside(heap, v) && Sound(b, heap, root) && Acyclic(b, heap, root)
    requires Trail(b, heap, tables, root, steps, v)
    ensures Denotes(b, heap, v, j)
    decreases heap.Keys - tables, 1
  {
    assert SoundAt(b, heap, v);
    match v
    case Nil => j := Null;
    case Bool(flag) => j := Boolean(flag);
    case Str(text) => j := String(text);
    case Int(number) => j := Number(Decimal.Format(number));
    case Float(double) => j := FloatNumber(double);
    case Ref(t) =>
      j := Null;
      if t != b.nullTable {
        TrailIsNew(b, heap, tables, root, steps, t);
        if ShapeOf(b, heap[t]) == ArrayShape {
          j := UnfoldArray(b, heap, tables, root, steps, t);
        } else {
          j := UnfoldObject(b, heap, tables, root, steps, t);
        }
      }
  }

  lemma UnfoldArray(b: Bridge, heap: Heap, tables: set<Table>, root: Value, steps: seq<nat>, t: Table) returns (j: Json)
    requires Closed(heap) && Sound(b, heap, root) && Acyclic(b, heap, root) && Trail(b, heap, tables, root, steps, Ref(t))
    requires t in heap && t != b.nullTable && t !in tables
    requires ShapeOf(b, heap[t]) == ArrayShape && Sequential(heap[t].entries, |heap[t].entries|)
    ensures Denotes(b, heap, Ref(t), j)
    decreases heap.Keys - tables, 0
  {
    var entries := heap[t].entries;
    var items: seq<Json> := [];
    while |items| < |entries|
      invariant |items| <= |entries|
      invariant forall i :: 0 <= i < |items| ==> Denotes(b, heap, Lookup(entries, Int(i + 1)), items[i])
    {
      var at := IndexEntry(entries, |items| + 1);
      TrailEntry(b, heap, tables, root, steps, t, at);
      var item := Unfold(b, heap, tables + {t}, root, steps + [at], entries[at].value);
      items := items + [item];
    }
    j := Array(items);
  }

  lemma UnfoldObject(b: Bridge, heap: Heap, tables: set<Table>, root: Value, steps: seq<nat>, t: Table) returns (j: Json)
    requires Closed(heap) && Sound(b, heap, root) && Acyclic(b, heap, root) && Trail(b, heap, tables, root, steps, Ref(t))
    requires t in heap && t != b.nullTable && t !in tables
    requires ShapeOf(b, heap[t]) == ObjectShape && forall i :: 0 <= i < |heap[t].entries| ==> heap[t].entries[i].key.Str?
    ensures Denotes(b, heap, Ref(t), j)
    decreases heap.Keys - tables, 0
  {
    var entries := heap[t].entries;
    var fields: map<string, Json> := map[];
    var i := 0;
    while i < |entries|
      invariant 0 <= i <= |entries| && Collected(b, heap, t, fields, i)
    {
      TrailEntry(b, heap, tables, root, steps, t, i);
      var item := Unfold(b, heap, tables + {t}, root, steps + [i], entries[i].value);
      CollectedNext(b, heap, t, fields, i, item);
      fields := fields[entries[i].key.text := item];
      i := i + 1;
    }
    CollectedAll(b, heap, t, fields);
    j := Object(fields);
  }

  /** A value stands for a JSON value exactly when everything it reaches is sound and there is no cycle. */
  lemma DenotesIffSound(b: Bridge, heap: Heap, v: Value)
    requires Closed(heap) && Inside(heap, v)
    ensures !Fails(b, heap, v) <==> Sound(b, heap, v) && Acyclic(b, heap, v)
  {
    if !Fails(b, heap, v) {
      var j :| Denotes(b, heap, v, j);
      DenotedIsSound(b, heap, v, j);
    }
    if Sound(b, heap, v) && Acyclic(b, heap, v) {
      assert Trail(b, heap, {}, v, [], v);
      var j := Unfold(b, heap, {}, v, [], v);
    }
  }
}
