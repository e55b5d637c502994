/** Lua values and tables, as far as the JSON bridge uses them. */
module LuaTable {
  import opened Sets

  /** A 64-bit float; only its being finite matters to the bridge. */
  datatype Double = Finite(value: real) | Infinite | NaN

  datatype Value =
    | Nil
    | Bool(flag: bool)
    | Str(text: string)
    | Int(number: int)
    | Float(double: Double)
    | Ref(table: Table)
    | VirtualTable
    | Other(kind: string)

  datatype Entry = Entry(key: Value, value: Value)

  /** The fields of a table; `meta` is its metatable. */
  datatype Contents = Contents(meta: Table?, entries: seq<Entry>)

  /** Keys are distinct, and neither keys nor values are nil. */
  ghost predicate WellFormed(entries: seq<Entry>) {
    && (forall i :: 0 <= i < |entries| ==> entries[i].key != Nil && entries[i].value != Nil)
    && (forall i, j :: 0 <= i < j < |entries| ==> entries[i].key != entries[j].key)
  }

  predicate HasKey(entries: seq<Entry>, key: Value) {
    exists i :: 0 <= i < |entries| && entries[i].key == key
  }

  function Lookup(entries: seq<Entry>, key: Value): Value {
    if entries == [] then Nil
    else if entries[0].key == key then entries[0].value
    else Lookup(entries[1..], key)
  }

  lemma {:induction false} LookupAt(entries: seq<Entry>, i: nat)
    requires WellFormed(entries) && i < |entries|
    ensures Lookup(entries, entries[i].key) == entries[i].value
  {
    if i > 0 {
      assert entries[0].key != entries[i].key;
      LookupAt(entries[1..], i - 1);
    }
  }

  lemma {:induction false} LookupMissing(entries: seq<Entry>, key: Value)
    requires !HasKey(entries, key)
    ensures Lookup(entries, key) == Nil
  {
    if entries != [] {
      assert entries[0].key != key;
      forall i | 0 <= i < |entries[1..]|
        ensures entries[1..][i].key != key
      {
        assert entries[i + 1].key != key;
      }
      LookupMissing(entries[1..], key);
    }
  }

  datatype Stepped = End | Next(key: Value, value: Value)

  /** A table of the virtual machine, with its entries in iteration order. */
  class Table {
    var meta: Table?
    var entries: seq<Entry>

    constructor (meta: Table?)
      ensures this.meta == meta && entries == []
    {
      this.meta, entries := meta, [];
    }

    /** The entry after the key handed out last, or the first one after nil. */
    method Step(key: Value, ghost i: nat) returns (next: Stepped)
      requires WellFormed(entries) && i <= |entries|
      requires key == if i == 0 then Nil else entries[i - 1].key
      ensures next == if i == |entries| then End else Next(entries[i].key, entries[i].value)
    {
      var k := 0;
      if key != Nil {
        while entries[k].key != key
          invariant k < i
          decreases i - k
        {
          k := k + 1;
        }
        k := k + 1;
      }
      next := if k == |entries| then End else Next(entries[k].key, entries[k].value);
    }

    /** Sets a field that was not there. */
    method Put(key: Value, value: Value)
      requires WellFormed(entries) && !HasKey(entries, key) && key != Nil && value != Nil
      modifies this`entries
      ensures WellFormed(entries) && entries == old(entries) + [Entry(key, value)]
    {
      forall i | 0 <= i < |entries|
        ensures entries[i].key != key
      {
      }
      entries := entries + [Entry(key, value)];
    }
  }

  // ---- length ------------------------------------------------------------------------------

  /** How many of the keys 1, 2, 3, … are present without a gap: the assumed contract of the
      length of a table. Section 3.4.7 of the Lua 5.4 Reference Manual allows any border. */
  function Length(entries: seq<Entry>): (n: nat)
    ensures n <= |entries| && forall k :: 1 <= k <= n ==> HasKey(entries, Int(k))
    ensures n < |entries| ==> !HasKey(entries, Int(n + 1))
  {
    LengthFrom(entries, 0)
  }

  function LengthFrom(entries: seq<Entry>, n: nat): (r: nat)
    requires n <= |entries| && forall k :: 1 <= k <= n ==> HasKey(entries, Int(k))
    ensures n <= r <= |entries| && forall k :: 1 <= k <= r ==> HasKey(entries, Int(k))
    ensures r < |entries| ==> !HasKey(entries, Int(r + 1))
    decreases |entries| - n
  {
    if n < |entries| && HasKey(entries, Int(n + 1)) then LengthFrom(entries, n + 1) else n
  }

  ghost function Keys(entries: seq<Entry>): set<Value> {
    set i | 0 <= i < |entries| :: entries[i].key
  }

  ghost function Numbers(n: nat): set<Value> {
    set k | 1 <= k <= n :: Int(k)
  }

  lemma {:induction false} KeysSize(entries: seq<Entry>)
    requires forall i, j :: 0 <= i < j < |entries| ==> entries[i].key != entries[j].key
    ensures |Keys(entries)| == |entries|
  {
    if entries != [] {
      var last := |entries| - 1;
      KeysSize(entries[..last]);
      assert forall i :: 0 <= i < last ==> entries[..last][i] == entries[i];
      assert Keys(entries) == Keys(entries[..last]) + {entries[last].key};
      assert entries[last].key !in Keys(entries[..last]);
    }
  }

  lemma {:induction false} NumbersSize(n: nat)
    ensures |Numbers(n)| == n
  {
    if n > 0 {
      NumbersSize(n - 1);
      assert Numbers(n) == Numbers(n - 1) + {Int(n)};
    }
  }

  /** The keys are exactly 1 to `n`. */
  ghost predicate Sequential(entries: seq<Entry>, n: nat) {
    && (forall i :: 0 <= i < |entries| ==> IsIndex(entries[i].key, n))
    && (forall k :: 1 <= k <= n ==> HasKey(entries, Int(k)))
  }

  predicate IsIndex(key: Value, n: nat) { key.Int? && 1 <= key.number <= n }

  lemma SequentialKeys(entries: seq<Entry>, n: nat)
    requires WellFormed(entries) && forall k :: 1 <= k <= n ==> HasKey(entries, Int(k))
    ensures n <= |entries| && (Sequential(entries, n) <==> n == |entries|)
  {
    KeysSize(entries);
    NumbersSize(n);
    forall key | key in Numbers(n)
      ensures key in Keys(entries)
    {
      assert HasKey(entries, Int(key.number));
    }
    SubsetSize(Numbers(n), Keys(entries));
    if n == |entries| {
      EqualSize(Numbers(n), Keys(entries));
      forall i | 0 <= i < |entries|
        ensures IsIndex(entries[i].key, n)
      {
        assert entries[i].key in Keys(entries);
      }
    } else if Sequential(entries, n) {
      assert forall key :: key in Keys(entries) ==> key.Int? && 1 <= key.number <= n && key == Int(key.number);
      assert Keys(entries) <= Numbers(n);
      SubsetSize(Keys(entries), Numbers(n));
    }
  }

  /** With this length, comparing it to the number of entries recognises the sequences. */
  lemma LengthRecognisesSequences(entries: seq<Entry>)
    requires WellFormed(entries)
    ensures Length(entries) == |entries| <==> Sequential(entries, |entries|)
  {
    if Length(entries) == |entries| {
      SequentialKeys(entries, |entries|);
    }
  }

  /** What section 3.4.7 alone says about a length. */
  ghost predicate Border(entries: seq<Entry>, n: nat) {
    (n == 0 || HasKey(entries, Int(n))) && !HasKey(entries, Int(n + 1))
  }

  /** `Length` is a border … */
  lemma LengthIsBorder(entries: seq<Entry>)
    requires WellFormed(entries)
    ensures Border(entries, Length(entries))
  {
    var n := Length(entries);
    SequentialKeys(entries, n);
    assert n == |entries| ==> forall i :: 0 <= i < |entries| ==> IsIndex(entries[i].key, n);
  }

  /** … but a border will do only for sequences, and for tables where the number of entries is no border. */
  lemma BorderSufficesIff(entries: seq<Entry>)
    requires WellFormed(entries)
    ensures (forall n: nat :: Border(entries, n) ==> (n == |entries| <==> Sequential(entries, |entries|))) <==>
            Sequential(entries, |entries|) || !Border(entries, |entries|)
  {
    if Sequential(entries, |entries|) {
      forall n: nat | Border(entries, n)
        ensures n == |entries|
      {
        SequenceBorder(entries, n);
      }
    }
  }

  lemma SequenceBorder(entries: seq<Entry>, n: nat)
    requires Sequential(entries, |entries|) && Border(entries, n)
    ensures n == |entries|
  {
    if HasKey(entries, Int(n)) {
      var i :| 0 <= i < |entries| && entries[i].key == Int(n);
      assert IsIndex(entries[i].key, |entries|);
    }
  }

  /** For example, three positive keys and border 3 need not be 1 to 3. */
  lemma BorderIsNotEnough()
    ensures var entries := [Entry(Int(2), Bool(true)), Entry(Int(3), Bool(true)), Entry(Int(5), Bool(true))];
            WellFormed(entries) && Border(entries, |entries|) && !Sequential(entries, |entries|) && Length(entries) == 0
  {
    var entries := [Entry(Int(2), Bool(true)), Entry(Int(3), Bool(true)), Entry(Int(5), Bool(true))];
    assert entries[1].key == Int(3);
    assert !HasKey(entries, Int(1));
    assert !IsIndex(entries[2].key, 3);
  }
}
