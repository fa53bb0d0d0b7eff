/** The slice-backed store of memstore.go, with its buffer, length and spare capacity. Every
    method is stated against the ordered map that the visible entries stand for; what lies in
    the buffer beyond the length is never mentioned by a contract, so it cannot be observed. */
module MemStore {
  import opened Entries
  import opened OrderedMaps

  /** What a read hands back. Reflecting on an immutable nil, or nil pointer, panics
      (memstore.go:53-56). */
  datatype Outcome = Returned(value: Value) | Panic

  /** `v` is what reading the cell returns: a plain cell its own value; an immutable one its value,
      or what its pointer points at. An immutable nil reads as nothing. */
  ghost predicate ReadsAs(c: Cell, v: Value) {
    && !(c.immutable && c.value in {Nil, Pointer(None)})
    && v == if c.immutable && c.value.Pointer? then c.value.target.value else c.value
  }

  /** `Entry.Value`, seen as a value: the copy it makes of a slice or map equals the original. */
  function EntryValue(e: Entry): (r: Outcome)
    ensures r == Panic <==> e.immutable && (e.value == Nil || e.value == Pointer(None))
    ensures r.Returned? ==> ReadsAs(Cell(e.value, e.immutable), r.value)
    ensures !e.immutable ==> r == Returned(e.value)
  {
    if !e.immutable then Returned(e.value)
    else match e.value
      case Nil => Panic
      case Pointer(None) => Panic
      case Pointer(Some(v)) => Returned(v)
      case v => Returned(v)
  }

  class Store {
    var buf: array<Entry>
    var len: nat

    ghost predicate Valid()
      reads this, buf
    {
      len <= buf.Length && UniqueKeys(buf[..len])
    }

    ghost function Contents(): seq<Entry>
      requires Valid()
      reads this, buf
    {
      buf[..len]
    }

    /** The nil slice. */
    constructor ()
      ensures Valid() && fresh(buf) && Contents() == []
    {
      buf := new Entry[0];
      len := 0;
    }

    /** A store decoded from a database. */
    constructor Decoded(es: seq<Entry>)
      requires UniqueKeys(es)
      ensures Valid() && fresh(buf) && Contents() == es
    {
      buf := new Entry[|es|](i requires 0 <= i < |es| => es[i]);
      len := |es|;
      new;
      assert buf[..len] == es;
    }

    /** `Save`: replace in place, reuse a spare slot, or grow into a new buffer. */
    method Save(key: string, value: Value, immutable: bool) returns (entry: Entry, isNew: bool)
      requires Valid()
      modifies this, buf
      ensures Valid() && (buf == old(buf) || fresh(buf))
      ensures Contents() == Saved(old(Contents()), key, value, immutable)
      ensures View(Contents()) == Stored(View(old(Contents())), key, Cell(value, immutable))
      ensures isNew <==> !Has(old(Contents()), key)
      ensures Has(Contents(), key) && entry == Contents()[IndexOf(Contents(), key)]
      ensures buf == old(buf) <==> (isNew ==> old(len) < old(buf.Length))
    {
      ghost var es := Contents();
      var args, n := buf, len;
      var i := 0;
      while i < n && args[i].key != key
        invariant i <= n && forall j :: 0 <= j < i ==> args[j].key != key
      {
        i := i + 1;
      }
      if i < n {
        IndexOfIs(es, key, i);
        if immutable && args[i].immutable {
          args[i] := Entry(key, value, immutable);
        } else if !args[i].immutable {
          args[i] := Entry(key, value, immutable);
        }
        entry, isNew := args[i], false;
      } else {
        if args.Length == n {
          Grow();
        }
        len := n + 1;
        buf[n] := Entry(key, value, immutable);
        entry, isNew := buf[n], true;
      }
      assert buf[..len] == Saved(es, key, value, immutable);
      SavedKeepsUnique(es, key, value, immutable);
      SavedAt(es, key, value, immutable, key);
      SavedIsStored(es, key, value, immutable);
    }

    /** The reallocation inside `append`; how much spare room it leaves is not specified. */
    method Grow()
      requires Valid()
      modifies this
      ensures Valid() && fresh(buf) && len == old(len) < buf.Length
      ensures Contents() == old(Contents())
    {
      var capacity: nat :| capacity > len;
      var filler := Entry("", Nil, false);
      var bigger := new Entry[capacity](_ => filler);
      for i := 0 to len
        modifies bigger
        invariant bigger[..i] == buf[..i]
      {
        bigger[i] := buf[i];
      }
      buf := bigger;
    }

    /** The copying inside `append(args[:i], args[i+1:]...)`. */
    method ShiftLeft(i: nat)
      requires len <= buf.Length && i < len
      modifies buf
      ensures buf[..len - 1] == old(buf[..i]) + old(buf[i + 1..len])
    {
      ghost var es := buf[..len];
      var n := len;
      for j := i to n - 1
        invariant buf[..j] == es[..i] + es[i + 1..j + 1]
        invariant forall m :: j <= m < n ==> buf[m] == es[m]
      {
        buf[j] := buf[j + 1];
      }
      assert es[i + 1..n] == old(buf[i + 1..len]);
    }

    /** `Remove`: shift the tail one slot to the left inside the same buffer. */
    method Remove(key: string) returns (removed: bool)
      requires Valid()
      modifies this, buf
      ensures Valid() && buf == old(buf)
      ensures removed <==> Has(old(Contents()), key)
      ensures Contents() == Removed(old(Contents()), key)
      ensures View(Contents()) == Dropped(View(old(Contents())), key)
    {
      hide View, Dropped, IndexOf, UniqueKeys;
      ghost var es := Contents();
      var args, n := buf, len;
      var i := 0;
      while i < n && args[i].key != key
        invariant i <= n && forall j :: 0 <= j < i ==> args[j].key != key
      {
        i := i + 1;
      }
      removed := i < n;
      if removed {
        IndexOfIs(es, key, i);
        ShiftLeft(i);
        len := n - 1;
        assert es[i + 1..n] == es[i + 1..];
      }
      assert buf[..len] == Removed(es, key);
      RemovedKeepsUnique(es, key);
      RemovedIsDropped(es, key);
    }

    /** `Reset`: forget the entries, keep the buffer. */
    method Reset()
      requires Valid()
      modifies this
      ensures Valid() && Contents() == [] && buf == old(buf)
    {
      len := 0;
    }

    method Len() returns (n: nat)
      requires Valid()
      ensures n == |Contents()| == |View(Contents()).order|
    {
      n := len;
    }

    /** The slice itself, as a payload carries it. */
    method Slice() returns (es: seq<Entry>)
      requires Valid()
      ensures es == Contents()
    {
      es := buf[..len];
    }

    /** `GetDefault`: the value the ordered map holds for the key. */
    method GetDefault(key: string, def: Value) returns (r: Outcome)
      requires Valid()
      ensures key !in View(Contents()).cells ==> r == Returned(def)
      ensures key in View(Contents()).cells ==>
                var c := View(Contents()).cells[key];
                && (!c.immutable ==> r == Returned(c.value))
                && (r == Panic <==> c.immutable && c.value in {Nil, Pointer(None)})
                && (c.immutable && c.value.Pointer? && c.value.target.Some? ==> r == Returned(c.value.target.value))
                && (c.immutable && c.value != Nil && !c.value.Pointer? ==> r == Returned(c.value))
    {
      for i := 0 to len
        invariant forall j :: 0 <= j < i ==> buf[j].key != key
      {
        if buf[i].key == key {
          IndexOfIs(Contents(), key, i);
          return EntryValue(buf[i]);
        }
      }
      return Returned(def);
    }

    /** `Visit`: the pairs handed to the visitor, in insertion order, up to the first read that
        panics. */
    method Visit() returns (seen: seq<(string, Value)>, panicked: bool)
      requires Valid()
      ensures var m := View(Contents());
              && |seen| <= |m.order|
              && (forall i :: 0 <= i < |seen| ==>
                    seen[i].0 == m.order[i] && m.order[i] in m.cells && ReadsAs(m.cells[m.order[i]], seen[i].1))
              && (panicked <==> |seen| < |m.order|)
              && (panicked ==> m.order[|seen|] in m.cells
                               && m.cells[m.order[|seen|]].immutable
                               && m.cells[m.order[|seen|]].value in {Nil, Pointer(None)})
    {
      seen := [];
      ghost var m := View(Contents());
      for i := 0 to len
        invariant |seen| == i
        invariant forall j :: 0 <= j < i ==>
                    seen[j].0 == m.order[j] && m.order[j] in m.cells && ReadsAs(m.cells[m.order[j]], seen[j].1)
      {
        IndexOfUnique(Contents(), i);
        var v := EntryValue(buf[i]);
        if v.Panic? {
          return seen, true;
        }
        seen := seen + [(buf[i].key, v.value)];
      }
      panicked := false;
    }

    /** `Session.GetAll`: a map with exactly the ordered map's keys and values. */
    method GetAll() returns (items: map<string, Value>, panicked: bool)
      requires Valid()
      ensures var m := View(Contents());
              && (panicked <==>
                    exists k :: k in m.cells && m.cells[k].immutable && m.cells[k].value in {Nil, Pointer(None)})
              && (!panicked ==>
                    && items.Keys == m.cells.Keys
                    && forall k :: k in items ==> ReadsAs(m.cells[k], items[k]))
    {
      items := map[];
      ghost var es := Contents();
      for i := 0 to len
        invariant forall k :: k in items ==> Has(es, k) && ReadsAs(CellOf(es, k), items[k])
        invariant forall j :: 0 <= j < i ==> es[j].key in items
      {
        IndexOfUnique(es, i);
        var v := EntryValue(buf[i]);
        if v.Panic? {
          assert es[i].key in View(es).cells;
          return items, true;
        }
        items := items[buf[i].key := v.value];
      }
      panicked := false;
      CollectedAll(es, items);
    }
  }

  /** What a Save that is not refused has put under its key is what a read then finds there. */
  method SaveThenGet(store: Store, key: string, value: Value, immutable: bool, def: Value) returns (r: Outcome)
    requires store.Valid()
    modifies store, store.buf
    ensures store.Valid()
    ensures var m := old(View(store.Contents()));
            !(key in m.cells && m.cells[key].immutable && !immutable) ==>
              && (!immutable ==> r == Returned(value))
              && (immutable && value != Nil && !value.Pointer? ==> r == Returned(value))
              && (immutable && value.Pointer? && value.target.Some? ==> r == Returned(value.target.value))
              && (r == Panic <==> immutable && value in {Nil, Pointer(None)})
    ensures var m := old(View(store.Contents()));
            key in m.cells && m.cells[key].immutable && !immutable ==>
              (r == Panic || ReadsAs(m.cells[key], r.value))
  {
    hide View, Saved, IndexOf, Has;
    var entry, added := store.Save(key, value, immutable);
    r := store.GetDefault(key, def);
  }

  lemma CollectedAll(es: seq<Entry>, items: map<string, Value>)
    requires forall k :: k in items ==> Has(es, k) && ReadsAs(CellOf(es, k), items[k])
    requires forall j :: 0 <= j < |es| ==> es[j].key in items
    ensures items.Keys == View(es).cells.Keys
    ensures forall k :: k in items ==> ReadsAs(View(es).cells[k], items[k])
  {
    forall k | k in View(es).cells ensures k in items {
      assert es[IndexOf(es, k)].key == k;
    }
  }
}
