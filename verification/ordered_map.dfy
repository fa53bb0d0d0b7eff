/** The reference the slice store is measured against: a finite map together with the order in
    which its keys were inserted. Nothing here mentions positions in a slice. */
module OrderedMaps {
  import opened Entries

  datatype Cell = Cell(value: Value, immutable: bool)

  datatype OrderedMap = OrderedMap(order: seq<string>, cells: map<string, Cell>)

  function Without(order: seq<string>, key: string): seq<string> {
    if order == [] then []
    else if order[0] == key then Without(order[1..], key)
    else [order[0]] + Without(order[1..], key)
  }

  function Stored(m: OrderedMap, key: string, cell: Cell): OrderedMap {
    if key !in m.cells then OrderedMap(m.order + [key], m.cells[key := cell])
    else if m.cells[key].immutable && !cell.immutable then m
    else m.(cells := m.cells[key := cell])
  }

  function Dropped(m: OrderedMap, key: string): OrderedMap {
    OrderedMap(Without(m.order, key), m.cells - {key})
  }

  function Updated(m: OrderedMap, w: Write): OrderedMap {
    match w
    case Put(k, v, imm) => Stored(m, k, Cell(v, imm))
    case Del(k) => Dropped(m, k)
    case Wipe => OrderedMap([], map[])
  }

  function UpdatedAll(m: OrderedMap, ws: seq<Write>): OrderedMap
    decreases |ws|
  {
    if ws == [] then m else UpdatedAll(Updated(m, ws[0]), ws[1..])
  }

  function Keys(es: seq<Entry>): (ks: seq<string>)
    ensures |ks| == |es| && forall i :: 0 <= i < |es| ==> ks[i] == es[i].key
  {
    seq(|es|, i requires 0 <= i < |es| => es[i].key)
  }

  function CellOf(es: seq<Entry>, key: string): Cell
    requires Has(es, key)
  {
    var e := es[IndexOf(es, key)];
    Cell(e.value, e.immutable)
  }

  function KeySet(es: seq<Entry>): (ks: set<string>)
    ensures forall k :: k in ks <==> Has(es, k)
  {
    var ks := set i | 0 <= i < |es| :: es[i].key;
    assert forall k :: Has(es, k) ==> es[IndexOf(es, k)].key in ks;
    ks
  }

  /** The ordered map a sequence of entries stands for. */
  function View(es: seq<Entry>): OrderedMap {
    OrderedMap(Keys(es), map k | k in KeySet(es) :: CellOf(es, k))
  }

  lemma SavedAt(es: seq<Entry>, key: string, value: Value, immutable: bool, k: string)
    ensures var r := Saved(es, key, value, immutable);
            && (Has(r, k) <==> Has(es, k) || k == key)
            && (Has(es, k) && k != key ==> CellOf(r, k) == CellOf(es, k))
            && (k == key ==> r[IndexOf(r, k)] == if Has(es, key) && es[IndexOf(es, key)].immutable && !immutable
                                                 then es[IndexOf(es, key)] else Entry(key, value, immutable))
  {
    var r := Saved(es, key, value, immutable);
    if Has(es, k) {
      IndexOfIs(r, k, IndexOf(es, k));
    } else if k == key {
      IndexOfIs(r, k, |es|);
    }
  }

  ghost predicate SameAt(m: OrderedMap, r: OrderedMap, k: string) {
    (k in m.cells <==> k in r.cells) && (k in m.cells ==> m.cells[k] == r.cells[k])
  }

  lemma Extensional(m: OrderedMap, r: OrderedMap)
    requires m.order == r.order && forall k :: SameAt(m, r, k)
    ensures m == r
  {
    assert forall k :: k in m.cells ==> SameAt(m, r, k);
    assert forall k :: k in r.cells ==> SameAt(m, r, k);
    assert m.cells == r.cells;
  }

  lemma ViewAt(es: seq<Entry>, k: string)
    ensures (k in View(es).cells <==> Has(es, k)) && (Has(es, k) ==> View(es).cells[k] == CellOf(es, k))
    ensures View(es).order == Keys(es)
  {
  }

  lemma StoredAt(es: seq<Entry>, key: string, value: Value, immutable: bool, k: string)
    ensures SameAt(View(Saved(es, key, value, immutable)), Stored(View(es), key, Cell(value, immutable)), k)
  {
    SavedAt(es, key, value, immutable, k);
    ViewAt(es, k);
    ViewAt(es, key);
    ViewAt(Saved(es, key, value, immutable), k);
    hide View, Saved, IndexOf;
  }

  lemma SavedOrder(es: seq<Entry>, key: string, value: Value, immutable: bool)
    ensures Keys(Saved(es, key, value, immutable)) == if Has(es, key) then Keys(es) else Keys(es) + [key]
  {
  }

  lemma SavedIsStored(es: seq<Entry>, key: string, value: Value, immutable: bool)
    ensures View(Saved(es, key, value, immutable)) == Stored(View(es), key, Cell(value, immutable))
  {
    var r, m := View(Saved(es, key, value, immutable)), Stored(View(es), key, Cell(value, immutable));
    forall k ensures SameAt(r, m, k) {
      StoredAt(es, key, value, immutable, k);
    }
    SavedOrder(es, key, value, immutable);
    ViewAt(es, key);
    ViewAt(Saved(es, key, value, immutable), key);
    hide View, Saved, SameAt;
    Extensional(r, m);
  }

  lemma {:induction false} WithoutAbsent(order: seq<string>, key: string)
    requires key !in order
    ensures Without(order, key) == order
  {
    if order != [] {
      WithoutAbsent(order[1..], key);
    }
  }

  lemma {:induction false} WithoutOne(order: seq<string>, i: nat)
    requires i < |order| && forall j :: 0 <= j < |order| && j != i ==> order[j] != order[i]
    ensures Without(order, order[i]) == order[..i] + order[i + 1..]
  {
    if i == 0 {
      WithoutAbsent(order[1..], order[0]);
    } else {
      WithoutOne(order[1..], i - 1);
      assert order[1..][..i - 1] == order[1..i] && order[1..][i..] == order[i + 1..];
    }
  }

  lemma RemovedAt(es: seq<Entry>, key: string, k: string)
    requires UniqueKeys(es)
    ensures var r := Removed(es, key);
            && (Has(r, k) <==> Has(es, k) && k != key)
            && (Has(r, k) ==> CellOf(r, k) == CellOf(es, k))
  {
    var r, n, i := Removed(es, key), IndexOf(es, key), IndexOf(es, k);
    RemovedKeepsUnique(es, key);
    if n < |es| {
      if Has(es, k) && k != key {
        IndexOfIs(r, k, if i < n then i else i - 1);
      }
    }
  }

  lemma DroppedAt(es: seq<Entry>, key: string, k: string)
    requires UniqueKeys(es)
    ensures SameAt(View(Removed(es, key)), Dropped(View(es), key), k)
  {
    RemovedAt(es, key, k);
    ViewAt(es, k);
    ViewAt(Removed(es, key), k);
    hide View, Removed, Has, CellOf;
  }

  lemma RemovedOrder(es: seq<Entry>, key: string)
    requires UniqueKeys(es)
    ensures Keys(Removed(es, key)) == Without(Keys(es), key)
  {
    var n := IndexOf(es, key);
    if n == |es| {
      WithoutAbsent(Keys(es), key);
    } else {
      WithoutOne(Keys(es), n);
    }
  }

  lemma RemovedIsDropped(es: seq<Entry>, key: string)
    requires UniqueKeys(es)
    ensures View(Removed(es, key)) == Dropped(View(es), key)
  {
    var r, m := View(Removed(es, key)), Dropped(View(es), key);
    forall k ensures SameAt(r, m, k) {
      DroppedAt(es, key, k);
    }
    RemovedOrder(es, key);
    ViewAt(es, key);
    ViewAt(Removed(es, key), key);
    hide View, Removed, SameAt;
    Extensional(r, m);
  }

  lemma AppliedIsUpdated(es: seq<Entry>, w: Write)
    requires UniqueKeys(es)
    ensures View(Apply(es, w)) == Updated(View(es), w)
  {
    match w
    case Put(k, v, imm) => SavedIsStored(es, k, v, imm);
    case Del(k) => RemovedIsDropped(es, k);
    case Wipe => assert View([]).cells == map[];
  }

  /** Any sequence of Set, SetImmutable, Remove and Reset acts on the entries as it does on the
      ordered map, and keys stay unique. */
  lemma {:induction false} WritesRefineOrderedMap(es: seq<Entry>, ws: seq<Write>)
    requires UniqueKeys(es)
    ensures View(ApplyAll(es, ws)) == UpdatedAll(View(es), ws)
    ensures UniqueKeys(ApplyAll(es, ws))
    decreases |ws|
  {
    if ws != [] {
      AppliedIsUpdated(es, ws[0]);
      ApplyKeepsUnique(es, ws[0]);
      WritesRefineOrderedMap(Apply(es, ws[0]), ws[1..]);
    }
  }

  /** `w` is one of the three operations that may change an immutable entry for `key`. */
  predicate MayUnseal(w: Write, key: string) {
    match w
    case Put(k, _, imm) => k == key && imm
    case Del(k) => k == key
    case Wipe => true
  }

  lemma {:induction false} WithoutKeepsOthers(order: seq<string>, drop: string, key: string)
    requires key in order && key != drop
    ensures key in Without(order, drop)
  {
    if order[0] != key {
      WithoutKeepsOthers(order[1..], drop, key);
    }
  }

  lemma {:induction false} StickyInMap(m: OrderedMap, ws: seq<Write>, key: string)
    requires key in m.cells && m.cells[key].immutable && key in m.order
    requires forall i :: 0 <= i < |ws| ==> !MayUnseal(ws[i], key)
    ensures var r := UpdatedAll(m, ws);
            key in r.cells && r.cells[key] == m.cells[key] && key in r.order
    decreases |ws|
  {
    if ws != [] {
      if ws[0].Del? {
        WithoutKeepsOthers(m.order, ws[0].key, key);
      }
      StickyInMap(Updated(m, ws[0]), ws[1..], key);
    }
  }

  /** Whatever is set, and however other keys are removed around it, an immutable entry keeps its
      value and its flag until SetImmutable, Remove or Reset names it. */
  lemma ImmutableEntriesAreSticky(es: seq<Entry>, ws: seq<Write>, key: string)
    requires UniqueKeys(es) && Has(es, key) && es[IndexOf(es, key)].immutable
    requires forall i :: 0 <= i < |ws| ==> !MayUnseal(ws[i], key)
    ensures var r := ApplyAll(es, ws);
            Has(r, key) && r[IndexOf(r, key)] == es[IndexOf(es, key)]
  {
    assert Keys(es)[IndexOf(es, key)] == key;
    StickyInMap(View(es), ws, key);
    WritesRefineOrderedMap(es, ws);
    var r := ApplyAll(es, ws);
    assert key in View(r).cells;
  }
}
