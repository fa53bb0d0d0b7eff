/** The entries of a session store (memstore.go) as values, and what Save, Remove and the gob
    round trip do to the sequence of visible entries. */
module Entries {

  datatype Option<+T> = None | Some(value: T)

  /** A Go `interface{}` held in a session, seen as a value; `Nil` is the nil interface. A pointer
      is seen with what it points at when it is read, `Pointer(None)` is a nil pointer. */
  datatype Value =
    | Nil
    | Bool(b: bool)
    | Number(n: int)
    | Text(s: string)
    | List(items: seq<Value>)
    | Pointer(target: Option<Value>)

  datatype Entry = Entry(key: string, value: Value, immutable: bool)

  /** Position of the first entry for `key`, or the length when there is none. */
  function IndexOf(es: seq<Entry>, key: string): (i: nat)
    ensures i <= |es|
    ensures i < |es| ==> es[i].key == key
    ensures forall j :: 0 <= j < i ==> es[j].key != key
  {
    if es == [] || es[0].key == key then 0 else 1 + IndexOf(es[1..], key)
  }

  predicate Has(es: seq<Entry>, key: string) {
    IndexOf(es, key) < |es|
  }

  /** What `Store.Save` leaves visible. */
  function Saved(es: seq<Entry>, key: string, value: Value, immutable: bool): seq<Entry> {
    var i := IndexOf(es, key);
    if i == |es| then es + [Entry(key, value, immutable)]
    else if es[i].immutable && !immutable then es
    else es[i := Entry(key, value, immutable)]
  }

  /** What `Store.Remove` leaves visible. */
  function Removed(es: seq<Entry>, key: string): seq<Entry> {
    var i := IndexOf(es, key);
    if i == |es| then es else es[..i] + es[i + 1..]
  }

  ghost predicate UniqueKeys(es: seq<Entry>) {
    forall i, j :: 0 <= i < j < |es| ==> es[i].key != es[j].key
  }

  ghost predicate Flagless(es: seq<Entry>) {
    forall i :: 0 <= i < |es| ==> !es[i].immutable
  }

  /** What a database gives back for `es`: the immutable flag is not exported, so gob drops it. */
  function Erase(es: seq<Entry>): (r: seq<Entry>)
    ensures |r| == |es| && Flagless(r)
    ensures forall i :: 0 <= i < |es| ==> r[i].key == es[i].key && r[i].value == es[i].value
  {
    seq(|es|, i requires 0 <= i < |es| => es[i].(immutable := false))
  }

  lemma IndexOfIs(es: seq<Entry>, key: string, i: nat)
    requires i < |es| && es[i].key == key
    requires forall j :: 0 <= j < i ==> es[j].key != key
    ensures IndexOf(es, key) == i
  {
  }

  lemma IndexOfUnique(es: seq<Entry>, i: nat)
    requires UniqueKeys(es) && i < |es|
    ensures IndexOf(es, es[i].key) == i
  {
    IndexOfIs(es, es[i].key, i);
  }

  lemma SavedKeepsUnique(es: seq<Entry>, key: string, value: Value, immutable: bool)
    requires UniqueKeys(es)
    ensures UniqueKeys(Saved(es, key, value, immutable))
  {
  }

  lemma RemovedKeepsUnique(es: seq<Entry>, key: string)
    requires UniqueKeys(es)
    ensures UniqueKeys(Removed(es, key)) && !Has(Removed(es, key), key)
  {
    var i, r := IndexOf(es, key), Removed(es, key);
    if i < |es| {
      assert forall j :: 0 <= j < |r| ==> r[j] == if j < i then es[j] else es[j + 1];
    }
  }

  /** A write a handler makes to one session's values (session.go: set, Delete, Clear). */
  datatype Write = Put(key: string, value: Value, immutable: bool) | Del(key: string) | Wipe

  function Apply(es: seq<Entry>, w: Write): seq<Entry> {
    match w
    case Put(k, v, imm) => Saved(es, k, v, imm)
    case Del(k) => Removed(es, k)
    case Wipe => []
  }

  function ApplyAll(es: seq<Entry>, ws: seq<Write>): seq<Entry>
    decreases |ws|
  {
    if ws == [] then es else ApplyAll(Apply(es, ws[0]), ws[1..])
  }

  lemma ApplyKeepsUnique(es: seq<Entry>, w: Write)
    requires UniqueKeys(es)
    ensures UniqueKeys(Apply(es, w))
  {
    match w
    case Put(k, v, imm) => SavedKeepsUnique(es, k, v, imm);
    case Del(k) => RemovedKeepsUnique(es, k);
    case Wipe =>
  }
}
