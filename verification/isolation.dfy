/** Slices and maps held as immutable entries (memstore.go:50-73, 132-180; session.go:235-243):
    values with identity, so that what a caller does to a container it was handed matters. */
module Isolation {
  import opened Entries

  /** A slice or a map that lives in memory; copies are shallow, elements are plain values. */
  datatype Box = Slice(items: seq<Value>, capacity: nat) | Dict(fields: map<string, Value>)

  datatype Slot = Slot(ref: nat, immutable: bool)

  /** `heap[ref]` is the container a reference denotes; `given` are the references that callers
      hold, because they made them or because a read returned them. */
  datatype State = State(heap: seq<Box>, slots: map<string, Slot>, given: set<nat>)

  datatype Act =
    | Make(box: Box)                     // the caller builds a container
    | Scribble(ref: nat, box: Box)       // the caller changes a container it holds, in any way
    | Set(key: string, ref: nat)
    | SetImmutable(key: string, ref: nat)  // and gives the reference up
    | Remove(key: string)
    | Reset
    | Get(key: string)                   // also one step of GetAll and Visit

  function Saved(slots: map<string, Slot>, key: string, ref: nat, immutable: bool): map<string, Slot> {
    if key in slots && slots[key].immutable && !immutable then slots else slots[key := Slot(ref, immutable)]
  }

  /** What `Entry.Value` returns: the raw reference, or a new container when immutable. */
  function Returned(s: State, key: string): nat
    requires key in s.slots
  {
    if s.slots[key].immutable then |s.heap| else s.slots[key].ref
  }

  function Step(s: State, a: Act): State {
    match a
    case Make(box) => State(s.heap + [box], s.slots, s.given + {|s.heap|})
    case Scribble(ref, box) => if ref in s.given && ref < |s.heap| then s.(heap := s.heap[ref := box]) else s
    case Set(key, ref) => if ref in s.given then s.(slots := Saved(s.slots, key, ref, false)) else s
    case SetImmutable(key, ref) =>
      if ref in s.given then s.(slots := Saved(s.slots, key, ref, true), given := s.given - {ref}) else s
    case Remove(key) => s.(slots := s.slots - {key})
    case Reset => s.(slots := map[])
    case Get(key) =>
      if key !in s.slots || s.slots[key].ref >= |s.heap| then s
      else if s.slots[key].immutable
      then State(s.heap + [s.heap[s.slots[key].ref]], s.slots, s.given + {|s.heap|})
      else s.(given := s.given + {s.slots[key].ref})
  }

  /** What each write does to the entries: a plain Set is refused on an immutable entry and stored
      otherwise, Remove takes away its own key only, and Reset everything. */
  lemma SlotsAfter(s: State, a: Act, key: string)
    ensures var t := Step(s, a);
            && (a.Set? && a.ref in s.given && a.key == key ==>
                  key in t.slots
                  && t.slots[key] == if key in s.slots && s.slots[key].immutable then s.slots[key]
                                     else Slot(a.ref, false))
            && (a.SetImmutable? && a.ref in s.given && a.key == key ==>
                  key in t.slots && t.slots[key] == Slot(a.ref, true) && t.given == s.given - {a.ref})
            && (a.Remove? && a.key == key ==> key !in t.slots)
            && (a.Reset? ==> key !in t.slots)
            && (!Replaces(a, key) && !(a.Set? && a.key == key) ==>
                  (key in t.slots <==> key in s.slots) && (key in s.slots ==> t.slots[key] == s.slots[key]))
  {
  }

  function Run(s: State, acts: seq<Act>): State
    decreases |acts|
  {
    if acts == [] then s else Run(Step(s, acts[0]), acts[1..])
  }

  /** The setter really gives the reference up: no other entry holds it either. */
  ghost predicate GivenUp(s: State, a: Act) {
    a.SetImmutable? ==> forall k :: k in s.slots ==> s.slots[k].ref != a.ref
  }

  ghost predicate GivenUpRun(s: State, acts: seq<Act>)
    decreases |acts|
  {
    acts == [] || (GivenUp(s, acts[0]) && GivenUpRun(Step(s, acts[0]), acts[1..]))
  }

  /** Containers of immutable entries are out of callers' reach. */
  ghost predicate Sealed(s: State) {
    && (forall ref :: ref in s.given ==> ref < |s.heap|)
    && (forall k :: k in s.slots ==> s.slots[k].ref < |s.heap|)
    && (forall k :: k in s.slots && s.slots[k].immutable ==> s.slots[k].ref !in s.given)
    && (forall j, k :: j in s.slots && k in s.slots && j != k && s.slots[k].immutable ==>
          s.slots[j].ref != s.slots[k].ref)
  }

  /** The content behind an immutable entry. */
  ghost predicate Holds(s: State, key: string, box: Box) {
    key in s.slots && s.slots[key].immutable && s.slots[key].ref < |s.heap| && s.heap[s.slots[key].ref] == box
  }

  predicate Replaces(a: Act, key: string) {
    (a.SetImmutable? && a.key == key) || (a.Remove? && a.key == key) || a.Reset?
  }

  lemma StepKeepsSealed(s: State, a: Act)
    requires Sealed(s) && GivenUp(s, a)
    ensures Sealed(Step(s, a))
  {
  }

  lemma StepKeepsContent(s: State, a: Act, key: string, box: Box)
    requires Sealed(s) && Holds(s, key, box) && !Replaces(a, key)
    ensures Holds(Step(s, a), key, box)
  {
  }

  /** Reads of immutable slices and maps are isolated: whatever callers do to the containers they
      made or were handed, in any sequence of operations that does not replace the entry, the
      entry keeps its content, and the next read returns a container nobody holds yet with
      exactly that content. */
  lemma {:induction false} ImmutableReadsAreIsolated(s: State, acts: seq<Act>, key: string, box: Box)
    requires Sealed(s) && GivenUpRun(s, acts) && Holds(s, key, box)
    requires forall i :: 0 <= i < |acts| ==> !Replaces(acts[i], key)
    ensures var t := Run(s, acts);
            && Sealed(t) && Holds(t, key, box)
            && var ref, u := Returned(t, key), Step(t, Get(key));
               ref !in t.given && ref < |u.heap| && u.heap[ref] == box && Holds(u, key, box)
    decreases |acts|
  {
    if acts != [] {
      StepKeepsSealed(s, acts[0]);
      StepKeepsContent(s, acts[0], key, box);
      ImmutableReadsAreIsolated(Step(s, acts[0]), acts[1..], key, box);
    }
  }

  /** A plain entry is shared: a caller's change to what it was handed is a change to the entry. */
  lemma PlainReadsAreShared(s: State, key: string, box: Box)
    requires Sealed(s) && key in s.slots && !s.slots[key].immutable
    ensures var t := Step(Step(s, Get(key)), Scribble(s.slots[key].ref, box));
            t.heap[s.slots[key].ref] == box && t.slots == s.slots
  {
  }

  /** Why the reference must be given up: if a plain entry still holds the container, a read of
      that entry lets the caller change the immutable one. */
  lemma SharedContainerIsNotIsolated(s: State, plain: string, key: string, ref: nat, box: Box)
    requires Sealed(s) && plain != key && plain in s.slots && s.slots[plain] == Slot(ref, false)
    requires ref in s.given && key !in s.slots
    ensures var t := Step(s, SetImmutable(key, ref));
            Holds(Step(Step(t, Get(plain)), Scribble(ref, box)), key, box)
  {
  }

  // ---------- Entry.Value on real memory ----------

  /** A Go map. */
  class GoMap {
    var fields: map<string, Value>

    constructor ()
      ensures fields == map[]
    {
      fields := map[];
    }
  }

  /** A slice with its backing array, or a map. */
  datatype Ref = ToSlice(data: array<Value>, len: nat) | ToMap(entries: GoMap)

  ghost predicate ValidRef(r: Ref) {
    r.ToSlice? ==> r.len <= r.data.Length
  }

  ghost function Object(r: Ref): object {
    if r.ToSlice? then r.data else r.entries
  }

  /** The container that the machine above sees behind a reference. */
  ghost function BoxOf(r: Ref): Box
    requires ValidRef(r)
    reads Object(r)
  {
    match r
    case ToSlice(data, len) => Slice(data[..len], data.Length)
    case ToMap(entries) => Dict(entries.fields)
  }

  /** Entry.Value (memstore.go:50-73) of a slice or a map: the Get step of the machine. A plain
      entry hands out the reference itself; an immutable one a new container that is filled
      element by element, or key by key, until it is the same. */
  method ReadContainer(raw: Ref, immutable: bool) returns (r: Ref)
    requires ValidRef(raw)
    ensures ValidRef(r) && BoxOf(r) == BoxOf(raw)
    ensures !immutable ==> r == raw
    ensures immutable ==> fresh(Object(r))
  {
    if !immutable {
      return raw;
    }
    match raw
    case ToSlice(data, len) =>
      var newSlice := new Value[data.Length](_ => Nil);
      for i := 0 to len
        invariant newSlice[..i] == data[..i]
      {
        newSlice[i] := data[i];
      }
      r := ToSlice(newSlice, len);
    case ToMap(entries) =>
      var newMap := new GoMap();
      var rest := entries.fields.Keys;
      while rest != {}
        invariant rest + newMap.fields.Keys == entries.fields.Keys
        invariant forall k :: k in newMap.fields ==> k in entries.fields && newMap.fields[k] == entries.fields[k]
        decreases rest
      {
        var k :| k in rest;
        rest := rest - {k};
        newMap.fields := newMap.fields[k := entries.fields[k]];
      }
      r := ToMap(newMap);
  }
}
