/** The locks of session.go and provider.go as an interleaving machine of any number of threads.
    Two operations can return without giving a lock back: peekFlashMessage on a hit
    (session.go:103-106), and a read under the read lock that panics on an immutable nil
    (memstore.go:53-56, session.go:49-52 and 235-241; no unlock is deferred, and the HTTP server
    recovers the handler). Everything else is balanced. */
module Locks {
  import opened Entries

  /** The operations that take a lock, with the session `h` they work on. `Write` is set, Delete
      and Clear; it leaves an immutable nil under the keys `seals` and none under `frees`. `Peek` is
      the body of GetFlash and PeekFlash, `DropFlashes` DeleteFlash or ClearFlashes, `MarkFlashes`
      GetFlashes. `ReadLive` is a provider Read that finds the session, `ReadMissing` one that does
      not and goes on to Init; `Provide` is Init, UpdateExpiration, Destroy (also from a timer),
      DestroyAll or RegisterDatabase. */
  datatype Op =
    | Get(h: nat, key: string)
    | GetAll(h: nat)
    | Write(h: nat, seals: set<string>, frees: set<string>)
    | SetFlash(h: nat, key: string)
    | DropFlashes(h: nat, keys: set<string>)
    | MarkFlashes(h: nat)
    | Peek(h: nat, key: string)
    | ReadLive(h: nat, expired: set<string>)
    | ReadMissing
    | Provide

  datatype Instr =
    | Lock(h: nat) | Unlock(h: nat) | RLock(h: nat)
    | PLock | PUnlock
    | Add(h: nat, key: string) | Drop(h: nat, keys: set<string>)
    | Store(h: nat, seals: set<string>, frees: set<string>) | Work
    | UnlockUnlessFound(h: nat, key: string)
    | RUnlockUnlessPanic(h: nat, read: Option<string>)

  function Program(op: Op): seq<Instr> {
    match op
    case Get(h, k) => [RLock(h), Work, RUnlockUnlessPanic(h, Some(k))]
    case GetAll(h) => [RLock(h), Work, RUnlockUnlessPanic(h, None)]
    case Write(h, seals, frees) => [Lock(h), Store(h, seals, frees), Unlock(h)]
    case SetFlash(h, k) => [Lock(h), Add(h, k), Unlock(h)]
    case DropFlashes(h, ks) => [Lock(h), Drop(h, ks), Unlock(h)]
    case MarkFlashes(h) => [Lock(h), Work, Unlock(h)]
    case Peek(h, k) => [Lock(h), Work, UnlockUnlessFound(h, k)]
    case ReadLive(h, ks) => [PLock, Lock(h), Drop(h, ks), Unlock(h), PUnlock]
    case ReadMissing => [PLock, PUnlock, PLock, PUnlock]
    case Provide => [PLock, Work, PUnlock]
  }

  datatype Thread = Thread(op: Op, pc: nat)

  predicate Done(t: Thread) {
    t.pc >= |Program(t.op)|
  }

  /** `nils` are the keys of each session that hold an immutable nil. `hits` and `panics` record,
      for the statements below, the peeks that found their key and the reads that panicked. */
  datatype State = State(
    write: set<nat>,
    readers: multiset<nat>,
    provider: bool,
    flashes: set<(nat, string)>,
    nils: set<(nat, string)>,
    threads: seq<Thread>,
    hits: set<nat>,
    panics: multiset<nat>)

  datatype Act = Spawn(op: Op) | Exec(t: nat)

  /** Reading the key (GetAll: every key) meets an immutable nil. */
  predicate Panics(nils: set<(nat, string)>, h: nat, key: Option<string>) {
    exists f :: f in nils && f.0 == h && (key.Some? ==> f.1 == key.value)
  }

  predicate Enabled(s: State, i: Instr) {
    match i
    case Lock(h) => h !in s.write && h !in s.readers
    case RLock(h) => h !in s.write
    case PLock => !s.provider
    case _ => true
  }

  function Effect(s: State, i: Instr): State {
    match i
    case Lock(h) => s.(write := s.write + {h})
    case Unlock(h) => s.(write := s.write - {h})
    case RLock(h) => s.(readers := s.readers + multiset{h})
    case PLock => s.(provider := true)
    case PUnlock => s.(provider := false)
    case Add(h, k) => s.(flashes := s.flashes + {(h, k)})
    case Drop(h, ks) => s.(flashes := set f | f in s.flashes && !(f.0 == h && f.1 in ks))
    case Store(h, seals, frees) =>
      s.(nils := (set f | f in s.nils && !(f.0 == h && f.1 in frees)) + set k | k in seals :: (h, k))
    case Work => s
    case UnlockUnlessFound(h, k) =>
      if (h, k) in s.flashes then s.(hits := s.hits + {h}) else s.(write := s.write - {h})
    case RUnlockUnlessPanic(h, k) =>
      if Panics(s.nils, h, k) then s.(panics := s.panics + multiset{h}) else s.(readers := s.readers - multiset{h})
  }

  function Step(s: State, a: Act): State {
    match a
    case Spawn(op) => s.(threads := s.threads + [Thread(op, 0)])
    case Exec(t) =>
      if t < |s.threads| && !Done(s.threads[t]) && Enabled(s, Program(s.threads[t].op)[s.threads[t].pc])
      then
        var r := Effect(s, Program(s.threads[t].op)[s.threads[t].pc]);
        r.(threads := s.threads[t := Thread(s.threads[t].op, s.threads[t].pc + 1)])
      else s
  }

  function Run(s: State, acts: seq<Act>): State
    decreases |acts|
  {
    if acts == [] then s else Run(Step(s, acts[0]), acts[1..])
  }

  const START := State({}, multiset{}, false, {}, {}, [], {}, multiset{})

  // ---------- One operation on its own ----------

  /** Runs the rest of a program, all of it being enabled. */
  function Alone(s: State, p: seq<Instr>): State
    decreases |p|
  {
    if p == [] || !Enabled(s, p[0]) then s else Alone(Effect(s, p[0]), p[1..])
  }

  predicate SameLocks(s: State, r: State) {
    s.write == r.write && s.readers == r.readers && s.provider == r.provider
  }

  lemma AloneNext(s: State, a: Instr, rest: seq<Instr>)
    requires Enabled(s, a)
    ensures Alone(s, [a] + rest) == Alone(Effect(s, a), rest)
  {
    assert ([a] + rest)[1..] == rest;
  }

  lemma AloneThree(s: State, a: Instr, b: Instr, c: Instr)
    requires Enabled(s, a) && Enabled(Effect(s, a), b) && Enabled(Effect(Effect(s, a), b), c)
    ensures Alone(s, [a, b, c]) == Effect(Effect(Effect(s, a), b), c)
  {
    AloneNext(s, a, [b, c]);
    AloneNext(Effect(s, a), b, [c]);
    AloneNext(Effect(Effect(s, a), b), c, []);
  }

  lemma AloneReads(s: State, h: nat, ks: set<string>)
    requires !s.provider && h !in s.write && h !in s.readers
    ensures var r := Alone(s, Program(ReadLive(h, ks)));
            && SameLocks(s, r) && r.nils == s.nils
            && r.flashes == set f | f in s.flashes && !(f.0 == h && f.1 in ks)
  {
    var p := s.(provider := true);
    AloneNext(s, PLock, [Lock(h), Drop(h, ks), Unlock(h), PUnlock]);
    AloneNext(p, Lock(h), [Drop(h, ks), Unlock(h), PUnlock]);
    AloneThree(Effect(p, Lock(h)), Drop(h, ks), Unlock(h), PUnlock);
  }

  lemma AloneMisses(s: State)
    requires !s.provider
    ensures var r := Alone(s, Program(ReadMissing));
            SameLocks(s, r) && r.flashes == s.flashes && r.nils == s.nils
  {
    AloneNext(s, PLock, [PUnlock, PLock, PUnlock]);
    assert [PLock] + [PUnlock, PLock, PUnlock] == Program(ReadMissing);
    AloneThree(s.(provider := true), PUnlock, PLock, PUnlock);
  }

  lemma AloneGets(s: State, h: nat, key: Option<string>)
    requires h !in s.write
    ensures SameLocks(s, Alone(s, [RLock(h), Work, RUnlockUnlessPanic(h, key)])) <==> !Panics(s.nils, h, key)
  {
    AloneThree(s, RLock(h), Work, RUnlockUnlessPanic(h, key));
    assert s.readers + multiset{h} - multiset{h} == s.readers;
    assert (s.readers + multiset{h})[h] == s.readers[h] + 1;
  }

  predicate LocksFree(s: State, op: Op) {
    && (op.ReadLive? || op.ReadMissing? || op.Provide? ==> !s.provider)
    && (op.ReadMissing? || op.Provide? || (op.h !in s.write && (op.Get? || op.GetAll? || op.h !in s.readers)))
  }

  /** The two operations that do not give their lock back. */
  predicate KeepsLock(s: State, op: Op) {
    || (op.Peek? && (op.h, op.key) in s.flashes)
    || (op.Get? && (op.h, op.key) in s.nils)
    || (op.GetAll? && exists f :: f in s.nils && f.0 == op.h)
  }

  /** Run on its own with its locks free, an operation leaves every lock as it found it if and
      only if it is neither a peek that finds its key nor a read that meets an immutable nil. */
  lemma BalancedUnlessHitOrPanic(s: State, op: Op)
    requires LocksFree(s, op)
    ensures SameLocks(s, Alone(s, Program(op))) <==> !KeepsLock(s, op)
  {
    hide Alone;
    match op
    case Get(h, k) => AloneGets(s, h, Some(k));
    case GetAll(h) => AloneGets(s, h, None);
    case Write(h, seals, frees) => AloneThree(s, Lock(h), Store(h, seals, frees), Unlock(h));
    case SetFlash(h, k) => AloneThree(s, Lock(h), Add(h, k), Unlock(h));
    case DropFlashes(h, ks) => AloneThree(s, Lock(h), Drop(h, ks), Unlock(h));
    case MarkFlashes(h) => AloneThree(s, Lock(h), Work, Unlock(h));
    case Peek(h, k) => AloneThree(s, Lock(h), Work, UnlockUnlessFound(h, k));
    case ReadLive(h, ks) => AloneReads(s, h, ks);
    case ReadMissing => AloneMisses(s);
    case Provide => AloneThree(s, PLock, Work, PUnlock);
  }

  /** What an operation on its own leaves besides the locks: the flash messages it sets or drops and
      the immutable nils it seals or frees, and nothing else of either. */
  lemma AloneLeaves(s: State, op: Op, f: (nat, string))
    requires LocksFree(s, op)
    ensures var r := Alone(s, Program(op));
            && (f in r.flashes <==>
                  || (op.SetFlash? && f == (op.h, op.key))
                  || (f in s.flashes
                      && !(op.DropFlashes? && f.0 == op.h && f.1 in op.keys)
                      && !(op.ReadLive? && f.0 == op.h && f.1 in op.expired)))
            && (f in r.nils <==>
                  || (op.Write? && f.0 == op.h && f.1 in op.seals)
                  || (f in s.nils && !(op.Write? && f.0 == op.h && f.1 in op.frees)))
  {
    hide Alone, Panics;
    match op
    case Get(h, k) => AloneThree(s, RLock(h), Work, RUnlockUnlessPanic(h, Some(k)));
    case GetAll(h) => AloneThree(s, RLock(h), Work, RUnlockUnlessPanic(h, None));
    case Write(h, seals, frees) => AloneThree(s, Lock(h), Store(h, seals, frees), Unlock(h));
    case SetFlash(h, k) => AloneThree(s, Lock(h), Add(h, k), Unlock(h));
    case DropFlashes(h, ks) => AloneThree(s, Lock(h), Drop(h, ks), Unlock(h));
    case MarkFlashes(h) => AloneThree(s, Lock(h), Work, Unlock(h));
    case Peek(h, k) => AloneThree(s, Lock(h), Work, UnlockUnlessFound(h, k));
    case ReadLive(h, ks) => AloneReads(s, h, ks);
    case ReadMissing => AloneMisses(s);
    case Provide => AloneThree(s, PLock, Work, PUnlock);
  }

  // ---------- Who holds what ----------

  /** A way of holding a lock: a session's for writing or for reading, or the provider's. */
  datatype Hold = WriteOf(h: nat) | ReadOf(h: nat) | OfProvider

  /** The thread has taken the lock in this way and has yet to give it back. */
  predicate Owes(t: Thread, d: Hold) {
    match d
    case WriteOf(h) =>
      if t.op.ReadLive? then t.op.h == h && 2 <= t.pc <= 3
      else !t.op.Get? && !t.op.GetAll? && !t.op.ReadMissing? && !t.op.Provide? && t.op.h == h && 1 <= t.pc <= 2
    case ReadOf(h) => (t.op.Get? || t.op.GetAll?) && t.op.h == h && 1 <= t.pc <= 2
    case OfProvider =>
      || (t.op.ReadLive? && 1 <= t.pc <= 4)
      || (t.op.ReadMissing? && (t.pc == 1 || t.pc == 3))
      || (t.op.Provide? && 1 <= t.pc <= 2)
  }

  function Owers(ts: seq<Thread>, d: Hold): nat {
    if ts == [] then 0 else Owers(ts[..|ts| - 1], d) + if Owes(ts[|ts| - 1], d) then 1 else 0
  }

  /** How many times the lock is held in this way. */
  function Held(s: State, d: Hold): nat {
    match d
    case WriteOf(h) => if h in s.write then 1 else 0
    case ReadOf(h) => s.readers[h]
    case OfProvider => if s.provider then 1 else 0
  }

  /** How many of these were lost to a hit or to a panic. */
  function Lost(s: State, d: Hold): nat {
    match d
    case WriteOf(h) => if h in s.hits then 1 else 0
    case ReadOf(h) => s.panics[h]
    case OfProvider => 0
  }

  ghost predicate Accounted(s: State, d: Hold) {
    Held(s, d) == Owers(s.threads, d) + Lost(s, d)
  }

  predicate Takes(i: Instr, d: Hold) {
    match d
    case WriteOf(h) => i == Lock(h)
    case ReadOf(h) => i == RLock(h)
    case OfProvider => i == PLock
  }

  predicate Gives(i: Instr, d: Hold) {
    match d
    case WriteOf(h) => i == Unlock(h) || (i.UnlockUnlessFound? && i.h == h)
    case ReadOf(h) => i.RUnlockUnlessPanic? && i.h == h
    case OfProvider => i == PUnlock
  }

  lemma {:induction false} OwersUpdate(ts: seq<Thread>, i: nat, t: Thread, d: Hold)
    requires i < |ts|
    ensures Owers(ts[i := t], d) + (if Owes(ts[i], d) then 1 else 0) == Owers(ts, d) + if Owes(t, d) then 1 else 0
  {
    var n := |ts| - 1;
    if i == n {
      assert ts[i := t][..n] == ts[..n];
    } else {
      assert ts[i := t][..n] == ts[..n][i := t];
      OwersUpdate(ts[..n], i, t, d);
    }
  }

  lemma OwersSpawn(ts: seq<Thread>, op: Op, d: Hold)
    ensures Owers(ts + [Thread(op, 0)], d) == Owers(ts, d)
  {
    assert (ts + [Thread(op, 0)])[..|ts|] == ts;
  }

  lemma {:induction false} OwersAtLeast(ts: seq<Thread>, i: nat, j: nat, d: Hold)
    requires i < |ts| && Owes(ts[i], d)
    ensures Owers(ts, d) >= 1
    ensures j < |ts| && j != i && Owes(ts[j], d) ==> Owers(ts, d) >= 2
  {
    var n := |ts| - 1;
    if i < n {
      OwersAtLeast(ts[..n], i, j, d);
    } else if j < n && Owes(ts[j], d) {
      OwersAtLeast(ts[..n], j, j, d);
    }
  }

  /** What a thread owes changes only by taking and giving back, in that order. */
  lemma OwesFollowsProgram(t: Thread, d: Hold)
    requires !Done(t)
    ensures var i, next := Program(t.op)[t.pc], Thread(t.op, t.pc + 1);
            && (Takes(i, d) ==> !Owes(t, d) && Owes(next, d))
            && (Gives(i, d) ==> Owes(t, d) && !Owes(next, d))
            && (!Takes(i, d) && !Gives(i, d) ==> (Owes(t, d) <==> Owes(next, d)))
  {
  }

  lemma EffectOnWrite(s: State, i: Instr, h: nat)
    requires Enabled(s, i)
    ensures HeldFollows(s, i, WriteOf(h), Effect(s, i))
  {
    hide Panics;
  }

  lemma EffectOnReaders(s: State, i: Instr, h: nat)
    requires Enabled(s, i)
    ensures HeldFollows(s, i, ReadOf(h), Effect(s, i))
  {
    hide Panics;
  }

  lemma EffectOnProvider(s: State, i: Instr)
    requires Enabled(s, i)
    ensures HeldFollows(s, i, OfProvider, Effect(s, i))
  {
    hide Panics;
  }

  /** An instruction adds what it takes; what it should give back is given back or lost. */
  ghost predicate HeldFollows(s: State, i: Instr, d: Hold, e: State) {
    && (Takes(i, d) ==> Held(e, d) == Held(s, d) + 1 && Lost(e, d) == Lost(s, d))
    && (!Takes(i, d) && !Gives(i, d) ==> Held(e, d) == Held(s, d) && Lost(e, d) == Lost(s, d))
    && (Gives(i, d) && Held(s, d) > Lost(s, d) ==> Held(e, d) + 1 + Lost(s, d) == Held(s, d) + Lost(e, d))
    && (Gives(i, d) && Held(s, d) > 1 ==> Held(e, d) + 1 >= Held(s, d))
  }

  lemma EffectOnHeld(s: State, i: Instr, d: Hold)
    requires Enabled(s, i)
    ensures HeldFollows(s, i, d, Effect(s, i))
  {
    match d
    case WriteOf(h) => EffectOnWrite(s, i, h);
    case ReadOf(h) => EffectOnReaders(s, i, h);
    case OfProvider => EffectOnProvider(s, i);
  }

  predicate CanExec(s: State, t: nat) {
    t < |s.threads| && !Done(s.threads[t]) && Enabled(s, Program(s.threads[t].op)[s.threads[t].pc])
  }

  /** One instruction of a thread changes what is held and what is owed together. */
  lemma ExecChanges(s: State, t: nat, d: Hold)
    requires CanExec(s, t)
    ensures var i, r := Program(s.threads[t].op)[s.threads[t].pc], Step(s, Exec(t));
            && HeldFollows(s, i, d, r)
            && (Takes(i, d) ==> Owers(r.threads, d) == Owers(s.threads, d) + 1)
            && (Gives(i, d) ==> Owers(r.threads, d) + 1 == Owers(s.threads, d))
            && (!Takes(i, d) && !Gives(i, d) ==> Owers(r.threads, d) == Owers(s.threads, d))
            && !(Takes(i, d) && Gives(i, d))
  {
    var x := s.threads[t];
    OwesFollowsProgram(x, d);
    EffectOnHeld(s, Program(x.op)[x.pc], d);
    OwersUpdate(s.threads, t, Thread(x.op, x.pc + 1), d);
    hide Owes, Effect, Enabled;
  }

  lemma StepKeepsAccounted(s: State, a: Act, d: Hold)
    requires Accounted(s, d)
    ensures Accounted(Step(s, a), d)
  {
    if a.Spawn? {
      OwersSpawn(s.threads, a.op, d);
    } else if CanExec(s, a.t) {
      ExecChanges(s, a.t, d);
      hide Step, Owes, Held, Lost, Enabled, Program, Takes, Gives;
    }
  }

  lemma {:induction false} RunKeepsAccounted(s: State, acts: seq<Act>, d: Hold)
    requires Accounted(s, d)
    ensures Accounted(Run(s, acts), d)
    decreases |acts|
  {
    if acts != [] {
      StepKeepsAccounted(s, acts[0], d);
      RunKeepsAccounted(Step(s, acts[0]), acts[1..], d);
    }
  }

  /** Held more often than there are threads that will give it back. */
  ghost predicate Leaked(s: State, d: Hold) {
    Held(s, d) > Owers(s.threads, d)
  }

  /** In every interleaving, a session's lock is leaked for writing exactly when a peek on it has
      hit, it is leaked for reading exactly when a read of it has panicked, and the provider's own
      lock is never leaked. */
  lemma LeakedExactlyByHitOrPanic(acts: seq<Act>, h: nat)
    ensures var r := Run(START, acts);
            && (Leaked(r, WriteOf(h)) <==> h in r.hits)
            && (Leaked(r, ReadOf(h)) <==> h in r.panics)
            && !Leaked(r, OfProvider)
  {
    RunKeepsAccounted(START, acts, WriteOf(h));
    RunKeepsAccounted(START, acts, ReadOf(h));
    RunKeepsAccounted(START, acts, OfProvider);
  }

  // ---------- Permanence ----------

  /** The thread still has to take the session's lock, for writing or for reading. */
  predicate NeedsWrite(t: Thread, h: nat) {
    match t.op
    case Get(_, _) => false
    case GetAll(_) => false
    case ReadLive(x, _) => x == h && t.pc <= 1
    case ReadMissing => false
    case Provide => false
    case _ => t.op.h == h && t.pc == 0
  }

  predicate NeedsRead(t: Thread, h: nat) {
    (t.op.Get? || t.op.GetAll?) && t.op.h == h && t.pc == 0
  }

  /** A leak in this way stands between the thread and its lock. */
  predicate Stuck(t: Thread, d: Hold) {
    match d
    case WriteOf(h) => NeedsWrite(t, h) || NeedsRead(t, h)
    case ReadOf(h) => NeedsWrite(t, h)
    case OfProvider => false
  }

  lemma LeakedStep(s: State, a: Act, d: Hold)
    requires Leaked(s, d)
    ensures Leaked(Step(s, a), d)
  {
    if a.Spawn? {
      OwersSpawn(s.threads, a.op, d);
    } else if CanExec(s, a.t) {
      ExecChanges(s, a.t, d);
      hide Step, Owes, Held, Lost, Enabled, Program, Takes, Gives;
    }
  }

  lemma StuckStep(s: State, a: Act, d: Hold, t: nat)
    requires Leaked(s, d) && t < |s.threads| && Stuck(s.threads[t], d)
    ensures t < |Step(s, a).threads| && Stuck(Step(s, a).threads[t], d)
  {
    hide Effect;
    EffectKeepsThreads(s);
  }

  lemma EffectKeepsThreads(s: State)
    ensures forall i :: Effect(s, i).threads == s.threads
  {
  }

  /** After a hit or a panic, in any continuation, the lock is never free again, and no thread that
      the leak stands in the way of ever completes: after a hit all that still have to take the
      lock, after a panic all that have to take it for writing, whenever they were started. */
  lemma {:induction false} LeakIsForever(s: State, acts: seq<Act>, d: Hold, t: nat)
    requires Leaked(s, d) && t < |s.threads| && Stuck(s.threads[t], d)
    ensures Leaked(Run(s, acts), d)
    ensures t < |Run(s, acts).threads| && Stuck(Run(s, acts).threads[t], d) && !Done(Run(s, acts).threads[t])
    decreases |acts|
  {
    if acts != [] {
      LeakedStep(s, acts[0], d);
      StuckStep(s, acts[0], d, t);
      LeakIsForever(Step(s, acts[0]), acts[1..], d, t);
    }
  }

  /** A Read of the leaked session holds the provider's lock and waits for the session's. */
  ghost predicate ProviderDead(s: State, d: Hold, r: nat) {
    && Leaked(s, d) && d != OfProvider && s.provider && r < |s.threads|
    && s.threads[r].op.ReadLive? && s.threads[r].op.h == d.h && s.threads[r].pc == 1
    && forall t :: 0 <= t < |s.threads| && Owes(s.threads[t], OfProvider) ==> t == r
  }

  /** The thread still has to take the provider's lock. */
  predicate NeedsProvider(t: Thread) {
    match t.op
    case ReadLive(_, _) => t.pc == 0
    case ReadMissing => t.pc == 0 || t.pc == 2
    case Provide => t.pc == 0
    case _ => false
  }

  lemma ProviderDeadStep(s: State, a: Act, d: Hold, r: nat)
    requires ProviderDead(s, d, r)
    ensures ProviderDead(Step(s, a), d, r)
    ensures forall t :: 0 <= t < |s.threads| && NeedsProvider(s.threads[t]) ==> NeedsProvider(Step(s, a).threads[t])
  {
    LeakedStep(s, a, d);
    hide Owers, Panics;
    if a.Exec? && a.t < |s.threads| && !Done(s.threads[a.t]) {
      OwesFollowsProgram(s.threads[a.t], OfProvider);
    }
  }

  /** Once a Read of the leaked session has taken the provider's lock, no provider operation that
      still needs that lock ever completes, a timer's Destroy included; nor does the Read. */
  lemma {:induction false} ProviderIsDeadForever(s: State, acts: seq<Act>, d: Hold, r: nat, t: nat)
    requires ProviderDead(s, d, r) && t < |s.threads| && (NeedsProvider(s.threads[t]) || t == r)
    ensures ProviderDead(Run(s, acts), d, r)
    ensures t < |Run(s, acts).threads| && !Done(Run(s, acts).threads[t])
    decreases |acts|
  {
    if acts != [] {
      ProviderDeadStep(s, acts[0], d, r);
      ProviderIsDeadForever(Step(s, acts[0]), acts[1..], d, r, t);
    }
  }

  /** From a leaked session one step is enough: a Read takes the provider's lock. */
  lemma ReadKillsProvider(s: State, d: Hold, r: nat)
    requires Leaked(s, d) && d != OfProvider && Accounted(s, OfProvider) && !s.provider
    requires r < |s.threads| && s.threads[r].op.ReadLive? && s.threads[r].op.h == d.h && s.threads[r].pc == 0
    ensures ProviderDead(Step(s, Exec(r)), d, r)
  {
    var e := Step(s, Exec(r));
    LeakedStep(s, Exec(r), d);
    StepKeepsAccounted(s, Exec(r), OfProvider);
    forall t | 0 <= t < |e.threads| && Owes(e.threads[t], OfProvider) ensures t == r {
      OwersAtLeast(e.threads, r, t, OfProvider);
    }
  }

  // ---------- Both leaks, and the dead provider, are reachable ----------

  lemma {:induction false} RunConcat(s: State, xs: seq<Act>, ys: seq<Act>)
    ensures Run(s, xs + ys) == Run(Run(s, xs), ys)
    decreases |xs|
  {
    if xs == [] {
      assert xs + ys == ys;
    } else {
      assert (xs + ys)[1..] == xs[1..] + ys;
      RunConcat(Step(s, xs[0]), xs[1..], ys);
    }
  }

  /** A new thread runs an operation of three instructions to its end. */
  function Whole(op: Op, t: nat): seq<Act> {
    [Spawn(op), Exec(t), Exec(t), Exec(t)]
  }

  function AfterThree(s: State, a: Instr, b: Instr, c: Instr, op: Op): State {
    Effect(Effect(Effect(s, a), b), c).(threads := s.threads + [Thread(op, 3)])
  }

  lemma EffectIgnoresThreads(s: State, i: Instr, ts: seq<Thread>)
    ensures Effect(s.(threads := ts), i) == Effect(s, i).(threads := ts)
    ensures Enabled(s.(threads := ts), i) <==> Enabled(s, i)
  {
    hide Panics;
  }

  /** One instruction of the newest thread. */
  lemma ExecNewest(s: State, op: Op, pc: nat, i: Instr, ts: seq<Thread>)
    requires pc < |Program(op)| && Program(op)[pc] == i && Enabled(s, i)
    ensures Step(s.(threads := ts + [Thread(op, pc)]), Exec(|ts|))
            == Effect(s, i).(threads := ts + [Thread(op, pc + 1)])
  {
    EffectIgnoresThreads(s, i, ts + [Thread(op, pc)]);
    hide Effect, Enabled, Program;
    assert (ts + [Thread(op, pc)])[|ts| := Thread(op, pc + 1)] == ts + [Thread(op, pc + 1)];
  }

  lemma RunPair(s: State, x: Act, y: Act)
    ensures Run(s, [x, y]) == Step(Step(s, x), y)
  {
    hide Step;
    assert [x, y][1..] == [y];
    assert Run(Step(s, x), [y]) == Run(Step(Step(s, x), y), [y][1..]);
  }

  lemma RunFour(s: State, x: Act, y: Act, s1: State, s2: State, s3: State, s4: State)
    requires Step(s, x) == s1 && Step(s1, y) == s2 && Step(s2, y) == s3 && Step(s3, y) == s4
    ensures Run(s, [x, y, y, y]) == s4
  {
    hide Step, Run;
    RunPair(s, x, y);
    RunPair(s2, y, y);
    RunConcat(s, [x, y], [y, y]);
    assert [x, y] + [y, y] == [x, y, y, y];
  }

  lemma WholeRuns(s: State, op: Op, a: Instr, b: Instr, c: Instr)
    requires Program(op) == [a, b, c]
    requires Enabled(s, a) && Enabled(Effect(s, a), b) && Enabled(Effect(Effect(s, a), b), c)
    ensures Run(s, Whole(op, |s.threads|)) == AfterThree(s, a, b, c, op)
  {
    hide Effect, Enabled, Run;
    var ts := s.threads;
    var s1, s2, s3 := Effect(s, a), Effect(Effect(s, a), b), Effect(Effect(Effect(s, a), b), c);
    ExecNewest(s, op, 0, a, ts);
    ExecNewest(s1, op, 1, b, ts);
    ExecNewest(s2, op, 2, c, ts);
    RunFour(s, Spawn(op), Exec(|ts|), s.(threads := ts + [Thread(op, 0)]), s1.(threads := ts + [Thread(op, 1)]),
            s2.(threads := ts + [Thread(op, 2)]), s3.(threads := ts + [Thread(op, 3)]));
  }

  /** Two requests of a client: a handler that runs `op0` and then `op1`, and then a Read. */
  function Requests(op0: Op, op1: Op, h: nat): seq<Act> {
    Whole(op0, 0) + Whole(op1, 1) + [Spawn(ReadLive(h, {})), Exec(2)]
  }

  lemma RequestsKill(op0: Op, op1: Op, s: State, d: Hold)
    requires d != OfProvider && Leaked(s, d) && |s.threads| == 2 && !s.provider
    requires Run(Run(START, Whole(op0, 0)), Whole(op1, 1)) == s
    ensures ProviderDead(Run(START, Requests(op0, op1, d.h)), d, 2)
  {
    var read := Spawn(ReadLive(d.h, {}));
    var both := Whole(op0, 0) + Whole(op1, 1);
    RunConcat(START, Whole(op0, 0), Whole(op1, 1));
    RunConcat(START, both, [read, Exec(2)]);
    RunPair(s, read, Exec(2));
    RunKeepsAccounted(START, both, OfProvider);
    LeakedStep(s, read, d);
    StepKeepsAccounted(s, read, OfProvider);
    ReadKillsProvider(Step(s, read), d, 2);
  }

  lemma NobodyOwes(ts: seq<Thread>, d: Hold)
    requires |ts| == 2 && !Owes(ts[0], d) && !Owes(ts[1], d)
    ensures Owers(ts, d) == 0
  {
    var one := ts[..1];
    assert one[0] == ts[0] && one[..0] == [];
    assert Owers(one, d) == 0;
  }

  /** Setting a flash and looking at it leaks the write lock, and the session's next request takes
      the provider down with it. */
  lemma PeekKillsProvider(h: nat, key: string)
    ensures ProviderDead(Run(START, Requests(SetFlash(h, key), Peek(h, key), h)), WriteOf(h), 2)
  {
    var op0, op1 := SetFlash(h, key), Peek(h, key);
    var s := START.(flashes := {(h, key)}, threads := [Thread(op0, 3)]);
    var r := s.(write := {h}, hits := {h}, threads := [Thread(op0, 3), Thread(op1, 3)]);
    WholeRuns(START, op0, Lock(h), Add(h, key), Unlock(h));
    assert Run(START, Whole(op0, 0)) == s;
    PeekHits(s, r, h, key);
    NobodyOwes(r.threads, WriteOf(h));
    RequestsKill(op0, op1, r, WriteOf(h));
  }

  lemma PeekHits(s: State, r: State, h: nat, key: string)
    requires (h, key) in s.flashes && h !in s.write && h !in s.readers && |s.threads| == 1
    requires r == s.(write := s.write + {h}, hits := s.hits + {h}, threads := s.threads + [Thread(Peek(h, key), 3)])
    ensures Run(s, Whole(Peek(h, key), 1)) == r
  {
    WholeRuns(s, Peek(h, key), Lock(h), Work, UnlockUnlessFound(h, key));
  }

  /** Setting an immutable nil and reading it, alone or with all other values, leaks the read
      lock, with the same end. */
  lemma PanicKillsProvider(h: nat, key: string, read: Op)
    requires read == Get(h, key) || read == GetAll(h)
    ensures ProviderDead(Run(START, Requests(Write(h, {key}, {}), read, h)), ReadOf(h), 2)
  {
    var op0 := Write(h, {key}, {});
    var s := START.(nils := {(h, key)}, threads := [Thread(op0, 3)]);
    var r := s.(readers := multiset{h}, panics := multiset{h}, threads := [Thread(op0, 3), Thread(read, 3)]);
    WholeRuns(START, op0, Lock(h), Store(h, {key}, {}), Unlock(h));
    assert Run(START, Whole(op0, 0)) == s;
    ReadPanics(s, r, h, key, read);
    NobodyOwes(r.threads, ReadOf(h));
    RequestsKill(op0, read, r, ReadOf(h));
  }

  lemma ReadPanics(s: State, r: State, h: nat, key: string, read: Op)
    requires read == Get(h, key) || read == GetAll(h)
    requires (h, key) in s.nils && h !in s.write && |s.threads| == 1
    requires r == s.(readers := s.readers + multiset{h}, panics := s.panics + multiset{h},
                     threads := s.threads + [Thread(read, 3)])
    ensures Run(s, Whole(read, 1)) == r
  {
    var k := if read.Get? then Some(key) else None;
    assert Panics(s.nils, h, k);
    hide Panics;
    WholeRuns(s, read, RLock(h), Work, RUnlockUnlessPanic(h, k));
  }
}
