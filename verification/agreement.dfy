/** Cache and databases agree over every run; a restart restores what memory held. */
module Agreement {
  import opened Entries
  import opened Merging
  import opened Databases
  import opened Machine

  ghost predicate NoneExpired(s: State, sid: string) {
    forall i :: 0 <= i < |s.dbs| ==> !Expired(Loaded(s.dbs[i], sid).time, s.clock)
  }

  ghost function LiveSession(s: State, sid: string): Session
    requires LiveWF(s) && sid in s.live
  {
    s.heap[s.live[sid]]
  }

  /** If no stored copy is past its expiry time, merging the copies gives exactly the keys, the
      order and the values in memory, and the expiry they carry is the session's own (or none has
      been stored yet). */
  ghost predicate AgreesOn(s: State, sid: string)
    requires LiveWF(s)
  {
    sid in s.live && NoneExpired(s, sid) ==>
      var sess, copies := LiveSession(s, sid), Copies(s.dbs, sid);
      && Merge(copies, s.clock) == Erase(sess.values)
      && FirstTime(copies, s.clock) in {Zero, sess.life.time}
  }

  /** Session ids are non-empty: the leveldb iterator never finds the empty one. */
  ghost predicate Agrees(s: State)
    requires LiveWF(s)
  {
    s.dbs != [] ==> forall sid :: sid != "" ==> AgreesOn(s, sid)
  }

  /** Databases are registered before sessions are started, and writes go through the session
      registered under the id. */
  ghost predicate Good(s: State, a: Act) {
    && Admissible(a)
    && (a.Register? ==> s.live == map[])
    && (a.Writing? ==> Registered(s, a.h))
  }

  ghost predicate GoodRun(s: State, acts: seq<Act>)
    decreases |acts|
  {
    acts == [] || (Good(s, acts[0]) && GoodRun(Step(s, acts[0]), acts[1..]))
  }

  /** Nothing that `AgreesOn` looks at changes for `sid` except that time may pass. */
  lemma AgreesFrame(s: State, t: State, sid: string)
    requires LiveWF(s) && LiveWF(t) && AgreesOn(s, sid)
    requires |s.dbs| == |t.dbs| && s.clock <= t.clock
    requires sid in t.live ==> forall i :: 0 <= i < |s.dbs| ==> Loaded(s.dbs[i], sid) == Loaded(t.dbs[i], sid)
    requires sid in t.live ==> sid in s.live
                               && LiveSession(t, sid).values == LiveSession(s, sid).values
                               && LiveSession(t, sid).life == LiveSession(s, sid).life
    ensures AgreesOn(t, sid)
  {
    if sid in t.live && NoneExpired(t, sid) {
      assert Copies(s.dbs, sid) == Copies(t.dbs, sid);
      MergeIgnoresClock(Copies(s.dbs, sid), s.clock, t.clock);
    }
  }

  lemma FlaglessErase(es: seq<Entry>)
    requires Flagless(es)
    ensures Erase(es) == es
  {
    assert forall i :: 0 <= i < |es| ==> Erase(es)[i] == es[i];
  }

  lemma InitAgrees(s: State, sid: string, expires: int, t: State)
    requires LiveWF(s) && LiveWF(t) && t.dbs == s.dbs && t.clock == s.clock && sid in t.live
    requires LiveSession(t, sid).values == NewSession(s, sid, expires).0.values
    requires LiveSession(t, sid).life == NewSession(s, sid, expires).0.life
    ensures AgreesOn(t, sid)
  {
    NewSessionWF(s, sid, expires);
    FlaglessErase(NewSession(s, sid, expires).0.values);
  }

  /** Every database holds the session's own values and expiry. */
  ghost predicate MirroredOn(s: State, sess: Session) {
    forall i :: 0 <= i < |s.dbs| ==>
      sess.sid in s.dbs[i] && s.dbs[i][sess.sid] == Remote(Erase(sess.values), sess.life.time)
  }

  lemma MirroredAgrees(s: State, sid: string)
    requires WF(s) && s.dbs != [] && sid != "" && sid in s.live && MirroredOn(s, LiveSession(s, sid))
    ensures AgreesOn(s, sid)
  {
    if NoneExpired(s, sid) {
      var sess := LiveSession(s, sid);
      var c := Remote(Erase(sess.values), sess.life.time);
      assert forall i :: 0 <= i < |s.dbs| ==> Copies(s.dbs, sid)[i] == c;
      assert Loaded(s.dbs[0], sid) == c;
      MergeOfIdentical(Copies(s.dbs, sid), c, s.clock);
    }
  }

  lemma WriteAgrees(s: State, h: nat, w: Write, sid: string)
    requires WF(s) && s.dbs != [] && sid != "" && AgreesOn(s, sid) && Registered(s, h)
    ensures LiveWF(Wrote(s, h, w)) && AgreesOn(Wrote(s, h, w), sid)
  {
    var t := Wrote(s, h, w);
    StepKeepsWF(s, Writing(h, w));
    assert t == Step(s, Writing(h, w));
    if sid == s.heap[h].sid {
      MirroredAgrees(t, sid);
    } else {
      AgreesFrame(s, t, sid);
    }
  }

  lemma NotLiveAgrees(s: State, sid: string)
    requires LiveWF(s) && sid !in s.live
    ensures AgreesOn(s, sid)
  {
  }

  lemma StartAgrees(s: State, a: Act, sid: string)
    requires WF(s) && AgreesOn(s, sid) && (a.Init? || a.Read? || a.Start?)
    ensures LiveWF(Step(s, a)) && AgreesOn(Step(s, a), sid)
  {
    hide AgreesOn, NewSession, ValuesWF, DbsWF;
    StepKeepsLive(s, a);
    var id := if a.Start? then (if a.cookie != "" then a.cookie else a.generated) else a.sid;
    if id == sid && (a.Init? || id !in s.live || (a.Start? && a.cookie == "")) {
      InitAgrees(s, sid, a.expires, Step(s, a));
    } else {
      AgreesFrame(s, Step(s, a), sid);
    }
  }

  lemma OtherStepAgrees(s: State, a: Act, sid: string)
    requires WF(s) && AgreesOn(s, sid) && Good(s, a)
    requires !a.Init? && !a.Read? && !a.Start? && !a.Writing? && !a.Register? && !a.Restart?
    ensures LiveWF(Step(s, a)) && AgreesOn(Step(s, a), sid)
  {
    hide AgreesOn, ValuesWF, DbsWF;
    StepKeepsLive(s, a);
    AgreesFrame(s, Step(s, a), sid);
  }

  lemma StepAgreesOn(s: State, a: Act, sid: string)
    requires WF(s) && s.dbs != [] && sid != "" && AgreesOn(s, sid) && Good(s, a)
    ensures LiveWF(Step(s, a)) && AgreesOn(Step(s, a), sid)
  {
    hide AgreesOn, ValuesWF, DbsWF;
    StepKeepsLive(s, a);
    if a.Init? || a.Read? || a.Start? {
      StartAgrees(s, a, sid);
    } else if a.Writing? {
      WriteAgrees(s, a.h, a.w, sid);
    } else if a.Register? || a.Restart? {
      NotLiveAgrees(Step(s, a), sid);
    } else {
      OtherStepAgrees(s, a, sid);
    }
  }

  lemma StepAgrees(s: State, a: Act)
    requires WF(s) && Agrees(s) && Good(s, a)
    ensures WF(Step(s, a)) && Agrees(Step(s, a))
  {
    StepKeepsWF(s, a);
    if s.dbs != [] {
      forall sid | sid != "" ensures AgreesOn(Step(s, a), sid) {
        StepAgreesOn(s, a, sid);
      }
    }
  }

  /** Cache agreement: every run keeps every live session in agreement with the merge of its
      stored copies. */
  lemma {:induction false} CacheAgreement(s: State, acts: seq<Act>)
    requires WF(s) && Agrees(s) && GoodRun(s, acts)
    ensures WF(Run(s, acts)) && Agrees(Run(s, acts))
    decreases |acts|
  {
    if acts != [] {
      StepAgrees(s, acts[0]);
      CacheAgreement(Step(s, acts[0]), acts[1..]);
    }
  }

  /** From a process that has just started over any databases, every run that registers its
      databases first and writes through registered sessions keeps cache and databases in
      agreement at every moment. */
  lemma EveryRunAgrees(s: State, acts: seq<Act>)
    requires Fresh(s) && GoodRun(s, acts)
    ensures WF(Run(s, acts)) && Agrees(Run(s, acts))
  {
    CacheAgreement(s, acts);
  }
}
