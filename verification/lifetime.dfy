/** LifeTime (lifetime.go) on real objects, over the clock and the timers of the Go runtime. */
module LifeTimes {
  import opened Entries
  import opened Merging
  import M = Machine

  /** The clock and the timers of the Go runtime. */
  class Runtime {
    var now: int
    var timers: seq<M.Timer>

    constructor (now: int)
      ensures this.now == now && timers == []
    {
      this.now := now;
      timers := [];
    }

    /** time.AfterFunc(d, func() { p.Destroy(sid) }) */
    method AfterFunc(d: int, sid: string) returns (timer: nat)
      modifies this`timers
      ensures timer == |old(timers)| && timers == old(timers) + [M.Timer(sid, now + d, true)]
    {
      timer := |timers|;
      timers := timers + [M.Timer(sid, now + d, true)];
    }

    /** Timer.Reset(d) */
    method Reset(timer: nat, d: int)
      requires timer < |timers|
      modifies this`timers
      ensures timers == old(timers)[timer := old(timers)[timer].(deadline := now + d, pending := true)]
    {
      timers := timers[timer := timers[timer].(deadline := now + d, pending := true)];
    }
  }

  /** LifeTime: a stored time and a timer. */
  class LifeTime {
    var time: Time
    var timer: Option<nat>

    constructor (time: Time, timer: Option<nat>)
      ensures this.time == time && this.timer == timer
    {
      this.time, this.timer := time, timer;
    }

    method Begin(rt: Runtime, d: int, sid: string)
      modifies this, rt`timers
      ensures d <= 0 ==> time == old(time) && timer == old(timer) && rt.timers == old(rt.timers)
      ensures d > 0 || (old(time) == Zero && old(timer) == None) ==>
                (M.Life(time, timer), rt.timers) == M.Begun(rt.now, old(rt.timers), sid, d)
      ensures d > 0 ==> time == At(rt.now + d) && timer == Some(|old(rt.timers)|)
                        && rt.timers == old(rt.timers) + [M.Timer(sid, rt.now + d, true)]
    {
      if d <= 0 {
        return;
      }
      time := At(rt.now + d);
      var t := rt.AfterFunc(d, sid);
      timer := Some(t);
    }

    method Revive(rt: Runtime, sid: string)
      modifies this, rt`timers
      ensures !(time.At? && time.ns > rt.now) ==> timer == old(timer) && rt.timers == old(rt.timers)
      ensures time.At? && time.ns > rt.now ==>
                timer == Some(|old(rt.timers)|) && rt.timers == old(rt.timers) + [M.Timer(sid, time.ns, true)]
      ensures old(timer) == None || (time.At? && time.ns > rt.now) ==>
                (M.Life(time, timer), rt.timers) == M.Revived(rt.now, old(rt.timers), sid, old(time))
      ensures time == old(time)
    {
      if time == Zero {
        return;
      }
      if time.ns > rt.now {
        var d := time.ns - rt.now;
        var t := rt.AfterFunc(d, sid);
        timer := Some(t);
      }
    }

    method Shift(rt: Runtime, d: int)
      modifies rt`timers
      ensures rt.timers == M.Shifted(rt.now, old(rt.timers), M.Life(time, timer), d)
      ensures var was := old(rt.timers);
              if d > 0 && timer.Some? && timer.value < |was|
              then rt.timers == was[timer.value := M.Timer(was[timer.value].sid, rt.now + d, true)]
              else rt.timers == was
    {
      if d > 0 && timer.Some? && timer.value < |rt.timers| {
        rt.Reset(timer.value, d);
      }
    }

    method HasExpired(rt: Runtime) returns (b: bool)
      ensures b <==> time.At? && time.ns < rt.now
    {
      if time == Zero {
        return false;
      }
      b := time.ns < rt.now;
    }
  }
}
