/** One sleep lock (kernel/sleeplock.c) and any number of processes that use it, with sleep,
    wakeup and kill (kernel/proc.c), as steps that any number of processors interleave. A section
    under one p->lock that releases no other lock meanwhile is one step. */
module SleepLock {
  const NONE := -1

  datatype State = Sleeping | Runnable | Running

  /** Where a process is. Out and Holding are outside the functions, without and with the lock. */
  datatype Pc = Out | Wants | Tests | SleepWantsOwn | SleepUnlocks | SleepSwitches | Slept | Holding | Wakes(j: int)

  /** `here`: the channel is this lock. */
  datatype Proc = Proc(state: State, here: bool, pc: Pc)

  /** `lk` is the owner of the inner spin lock; `pid` is lk->pid, NONE for 0. */
  datatype Sys = Sys(procs: seq<Proc>, lk: int, locked: bool, pid: int)

  datatype Step =
    | Acquire(p: nat) | Lock(p: nat) | Test(p: nat)
    | SleepOwn(p: nat) | SleepUnlock(p: nat) | SleepSwitch(p: nat) | Resume(p: nat)
    | Release(p: nat) | WakeOne(p: nat)
    | Kill(p: nat) | Nap(p: nat) | WakeNap(p: nat) | Schedule(p: nat) | Yield(p: nat)

  predicate HoldsLk(pc: Pc) {
    pc.Tests? || pc.SleepWantsOwn? || pc.SleepUnlocks? || pc.Wakes?
  }

  /** The process holds its own p->lock. */
  predicate HoldsOwn(pc: Pc) {
    pc.SleepUnlocks? || pc.SleepSwitches?
  }

  predicate Enabled(s: Sys, t: Step) {
    t.p < |s.procs| &&
    var x := s.procs[t.p];
    match t
    case Acquire(p) => x.state.Running? && x.pc.Out?
    case Lock(p) => x.state.Running? && x.pc.Wants? && s.lk == NONE
    case Test(p) => x.state.Running? && x.pc.Tests?
    case SleepOwn(p) => x.state.Running? && x.pc.SleepWantsOwn?
    case SleepUnlock(p) => x.state.Running? && x.pc.SleepUnlocks?
    case SleepSwitch(p) => x.state.Running? && x.pc.SleepSwitches?
    case Resume(p) => x.state.Running? && x.pc.Slept?
    case Release(p) => x.state.Running? && x.pc.Holding? && s.lk == NONE
    case WakeOne(p) => && x.state.Running? && x.pc.Wakes? && 0 <= x.pc.j <= |s.procs|
                       && (x.pc.j < |s.procs| && x.pc.j != p ==> !HoldsOwn(s.procs[x.pc.j].pc))
    case Kill(p) => !HoldsOwn(x.pc)
    case Nap(p) => x.state.Running? && (x.pc.Out? || x.pc.Holding?)
    case WakeNap(p) => x.state.Sleeping? && !x.here
    case Schedule(p) => x.state.Runnable?
    case Yield(p) => x.state.Running? && !HoldsLk(x.pc) && !HoldsOwn(x.pc)
  }

  function At(s: Sys, p: nat, x: Proc): (r: Sys)
    requires p < |s.procs|
  {
    s.(procs := s.procs[p := x])
  }

  function Next(s: Sys, t: Step): (r: Sys)
    requires Enabled(s, t)
    ensures |r.procs| == |s.procs|
  {
    var x := s.procs[t.p];
    match t
    case Acquire(p) => At(s, p, x.(pc := Wants))
    case Lock(p) => At(s, p, x.(pc := Tests)).(lk := p)
    case Test(p) =>
      if s.locked then At(s, p, x.(pc := SleepWantsOwn))
      else At(s, p, x.(pc := Holding)).(locked := true, pid := p, lk := NONE)
    case SleepOwn(p) => At(s, p, x.(pc := SleepUnlocks))
    case SleepUnlock(p) => At(s, p, x.(pc := SleepSwitches)).(lk := NONE)
    case SleepSwitch(p) => At(s, p, Proc(Sleeping, true, Slept))
    case Resume(p) => At(s, p, x.(here := false, pc := Wants))
    case Release(p) => At(s, p, x.(pc := Wakes(0))).(locked := false, pid := NONE, lk := p)
    case WakeOne(p) =>
      var j := x.pc.j;
      if j == |s.procs| then At(s, p, x.(pc := Out)).(lk := NONE)
      else
        var y := s.procs[j];
        var woken := if j != p && y.state.Sleeping? && y.here then At(s, j, y.(state := Runnable)) else s;
        At(woken, p, x.(pc := Wakes(j + 1)))
    case Kill(p) => At(s, p, x.(state := if x.state.Sleeping? then Runnable else x.state))
    case Nap(p) => At(s, p, x.(state := Sleeping, here := false))
    case WakeNap(p) => At(s, p, x.(state := Runnable))
    case Schedule(p) => At(s, p, x.(state := Running))
    case Yield(p) => At(s, p, x.(state := Runnable))
  }

  /** Asleep on the lock, or about to be: no longer holding the spin lock and not yet woken. */
  predicate Asleep(x: Proc) {
    x.pc.SleepSwitches? || (x.pc.Slept? && x.state.Sleeping?)
  }

  predicate Ok(s: Sys, p: nat)
    requires p < |s.procs|
  {
    var x := s.procs[p];
    && NONE <= s.lk < |s.procs| && (s.lk == p <==> HoldsLk(x.pc))
    && (x.pc.Holding? <==> s.locked && s.pid == p)
    && (s.locked ==> 0 <= s.pid < |s.procs|)
    && (HoldsLk(x.pc) || HoldsOwn(x.pc) ==> x.state.Running?)
    && (x.pc.SleepWantsOwn? || x.pc.SleepUnlocks? ==> s.locked)
    && (x.state.Sleeping? ==> if x.pc.Slept? then x.here else !x.here && (x.pc.Out? || x.pc.Holding?))
    && (x.pc.Wakes? ==> 0 <= x.pc.j <= |s.procs| && !s.locked)
    && (Asleep(x) ==> s.locked || (0 <= s.lk < |s.procs| && s.procs[s.lk].pc.Wakes? && s.procs[s.lk].pc.j <= p))
  }

  predicate Inv(s: Sys) {
    forall p :: 0 <= p < |s.procs| ==> Ok(s, p)
  }

  lemma Use(s: Sys, p: nat)
    requires Inv(s) && p < |s.procs|
    ensures Ok(s, p)
  {
  }

  predicate Acquiring(t: Step) {
    t.Acquire? || t.Lock? || t.Test? || t.SleepOwn? || t.SleepUnlock? || t.SleepSwitch? || t.Resume?
  }

  lemma AcquireKeepsOk(s: Sys, t: Step, q: nat)
    requires Inv(s) && Enabled(s, t) && q < |s.procs| && Acquiring(t)
    ensures Ok(Next(s, t), q)
  {
    hide Inv;
    Use(s, q);
    Use(s, t.p);
    if 0 <= s.lk < |s.procs| { Use(s, s.lk); }
  }

  lemma ReleaseKeepsOk(s: Sys, t: Step, q: nat)
    requires Inv(s) && Enabled(s, t) && q < |s.procs| && (t.Release? || t.WakeOne?)
    ensures Ok(Next(s, t), q)
  {
    hide Inv;
    Use(s, q);
    Use(s, t.p);
    if 0 <= s.lk < |s.procs| { Use(s, s.lk); }
  }

  lemma OtherKeepsOk(s: Sys, t: Step, q: nat)
    requires Inv(s) && Enabled(s, t) && q < |s.procs| && !Acquiring(t) && !t.Release? && !t.WakeOne?
    ensures Ok(Next(s, t), q)
  {
    hide Inv;
    Use(s, q);
    Use(s, t.p);
    if 0 <= s.lk < |s.procs| { Use(s, s.lk); }
  }

  lemma KeepsInv(s: Sys, t: Step)
    requires Inv(s) && Enabled(s, t)
    ensures Inv(Next(s, t))
  {
    hide Ok, Next;
    forall q | 0 <= q < |s.procs|
      ensures Ok(Next(s, t), q)
    {
      if Acquiring(t) { AcquireKeepsOk(s, t, q); }
      else if t.Release? || t.WakeOne? { ReleaseKeepsOk(s, t, q); }
      else { OtherKeepsOk(s, t, q); }
    }
  }

  /** initsleeplock: nobody uses the lock yet. */
  predicate Fresh(s: Sys) {
    && s.lk == NONE && !s.locked && s.pid == NONE
    && forall p :: 0 <= p < |s.procs| ==> s.procs[p].pc.Out? && !s.procs[p].here
  }

  /** Steps in any order; one that is not enabled is not taken. */
  function Run(s: Sys, steps: seq<Step>): (r: Sys)
    ensures |r.procs| == |s.procs|
    decreases |steps|
  {
    if steps == [] then s
    else Run(if Enabled(s, steps[0]) then Next(s, steps[0]) else s, steps[1..])
  }

  lemma {:induction false} RunKeepsInv(s: Sys, steps: seq<Step>)
    requires Inv(s)
    ensures Inv(Run(s, steps))
    decreases |steps|
  {
    hide Inv, Next, Enabled;
    if steps != [] {
      var g := if Enabled(s, steps[0]) then Next(s, steps[0]) else s;
      if Enabled(s, steps[0]) { KeepsInv(s, steps[0]); }
      RunKeepsInv(g, steps[1..]);
    }
  }

  /** At most one process holds the lock, and holdingsleep tells it from the others. */
  lemma MutualExclusion(s: Sys, steps: seq<Step>, p: nat, q: nat)
    requires Fresh(s) && p < |s.procs| && q < |s.procs|
    ensures var r := Run(s, steps);
            && (r.procs[p].pc.Holding? && r.procs[q].pc.Holding? ==> p == q)
            && (r.procs[p].pc.Holding? <==> r.locked && r.pid == p)
  {
    hide Inv, Run;
    assert Inv(s) by { FreshInv(s); }
    RunKeepsInv(s, steps);
    Use(Run(s, steps), p);
    Use(Run(s, steps), q);
  }

  /** Whenever the spin lock is free, a process asleep on the lock means that it is held. */
  lemma NoLostWakeup(s: Sys, steps: seq<Step>, p: nat)
    requires Fresh(s) && p < |s.procs|
    ensures var r := Run(s, steps);
            r.lk == NONE && Asleep(r.procs[p]) ==> 0 <= r.pid < |r.procs| && r.procs[r.pid].pc.Holding?
  {
    hide Inv, Run;
    assert Inv(s) by { FreshInv(s); }
    RunKeepsInv(s, steps);
    var r := Run(s, steps);
    Use(r, p);
    if 0 <= r.pid < |r.procs| { Use(r, r.pid); }
  }

  lemma FreshInv(s: Sys)
    requires Fresh(s)
    ensures Inv(s)
  {
  }

  /** A process that tests the lock has it afterwards exactly when nobody had it, and otherwise is on its way to sleep;
      and releasing it leaves it to nobody. */
  lemma TakenIfFree(s: Sys, steps: seq<Step>, p: nat)
    requires Fresh(s) && p < |s.procs|
    ensures var r := Run(s, steps);
            && (Enabled(r, Test(p)) ==>
                  var e := Next(r, Test(p));
                  && (e.procs[p].pc.Holding? <==> Nobody(r)) && (e.procs[p].pc.SleepWantsOwn? <==> !Nobody(r))
                  && (Nobody(r) ==> e.lk == NONE))
            && (Enabled(r, Release(p)) ==> Nobody(Next(r, Release(p))))
  {
    hide Run, Inv;
    FreshInv(s);
    RunKeepsInv(s, steps);
    var r := Run(s, steps);
    if Enabled(r, Test(p)) {
      Use(r, p);
      if r.locked { Use(r, r.pid); }
      forall q | 0 <= q < |r.procs|
        ensures r.procs[q].pc.Holding? <==> r.locked && r.pid == q
      {
        Use(r, q);
      }
    }
    if Enabled(r, Release(p)) {
      KeepsInv(r, Release(p));
      NobodyUnlocked(Next(r, Release(p)));
    }
  }

  predicate Nobody(s: Sys) {
    forall q :: 0 <= q < |s.procs| ==> !s.procs[q].pc.Holding?
  }

  lemma NobodyUnlocked(s: Sys)
    requires Inv(s) && !s.locked
    ensures Nobody(s)
  {
    forall q | 0 <= q < |s.procs|
      ensures !s.procs[q].pc.Holding?
    {
      Use(s, q);
    }
  }

  predicate InAcquire(pc: Pc) {
    pc.Wants? || pc.Tests? || pc.SleepWantsOwn? || pc.SleepUnlocks? || pc.SleepSwitches? || pc.Slept?
  }

  /** acquiresleep ends only with the lock taken, and the lock is given up only by releasesleep, which goes on until it
      has come to every process. */
  lemma AcquireEnds(s: Sys, t: Step, p: nat)
    requires Inv(s) && Enabled(s, t) && p < |s.procs|
    ensures var x, y := s.procs[p].pc, Next(s, t).procs[p].pc;
            && (InAcquire(x) && !InAcquire(y) ==> y.Holding?)
            && (x.Holding? && !y.Holding? ==> t == Release(p) && y == Wakes(0))
            && (x.Wakes? && !y.Wakes? ==> y.Out? && x.j == |s.procs|)
  {
    Use(s, p);
    Use(s, t.p);
  }

  /** And on its way releasesleep leaves nobody asleep whom it has come to. */
  lemma WakesAll(s: Sys, t: Step, p: nat)
    requires Inv(s) && Enabled(s, t) && t == WakeOne(p) && s.procs[p].pc.j < |s.procs|
    ensures var j := s.procs[p].pc.j; var r := Next(s, t);
            0 <= j && !Asleep(r.procs[j]) && r.procs[p].pc == Wakes(j + 1)
  {
    hide Inv;
    Use(s, p);
    Use(s, s.procs[p].pc.j);
  }
}
