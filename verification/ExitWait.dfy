/** fork, exit, reparent, wait, sleep, wakeup and kill (kernel/proc.c) as steps that any number of
    processors interleave. A step runs from one lock operation to the next. A section under one
    p->lock that releases no other lock meanwhile is one step, taken only while that lock is free. */
module ExitWait {
  const NPROC := 8
  const INIT := 0                        // initproc is the first entry of the table
  const NONE := -1

  datatype State = Unused | Used | Sleeping | Runnable | Running | Zombie
  datatype Chan = NoChan | On(q: int) | Elsewhere

  /** Where a process is in the functions modelled; Out is anywhere else. */
  datatype Pc =
    | Out
    | Reparent(k: int) | WakeInit(k: int, j: int) | WakeParent(j: int) | ExitWantsOwn | ExitUnlocks | ExitSwitches
    | Scan(k: int, kids: bool) | Scanned(kids: bool) | SleepWantsOwn | SleepUnlocks | SleepSwitches | Slept | WaitWants
    | ForkWants(c: int) | ForkLast(c: int)

  datatype Proc = Proc(state: State, parent: int, chan: Chan, killed: bool, pid: nat, xstate: int, pc: Pc)

  const Free := Proc(Unused, NONE, NoChan, false, 0, 0, Out)

  /** `wait` is the owner of wait_lock. `exits` and `reaps` are the history: the status each pid
      exited with, and the pids and statuses that calls of wait returned. */
  datatype Sys = Sys(procs: seq<Proc>, wait: int, nextpid: nat, exits: map<nat, int>, reaps: seq<(nat, int)>)

  predicate Shaped(s: Sys) {
    |s.procs| == NPROC
  }

  predicate Started(x: Proc) {
    x.state.Sleeping? || x.state.Runnable? || x.state.Running?
  }

  predicate HoldsWait(pc: Pc) {
    || pc.Reparent? || pc.WakeInit? || pc.WakeParent? || pc.ExitWantsOwn? || pc.ExitUnlocks?
    || pc.Scan? || pc.Scanned? || pc.SleepWantsOwn? || pc.SleepUnlocks?
  }

  /** The process holds its own p->lock. */
  predicate HoldsOwn(pc: Pc) {
    pc.ExitUnlocks? || pc.ExitSwitches? || pc.SleepUnlocks? || pc.SleepSwitches?
  }

  datatype Step =
    | ExitLock(p: nat) | ReparentOne(p: nat) | WakeOne(p: nat)
    | Die(p: nat, status: int) | ExitUnlock(p: nat) | ExitSwitch(p: nat)
    | WaitLock(p: nat) | ScanOne(p: nat, fault: bool) | ScanEnd(p: nat)
    | SleepOwn(p: nat) | SleepUnlock(p: nat) | SleepSwitch(p: nat) | Resume(p: nat)
    | ForkNew(p: nat, c: nat, ok: bool) | ForkParent(p: nat) | ForkRun(p: nat)
    | Kill(p: nat) | Nap(p: nat) | WakeNap(p: nat) | Schedule(p: nat) | Yield(p: nat)

  predicate Enabled(s: Sys, t: Step)
    requires Shaped(s)
  {
    t.p < NPROC &&
    var x := s.procs[t.p];
    match t
    case ExitLock(p) => x.state.Running? && x.pc.Out? && p != INIT && s.wait == NONE
    case ReparentOne(p) => x.state.Running? && x.pc.Reparent? && 0 <= x.pc.k <= NPROC
    case WakeOne(p) => && x.state.Running? && (x.pc.WakeInit? || x.pc.WakeParent?) && 0 <= x.pc.j <= NPROC
                       && (x.pc.j < NPROC && x.pc.j != p ==> !HoldsOwn(s.procs[x.pc.j].pc))
    case Die(p, _) => x.state.Running? && x.pc.ExitWantsOwn?
    case ExitUnlock(p) => x.pc.ExitUnlocks?
    case ExitSwitch(p) => x.pc.ExitSwitches?
    case WaitLock(p) => x.state.Running? && (x.pc.Out? || x.pc.WaitWants?) && s.wait == NONE
    case ScanOne(p, _) => && x.state.Running? && x.pc.Scan? && 0 <= x.pc.k <= NPROC
                          && (x.pc.k < NPROC && s.procs[x.pc.k].parent == p ==> !HoldsOwn(s.procs[x.pc.k].pc))
    case ScanEnd(p) => x.state.Running? && x.pc.Scanned?
    case SleepOwn(p) => x.state.Running? && x.pc.SleepWantsOwn?
    case SleepUnlock(p) => x.state.Running? && x.pc.SleepUnlocks?
    case SleepSwitch(p) => x.state.Running? && x.pc.SleepSwitches?
    case Resume(p) => x.state.Running? && x.pc.Slept?
    case ForkNew(p, c, _) => x.state.Running? && x.pc.Out? && c < NPROC && s.procs[c].state.Unused?
    case ForkParent(p) => x.state.Running? && x.pc.ForkWants? && 0 <= x.pc.c < NPROC && s.wait == NONE
    case ForkRun(p) => x.state.Running? && x.pc.ForkLast? && 0 <= x.pc.c < NPROC
    case Kill(p) => !HoldsOwn(x.pc)
    case Nap(p) => x.state.Running? && x.pc.Out?
    case WakeNap(p) => x.state.Sleeping? && x.chan.Elsewhere?
    case Schedule(p) => x.state.Runnable?
    case Yield(p) => x.state.Running? && !HoldsWait(x.pc) && !HoldsOwn(x.pc)
  }

  function At(s: Sys, p: nat, x: Proc): (r: Sys)
    requires Shaped(s) && p < NPROC
    ensures Shaped(r)
  {
    s.(procs := s.procs[p := x])
  }

  function Goto(s: Sys, p: nat, pc: Pc): (r: Sys)
    requires Shaped(s) && p < NPROC
    ensures Shaped(r)
  {
    At(s, p, s.procs[p].(pc := pc))
  }

  /** wakeup's test of one process. */
  function Woken(x: Proc, chan: Chan): (r: Proc) {
    if x.state.Sleeping? && x.chan == chan then x.(state := Runnable) else x
  }

  function Next(s: Sys, t: Step): (r: Sys)
    requires Shaped(s) && Enabled(s, t)
    ensures Shaped(r)
  {
    var x := s.procs[t.p];
    match t
    case ExitLock(p) => Goto(s, p, Reparent(0)).(wait := p)
    case ReparentOne(p) =>
      if x.pc.k == NPROC then Goto(s, p, WakeParent(0))
      else if s.procs[x.pc.k].parent == p then
        Goto(At(s, x.pc.k, s.procs[x.pc.k].(parent := INIT)), p, WakeInit(x.pc.k, 0))
      else Goto(s, p, Reparent(x.pc.k + 1))
    case WakeOne(p) =>
      var j := x.pc.j;
      var chan := if x.pc.WakeInit? then On(INIT) else On(x.parent);
      if j == NPROC then Goto(s, p, if x.pc.WakeInit? then Reparent(x.pc.k + 1) else ExitWantsOwn)
      else Goto(if j == p then s else At(s, j, Woken(s.procs[j], chan)), p, x.pc.(j := j + 1))
    case Die(p, status) =>
      At(s, p, x.(xstate := status, state := Zombie, pc := ExitUnlocks)).(exits := s.exits[x.pid := status])
    case ExitUnlock(p) => Goto(s, p, ExitSwitches).(wait := NONE)
    case ExitSwitch(p) => Goto(s, p, Out)
    case WaitLock(p) => Goto(s, p, Scan(0, false)).(wait := p)
    case ScanOne(p, fault) =>
      var k := x.pc.k;
      if k == NPROC then Goto(s, p, Scanned(x.pc.kids))
      else if s.procs[k].parent != p then Goto(s, p, Scan(k + 1, x.pc.kids))
      else if !s.procs[k].state.Zombie? then Goto(s, p, Scan(k + 1, true))
      else if fault then Goto(s, p, Out).(wait := NONE)
      else Goto(At(s, k, Free), p, Out).(wait := NONE, reaps := s.reaps + [(s.procs[k].pid, s.procs[k].xstate)])
    case ScanEnd(p) =>
      if !x.pc.kids || x.killed then Goto(s, p, Out).(wait := NONE) else Goto(s, p, SleepWantsOwn)
    case SleepOwn(p) => Goto(s, p, SleepUnlocks)
    case SleepUnlock(p) => Goto(s, p, SleepSwitches).(wait := NONE)
    case SleepSwitch(p) => At(s, p, x.(chan := On(p), state := Sleeping, pc := Slept))
    case Resume(p) => At(s, p, x.(chan := NoChan, pc := WaitWants))
    case ForkNew(p, c, ok) =>
      if ok then
        var born := s.procs[c].(state := Used, pid := s.nextpid);
        Goto(At(s, c, born), p, ForkWants(c)).(nextpid := s.nextpid + 1)
      else At(s, c, Free).(nextpid := s.nextpid + 1)
    case ForkParent(p) => Goto(At(s, x.pc.c, s.procs[x.pc.c].(parent := p)), p, ForkLast(x.pc.c))
    case ForkRun(p) => Goto(At(s, x.pc.c, s.procs[x.pc.c].(state := Runnable)), p, Out)
    case Kill(p) => At(s, p, x.(killed := true, state := if x.state.Sleeping? then Runnable else x.state))
    case Nap(p) => At(s, p, x.(chan := Elsewhere, state := Sleeping))
    case WakeNap(p) => At(s, p, x.(state := Runnable))
    case Schedule(p) => At(s, p, x.(state := Running))
    case Yield(p) => At(s, p, x.(state := Runnable))
  }

  // ---- what holds in every reachable state ----

  /** Asleep in wait, or about to be: no longer holding wait_lock and not yet woken. */
  predicate Asleep(x: Proc) {
    x.pc.SleepSwitches? || (x.pc.Slept? && x.state.Sleeping?)
  }

  predicate Exiting(pc: Pc) {
    pc.Reparent? || pc.WakeInit? || pc.WakeParent? || pc.ExitWantsOwn? || pc.ExitUnlocks? || pc.ExitSwitches?
  }

  function Child(pc: Pc): (c: int) {
    if pc.ForkWants? || pc.ForkLast? then pc.c else NONE
  }

  /** The process is what its place in the code says, and holds wait_lock just when it says so. */
  predicate Consistent(s: Sys, p: nat)
    requires Shaped(s) && p < NPROC
  {
    var x := s.procs[p];
    && NONE <= s.wait < NPROC && (s.wait == p <==> HoldsWait(x.pc))
    && (x.state.Unused? || x.state.Used? ==> x.pc.Out? && x.chan.NoChan?)
    && (x.state.Zombie? ==> x.pc.Out? || x.pc.ExitUnlocks? || x.pc.ExitSwitches?)
    && (x.pc.ExitUnlocks? || x.pc.ExitSwitches? ==> x.state.Zombie?)
    && ((HoldsWait(x.pc) || HoldsOwn(x.pc)) && !x.pc.ExitUnlocks? && !x.pc.ExitSwitches? ==> x.state.Running?)
    && (x.state.Sleeping? ==> (x.pc.Out? && x.chan.Elsewhere?) || (x.pc.Slept? && x.chan == On(p)))
    && (x.pc.Reparent? ==> 0 <= x.pc.k <= NPROC)
    && (x.pc.WakeInit? ==> 0 <= x.pc.k < NPROC && 0 <= x.pc.j <= NPROC)
    && (x.pc.WakeParent? ==> 0 <= x.pc.j <= NPROC)
    && (x.pc.Scan? ==> 0 <= x.pc.k <= NPROC)
  }

  /** The child that fork is making. */
  predicate Forking(s: Sys, p: nat)
    requires Shaped(s) && p < NPROC
  {
    var x := s.procs[p];
    x.pc.ForkWants? || x.pc.ForkLast? ==>
      && 0 <= x.pc.c < NPROC && x.pc.c != p && s.procs[x.pc.c].state.Used?
      && s.procs[x.pc.c].parent == (if x.pc.ForkLast? then p else NONE)
  }

  /** A parent has started and is no zombie; all who started but init have one. */
  predicate Family(s: Sys, p: nat)
    requires Shaped(s) && p < NPROC
  {
    var x := s.procs[p];
    && (p == INIT ==> Started(x) && x.parent == NONE && !Exiting(x.pc))
    && (x.state.Unused? ==> x.parent == NONE)
    && (Started(x) || x.state.Zombie? ==> p == INIT || x.parent != NONE)
    && (x.parent != NONE ==> 0 <= x.parent < NPROC && x.parent != p && Started(s.procs[x.parent]))
  }

  /** How far exit and wait have come with child `c` of `p`. */
  predicate Progress(s: Sys, p: nat, c: nat)
    requires Shaped(s) && p < NPROC && c < NPROC
  {
    var pc := s.procs[p].pc;
    s.procs[c].parent == p ==>
      && (pc.Reparent? ==> c >= pc.k)
      && (pc.WakeInit? ==> c > pc.k)
      && !(pc.WakeParent? || pc.ExitWantsOwn? || pc.ExitUnlocks? || pc.ExitSwitches?)
      && (pc.Scan? && !pc.kids ==> c >= pc.k) && (pc.Scanned? ==> pc.kids)
      && (s.procs[c].state.Zombie? ==>
            && (pc.Scan? ==> c >= pc.k)
            && !pc.Scanned? && !pc.SleepWantsOwn? && !pc.SleepUnlocks?
            && (Asleep(s.procs[p]) ==> Rousing(s, p, c)))
  }

  /** wait_lock is held by a process that has just given zombie `c` to `p` and not yet come to wake it. */
  predicate Rousing(s: Sys, p: nat, c: nat)
    requires Shaped(s) && p < NPROC && c < NPROC
  {
    0 <= s.wait < NPROC && p == INIT && s.procs[s.wait].pc.WakeInit? && s.procs[s.wait].pc.k == c
    && s.procs[s.wait].pc.j <= p
  }

  /** An exiting process has woken its parent by the time it dies. */
  predicate ParentWoken(s: Sys, p: nat)
    requires Shaped(s) && p < NPROC
  {
    var x := s.procs[p];
    (x.pc.WakeParent? && x.parent < x.pc.j) || x.pc.ExitWantsOwn? ==>
      0 <= x.parent < NPROC && !Asleep(s.procs[x.parent])
  }

  /** Pids are not reused, and a pid has exited just when its process is a zombie or gone. */
  predicate History(s: Sys, p: nat)
    requires Shaped(s) && p < NPROC
  {
    var x := s.procs[p];
    !x.state.Unused? ==>
      && x.pid < s.nextpid
      && (forall i :: 0 <= i < |s.reaps| ==> s.reaps[i].0 != x.pid)
      && (x.state.Zombie? <==> x.pid in s.exits)
      && (x.state.Zombie? ==> s.exits[x.pid] == x.xstate)
  }

  /** Each reaped pid had exited with that status, and none was reaped twice. */
  predicate Reaped(s: Sys) {
    && (forall i, j :: 0 <= i < j < |s.reaps| ==> s.reaps[i].0 != s.reaps[j].0)
    && (forall i :: 0 <= i < |s.reaps| ==> s.reaps[i].0 in s.exits && s.exits[s.reaps[i].0] == s.reaps[i].1)
    && (forall e :: e in s.exits ==> e < s.nextpid)
  }

  predicate Distinct(s: Sys, p: nat, q: nat)
    requires Shaped(s) && p < NPROC && q < NPROC
  {
    p != q ==>
      && (!s.procs[p].state.Unused? && !s.procs[q].state.Unused? ==> s.procs[p].pid != s.procs[q].pid)
      && (Child(s.procs[p].pc) != NONE ==> Child(s.procs[p].pc) != Child(s.procs[q].pc))
  }

  predicate One(s: Sys, p: nat)
    requires Shaped(s) && p < NPROC
  {
    Consistent(s, p) && Forking(s, p) && Family(s, p) && ParentWoken(s, p) && History(s, p)
  }

  predicate HasChild(s: Sys, p: nat)
    requires Shaped(s)
  {
    exists c :: 0 <= c < NPROC && s.procs[c].parent == p
  }

  /** In wait, having seen a child. */
  predicate SawChild(pc: Pc) {
    || (pc.Scan? && pc.kids) || (pc.Scanned? && pc.kids)
    || pc.SleepWantsOwn? || pc.SleepUnlocks? || pc.SleepSwitches? || pc.Slept? || pc.WaitWants?
  }

  /** A process that waits has something to wait for. */
  predicate Expects(s: Sys, p: nat)
    requires Shaped(s) && p < NPROC
  {
    SawChild(s.procs[p].pc) ==> HasChild(s, p)
  }

  predicate Inv(s: Sys) {
    && Shaped(s) && Reaped(s)
    && (forall p :: 0 <= p < NPROC ==> Expects(s, p))
    && (forall p :: 0 <= p < NPROC ==> One(s, p))
    && (forall p, q :: 0 <= p < NPROC && 0 <= q < NPROC ==> Distinct(s, p, q) && Progress(s, p, q))
  }

  lemma Use(s: Sys, p: nat)
    requires Inv(s) && p < NPROC
    ensures One(s, p)
  {
  }

  lemma UseTwo(s: Sys, p: nat, q: nat)
    requires Inv(s) && p < NPROC && q < NPROC
    ensures Distinct(s, p, q) && Progress(s, p, q)
  {
  }

  lemma UseExpects(s: Sys, p: nat)
    requires Inv(s) && p < NPROC
    ensures Expects(s, p)
  {
  }

  lemma UseReaped(s: Sys)
    requires Inv(s)
    ensures Reaped(s)
  {
  }

  predicate ExitStep(t: Step) {
    t.ExitLock? || t.ReparentOne? || t.WakeOne? || t.Die? || t.ExitUnlock? || t.ExitSwitch?
  }

  predicate WaitStep(t: Step) {
    t.WaitLock? || t.ScanOne? || t.ScanEnd? || t.SleepOwn? || t.SleepUnlock? || t.SleepSwitch? || t.Resume?
  }

  lemma ExitConsistent(s: Sys, t: Step, q: nat)
    requires Shaped(s) && Inv(s) && Enabled(s, t) && ExitStep(t) && q < NPROC
    ensures Consistent(Next(s, t), q)
  {
    hide Inv, Forking, Family, ParentWoken, History, Distinct, Progress, Reaped;
    Use(s, t.p);
    Use(s, q);
  }

  lemma ExitForking(s: Sys, t: Step, q: nat)
    requires Shaped(s) && Inv(s) && Enabled(s, t) && ExitStep(t) && q < NPROC
    ensures Forking(Next(s, t), q)
  {
    hide Inv, Family, ParentWoken, History, Distinct, Progress, Reaped;
    Use(s, t.p);
    Use(s, q);
    if 0 <= Child(s.procs[q].pc) < NPROC { Use(s, Child(s.procs[q].pc)); }
  }

  lemma ReparentFamily(s: Sys, t: Step, q: nat)
    requires Shaped(s) && Inv(s) && Enabled(s, t) && t.ReparentOne? && q < NPROC
    ensures Family(Next(s, t), q)
  {
    hide Inv, Forking, ParentWoken, History, Distinct, Reaped;
    Use(s, t.p);
    Use(s, q);
    if 0 <= s.procs[q].parent < NPROC { Use(s, s.procs[q].parent); }
    Use(s, INIT);
    UseTwo(s, t.p, q);
  }

  lemma ExitFamily(s: Sys, t: Step, q: nat)
    requires Shaped(s) && Inv(s) && Enabled(s, t) && ExitStep(t) && !t.ReparentOne? && !t.Die? && q < NPROC
    ensures Family(Next(s, t), q)
  {
    hide Inv, Forking, ParentWoken, History, Distinct, Reaped;
    Use(s, t.p);
    Use(s, q);
    if 0 <= s.procs[q].parent < NPROC { Use(s, s.procs[q].parent); }
    Use(s, INIT);
    UseTwo(s, t.p, q);
  }

  lemma DieFamily(s: Sys, t: Step, q: nat)
    requires Shaped(s) && Inv(s) && Enabled(s, t) && t.Die? && q < NPROC
    ensures Family(Next(s, t), q)
  {
    hide Inv, Forking, ParentWoken, History, Distinct, Reaped;
    Use(s, t.p);
    Use(s, q);
    if 0 <= s.procs[q].parent < NPROC { Use(s, s.procs[q].parent); }
    Use(s, INIT);
    UseTwo(s, t.p, q);
  }

  lemma ExitParentWoken(s: Sys, t: Step, q: nat)
    requires Shaped(s) && Inv(s) && Enabled(s, t) && ExitStep(t) && q < NPROC
    ensures ParentWoken(Next(s, t), q)
  {
    hide Inv, Forking, History, Distinct, Progress, Reaped;
    Use(s, t.p);
    Use(s, q);
    if 0 <= s.procs[q].parent < NPROC { Use(s, s.procs[q].parent); }
  }

  lemma ExitHistory(s: Sys, t: Step, q: nat)
    requires Shaped(s) && Inv(s) && Enabled(s, t) && ExitStep(t) && q < NPROC
    ensures History(Next(s, t), q)
  {
    hide Inv, Forking, Family, ParentWoken, Progress, Reaped;
    Use(s, q);
    UseTwo(s, t.p, q);
    Use(s, t.p);
  }

  lemma WaitConsistent(s: Sys, t: Step, q: nat)
    requires Shaped(s) && Inv(s) && Enabled(s, t) && WaitStep(t) && q < NPROC
    ensures Consistent(Next(s, t), q)
  {
    hide Inv, Forking, Family, ParentWoken, History, Distinct, Progress, Reaped;
    Use(s, t.p);
    Use(s, q);
  }

  lemma WaitForking(s: Sys, t: Step, q: nat)
    requires Shaped(s) && Inv(s) && Enabled(s, t) && WaitStep(t) && q < NPROC
    ensures Forking(Next(s, t), q)
  {
    hide Inv, Family, ParentWoken, History, Distinct, Progress, Reaped;
    Use(s, t.p);
    Use(s, q);
    if 0 <= Child(s.procs[q].pc) < NPROC { Use(s, Child(s.procs[q].pc)); }
  }

  lemma ScanFamily(s: Sys, t: Step, q: nat)
    requires Shaped(s) && Inv(s) && Enabled(s, t) && t.ScanOne? && q < NPROC
    ensures Family(Next(s, t), q)
  {
    hide Inv, Forking, ParentWoken, History, Distinct, Progress, Reaped;
    Use(s, t.p);
    Use(s, q);
    if 0 <= s.procs[q].parent < NPROC { Use(s, s.procs[q].parent); }
  }

  lemma WaitFamily(s: Sys, t: Step, q: nat)
    requires Shaped(s) && Inv(s) && Enabled(s, t) && WaitStep(t) && !t.ScanOne? && q < NPROC
    ensures Family(Next(s, t), q)
  {
    hide Inv, Forking, ParentWoken, History, Distinct, Progress, Reaped;
    Use(s, t.p);
    Use(s, q);
    if 0 <= s.procs[q].parent < NPROC { Use(s, s.procs[q].parent); }
  }

  lemma WaitParentWoken(s: Sys, t: Step, q: nat)
    requires Shaped(s) && Inv(s) && Enabled(s, t) && WaitStep(t) && q < NPROC
    ensures ParentWoken(Next(s, t), q)
  {
    hide Inv, Forking, History, Distinct, Progress, Reaped;
    Use(s, t.p);
    Use(s, q);
    if 0 <= s.procs[q].parent < NPROC { Use(s, s.procs[q].parent); }
  }

  lemma WaitHistory(s: Sys, t: Step, q: nat)
    requires Shaped(s) && Inv(s) && Enabled(s, t) && WaitStep(t) && q < NPROC
    ensures History(Next(s, t), q)
  {
    hide Inv, Forking, Family, ParentWoken, Progress, Reaped;
    Use(s, q);
    if t.ScanOne? && s.procs[t.p].pc.k < NPROC { UseTwo(s, s.procs[t.p].pc.k, q); }
  }

  lemma OtherConsistent(s: Sys, t: Step, q: nat)
    requires Shaped(s) && Inv(s) && Enabled(s, t) && !ExitStep(t) && !WaitStep(t) && q < NPROC
    ensures Consistent(Next(s, t), q)
  {
    hide Inv, Family, ParentWoken, History, Distinct, Progress, Reaped;
    Use(s, t.p);
    Use(s, q);
  }

  lemma OtherForking(s: Sys, t: Step, q: nat)
    requires Shaped(s) && Inv(s) && Enabled(s, t) && !ExitStep(t) && !WaitStep(t) && q < NPROC
    ensures Forking(Next(s, t), q)
  {
    hide Inv, ParentWoken, History, Progress, Reaped;
    Use(s, t.p);
    Use(s, q);
    if 0 <= Child(s.procs[q].pc) < NPROC { Use(s, Child(s.procs[q].pc)); }
    UseTwo(s, t.p, q);
    if t.ForkNew? { Use(s, t.c); }
  }

  lemma OtherFamily(s: Sys, t: Step, q: nat)
    requires Shaped(s) && Inv(s) && Enabled(s, t) && !ExitStep(t) && !WaitStep(t) && q < NPROC
    ensures Family(Next(s, t), q)
  {
    hide Inv, ParentWoken, History, Distinct, Progress, Reaped;
    Use(s, t.p);
    Use(s, q);
    if 0 <= s.procs[q].parent < NPROC { Use(s, s.procs[q].parent); }
  }

  lemma OtherParentWoken(s: Sys, t: Step, q: nat)
    requires Shaped(s) && Inv(s) && Enabled(s, t) && !ExitStep(t) && !WaitStep(t) && q < NPROC
    ensures ParentWoken(Next(s, t), q)
  {
    hide Inv, History, Distinct, Progress, Reaped;
    Use(s, t.p);
    Use(s, q);
    if 0 <= s.procs[q].parent < NPROC { Use(s, s.procs[q].parent); }
  }

  lemma OtherHistory(s: Sys, t: Step, q: nat)
    requires Shaped(s) && Inv(s) && Enabled(s, t) && !ExitStep(t) && !WaitStep(t) && q < NPROC
    ensures History(Next(s, t), q)
  {
    hide Inv, Family, ParentWoken, Progress;
    Use(s, q);
    Use(s, t.p);
    UseReaped(s);
  }

  /** But for fork, a step gives no one a new pid or a new child to start. */
  lemma KeepsLife(s: Sys, t: Step, q: nat)
    requires Shaped(s) && Enabled(s, t) && Forking(s, t.p) && !t.ForkNew? && q < NPROC
    ensures var x, y := s.procs[q], Next(s, t).procs[q];
            && (y.state.Unused? || (!x.state.Unused? && y.pid == x.pid))
            && (Child(y.pc) == NONE || Child(y.pc) == Child(x.pc))
  {
  }

  lemma KeepsDistinct(s: Sys, t: Step, p: nat, q: nat)
    requires Shaped(s) && Inv(s) && Enabled(s, t) && !t.ForkNew? && q < NPROC && p < NPROC
    ensures Distinct(Next(s, t), p, q)
  {
    hide Inv, Next, Consistent, Forking, Family, ParentWoken, History, Progress, Reaped;
    Use(s, t.p);
    KeepsLife(s, t, p);
    KeepsLife(s, t, q);
    UseTwo(s, p, q);
  }

  lemma ForkDistinct(s: Sys, t: Step, p: nat, q: nat)
    requires Shaped(s) && Inv(s) && Enabled(s, t) && t.ForkNew? && q < NPROC && p < NPROC
    ensures Distinct(Next(s, t), p, q)
  {
    hide Inv, Family, ParentWoken, Progress, Reaped;
    Use(s, q);
    Use(s, p);
    UseTwo(s, p, q);
    if 0 <= Child(s.procs[q].pc) < NPROC { Use(s, Child(s.procs[q].pc)); }
    if 0 <= Child(s.procs[p].pc) < NPROC { Use(s, Child(s.procs[p].pc)); }
  }

  lemma ReparentProgress(s: Sys, t: Step, p: nat, q: nat)
    requires Shaped(s) && Inv(s) && Enabled(s, t) && t.ReparentOne? && q < NPROC && p < NPROC
    ensures Progress(Next(s, t), p, q)
  {
    hide Inv, Forking, History, Distinct, Reaped;
    Use(s, t.p);
    Use(s, q);
    Use(s, p);
    UseTwo(s, p, q);
    if 0 <= s.wait < NPROC { Use(s, s.wait); }
  }

  lemma WakeProgress(s: Sys, t: Step, p: nat, q: nat)
    requires Shaped(s) && Inv(s) && Enabled(s, t) && t.WakeOne? && q < NPROC && p < NPROC
    ensures Progress(Next(s, t), p, q)
  {
    hide Inv, Forking, History, Distinct, Reaped;
    Use(s, t.p);
    Use(s, q);
    Use(s, p);
    UseTwo(s, p, q);
    if 0 <= s.wait < NPROC { Use(s, s.wait); }
  }

  lemma ExitProgress(s: Sys, t: Step, p: nat, q: nat)
    requires Shaped(s) && Inv(s) && Enabled(s, t) && ExitStep(t) && !t.ReparentOne? && !t.WakeOne? && q < NPROC
      && p < NPROC
    ensures Progress(Next(s, t), p, q)
  {
    hide Inv, Forking, History, Distinct, Reaped;
    Use(s, t.p);
    Use(s, q);
    Use(s, p);
    UseTwo(s, p, q);
    if 0 <= s.wait < NPROC { Use(s, s.wait); }
  }

  lemma ScanProgress(s: Sys, t: Step, p: nat, q: nat)
    requires Shaped(s) && Inv(s) && Enabled(s, t) && t.ScanOne? && q < NPROC && p < NPROC
    ensures Progress(Next(s, t), p, q)
  {
    hide Inv, Forking, Family, ParentWoken, History, Distinct, Reaped;
    Use(s, t.p);
    Use(s, p);
    UseTwo(s, p, q);
    if 0 <= s.wait < NPROC { Use(s, s.wait); }
  }

  lemma WaitProgress(s: Sys, t: Step, p: nat, q: nat)
    requires Shaped(s) && Inv(s) && Enabled(s, t) && WaitStep(t) && !t.ScanOne? && q < NPROC && p < NPROC
    ensures Progress(Next(s, t), p, q)
  {
    hide Inv, Forking, Family, ParentWoken, History, Distinct, Reaped;
    Use(s, t.p);
    Use(s, p);
    UseTwo(s, p, q);
    if 0 <= s.wait < NPROC { Use(s, s.wait); }
  }

  lemma ForkNewProgress(s: Sys, t: Step, p: nat, q: nat)
    requires Shaped(s) && Inv(s) && Enabled(s, t) && t.ForkNew? && q < NPROC
      && p < NPROC
    ensures Progress(Next(s, t), p, q)
  {
    hide Inv, Family, ParentWoken, History, Distinct, Reaped;
    Use(s, t.p);
    Use(s, p);
    UseTwo(s, p, q);
    if 0 <= s.wait < NPROC { Use(s, s.wait); }
  }

  lemma ForkProgress(s: Sys, t: Step, p: nat, q: nat)
    requires Shaped(s) && Inv(s) && Enabled(s, t) && (t.ForkParent? || t.ForkRun?) && q < NPROC
      && p < NPROC
    ensures Progress(Next(s, t), p, q)
  {
    hide Inv, Family, ParentWoken, History, Distinct, Reaped;
    Use(s, t.p);
    Use(s, p);
    UseTwo(s, p, q);
    if 0 <= s.wait < NPROC { Use(s, s.wait); }
  }

  lemma SchedProgress(s: Sys, t: Step, p: nat, q: nat)
    requires Shaped(s) && Inv(s) && Enabled(s, t) && q < NPROC && p < NPROC
    requires t.Kill? || t.Nap? || t.WakeNap? || t.Schedule? || t.Yield?
    ensures Progress(Next(s, t), p, q)
  {
    hide Inv, Forking, Family, ParentWoken, History, Distinct, Reaped;
    Use(s, t.p);
    Use(s, p);
    UseTwo(s, p, q);
    if 0 <= s.wait < NPROC { Use(s, s.wait); }
  }

  lemma KeepsReaped(s: Sys, t: Step)
    requires Inv(s) && Enabled(s, t)
    ensures Reaped(Next(s, t))
  {
    hide Consistent, Forking, Family, ParentWoken, Distinct, Progress;
    Use(s, t.p);
    if t.ScanOne? && s.procs[t.p].pc.k < NPROC { Use(s, s.procs[t.p].pc.k); }
  }

  /** A child of a process in wait stays its child, until that process reaps it. */
  lemma KeepsChild(s: Sys, t: Step, p: nat, c: nat)
    requires Shaped(s) && Inv(s) && Enabled(s, t) && p < NPROC && c < NPROC
    requires s.procs[c].parent == p && SawChild(s.procs[p].pc) && SawChild(Next(s, t).procs[p].pc)
    ensures Next(s, t).procs[c].parent == p
  {
    hide Inv, ParentWoken, History, Distinct, Progress, Reaped, Expects, Consistent;
    Use(s, t.p);
    Use(s, c);
  }

  lemma KeepsExpects(s: Sys, t: Step, p: nat)
    requires Shaped(s) && Inv(s) && Enabled(s, t) && p < NPROC
    ensures Expects(Next(s, t), p)
  {
    hide Inv, One;
    var r := Next(s, t);
    if SawChild(r.procs[p].pc) {
      if SawChild(s.procs[p].pc) {
        UseExpects(s, p);
        var c :| 0 <= c < NPROC && s.procs[c].parent == p;
        KeepsChild(s, t, p, c);
      } else {
        SeesChild(s, t, p);
      }
    }
  }

  /** A process in wait first takes note of a child when it looks at one. */
  lemma SeesChild(s: Sys, t: Step, p: nat)
    requires Shaped(s) && Inv(s) && Enabled(s, t) && p < NPROC
    requires !SawChild(s.procs[p].pc) && SawChild(Next(s, t).procs[p].pc)
    ensures HasChild(Next(s, t), p)
  {
    hide Inv, ParentWoken, History, Distinct, Progress, Reaped, Expects, Family;
    Use(s, t.p);
    assert t.p == p;
    var k := s.procs[p].pc.k;
    assert Next(s, t).procs[k].parent == p;
  }

  lemma KeepsOne(s: Sys, t: Step, q: nat)
    requires Shaped(s) && Inv(s) && Enabled(s, t) && q < NPROC
    ensures One(Next(s, t), q)
  {
    hide Inv, Consistent, Forking, Family, ParentWoken, History, Next;
    if ExitStep(t) {
      ExitConsistent(s, t, q);
      ExitForking(s, t, q);
      if t.ReparentOne? { ReparentFamily(s, t, q); }
      else if t.Die? { DieFamily(s, t, q); }
      else { ExitFamily(s, t, q); }
      ExitParentWoken(s, t, q);
      ExitHistory(s, t, q);
    } else if WaitStep(t) {
      WaitConsistent(s, t, q);
      WaitForking(s, t, q);
      if t.ScanOne? { ScanFamily(s, t, q); } else { WaitFamily(s, t, q); }
      WaitParentWoken(s, t, q);
      WaitHistory(s, t, q);
    } else {
      OtherConsistent(s, t, q);
      OtherForking(s, t, q);
      OtherFamily(s, t, q);
      OtherParentWoken(s, t, q);
      OtherHistory(s, t, q);
    }
  }

  lemma KeepsTwo(s: Sys, t: Step, p: nat, q: nat)
    requires Shaped(s) && Inv(s) && Enabled(s, t) && p < NPROC && q < NPROC
    ensures Distinct(Next(s, t), p, q) && Progress(Next(s, t), p, q)
  {
    hide Inv, Distinct, Progress, Next;
    if t.ForkNew? { ForkDistinct(s, t, p, q); } else { KeepsDistinct(s, t, p, q); }
    if t.ReparentOne? { ReparentProgress(s, t, p, q); }
    else if t.WakeOne? { WakeProgress(s, t, p, q); }
    else if ExitStep(t) { ExitProgress(s, t, p, q); }
    else if t.ScanOne? { ScanProgress(s, t, p, q); }
    else if WaitStep(t) { WaitProgress(s, t, p, q); }
    else if t.ForkNew? { ForkNewProgress(s, t, p, q); }
    else if t.ForkParent? || t.ForkRun? { ForkProgress(s, t, p, q); }
    else { SchedProgress(s, t, p, q); }
  }

  lemma KeepsInv(s: Sys, t: Step)
    requires Shaped(s) && Inv(s) && Enabled(s, t)
    ensures Inv(Next(s, t))
  {
    hide One, Distinct, Progress, Reaped, Next, Expects;
    var r := Next(s, t);
    KeepsReaped(s, t);
    forall p | 0 <= p < NPROC
      ensures Expects(r, p)
    {
      KeepsExpects(s, t, p);
    }
    forall q | 0 <= q < NPROC
      ensures One(r, q)
    {
      KeepsOne(s, t, q);
    }
    forall p, q | 0 <= p < NPROC && 0 <= q < NPROC
      ensures Distinct(r, p, q) && Progress(r, p, q)
    {
      KeepsTwo(s, t, p, q);
    }
  }

  // ---- every run ----

  /** After userinit: init alone, with pid 1. */
  function Boot(): (s: Sys)
    ensures Inv(s)
  {
    Sys([Proc(Runnable, NONE, NoChan, false, 1, 0, Out)] + seq(NPROC - 1, _ => Free), NONE, 2, map[], [])
  }

  /** Steps in any order; one that is not enabled is not taken. */
  function Run(s: Sys, steps: seq<Step>): (r: Sys)
    requires Shaped(s)
    ensures Shaped(r)
    decreases |steps|
  {
    if steps == [] then s
    else Run(if Enabled(s, steps[0]) then Next(s, steps[0]) else s, steps[1..])
  }

  lemma {:induction false} RunKeepsInv(s: Sys, steps: seq<Step>)
    requires Shaped(s) && Inv(s)
    ensures Inv(Run(s, steps))
    decreases |steps|
  {
    hide Inv, Next, Enabled;
    if steps != [] {
      var g := if Enabled(s, steps[0]) then Next(s, steps[0]) else s;
      if Enabled(s, steps[0]) { KeepsInv(s, steps[0]); }
      RunKeepsInv(g, steps[1..]);
    }
  }

  /** Whenever wait_lock is free, no process asleep in wait has a zombie child. */
  lemma NoZombieUnnoticed(steps: seq<Step>, p: nat, c: nat)
    requires p < NPROC && c < NPROC
    ensures var s := Run(Boot(), steps);
            s.wait == NONE && Asleep(s.procs[p]) && s.procs[c].parent == p ==> !s.procs[c].state.Zombie?
  {
    hide Inv, Run;
    RunKeepsInv(Boot(), steps);
    UseTwo(Run(Boot(), steps), p, c);
  }

  /** Every process that has started, init apart, has a parent that has started and is no zombie. */
  lemma NoOrphans(steps: seq<Step>, p: nat)
    requires 0 < p < NPROC
    ensures var s := Run(Boot(), steps);
            Started(s.procs[p]) || s.procs[p].state.Zombie? ==>
              0 <= s.procs[p].parent < NPROC && Started(s.procs[s.procs[p].parent])
  {
    hide Inv, Run;
    RunKeepsInv(Boot(), steps);
    Use(Run(Boot(), steps), p);
  }

  /** wait returns each exit at most once, with the pid and the status of that exit. */
  lemma ReapedOnce(steps: seq<Step>, i: nat, j: nat)
    requires i < j < |Run(Boot(), steps).reaps|
    ensures var s := Run(Boot(), steps);
            s.reaps[i].0 != s.reaps[j].0 && s.reaps[i].0 in s.exits && s.exits[s.reaps[i].0] == s.reaps[i].1
  {
    hide Inv, Run;
    RunKeepsInv(Boot(), steps);
    UseReaped(Run(Boot(), steps));
  }

  /** wait finds no children only when there are none. */
  lemma ChildlessIsTrue(steps: seq<Step>, p: nat, c: nat)
    requires p < NPROC && c < NPROC
    ensures var s := Run(Boot(), steps);
            s.procs[p].pc == Scanned(false) ==> s.procs[c].parent != p
  {
    hide Inv, Run;
    RunKeepsInv(Boot(), steps);
    UseTwo(Run(Boot(), steps), p, c);
  }

  /** A process on its way to sleep in wait, or asleep there, has a child. */
  lemma SleepersHaveChildren(steps: seq<Step>, p: nat)
    requires p < NPROC
    ensures var s := Run(Boot(), steps); var pc := s.procs[p].pc;
            pc.SleepWantsOwn? || pc.SleepUnlocks? || pc.SleepSwitches? || pc.Slept? ==> HasChild(s, p)
  {
    hide Inv, Run;
    RunKeepsInv(Boot(), steps);
    UseExpects(Run(Boot(), steps), p);
  }

  /** When its scan is over wait gives up, with wait_lock released, exactly when the caller has no child or has been
      killed; otherwise it goes to sleep. */
  lemma GivesUpExactly(steps: seq<Step>, p: nat)
    requires p < NPROC && Enabled(Run(Boot(), steps), ScanEnd(p))
    ensures var s := Run(Boot(), steps); var r := Next(s, ScanEnd(p));
            && (r.procs[p].pc.Out? && r.wait == NONE <==> s.procs[p].killed || !HasChild(s, p))
            && (r.procs[p].pc.SleepWantsOwn? && r.wait == p <==> !s.procs[p].killed && HasChild(s, p))
            && r.reaps == s.reaps
  {
    hide Inv, Run;
    RunKeepsInv(Boot(), steps);
    var s := Run(Boot(), steps);
    UseExpects(s, p);
    Use(s, p);
    if HasChild(s, p) {
      var c :| 0 <= c < NPROC && s.procs[c].parent == p;
      UseTwo(s, p, c);
    }
  }

  /** A scan that comes to a zombie child, and can copy its status out, returns that child's pid and the status it
      exited with, and frees its slot. */
  lemma ZombieReaped(steps: seq<Step>, p: nat)
    requires p < NPROC && Enabled(Run(Boot(), steps), ScanOne(p, false))
    ensures var s := Run(Boot(), steps); var k := s.procs[p].pc.k; var r := Next(s, ScanOne(p, false));
            0 <= k < NPROC && s.procs[k].parent == p && s.procs[k].state.Zombie? ==>
              && s.procs[k].pid in s.exits && r.reaps == s.reaps + [(s.procs[k].pid, s.exits[s.procs[k].pid])]
              && r.procs[k].state.Unused? && r.procs[p].pc.Out? && r.wait == NONE
  {
    hide Inv, Run;
    RunKeepsInv(Boot(), steps);
    var s := Run(Boot(), steps);
    Use(s, p);
    var k := s.procs[p].pc.k;
    if 0 <= k < NPROC { Use(s, k); }
  }

  /** The last step of fork leaves a runnable child of the caller, with a pid that nobody else has. */
  lemma ForkedRuns(steps: seq<Step>, p: nat, q: nat)
    requires p < NPROC && q < NPROC && Enabled(Run(Boot(), steps), ForkRun(p))
    ensures var s := Run(Boot(), steps); var c := s.procs[p].pc.c; var r := Next(s, ForkRun(p));
            && 0 <= c < NPROC && c != p && r.procs[c].state.Runnable? && r.procs[c].parent == p && r.procs[p].pc.Out?
            && (q != c && !r.procs[q].state.Unused? ==> r.procs[q].pid != r.procs[c].pid)
  {
    hide Inv, Run;
    RunKeepsInv(Boot(), steps);
    var s := Run(Boot(), steps);
    Use(s, p);
    UseTwo(s, q, s.procs[p].pc.c);
  }

  predicate InWait(pc: Pc) {
    || pc.Scan? || pc.Scanned? || pc.WaitWants?
    || pc.SleepWantsOwn? || pc.SleepUnlocks? || pc.SleepSwitches? || pc.Slept?
  }

  /** A call of wait ends in three ways only: with a zombie child reaped, with one whose status cannot be copied out,
      or because there is no child or the caller was killed. Waking up is not one of them. */
  lemma WaitEnds(steps: seq<Step>, t: Step, p: nat)
    requires p < NPROC && Enabled(Run(Boot(), steps), t)
    ensures var s := Run(Boot(), steps); var r := Next(s, t);
            InWait(s.procs[p].pc) && !InWait(r.procs[p].pc) ==>
              && r.procs[p].pc.Out? && r.wait == NONE
              && if t == ScanEnd(p) then s.procs[p].killed || !HasChild(s, p)
                 else && t.ScanOne? && t.p == p && 0 <= s.procs[p].pc.k < NPROC
                      && s.procs[s.procs[p].pc.k].parent == p && s.procs[s.procs[p].pc.k].state.Zombie?
                      && (t.fault || |r.reaps| == |s.reaps| + 1)
  {
    hide Inv, Run;
    RunKeepsInv(Boot(), steps);
    var s := Run(Boot(), steps);
    Use(s, t.p);
    Use(s, p);
    if t == ScanEnd(p) { GivesUpExactly(steps, p); }
  }

  /** A call of exit ends in a zombie only, and a call of fork that has a slot only with its child runnable. */
  lemma ExitAndForkEnd(steps: seq<Step>, t: Step, p: nat)
    requires p < NPROC && Enabled(Run(Boot(), steps), t)
    ensures var s := Run(Boot(), steps); var r := Next(s, t); var x, y := s.procs[p], r.procs[p];
            && (Exiting(x.pc) && !Exiting(y.pc) ==> y.state.Zombie? && y.pid in r.exits)
            && (Child(x.pc) != NONE && Child(y.pc) != Child(x.pc) ==> t == ForkRun(p))
  {
    hide Inv, Run;
    RunKeepsInv(Boot(), steps);
    var s := Run(Boot(), steps);
    Use(s, t.p);
    Use(s, p);
    if t.ScanOne? && 0 <= s.procs[t.p].pc.k < NPROC { Use(s, s.procs[t.p].pc.k); }
  }

  // ---- kill ----

  /** kill marks its process and wakes it. */
  lemma KillMarks(s: Sys, p: nat)
    requires Shaped(s) && Enabled(s, Kill(p))
    ensures var r := Next(s, Kill(p));
            && r.procs[p].killed && !r.procs[p].state.Sleeping?
            && (s.procs[p].state.Sleeping? ==> r.procs[p].state.Runnable?)
  {
  }

  /** Nothing else marks a slot, and what unmarks it is its being freed. But kill looks at free slots too, and a
      process that is made in a slot which is marked starts out killed. */
  lemma OnlyKillMarks(s: Sys, t: Step, q: nat)
    requires Shaped(s) && Inv(s) && Enabled(s, t) && q < NPROC
    ensures !s.procs[q].killed ==> (Next(s, t).procs[q].killed <==> t == Kill(q))
    ensures s.procs[q].killed && !Next(s, t).procs[q].killed ==> Next(s, t).procs[q].state.Unused?
  {
    hide Inv, ParentWoken, History, Distinct, Progress, Reaped, Expects, Family, Consistent;
    Use(s, t.p);
  }

  const BornMarked := [Schedule(0), Kill(1), ForkNew(0, 1, true), ForkParent(0), ForkRun(0)]

  lemma BornKilled()
    ensures var x := Run(Boot(), BornMarked).procs[1]; x.killed && x.state.Runnable? && x.pid == 2 && x.parent == INIT
  {
    hide Run;
    var a := Boot();
    var b := Next(a, Schedule(0));
    var c := Next(b, Kill(1));
    var d := Next(c, ForkNew(0, 1, true));
    var e := Next(d, ForkParent(0));
    var f := Next(e, ForkRun(0));
    RunStep(e, BornMarked[4], []);
    RunStep(d, BornMarked[3], BornMarked[4..]);
    RunStep(c, BornMarked[2], BornMarked[3..]);
    RunStep(b, BornMarked[1], BornMarked[2..]);
    RunStep(a, BornMarked[0], BornMarked[1..]);
    assert BornMarked[4..] == [BornMarked[4]] + [];
    assert BornMarked[3..] == [BornMarked[3]] + BornMarked[4..];
    assert BornMarked[2..] == [BornMarked[2]] + BornMarked[3..];
    assert BornMarked[1..] == [BornMarked[1]] + BornMarked[2..];
    assert BornMarked == [BornMarked[0]] + BornMarked[1..];
    RunNone(f);
  }

  lemma RunNone(s: Sys)
    requires Shaped(s)
    ensures Run(s, []) == s
  {
  }

  /** A killed process stays so as long as it exists. */
  lemma {:induction false} KilledForever(s: Sys, steps: seq<Step>, p: nat)
    requires Shaped(s) && Inv(s) && p < NPROC && s.procs[p].killed && !s.procs[p].state.Unused?
    ensures var r := Run(s, steps);
            !r.procs[p].state.Unused? && r.procs[p].pid == s.procs[p].pid ==> r.procs[p].killed
    decreases |steps|
  {
    hide Inv, Next, Enabled;
    if steps != [] {
      var g := if Enabled(s, steps[0]) then Next(s, steps[0]) else s;
      if Enabled(s, steps[0]) {
        KeepsInv(s, steps[0]);
        KilledStays(s, steps[0], p);
      }
      PidBelow(s, p);
      if !g.procs[p].state.Unused? && g.procs[p].pid == s.procs[p].pid {
        KilledForever(g, steps[1..], p);
      } else {
        NeverAgain(g, steps[1..], p, s.procs[p].pid);
      }
    }
  }

  lemma PidBelow(s: Sys, p: nat)
    requires Inv(s) && p < NPROC && !s.procs[p].state.Unused?
    ensures s.procs[p].pid < s.nextpid
  {
    Use(s, p);
  }

  lemma KilledStays(s: Sys, t: Step, p: nat)
    requires Shaped(s) && Inv(s) && Enabled(s, t) && p < NPROC && s.procs[p].killed && !s.procs[p].state.Unused?
    ensures var y := Next(s, t).procs[p]; y.state.Unused? || (y.killed && y.pid == s.procs[p].pid)
    ensures s.nextpid <= Next(s, t).nextpid
  {
    hide Inv, ParentWoken, History, Distinct, Progress, Reaped, Expects, Family, Consistent;
    Use(s, t.p);
  }

  /** A pid that is in no slot and was given out before does not come back to a slot. */
  lemma {:induction false} NeverAgain(s: Sys, steps: seq<Step>, p: nat, pid: nat)
    requires Shaped(s) && Inv(s) && p < NPROC && pid < s.nextpid
    requires s.procs[p].state.Unused? || s.procs[p].pid != pid
    ensures var r := Run(s, steps); r.procs[p].state.Unused? || r.procs[p].pid != pid
    decreases |steps|
  {
    hide Inv, Next, Enabled;
    if steps != [] {
      var g := if Enabled(s, steps[0]) then Next(s, steps[0]) else s;
      if Enabled(s, steps[0]) {
        KeepsInv(s, steps[0]);
        StaysGone(s, steps[0], p, pid);
      }
      NeverAgain(g, steps[1..], p, pid);
    }
  }

  lemma StaysGone(s: Sys, t: Step, p: nat, pid: nat)
    requires Shaped(s) && Inv(s) && Enabled(s, t) && p < NPROC && pid < s.nextpid
    requires s.procs[p].state.Unused? || s.procs[p].pid != pid
    ensures Next(s, t).procs[p].state.Unused? || Next(s, t).procs[p].pid != pid
    ensures pid < Next(s, t).nextpid
  {
    hide Inv, ParentWoken, History, Distinct, Progress, Reaped, Expects, Family, Consistent;
    Use(s, t.p);
  }

  predicate KilledAsleep(x: Proc) {
    x.killed && x.pc.Slept? && x.state.Sleeping?
  }

  /** A killed process comes to sleep in wait in one way only: it was killed after its last look at the flag and before
      it was marked asleep, when kill has nobody to wake. */
  lemma KillMissed(s: Sys, t: Step, p: nat)
    requires Shaped(s) && Inv(s) && Enabled(s, t) && p < NPROC && !KilledAsleep(s.procs[p])
    ensures KilledAsleep(Next(s, t).procs[p]) <==> t == SleepSwitch(p) && s.procs[p].killed
  {
    hide Inv, ParentWoken, History, Distinct, Progress, Reaped, Expects, Family;
    Use(s, t.p);
    Use(s, p);
  }

  // ---- such a run: init forks and waits, and is killed in between ----

  const Forks := [Schedule(0), ForkNew(0, 1, true), ForkParent(0), ForkRun(0), WaitLock(0)]
  const Sleeps := [ScanEnd(0), Kill(0), SleepOwn(0), SleepUnlock(0), SleepSwitch(0)]

  /** Init and one child that has not run yet. */
  function Pair(init: Proc, wait: int): (s: Sys)
    ensures Shaped(s) && s.procs[0] == init && s.procs[1].parent == 0 && s.procs[1].state.Runnable?
    ensures forall k :: 2 <= k < NPROC ==> s.procs[k] == Free
  {
    Sys([init, Proc(Runnable, INIT, NoChan, false, 2, 0, Out)] + seq(NPROC - 2, _ => Free), wait, 3, map[], [])
  }

  function Init(state: State, killed: bool, pc: Pc): (x: Proc) {
    Proc(state, NONE, if pc.Slept? then On(0) else NoChan, killed, 1, 0, pc)
  }

  lemma RunStep(s: Sys, t: Step, rest: seq<Step>)
    requires Shaped(s) && Enabled(s, t)
    ensures Run(s, [t] + rest) == Run(Next(s, t), rest)
  {
    assert ([t] + rest)[1..] == rest;
  }

  lemma {:induction false} Scans(k: nat, rest: seq<Step>)
    requires k <= NPROC
    ensures Run(Pair(Init(Running, false, Scan(k, k >= 2)), 0), seq(NPROC + 1 - k, _ => ScanOne(0, false)) + rest) ==
            Run(Pair(Init(Running, false, Scanned(true)), 0), rest)
    decreases NPROC - k
  {
    hide Run;
    var s, steps := Pair(Init(Running, false, Scan(k, k >= 2)), 0), seq(NPROC - k, _ => ScanOne(0, false)) + rest;
    assert seq(NPROC + 1 - k, _ => ScanOne(0, false)) + rest == [ScanOne(0, false)] + steps;
    RunStep(s, ScanOne(0, false), steps);
    if k < NPROC {
      assert Next(s, ScanOne(0, false)) == Pair(Init(Running, false, Scan(k + 1, k + 1 >= 2)), 0);
      Scans(k + 1, rest);
    } else {
      assert Next(s, ScanOne(0, false)) == Pair(Init(Running, false, Scanned(true)), 0);
      assert steps == rest;
    }
  }

  lemma ForksOk(rest: seq<Step>)
    ensures Run(Boot(), Forks + rest) == Run(Pair(Init(Running, false, Scan(0, false)), 0), rest)
  {
    hide Run;
    var a := Boot();
    var b := Next(a, Schedule(0));
    var c := Next(b, ForkNew(0, 1, true));
    var d := Next(c, ForkParent(0));
    var e := Next(d, ForkRun(0));
    var f := Next(e, WaitLock(0));
    RunStep(e, Forks[4], rest);
    RunStep(d, Forks[3], Forks[4..] + rest);
    RunStep(c, Forks[2], Forks[3..] + rest);
    RunStep(b, Forks[1], Forks[2..] + rest);
    RunStep(a, Forks[0], Forks[1..] + rest);
    assert Forks[4..] + rest == [Forks[4]] + rest;
    assert Forks[3..] + rest == [Forks[3]] + (Forks[4..] + rest);
    assert Forks[2..] + rest == [Forks[2]] + (Forks[3..] + rest);
    assert Forks[1..] + rest == [Forks[1]] + (Forks[2..] + rest);
    assert Forks + rest == [Forks[0]] + (Forks[1..] + rest);
    assert f == Pair(Init(Running, false, Scan(0, false)), 0);
  }

  lemma SleepsOk()
    ensures Run(Pair(Init(Running, false, Scanned(true)), 0), Sleeps) == Pair(Init(Sleeping, true, Slept), NONE)
  {
    var a := Pair(Init(Running, false, Scanned(true)), 0);
    var b := Next(a, ScanEnd(0));
    var c := Next(b, Kill(0));
    var d := Next(c, SleepOwn(0));
    var e := Next(d, SleepUnlock(0));
    var f := Next(e, SleepSwitch(0));
    assert f == Pair(Init(Sleeping, true, Slept), NONE);
    assert Run(f, []) == f;
    hide Run;
    RunStep(e, Sleeps[4], []);
    RunStep(d, Sleeps[3], Sleeps[4..]);
    RunStep(c, Sleeps[2], Sleeps[3..]);
    RunStep(b, Sleeps[1], Sleeps[2..]);
    RunStep(a, Sleeps[0], Sleeps[1..]);
    assert Sleeps[4..] == [Sleeps[4]] + [];
    assert Sleeps[3..] == [Sleeps[3]] + Sleeps[4..];
    assert Sleeps[2..] == [Sleeps[2]] + Sleeps[3..];
    assert Sleeps[1..] == [Sleeps[1]] + Sleeps[2..];
    assert Sleeps == [Sleeps[0]] + Sleeps[1..];
  }

  lemma KillMissedOnce()
    ensures KilledAsleep(Run(Boot(), Forks + (seq(NPROC + 1, _ => ScanOne(0, false)) + Sleeps)).procs[INIT])
  {
    hide Run;
    ForksOk(seq(NPROC + 1, _ => ScanOne(0, false)) + Sleeps);
    Scans(0, Sleeps);
    SleepsOk();
  }
}
