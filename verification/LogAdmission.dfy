/** begin_op and end_op (kernel/log.c) under every interleaving. Each step below runs with
    log.lock held, so it is atomic; a step names the process that takes it. */
module LogAdmission {
  import opened Params

  type Pid = nat

  /** log.lh.n, and where every process is: inside an operation, asleep in begin_op on &log,
      or running commit. log.outstanding is the number of processes inside an operation. */
  datatype Log = Log(n: nat, outstanding: int, committing: bool,
                     inside: set<Pid>, asleep: set<Pid>, committer: set<Pid>)

  datatype Step =
    | Begin(p: Pid)       // one pass of the begin_op loop: enter or go to sleep
    | Stir(p: Pid)        // a sleeper runs again without a wakeup (kill); it will retry Begin
    | LogWrite(p: Pid)    // a log_write that adds a block
    | End(p: Pid)         // the first critical section of end_op
    | Committed(p: Pid)   // commit() has returned; the second critical section

  const Initial := Log(0, 0, false, {}, {}, {})

  predicate Admits(s: Log) {
    !s.committing && s.n + (s.outstanding + 1) * MAXOPBLOCKS <= LOGSIZE
  }

  /** Processes call begin_op, then log_write any number of times, then end_op, without nesting. */
  predicate Enabled(s: Log, e: Step) {
    match e
    case Begin(p) => p !in s.inside && p !in s.committer && p !in s.asleep
    case Stir(p) => p in s.asleep
    case LogWrite(p) => p in s.inside && s.n < LOGSIZE
    case End(p) => p in s.inside
    case Committed(p) => p in s.committer
  }

  function Next(s: Log, e: Step): (r: Log) {
    match e
    case Begin(p) =>
      if Admits(s) then s.(outstanding := s.outstanding + 1, inside := s.inside + {p})
      else s.(asleep := s.asleep + {p})
    case Stir(p) => s.(asleep := s.asleep - {p})
    case LogWrite(p) => s.(n := s.n + 1)
    case End(p) =>
      var t := s.(outstanding := s.outstanding - 1, inside := s.inside - {p});
      if t.outstanding == 0 then t.(committing := true, committer := t.committer + {p})
      else t.(asleep := {})                                  // wakeup(&log)
    case Committed(p) =>
      s.(n := 0, committing := false, committer := s.committer - {p}, asleep := {})
  }

  ghost predicate Inv(s: Log) {
    && s.outstanding == |s.inside|
    && (s.committing <==> s.committer != {}) && |s.committer| <= 1
    && (s.committing ==> s.inside == {})
    && (s.inside == {} && !s.committing ==> s.n == 0)
    && |s.inside| <= 1
    && (s.asleep != {} ==> s.committing || s.inside != {})
  }

  lemma SetSizes(s: set<Pid>, p: Pid)
    ensures p in s ==> |s - {p}| == |s| - 1
    ensures p !in s ==> |s + {p}| == |s| + 1
    ensures |s| <= 0 ==> s == {}
  {
  }

  lemma StepKeepsInv(s: Log, e: Step)
    requires Inv(s) && Enabled(s, e)
    ensures Inv(Next(s, e))
    ensures e.End? ==> !s.committing          // end_op never panics "log.committing"
  {
    match e
    case Begin(p) =>
      SetSizes(s.inside, p);
      SetSizes(s.asleep, p);
    case Stir(p) =>
    case LogWrite(p) =>
    case End(p) =>
      SetSizes(s.inside, p);
      SetSizes(s.committer, p);
    case Committed(p) =>
      SetSizes(s.committer, p);
  }

  function Run(s: Log, es: seq<Step>): (r: Log)
    decreases |es|
  {
    if es == [] then s else Run(Next(s, es[0]), es[1..])
  }

  predicate RunEnabled(s: Log, es: seq<Step>)
    decreases |es|
  {
    es == [] || (Enabled(s, es[0]) && RunEnabled(Next(s, es[0]), es[1..]))
  }

  lemma {:induction false} RunKeepsInv(s: Log, es: seq<Step>)
    requires Inv(s) && RunEnabled(s, es)
    ensures Inv(Run(s, es))
    decreases |es|
  {
    if es != [] {
      StepKeepsInv(s, es[0]);
      RunKeepsInv(Next(s, es[0]), es[1..]);
    }
  }

  /** Because LOGSIZE equals MAXOPBLOCKS, in every interleaving at most one process is inside an
      operation, commit runs only when none is, a process enters only an empty log, and no
      process is left asleep once the log is free. */
  lemma OneOperationAtATime(es: seq<Step>)
    requires RunEnabled(Initial, es)
    ensures var s := Run(Initial, es);
            && |s.inside| <= 1 && |s.committer| <= 1
            && (s.committing ==> s.inside == {})
            && (Admits(s) <==> s.inside == {} && !s.committing && s.n == 0)
            && (s.inside == {} && !s.committing ==> s.asleep == {} && Admits(s))
  {
    RunKeepsInv(Initial, es);
  }

  /** begin_op enters exactly when no operation and no commit is under way, and else goes to sleep; the end of an
      operation starts its commit; and the end of a commit leaves an empty log and nobody asleep. */
  lemma EntersExactly(es: seq<Step>, p: Pid)
    requires RunEnabled(Initial, es)
    ensures var s := Run(Initial, es);
            && (Enabled(s, Begin(p)) ==>
                  var r := Next(s, Begin(p));
                  (p in r.inside <==> s.inside == {} && !s.committing) && (p in r.asleep <==> p !in r.inside))
            && (Enabled(s, End(p)) ==>
                  var r := Next(s, End(p)); r.committing && r.committer == {p} && r.inside == {} && r.n == s.n)
            && (Enabled(s, Committed(p)) ==>
                  var r := Next(s, Committed(p)); Admits(r) && r.committer == {} && r.asleep == {})
  {
    RunKeepsInv(Initial, es);
    var s := Run(Initial, es);
    SetSizes(s.inside, p);
    SetSizes(s.inside - {p}, p);
    SetSizes(s.committer, p);
    SetSizes(s.committer - {p}, p);
  }
}
