/** How the file system calls (kernel/sysfile.c, kernel/file.c, kernel/exec.c and exit) bracket
    their transactions: control flow with begin_op, end_op and everything that may call log_write;
    a condition the brackets do not depend on goes either way. */
module Syscalls {
  datatype Act = Begins | Ends | Logs

  datatype Prog =
    | Skip
    | Begin
    | End
    | Log                                // any stretch of calls that may reach log_write
    | Return
    | Then(first: Prog, next: Prog)
    | If(yes: Prog, no: Prog)
    | While(body: Prog)                  // any number of rounds
    | Call(callee: Prog)                 // a return in the callee comes back here

  // ---- what a program may do ----

  /** `p` may do `t`, in that order, and then return, or go on. */
  ghost predicate Does(p: Prog, t: seq<Act>, leaves: bool)
    decreases p, 1, 0
  {
    match p
    case Skip => t == [] && !leaves
    case Begin => t == [Begins] && !leaves
    case End => t == [Ends] && !leaves
    case Log => t == [Logs] && !leaves
    case Return => t == [] && leaves
    case Then(a, b) =>
      || (leaves && Does(a, t, true))
      || exists k :: 0 <= k <= |t| && Does(a, t[..k], false) && Does(b, t[k..], leaves)
    case If(a, b) => Does(a, t, leaves) || Does(b, t, leaves)
    case While(a) => exists n :: Rounds(a, n, t, leaves)
    case Call(a) => !leaves && (Does(a, t, true) || Does(a, t, false))
  }

  ghost predicate Rounds(a: Prog, n: nat, t: seq<Act>, leaves: bool)
    decreases a, 2, n
  {
    if n == 0 then t == [] && !leaves
    else
      || (leaves && Does(a, t, true))
      || exists k :: 0 <= k <= |t| && Does(a, t[..k], false) && Rounds(a, n - 1, t[k..], leaves)
  }

  /** Outside or inside a transaction, or after an action that was out of place. */
  datatype Place = Outside | Inside | Broken

  function Moves(p: Place, a: Act): (r: Place) {
    match a
    case Begins => if p == Outside then Inside else Broken
    case Ends => if p == Inside then Outside else Broken
    case Logs => if p == Inside then Inside else Broken
  }

  function After(p: Place, t: seq<Act>): (r: Place) {
    if t == [] then p else Moves(After(p, t[..|t| - 1]), t[|t| - 1])
  }

  // ---- a check that bounds all runs ----

  /** Never on from here, or on at one place. */
  datatype Flow = Fails | Gone | Goes(place: Place)

  /** Follow the brackets from `at`; a return is fine at `home`. */
  function Check(p: Prog, at: Place, home: Place): (f: Flow)
    decreases p
  {
    match p
    case Skip => Goes(at)
    case Begin => if at == Outside then Goes(Inside) else Fails
    case End => if at == Inside then Goes(Outside) else Fails
    case Log => if at == Inside then Goes(Inside) else Fails
    case Return => if at == home then Gone else Fails
    case Then(a, b) =>
      var f := Check(a, at, home);
      if f.Goes? then Check(b, f.place, home) else f
    case If(a, b) =>
      var f, g := Check(a, at, home), Check(b, at, home);
      if f.Fails? || g.Fails? then Fails
      else if f.Gone? then g else if g.Gone? || g == f then f else Fails
    case While(a) =>
      var f := Check(a, at, home);
      if f.Gone? || f == Goes(at) then Goes(at) else Fails
    case Call(a) =>
      var f := Check(a, at, at);
      if f.Gone? || f == Goes(at) then Goes(at) else Fails
  }

  /** What holds of one run of a checked program. */
  ghost predicate Fits(f: Flow, at: Place, home: Place, t: seq<Act>, leaves: bool) {
    if leaves then After(at, t) == home else f.Goes? && After(at, t) == f.place
  }

  lemma {:induction false} AfterBoth(p: Place, t: seq<Act>, u: seq<Act>)
    ensures After(p, t + u) == After(After(p, t), u)
    decreases |u|
  {
    if u == [] {
      assert t + u == t;
    } else {
      assert (t + u)[..|t + u| - 1] == t + u[..|u| - 1];
      AfterBoth(p, t, u[..|u| - 1]);
    }
  }

  lemma {:induction false} CheckSound(p: Prog, at: Place, home: Place, t: seq<Act>, leaves: bool)
    requires !Check(p, at, home).Fails? && Does(p, t, leaves)
    ensures Fits(Check(p, at, home), at, home, t, leaves)
    decreases p, 1, 0
  {
    match p
    case Skip =>
    case Begin => assert t[..0] == [];
    case End => assert t[..0] == [];
    case Log => assert t[..0] == [];
    case Return =>
    case Then(a, b) =>
      if leaves && Does(a, t, true) {
        CheckSound(a, at, home, t, true);
      } else {
        var k :| 0 <= k <= |t| && Does(a, t[..k], false) && Does(b, t[k..], leaves);
        var f := Check(a, at, home);
        CheckSound(a, at, home, t[..k], false);
        CheckSound(b, f.place, home, t[k..], leaves);
        Joined(at, f.place, Check(b, f.place, home), home, t, k, leaves);
      }
    case If(a, b) =>
      if Does(a, t, leaves) { CheckSound(a, at, home, t, leaves); } else { CheckSound(b, at, home, t, leaves); }
    case While(a) =>
      var n :| Rounds(a, n, t, leaves);
      RoundsSound(a, n, at, home, t, leaves);
    case Call(a) =>
      if Does(a, t, true) { CheckSound(a, at, at, t, true); } else { CheckSound(a, at, at, t, false); }
  }

  /** One part of a run after another. */
  lemma Joined(at: Place, mid: Place, g: Flow, home: Place, t: seq<Act>, k: nat, leaves: bool)
    requires k <= |t| && Fits(Goes(mid), at, home, t[..k], false) && Fits(g, mid, home, t[k..], leaves)
    ensures Fits(g, at, home, t, leaves)
  {
    AfterBoth(at, t[..k], t[k..]);
    assert t[..k] + t[k..] == t;
  }

  lemma {:induction false} RoundsSound(a: Prog, n: nat, at: Place, home: Place, t: seq<Act>, leaves: bool)
    requires (Check(a, at, home).Gone? || Check(a, at, home) == Goes(at)) && Rounds(a, n, t, leaves)
    ensures Fits(Goes(at), at, home, t, leaves)
    decreases a, 2, n
  {
    if n > 0 {
      if leaves && Does(a, t, true) {
        CheckSound(a, at, home, t, true);
      } else {
        var k :| 0 <= k <= |t| && Does(a, t[..k], false) && Rounds(a, n - 1, t[k..], leaves);
        CheckSound(a, at, home, t[..k], false);
        RoundsSound(a, n - 1, at, home, t[k..], leaves);
        Joined(at, at, Goes(at), home, t, k, leaves);
      }
    }
  }

  /** A system call that checks runs outside again after every run, and each of its runs is a
      sequence of transactions, none inside another, with nothing logged outside them. */
  lemma WellBracketed(p: Prog, t: seq<Act>, leaves: bool)
    requires Check(p, Outside, Outside) == Gone || Check(p, Outside, Outside) == Goes(Outside)
    requires Does(p, t, leaves)
    ensures After(Outside, t) == Outside
  {
    CheckSound(p, Outside, Outside, t, leaves);
  }

  // ---- the calls ----

  function May(p: Prog): (r: Prog) {
    If(p, Skip)
  }

  /** Leave the call with an error from inside a transaction, putting no, one or two inodes back. */
  const Bail := Then(End, Return)
  const PutBail := Then(Log, Bail)
  const UndoBail := Then(Log, PutBail)

  /** sys_link up to the new count of the old inode, and from there on. */
  const LinkOld := Then(Begin, Then(Log, Then(May(Bail), Then(May(PutBail), Log))))
  const LinkNew := Then(Log, Then(May(PutBail), Then(May(UndoBail), Then(Log, Then(End, Return)))))
  const Link := Then(May(Return), Then(LinkOld, LinkNew))

  const UnlinkFind := Then(Begin, Then(Log, Then(May(Bail), Then(May(PutBail), Then(May(PutBail), May(UndoBail))))))
  const Unlink := Then(May(Return), Then(UnlinkFind, Then(Log, Then(May(Log), Then(Log, Then(End, Return))))))

  /** create, called inside a transaction: an existing file, or a new one. */
  const PutReturn := Then(Log, Return)
  const CreateOld := Then(Log, Then(May(Return), May(Then(Log, If(Return, PutReturn)))))
  const CreateNew :=
    Then(Log, Then(May(PutReturn), Then(Log, Then(May(Then(Log, May(PutReturn))), Then(Log, May(PutReturn))))))
  const Create := Then(CreateOld, Then(CreateNew, Then(May(Log), Then(Log, Return))))

  /** sys_open. A file just allocated has no inode yet, so closing it again on failure logs nothing. */
  const OpenInode := If(Then(Call(Create), May(Bail)), Then(Log, Then(May(Bail), May(PutBail))))
  const OpenFile := Then(May(PutBail), Then(May(PutBail), Then(May(Log), Then(End, Return))))
  const Open := Then(May(Return), Then(Begin, Then(OpenInode, OpenFile)))

  /** sys_mkdir and sys_mknod */
  const Mkdir := Then(Begin, Then(If(Bail, Then(Call(Create), May(Bail))), Then(Log, Then(End, Return))))

  const Chdir :=
    Then(Begin, Then(May(Bail), Then(Log, Then(May(Bail), Then(May(PutBail), Then(Log, Then(End, Return)))))))

  /** fileclose: not the last reference, a pipe, an inode, or none. */
  const Close := Then(May(Return), If(Skip, May(Then(Begin, Then(Log, End)))))

  const FileWrite := Then(May(Return), If(Skip, While(Then(Begin, Then(Log, End)))))

  /** exec: failures while the inode is held, then end_op, then failures without it. */
  const ExecLoad := Then(Begin, Then(Log, Then(May(Bail), Then(While(May(PutBail)), Then(Log, End)))))
  const Exec := Then(ExecLoad, Then(May(Return), Return))

  /** exit closes its files, then puts its directory back. */
  const Exit := Then(While(Call(Close)), Then(Begin, Then(Log, End)))

  lemma FilesCheck()
    ensures Check(Close, Outside, Outside) == Goes(Outside) && Check(FileWrite, Outside, Outside) == Goes(Outside)
    ensures Check(Exit, Outside, Outside) == Goes(Outside) && Check(Exec, Outside, Outside) == Gone
  {
    assert Check(ExecLoad, Outside, Outside) == Goes(Outside);
  }

  lemma LinksCheck()
    ensures Check(Link, Outside, Outside) == Gone && Check(Unlink, Outside, Outside) == Gone
      && Check(Chdir, Outside, Outside) == Gone
  {
    assert Check(LinkOld, Outside, Outside) == Goes(Inside) && Check(LinkNew, Inside, Outside) == Gone;
    assert Check(UnlinkFind, Outside, Outside) == Goes(Inside);
  }

  lemma CreatesCheck()
    ensures Check(Create, Inside, Inside) == Gone && Check(Open, Outside, Outside) == Gone
      && Check(Mkdir, Outside, Outside) == Gone
  {
    assert Check(CreateOld, Inside, Inside) == Goes(Inside) && Check(CreateNew, Inside, Inside) == Goes(Inside);
    assert Check(OpenInode, Inside, Outside) == Goes(Inside) && Check(OpenFile, Inside, Outside) == Gone;
  }

  /** No system call nests transactions, logs outside one, or leaves one open, on any path. */
  lemma CallsBracket(p: Prog, t: seq<Act>, leaves: bool)
    requires p in [Link, Unlink, Open, Mkdir, Chdir, Close, FileWrite, Exec, Exit] && Does(p, t, leaves)
    ensures After(Outside, t) == Outside
  {
    hide Check, Does;
    FilesCheck();
    LinksCheck();
    CreatesCheck();
    WellBracketed(p, t, leaves);
  }
}
