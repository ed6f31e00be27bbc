/** The reference counts of the file table (kernel/file.c): filealloc, filedup and fileclose. */
module FileTable {
  import opened Collections

  const NFILE := 8

  /** What an open file is of: nothing yet, one end of a pipe, or an inode at some offset. */
  datatype Kind = Unset | OnPipe(pipe: nat, writable: bool) | OnInode(inum: nat, off: nat)

  class Ftable {
    var ref: seq<nat>
    var kind: seq<Kind>

    ghost var holders: multiset<nat>     // the descriptors and calls that hold each file

    /** A count is the number of holders, and a file that nobody holds is of nothing. */
    ghost predicate Valid()
      reads this
    {
      && |ref| == NFILE && |kind| == NFILE
      && (forall i :: 0 <= i < NFILE ==> ref[i] == holders[i] && (ref[i] == 0 ==> kind[i] == Unset))
      && (forall i :: i in holders ==> i < NFILE)
    }

    constructor ()
      ensures Valid() && holders == multiset{}
    {
      ref, kind := seq(NFILE, _ => 0), seq(NFILE, _ => Unset);
      holders := multiset{};
    }

    /** A file that nobody held, of nothing; there is none just when all are held. */
    method Filealloc() returns (f: Option<nat>)
      requires Valid()
      modifies this`ref, this`holders
      ensures Valid()
      ensures f.Some? ==> f.value < NFILE && old(holders)[f.value] == 0 && kind[f.value] == Unset
                             && holders == old(holders) + multiset{f.value}
      ensures f.None? ==> holders == old(holders) && forall i :: 0 <= i < NFILE ==> i in holders
    {
      var i := 0;
      while i < NFILE
        invariant 0 <= i <= NFILE && Valid() && holders == old(holders) && forall k :: 0 <= k < i ==> k in holders
      {
        if ref[i] == 0 {
          ref := ref[i := 1];
          holders := holders + multiset{i};
          return Some(i);
        }
        i := i + 1;
      }
      f := None;
    }

    /** Taking another reference; a file nobody holds is the filedup panic. */
    method Filedup(f: nat)
      requires Valid() && f in holders
      modifies this`ref, this`holders
      ensures Valid() && holders == old(holders) + multiset{f}
    {
      ref := ref[f := ref[f] + 1];
      holders := holders + multiset{f};
    }

    /** Dropping one; the last one returns what the file was of, for the caller to close or put. */
    method Fileclose(f: nat) returns (last: Option<Kind>)
      requires Valid() && f in holders
      modifies this
      ensures Valid() && holders == old(holders) - multiset{f}
      ensures last == if old(holders)[f] == 1 then Some(old(kind)[f]) else None
      ensures forall i :: 0 <= i < NFILE && i in holders ==> kind[i] == old(kind)[i]
    {
      ref := ref[f := ref[f] - 1];
      holders := holders - multiset{f};
      if ref[f] > 0 { return None; }
      last := Some(kind[f]);
      kind := kind[f := Unset];
    }

    /** The failure path of sys_open: a file allocated and closed again is of nothing, so no inode
        is put and no transaction begun inside the one that is open. */
    method AllocAndClose() returns (f: Option<nat>, last: Option<Kind>)
      requires Valid()
      modifies this
      ensures Valid() && holders == old(holders)
      ensures f.Some? ==> last == Some(Unset)
    {
      f := Filealloc();
      last := None;
      if f.Some? { last := Fileclose(f.value); }
    }
  }
}
