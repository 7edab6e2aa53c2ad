/**
 * `setgroups` (main.go:93-111): install a group list, becoming root for the
 * duration of the `Setgroups` system call when the process is not root
 * already, and restoring the original effective user id on every path out.
 *
 * The credentials of the process are a class whose fields the system calls
 * update; each call is also appended to a trace, which is what the security
 * properties are stated over. What the kernel answers to each call (success
 * or an errno) is an input, `Kernel`.
 */
module Privilege {
  import opened Wrappers
  import opened Errors

  /** The superuser's user id. */
  const ROOT: int := 0

  /** A credential-changing system call, or the final `Exec`, as it was issued. */
  datatype Call =
    | SeteuidCall(uid: int)
    /** `euid` is the effective user id in force when the call was made. */
    | SetgroupsCall(gids: seq<int>, euid: int)
    | ExecCall(binary: string, argv: seq<string>)

  /** The values of the process's credentials and its trace. */
  datatype Creds = Creds(euid: int, groups: seq<int>, trace: seq<Call>)

  /**
   * How the kernel and the environment answer during one run: an errno for
   * each system call that fails, `None` for one that succeeds, and the
   * executables `exec.LookPath` finds.
   */
  datatype Kernel = Kernel(
    getgroups: Option<Errno>,
    elevate: Option<Errno>,
    install: Option<Errno>,
    restore: Option<Errno>,
    path: map<string, string>,
    exec: Option<Errno>)

  /** What `Getgroups` returns: the installed groups, or its failure. */
  function Held(groups: seq<int>, fault: Option<Errno>): (r: Result<seq<int>, Error>)
    ensures r.Ok? <==> fault.None?
    ensures r.Ok? ==> r.value == groups
    ensures r.Err? ==> r.error == SyscallError(fault.value)
  {
    if fault.Some? then Err(SyscallError(fault.value)) else Ok(groups)
  }

  /** Every group-set call of the trace was made as root. */
  ghost predicate InstallsAsRoot(trace: seq<Call>) {
    forall i :: 0 <= i < |trace| && trace[i].SetgroupsCall? ==> trace[i].euid == ROOT
  }

  /** Whether `setgroups` reaches the `Setgroups` call: as root, or once elevation succeeded. */
  predicate Reaches(euid: int, k: Kernel) {
    euid == ROOT || k.elevate.None?
  }

  /**
   * The credentials and the error `setgroups(gids)` leaves, from credentials
   * `s` (main.go:96-111).
   */
  function Bracket(s: Creds, gids: seq<int>, k: Kernel): (r: (Creds, Option<Error>))
    // the trace only grows, and only by credential calls
    ensures |r.0.trace| >= |s.trace| && r.0.trace[..|s.trace|] == s.trace
    ensures forall i :: |s.trace| <= i < |r.0.trace| ==> !r.0.trace[i].ExecCall?
    // already root: only Setgroups, and its error as it is
    ensures s.euid == ROOT ==>
              r.0.trace[|s.trace|..] == [SetgroupsCall(gids, ROOT)] && r.0.euid == ROOT && r.1 == Raised(k.install)
    // elevation fails: that error, no Setgroups, nothing to restore
    ensures s.euid != ROOT && k.elevate.Some? ==>
              r.0 == s.(trace := s.trace + [SeteuidCall(ROOT)]) && r.1 == Raised(k.elevate)
    // elevation succeeds: Setgroups, then exactly one restore of the original euid
    ensures s.euid != ROOT && k.elevate.None? ==>
              && r.0.trace[|s.trace|..] == [SeteuidCall(ROOT), SetgroupsCall(gids, ROOT), SeteuidCall(s.euid)]
              && r.1 == Join([Raised(k.install), Raised(k.restore)])
              // a failed restore leaves the process running as root
              && r.0.euid == (if k.restore.None? then s.euid else ROOT)
    // elevation is only asked for when not root
    ensures SeteuidCall(ROOT) in r.0.trace[|s.trace|..] ==> s.euid != ROOT
    // the group list is installed only as root
    ensures InstallsAsRoot(s.trace) ==> InstallsAsRoot(r.0.trace)
    ensures r.0.groups == if Reaches(s.euid, k) && k.install.None? then gids else s.groups
    // no error means the groups are installed and the original euid is back
    ensures r.1.None? ==> r.0.groups == gids && r.0.euid == s.euid
    // a process left with another euid always reports it, with the restore error among the causes
    ensures r.0.euid != s.euid ==> r.1.Some? && k.restore.Some? && SyscallError(k.restore.value) in r.1.value.errs
    // a failed Setgroups is never hidden by the restore
    ensures Reaches(s.euid, k) && k.install.Some? ==>
              r.1.Some? && (s.euid == ROOT || SyscallError(k.install.value) in r.1.value.errs)
  {
    if s.euid == ROOT then
      var groups := if k.install.None? then gids else s.groups;
      (Creds(s.euid, groups, s.trace + [SetgroupsCall(gids, ROOT)]), Raised(k.install))
    else if k.elevate.Some? then
      (s.(trace := s.trace + [SeteuidCall(ROOT)]), Raised(k.elevate))
    else
      var groups := if k.install.None? then gids else s.groups;
      var euid := if k.restore.None? then s.euid else ROOT;
      var calls := [SeteuidCall(ROOT), SetgroupsCall(gids, ROOT), SeteuidCall(s.euid)];
      assert (s.trace + calls)[|s.trace|..] == calls;
      assert Raised(k.install) in [Raised(k.install), Raised(k.restore)];
      assert Raised(k.restore) in [Raised(k.install), Raised(k.restore)];
      (Creds(euid, groups, s.trace + calls), Join([Raised(k.install), Raised(k.restore)]))
  }

  /** The credentials of the running process, as the system calls change them. */
  class Process {
    var euid: int
    /** The primary group id, which nothing here changes. */
    const gid: int
    var groups: seq<int>
    var trace: seq<Call>

    constructor (euid: int, gid: int, groups: seq<int>)
      ensures State() == Creds(euid, groups, []) && this.gid == gid
    {
      this.euid := euid;
      this.gid := gid;
      this.groups := groups;
      this.trace := [];
    }

    function State(): Creds
      reads this
    {
      Creds(euid, groups, trace)
    }

    /** `syscall.Seteuid(uid)`: on success the effective user id becomes `uid`. */
    method Seteuid(uid: int, fault: Option<Errno>) returns (err: Option<Error>)
      modifies this
      ensures State() == Creds(if fault.None? then uid else old(euid), old(groups), old(trace) + [SeteuidCall(uid)])
      ensures err == Raised(fault)
    {
      trace := trace + [SeteuidCall(uid)];
      if fault.None? {
        euid := uid;
      }
      err := Raised(fault);
    }

    /** `syscall.Setgroups(gids)`: on success `gids` is the installed group list. */
    method Setgroups(gids: seq<int>, fault: Option<Errno>) returns (err: Option<Error>)
      modifies this
      ensures State() == Creds(old(euid), if fault.None? then gids else old(groups), old(trace) + [SetgroupsCall(gids, old(euid))])
      ensures err == Raised(fault)
    {
      trace := trace + [SetgroupsCall(gids, euid)];
      if fault.None? {
        groups := gids;
      }
      err := Raised(fault);
    }

    /** `syscall.Getgroups()`: reads the installed group list and changes nothing. */
    method Getgroups(fault: Option<Errno>) returns (r: Result<seq<int>, Error>)
      ensures r == Held(groups, fault)
    {
      if fault.Some? {
        r := Err(SyscallError(fault.value));
      } else {
        r := Ok(groups);
      }
    }

    /**
     * `syscall.Exec(binary, argv, env)`: on success the process image is
     * replaced and the call does not return; here it returns `None` with the
     * call as the last entry of the trace.
     */
    method Exec(binary: string, argv: seq<string>, fault: Option<Errno>) returns (err: Option<Error>)
      modifies this
      ensures State() == old(State()).(trace := old(trace) + [ExecCall(binary, argv)])
      ensures err == Raised(fault)
    {
      trace := trace + [ExecCall(binary, argv)];
      err := Raised(fault);
    }
  }

  /** `setgroups` (main.go:96-111). */
  method SetGroups(p: Process, gids: seq<int>, k: Kernel) returns (err: Option<Error>)
    modifies p
    ensures (p.State(), err) == Bracket(old(p.State()), gids, k)
  {
    ghost var s := p.State();
    var uid := p.euid;
    if uid != ROOT {
      // elevation; its failure ends the bracket with nothing to restore
      err := p.Seteuid(ROOT, k.elevate);
      if err.Some? {
        return;
      }
      err := p.Setgroups(gids, k.install);
      // the restore runs whatever Setgroups gave, and both errors are joined
      var syserr := p.Seteuid(uid, k.restore);
      err := Join([err, syserr]);
      assert p.trace == s.trace + [SeteuidCall(ROOT), SetgroupsCall(gids, ROOT), SeteuidCall(s.euid)];
    } else {
      err := p.Setgroups(gids, k.install);
    }
  }
}
