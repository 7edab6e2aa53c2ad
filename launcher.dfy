/**
 * `dropgrp` (main.go:68-91): filter the groups, install them, then replace
 * the process image with the command. Each step runs only when the one
 * before it succeeded.
 */
module Launcher {
  import opened Wrappers
  import opened Errors
  import opened Groups
  import opened Privilege

  /**
   * `exec.LookPath`: the executable the search path gives for `file`. The
   * search itself is not modelled; `path` is its outcome.
   */
  function LookPath(path: map<string, string>, file: string): (r: Result<string, Error>)
    ensures r.Ok? <==> file in path
    ensures r.Ok? ==> r.value == path[file]
    ensures r.Err? ==> r.error == NotFound(file)
  {
    if file in path then Ok(path[file]) else Err(NotFound(file))
  }

  /** Whether the trace ends with the command's `Exec`. */
  predicate Executed(trace: seq<Call>) {
    |trace| > 0 && trace[|trace| - 1].ExecCall?
  }

  /**
   * The credentials and the error `dropgrp(groups, command)` leaves, from
   * credentials `s` of a process whose primary gid is `primary`; no error
   * means the command's image replaced the process.
   */
  function Launch(s: Creds, primary: int, groups: seq<string>, command: seq<string>, db: GroupDb, k: Kernel)
    : (r: (Creds, Option<Error>))
    requires |command| > 0
    ensures var f := Filtered(groups, primary, db, Held(s.groups, k.getgroups));
      && |r.0.trace| >= |s.trace| && r.0.trace[..|s.trace|] == s.trace
      // a filtering error stops everything before any system call is made
      && (f.Err? ==> r.0 == s && r.1 == Some(f.error))
      // the command is executed at most once, as the last step, with the
      // filtered groups installed and the original effective user id back
      && (forall i :: |s.trace| <= i < |r.0.trace| && r.0.trace[i].ExecCall? ==>
            && i == |r.0.trace| - 1
            && f.Ok? && r.0.groups == f.value && r.0.euid == s.euid
            && command[0] in k.path && r.0.trace[i] == ExecCall(k.path[command[0]], command)
            && Bracket(s, f.value, k).1.None?)
      // after filtering, each step runs only when the one before it succeeded,
      // and the first error is returned as it is
      && (f.Ok? ==>
            var (b, e) := Bracket(s, f.value, k);
            && |r.0.trace| >= |b.trace| && r.0.trace[..|b.trace|] == b.trace
            && (e.Some? ==> r == (b, e))
            && (e.None? && command[0] !in k.path ==> r == (b, Some(NotFound(command[0]))))
            && (e.None? && command[0] in k.path ==>
                  |r.0.trace| == |b.trace| + 1 && Executed(r.0.trace) && r.1 == Raised(k.exec)))
      // success is exactly a successful Exec
      && (r.1.None? <==> Executed(r.0.trace) && k.exec.None? && |r.0.trace| > |s.trace|)
      // the group list is installed only as root
      && (InstallsAsRoot(s.trace) ==> InstallsAsRoot(r.0.trace))
  {
    match Filtered(groups, primary, db, Held(s.groups, k.getgroups))
    case Err(e) => (s, Some(e))
    case Ok(gids) =>
      var (after, err) := Bracket(s, gids, k);
      assert forall i :: |s.trace| <= i < |after.trace| ==> !after.trace[i].ExecCall?;
      if err.Some? then (after, err)
      else
        match LookPath(k.path, command[0])
        case Err(e) => (after, Some(e))
        case Ok(binary) =>
          var trace := after.trace + [ExecCall(binary, command)];
          assert trace[..|s.trace|] == s.trace;
          (after.(trace := trace), Raised(k.exec))
  }

  /** `dropgrp` (main.go:71-91). */
  method Dropgrp(p: Process, groups: seq<string>, command: seq<string>, db: GroupDb, k: Kernel)
    returns (err: Option<Error>)
    requires |command| > 0
    modifies p
    ensures (p.State(), err) == Launch(old(p.State()), p.gid, groups, command, db, k)
  {
    var held := p.Getgroups(k.getgroups);
    // stop at a filtering error, before any system call
    var gids := FilteredGroups(groups, p.gid, db, held);
    if gids.Err? {
      return Some(gids.error);
    }
    // stop at a bracket error, returned as it is
    err := SetGroups(p, gids.value, k);
    if err.Some? {
      return;
    }
    // stop when the command is not on the path; otherwise Exec
    var binary := LookPath(k.path, command[0]);
    if binary.Err? {
      return Some(binary.error);
    }
    err := p.Exec(binary.value, command, k.exec);
  }
}
