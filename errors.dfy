/**
 * The errors the launcher can report, and Go's `errors.Join`, which the
 * privilege bracket uses to combine a group-set failure with a failure to
 * restore the effective user id.
 */
module Errors {
  import opened Wrappers

  /** The number a failed system call reports (Go's `syscall.Errno`). */
  type Errno = nat

  datatype Error =
    /** `user.LookupGroup` found no group of that name. */
    | UnknownGroup(name: string)
    /** The group database reported a gid text that does not parse as an integer. */
    | InvalidGid(gid: string)
    /** The token resolves to the primary group of the process. */
    | NotSupplementary(group: string)
    /** A system call (`Getgroups`, `Seteuid`, `Setgroups`, `Exec`) failed. */
    | SyscallError(errno: Errno)
    /** `exec.LookPath` found no executable of that name. */
    | NotFound(file: string)
    /** The value `errors.Join` builds: the non-nil errors it was given, in order. */
    | Joined(errs: seq<Error>)

  /** The error a system call returns, given the errno it fails with, if any. */
  function Raised(fault: Option<Errno>): (r: Option<Error>)
    ensures r.None? <==> fault.None?
    ensures fault.Some? ==> r == Some(SyscallError(fault.value))
  {
    match fault
    case None => None
    case Some(n) => Some(SyscallError(n))
  }

  /** The non-nil errors of `errs`; `NonNilConcat` states that their order is kept. */
  function NonNil(errs: seq<Option<Error>>): (r: seq<Error>)
    ensures |r| <= |errs|
    ensures forall e :: e in r <==> Some(e) in errs
  {
    if errs == [] then []
    else (if errs[0].Some? then [errs[0].value] else []) + NonNil(errs[1..])
  }

  /** Collecting the non-nil errors of two lists one after the other keeps their order. */
  lemma {:induction false} NonNilConcat(first: seq<Option<Error>>, second: seq<Option<Error>>)
    ensures NonNil(first + second) == NonNil(first) + NonNil(second)
    decreases |first|
  {
    if first == [] {
      assert first + second == second;
    } else {
      assert (first + second)[0] == first[0];
      assert (first + second)[1..] == first[1..] + second;
      NonNilConcat(first[1..], second);
    }
  }

  /**
   * `errors.Join`: nil when every argument is nil; otherwise one error that
   * carries every non-nil argument, none discarded.
   */
  function Join(errs: seq<Option<Error>>): (r: Option<Error>)
    ensures r.None? <==> forall i :: 0 <= i < |errs| ==> errs[i].None?
    ensures r.Some? ==> r.value.Joined? && forall e :: e in r.value.errs <==> Some(e) in errs
  {
    var present := NonNil(errs);
    assert present == [] <==> forall i :: 0 <= i < |errs| ==> errs[i].None? by {
      forall i | 0 <= i < |errs| && errs[i].Some? ensures errs[i].value in present {
        assert Some(errs[i].value) == errs[i];
      }
      if present != [] {
        assert Some(present[0]) in errs;
      }
    }
    if present == [] then None else Some(Joined(present))
  }

  /** Joining two errors keeps them in the order given (the shape the privilege bracket uses). */
  lemma {:induction false} JoinPair(first: Option<Error>, second: Option<Error>)
    ensures Join([first, second]) ==
      if first.None? && second.None? then None
      else Some(Joined((if first.Some? then [first.value] else []) + (if second.Some? then [second.value] else [])))
  {
    assert [first, second][1..] == [second];
    assert [second][1..] == [];
    assert NonNil([second]) == (if second.Some? then [second.value] else []) + NonNil([]);
    assert NonNil([first, second]) == (if first.Some? then [first.value] else []) + NonNil([second]);
    var both := (if first.Some? then [first.value] else []) + (if second.Some? then [second.value] else []);
    assert NonNil([first, second]) == both;
    assert both == [] <==> first.None? && second.None?;
  }
}
