/**
 * `filteredGroups` (main.go:30-66): resolve each group token to a gid,
 * refuse the primary group, then remove the resolved gids from the
 * supplementary groups the process holds, keeping the survivors in order.
 *
 * The operating system is abstracted as values: the primary gid, the answer
 * `Getgroups` gives, and the group database seen by `user.LookupGroup` as a
 * map from group name to the gid text it reports.
 */
module Groups {
  import opened Wrappers
  import opened Errors
  import opened Strconv

  /** Group name to the gid text the database reports for it. */
  type GroupDb = map<string, string>

  /**
   * The gid a token stands for (main.go:40-46): text that `Atoi` accepts is
   * the gid itself and the database is not consulted; anything else is
   * looked up as a group name, whose reported gid text must parse.
   */
  function Resolve(token: string, db: GroupDb): (r: Result<int, Error>)
    ensures r.Ok? <==> ParseInt(token).Some? || (token in db && ParseInt(db[token]).Some?)
    ensures ParseInt(token).Some? ==> r == Ok(ParseInt(token).value)
    ensures r.Ok? && ParseInt(token).None? ==> ParseInt(db[token]) == Some(r.value)
    ensures r.Err? ==> r.error == if token in db then InvalidGid(db[token]) else UnknownGroup(token)
  {
    match ParseInt(token)
    case Some(gid) => Ok(gid)
    case None =>
      if token !in db then Err(UnknownGroup(token))
      else match ParseInt(db[token])
        case None => Err(InvalidGid(db[token]))
        case Some(gid) => Ok(gid)
  }

  /** One token of the drop list: its gid, unless it fails to resolve or is the primary group (main.go:40-49). */
  function DropGid(token: string, primary: int, db: GroupDb): (r: Result<int, Error>)
    ensures r.Ok? <==> Resolve(token, db).Ok? && Resolve(token, db).value != primary
    ensures r.Ok? ==> r.value != primary && Resolve(token, db) == Ok(r.value)
    ensures r.Err? && Resolve(token, db).Ok? ==> r.error == NotSupplementary(token)
    ensures Resolve(token, db).Err? ==> r == Resolve(token, db)
  {
    match Resolve(token, db)
    case Err(e) => Err(e)
    case Ok(gid) => if gid == primary then Err(NotSupplementary(token)) else Ok(gid)
  }

  /**
   * The resolution loop of main.go:36-51 over the whole token list: the gids
   * in token order, or the error of the first token that fails.
   */
  function DropGids(tokens: seq<string>, primary: int, db: GroupDb): (r: Result<seq<int>, Error>)
    ensures r.Ok? ==> |r.value| == |tokens| && primary !in r.value
    decreases |tokens|
  {
    if tokens == [] then Ok([])
    else
      match DropGids(tokens[..|tokens| - 1], primary, db)
      case Err(e) => Err(e)
      case Ok(drop) =>
        match DropGid(tokens[|tokens| - 1], primary, db)
        case Err(e) => Err(e)
        case Ok(gid) => Ok(drop + [gid])
  }

  /** The filter loop of main.go:59-64: the elements of `held` not in `drop`, in their order. */
  function Without(held: seq<int>, drop: seq<int>): (r: seq<int>)
    ensures |r| <= |held|
    ensures forall x :: x in r <==> x in held && x !in drop
    decreases |held|
  {
    if held == [] then []
    else
      var rest := Without(held[..|held| - 1], drop);
      var last := held[|held| - 1];
      assert held == held[..|held| - 1] + [last];
      if last in drop then rest else rest + [last]
  }

  /**
   * What `filteredGroups` returns, given the primary gid and what
   * `Getgroups` answers (`held`). Every token is resolved and checked
   * before `Getgroups` is consulted (main.go:36-56).
   */
  function Filtered(tokens: seq<string>, primary: int, db: GroupDb, held: Result<seq<int>, Error>): (r: Result<seq<int>, Error>)
    ensures DropGids(tokens, primary, db).Err? ==> r == Err(DropGids(tokens, primary, db).error)
    ensures DropGids(tokens, primary, db).Ok? && held.Err? ==> r == Err(held.error)
    ensures r.Ok? ==> held.Ok? && |r.value| <= |held.value|
    ensures r.Ok? ==> forall x :: x in r.value ==> x in held.value
    ensures r.Ok? ==> (primary in held.value ==> primary in r.value)
  {
    match DropGids(tokens, primary, db)
    case Err(e) => Err(e)
    case Ok(drop) =>
      match held
      case Err(e) => Err(e)
      case Ok(gids) => Ok(Without(gids, drop))
  }

  /** An error of a prefix of the token list is the error of the whole list. */
  lemma {:induction false} DropGidsErrorPersists(tokens: seq<string>, n: nat, primary: int, db: GroupDb)
    requires n <= |tokens|
    requires DropGids(tokens[..n], primary, db).Err?
    ensures DropGids(tokens, primary, db) == DropGids(tokens[..n], primary, db)
    decreases |tokens| - n
  {
    if n == |tokens| {
      assert tokens[..n] == tokens;
    } else {
      var init := tokens[..|tokens| - 1];
      assert init[..n] == tokens[..n];
      DropGidsErrorPersists(init, n, primary, db);
    }
  }

  /** The list resolves exactly when every token does. */
  lemma {:induction false} DropGidsOk(tokens: seq<string>, primary: int, db: GroupDb)
    ensures DropGids(tokens, primary, db).Ok? <==> forall i :: 0 <= i < |tokens| ==> DropGid(tokens[i], primary, db).Ok?
    decreases |tokens|
  {
    if tokens != [] {
      var init := tokens[..|tokens| - 1];
      DropGidsOk(init, primary, db);
      assert forall i :: 0 <= i < |init| ==> init[i] == tokens[i];
    }
  }

  /** A list that resolves gives the gids of its tokens, in token order. */
  lemma {:induction false} DropGidsValues(tokens: seq<string>, primary: int, db: GroupDb)
    ensures DropGids(tokens, primary, db).Ok? ==>
              forall i :: 0 <= i < |tokens| ==> DropGid(tokens[i], primary, db) == Ok(DropGids(tokens, primary, db).value[i])
    decreases |tokens|
  {
    if tokens != [] && DropGids(tokens, primary, db).Ok? {
      var init := tokens[..|tokens| - 1];
      var last := |tokens| - 1;
      DropGidsValues(init, primary, db);
      var drop := DropGids(init, primary, db).value;
      var gid := DropGid(tokens[last], primary, db).value;
      assert DropGids(tokens, primary, db).value == drop + [gid];
      forall i | 0 <= i < |tokens|
        ensures DropGid(tokens[i], primary, db) == Ok(DropGids(tokens, primary, db).value[i])
      {
        if i < last {
          assert init[i] == tokens[i];
        }
      }
    }
  }

  /**
   * The error precedence of the resolution loop: when the list fails, its
   * error is that of the first token that fails, every token before it
   * resolving.
   */
  lemma {:induction false} DropGidsFirstError(tokens: seq<string>, primary: int, db: GroupDb)
    ensures DropGids(tokens, primary, db).Err? ==>
              exists k :: 0 <= k < |tokens| && DropGid(tokens[k], primary, db) == Err(DropGids(tokens, primary, db).error)
                && forall i :: 0 <= i < k ==> DropGid(tokens[i], primary, db).Ok?
    decreases |tokens|
  {
    if tokens != [] {
      var init := tokens[..|tokens| - 1];
      var last := |tokens| - 1;
      assert forall i :: 0 <= i < last ==> init[i] == tokens[i];
      match DropGids(init, primary, db)
      case Err(e) =>
        DropGidsFirstError(init, primary, db);
        var j :| 0 <= j < |init| && DropGid(init[j], primary, db) == Err(e)
                 && forall i :: 0 <= i < j ==> DropGid(init[i], primary, db).Ok?;
        assert DropGid(tokens[j], primary, db) == Err(e);
      case Ok(_) =>
        DropGidsOk(init, primary, db);
    }
  }

  /** One more token of a list whose prefix resolved, when that token resolves too. */
  lemma DropGidsStep(tokens: seq<string>, n: nat, drop: seq<int>, gid: int, primary: int, db: GroupDb)
    requires n < |tokens|
    requires DropGids(tokens[..n], primary, db) == Ok(drop)
    requires DropGid(tokens[n], primary, db) == Ok(gid)
    ensures DropGids(tokens[..n + 1], primary, db) == Ok(drop + [gid])
  {
    assert tokens[..n + 1][..n] == tokens[..n];
  }

  /** The first token to fail after a resolved prefix decides the error of the whole list. */
  lemma DropGidsStop(tokens: seq<string>, n: nat, drop: seq<int>, primary: int, db: GroupDb)
    requires n < |tokens|
    requires DropGids(tokens[..n], primary, db) == Ok(drop)
    requires DropGid(tokens[n], primary, db).Err?
    ensures DropGids(tokens, primary, db) == Err(DropGid(tokens[n], primary, db).error)
  {
    assert tokens[..n + 1][..n] == tokens[..n];
    DropGidsErrorPersists(tokens, n + 1, primary, db);
  }

  /** The filter loop, one element further. */
  lemma WithoutStep(held: seq<int>, n: nat, drop: seq<int>)
    requires n < |held|
    ensures Without(held[..n + 1], drop) ==
              if held[n] in drop then Without(held[..n], drop) else Without(held[..n], drop) + [held[n]]
  {
    assert held[..n + 1][..n] == held[..n];
  }

  /** The body of the resolution loop (main.go:40-49): one token's gid, or why it cannot be dropped. */
  method ResolveDropToken(group: string, primary: int, db: GroupDb) returns (r: Result<int, Error>)
    ensures r == DropGid(group, primary, db)
  {
    var gid := ParseInt(group);
    if gid.None? {
      // not numeric text: the database decides
      if group !in db {
        return Err(UnknownGroup(group));
      }
      gid := ParseInt(db[group]);
      if gid.None? {
        return Err(InvalidGid(db[group]));
      }
    }
    if gid.value == primary {
      return Err(NotSupplementary(group));
    }
    return Ok(gid.value);
  }

  /** The resolution loop of `filteredGroups` (main.go:35-51): stops at the first token that fails. */
  method ResolveDropGroups(dropGroups: seq<string>, primary: int, db: GroupDb) returns (r: Result<seq<int>, Error>)
    ensures r == DropGids(dropGroups, primary, db)
  {
    var dropGids: seq<int> := [];
    var i := 0;
    while i < |dropGroups|
      invariant 0 <= i <= |dropGroups|
      invariant DropGids(dropGroups[..i], primary, db) == Ok(dropGids)
    {
      var gid := ResolveDropToken(dropGroups[i], primary, db);
      if gid.Err? {
        DropGidsStop(dropGroups, i, dropGids, primary, db);
        return Err(gid.error);
      }
      DropGidsStep(dropGroups, i, dropGids, gid.value, primary, db);
      dropGids := dropGids + [gid.value];
      i := i + 1;
    }
    assert dropGroups[..i] == dropGroups;
    r := Ok(dropGids);
  }

  /** The filter loop of `filteredGroups` (main.go:59-64). */
  method Trim(gids: seq<int>, dropGids: seq<int>) returns (trimmed: seq<int>)
    ensures trimmed == Without(gids, dropGids)
  {
    trimmed := [];
    for j := 0 to |gids|
      invariant trimmed == Without(gids[..j], dropGids)
    {
      WithoutStep(gids, j, dropGids);
      if gids[j] !in dropGids {
        trimmed := trimmed + [gids[j]];
      }
    }
    assert gids[..|gids|] == gids;
  }

  /**
   * `filteredGroups` (main.go:30-66): resolve every token, then read the
   * held groups, then filter them.
   */
  method FilteredGroups(dropGroups: seq<string>, primary: int, db: GroupDb, held: Result<seq<int>, Error>)
    returns (r: Result<seq<int>, Error>)
    ensures r == Filtered(dropGroups, primary, db, held)
  {
    var dropGids := ResolveDropGroups(dropGroups, primary, db);
    if dropGids.Err? {
      return Err(dropGids.error);
    }
    // a Getgroups error is reported only once every token has resolved
    if held.Err? {
      return Err(held.error);
    }
    var trimmed := Trim(held.value, dropGids.value);
    return Ok(trimmed);
  }
}
