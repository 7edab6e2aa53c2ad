/**
 * What `filteredGroups` promises its callers (main.go:28-29, 40-64) and what
 * main_test.go checks of it, proved about the model in module Groups.
 */
module FilterProperties {
  import opened Wrappers
  import opened Errors
  import opened Strconv
  import opened Groups

  /** Filtering keeps relative order: it distributes over concatenation. */
  lemma {:induction false} WithoutConcat(a: seq<int>, b: seq<int>, drop: seq<int>)
    ensures Without(a + b, drop) == Without(a, drop) + Without(b, drop)
    decreases |b|
  {
    if b == [] {
      assert a + b == a;
    } else {
      var init := b[..|b| - 1];
      var last := b[|b| - 1];
      assert (a + b)[..|a + b| - 1] == a + init;
      assert (a + b)[|a + b| - 1] == last;
      WithoutConcat(a, init, drop);
    }
  }

  /** Filtering drops every copy of a dropped gid and keeps every copy of the others. */
  lemma {:induction false} WithoutCount(held: seq<int>, drop: seq<int>, x: int)
    ensures multiset(Without(held, drop))[x] == if x in drop then 0 else multiset(held)[x]
    decreases |held|
  {
    if held != [] {
      var init := held[..|held| - 1];
      var last := held[|held| - 1];
      assert held == init + [last];
      WithoutCount(init, drop, x);
    }
  }

  /** Only the drop gids the process holds matter; the rest are ignored. */
  lemma {:induction false} WithoutOnlyHeldMatter(held: seq<int>, drop: seq<int>, drop': seq<int>)
    requires forall x :: x in held ==> (x in drop <==> x in drop')
    ensures Without(held, drop) == Without(held, drop')
    decreases |held|
  {
    if held != [] {
      var init := held[..|held| - 1];
      assert held[|held| - 1] in held;
      assert forall x :: x in init ==> x in held;
      WithoutOnlyHeldMatter(init, drop, drop');
    }
  }

  /** A gid of the result: one the process holds that no token resolves to. */
  predicate Dropped(x: int, tokens: seq<string>, primary: int, db: GroupDb) {
    exists i :: 0 <= i < |tokens| && DropGid(tokens[i], primary, db) == Ok(x)
  }

  /**
   * On success the result is the held list with every dropped gid removed:
   * each gid keeps its multiplicity unless some token drops it, and then all
   * its copies go (main.go:59-64).
   */
  lemma FilteredContents(tokens: seq<string>, primary: int, db: GroupDb, held: seq<int>)
    requires Filtered(tokens, primary, db, Ok(held)).Ok?
    ensures var r := Filtered(tokens, primary, db, Ok(held)).value;
      forall x :: multiset(r)[x] == if Dropped(x, tokens, primary, db) then 0 else multiset(held)[x]
  {
    DropGidsOk(tokens, primary, db);
    DropGidsValues(tokens, primary, db);
    var drop := DropGids(tokens, primary, db).value;
    forall x ensures multiset(Without(held, drop))[x] == if Dropped(x, tokens, primary, db) then 0 else multiset(held)[x] {
      WithoutCount(held, drop, x);
      if x in drop {
        var i :| 0 <= i < |drop| && drop[i] == x;
        assert DropGid(tokens[i], primary, db) == Ok(x);
      }
    }
  }

  /**
   * Survivors keep their relative order: filtering a concatenation of two
   * held lists gives the concatenation of their filterings.
   */
  lemma FilteredKeepsOrder(tokens: seq<string>, primary: int, db: GroupDb, a: seq<int>, b: seq<int>)
    requires DropGids(tokens, primary, db).Ok?
    ensures Filtered(tokens, primary, db, Ok(a + b)) ==
              Ok(Filtered(tokens, primary, db, Ok(a)).value + Filtered(tokens, primary, db, Ok(b)).value)
  {
    WithoutConcat(a, b, DropGids(tokens, primary, db).value);
  }

  /**
   * Tokens for groups the process does not hold raise no error and change
   * nothing; in particular an empty drop list returns the held list as it is
   * (main.go:28-29, 60-64).
   */
  lemma FilteredIgnoresUnheld(tokens: seq<string>, primary: int, db: GroupDb, held: seq<int>)
    requires DropGids(tokens, primary, db).Ok?
    requires forall x :: x in DropGids(tokens, primary, db).value ==> x !in held
    ensures Filtered(tokens, primary, db, Ok(held)) == Ok(held)
  {
    var drop := DropGids(tokens, primary, db).value;
    WithoutOnlyHeldMatter(held, drop, []);
    WithoutIdentity(held);
  }

  /** Filtering out nothing is the identity. */
  lemma {:induction false} WithoutIdentity(held: seq<int>)
    ensures Without(held, []) == held
    decreases |held|
  {
    if held != [] {
      WithoutIdentity(held[..|held| - 1]);
      assert held == held[..|held| - 1] + [held[|held| - 1]];
    }
  }

  lemma EmptyDropListUnchanged(primary: int, db: GroupDb, held: seq<int>)
    ensures Filtered([], primary, db, Ok(held)) == Ok(held)
  {
    WithoutIdentity(held);
  }

  /**
   * The first token that names the primary group, with every token before it
   * resolving, decides the error, and it names that token as written; nothing
   * `Getgroups` says changes this (main.go:47-49, 54).
   */
  lemma PrimaryTokenRejected(tokens: seq<string>, k: nat, primary: int, db: GroupDb, held: Result<seq<int>, Error>)
    requires k < |tokens|
    requires Resolve(tokens[k], db) == Ok(primary)
    requires forall i :: 0 <= i < k ==> DropGid(tokens[i], primary, db).Ok?
    ensures Filtered(tokens, primary, db, held) == Err(NotSupplementary(tokens[k]))
  {
    var prefix := tokens[..k];
    DropGidsOk(prefix, primary, db);
    DropGidsValues(prefix, primary, db);
    DropGidsStop(tokens, k, DropGids(prefix, primary, db).value, primary, db);
  }

  /**
   * main_test.go:108-114: the primary gid written as a number is refused,
   * even when `Getgroups` would fail.
   */
  lemma PrimaryGidRefused(primary: int, db: GroupDb, held: Result<seq<int>, Error>)
    requires InInt64(primary)
    ensures Filtered([FormatInt(primary)], primary, db, held) == Err(NotSupplementary(FormatInt(primary)))
  {
    PrimaryTokenRejected([FormatInt(primary)], 0, primary, db, held);
  }

  /** The gid text that stands for a token: the database's gid for a name, the token itself otherwise. */
  function GidText(token: string, db: GroupDb): string {
    if ParseInt(token).None? && token in db then db[token] else token
  }

  /**
   * Naming a group and giving its gid have the same effect (main_test.go:66-86):
   * with every token replaced by its gid text, filtering succeeds exactly when
   * it did, with the same result. Only an error for the primary group differs,
   * as it names the token as written.
   */
  lemma NameAndGidAgree(tokens: seq<string>, primary: int, db: GroupDb, held: Result<seq<int>, Error>)
    requires forall i :: 0 <= i < |tokens| && ParseInt(tokens[i]).None? && tokens[i] in db ==>
               ParseInt(db[tokens[i]]).Some?
    ensures var ids := seq(|tokens|, i requires 0 <= i < |tokens| => GidText(tokens[i], db));
      && (Filtered(tokens, primary, db, held).Ok? <==> Filtered(ids, primary, db, held).Ok?)
      && (Filtered(tokens, primary, db, held).Ok? ==> Filtered(tokens, primary, db, held) == Filtered(ids, primary, db, held))
  {
    var ids := seq(|tokens|, i requires 0 <= i < |tokens| => GidText(tokens[i], db));
    forall i | 0 <= i < |tokens|
      ensures DropGid(tokens[i], primary, db).Ok? <==> DropGid(ids[i], primary, db).Ok?
      ensures DropGid(tokens[i], primary, db).Ok? ==> DropGid(tokens[i], primary, db) == DropGid(ids[i], primary, db)
    {
      assert Resolve(tokens[i], db) == Resolve(ids[i], db);
    }
    DropGidsOk(tokens, primary, db);
    DropGidsValues(tokens, primary, db);
    DropGidsOk(ids, primary, db);
    DropGidsValues(ids, primary, db);
    if DropGids(tokens, primary, db).Ok? {
      assert DropGids(tokens, primary, db).value == DropGids(ids, primary, db).value;
    }
  }

  /**
   * main_test.go:88-106: dropping every held gid other than the primary one,
   * each given by its decimal text, leaves only copies of the primary gid.
   */
  lemma DropEverySupplementary(primary: int, db: GroupDb, held: seq<int>)
    requires forall g :: g in held ==> InInt64(g)
    ensures var others := Without(held, [primary]);
      var tokens := seq(|others|, i requires 0 <= i < |others| => FormatInt(others[i]));
      && Filtered(tokens, primary, db, Ok(held)).Ok?
      && forall x :: x in Filtered(tokens, primary, db, Ok(held)).value ==> x == primary
  {
    var others := Without(held, [primary]);
    var tokens := seq(|others|, i requires 0 <= i < |others| => FormatInt(others[i]));
    forall i | 0 <= i < |tokens| ensures DropGid(tokens[i], primary, db) == Ok(others[i]) {
      assert others[i] in others;
    }
    DropGidsOk(tokens, primary, db);
    DropGidsValues(tokens, primary, db);
    assert DropGids(tokens, primary, db).value == others;
  }

  /**
   * A signed number is a gid too, since `Atoi` accepts a sign (main.go:40):
   * `sign` followed by decimal digits whose value fits in 64 bits is that
   * signed value, whatever the database says.
   */
  lemma SignedTokensAreGids(sign: char, digits: string, db: GroupDb)
    requires sign == '+' || sign == '-'
    requires IsDecimal(digits)
    requires if sign == '-' then -(DecimalValue(digits) as int) >= MIN_INT64 else DecimalValue(digits) <= MAX_INT64
    ensures Resolve([sign] + digits, db) == Ok(if sign == '-' then -(DecimalValue(digits) as int) else DecimalValue(digits))
  {
  }

  /**
   * All-digit text too large for 64 bits is not a gid: `Atoi` refuses it,
   * so it is looked up as a group name like any other name (main.go:40-46).
   */
  lemma OutOfRangeDigitsAreNames(token: string, db: GroupDb)
    requires IsDecimal(token) && DecimalValue(token) > MAX_INT64
    ensures Resolve(token, db) ==
              if token !in db then Err(UnknownGroup(token))
              else if ParseInt(db[token]).None? then Err(InvalidGid(db[token]))
              else Ok(ParseInt(db[token]).value)
  {
  }
}
