# dropgrp, modelled in Dafny

`dropgrp` is a launcher that narrows the supplementary group membership of a
process and then replaces itself with a command:

    dropgrp <group>[,<group>...] <command> [args...]

This project models the core of its `main.go`:

- **Group filtering** (`filteredGroups`). Each token is either a decimal gid
  (anything `strconv.Atoi` accepts) or a group name, which is looked up in
  the group database. A token that is, or names, the primary group is an
  error. The result is the held supplementary list with every resolved gid
  removed, the survivors kept in their order.
- **The privilege bracket** (`setgroups`). If the process is not root, it
  becomes root, calls `Setgroups`, and then always restores the original
  effective user id. The two errors are combined with `errors.Join`. If the
  process is root already, only `Setgroups` is called.
- **The sequencing** (`dropgrp`): filter, set the groups, look the command
  up on the search path, then `Exec` it. Each step runs only if the previous
  one succeeded.

The operating system is represented by values:

- the primary gid;
- the group database, a `map<string, string>` from group name to the gid
  text it reports;
- a `Kernel` record that says, for each system call, whether it succeeds or
  which errno it fails with, and what `exec.LookPath` finds for each name.

The credentials (effective user id and installed groups) are fields of a
`Process` class. Its methods `Seteuid`, `Setgroups`, `Getgroups` and `Exec`
update them as the kernel would. Each call is appended to a trace of
`Call` values, and the security properties are stated over that trace:

- elevation happens only when the process is not root;
- `Setgroups` is issued only as root;
- after a successful elevation the original user id is restored exactly once;
- a process left elevated always reports the restore error;
- the command is executed at most once, last, with the filtered groups
  installed and the original user id back.

Modules, one per component:

- `Wrappers` (`wrappers.dfy`): Option and Result.
- `Errors` (`errors.dfy`): the error kinds and `errors.Join`.
- `Strconv` (`strconv.dfy`): `Atoi` as `ParseInt` and `Itoa` as `FormatInt`, on 64-bit `int`.
- `Groups` (`groups.dfy`): resolution and filtering, with the `filteredGroups` loops as methods.
- `FilterProperties` (`filter_properties.dfy`): what filtering promises, and what the tests check.
- `Privilege` (`privilege.dfy`): the `Process` class, the bracket specification `Bracket` and the method `SetGroups`.
- `Launcher` (`launcher.dfy`): `dropgrp` as the specification `Launch` and the method `Dropgrp`.

`Launch` and `Dropgrp` require a non-empty command. `dropgrp` indexes
its first word (main.go:87), and `main` only calls it with at least one
command word (main.go:16).

Where the documentation and the code disagree, the model follows the code:

- The comment on `dropgrp` (main.go:69-70) says the primary group is
  silently ignored. The code returns a "not a supplementary group" error
  (main.go:47-48), and main_test.go:108-114 expects that error.
  `PrimaryTokenRejected` and `PrimaryGidRefused` state this.
- A gid is described as non-negative, but `Atoi` accepts a sign. So any
  sign followed by digits in the 64-bit range, such as `-5` or `+5`, is
  taken as that signed gid without a database lookup
  (`SignedTokensAreGids`). A group whose name is all digits with a value
  that fits in 64 bits can only be reached by its gid, because such text is
  never looked up by name. All-digit text beyond the 64-bit range is refused
  by `Atoi` and is looked up by name (`OutOfRangeDigitsAreNames`).

## Model

| member | source | states |
|---|---|---|
| `Errors.Raised` | main.go:100-101 | A system call returns an error exactly when it fails, carrying its errno. |
| `Errors.NonNil` | main.go:107 | The non-nil errors handed to `errors.Join`: no more than were given, each present argument kept, nothing added. |
| `Errors.NonNilConcat` | main.go:107 | The non-nil errors of two lists in sequence are those of the first followed by those of the second, so their order is kept. |
| `Errors.Join` | main.go:105-108 | `errors.Join` is nil exactly when every argument is nil; otherwise it carries every non-nil argument and nothing else. |
| `Errors.JoinPair` | main.go:107 | Joining the `Setgroups` error with the restore error keeps both, in that order. |
| `Strconv.ParseInt` | main.go:40 | `Atoi` accepts only text that is at least one digit after at most one `+` or `-`, with a 64-bit value; unsigned, `+` and `-` decimal text in range reads as its signed value. |
| `Strconv.ParseIntRange` | main.go:40 | Digits whose value is outside the 64-bit range are refused, with or without a sign. |
| `Strconv.FormatNat` | main_test.go:110 | The decimal text of a natural number is all digits, has no leading zero, and has that value. |
| `Strconv.FormatInt` | main_test.go:110 | `Itoa` text of any 64-bit integer reads back through `Atoi` as the same integer. |
| `Groups.Resolve` | main.go:40-46 | A token that `Atoi` accepts is its own gid, with no lookup. Otherwise an unknown name gives the lookup error unchanged, and a listed name whose gid text does not parse gives an invalid-gid error. |
| `Groups.DropGid` | main.go:40-50 | A token is kept exactly when it resolves to a gid other than the primary one, and then as that gid; one resolving to the primary gid is refused with an error naming the token; resolution errors pass through. |
| `Groups.DropGids` | main.go:35-51 | The drop list has one gid per token, and never contains the primary gid. |
| `Groups.Without` | main.go:59-64 | The filtered list is no longer than the held list and holds exactly the held gids that are not dropped. |
| `Groups.Filtered` | main.go:30-66 | Resolution errors win over a `Getgroups` failure, which is returned unchanged. On success the result is no longer than the held list, contains only held gids, and keeps the primary gid if it is held. |
| `Groups.DropGidsErrorPersists` | main.go:40-49 | Once a token fails, later tokens cannot change the error. |
| `Groups.DropGidsOk` | main.go:36-51 | The drop list resolves exactly when every token resolves. |
| `Groups.DropGidsValues` | main.go:36-51 | The drop list holds each token's gid, in token order. |
| `Groups.DropGidsFirstError` | main.go:40-49 | A failing list reports the error of its first failing token; every token before it resolved. |
| `Groups.ResolveDropToken` | main.go:40-49 | The body of the resolution loop: numeric text, then the name lookup, then the primary check, proved equal to `DropGid` on every path. |
| `Groups.ResolveDropGroups` | main.go:35-51 | The resolution loop yields the drop list, or the first token's error, with its early returns. |
| `Groups.Trim` | main.go:59-64 | The filter loop builds the held list without the dropped gids. |
| `Groups.FilteredGroups` | main.go:30-66 | `filteredGroups` returns the specified filtering result for every input, including every error path. |
| `FilterProperties.WithoutConcat` | main.go:59-64 | Filtering distributes over concatenation, so survivors keep their relative order. |
| `FilterProperties.WithoutCount` | main.go:59-64 | Every copy of a dropped gid is removed, and every copy of any other gid is kept. |
| `FilterProperties.WithoutOnlyHeldMatter` | main.go:60-64 | Two drop lists that agree on the held gids filter alike, so drop ids that are not held are ignored. |
| `FilterProperties.FilteredContents` | main.go:59-64 | On success, each gid's multiplicity in the result is zero if some token drops it, and its held multiplicity otherwise. |
| `FilterProperties.FilteredKeepsOrder` | main.go:59-64 | Filtering a concatenation of held lists is the concatenation of their filterings. |
| `FilterProperties.FilteredIgnoresUnheld` | main.go:28-29 | Tokens whose gids are not held raise no error and return the held list unchanged. |
| `FilterProperties.WithoutIdentity` | main.go:60-64 | Dropping nothing keeps the held list as it is. |
| `FilterProperties.EmptyDropListUnchanged` | main.go:28-29 | An empty drop list returns the held list unchanged. |
| `FilterProperties.PrimaryTokenRejected` | main.go:47-49 | The first token resolving to the primary gid, after tokens that all resolved, makes filtering fail naming that token, whatever `Getgroups` says. |
| `FilterProperties.PrimaryGidRefused` | main_test.go:108-114 | The primary gid written in decimal is refused with an error naming it. |
| `FilterProperties.NameAndGidAgree` | main_test.go:66-86 | Giving a group by name or by its gid text succeeds alike and gives the same result. |
| `FilterProperties.DropEverySupplementary` | main_test.go:88-106 | Dropping every held gid except the primary, by decimal text, succeeds and leaves only the primary gid. |
| `FilterProperties.SignedTokensAreGids` | main.go:40-46 | Every `+` or `-` followed by decimal digits in the 64-bit range resolves to that signed value, whatever the database holds. |
| `FilterProperties.OutOfRangeDigitsAreNames` | main.go:40-46 | All-digit text whose value exceeds the 64-bit range is not taken as a gid but looked up by name, with the unknown-group and invalid-gid errors of any name. |
| `Privilege.Held` | main.go:54-56 | `Getgroups` returns the installed groups, or its failure as an errno error. |
| `Privilege.Bracket` | main.go:96-111 | As root only `Setgroups` runs; a failed elevation returns its error and calls nothing else; a successful one is followed by `Setgroups` and exactly one restore, with both errors joined; `Setgroups` runs only as root; a changed euid is always reported (details below). |
| `Privilege.Process.Seteuid` | main.go:100 | A successful `Seteuid` sets the effective user id; a failed one leaves it. The call is traced. |
| `Privilege.Process.Setgroups` | main.go:110 | A successful `Setgroups` installs the list; it is traced with the euid in force. |
| `Privilege.Process.Getgroups` | main.go:54 | `Getgroups` reads the installed groups and changes nothing. |
| `Privilege.Process.Exec` | main.go:90 | `Exec` is traced and returns its failure; credentials are unchanged. |
| `Privilege.SetGroups` | main.go:96-111 | `setgroups` leaves exactly the credentials, trace and error that `Bracket` specifies. |
| `Launcher.LookPath` | main.go:87-89 | The path search finds the command or fails with a not-found error naming it. |
| `Launcher.Launch` | main.go:71-91 | Each step runs only when the one before succeeded and the first error is returned unchanged; the command is executed at most once, last, after a clean `setgroups`, with the filtered groups installed and the original euid back; success is exactly a successful `Exec` (details below). |
| `Launcher.Dropgrp` | main.go:71-91 | `dropgrp` leaves exactly the credentials, trace and error that `Launch` specifies. |

`Privilege.Bracket` states these properties:

- Already root: only `Setgroups` is called, and its error is returned as it is.
- Not root and elevation fails: that error is returned, nothing else is called, and nothing changes.
- Elevation succeeds: `Setgroups` runs, then exactly one restore of the original euid. The error is the join of both errors.
- A failed restore after a successful elevation leaves the process running as root; a successful one gives back the original euid.
- Elevation is requested only when not root.
- `Setgroups` is only issued as root.
- No error means the groups are installed and the euid is restored.
- A changed euid is always reported, with the restore error among the causes.
- A `Setgroups` failure is never hidden.

`Launcher.Launch` states these properties:

- A filtering error stops everything before any system call, and changes nothing.
- After filtering, the run extends exactly the state `setgroups` leaves. An error from `setgroups`, including a restore failure, is returned as it is and nothing runs after it.
- A clean `setgroups` followed by a failed path search returns the not-found error naming the command, with no `Exec`.
- A clean `setgroups` and a found command give exactly one more call, the `Exec`, whose error is the result.
- The command is executed at most once and last, only after `setgroups` reported no error, with the filtered groups installed, the original euid back, and the argument vector unchanged.
- Success means exactly that `Exec` succeeded.
- `Setgroups` is only issued as root.

## Left out

- Command-line handling in `main` (main.go:15-26): the argument count check, usage text, splitting the group list on commas, and exit codes.
- The real system calls and databases are inputs: the `Kernel` record says how each call ends, and `GroupDb` is the group database; `syscall.Getgid` is the `gid` field of `Process`.
- Every way `user.LookupGroup` can fail is modelled as one error, the unknown-group error, because the database is a map.
- `strconv.Atoi` distinguishes syntax errors from range errors. The model keeps only the failure, because the code discards the error or wraps it the same way in both cases.
- `exec.LookPath` is only its outcome, a map from command name to executable. `Exec` is only a traced terminal call: process-image replacement and the environment passed through are not modelled.
- The text of error messages is not modelled; each error keeps its kind and the offending token or gid text.
- `Getgroups` is read before the resolution loop in `Dropgrp`, not after it. The call changes nothing and is not traced, and `Filtered` still gives resolution errors precedence over a `Getgroups` failure, so the result is the same.
- Panics are not modelled; the Go `defer` also restores on a panic, which the model has no counterpart for.
- Go applies `Setgroups` and `Seteuid` to every thread of the process. The model has one thread.
- The test helpers in main_test.go (`groupInfo`, `pickTestGroup`, `pickSupplemental`, `compareGroups`) read the live group list. Only the properties the tests check are modelled.
