# A verified model of Simple Secure FTP Daemon

This project models the stateful core of the FTP server `simple-sftpd` in Dafny
and proves what its commands, transfers and stores guarantee. `dafny verify
dfyconfig.toml` checks everything.

## How it is organised

- `Session.dfy` gives the effect of every command as a function from session
  state, file system and the operating system's answers to the new state, file
  system and reply; `Connection.dfy` holds the class `FTPConnection`, whose
  methods update its fields as the handlers of `connection.cpp` do and are
  proved to have exactly that effect. `Run` is the effect of a list of commands.
  `Resolution` says what path arguments denote, `Effects` and `Login` what each
  command achieves and exactly when. About runs are `Confinement` (what can change
  on disk), `LoginState` and `Login` (who is logged in, where, and by what right),
  `Protocol` (data channel, transfer mode, restart offset), `Faults` (what ends
  the daemon) and `Resume` (what uploads leave in a file, and what the reply to a
  download is worth).
- `Sequences.dfy` and `Text.dfy` are shared helpers. `Transfer.dfy` holds the
  transfer loops; a script gives the result of each system call of a download,
  short or failed, and time passes as it likes. `Paths.dfy`, `Disk.dfy` and
  `Accounts.dfy` hold paths, the file tree and permission lists.
- `RateLimiter.dfy` and `SessionTracker.dfy` model the limiter under the accept
  loop and the shared session counters under interleaved connections.
- `Bits.dfy`, `Base64.dfy`, `Password.dfy` and `UserStore.dfy` follow a
  credential from plaintext to the stored record and through the user file.
- `FileCache.dfy` and `CacheRuns.dfy` model the metadata cache and its
  histories; `AccessControl.dfy` the allow and deny lists.

Everything outside the program is an argument: credentials checked by PAM,
socket and file results, the paths whose status the system cannot tell, how much
of an upload can be written, directory sizes, clock readings, random salts and
the key derivation. A theorem about runs quantifies over all of them.

## Where the code is looser than its intent

The model follows the code, and these are proved of it: as the exact condition
under which the code meets the intent, or as a family of inputs on which it does
not.

- An upload creates missing parent directories unchecked, before it opens its
  target; it leaves the home, or the root of the virtual host, exactly when it
  gets to make a directory above that (`Confinement.UploadLeavesExactly` and its
  instances).
- RNTO does not check its source again: it changes something outside the home,
  or the root of the virtual host, exactly when the source lies outside
  (`Confinement.RenameLeavesExactly` and its instances), which a second login
  brings about (`Confinement.RenameAcrossLogins`).
- HOST after login, which RFC 7151 does not foresee, with a refused PASS swaps
  the user of a live login (`LoginState.HostAfterLogin`).
- PORT stores its operands before it checks them (`Protocol.PortArmed`).
- REST positions from 2^63 on become negative and pass the guard of mode Z
  (`Protocol.HugeRestOpensCompressed`).
- A partial send from the mapped file is repeated by the fallback loop
  (`Transfer.MmapRestart`, `Transfer.PrefixWhateverHappens`). RETR answers 226
  even when the transfer broke off (`Resume.ReplyHidesLoss`).
- Twelve commands call the file system library outside any `try` in its throwing
  form: CWD, LIST, SIZE, RETR, STOR, STOU, APPE, DELE, MKD, RMD, RNFR and RNTO. An
  exception there leaves the thread of the connection and ends the daemon
  (`Faults.UncaughtExactly`).
- A write that fails during an upload goes unnoticed and is answered 226
  (`Resume.UploadReplyHidesLoss`, `Resume.AppendReplyHidesLoss`); a user file that
  could not be written whole counts as saved.
- STOU probes and stores to different paths when the working directory has no
  text, as after a login with an empty home (`Protocol.ProbeIsTarget`).
- Closing a connection unregisters the current names, not the registered ones
  (`SessionTracker.CloseExactly`), and a second login on a connection is never
  unregistered (`SessionTracker.RunLeaks`).
- The first entry put into an empty permission list takes rights away
  (`Accounts.AddPermissionMonotone`).
- `constantTimeEquals` ignores multiples of 256 trailing NULs
  (`Password.SameTextExactly`); the Base64 decoder accepts text that is not
  canonical (`Base64.EncodeDecode`).
- `password.hpp` asks callers of `hash` to treat an empty result as an error
  rather than store the plaintext; `setPassword` stores the plaintext. Counts
  above 100000000 print but do not verify (`Password.VerifyHash`).
- CIDR prefixes outside 0 to 32 are not refused (`AccessControl.OddPrefixes`),
  and an entry that does not parse throws, so the order of a list can matter
  (`AccessControl.OrderIndependent`).

## Model

| member | source | states |
|---|---|---|
| Paths.IsWithin | src/simple-sftpd/core/connection.cpp:1637-1648 | the component loop decides whether the parent is a prefix of the child |
| Paths.NormalizeIdempotent | src/simple-sftpd/core/connection.cpp:1626-1635 | comparing normal forms is stable: normalising twice changes nothing, for every path |
| Paths.ComponentsOfRender | src/simple-sftpd/core/connection.cpp:1650-1667 | every well-formed component list survives being written as text and read back |
| Paths.NormOfRender | src/simple-sftpd/core/connection.cpp:1650-1667 | the text `resolvePath` returns denotes exactly the normal form that the checks look at |
| Paths.NormAbsolute | src/simple-sftpd/core/connection.cpp:1626-1635 | an absolute path normalises to the root followed by plain names: no `.`, no `..` |
| Paths.WithinTransitive | src/simple-sftpd/user/user.cpp:36-45 | containment is transitive |
| Paths.WithinAsText | src/simple-sftpd/user/user.cpp:36-45 | in terms of the text: within a directory if and only if equal to it or starting with it plus a slash; a sibling sharing only a string prefix is out |
| Accounts.HasPermission | src/simple-sftpd/user/user.cpp:106-143 | the search loop equals "the list is empty, or some entry matches the operation and is unscoped or has the path in its scope" |
| Accounts.PermissionInherited | src/simple-sftpd/user/user.cpp:106-143 | a permission on a directory extends to everything below it |
| Accounts.ScopeCoversSubtreeOnly | src/simple-sftpd/user/user.cpp:125-140 | a scoped entry grants exactly its directory and what starts with the directory and a slash |
| Accounts.AddPermissionEffect | src/simple-sftpd/user/user.cpp:100-104 | exactly what is permitted after an entry has been added |
| Accounts.AddPermissionMonotone | src/simple-sftpd/user/user.cpp:100-113 | adding an entry revokes nothing if and only if the list was not empty or the entry allows everything |
| Resolution.AbsoluteArgument | src/simple-sftpd/core/connection.cpp:1650-1667 | with an absolute home and whatever the working directory, an absolute argument denotes what its components lead to from the home |
| Resolution.AbsoluteNames | src/simple-sftpd/core/connection.cpp:1656-1659 | `/` followed by plain names is exactly those names under the home |
| Resolution.RelativeArgument | src/simple-sftpd/core/connection.cpp:1650-1667 | in an absolute working directory and whatever the home, a relative argument denotes what its components lead to from the working directory; the empty one denotes the directory |
| Resolution.RelativeNames | src/simple-sftpd/core/connection.cpp:1660-1667 | plain names are those names under the working directory, `.` is the directory and `..` the one above, as far as there is one |
| Resolution.NormalizeAppend | src/simple-sftpd/core/connection.cpp:1626-1635 | a path can be normalised piece by piece |
| Resolution.NormalizeStep | src/simple-sftpd/core/connection.cpp:1626-1635 | what one more component does to a normal form: a name goes below, `.` stays, `..` goes up and stops at the root |
| Resolution.ScopeUnderHome | src/simple-sftpd/user/user.cpp:125-140 | a scope of plain names grants its operation exactly below those names under the home of the account |
| Disk.MoveElsewhere | src/simple-sftpd/core/connection.cpp:2091-2127 | a rename leaves every node outside the two subtrees as it was |
| Disk.MoveDelivers | src/simple-sftpd/core/connection.cpp:2091-2127 | a renamed node and everything below it arrive with their content and leave the old place |
| Connection.FTPConnection.constructor | src/simple-sftpd/core/connection.cpp:103-112 | the session starts out as the members are initialised: not yet active, logged out, at `/`, in stream mode, with nothing armed |
| Connection.FTPConnection.Start | src/simple-sftpd/core/connection.cpp:168-176 | starting makes the session active and changes nothing else |
| Connection.FTPConnection.ResolvePath | src/simple-sftpd/core/connection.cpp:1650-1667 | relative to the directory or rooted at the home, then normalised, for every argument |
| Connection.FTPConnection.IsPathWithinHome | src/simple-sftpd/core/connection.cpp:1689-1696 | true exactly for paths whose normal form lies under the normal form of the home |
| Connection.FTPConnection.ValidatePath | src/simple-sftpd/core/connection.cpp:1669-1687 | home and virtual host root both contain the path; nobody logged in means no |
| Connection.FTPConnection.MayAccess | src/simple-sftpd/core/connection.cpp:1698-1707 | the permission list is asked about the resolved path, the one later acted on |
| Connection.FTPConnection.CreatePassiveDataSocket | src/simple-sftpd/core/connection.cpp:1709-1746 | the first bindable port of the configured range, listening only if there is one |
| Connection.FTPConnection.AcceptDataConnection | src/simple-sftpd/core/connection.cpp:1748-1794 | success and remaining channel state of accepting, in active and in passive mode |
| Connection.FTPConnection.ConnectActiveDataSocket | src/simple-sftpd/core/connection.cpp:1796-1847 | active mode is spent once a socket exists, whether or not the connect succeeds |
| Connection.FTPConnection.Authenticate | src/simple-sftpd/core/connection.cpp:447-480 | who a login attempt proves to be; the current user is replaced even when it fails |
| Connection.FTPConnection.TooManySessions | src/simple-sftpd/core/connection.cpp:481-497 | the user limit, then the limit of the virtual host |
| Login.PassSucceedsExactly | src/simple-sftpd/core/connection.cpp:442-513 | PASS is answered 230 if and only if a name was given, it is that of a known unexpired account with the right password or PAM accepts it, and neither session limit is set and reached; 503 if and only if there is no name; 530 otherwise |
| Login.PassEffect | src/simple-sftpd/core/connection.cpp:442-513 | a success logs in the known account, or a fresh one for PAM, in its home; anything else logs nobody in and moves nothing |
| Login.PamLoginHome | src/simple-sftpd/core/connection.cpp:458-474 | the home of a session that only PAM vouches for: that of the system, of the account, of the configuration, or `/tmp` |
| Login.UserEffect | src/simple-sftpd/core/connection.cpp:436-440 | USER takes the name, ends the login and changes nothing else |
| Login.HostEffect | src/simple-sftpd/core/connection.cpp:520-537 | HOST succeeds if and only if the name is that of an enabled host, and selects that host and nothing else |
| Login.LoginIsEarned | src/simple-sftpd/core/connection.cpp:436-513 | in every run from the start, a session that ends logged in was served a PASS with the right password or accepted by PAM, and no USER after it |
| Connection.FTPConnection.HandleUSER | src/simple-sftpd/core/connection.cpp:436-440 | whole new state; the login is dropped |
| Connection.FTPConnection.HandlePASS | src/simple-sftpd/core/connection.cpp:442-513 | whole new state and reply on all paths: no name, bad credential, limit reached, success |
| Connection.FTPConnection.HandleHOST | src/simple-sftpd/core/connection.cpp:520-537 | whole new state and reply; selecting a host does not touch the login |
| Connection.FTPConnection.HandleCWD | src/simple-sftpd/core/connection.cpp:543-557 | moves only to a checked existing directory; ends the daemon when the status of a checked path cannot be told |
| Connection.FTPConnection.HandleCDUP | src/simple-sftpd/core/connection.cpp:741-758 | moves only to the checked parent; a status that cannot be told is a refusal |
| Connection.FTPConnection.HandleLIST | src/simple-sftpd/core/connection.cpp:559-617 | reply and effect on the data channel; the permission is asked without a path; the status of the path and the size of a single file may throw |
| Connection.FTPConnection.HandleMLSD | src/simple-sftpd/core/connection.cpp:816-858 | reply and effect on the data channel; nothing throws |
| Connection.FTPConnection.HandleSIZE | src/simple-sftpd/core/connection.cpp:1130-1139 | reply, without any check of permission or path; the status and the size may throw |
| Connection.FTPConnection.HandlePASV | src/simple-sftpd/core/connection.cpp:619-638 | refused under EPSV ALL, else switches to a fresh passive listener |
| Connection.FTPConnection.HandleEPSV | src/simple-sftpd/core/connection.cpp:760-786 | EPSV ALL, the protocol numbers, or a fresh passive listener |
| Connection.FTPConnection.ParseNumbers | src/simple-sftpd/core/connection.cpp:647-664 | collects the numbers between commas; fails as soon as one does not parse |
| Connection.FTPConnection.HandlePORT | src/simple-sftpd/core/connection.cpp:640-686 | whole new state, including what a refused port leaves behind |
| Connection.FTPConnection.SplitFields | src/simple-sftpd/core/connection.cpp:703-715 | the character loop yields exactly the fields that a delimiter ends |
| Connection.FTPConnection.HandleEPRT | src/simple-sftpd/core/connection.cpp:688-739 | whole new state and reply of the extended form |
| Connection.FTPConnection.HandleMODE | src/simple-sftpd/core/connection.cpp:1101-1119 | mode Z only when compression is enabled |
| Connection.FTPConnection.HandleREST | src/simple-sftpd/core/connection.cpp:2004-2016 | stores the position as a signed 64-bit offset; refused in mode Z |
| Connection.FTPConnection.SendFile | src/simple-sftpd/core/connection.cpp:1209-1382 | reply, restart offset, what goes out and whether it counts as complete: without mmap a prefix of the rest, complete exactly when it is all of it |
| Connection.FTPConnection.SendPlain | src/simple-sftpd/core/connection.cpp:1236-1372 | the bytes of the three stages and whether they count as complete |
| Connection.FTPConnection.HandleRETR | src/simple-sftpd/core/connection.cpp:1141-1383 | whole new state, reply and opening, the throwing status call included; what goes out is an outcome of fetching the file named, and nothing on every refusal |
| Connection.FTPConnection.FetchFile | src/simple-sftpd/core/connection.cpp:1171-1382 | data connection and transfer of a checked file |
| Connection.FTPConnection.StorageQuota | src/simple-sftpd/core/connection.cpp:1398-1405 | the smaller of the two positive quotas |
| Connection.FTPConnection.OpenTarget | src/simple-sftpd/core/connection.cpp:1445-1464 | update in place only when resuming inside an existing file, truncation otherwise |
| Connection.FTPConnection.HandleSTOR | src/simple-sftpd/core/connection.cpp:1385-1550 | whole new state, file system, reply and opening; what is left when making the parents fails half-way or the status of the target throws |
| Connection.FTPConnection.HandleSTOU | src/simple-sftpd/core/connection.cpp:984-1009 | the first unused numbered name, then STOR to it from offset 0 |
| Connection.FTPConnection.HandleAPPE | src/simple-sftpd/core/connection.cpp:2018-2067 | whole new state, file system, reply and opening |
| Connection.FTPConnection.AppendFile | src/simple-sftpd/core/connection.cpp:2036-2066 | data connection, the throwing status call, and the part of the upload that could be written |
| Connection.FTPConnection.HandleDELE | src/simple-sftpd/core/connection.cpp:1552-1574 | removes the checked file or changes nothing; an exception of the status call or the removal ends the daemon |
| Connection.FTPConnection.HandleMKD | src/simple-sftpd/core/connection.cpp:1576-1595 | creates the checked directory or changes nothing; an uncaught exception ends the daemon |
| Connection.FTPConnection.HandleRMD | src/simple-sftpd/core/connection.cpp:1597-1620 | removes the checked directory if it is empty; an exception of the status call or the removal ends the daemon |
| Connection.FTPConnection.HandleRNFR | src/simple-sftpd/core/connection.cpp:2069-2089 | remembers a checked existing path; the status call may throw |
| Connection.FTPConnection.HandleRNTO | src/simple-sftpd/core/connection.cpp:2091-2127 | renames to a checked free path; the pending source is spent in every case but an exception of the status call |
| Connection.FTPConnection.HandleCHMOD | src/simple-sftpd/core/connection.cpp:1030-1070 | sets the low twelve mode bits of the checked path |
| Connection.FTPConnection.HandleABOR | src/simple-sftpd/core/connection.cpp:977-982 | closes the passive listener and nothing else |
| Connection.FTPConnection.HandleQUIT | src/simple-sftpd/core/connection.cpp:515-518 | ends the session and changes nothing else |
| Connection.FTPConnection.Serve | src/simple-sftpd/core/connection.cpp:243-353 | the dispatcher: commands that need a login are refused without one |
| Effects.DeleEffect | src/simple-sftpd/core/connection.cpp:1552-1574 | DELE is answered 250 if and only if the session is logged in, both checks pass, and the target is a file that can be seen and removed; then that file is gone and all else is as it was, otherwise nothing changes |
| Effects.MkdEffect | src/simple-sftpd/core/connection.cpp:1576-1595 | MKD is answered 257 if and only if it is allowed and nothing is at the target, below a directory; then a new directory is there and all else is as it was |
| Effects.RmdEffect | src/simple-sftpd/core/connection.cpp:1597-1620 | RMD is answered 250 if and only if it is allowed and the target is a directory with nothing below it; then it is gone and all else is as it was |
| Effects.ChmodEffect | src/simple-sftpd/core/connection.cpp:1030-1070 | SITE CHMOD is answered 200 if and only if it is allowed, the octal number parses and the target exists; the mode is then its low twelve bits, the content and all else are kept |
| Effects.OctalMode | src/simple-sftpd/core/connection.cpp:1052-1065 | three octal digits are the mode they are written for |
| Effects.RnfrEffect | src/simple-sftpd/core/connection.cpp:2069-2089 | RNFR succeeds if and only if it is allowed and the path exists; it remembers that path and nothing else changes |
| Effects.RntoEffect | src/simple-sftpd/core/connection.cpp:2091-2127 | RNTO is answered 250 if and only if a source is pending, the target is allowed, free, below a directory and not inside the source; the whole subtree then arrives as it was, the old place is empty and the rest untouched |
| Effects.CwdEffect | src/simple-sftpd/core/connection.cpp:543-557 | CWD succeeds if and only if the path check passes and the target is a directory that can be seen; the working directory is then that one |
| Effects.SizeEffect | src/simple-sftpd/core/connection.cpp:1130-1139 | SIZE succeeds for exactly the files that can be seen, with no check but the login |
| Effects.ListEffect | src/simple-sftpd/core/connection.cpp:559-617 | LIST succeeds if and only if listing is allowed, the path is inside and exists, and the data connection comes about |
| Effects.MlsdEffect | src/simple-sftpd/core/connection.cpp:816-858 | MLSD succeeds if and only if it is allowed on a directory and the data connection comes about |
| Effects.ConnectsExactly | src/simple-sftpd/core/connection.cpp:1748-1847 | a data connection comes about if and only if there is a peer and a usable address in active mode, or a listener in passive mode |
| Effects.ConnectEffect | src/simple-sftpd/core/connection.cpp:1748-1847 | asking for it uses up active mode unless address, port or socket is missing, and leaves the listener |
| Effects.RetrEffect | src/simple-sftpd/core/connection.cpp:1141-1383 | RETR is answered 226 if and only if it is allowed on a file that can be opened, the mode fits, the data connection comes about and the offset is not negative; 425 if and only if only the connection is missing; 226 spends the offset |
| Effects.QuotaIsSmaller | src/simple-sftpd/core/connection.cpp:1398-1405 | the quota in force is the smaller of the positive ones, and none if there is none |
| Effects.OverQuotaExactly | src/simple-sftpd/core/connection.cpp:1398-1412 | an upload is over quota if and only if the home holds as much as some positive quota |
| Effects.StorReply | src/simple-sftpd/core/connection.cpp:1385-1550 | STOR is answered 226 if and only if it passes its checks, the data connection and the parents come about, the target opens and a compressed stream inflates; 552 exactly for a quota used up, 425 exactly when only the connection is missing |
| Effects.LowestFree | src/simple-sftpd/core/connection.cpp:984-1009 | STOU takes the lowest free number out of ten thousand, and gives up exactly when all are taken |
| Effects.UniqueBaseIsLast | src/simple-sftpd/core/connection.cpp:984-1009 | the numbered name starts with the last component of the argument, or with `ftpd` |
| Effects.StouEffect | src/simple-sftpd/core/connection.cpp:984-1009 | STOU does what STOR of that name from the beginning does, or is answered 452 |
| Effects.AppeReply | src/simple-sftpd/core/connection.cpp:2018-2067 | APPE is answered 226 if and only if it is allowed in stream mode, the data connection comes about and the file opens at its end; nothing but the target changes, and nothing at all otherwise |
| Effects.PortEffect | src/simple-sftpd/core/connection.cpp:640-686 | PORT with six numbers aims active mode at exactly that address and port, in place of any listener, if and only if the port is one from 1024 to 65535 |
| Effects.EprtEffect | src/simple-sftpd/core/connection.cpp:688-739 | EPRT aims active mode at exactly the address and port between its delimiters, under the same condition |
| Effects.LowestPort | src/simple-sftpd/core/connection.cpp:1709-1746 | the passive listener takes the lowest free port of the configured range, and fails exactly when none is free |
| Effects.PassiveEffect | src/simple-sftpd/core/connection.cpp:619-638 | PASV, and EPSV likewise, leave a listener and no active mode if and only if a socket and a port can be had; otherwise 425 and neither |
| Effects.EpsvAllEffect | src/simple-sftpd/core/connection.cpp:760-786 | EPSV ALL is accepted at any time and only sets the flag |
| Effects.ModeEffect | src/simple-sftpd/core/connection.cpp:1101-1119 | MODE S and MODE Z switch to what they name, from any mode and in either case of the letter |
| Effects.EndEffect | src/simple-sftpd/core/connection.cpp:977-982 | ABOR closes the listener, QUIT the session, and nothing else changes |
| Faults.UncaughtExactly | src/simple-sftpd/core/connection.cpp:168-176 | for every command in every state: it ends the daemon by an exception that leaves the thread function if and only if the system fails it at one of its throwing calls, after the checks it makes before |
| Faults.UnseenName | src/simple-sftpd/core/connection.cpp:543-551 | for a name whose status cannot be told CWD ends the daemon if and only if the path check passes, SIZE always |
| Connection.FTPConnection.HandleClient | src/simple-sftpd/core/connection.cpp:216-357 | serving any list of commands has exactly the effect of the run on values, on which the theorems below are stated |
| Session.StorFrame | src/simple-sftpd/core/connection.cpp:1385-1550 | an upload changes only channel, restart offset and liveness of the session |
| Session.AppeFrame | src/simple-sftpd/core/connection.cpp:2018-2067 | likewise for APPE |
| Session.WriteFrame | src/simple-sftpd/core/connection.cpp:984-2127 | what the file-changing commands can change in the session state |
| Session.StepFrame | src/simple-sftpd/core/connection.cpp:243-353 | for every command, the parts of the session state that it cannot change |
| Confinement.ChangeIsCleared | src/simple-sftpd/core/connection.cpp:1385-1396 | in any state, a command changes a node only at (or as part of) the one path that passed both the write permission and the path check |
| Confinement.ChangeIsConfined | src/simple-sftpd/core/connection.cpp:1669-1696 | each node changed is under the home of the user and under the root of the selected virtual host, for every argument string |
| Confinement.UploadLeavesExactly | src/simple-sftpd/core/connection.cpp:1385-1464 | whatever directory holds the target, STOR changes something outside it if and only if it gets as far as its parents and makes a missing directory above that one, even if making the others then fails, whatever the reply |
| Confinement.UploadLeavesHomeExactly | src/simple-sftpd/core/connection.cpp:1439-1443 | the same for the home of the user |
| Confinement.UploadLeavesHostRootExactly | src/simple-sftpd/core/connection.cpp:1439-1443 | the same for the root of the virtual host |
| Confinement.UniqueUploadLeavesExactly | src/simple-sftpd/core/connection.cpp:984-1009 | the same for STOU, for the home and for the root |
| Confinement.UploadAboveHome | src/simple-sftpd/core/connection.cpp:1439-1464 | a first upload into a missing home makes the directory above it although it is answered 550 |
| Confinement.FailedUploadAboveHome | src/simple-sftpd/core/connection.cpp:1439-1443 | an upload whose parents can only be made in part ends the daemon and has made a directory above the home |
| Confinement.StateStaysWithin | src/simple-sftpd/core/connection.cpp:442-537 | over any step, user, host and rename source stay within the configured homes |
| Confinement.OutsideUntouched | src/simple-sftpd/core/connection.cpp:1626-1707 | no run of commands, with any logins, hosts and arguments, changes, removes or creates a node outside all homes |
| Confinement.RenameSourceStaysValid | src/simple-sftpd/core/connection.cpp:2069-2091 | a pending rename source stays a checked path through every command but PASS and HOST |
| Confinement.RenameLeavesExactly | src/simple-sftpd/core/connection.cpp:2091-2127 | whatever directory holds the target, RNTO changes something outside it if and only if it goes through and its source lies outside |
| Confinement.RenameLeavesHomeExactly | src/simple-sftpd/core/connection.cpp:2091-2127 | the same for the home of the user |
| Confinement.RenameLeavesHostRootExactly | src/simple-sftpd/core/connection.cpp:2091-2127 | the same for the root of the virtual host |
| Confinement.RenameAcrossLogins | src/simple-sftpd/core/connection.cpp:2091-2118 | RNTO does not check its source again: a rename begun by one user and finished by another moves a file out of a foreign home |
| LoginState.StepSettled | src/simple-sftpd/core/connection.cpp:436-537 | one command keeps "logged in means a known user, with the directory under the home" |
| LoginState.RunSettled | src/simple-sftpd/core/connection.cpp:436-557 | the same over every run with HOST only before login and no PAM |
| LoginState.HostAfterLogin | src/simple-sftpd/core/connection.cpp:442-537 | after a late HOST and a PASS refused for the password or for a session limit the invariant holds if and only if the new host knows the name with a home containing the directory |
| LoginState.LoggedInWithoutUser | src/simple-sftpd/core/connection.cpp:442-537 | a four-command run that ends logged in without any user |
| LoginState.CdupStep | src/simple-sftpd/core/connection.cpp:741-758 | CDUP is refused at home and otherwise moves up exactly one level, if the system can tell that the parent is a directory |
| LoginState.CdupsReachHome | src/simple-sftpd/core/connection.cpp:741-758 | n CDUPs go up n levels, but never above home, where they change nothing more |
| Protocol.StepChannel | src/simple-sftpd/core/connection.cpp:619-786 | every command keeps active mode and passive listener exclusive and EPSV ALL in force |
| Protocol.RunChannel | src/simple-sftpd/core/connection.cpp:619-786 | over every run: exclusive channels; EPSV ALL never resets; active mode then never comes on |
| Protocol.EpsvAllRefuses | src/simple-sftpd/core/connection.cpp:619-700 | PASV, PORT and EPRT are refused and change nothing under EPSV ALL |
| Protocol.PortArmed | src/simple-sftpd/core/connection.cpp:665-686 | an armed port is in range after PORT unless active mode was on and the six numbers name a port out of range: if and only if |
| Protocol.EprtArmed | src/simple-sftpd/core/connection.cpp:722-739 | EPRT keeps an armed port in range |
| Protocol.StepMode | src/simple-sftpd/core/connection.cpp:1101-1119 | mode Z implies that compression is enabled, after every command |
| Protocol.RunMode | src/simple-sftpd/core/connection.cpp:1101-1119 | the same over every run |
| Protocol.StepOpening | src/simple-sftpd/core/connection.cpp:1159-1169 | what a transfer can look like as it opens its data connection, for every command |
| Protocol.StepResume | src/simple-sftpd/core/connection.cpp:2004-2016 | the restart offset stays non-negative while REST names positions below 2^63 |
| Protocol.CompressedTransfersStartAtZero | src/simple-sftpd/core/connection.cpp:1159-1169 | for every order of MODE, REST and transfers, a compressed transfer never opens at a positive offset, and at 0 unless REST named 2^63 or more |
| Protocol.HugeRestOpensCompressed | src/simple-sftpd/core/connection.cpp:2004-2016 | every position from 2^63 on does get past the guard of mode Z, as a negative offset |
| Protocol.ProbeIsTarget | src/simple-sftpd/core/connection.cpp:984-1009 | the name that STOU probes is the path that it stores to if and only if the working directory has a text |
| Protocol.StouNeverOverwrites | src/simple-sftpd/core/connection.cpp:984-1009 | the only existing node STOU can change is its target, and that only where the working directory has no text or the status of the target cannot be told |
| Protocol.StouOverwritesWithoutHome | src/simple-sftpd/core/connection.cpp:984-1009 | with an empty home, and so an empty working directory, it does overwrite |
| Transfer.Delay | src/simple-sftpd/core/connection.cpp:1223-1234 | two-sided bound on the computed sleep: neither above the rate line nor more than a byte below it |
| Transfer.DelayArithmetic | src/simple-sftpd/core/connection.cpp:1223-1234 | the integer arithmetic of that bound, for every rate, total and elapsed time |
| Transfer.Throttle | src/simple-sftpd/core/connection.cpp:1223-1234 | the chunk goes out after exactly the sleep the running total asks for, and under the rate line once the first millisecond has passed |
| Transfer.ScheduleIsPaced | src/simple-sftpd/core/connection.cpp:1223-1234 | chunks throttled one after the other go out in order, each under the rate line at its own running total |
| Transfer.SendfileStage | src/simple-sftpd/core/connection.cpp:1291-1307 | whatever the calls return, a contiguous stretch of the file from the offset goes out, in chunks of at most the buffer size, each throttled at the number of bytes sent before it; it ends early only because its last call fell short |
| Transfer.MmapStage | src/simple-sftpd/core/connection.cpp:1325-1345 | the same for the mapped file |
| Transfer.ReadSendStage | src/simple-sftpd/core/connection.cpp:1347-1372 | the same for the plain loop, with short reads and short sends |
| Transfer.RunStages | src/simple-sftpd/core/connection.cpp:1291-1372 | how the stages compose, for every script of call results: what is on the wire, the throttling across the stages, and when the transfer counts as complete; it fails only because a call of the last stage falls short, and sends exactly the rest when every call moves what it is asked to |
| Transfer.LoggedIsPaced | src/simple-sftpd/core/connection.cpp:1223-1372 | every chunk of a download starts under the rate line, at the number of bytes sent before it, in order |
| Transfer.Retrieve | src/simple-sftpd/core/connection.cpp:1209-1372 | for every restart offset and every script of call results: nothing left, a failed seek, an undefined read before the mapping, or the bytes of the three stages; complete with exactly the rest when the calls are willing, with or without sendfile and mmap; without mmap always a prefix of the rest, complete if and only if success is recorded |
| Transfer.WireUnbroken | src/simple-sftpd/core/connection.cpp:1291-1372 | without a mapped stage the stages join without a gap or an overlap |
| Transfer.MmapRestart | src/simple-sftpd/core/connection.cpp:1325-1349 | for every file: with mmap the wire is a prefix of the rest if and only if one of the two last stages sent nothing or the file repeats itself where they overlap |
| Transfer.MmapResends | src/simple-sftpd/core/connection.cpp:1325-1372 | one byte sent from the mapping and then everything once more, taken for complete |
| Transfer.PrefixWhateverHappens | src/simple-sftpd/core/connection.cpp:1236-1372 | known before the transfer: every possible outcome is a prefix if and only if mmap is off or at most one byte is left |
| Transfer.WholeWhateverHappens | src/simple-sftpd/core/connection.cpp:1236-1372 | every possible outcome is the whole rest if and only if there is none |
| Transfer.DeliversPlainly | src/simple-sftpd/core/connection.cpp:1291-1372 | without mmap the server takes a download for complete if and only if the whole rest went out |
| Transfer.DownloadInTwo | src/simple-sftpd/core/connection.cpp:1209-1372 | a cut-off download resumed at the received count rebuilds the file exactly when the second one is complete, and it is when its calls are willing |
| Transfer.WriteAtConcat | src/simple-sftpd/core/connection.cpp:1534-1535 | writing two chunks in turn is writing their concatenation |
| Transfer.WriteAtInside | src/simple-sftpd/core/connection.cpp:1445-1454 | byte by byte, what a resumed upload replaces and what it keeps |
| Transfer.WriteAtParts | src/simple-sftpd/core/connection.cpp:1445-1454 | what a write inside a file leaves before and behind it |
| Transfer.ReceiveUpload | src/simple-sftpd/core/connection.cpp:1514-1541 | the receive loop leaves the part of the concatenation that could be written, whatever the chunks, each throttled at the number of bytes received with it |
| Transfer.UploadIsPaced | src/simple-sftpd/core/connection.cpp:1521-1536 | every chunk of an upload is written under the rate line, at its own running total, in order |
| Transfer.WholeWhateverRoom | src/simple-sftpd/core/connection.cpp:1534-1535 | the file ends up whole however much can be written if and only if writing changes nothing |
| Transfer.AppendUpload | src/simple-sftpd/core/connection.cpp:2058-2062 | the receive loop of APPE leaves the old content followed by the part of the chunks that could be written |
| Transfer.UploadInTwo | src/simple-sftpd/core/connection.cpp:1445-1541 | two receive loops leave the whole upload, however it was chunked, if all of it could be written |
| Resume.StorLeaves | src/simple-sftpd/core/connection.cpp:1445-1541 | what an uncompressed STOR answered 226 leaves in the target file: those of the received bytes that could be written, alone or over the file from the restart offset, under the old mode; it spends the offset |
| Resume.RestThenStor | src/simple-sftpd/core/connection.cpp:2004-2016 | REST k and STOR inside a file: the first k bytes, the data written, the rest |
| Resume.UploadResumed | src/simple-sftpd/core/connection.cpp:1445-1541 | STOR cut off after k bytes, REST k, STOR of the rest leave the whole upload, as far as the rest could be written |
| Resume.AppeLeaves | src/simple-sftpd/core/connection.cpp:2044-2065 | old content followed by the data that could be written, under the old mode |
| Resume.UploadReplyHidesLoss | src/simple-sftpd/core/connection.cpp:1534-1549 | an uncompressed STOR is answered 226 however much could be written; that guarantees the whole upload if and only if nothing was received or the file holds it already |
| Resume.AppendReplyHidesLoss | src/simple-sftpd/core/connection.cpp:2058-2066 | the same for APPE, if and only if nothing was received |
| Resume.AppendIsResumeAtEnd | src/simple-sftpd/core/connection.cpp:2044-2065 | APPE leaves the same node as REST at the size of the file followed by STOR |
| Resume.ReplyHidesLoss | src/simple-sftpd/core/connection.cpp:1371-1382 | a stream-mode download that gets its data connection is answered 226 whatever happens; that guarantees the whole rest if and only if the file is empty |
| RateLimiter.FTPRateLimiter.IsAllowed | src/simple-sftpd/security/rate_limiter.cpp:27-49 | the new table and the verdict, window reset included |
| RateLimiter.FTPRateLimiter.RecordRequest | src/simple-sftpd/security/rate_limiter.cpp:51-66 | the new table, with its own window reset |
| RateLimiter.ServerLoop | src/simple-sftpd/core/server.cpp:206-235 | the loop admits exactly the attempts for which the check finds room |
| RateLimiter.NextConsistent | src/simple-sftpd/security/rate_limiter.cpp:27-66 | one check and record keep entry and log in step |
| RateLimiter.RunConsistent | src/simple-sftpd/security/rate_limiter.cpp:27-66 | after any run the entry counts exactly the requests of the current window, and no window holds more than the limit |
| RateLimiter.TwoWindowBound | src/simple-sftpd/core/server.cpp:225-235 | at most twice the limit admitted from one address in any 60-second interval |
| RateLimiter.DenialIsEarned | src/simple-sftpd/security/rate_limiter.cpp:42-46 | a refusal means that the limit was used up within the last 60 seconds |
| RateLimiter.OthersDoNotMatter | src/simple-sftpd/security/rate_limiter.cpp:27-66 | the fate of an address depends on its own attempts alone |
| RateLimiter.NothingAdmitted | src/simple-sftpd/security/rate_limiter.cpp:42-46 | a limit of zero or less admits nobody |
| SessionTracker.Tracker.RegisterSession | src/simple-sftpd/core/session_tracker.cpp:15-23 | both counters, empty names skipped |
| SessionTracker.Tracker.UnregisterSession | src/simple-sftpd/core/session_tracker.cpp:25-47 | both counters, entries erased when they reach zero, unknown names skipped |
| SessionTracker.RemoveUndoesAdd | src/simple-sftpd/core/session_tracker.cpp:15-47 | unregistering undoes registering |
| SessionTracker.StepLoad | src/simple-sftpd/core/connection.cpp:481-506 | one step raises sessions plus logins in flight by at most one, and only past the check of that very limit |
| SessionTracker.LimitUnderInterleaving | src/simple-sftpd/core/connection.cpp:481-506 | with at most n logins of a user or host in flight its count never exceeds limit - 1 + n, under every interleaving of the two limit checks and the registration, repeated logins included |
| SessionTracker.RunExact | src/simple-sftpd/core/connection.cpp:178-183 | while every connection registers once and keeps name and host, each count is the number of live sessions |
| SessionTracker.RunLeaks | src/simple-sftpd/core/connection.cpp:442-513 | with any number of logins on each connection a count exceeds the live sessions by exactly the registrations that a later one on the same connection has replaced |
| SessionTracker.RepeatedLoginsLeak | src/simple-sftpd/core/connection.cpp:442-513 | n logins on one connection count n for one live session, and closing it leaves n - 1 for none |
| SessionTracker.CloseExactly | src/simple-sftpd/core/connection.cpp:178-183 | closing keeps the counts exact if and only if name and host are still those registered, or the new host has no counter |
| Base64.Base64Encode | src/simple-sftpd/security/password.cpp:36-70 | the encoding loop computes the recursive encoding |
| Base64.DecodeQuad | src/simple-sftpd/security/password.cpp:90-106 | the character loop accepts padding at the end of a group only |
| Base64.Base64Decode | src/simple-sftpd/security/password.cpp:72-122 | the decoding loop computes the recursive decoding, failures included |
| Base64.EncodedLength | src/simple-sftpd/security/password.cpp:36-70 | four characters for each started group of three bytes |
| Base64.DigitIsAlphabet | src/simple-sftpd/security/password.cpp:33-34 | each six-bit value is written as its character of the alphabet |
| Base64.TestVectors | src/simple-sftpd/security/password.cpp:36-70 | three encodings given in section 10 of RFC 4648 |
| Base64.DecodeEncode | src/simple-sftpd/security/password.cpp:36-122 | decoding undoes encoding on every byte sequence |
| Base64.EncodeDecode | src/simple-sftpd/security/password.cpp:72-122 | re-encoding accepted text gives it back if and only if the text is canonical |
| Base64.EncodeIsCanonical | src/simple-sftpd/security/password.cpp:36-70 | what the encoder writes is canonical |
| Base64.UnpaddedText | src/simple-sftpd/security/password.cpp:72-122 | accepted text without padding is given back |
| Base64.NonCanonicalAccepted | src/simple-sftpd/security/password.cpp:89-119 | texts that no encoder writes are accepted: stray bits, an empty group, padding in mid-text |
| Bits.FoldIsZero | src/simple-sftpd/security/password.cpp:149 | or-ing in an exclusive or keeps a difference zero exactly when it was zero and the bytes agree |
| Bits.LowByte | src/simple-sftpd/security/password.cpp:145 | the cast to a byte is the remainder by 256 |
| Password.ConstantTimeEquals | src/simple-sftpd/security/password.cpp:141-152 | the loop decides equality up to NUL padding and lengths modulo 256 |
| Password.SameTextExactly | src/simple-sftpd/security/password.cpp:141-152 | accepted if and only if the longer text is the shorter one followed by a multiple of 256 NULs |
| Password.SameTextOnNulFree | src/simple-sftpd/security/password.cpp:141-152 | on texts without NUL it decides equality |
| Password.NulPaddingAccepted | src/simple-sftpd/security/password.cpp:145 | every text is taken for itself followed by 256 NULs |
| Password.Hash | src/simple-sftpd/security/password.cpp:158-175 | the stored form, or nothing when the generator or the derivation fails |
| Password.Verify | src/simple-sftpd/security/password.cpp:177-221 | plaintext comparison for legacy entries, parse and derive for records |
| Password.ParsePrint | src/simple-sftpd/security/password.cpp:173-213 | the printed record is read back exactly, if and only if the count is accepted and the salt not empty |
| Password.PrintedFields | src/simple-sftpd/security/password.cpp:173-175 | a record split at its dollar signs: the scheme, the count in decimal, the salt and the digest in Base64 |
| Password.HashRecords | src/simple-sftpd/security/password.cpp:158-175 | a new hash records the count asked for or 210000, the salt, and the key derived with both; it is empty if and only if the generator or the derivation fails |
| Password.VerifyMalformed | src/simple-sftpd/security/password.cpp:177-221 | entries without the prefix are compared as plaintext; text with fewer than five fields is never accepted |
| Password.VerifyHash | src/simple-sftpd/security/password.cpp:158-221 | for every plaintext, salt and 32-bit count: another plaintext verifies if and only if its derived key is the same and the count is at most 100000000 |
| UserStore.CredentialShape | src/simple-sftpd/user/user.cpp:54-72 | a credential is hashed, or kept as it was, exactly when it was hashed or hashing succeeded or failed |
| UserStore.CredentialIdempotent | src/simple-sftpd/user/user.cpp:54-68 | a hashed credential is not hashed again, whatever the generator does |
| UserStore.MigratedVerifies | src/simple-sftpd/user/user.cpp:54-79 | after migration exactly the passwords with the same derived key are taken |
| UserStore.MigrationKeepsPasswords | src/simple-sftpd/user/user.cpp:54-79 | a NUL-free password taken against the plaintext entry is still taken |
| UserStore.MigrationCanReject | src/simple-sftpd/security/password.cpp:141-181 | with NULs a password that was taken can be refused after migration |
| UserStore.FTPUserManager.LoadUsers | src/simple-sftpd/user/user_manager.cpp:123-209 | accounts, file and result for a missing, a broken and a good file, with the rewrite after a migration and the exception that it may throw |
| UserStore.FTPUserManager.FillUsers | src/simple-sftpd/user/user_manager.cpp:153-194 | the record loop loads complete records, the later of two for one name, and reports a migration exactly when one took place |
| UserStore.FTPUserManager.SaveUsers | src/simple-sftpd/user/user_manager.cpp:216-277 | throws when the directory cannot be made, fails when the file cannot be opened; otherwise succeeds, and the file holds each account once or, if writing breaks off, nothing that parses |
| UserStore.FTPUserManager.Listing | src/simple-sftpd/user/user_manager.cpp:233-257 | the saving loop lists every account once, in any order |
| UserStore.FTPUserManager.AddUser | src/simple-sftpd/user/user_manager.cpp:42-58 | adds or replaces under the user name, then saves |
| UserStore.FTPUserManager.RemoveUser | src/simple-sftpd/user/user_manager.cpp:60-80 | removes exactly that name, and saves only then |
| UserStore.FTPUserManager.AuthenticateUser | src/simple-sftpd/user/user_manager.cpp:91-97 | known, not expired, and verified against the stored credential |
| UserStore.LoadedFrom | src/simple-sftpd/user/user_manager.cpp:155-194 | each account comes from the last complete record with its name |
| UserStore.LoadedMembers | src/simple-sftpd/user/user_manager.cpp:155-192 | member by member, what a loaded account takes from its record and what it gets for an absent member |
| UserStore.LoadedIsHashed | src/simple-sftpd/user/user_manager.cpp:162-168 | after loading every credential is hashed, provided that hashing succeeds |
| UserStore.LoadKeepsPasswords | src/simple-sftpd/user/user_manager.cpp:153-194 | whoever the file let in with a NUL-free password is still let in |
| UserStore.SaveThenLoad | src/simple-sftpd/user/user_manager.cpp:148-277 | saving and loading reproduces the accounts if and only if no plaintext among them gets hashed |
| UserStore.MigrationSettles | src/simple-sftpd/user/user_manager.cpp:202-208 | a rewritten file loads to the same accounts under any generator, with no further rewrite |
| FileCache.FileCache.Get | src/simple-sftpd/utils/file_cache.cpp:31-48 | a hit, an expired entry dropped, or a miss, with the counters |
| FileCache.FileCache.Put | src/simple-sftpd/utils/file_cache.cpp:50-61 | room is made only when full, even if the path is stored, then the entry is replaced |
| FileCache.FileCache.Invalidate | src/simple-sftpd/utils/file_cache.cpp:63-66 | drops that path only |
| FileCache.FileCache.Clear | src/simple-sftpd/utils/file_cache.cpp:68-71 | drops everything, keeps the counters |
| FileCache.FileCache.EvictOldEntries | src/simple-sftpd/utils/file_cache.cpp:78-106 | every expired entry goes, then just enough live ones, none newer than a survivor |
| FileCache.FileCache.RemoveExpired | src/simple-sftpd/utils/file_cache.cpp:79-87 | the scan keeps exactly the unexpired entries |
| FileCache.FileCache.KeysByTime | src/simple-sftpd/utils/file_cache.cpp:91-99 | the stored paths, each once, oldest first |
| FileCache.OldestErased | src/simple-sftpd/utils/file_cache.cpp:101-104 | erasing the first n leaves no older entry and the exact number |
| FileCache.RecentSurvives | src/simple-sftpd/utils/file_cache.cpp:78-106 | a live entry survives eviction if fewer live entries than the limit are as recent |
| FileCache.ExpiredExactly | src/simple-sftpd/utils/file_cache.cpp:108-112 | an entry expires exactly when it is a whole second older than the time to live |
| CacheRuns.SizeBounded | src/simple-sftpd/utils/file_cache.cpp:50-61 | after any history at most max(1, limit) entries |
| CacheRuns.HitsAndMisses | src/simple-sftpd/utils/file_cache.cpp:31-48 | the hits counted are the gets that returned a value, and hits plus misses is the number of gets |
| CacheRuns.HitIsLastPut | src/simple-sftpd/utils/file_cache.cpp:31-71 | a hit returns the last value put since the path was invalidated or the cache cleared, with an age within the time to live |
| CacheRuns.KeptBelowCapacity | src/simple-sftpd/utils/file_cache.cpp:50-61 | a value that stays unexpired is not lost while later puts find room |
| CacheRuns.KeptWhileRecent | src/simple-sftpd/utils/file_cache.cpp:78-106 | nor, however full the cache, while fewer puts than the limit follow |
| CacheRuns.GetFindsPut | src/simple-sftpd/utils/file_cache.cpp:31-61 | under a monotone clock such a value is found exactly when it has not expired |
| CacheRuns.GetFindsPutInTime | src/simple-sftpd/utils/file_cache.cpp:31-61 | the same in clock ticks: found if and only if less than one second more than the time to live has passed |
| CacheRuns.PutEvicts | src/simple-sftpd/utils/file_cache.cpp:50-106 | what a put into a full cache leaves: no expired entry, of the others all or one less than the limit, none older than any that is dropped |
| AccessControl.MatchesCIDR | src/simple-sftpd/security/ip_access_control.cpp:73-116 | parsing, byte loop and mask compute the verdict, with the exceptions `stoi` throws |
| AccessControl.CompareBytes | src/simple-sftpd/security/ip_access_control.cpp:98-115 | the loop over whole bytes and the masked byte after it |
| AccessControl.CompareIsPrefix | src/simple-sftpd/security/ip_access_control.cpp:98-115 | for prefixes 0 to 32, a match if and only if the addresses agree after division by 2^(32-p) |
| AccessControl.MatchDotted | src/simple-sftpd/security/ip_access_control.cpp:73-116 | the same for addresses and entries as text |
| AccessControl.MatchIsEquivalence | src/simple-sftpd/security/ip_access_control.cpp:98-115 | for each prefix length matching is an equivalence |
| AccessControl.ShorterPrefix | src/simple-sftpd/security/ip_access_control.cpp:98-115 | a match implies a match at every shorter prefix |
| AccessControl.OddPrefixes | src/simple-sftpd/security/ip_access_control.cpp:79-113 | what prefixes outside 0 to 32 do |
| AccessControl.IPAccessControl.IsAllowed | src/simple-sftpd/security/ip_access_control.cpp:38-63 | over entries that give a verdict: an address named by a deny entry is denied, any other is allowed if and only if the allow list is empty or names it |
| AccessControl.IPAccessControl.ScanList | src/simple-sftpd/security/ip_access_control.cpp:40-45 | the scan ends at the first entry that matches or fails |
| AccessControl.DecidesByMembership | src/simple-sftpd/security/ip_access_control.cpp:38-63 | the same of the decision, for all lists of such entries |
| AccessControl.FailsExactly | src/simple-sftpd/security/ip_access_control.cpp:38-63 | the decision throws, or reads past an address, if and only if such an entry comes before any that names the address: in the deny list, or in the allow list after a deny list that decides nothing |
| AccessControl.MatchPlain | src/simple-sftpd/security/ip_access_control.cpp:73-77 | an entry without a prefix length matches itself only |
| AccessControl.OrderIndependent | src/simple-sftpd/security/ip_access_control.cpp:40-57 | the order of one list is irrelevant if and only if its deciding entries agree, in particular when none throws |
| AccessControl.DecisionOrderIndependent | src/simple-sftpd/security/ip_access_control.cpp:38-63 | the order of both lists is irrelevant to the decision if and only if the deny list agrees and, unless it decides, the allow list does |

## Left out

- Symbolic links and `weakly_canonical`: paths are compared by their lexical normal form, and nothing changes on disk between a check and its use.
- A trailing slash, which `std::filesystem::path` keeps as an empty last component, and relative paths resolved against the directory of the process.
- Control-connection I/O: reading and splitting command lines, upper-casing verbs, failed sends, the SITE sub-command syntax, and the text of replies; only reply codes are modelled.
- Connection.FTPConnection.Serve: commands without effect on the modelled session (PWD, MDTM, MLST, STAT, HELP, FEAT, OPTS, NOOP, TYPE, ALLO) are one command `Other` whose reply code is an argument.
- Connection.FTPConnection.constructor: loading the user file and adding the default test and anonymous accounts are not part of it; the accounts are part of the configuration.
- TLS (AUTH, PBSZ, PROT), PAM itself, chroot and privilege changes.
- zlib: the inflated bytes of a compressed upload and whether the stream succeeds are arguments; the bytes of a compressed download are not modelled.
- The throttle of compressed transfers, which uses the same arithmetic.
- Descriptors: handlers close `data_fd` without resetting `data_socket_`, so nothing is claimed about each descriptor being closed once.
- Connection.FTPConnection.SendFile: with mmap and a negative restart offset, where the mapping would be read before its start, the session takes the read to fail; `Transfer.Retrieve` leaves that case open.
- Transfer.Delay: 64-bit overflow of rate times elapsed time is not modelled.
- Connection.FTPConnection.HandlePORT: 32-bit overflow in the port arithmetic is not modelled.
- Status calls on one path within one command all get the same answer.
- SessionTracker.RunExact: covers one registration per connection; `SessionTracker.RunLeaks` covers the others.
- SessionTracker.LimitUnderInterleaving: the server steps are those of the counters only; how a connection comes to its names is not modelled there.
- RateLimiter.ServerLoop: the access lists and the connection limit, which the accept loop consults before and after the limiter, are not part of the loop.
- RateLimiter.TwoWindowBound: needs a positive clock that never runs backwards, because the limiter takes a window start equal to the epoch for unset.
- CacheRuns.KeptWhileRecent: needs the puts stamped at increasing times; between equal times `std::sort` may put either entry first.
- The connection limit of the accept loop and the performance counters.
- Accounts are values: code that holds a pointer to an account inside the user map and changes it there is not modelled.
- JSON text and type conversions of `jsoncpp`; a user file is a list of records with optional members.
- Password.Hash: the derivation is an uninterpreted function, and passwords longer than 2^31 - 1 bytes, whose length the cast to `int` would change, are not modelled.
- Password.SameTextExactly: assumes characters of one byte, as C++ strings have.
- Locks: the methods of the cache, the limiter, the counters and the user map are taken as atomic, as their mutexes make them.
- AccessControl.MatchesCIDR: reading past the four bytes, undefined in C++, is the verdict `Undefined`.
- Configuration loading, logging, compression formats, virtual host administration and the vulnerability scanner.
