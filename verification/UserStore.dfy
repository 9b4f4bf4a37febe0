/**
 The user store, `user_manager.cpp`: accounts are read from and written to a
 JSON user file, and plaintext passwords are hashed on the way in. A user file
 is modelled as the list of its records, each with optional members.
 */
module UserStore {
  import opened Text
  import opened Accounts
  import opened Password

  datatype Entry = Entry(
    username: Option<string>,
    password: Option<string>,
    home: Option<string>,
    permissions: Option<seq<string>>,
    groups: Option<seq<string>>,
    isGuest: Option<bool>,
    expiresAt: Option<int>,
    quota: Option<nat>)

  // What opening and parsing a user file gives.
  datatype Document = Missing | Unparsable | NoUserArray | Users(entries: seq<Entry>)

  // The salt that the random generator gives for the i-th record, if any.
  type Generator = nat -> Option<Salt>

  // ----- Credentials -----

  // Hash a plaintext password, keep a hashed one; keep the plaintext too when
  // hashing fails.
  function Credential(kdf: Kdf, salt: Option<Salt>, password: string): string {
    if IsHashed(password) then password
    else
      var hashed := HashOf(kdf, password, salt, DEFAULT_ITERATIONS);
      if hashed == "" then password else hashed
  }

  // Whether hashing this plaintext would give a record.
  predicate CanHash(kdf: Kdf, salt: Option<Salt>, password: string) {
    salt.Some? && kdf(password, salt.value, AsInt(DEFAULT_ITERATIONS)).Some?
  }

  lemma CredentialShape(kdf: Kdf, salt: Option<Salt>, password: string)
    ensures IsHashed(Credential(kdf, salt, password)) <==> IsHashed(password) || CanHash(kdf, salt, password)
    ensures Credential(kdf, salt, password) == password <==> IsHashed(password) || !CanHash(kdf, salt, password)
  {
    hide Print;
    assert !IsHashed("");
  }

  // Storing a stored credential again changes nothing: hashes are not hashed.
  lemma CredentialIdempotent(kdf: Kdf, salt: Option<Salt>, later: Option<Salt>, password: string)
    requires IsHashed(password) || CanHash(kdf, salt, password)
    ensures Credential(kdf, later, Credential(kdf, salt, password)) == Credential(kdf, salt, password)
  {
    CredentialShape(kdf, salt, password);
  }

  // After migration exactly the passwords with the same derived key are taken.
  lemma MigratedVerifies(kdf: Kdf, salt: Option<Salt>, password: string, q: string)
    requires !IsHashed(password) && CanHash(kdf, salt, password)
    ensures Verifies(kdf, q, Credential(kdf, salt, password)) <==>
      kdf(q, salt.value, AsInt(DEFAULT_ITERATIONS)) == kdf(password, salt.value, AsInt(DEFAULT_ITERATIONS))
  {
    hide Verifies, Print;
    VerifyHash(kdf, password, q, salt.value, DEFAULT_ITERATIONS);
  }

  // Nobody is locked out: a password without NUL that was taken against the
  // entry in the file is still taken against the credential kept for it.
  lemma MigrationKeepsPasswords(kdf: Kdf, salt: Option<Salt>, password: string, q: string)
    requires !IsHashed(password) ==> Octets(q) && Octets(password) && '\0' !in q && '\0' !in password
    requires Verifies(kdf, q, password)
    ensures Verifies(kdf, q, Credential(kdf, salt, password))
  {
    hide SameText, Print, Parse;
    CredentialShape(kdf, salt, password);
    if !IsHashed(password) && CanHash(kdf, salt, password) {
      SameTextOnNulFree(q, password);
      MigratedVerifies(kdf, salt, password, q);
    }
  }

  // With NULs in play the plaintext comparison is looser than the hash: a
  // password that was taken can stop being taken.
  lemma MigrationCanReject(kdf: Kdf, salt: Option<Salt>, password: string)
    requires Octets(password) && !IsHashed(password) && CanHash(kdf, salt, password)
    requires kdf(password + Nuls(256), salt.value, AsInt(DEFAULT_ITERATIONS)) !=
             kdf(password, salt.value, AsInt(DEFAULT_ITERATIONS))
    ensures Verifies(kdf, password + Nuls(256), password)
    ensures !Verifies(kdf, password + Nuls(256), Credential(kdf, salt, password))
  {
    hide Print, Parse;
    MigratedVerifies(kdf, salt, password, password + Nuls(256));
    assert SameText(password + Nuls(256), password) by {
      NulPaddingAccepted(password);
      SameTextSymmetric(password, password + Nuls(256));
    }
  }

  // ----- Loading -----

  predicate Complete(e: Entry) {
    e.username.Some? && e.password.Some? && e.home.Some?
  }

  function Default<T>(o: Option<T>, d: T): T {
    if o.Some? then o.value else d
  }

  // The account built from a complete record.
  function LoadUser(kdf: Kdf, salt: Option<Salt>, e: Entry): User
    requires Complete(e)
  {
    User(e.username.value, Credential(kdf, salt, e.password.value), e.home.value,
         Default(e.permissions, []), Default(e.groups, []), Default(e.isGuest, false),
         Default(e.expiresAt, 0), Default(e.quota, 0))
  }

  // The accounts of a file; incomplete records are skipped, and of two records
  // for one name the later counts.
  function Loaded(kdf: Kdf, rng: Generator, entries: seq<Entry>): map<string, User> {
    if entries == [] then map[]
    else
      var n := |entries| - 1;
      var before := Loaded(kdf, rng, entries[..n]);
      if Complete(entries[n]) then
        before[entries[n].username.value := LoadUser(kdf, rng(n), entries[n])]
      else before
  }

  // Some plaintext password of the file gets hashed, so it must be rewritten.
  predicate Migrates(kdf: Kdf, rng: Generator, entries: seq<Entry>) {
    exists i :: 0 <= i < |entries| && Complete(entries[i]) &&
      !IsHashed(entries[i].password.value) && CanHash(kdf, rng(i), entries[i].password.value)
  }

  ghost predicate WellKeyed(users: map<string, User>) {
    forall k :: k in users ==> users[k].username == k
  }

  ghost predicate AllHashed(users: map<string, User>) {
    forall k :: k in users ==> IsHashed(users[k].credential)
  }

  // Where an account comes from: the last complete record with its name.
  lemma {:induction false} LoadedFrom(kdf: Kdf, rng: Generator, entries: seq<Entry>, k: string) returns (i: nat)
    requires k in Loaded(kdf, rng, entries)
    ensures i < |entries| && Complete(entries[i]) && entries[i].username == Some(k)
    ensures Loaded(kdf, rng, entries)[k] == LoadUser(kdf, rng(i), entries[i])
    ensures forall j :: i < j < |entries| && Complete(entries[j]) ==> entries[j].username != Some(k)
  {
    hide LoadUser;
    var n := |entries| - 1;
    if Complete(entries[n]) && entries[n].username == Some(k) {
      i := n;
    } else {
      i := LoadedFrom(kdf, rng, entries[..n], k);
    }
  }

  lemma {:induction false} CompleteIsLoaded(kdf: Kdf, rng: Generator, entries: seq<Entry>, i: nat)
    requires i < |entries| && Complete(entries[i])
    ensures entries[i].username.value in Loaded(kdf, rng, entries)
  {
    hide LoadUser;
    if i < |entries| - 1 {
      CompleteIsLoaded(kdf, rng, entries[..|entries| - 1], i);
    }
  }

  lemma LoadedIsWellKeyed(kdf: Kdf, rng: Generator, entries: seq<Entry>)
    ensures WellKeyed(Loaded(kdf, rng, entries))
  {
    var users := Loaded(kdf, rng, entries);
    forall k | k in users ensures users[k].username == k {
      var i := LoadedFrom(kdf, rng, entries, k);
    }
  }

  // What an account takes from its record: every member that is there, and for
  // those that are not no restriction, group, expiry or quota.
  lemma LoadedMembers(kdf: Kdf, rng: Generator, entries: seq<Entry>, i: nat)
    requires i < |entries| && Complete(entries[i])
    requires forall j :: i < j < |entries| && Complete(entries[j]) ==> entries[j].username != entries[i].username
    ensures var e, users := entries[i], Loaded(kdf, rng, entries);
      e.username.value in users &&
      var u := users[e.username.value];
      && u.username == e.username.value && u.home == e.home.value
      && (IsHashed(e.password.value) ==> u.credential == e.password.value)
      && (e.permissions.Some? ==> u.permissions == e.permissions.value) && (e.permissions.None? ==> u.permissions == [])
      && (e.groups.Some? ==> u.groups == e.groups.value) && (e.groups.None? ==> u.groups == [])
      && (e.isGuest.Some? ==> u.isGuest == e.isGuest.value) && (e.isGuest.None? ==> !u.isGuest)
      && (e.expiresAt.Some? ==> u.expiresAt == e.expiresAt.value) && (e.expiresAt.None? ==> u.expiresAt == 0)
      && (e.quota.Some? ==> u.quota == e.quota.value) && (e.quota.None? ==> u.quota == 0)
  {
    hide Loaded, IsHashed, HashOf;
    CompleteIsLoaded(kdf, rng, entries, i);
    var last := LoadedFrom(kdf, rng, entries, entries[i].username.value);
    assert last == i;
  }

  // Every credential in memory is hashed, provided that hashing the plaintext
  // ones succeeds.
  lemma LoadedIsHashed(kdf: Kdf, rng: Generator, entries: seq<Entry>)
    requires forall i :: 0 <= i < |entries| && Complete(entries[i]) ==>
      IsHashed(entries[i].password.value) || CanHash(kdf, rng(i), entries[i].password.value)
    ensures AllHashed(Loaded(kdf, rng, entries))
  {
    hide Loaded, Credential;
    var users := Loaded(kdf, rng, entries);
    forall k | k in users ensures IsHashed(users[k].credential) {
      var i := LoadedFrom(kdf, rng, entries, k);
      CredentialShape(kdf, rng(i), entries[i].password.value);
    }
  }

  // For the account k of a loaded file: whoever the file's last record for k
  // let in by a NUL-free password is still let in.
  lemma LoadKeepsPasswords(kdf: Kdf, rng: Generator, entries: seq<Entry>, k: string, i: nat, q: string)
    requires i < |entries| && Complete(entries[i]) && entries[i].username == Some(k)
    requires forall j :: i < j < |entries| && Complete(entries[j]) ==> entries[j].username != Some(k)
    requires Octets(q) && Octets(entries[i].password.value)
    requires '\0' !in q && '\0' !in entries[i].password.value
    requires Verifies(kdf, q, entries[i].password.value)
    ensures k in Loaded(kdf, rng, entries)
    ensures Verifies(kdf, q, Loaded(kdf, rng, entries)[k].credential)
  {
    hide Loaded, Credential, Verifies;
    CompleteIsLoaded(kdf, rng, entries, i);
    var last := LoadedFrom(kdf, rng, entries, k);
    assert last == i;
    MigrationKeepsPasswords(kdf, rng(i), entries[i].password.value, q);
  }

  // ----- Saving -----

  function EntryOf(u: User): Entry {
    Entry(Some(u.username), Some(u.credential), Some(u.home), Some(u.permissions), Some(u.groups),
          Some(u.isGuest), Some(u.expiresAt), Some(u.quota))
  }

  // The records list every account once, in some order.
  ghost predicate Lists(entries: seq<Entry>, users: map<string, User>) {
    && (forall i :: 0 <= i < |entries| ==>
          && entries[i].username.Some? && entries[i].username.value in users
          && entries[i] == EntryOf(users[entries[i].username.value]))
    && (forall i, j :: 0 <= i < j < |entries| ==> entries[i].username != entries[j].username)
    && (forall k :: k in users ==> exists i :: 0 <= i < |entries| && entries[i].username == Some(k))
  }

  // The i-th record is the account's, and loads with its credential passed
  // through `Credential`.
  ghost predicate ReloadedAt(kdf: Kdf, rng: Generator, entries: seq<Entry>, users: map<string, User>, k: string, i: nat)
    requires i < |entries| && k in users
  {
    && entries[i].username == Some(k) && k in Loaded(kdf, rng, entries)
    && Loaded(kdf, rng, entries)[k] == users[k].(credential := Credential(kdf, rng(i), users[k].credential))
  }

  // What a saved file loads as: the same accounts, each credential passed
  // through `Credential` once more.
  lemma LoadedFromListing(kdf: Kdf, rng: Generator, entries: seq<Entry>, users: map<string, User>, k: string)
    requires Lists(entries, users)
    ensures k in Loaded(kdf, rng, entries) <==> k in users
    ensures k in users ==> exists i :: 0 <= i < |entries| && ReloadedAt(kdf, rng, entries, users, k, i)
  {
    hide Loaded, Credential, LoadUser, EntryOf;
    if k in users {
      var i :| 0 <= i < |entries| && entries[i].username == Some(k);
      LoadOfEntry(kdf, rng(i), users[k]);
      CompleteIsLoaded(kdf, rng, entries, i);
    }
    if k in Loaded(kdf, rng, entries) {
      var i := LoadedFrom(kdf, rng, entries, k);
      assert entries[i].username.value == k;
      LoadOfEntry(kdf, rng(i), users[k]);
      assert ReloadedAt(kdf, rng, entries, users, k, i);
    }
  }

  lemma LoadOfEntry(kdf: Kdf, salt: Option<Salt>, u: User)
    ensures Complete(EntryOf(u))
    ensures LoadUser(kdf, salt, EntryOf(u)) == u.(credential := Credential(kdf, salt, u.credential))
  {
    hide Credential;
  }

  // Saving and loading reproduces the accounts exactly when no plaintext
  // credential among them gets hashed, which is also when no rewrite follows.
  lemma SaveThenLoad(kdf: Kdf, rng: Generator, entries: seq<Entry>, users: map<string, User>)
    requires WellKeyed(users) && Lists(entries, users)
    ensures Loaded(kdf, rng, entries) == users <==> !Migrates(kdf, rng, entries)
    ensures AllHashed(users) ==> Loaded(kdf, rng, entries) == users
  {
    hide Loaded, Credential;
    var back := Loaded(kdf, rng, entries);
    if !Migrates(kdf, rng, entries) {
      forall k ensures k in back <==> k in users
               ensures k in users ==> back[k] == users[k]
      {
        LoadedFromListing(kdf, rng, entries, users, k);
        if k in users {
          var i :| 0 <= i < |entries| && ReloadedAt(kdf, rng, entries, users, k, i);
          CredentialShape(kdf, rng(i), users[k].credential);
        }
      }
      assert back == users;
    } else {
      var i :| 0 <= i < |entries| && Complete(entries[i]) &&
        !IsHashed(entries[i].password.value) && CanHash(kdf, rng(i), entries[i].password.value);
      var k := entries[i].username.value;
      LoadedFromListing(kdf, rng, entries, users, k);
      CredentialShape(kdf, rng(i), users[k].credential);
    }
  }

  // A migrated file is settled: loading what was saved after a successful
  // migration gives the same accounts whatever the generator does, and asks
  // for no further rewrite.
  lemma MigrationSettles(kdf: Kdf, rng: Generator, later: Generator, file: seq<Entry>, rewritten: seq<Entry>)
    requires forall i :: 0 <= i < |file| && Complete(file[i]) ==>
      IsHashed(file[i].password.value) || CanHash(kdf, rng(i), file[i].password.value)
    requires Lists(rewritten, Loaded(kdf, rng, file))
    ensures Loaded(kdf, later, rewritten) == Loaded(kdf, rng, file)
    ensures !Migrates(kdf, later, rewritten)
  {
    hide Loaded, Credential;
    LoadedIsHashed(kdf, rng, file);
    LoadedIsWellKeyed(kdf, rng, file);
    SaveThenLoad(kdf, later, rewritten, Loaded(kdf, rng, file));
  }

  // ----- The manager -----

  // True, false, or an exception of the file system library.
  datatype Result = Done | Failed | Threw

  // Whether the directory of a user file can be made, the file opened, and all
  // of it written. A file that breaks off does not parse.
  datatype Writing = Writing(folderOk: bool, fileOk: bool, wholeOk: bool)

  predicate HasParent(name: string) {
    '/' in name
  }

  // How an attempt to save under a name ends.
  function SaveResult(name: string, w: Writing): Result {
    if name == "" then Failed
    else if HasParent(name) && !w.folderOk then Threw
    else if w.fileOk then Done else Failed
  }

  // The user files after an attempt to save the accounts.
  ghost predicate FilesAfter(before: map<string, Document>, after: map<string, Document>,
                             name: string, users: map<string, User>, w: Writing) {
    if SaveResult(name, w).Done? && !w.wholeOk then after == before[name := Unparsable]
    else if SaveResult(name, w).Done? then
      exists entries :: Lists(entries, users) && after == before[name := Users(entries)]
    else after == before
  }

  class FTPUserManager {
    var users: map<string, User>
    var userFile: string

    // The file system, as far as user files go: a name not in the map has no
    // file.
    var files: map<string, Document>

    const kdf: Kdf

    constructor (kdf: Kdf, userFile: string, files: map<string, Document>)
      ensures this.kdf == kdf && users == map[] && this.userFile == userFile && this.files == files
    {
      this.kdf := kdf;
      users := map[];
      this.userFile := userFile;
      this.files := files;
    }

    ghost predicate Valid()
      reads this
    {
      WellKeyed(users)
    }

    function Contents(name: string): Document
      reads this
    {
      if name in files then files[name] else Missing
    }

    // One record per account, in whatever order the map is walked.
    method Listing() returns (entries: seq<Entry>)
      requires Valid()
      ensures Lists(entries, users)
    {
      hide EntryOf;
      entries := [];
      var left := users.Keys;
      while left != {}
        invariant left <= users.Keys
        invariant forall i :: 0 <= i < |entries| ==>
          && entries[i].username.Some? && entries[i].username.value in users.Keys - left
          && entries[i] == EntryOf(users[entries[i].username.value])
        invariant forall i, j :: 0 <= i < j < |entries| ==> entries[i].username != entries[j].username
        invariant forall k :: k in users.Keys - left ==>
          exists i :: 0 <= i < |entries| && entries[i].username == Some(k)
        decreases left
      {
        var k :| k in left;
        EntryOfName(users[k]);
        ghost var before := entries;
        entries := entries + [EntryOf(users[k])];
        left := left - {k};
        assert entries[|before|].username == Some(k);
        assert forall i :: 0 <= i < |before| ==> entries[i] == before[i];
      }
      assert users.Keys - left == users.Keys;
    }

    // The directory is made before the accounts are listed, the file opened
    // after that.
    method SaveUsers(filename: string, w: Writing) returns (r: Result)
      requires Valid()
      modifies `files
      ensures Valid()
      ensures var name := if filename == "" then userFile else filename;
        r == SaveResult(name, w) && FilesAfter(old(files), files, name, users, w)
    {
      var name := if filename == "" then userFile else filename;
      if name == "" {
        return Failed;
      }
      if HasParent(name) && !w.folderOk {
        return Threw;
      }
      var entries := Listing();
      if !w.fileOk {
        return Failed;
      }
      files := files[name := if w.wholeOk then Users(entries) else Unparsable];
      return Done;
    }

    method LoadUsers(filename: string, rng: Generator, w: Writing) returns (r: Result)
      requires Valid()
      modifies `users, `files
      ensures Valid()
      ensures var name := if filename == "" then userFile else filename;
        var doc := old(Contents(name));
        if name == "" || doc.Unparsable? then r == Failed && users == old(users) && files == old(files)
        else if doc.Missing? then r == Done && users == old(users) && files == old(files)
        else if doc.NoUserArray? then r == Failed && users == map[] && files == old(files)
        else
          && users == Loaded(kdf, rng, doc.entries)
          && (if Migrates(kdf, rng, doc.entries)
              then && r == (if SaveResult(name, w).Threw? then Threw else Done)
                   && FilesAfter(old(files), files, name, users, w)
              else r == Done && files == old(files))
    {
      var name := if filename == "" then userFile else filename;
      if name == "" {
        return Failed;
      }
      var doc := Contents(name);
      if doc.Missing? {
        return Done;
      }
      if doc.Unparsable? {
        return Failed;
      }
      users := map[];
      if doc.NoUserArray? {
        return Failed;
      }
      var migrated := FillUsers(rng, doc.entries);
      if migrated {
        var saved := SaveUsers(name, w);
        if saved.Threw? {
          return Threw;
        }
      }
      return Done;
    }

    // The loop over the records of a file.
    method FillUsers(rng: Generator, entries: seq<Entry>) returns (migrated: bool)
      requires users == map[]
      modifies `users
      ensures Valid() && users == Loaded(kdf, rng, entries)
      ensures migrated == Migrates(kdf, rng, entries)
    {
      hide Credential, CanHash, IsHashed;
      migrated := false;
      assert entries[..0] == [];
      for n := 0 to |entries|
        invariant users == Loaded(kdf, rng, entries[..n])
        invariant migrated == Migrates(kdf, rng, entries[..n])
      {
        var e := entries[n];
        assert entries[..n + 1][..n] == entries[..n];
        MigratesStep(kdf, rng, entries, n);
        if Complete(e) {
          var password := e.password.value;
          var wasPlaintext := !IsHashed(password);
          var user := NewUser(e.username.value, Credential(kdf, rng(n), password), e.home.value);
          CredentialShape(kdf, rng(n), password);
          if wasPlaintext && IsHashed(user.credential) {
            migrated := true;
          }
          if e.permissions.Some? {
            user := user.(permissions := e.permissions.value);
          }
          if e.groups.Some? {
            user := user.(groups := e.groups.value);
          }
          if e.isGuest.Some? {
            user := user.(isGuest := e.isGuest.value);
          }
          if e.expiresAt.Some? {
            user := user.(expiresAt := e.expiresAt.value);
          }
          if e.quota.Some? {
            user := user.(quota := e.quota.value);
          }
          users := users[e.username.value := user];
        }
      }
      assert entries[..|entries|] == entries;
      LoadedIsWellKeyed(kdf, rng, entries);
    }

    method AddUser(user: User, w: Writing) returns (r: Result)
      requires Valid()
      modifies `users, `files
      ensures Valid() && users == old(users)[user.username := user]
      ensures r == if userFile != "" && SaveResult(userFile, w).Threw? then Threw else Done
      ensures FilesAfter(old(files), files, userFile, users, w)
    {
      users := users[user.username := user];
      if userFile != "" {
        var saved := SaveUsers("", w);
        if saved.Threw? {
          return Threw;
        }
      }
      return Done;
    }

    method RemoveUser(username: string, w: Writing) returns (r: Result)
      requires Valid()
      modifies `users, `files
      ensures Valid() && users == old(users) - {username}
      ensures r == if username !in old(users) then Failed
                   else if userFile != "" && SaveResult(userFile, w).Threw? then Threw else Done
      ensures if username in old(users) then FilesAfter(old(files), files, userFile, users, w) else files == old(files)
    {
      var removed := false;
      if username in users {
        users := users - {username};
        removed := true;
      }
      if removed {
        if userFile != "" {
          var saved := SaveUsers("", w);
          if saved.Threw? {
            return Threw;
          }
        }
        return Done;
      }
      return Failed;
    }

    method AuthenticateUser(username: string, password: string, now: int) returns (ok: bool)
      ensures ok == (username in users && !Expired(users[username], now) &&
                     Verifies(kdf, password, users[username].credential))
    {
      if username !in users || Expired(users[username], now) {
        return false;
      }
      ok := Verify(kdf, password, users[username].credential);
    }
  }

  lemma EntryOfName(u: User)
    ensures EntryOf(u).username == Some(u.username)
  {
  }

  lemma MigratesStep(kdf: Kdf, rng: Generator, entries: seq<Entry>, n: nat)
    requires n < |entries|
    ensures Migrates(kdf, rng, entries[..n + 1]) <==>
      Migrates(kdf, rng, entries[..n]) ||
      (Complete(entries[n]) && !IsHashed(entries[n].password.value) &&
       CanHash(kdf, rng(n), entries[n].password.value))
  {
    hide IsHashed, CanHash;
    var a, b := entries[..n + 1], entries[..n];
    assert forall i :: 0 <= i < n ==> a[i] == b[i];
    assert a[n] == entries[n];
  }
}
