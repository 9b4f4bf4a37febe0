/**
 User accounts and the permission list of `user.cpp`. An entry of the list is
 a bare operation ("read", "write", "list", "all") or an operation scoped to a
 subtree of the home directory ("write:/uploads").
 */
module Accounts {
  import opened Text
  import opened Paths

  datatype User = User(
    username: string,
    credential: string,
    home: string,
    permissions: seq<string>,
    groups: seq<string>,
    isGuest: bool,
    expiresAt: int,
    quota: nat)

  // A freshly constructed account has no restrictions and no expiry.
  function NewUser(username: string, credential: string, home: string): User {
    User(username, credential, home, [], [], false, 0, 0)
  }

  predicate Expired(u: User, now: int) {
    u.expiresAt > 0 && now > u.expiresAt
  }

  // ----- Permission entries -----

  function Operation(entry: string): string {
    match Find(entry, ':')
    case None => entry
    case Some(k) => entry[..k]
  }

  // An entry without a scope, or with the scope "" or "/", applies everywhere.
  predicate Unscoped(entry: string) {
    match Find(entry, ':')
    case None => true
    case Some(k) => entry[k + 1..] == "" || entry[k + 1..] == "/"
  }

  function ScopeRoot(entry: string, home: string): Path {
    match Find(entry, ':')
    case None => Norm(home)
    case Some(k) => Normalize(Components(home) + RelativeComponents(entry[k + 1..]))
  }

  // What a single entry allows.
  predicate Grants(entry: string, home: string, operation: string, path: string) {
    && (Operation(entry) == operation || Operation(entry) == "all")
    && (Unscoped(entry) || (path != "" && Within(Norm(path), ScopeRoot(entry, home))))
  }

  // An empty list leaves the account unrestricted.
  predicate Permits(u: User, operation: string, path: string) {
    u.permissions == [] || exists e :: e in u.permissions && Grants(e, u.home, operation, path)
  }

  // The search of `FTPUser::hasPermission`, which stops at the first match.
  method HasPermission(u: User, operation: string, path: string) returns (r: bool)
    ensures r == Permits(u, operation, path)
  {
    hide Norm, Normalize, Components, RelativeComponents, Within;
    if u.permissions == [] {
      return true;
    }
    for i := 0 to |u.permissions|
      invariant forall j :: 0 <= j < i ==> !Grants(u.permissions[j], u.home, operation, path)
    {
      var entry := u.permissions[i];
      assert entry in u.permissions;
      var separator := Find(entry, ':');
      var allowed := if separator.None? then entry else entry[..separator.value];
      if allowed != operation && allowed != "all" {
        continue;
      }
      if separator.None? {
        assert Grants(entry, u.home, operation, path);
        return true;
      }
      var scope := entry[separator.value + 1..];
      if scope == "" || scope == "/" {
        assert Grants(entry, u.home, operation, path);
        return true;
      }
      if path == "" {
        continue;
      }
      var inside := IsWithin(Norm(path), Normalize(Components(u.home) + RelativeComponents(scope)));
      assert inside == Grants(entry, u.home, operation, path);
      if inside {
        return true;
      }
    }
    return false;
  }

  // A permission on a directory extends to everything underneath it.
  lemma PermissionInherited(u: User, operation: string, directory: string, path: string)
    requires Permits(u, operation, directory)
    requires path != "" && Within(Norm(path), Norm(directory))
    ensures Permits(u, operation, path)
  {
    if u.permissions != [] {
      var e :| e in u.permissions && Grants(e, u.home, operation, directory);
      if !Unscoped(e) {
        WithinTransitive(Norm(path), Norm(directory), ScopeRoot(e, u.home));
      }
      assert Grants(e, u.home, operation, path);
    }
  }

  // A scope covers its directory and what lies below it, never a sibling
  // whose name merely starts with the same characters.
  lemma ScopeCoversSubtreeOnly(entry: string, home: string, operation: string, path: string)
    requires IsAbsolute(home) && IsAbsolute(path)
    requires !Unscoped(entry) && |ScopeRoot(entry, home)| > 1
    requires Operation(entry) == operation
    ensures IsAbsoluteNormal(ScopeRoot(entry, home))
    ensures Grants(entry, home, operation, path)
       <==> || Render(Norm(path)) == Render(ScopeRoot(entry, home))
            || StartsWith(Render(Norm(path)), Render(ScopeRoot(entry, home)) + "/")
  {
    NormAbsolute(path);
    var k := Find(entry, ':').value;
    var p := Components(home) + RelativeComponents(entry[k + 1..]);
    FoldShape(p);
    WithinAsText(Norm(path), ScopeRoot(entry, home));
  }

  // ----- Adding an entry -----

  function AddPermission(u: User, entry: string): User {
    if entry in u.permissions then u else u.(permissions := u.permissions + [entry])
  }

  lemma AddPermissionEffect(u: User, entry: string, operation: string, path: string)
    ensures Permits(AddPermission(u, entry), operation, path)
       <==> (u.permissions != [] && Permits(u, operation, path)) || Grants(entry, u.home, operation, path)
  {
    var v := AddPermission(u, entry);
    assert entry in v.permissions;
    forall e | e in u.permissions ensures e in v.permissions {}
  }

  // Adding an entry takes nothing away exactly when the list already held an
  // entry or the new one allows everything: the first entry put into an empty
  // list ends the unrestricted access the empty list stood for.
  lemma AddPermissionMonotone(u: User, entry: string)
    ensures (forall operation, path ::
              Permits(u, operation, path) ==> Permits(AddPermission(u, entry), operation, path))
       <==> u.permissions != [] || (Operation(entry) == "all" && Unscoped(entry))
  {
    var v := AddPermission(u, entry);
    forall operation, path
      ensures Permits(v, operation, path)
         <==> (u.permissions != [] && Permits(u, operation, path)) || Grants(entry, u.home, operation, path)
    {
      AddPermissionEffect(u, entry, operation, path);
    }
    if u.permissions == [] && !(Operation(entry) == "all" && Unscoped(entry)) {
      var other := Operation(entry) + "x";
      assert other != Operation(entry) by { assert |other| != |Operation(entry)|; }
      assert !Grants(entry, u.home, other, "");
      assert Permits(u, other, "");
      assert !Permits(v, other, "");
    }
  }
}
