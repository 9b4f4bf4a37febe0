/**
 What path arguments mean: an absolute one is taken from the home directory, a
 relative one from the working directory, component by component.
 */
module Resolution {
  import opened Sequences
  import opened Text
  import opened Paths
  import opened Accounts
  import opened Session

  // ----- Normalising piece by piece -----

  lemma {:induction false} FoldAppend(p: Path, q: Path)
    requires WellFormed(p) && WellFormed(p + q)
    ensures Fold(p + q) == Fold(Fold(p) + q)
  {
    if q == [] {
      FoldShape(p);
      FoldFixed(Fold(p));
      assert p + q == p && Fold(p) + q == Fold(p);
    } else {
      var front := Front(q);
      assert Front(p + q) == p + front && Last(p + q) == Last(q);
      assert Front(Fold(p) + q) == Fold(p) + front && Last(Fold(p) + q) == Last(q);
      assert WellFormed(p + front);
      FoldAppend(p, front);
    }
  }

  // The normal form of a path that starts at the root can be taken of its
  // front first.
  lemma NormalizeAppend(p: Path, q: Path)
    requires WellFormed(p) && p != [] && p[0] == ROOT && forall c :: c in q ==> IsName(c)
    ensures WellFormed(p + q) && Normalize(p + q) == Normalize(Normalize(p) + q)
  {
    FoldShape(p);
    FoldAppend(p, q);
    FoldShape(p + q);
  }

  // One component more on an absolute normal path: a plain name goes below, "."
  // stays, ".." leaves one level, and the root has nothing above it.
  lemma NormalizeStep(p: Path, c: string)
    requires IsAbsoluteNormal(p)
    ensures IsPlain(c) ==> Normalize(p + [c]) == p + [c]
    ensures Normalize(p + ["."]) == p
    ensures Normalize(p + [".."]) == if |p| > 1 then Front(p) else p
  {
    FoldFixed(p);
    assert Front(p + [c]) == p && Front(p + ["."]) == p && Front(p + [".."]) == p;
  }

  lemma {:induction false} NormalizeNames(p: Path, names: Path)
    requires IsAbsoluteNormal(p) && forall c :: c in names ==> IsPlain(c)
    ensures Normalize(p + names) == p + names
  {
    forall i | 0 < i < |p + names| ensures IsPlain((p + names)[i]) {
      if i >= |p| {
        assert (p + names)[i] == names[i - |p|];
      }
    }
    FoldFixed(p + names);
  }

  // ----- Arguments -----

  // The directory that absolute arguments are rooted at.
  function HomeOf(s: State): string {
    if s.user.Some? then s.user.value.home else "/"
  }

  lemma ResolvedPath(s: State, arg: string)
    requires arg != "" && WellFormed(Candidate(s, arg))
    ensures Norm(Resolve(s, arg)) == Normalize(Candidate(s, arg))
  {
    NormOfRender(Candidate(s, arg));
  }

  lemma Rooted(text: string)
    requires IsAbsolute(text)
    ensures Components(text) != [] && Components(text)[0] == ROOT && IsAbsoluteNormal(Norm(text))
  {
    NormAbsolute(text);
  }

  // An absolute argument denotes what its components lead to from the home,
  // whatever the working directory.
  lemma AbsoluteArgument(s: State, arg: string, directory: string)
    requires IsAbsolute(arg) && IsAbsolute(HomeOf(s))
    ensures Norm(Resolve(s, arg)) == Normalize(Norm(HomeOf(s)) + RelativeComponents(arg))
    ensures Resolve(s.(directory := directory), arg) == Resolve(s, arg)
  {
    hide Norm, Normalize, Render, RelativeComponents;
    Rooted(HomeOf(s));
    var p := Components(HomeOf(s)) + RelativeComponents(arg);
    assert Candidate(s, arg) == p;
    assert Candidate(s.(directory := directory), arg) == p;
    assert Norm(HomeOf(s)) == Normalize(Components(HomeOf(s))) by { NormIs(HomeOf(s)); }
    NormalizeAppend(Components(HomeOf(s)), RelativeComponents(arg));
    ResolvedPath(s, arg);
  }

  lemma NormIs(text: string)
    ensures Norm(text) == Normalize(Components(text))
  {
  }

  lemma RootedNames(names: Path)
    requires forall c :: c in names ==> IsPlain(c)
    ensures IsAbsolute("/" + Join(names, '/')) && RelativeComponents("/" + Join(names, '/')) == names
  {
    var p := [ROOT] + names;
    assert p[1..] == names;
    forall i | 0 <= i < |p| ensures IsName(p[i]) || (i == 0 && p[i] == ROOT) {
      if i > 0 {
        assert p[i] == names[i - 1] && names[i - 1] in names;
      }
    }
    ComponentsOfRender(p);
    var text := "/" + Join(names, '/');
    assert Components(text) == [ROOT] + RelativeComponents(text);
    assert Components(text)[1..] == RelativeComponents(text);
  }

  // "/" and plain names are those names under the home.
  lemma AbsoluteNames(s: State, names: Path)
    requires IsAbsolute(HomeOf(s)) && forall c :: c in names ==> IsPlain(c)
    ensures Norm(Resolve(s, "/" + Join(names, '/'))) == Norm(HomeOf(s)) + names
  {
    hide Norm, Normalize, Resolve;
    hide RelativeComponents, Join;
    var arg := "/" + Join(names, '/');
    RootedNames(names);
    AbsoluteArgument(s, arg, "");
    Rooted(HomeOf(s));
    NormalizeNames(Norm(HomeOf(s)), names);
  }

  // A relative argument denotes what its components lead to from the working
  // directory, whatever the home; the empty one denotes the directory itself.
  lemma RelativeArgument(s: State, arg: string, user: Option<User>)
    requires !IsAbsolute(arg) && IsAbsolute(s.directory)
    ensures Norm(Resolve(s, arg)) == Normalize(Norm(s.directory) + RelativeComponents(arg))
    ensures Resolve(s.(user := user), arg) == Resolve(s, arg)
  {
    hide Norm, Render, RelativeComponents, Fold;
    Rooted(s.directory);
    var p := Components(s.directory) + RelativeComponents(arg);
    NormalizeAppend(Components(s.directory), RelativeComponents(arg));
    NormIs(s.directory);
    if arg == "" {
      NothingRelative();
      assert p == Components(s.directory);
      assert Norm(s.directory) + [] == Norm(s.directory);
      NormalizeIdempotent(Components(s.directory));
    } else {
      assert Components(arg) == RelativeComponents(arg) by { assert Components(arg) == [] + RelativeComponents(arg); }
      assert Candidate(s, arg) == p;
      ResolvedPath(s, arg);
    }
  }

  lemma NothingRelative()
    ensures RelativeComponents("") == []
  {
    ComponentsOfRender([]);
    assert Components("") == [] + RelativeComponents("");
  }

  // Plain names are those names under the working directory, "." is the
  // directory, and ".." the one above it.
  lemma RelativeNames(s: State, names: Path)
    requires IsAbsolute(s.directory) && forall c :: c in names ==> IsPlain(c)
    ensures Norm(Resolve(s, Join(names, '/'))) == Norm(s.directory) + names
    ensures Norm(Resolve(s, ".")) == Norm(s.directory)
    ensures Norm(Resolve(s, "..")) ==
      if |Norm(s.directory)| > 1 then Front(Norm(s.directory)) else Norm(s.directory)
  {
    hide Norm, Normalize, Resolve, RelativeComponents;
    Rooted(s.directory);
    ComponentsOfNames(names);
    RelativeArgument(s, Join(names, '/'), s.user);
    NormalizeNames(Norm(s.directory), names);
    OneComponent(".");
    OneComponent("..");
    RelativeArgument(s, ".", s.user);
    RelativeArgument(s, "..", s.user);
    NormalizeStep(Norm(s.directory), ".");
  }

  lemma OneComponent(c: string)
    requires IsName(c)
    ensures RelativeComponents(c) == [c] && !IsAbsolute(c)
  {
    ComponentsOfNames([c]);
  }

  // ----- Scopes -----

  // A scope of plain names grants its operation exactly below the directory of
  // those names under the home.
  lemma ScopeUnderHome(home: string, operation: string, names: Path, path: string)
    requires IsAbsolute(home) && ':' !in operation && names != [] && forall c :: c in names ==> IsPlain(c)
    ensures Grants(operation + ":/" + Join(names, '/'), home, operation, path) <==>
      path != "" && Within(Norm(path), Norm(home) + names)
  {
    hide Norm, Operation, Unscoped, ScopeRoot, Join;
    ScopeOfNames(home, operation, names);
  }

  lemma ScopeOfNames(home: string, operation: string, names: Path)
    requires IsAbsolute(home) && ':' !in operation && names != [] && forall c :: c in names ==> IsPlain(c)
    ensures var entry := operation + ":/" + Join(names, '/');
      Operation(entry) == operation && !Unscoped(entry) && ScopeRoot(entry, home) == Norm(home) + names
  {
    hide Norm, Normalize, Join, RelativeComponents, Components, IsPlain;
    var scope := "/" + Join(names, '/');
    var entry := operation + ":/" + Join(names, '/');
    assert entry == operation + [':'] + scope;
    FindAt(operation, ':', scope);
    assert entry[|operation| + 1..] == scope && entry[..|operation|] == operation;
    RootedNames(names);
    NamesHaveText(names);
    HomeAndNames(home, names);
  }

  lemma NamesHaveText(names: Path)
    requires names != [] && forall c :: c in names ==> IsPlain(c)
    ensures Join(names, '/') != ""
  {
    ComponentsOfNames(names);
    NothingRelative();
  }

  lemma HomeAndNames(home: string, names: Path)
    requires IsAbsolute(home) && forall c :: c in names ==> IsPlain(c)
    ensures Normalize(Components(home) + names) == Norm(home) + names
  {
    hide Norm, Normalize, Components;
    Rooted(home);
    NormalizeAppend(Components(home), names);
    NormIs(home);
    NormalizeNames(Norm(home), names);
  }
}
