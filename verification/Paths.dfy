/**
 Paths as `std::filesystem::path` iterates them: a sequence of components in
 which the root directory of an absolute path is a component of its own.
 Normalisation is the lexical normal form: "." and empty components vanish,
 ".." removes the component before it and is absorbed by the root.
 */
module Paths {
  import opened Sequences
  import opened Text

  type Path = seq<string>

  const ROOT: string := "/"

  // ----- Reading and writing the text of a path -----

  predicate IsName(c: string) {
    c != "" && '/' !in c
  }

  // A component list some text denotes: names, after at most one root.
  predicate WellFormed(p: Path) {
    forall i :: 0 <= i < |p| ==> IsName(p[i]) || (i == 0 && p[i] == ROOT)
  }

  function NonEmpty(parts: seq<string>): (r: seq<string>)
    ensures forall c :: c in r ==> c in parts && c != ""
  {
    if parts == [] then []
    else (if parts[0] == "" then [] else [parts[0]]) + NonEmpty(parts[1..])
  }

  predicate IsAbsolute(s: string) {
    s != "" && s[0] == '/'
  }

  // The components without the root: `path.relative_path()`.
  function RelativeComponents(s: string): (p: Path)
    ensures forall c :: c in p ==> IsName(c)
  {
    NonEmpty(Split(s, '/'))
  }

  function Components(s: string): (p: Path)
    ensures WellFormed(p)
  {
    (if IsAbsolute(s) then [ROOT] else []) + RelativeComponents(s)
  }

  function Render(p: Path): string {
    if p != [] && p[0] == ROOT then "/" + Join(p[1..], '/') else Join(p, '/')
  }

  lemma {:induction false} NonEmptyConcat(a: seq<string>, b: seq<string>)
    ensures NonEmpty(a + b) == NonEmpty(a) + NonEmpty(b)
  {
    if a == [] {
      assert a + b == b;
    } else {
      assert (a + b)[1..] == a[1..] + b;
      NonEmptyConcat(a[1..], b);
    }
  }

  lemma {:induction false} NonEmptyNames(p: seq<string>)
    requires forall c :: c in p ==> c != ""
    ensures NonEmpty(p) == p
  {
    if p != [] {
      assert p == [p[0]] + p[1..];
      assert p[0] in p && forall c :: c in p[1..] ==> c in p;
      NonEmptyNames(p[1..]);
    }
  }

  lemma ComponentsOfNames(names: Path)
    requires forall c :: c in names ==> IsName(c)
    ensures RelativeComponents(Join(names, '/')) == names
    ensures !IsAbsolute(Join(names, '/'))
  {
    if names == [] {
      assert Split("", '/') == [""];
      assert NonEmpty([""]) == NonEmpty([""][1..]);
    } else {
      SplitJoin(names, '/');
      NonEmptyNames(names);
      assert names[0] in names;
    }
  }

  // Writing a component list and reading it back gives the list.
  lemma ComponentsOfRender(p: Path)
    requires WellFormed(p)
    ensures Components(Render(p)) == p
  {
    if p != [] && p[0] == ROOT {
      var names := p[1..];
      var text := Join(names, '/');
      forall c | c in names ensures IsName(c) {
        var i :| 0 <= i < |names| && names[i] == c;
        assert p[i + 1] == c;
      }
      ComponentsOfNames(names);
      assert Split("/" + text, '/') == [""] + Split(text, '/') by {
        assert ("/" + text)[1..] == text;
      }
      assert NonEmpty([""] + Split(text, '/')) == RelativeComponents(text) by {
        assert ([""] + Split(text, '/'))[1..] == Split(text, '/');
      }
      assert p == [ROOT] + names;
    } else {
      forall c | c in p ensures IsName(c) {
        var i :| 0 <= i < |p| && p[i] == c;
      }
      ComponentsOfNames(p);
    }
  }

  // Appending "/" and more text appends the components of the text.
  lemma ComponentsOfAppend(base: string, rest: string)
    requires base != ""
    ensures Components(base + "/" + rest) == Components(base) + RelativeComponents(rest)
  {
    SplitConcat(base, '/', rest);
    NonEmptyConcat(Split(base, '/'), Split(rest, '/'));
    assert base + "/" + rest == base + ['/'] + rest;
  }

  // ----- The lexical normal form -----

  // What one more component does to the components kept so far.
  function Push(kept: Path, c: string): Path {
    if c == "" || c == "." then kept
    else if c != ".." then kept + [c]
    else if kept == [] || Last(kept) == ".." then kept + [".."]
    else if Last(kept) == ROOT then kept
    else Front(kept)
  }

  function Fold(p: Path): Path {
    if p == [] then [] else Push(Fold(Front(p)), Last(p))
  }

  function Normalize(p: Path): Path {
    var kept := Fold(p);
    if kept == [] && p != [] then ["."] else kept
  }

  // The normal form of a path given as text.
  function Norm(s: string): Path {
    Normalize(Components(s))
  }

  predicate IsPlain(c: string) {
    IsName(c) && c != "." && c != ".."
  }

  // Shape of an absolute normal path: the root, then plain names only.
  predicate IsAbsoluteNormal(p: Path) {
    p != [] && p[0] == ROOT && forall i :: 0 < i < |p| ==> IsPlain(p[i])
  }

  // Shape of a relative normal path: ".."s, then plain names.
  predicate IsRelativeNormal(p: Path) {
    && (forall i :: 0 <= i < |p| ==> p[i] == ".." || IsPlain(p[i]))
    && (forall i :: 0 < i < |p| && p[i] == ".." ==> p[i - 1] == "..")
  }

  lemma {:induction false} FoldShape(p: Path)
    requires WellFormed(p)
    ensures p != [] && p[0] == ROOT ==> IsAbsoluteNormal(Fold(p))
    ensures p == [] || p[0] != ROOT ==> IsRelativeNormal(Fold(p))
  {
    if p != [] {
      var front := Front(p);
      assert WellFormed(front);
      FoldShape(front);
      if |p| == 1 {
        assert Fold(front) == [];
      }
    }
  }

  lemma {:induction false} FoldFixed(p: Path)
    requires IsAbsoluteNormal(p) || IsRelativeNormal(p)
    ensures Fold(p) == p
  {
    if p != [] {
      var front := Front(p);
      if |p| == 1 {
        assert front == [];
        assert Fold(front) == [];
      } else {
        assert IsAbsoluteNormal(p) ==> IsAbsoluteNormal(front);
        assert IsRelativeNormal(p) ==> IsRelativeNormal(front);
        FoldFixed(front);
        assert Last(p) == ".." ==> Last(front) == "..";
      }
      assert p == front + [Last(p)];
    }
  }

  // Normalising a second time changes nothing.
  lemma NormalizeIdempotent(p: Path)
    requires WellFormed(p)
    ensures WellFormed(Normalize(p))
    ensures Normalize(Normalize(p)) == Normalize(p)
  {
    FoldShape(p);
    var kept := Fold(p);
    if kept == [] && p != [] {
      assert Front(["."]) == [];
      assert Fold(["."]) == [];
    } else {
      FoldFixed(kept);
    }
  }

  // Text written from a normal form denotes that normal form.
  lemma NormOfRender(p: Path)
    requires WellFormed(p)
    ensures Components(Render(Normalize(p))) == Normalize(p)
    ensures Norm(Render(Normalize(p))) == Normalize(p)
  {
    NormalizeIdempotent(p);
    ComponentsOfRender(Normalize(p));
  }

  lemma NormAbsolute(s: string)
    requires IsAbsolute(s)
    ensures IsAbsoluteNormal(Norm(s))
  {
    FoldShape(Components(s));
  }

  // ----- Containment -----

  // `child` is `parent` or lives underneath it.
  predicate Within(child: Path, parent: Path) {
    parent <= child
  }

  // The component loop of `isWithin`.
  method IsWithin(child: Path, parent: Path) returns (r: bool)
    ensures r == Within(child, parent)
  {
    var i := 0;
    while i != |parent|
      invariant i <= |parent| && i <= |child|
      invariant child[..i] == parent[..i]
    {
      if i == |child| || child[i] != parent[i] {
        return false;
      }
      i := i + 1;
    }
    return true;
  }

  lemma WithinTransitive(a: Path, b: Path, c: Path)
    requires Within(a, b) && Within(b, c)
    ensures Within(a, c)
  {
    assert a[..|c|] == b[..|c|];
  }

  predicate StartsWith(s: string, prefix: string) {
    prefix <= s
  }

  lemma {:induction false} JoinConcat(a: Path, b: Path)
    requires a != [] && b != []
    ensures Join(a + b, '/') == Join(a, '/') + "/" + Join(b, '/')
  {
    assert (a + b)[1..] == a[1..] + b;
    if |a| > 1 {
      JoinConcat(a[1..], b);
    }
  }

  lemma RenderExtension(parent: Path, rest: Path)
    requires |parent| > 1 && parent[0] == ROOT && rest != []
    ensures Render(parent + rest) == Render(parent) + "/" + Join(rest, '/')
  {
    hide Join;
    var whole := parent + rest;
    JoinConcat(parent[1..], rest);
    assert whole[1..] == parent[1..] + rest;
    assert whole[0] == ROOT;
  }

  lemma WithinFromText(child: Path, parent: Path)
    requires WellFormed(child) && WellFormed(parent) && parent != [] && parent[0] == ROOT
    requires StartsWith(Render(child), Render(parent) + "/")
    ensures Within(child, parent)
  {
    var text := Render(parent);
    var rest := Render(child)[|text| + 1..];
    assert Render(child) == text + "/" + rest;
    ComponentsOfAppend(text, rest);
    ComponentsOfRender(child);
    ComponentsOfRender(parent);
  }

  // Containment read off the text: a path is within a directory other than
  // the root exactly when it is the directory or starts with the directory
  // followed by a slash. A sibling that merely shares the directory's
  // characters as a string prefix ("/srv/ftp-old" against "/srv/ftp") is out.
  lemma WithinAsText(child: Path, parent: Path)
    requires IsAbsoluteNormal(child) && IsAbsoluteNormal(parent) && |parent| > 1
    ensures Within(child, parent)
       <==> Render(child) == Render(parent) || StartsWith(Render(child), Render(parent) + "/")
  {
    if Within(child, parent) && child != parent {
      RenderExtension(parent, child[|parent|..]);
      assert child == parent + child[|parent|..];
    }
    if StartsWith(Render(child), Render(parent) + "/") {
      WithinFromText(child, parent);
    }
    ComponentsOfRender(child);
    ComponentsOfRender(parent);
  }
}
