/**
 The file system a session works on: a map from normal-form paths to nodes,
 and the operations of `std::filesystem` the handlers use.
 */
module Disk {
  import opened Text
  import opened Paths

  datatype Node = File(content: seq<Byte>, mode: nat) | Directory(mode: nat)

  type Tree = map<Path, Node>

  // Modes of new nodes under the fixed umask 022.
  const FILE_MODE := 420
  const DIRECTORY_MODE := 493

  function At(d: Tree, q: Path): Option<Node> {
    if q in d then Some(d[q]) else None
  }

  predicate IsFile(d: Tree, q: Path) {
    q in d && d[q].File?
  }

  predicate IsDirectory(d: Tree, q: Path) {
    q in d && d[q].Directory?
  }

  predicate Exists(d: Tree, q: Path) {
    q in d
  }

  // `create_directories` on the parent of `q`: the ancestors it has to make.
  function Ancestors(q: Path): set<Path> {
    set n | 0 < n < |q| :: q[..n]
  }

  lemma AncestorsAreProperPrefixes(q: Path, a: Path)
    ensures a in Ancestors(q) <==> a != [] && a < q
  {
    if a != [] && a < q {
      assert a == q[..|a|];
    }
  }

  function MissingAncestors(d: Tree, q: Path): set<Path> {
    set a | a in Ancestors(q) && a !in d
  }

  predicate AncestorIsFile(d: Tree, q: Path) {
    exists a :: a in Ancestors(q) && IsFile(d, a)
  }

  function MakeAncestors(d: Tree, q: Path): Tree {
    d + map a | a in MissingAncestors(d, q) :: Directory(DIRECTORY_MODE)
  }

  // The same, stopping after the ancestors of length n.
  function MakeAncestorsUpTo(d: Tree, q: Path, n: nat): Tree {
    d + map a | a in MissingAncestors(d, q) && |a| <= n :: Directory(DIRECTORY_MODE)
  }

  // Nothing lives underneath `q`.
  predicate IsEmptyDirectory(d: Tree, q: Path) {
    IsDirectory(d, q) && forall r :: r in d && Within(r, q) ==> r == q
  }

  // `rename` of a file or of a whole directory.
  function Move(d: Tree, from: Path, to: Path): Tree {
    var moved := set r | r in d && Within(r, from) :: to + r[|from|..];
    (map q | q in d && !Within(q, from) :: d[q]) +
    (map q | q in moved :: Relocated(d, from, to, q))
  }

  function Relocated(d: Tree, from: Path, to: Path, q: Path): Node
    requires exists r :: r in d && Within(r, from) && q == to + r[|from|..]
  {
    RelocatedSource(d, from, to, q);
    d[from + q[|to|..]]
  }

  lemma RelocatedSource(d: Tree, from: Path, to: Path, q: Path)
    requires exists r :: r in d && Within(r, from) && q == to + r[|from|..]
    ensures to <= q && from + q[|to|..] in d
  {
    var r :| r in d && Within(r, from) && q == to + r[|from|..];
    assert q[|to|..] == r[|from|..];
    assert r == from + r[|from|..];
  }

  // A rename disturbs nothing outside the two subtrees.
  lemma MoveElsewhere(d: Tree, from: Path, to: Path, q: Path)
    requires !Within(q, from) && !Within(q, to)
    ensures At(Move(d, from, to), q) == At(d, q)
  {
  }

  // A renamed node arrives with its content, and so does everything below it.
  lemma MoveDelivers(d: Tree, from: Path, to: Path, r: Path)
    requires r in d && Within(r, from) && !Within(to, from)
    ensures At(Move(d, from, to), to + r[|from|..]) == Some(d[r])
    ensures At(Move(d, from, to), r) == None || Within(r, to)
  {
    var q := to + r[|from|..];
    assert q[|to|..] == r[|from|..];
    assert r == from + r[|from|..];
    assert q in Move(d, from, to);
  }
}
