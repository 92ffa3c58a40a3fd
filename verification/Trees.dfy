/** Workspace trees as the restore planner sees them: a path is its list of components. */
module Trees {
  type Path = seq<string>

  datatype Entry = Directory | File(blob: string, executable: bool) | Symlink(text: string)

  type Tree = map<Path, Entry>

  predicate SameKind(x: Entry, y: Entry) {
    x.Directory? == y.Directory? && x.File? == y.File?
  }

  /** Every ancestor of a member is a directory of the tree; the workspace root itself is no member. */
  ghost predicate WellFormed(t: Tree) {
    && [] !in t
    && forall p: Path, k: int :: p in t && 0 < k < |p| ==> p[..k] in t && t[p[..k]] == Directory
  }

  predicate ParentExists(t: Tree, p: Path)
    requires p != []
  {
    |p| == 1 || (p[..|p| - 1] in t && t[p[..|p| - 1]] == Directory)
  }

  predicate HasChild(t: Tree, p: Path) {
    exists c :: c in t && p < c
  }

  lemma RemoveKeepsWellFormed(t: Tree, gone: set<Path>)
    requires WellFormed(t)
    requires forall p :: p in gone && p in t && t[p] == Directory ==> forall c :: c in t && p < c ==> c in gone
    ensures WellFormed(t - gone)
  {
    forall p: Path, k: int | p in t - gone && 0 < k < |p|
      ensures p[..k] in t - gone && (t - gone)[p[..k]] == Directory
    {
      assert p[..k] < p;
    }
  }

  lemma InsertKeepsWellFormed(t: Tree, p: Path, e: Entry)
    requires WellFormed(t) && p != [] && ParentExists(t, p)
    requires p in t ==> t[p] != Directory
    ensures WellFormed(t[p := e])
  {
    forall q: Path, k: int | q in t[p := e] && 0 < k < |q|
      ensures q[..k] in t[p := e] && t[p := e][q[..k]] == Directory
    {
      if q == p {
        if k < |p| - 1 {
          assert p[..k] == p[..|p| - 1][..k];
        }
      } else {
        assert q in t;
        assert q[..k] in t && t[q[..k]] == Directory;
        if q[..k] == p {
          assert false;
        }
      }
    }
  }
}
