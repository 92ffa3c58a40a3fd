/** Path sets searched through a sorted list: one binary search answers whether anything lies below a directory. */
module PathSearch {
  import opened Wrappers

  // ---- the order ----

  /** `left < right` on strings. */
  predicate Less(a: string, b: string) {
    if b == "" then false
    else if a == "" then true
    else a[0] < b[0] || (a[0] == b[0] && Less(a[1..], b[1..]))
  }

  ghost predicate Sorted(paths: seq<string>) {
    forall i, j :: 0 <= i < j < |paths| ==> !Less(paths[j], paths[i])
  }

  lemma {:induction false} LessIsTransitive(a: string, b: string, c: string)
    requires !Less(b, a) && !Less(c, b)
    ensures !Less(c, a)
  {
    if a != "" && b != "" && c != "" && a[0] == b[0] == c[0] {
      LessIsTransitive(a[1..], b[1..], c[1..]);
    }
  }

  lemma {:induction false} LessIsTotal(a: string, b: string)
    ensures !(Less(a, b) && Less(b, a))
    ensures !Less(a, b) && !Less(b, a) ==> a == b
  {
    if a != "" && b != "" && a[0] == b[0] {
      LessIsTotal(a[1..], b[1..]);
      assert a == [a[0]] + a[1..] && b == [b[0]] + b[1..];
    }
  }

  /** Nothing with a prefix comes before the prefix. */
  lemma {:induction false} PrefixIsNotLess(prefix: string, y: string)
    requires prefix <= y
    ensures !Less(y, prefix)
  {
    if prefix != "" {
      assert prefix[1..] <= y[1..];
      PrefixIsNotLess(prefix[1..], y[1..]);
    }
  }

  /** Whatever lies between a prefix and a string with that prefix has the prefix, too. */
  lemma {:induction false} BetweenHasThePrefix(prefix: string, x: string, y: string)
    requires prefix <= y && !Less(x, prefix) && !Less(y, x)
    ensures prefix <= x
  {
    if prefix != "" && x != "" {
      assert prefix[0] == y[0];
      assert prefix[1..] <= y[1..];
      BetweenHasThePrefix(prefix[1..], x[1..], y[1..]);
      assert prefix == [prefix[0]] + prefix[1..] && x == [x[0]] + x[1..];
    }
  }

  ghost predicate IsLowerBound(paths: seq<string>, target: string, k: nat) {
    && k <= |paths|
    && (forall i :: 0 <= i < k ==> Less(paths[i], target))
    && (forall i :: k <= i < |paths| ==> !Less(paths[i], target))
  }

  /** The lower bound of a prefix finds a member with that prefix if there is one. */
  lemma LowerBoundFindsThePrefix(paths: seq<string>, prefix: string, k: nat)
    requires Sorted(paths) && IsLowerBound(paths, prefix, k)
    ensures (k < |paths| && prefix <= paths[k]) <==> exists p :: p in paths && prefix <= p
  {
    if k < |paths| && prefix <= paths[k] {
      assert paths[k] in paths;
    } else if exists p :: p in paths && prefix <= p {
      var i :| 0 <= i < |paths| && prefix <= paths[i];
      PrefixIsNotLess(prefix, paths[i]);
      if k != i {
        BetweenHasThePrefix(prefix, paths[k], paths[i]);
      }
    }
  }

  /** `lowerBound`. */
  method LowerBound(paths: seq<string>, target: string) returns (low: nat)
    requires Sorted(paths)
    ensures IsLowerBound(paths, target, low)
  {
    low := 0;
    var high := |paths|;
    while low < high
      invariant low <= high <= |paths|
      invariant forall i :: 0 <= i < low ==> Less(paths[i], target)
      invariant forall i :: high <= i < |paths| ==> !Less(paths[i], target)
    {
      var middle := low + (high - low) / 2;
      if Less(paths[middle], target) {
        forall i | 0 <= i <= middle
          ensures Less(paths[i], target)
        {
          if i < middle && !Less(paths[i], target) {
            LessIsTransitive(target, paths[i], paths[middle]);
          }
        }
        low := middle + 1;
      } else {
        forall i | middle <= i < |paths|
          ensures !Less(paths[i], target)
        {
          if i > middle { LessIsTransitive(target, paths[middle], paths[i]); }
        }
        high := middle;
      }
    }
  }

  // ---- sorting a set ----

  ghost predicate SortedMembers(paths: seq<string>, s: set<string>) {
    Sorted(paths) && forall p :: p in paths <==> p in s
  }

  function Insert(p: string, paths: seq<string>): (r: seq<string>)
    ensures forall q :: q in r <==> q == p || q in paths
  {
    if paths == [] then [p]
    else if !Less(paths[0], p) then [p] + paths
    else
      assert paths == [paths[0]] + paths[1..];
      [paths[0]] + Insert(p, paths[1..])
  }

  lemma {:induction false} InsertKeepsSorted(p: string, paths: seq<string>)
    requires Sorted(paths)
    ensures Sorted(Insert(p, paths))
  {
    if paths != [] {
      if !Less(paths[0], p) {
        forall j | 0 <= j < |paths|
          ensures !Less(paths[j], p)
        {
          if j > 0 { LessIsTransitive(p, paths[0], paths[j]); }
        }
      } else {
        var rest := Insert(p, paths[1..]);
        InsertKeepsSorted(p, paths[1..]);
        LessIsTotal(paths[0], p);
        assert forall q :: q in rest ==> q == p || q in paths[1..];
        assert forall j :: 0 <= j < |rest| ==> rest[j] in rest;
      }
    }
  }

  method Sort(s: set<string>) returns (paths: seq<string>)
    ensures SortedMembers(paths, s)
  {
    paths := [];
    var todo := s;
    while todo != {}
      invariant todo <= s && SortedMembers(paths, s - todo)
    {
      var p :| p in todo;
      InsertKeepsSorted(p, paths);
      paths := Insert(p, paths);
      todo := todo - {p};
    }
  }

  // ---- overlapping path sets ----

  function Split(path: string): (parts: seq<string>)
    ensures |parts| > 0
  {
    if path == "" then [""]
    else
      var before, c := Split(path[..|path| - 1]), path[|path| - 1];
      if c == '/' then before + [""] else before[..|before| - 1] + [before[|before| - 1] + [c]]
  }

  predicate IsLetter(c: char) {
    'a' <= c <= 'z' || 'A' <= c <= 'Z'
  }

  /** `assertRelativeCandidate`. */
  predicate RelativeCandidate(path: string) {
    && path != "" && '\0' !in path && '\\' !in path && path[0] != '/'
    && !(|path| >= 2 && IsLetter(path[0]) && path[1] == ':')
    && (path == "." || forall part :: part in Split(path) ==> part !in {"", ".", ".."})
  }

  function Slashed(parts: seq<string>): string {
    if parts == [] then ""
    else if |parts| == 1 then parts[0]
    else Slashed(parts[..|parts| - 1]) + "/" + parts[|parts| - 1]
  }

  /** Joined by slashes the parts are the path, and no part holds a slash. */
  lemma {:induction false} PartsMakeThePath(path: string)
    ensures Slashed(Split(path)) == path && forall part <- Split(path) :: '/' !in part
  {
    if path != "" {
      var front, c := path[..|path| - 1], path[|path| - 1];
      PartsMakeThePath(front);
      var before := Split(front);
      assert front + [c] == path;
      if c == '/' {
        assert (before + [""])[..|before|] == before;
      } else {
        var parts := before[..|before| - 1] + [before[|before| - 1] + [c]];
        assert parts[..|parts| - 1] == before[..|before| - 1];
        assert before[|before| - 1] in before;
      }
    }
  }

  /** Where the parts lead from a root: an empty part and a dot stay, two dots go up, which they cannot at the root. */
  function Resolved(parts: seq<string>): Option<seq<string>> {
    if parts == [] then Some([])
    else match Resolved(parts[..|parts| - 1])
      case None => None
      case Some(at) =>
        var part := parts[|parts| - 1];
        if part in {"", "."} then Some(at)
        else if part != ".." then Some(at + [part])
        else if at == [] then None
        else Some(at[..|at| - 1])
  }

  lemma {:induction false} ResolvesToItself(parts: seq<string>)
    ensures Resolved(parts).Some? ==> |Resolved(parts).value| <= |parts|
    ensures Resolved(parts) == Some(parts) <==> forall part <- parts :: part !in {"", ".", ".."}
  {
    if parts != [] {
      var earlier, last := parts[..|parts| - 1], parts[|parts| - 1];
      ResolvesToItself(earlier);
      assert earlier + [last] == parts;
      if Resolved(earlier).Some? {
        var at := Resolved(earlier).value;
        assert at + [last] == earlier + [last] ==> (at + [last])[..|at|] == at && |at| == |earlier|;
      }
      assert last in parts && forall part <- earlier :: part in parts;
    }
  }

  /** A candidate is a path without NUL, backslash, leading slash or drive letter that is a dot, or that leads from the
      root exactly along its own parts: it stays inside, and there is no second way to write it. */
  lemma {:induction false} CandidatesLeadWhereTheySay(path: string)
    ensures RelativeCandidate(path) <==>
            && path != "" && '\0' !in path && '\\' !in path && path[0] != '/'
            && !(|path| >= 2 && IsLetter(path[0]) && path[1] == ':')
            && (path == "." || Resolved(Split(path)) == Some(Split(path)))
  {
    ResolvesToItself(Split(path));
  }

  /** Equal, or one lies below the other. */
  predicate Related(a: string, b: string) {
    a == b || a + "/" <= b || b + "/" <= a
  }

  ghost predicate Overlap(left: seq<string>, right: seq<string>) {
    exists a, b :: a in left && b in right && Related(a, b)
  }

  /** `lastIndexOf("/", from)`: a negative start counts as zero. */
  function LastSlash(path: string, from: int): (i: int)
    ensures -1 <= i < |path| && (i >= 0 ==> path[i] == '/' && (i <= from || i == 0))
    ensures forall k :: i < k < |path| && k <= from ==> path[k] != '/'
    decreases from
  {
    if path == "" then -1
    else if from < 0 then if path[0] == '/' then 0 else -1
    else if from >= |path| then LastSlash(path, |path| - 1)
    else if path[from] == '/' then from
    else if from == 0 then -1
    else LastSlash(path, from - 1)
  }

  /** One path against the right-hand set: itself, its ancestors, and the first member below it. The walk over the
      ancestors ends because a path does not start with a slash. */
  method Overlaps(path: string, rights: set<string>, sorted: seq<string>) returns (found: bool)
    requires RelativeCandidate(path) && SortedMembers(sorted, rights)
    ensures found <==> exists b :: b in rights && Related(path, b)
  {
    if path in rights { return true; }
    var separator := LastSlash(path, |path| - 1);
    while separator >= 0
      invariant -1 <= separator < |path| && (separator >= 0 ==> path[separator] == '/')
      invariant forall k :: separator < k < |path| && path[k] == '/' ==> path[..k] !in rights
      decreases separator
    {
      if path[..separator] in rights {
        assert path[..separator] + "/" == path[..separator + 1];
        return true;
      }
      separator := LastSlash(path, separator - 1);
    }
    assert forall b :: b + "/" <= path ==> path[..|b|] == b && path[|b|] == '/';
    var prefix := path + "/";
    var k := LowerBound(sorted, prefix);
    LowerBoundFindsThePrefix(sorted, prefix, k);
    return k < |sorted| && prefix <= sorted[k];
  }

  /** `pathSetsOverlap`. */
  method PathSetsOverlap(left: seq<string>, right: seq<string>) returns (r: Result<bool>)
    ensures r.Failed? <==> exists p :: (p in left || p in right) && !RelativeCandidate(p)
    ensures r.Ok? ==> (r.value <==> Overlap(left, right))
  {
    var safe := AllRelative(left);
    if !safe { return Failed; }
    safe := AllRelative(right);
    if !safe { return Failed; }
    var rights := set p | p in right;
    var sorted := Sort(rights);
    for i := 0 to |left|
      invariant forall a, b :: a in left[..i] && b in right ==> !Related(a, b)
    {
      var found := Overlaps(left[i], rights, sorted);
      if found {
        var b :| b in rights && Related(left[i], b);
        assert left[i] in left && b in right;
        return Ok(true);
      }
    }
    assert left[..|left|] == left;
    return Ok(false);
  }

  method AllRelative(paths: seq<string>) returns (all: bool)
    ensures all <==> forall p :: p in paths ==> RelativeCandidate(p)
  {
    for i := 0 to |paths|
      invariant forall p :: p in paths[..i] ==> RelativeCandidate(p)
    {
      if !RelativeCandidate(paths[i]) { return false; }
    }
    assert paths[..|paths|] == paths;
    return true;
  }

  // ---- protected directories ----

  /** `IgnoredProofIndex`: sorted once, at the first question about a directory. */
  class IgnoredProofIndex {
    const exact: set<string>
    var sortedPaths: Option<seq<string>>

    ghost predicate Valid()
      reads this
    {
      sortedPaths.Some? ==> SortedMembers(sortedPaths.value, exact)
    }

    constructor (paths: set<string>)
      ensures Valid() && exact == paths
    {
      exact, sortedPaths := paths, None;
    }

    /** The same answer as a linear scan of the whole set. */
    method IsProtected(path: string, directory: bool) returns (protected: bool)
      requires Valid()
      modifies this
      ensures Valid()
      ensures protected <==> if directory then exists p :: p in exact && path + "/" <= p else path in exact
    {
      if !directory { return path in exact; }
      if exact == {} { return false; }
      if sortedPaths.None? {
        var sorted := Sort(exact);
        sortedPaths := Some(sorted);
      }
      var k := LowerBound(sortedPaths.value, path + "/");
      LowerBoundFindsThePrefix(sortedPaths.value, path + "/", k);
      return k < |sortedPaths.value| && path + "/" <= sortedPaths.value[k];
    }
  }
}
