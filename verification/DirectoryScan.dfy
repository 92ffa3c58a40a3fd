/** The directory scan and its cache: what was cached long enough after a directory's last change stays true. */
module DirectoryScan {
  import opened Wrappers

  type Path = seq<string>

  datatype Node = SubDirectory(ino: nat) | Other

  datatype Entry = Entry(name: string, node: Node)

  /** A directory in the order it lists its entries; times in nanoseconds. */
  datatype Directory = Directory(listing: seq<Entry>, mtime: int, ctime: int)

  datatype World = World(clock: int, directories: map<nat, Directory>)

  datatype Cached = Cached(ino: nat, mtime: int, ctime: int, hasGit: bool, children: seq<string>, racy: bool)

  datatype Repository = Repository(path: Path, ino: nat)

  datatype Response = Response(directories: nat, repositories: seq<Repository>)

  const SECOND := 1_000_000_000
  const RACY_WINDOW := 2 * SECOND
  const MAX_DEPTH := 128

  ghost predicate WellFormed(w: World) {
    forall i, k ::
      i in w.directories && 0 <= k < |w.directories[i].listing| && w.directories[i].listing[k].node.SubDirectory? ==>
      w.directories[i].listing[k].node.ino in w.directories
  }

  function Lower(c: char): char {
    if 'A' <= c <= 'Z' then (c as int + 32) as char else c
  }

  /** `eq_ignore_ascii_case(".git")`. */
  predicate IsGit(name: string) {
    |name| == 4 && name[0] == '.' && Lower(name[1]) == 'g' && Lower(name[2]) == 'i' && Lower(name[3]) == 't'
  }

  predicate HasGit(path: Path, listing: seq<Entry>) {
    path != [] && exists k :: 0 <= k < |listing| && IsGit(listing[k].name)
  }

  /** The subdirectories a scan descends into, in listing order. */
  function Children(listing: seq<Entry>): (children: seq<Entry>) {
    if listing == [] then []
    else
      var last := listing[|listing| - 1];
      Children(listing[..|listing| - 1]) + if last.node.SubDirectory? && last.name != ".git" then [last] else []
  }

  lemma {:induction false} ChildIsListed(listing: seq<Entry>, k: nat)
    requires k < |Children(listing)|
    ensures var e := Children(listing)[k]; e in listing && e.node.SubDirectory? && e.name != ".git"
  {
    if k < |Children(listing[..|listing| - 1])| {
      ChildIsListed(listing[..|listing| - 1], k);
    }
  }

  lemma ChildLeadsOn(w: World, ino: nat, k: nat)
    requires WellFormed(w) && ino in w.directories && k < |Children(w.directories[ino].listing)|
    ensures var e := Children(w.directories[ino].listing)[k]; e.node.SubDirectory? && e.node.ino in w.directories
  {
    ChildIsListed(w.directories[ino].listing, k);
    hide Children;
    var e := Children(w.directories[ino].listing)[k];
    var i :| 0 <= i < |w.directories[ino].listing| && w.directories[ino].listing[i] == e;
  }

  function Names(entries: seq<Entry>): (names: seq<string>)
    ensures |names| == |entries| && forall k :: 0 <= k < |entries| ==> names[k] == entries[k].name
  {
    seq(|entries|, k requires 0 <= k < |entries| => entries[k].name)
  }

  // ---- the scan without a cache ----

  function Own(w: World, ino: nat, path: Path): Response
    requires ino in w.directories
  {
    Response(1, if HasGit(path, w.directories[ino].listing) then [Repository(path, ino)] else [])
  }

  function Under(path: Path, name: string): Path {
    path + [name]
  }

  function Join(a: Response, b: Response): Response {
    Response(a.directories + b.directories, a.repositories + b.repositories)
  }

  function Plus(before: Result<Response>, below: Result<Response>): Result<Response> {
    if before.Failed? || below.Failed? then Failed else Ok(Join(before.value, below.value))
  }

  /** Every directory once, every repository below the root; too deep a tree fails. */
  ghost function FullScan(w: World, ino: nat, path: Path, depth: nat): Result<Response>
    requires WellFormed(w) && ino in w.directories
    decreases MAX_DEPTH + 1 - depth, 1, 0
  {
    if depth > MAX_DEPTH then Failed
    else FullChildren(w, ino, path, depth, |Children(w.directories[ino].listing)|)
  }

  /** The directory itself and its first `k` subdirectories. */
  ghost function FullChildren(w: World, ino: nat, path: Path, depth: nat, k: nat): Result<Response>
    requires WellFormed(w) && ino in w.directories && depth <= MAX_DEPTH && k <= |Children(w.directories[ino].listing)|
    decreases MAX_DEPTH + 1 - depth, 0, k
  {
    if k == 0 then Ok(Own(w, ino, path))
    else
      ChildLeadsOn(w, ino, k - 1);
      var e := Children(w.directories[ino].listing)[k - 1];
      Plus(FullChildren(w, ino, path, depth, k - 1), FullScan(w, e.node.ino, Under(path, e.name), depth + 1))
  }

  // ---- the cache ----

  /** `directory_is_racy`, with the two stamps and the time the enumeration began. */
  predicate IsRacy(mtime: int, ctime: int, observed: int) {
    || mtime % SECOND == 0 || ctime % SECOND == 0 || mtime < 0 || ctime < 0
    || mtime > observed || observed - mtime < RACY_WINDOW
    || ctime > observed || observed - ctime < RACY_WINDOW
  }

  predicate MetadataMatches(c: Cached, ino: nat, d: Directory) {
    c.ino == ino && c.mtime == d.mtime && c.ctime == d.ctime
  }

  ghost predicate Describes(c: Cached, path: Path, d: Directory) {
    c.hasGit == HasGit(path, d.listing) && c.children == Names(Children(d.listing))
  }

  /** A cached directory is of no use, or it was seen well after its last change, and is right while its stamp
      stands. */
  ghost predicate Sound(w: World, path: Path, c: Cached) {
    !c.racy ==>
      && c.ctime + RACY_WINDOW <= w.clock
      && (c.ino in w.directories && w.directories[c.ino].ctime == c.ctime ==> Describes(c, path, w.directories[c.ino]))
  }

  ghost predicate AllSound(w: World, cache: map<Path, Cached>) {
    forall p :: p in cache ==> Sound(w, p, cache[p])
  }

  /** What `open_child` finds under a cached name. */
  function Lookup(listing: seq<Entry>, name: string): (r: Option<Entry>)
    ensures r.Some? ==> r.value in listing && r.value.name == name && r.value.node.SubDirectory?
    ensures r.None? ==> forall e :: e in listing ==> !(e.name == name && e.node.SubDirectory?)
  {
    if listing == [] then None
    else if listing[0].name == name && listing[0].node.SubDirectory? then Some(listing[0])
    else Lookup(listing[1..], name)
  }

  method FindChild(listing: seq<Entry>, name: string) returns (r: Option<Entry>)
    ensures r == Lookup(listing, name)
  {
    for i := 0 to |listing|
      invariant Lookup(listing, name) == Lookup(listing[i..], name)
    {
      if listing[i].name == name && listing[i].node.SubDirectory? { return Some(listing[i]); }
      assert listing[i..][1..] == listing[i + 1..];
    }
    return None;
  }

  /** All cached names, if they all still are subdirectories. */
  function Reopened(listing: seq<Entry>, names: seq<string>): (r: Option<seq<Entry>>)
    ensures r.Some? ==> |r.value| == |names| && forall k :: 0 <= k < |names| ==>
            Lookup(listing, names[k]) == Some(r.value[k])
    ensures r.None? ==> exists k :: 0 <= k < |names| && Lookup(listing, names[k]).None?
  {
    if names == [] then Some([])
    else
      var earlier := Reopened(listing, names[..|names| - 1]);
      var last := Lookup(listing, names[|names| - 1]);
      if earlier.None? || last.None? then None else Some(earlier.value + [last.value])
  }

  lemma {:induction false} OneMissingMissesAll(listing: seq<Entry>, names: seq<string>, k: nat)
    requires k < |names| && Lookup(listing, names[k]).None?
    ensures Reopened(listing, names).None?
  {
  }

  method OpenChildren(listing: seq<Entry>, names: seq<string>) returns (r: Option<seq<Entry>>)
    ensures r == Reopened(listing, names)
  {
    var found: seq<Entry> := [];
    for i := 0 to |names|
      invariant Reopened(listing, names[..i]) == Some(found)
    {
      assert names[..i + 1][..i] == names[..i];
      var e := FindChild(listing, names[i]);
      if e.None? {
        OneMissingMissesAll(listing, names, i);
        return None;
      }
      found := found + [e.value];
    }
    assert names[..|names|] == names;
    return Some(found);
  }

  ghost predicate UniqueNames(listing: seq<Entry>) {
    forall i, j :: 0 <= i < j < |listing| ==> listing[i].name != listing[j].name
  }

  /** The names of the subdirectories lead back to the subdirectories. */
  lemma {:induction false} NamesReopen(listing: seq<Entry>)
    requires UniqueNames(listing)
    ensures Reopened(listing, Names(Children(listing))) == Some(Children(listing))
  {
    var children := Children(listing);
    forall k | 0 <= k < |children|
      ensures Lookup(listing, Names(children)[k]) == Some(children[k])
    {
      ChildIsListed(listing, k);
    }
    hide Lookup, Children, UniqueNames;
    var found := Reopened(listing, Names(children));
    assert found.Some? && forall k :: 0 <= k < |children| ==> found.value[k] == children[k];
    assert found.value == children;
  }

  ghost predicate Tidy(w: World) {
    WellFormed(w) && forall i :: i in w.directories ==> UniqueNames(w.directories[i].listing)
  }

  /** The loop over the entries of an enumeration. */
  method ListChildren(listing: seq<Entry>) returns (children: seq<Entry>)
    ensures children == Children(listing)
  {
    children := [];
    for i := 0 to |listing|
      invariant children == Children(listing[..i])
    {
      assert listing[..i + 1][..i] == listing[..i];
      if listing[i].node.SubDirectory? && listing[i].name != ".git" {
        children := children + [listing[i]];
      }
    }
    assert listing[..|listing|] == listing;
  }

  // ---- the scan with a cache, whatever the cache holds ----

  /** The directory itself and the subdirectories to scan, from the cache if its entry matches. */
  function Seen(w: World, ino: nat, path: Path, previous: map<Path, Cached>): (Response, seq<Entry>)
    requires ino in w.directories
  {
    var d := w.directories[ino];
    if path in previous && MetadataMatches(previous[path], ino, d) && !previous[path].racy
       && Reopened(d.listing, previous[path].children).Some? then
      (Response(1, if path != [] && previous[path].hasGit then [Repository(path, ino)] else []),
       Reopened(d.listing, previous[path].children).value)
    else (Own(w, ino, path), Children(d.listing))
  }

  lemma SeenLeadsOn(w: World, ino: nat, path: Path, previous: map<Path, Cached>, k: nat)
    requires WellFormed(w) && ino in w.directories && k < |Seen(w, ino, path, previous).1|
    ensures var e := Seen(w, ino, path, previous).1[k]; e.node.SubDirectory? && e.node.ino in w.directories
  {
    var listing, seen := w.directories[ino].listing, Seen(w, ino, path, previous).1;
    if seen == Children(listing) {
      ChildLeadsOn(w, ino, k);
    } else {
      assert Lookup(listing, previous[path].children[k]) == Some(seen[k]);
      hide Seen, Lookup;
      var i :| 0 <= i < |listing| && listing[i] == seen[k];
    }
  }

  ghost function CachedScan(w: World, ino: nat, path: Path, depth: nat, previous: map<Path, Cached>): Result<Response>
    requires WellFormed(w) && ino in w.directories
    decreases MAX_DEPTH + 1 - depth, 1, 0
  {
    if depth > MAX_DEPTH then Failed
    else CachedChildren(w, ino, path, depth, previous, |Seen(w, ino, path, previous).1|)
  }

  ghost function CachedChildren(w: World, ino: nat, path: Path, depth: nat, previous: map<Path, Cached>,
                                k: nat): Result<Response>
    requires WellFormed(w) && ino in w.directories && depth <= MAX_DEPTH && k <= |Seen(w, ino, path, previous).1|
    decreases MAX_DEPTH + 1 - depth, 0, k
  {
    var seen := Seen(w, ino, path, previous);
    if k == 0 then Ok(seen.0)
    else
      SeenLeadsOn(w, ino, path, previous, k - 1);
      var e := seen.1[k - 1];
      Plus(CachedChildren(w, ino, path, depth, previous, k - 1),
           CachedScan(w, e.node.ino, Under(path, e.name), depth + 1, previous))
  }

  lemma {:induction false} OneFailureFailsAll(w: World, ino: nat, path: Path, depth: nat, previous: map<Path, Cached>,
                                              k: nat)
    requires WellFormed(w) && ino in w.directories && depth <= MAX_DEPTH && k <= |Seen(w, ino, path, previous).1|
    requires CachedChildren(w, ino, path, depth, previous, k).Failed?
    ensures CachedScan(w, ino, path, depth, previous).Failed?
    decreases |Seen(w, ino, path, previous).1| - k
  {
    hide Seen, WellFormed;
    if k < |Seen(w, ino, path, previous).1| {
      OneFailureFailsAll(w, ino, path, depth, previous, k + 1);
    }
  }

  lemma OneMoreChild(w: World, ino: nat, path: Path, depth: nat, previous: map<Path, Cached>, k: nat)
    requires WellFormed(w) && ino in w.directories && depth <= MAX_DEPTH && k < |Seen(w, ino, path, previous).1|
    ensures var e := Seen(w, ino, path, previous).1[k];
            && e.node.SubDirectory? && e.node.ino in w.directories
            && CachedChildren(w, ino, path, depth, previous, k + 1) ==
               Plus(CachedChildren(w, ino, path, depth, previous, k),
                    CachedScan(w, e.node.ino, Under(path, e.name), depth + 1, previous))
  {
    SeenLeadsOn(w, ino, path, previous, k);
    hide Seen;
  }

  lemma OneMoreFullChild(w: World, ino: nat, path: Path, depth: nat, k: nat)
    requires WellFormed(w) && ino in w.directories && depth <= MAX_DEPTH && k < |Children(w.directories[ino].listing)|
    ensures var e := Children(w.directories[ino].listing)[k];
            && e.node.SubDirectory? && e.node.ino in w.directories
            && FullChildren(w, ino, path, depth, k + 1) ==
               Plus(FullChildren(w, ino, path, depth, k), FullScan(w, e.node.ino, Under(path, e.name), depth + 1))
  {
    ChildLeadsOn(w, ino, k);
    hide Children;
  }

  // ---- a sound cache changes nothing ----

  lemma SoundSees(w: World, ino: nat, path: Path, previous: map<Path, Cached>)
    requires Tidy(w) && ino in w.directories && AllSound(w, previous)
    ensures Seen(w, ino, path, previous) == (Own(w, ino, path), Children(w.directories[ino].listing))
  {
    if path in previous {
      assert Sound(w, path, previous[path]);
      NamesReopen(w.directories[ino].listing);
    }
  }

  /** Every directory is seen as it is. */
  ghost predicate SeesAll(w: World, previous: map<Path, Cached>) {
    forall ino, path :: ino in w.directories ==>
      Seen(w, ino, path, previous) == (Own(w, ino, path), Children(w.directories[ino].listing))
  }

  lemma {:induction false} SameScans(w: World, ino: nat, path: Path, depth: nat, previous: map<Path, Cached>)
    requires WellFormed(w) && ino in w.directories && SeesAll(w, previous)
    ensures CachedScan(w, ino, path, depth, previous) == FullScan(w, ino, path, depth)
    decreases MAX_DEPTH + 1 - depth, 1, 0
  {
    hide WellFormed, Seen, Children, Own;
    if depth <= MAX_DEPTH {
      assert Seen(w, ino, path, previous) == (Own(w, ino, path), Children(w.directories[ino].listing));
      SameChildren(w, ino, path, depth, previous, |Children(w.directories[ino].listing)|);
    }
  }

  lemma {:induction false} SameChildren(w: World, ino: nat, path: Path, depth: nat, previous: map<Path, Cached>, k: nat)
    requires WellFormed(w) && ino in w.directories && SeesAll(w, previous) && depth <= MAX_DEPTH
    requires k <= |Children(w.directories[ino].listing)| == |Seen(w, ino, path, previous).1|
    ensures CachedChildren(w, ino, path, depth, previous, k) == FullChildren(w, ino, path, depth, k)
    decreases MAX_DEPTH + 1 - depth, 0, k
  {
    hide Seen, Children, Own, Plus, Under, WellFormed;
    assert Seen(w, ino, path, previous) == (Own(w, ino, path), Children(w.directories[ino].listing));
    hide SeesAll;
    if k > 0 {
      OneMoreChild(w, ino, path, depth, previous, k - 1);
      OneMoreFullChild(w, ino, path, depth, k - 1);
      var e := Children(w.directories[ino].listing)[k - 1];
      SameChildren(w, ino, path, depth, previous, k - 1);
      SameScans(w, e.node.ino, Under(path, e.name), depth + 1, previous);
    }
  }

  lemma {:induction false} SoundScans(w: World, ino: nat, path: Path, depth: nat, previous: map<Path, Cached>)
    requires Tidy(w) && ino in w.directories && AllSound(w, previous)
    ensures CachedScan(w, ino, path, depth, previous) == FullScan(w, ino, path, depth)
  {
    hide CachedScan, FullScan, Seen, Own, Children, AllSound;
    forall i, p | i in w.directories
      ensures Seen(w, i, p, previous) == (Own(w, i, p), Children(w.directories[i].listing))
    {
      SoundSees(w, i, p, previous);
    }
    SameScans(w, ino, path, depth, previous);
  }

  // ---- the program ----

  /** The metadata match of `scan`, and what it takes from the cache. */
  method Revisit(w: World, ino: nat, path: Path, previous: map<Path, Cached>)
    returns (r: Option<(Response, seq<Entry>)>)
    requires ino in w.directories
    ensures r.Some? ==> r.value == Seen(w, ino, path, previous) && path in previous
    ensures r.None? ==> Seen(w, ino, path, previous) == (Own(w, ino, path), Children(w.directories[ino].listing))
  {
    var d := w.directories[ino];
    if path in previous && MetadataMatches(previous[path], ino, d) && !previous[path].racy {
      var existing := OpenChildren(d.listing, previous[path].children);
      if existing.Some? {
        return Some((Response(1, if path != [] && previous[path].hasGit then [Repository(path, ino)] else []),
                     existing.value));
      }
    }
    return None;
  }

  /** `scan`, while the tree does not change; `since` tells how long ago the enumeration of each directory began.
      With a cache that is sound, from whatever earlier scan, the answer is that of a scan without a cache, and the
      cache it leaves is sound in its turn. */
  method Scan(w: World, ino: nat, path: Path, depth: nat, previous: map<Path, Cached>, next: map<Path, Cached>,
              since: Path -> nat)
    returns (r: Result<Response>, after: map<Path, Cached>)
    requires Tidy(w) && ino in w.directories
    ensures r == CachedScan(w, ino, path, depth, previous)
    ensures AllSound(w, previous) ==> r == FullScan(w, ino, path, depth)
    ensures AllSound(w, previous) && AllSound(w, next) ==> AllSound(w, after)
    decreases MAX_DEPTH + 1 - depth, 1
  {
    if AllSound(w, previous) { SoundScans(w, ino, path, depth, previous); }
    hide CachedScan, FullScan;
    if depth > MAX_DEPTH {
      TooDeep(w, ino, path, depth, previous);
      return Failed, next;
    }
    var kept := Revisit(w, ino, path, previous);
    hide Seen;
    if kept.Some? {
      r, after := ScanChildren(w, ino, path, depth, kept.value.0, kept.value.1, previous,
                               next[path := previous[path]], since);
      return;
    }
    var d := w.directories[ino];
    var children := ListChildren(d.listing);
    var own := Response(1, if HasGit(path, d.listing) then [Repository(path, ino)] else []);
    r, after := ScanChildren(w, ino, path, depth, own, children, previous, next, since);
    var cached := Cached(ino, d.mtime, d.ctime, HasGit(path, d.listing), Names(children),
                         IsRacy(d.mtime, d.ctime, w.clock - since(path)));
    assert Sound(w, path, cached);
    after := after[path := cached];
  }

  lemma {:induction false} TooDeep(w: World, ino: nat, path: Path, depth: nat, previous: map<Path, Cached>)
    requires WellFormed(w) && ino in w.directories && depth > MAX_DEPTH
    ensures CachedScan(w, ino, path, depth, previous).Failed?
  {
  }

  method ScanChildren(w: World, ino: nat, path: Path, depth: nat, own: Response, children: seq<Entry>,
                      previous: map<Path, Cached>, next: map<Path, Cached>, since: Path -> nat)
    returns (r: Result<Response>, after: map<Path, Cached>)
    requires Tidy(w) && ino in w.directories && depth <= MAX_DEPTH
    requires (own, children) == Seen(w, ino, path, previous)
    ensures r == CachedScan(w, ino, path, depth, previous)
    ensures AllSound(w, previous) && AllSound(w, next) ==> AllSound(w, after)
    decreases MAX_DEPTH + 1 - depth, 0
  {
    var response := own;
    after := next;
    assert CachedChildren(w, ino, path, depth, previous, 0) == Ok(own);
    assert CachedScan(w, ino, path, depth, previous) == CachedChildren(w, ino, path, depth, previous, |children|);
    assert WellFormed(w);
    hide *;
    for k := 0 to |children|
      invariant CachedChildren(w, ino, path, depth, previous, k) == Ok(response)
      invariant AllSound(w, previous) && AllSound(w, next) ==> AllSound(w, after)
    {
      OneMoreChild(w, ino, path, depth, previous, k);
      var below;
      below, after := Scan(w, children[k].node.ino, Under(path, children[k].name), depth + 1, previous, after, since);
      if below.Failed? {
        OneFailureFailsAll(w, ino, path, depth, previous, k + 1);
        return Failed, after;
      }
      response := Join(response, below.value);
    }
    return Ok(response), after;
  }

  // ---- between scans ----

  /** Time passes; a directory's entries change, or one appears; one disappears; only its times are set. */
  datatype Event = Wait(time: nat) | Change(ino: nat, directory: Directory) | Remove(ino: nat)
    | Touch(ino: nat, mtime: int, ctime: int)

  /** A change stamps the directory's ctime, less than `lag` behind the clock. */
  ghost predicate Stamps(w: World, e: Event, lag: nat) {
    match e
    case Change(_, d) => w.clock - lag < d.ctime <= w.clock
    case Touch(ino, _, ctime) => ino in w.directories && w.clock - lag < ctime <= w.clock
    case _ => true
  }

  ghost function After(w: World, e: Event): World
    requires e.Touch? ==> e.ino in w.directories
  {
    match e
    case Wait(time) => w.(clock := w.clock + time)
    case Change(ino, d) => w.(directories := w.directories[ino := d])
    case Remove(ino) => w.(directories := w.directories - {ino})
    case Touch(ino, mtime, ctime) =>
      w.(directories := w.directories[ino := w.directories[ino].(mtime := mtime, ctime := ctime)])
  }

  /** A stamp less than two seconds behind cannot be that of a directory that was cached for reuse. */
  lemma EventKeepsSound(w: World, e: Event, lag: nat, cache: map<Path, Cached>)
    requires AllSound(w, cache) && Stamps(w, e, lag) && lag <= RACY_WINDOW
    ensures AllSound(After(w, e), cache)
  {
    forall p | p in cache
      ensures Sound(After(w, e), p, cache[p])
    {
      assert Sound(w, p, cache[p]);
    }
  }

  ghost predicate Happens(w: World, events: seq<Event>, last: World)
    decreases |events|
  {
    if events == [] then last == w
    else Stamps(w, events[0], RACY_WINDOW) && Happens(After(w, events[0]), events[1..], last)
  }

  /** However the tree changes, and whenever the cache was written, it stays sound. */
  lemma {:induction false} CachesStaySound(w: World, events: seq<Event>, last: World, cache: map<Path, Cached>)
    requires AllSound(w, cache) && Happens(w, events, last)
    ensures AllSound(last, cache)
    decreases |events|
  {
    if events != [] {
      EventKeepsSound(w, events[0], RACY_WINDOW, cache);
      CachesStaySound(After(w, events[0]), events[1..], last, cache);
    }
  }

  /** Scan, let anything happen, and scan again with the cache of the first scan: the same as with none. */
  method ScanTwice(w: World, ghost events: seq<Event>, last: World, root: nat, since: Path -> nat, later: Path -> nat)
    returns (first: Result<Response>, second: Result<Response>)
    requires Tidy(w) && Tidy(last) && root in w.directories && root in last.directories && Happens(w, events, last)
    ensures first == FullScan(w, root, [], 0) && second == FullScan(last, root, [], 0)
  {
    var cache, rest;
    first, cache := Scan(w, root, [], 0, map[], map[], since);
    CachesStaySound(w, events, last, cache);
    second, rest := Scan(last, root, [], 0, cache, map[], later);
  }

  // ---- the window cannot be shorter ----

  /** A root with the empty directory `d`, both last changed two seconds ago; `d` becomes a repository. */
  ghost function BeforeGit(): World {
    World(RACY_WINDOW + 1, map[0 := Directory([Entry("d", SubDirectory(1))], 1, 1), 1 := Directory([], 1, 1)])
  }

  ghost function GitAppears(): Event {
    Change(1, Directory([Entry(".git", Other)], 1, 1))
  }

  /** What a scan just now has cached. */
  ghost function CachedBefore(): map<Path, Cached> {
    var racy := IsRacy(1, 1, BeforeGit().clock);
    map[[] := Cached(0, 1, 1, false, ["d"], racy), ["d"] := Cached(1, 1, 1, false, [], racy)]
  }

  lemma {:induction false} OneSubdirectory(listing: seq<Entry>)
    requires |listing| == 1 && listing[0].node.SubDirectory? && listing[0].name != ".git"
    ensures Children(listing) == listing
  {
    assert listing[..0] == [];
  }

  lemma CacheIsSound()
    ensures Tidy(BeforeGit()) && AllSound(BeforeGit(), CachedBefore())
  {
    var root := BeforeGit().directories[0];
    OneSubdirectory(root.listing);
    assert Names(root.listing) == ["d"];
    assert Describes(CachedBefore()[[]], [], root);
    assert Describes(CachedBefore()[["d"]], ["d"], BeforeGit().directories[1]);
  }

  /** The two scans of the directory that has become a repository. */
  lemma {:induction false} Unseen(w: World, cache: map<Path, Cached>)
    requires WellFormed(w) && 1 in w.directories && w.directories[1] == Directory([Entry(".git", Other)], 1, 1)
    requires ["d"] in cache && cache[["d"]] == Cached(1, 1, 1, false, [], false)
    ensures FullScan(w, 1, ["d"], 1) == Ok(Response(1, [Repository(["d"], 1)]))
    ensures CachedScan(w, 1, ["d"], 1, cache) == Ok(Response(1, []))
  {
    var listing := w.directories[1].listing;
    assert listing[..0] == [];
    assert Children(listing) == [];
    assert IsGit(listing[0].name);
    assert Own(w, 1, ["d"]) == Response(1, [Repository(["d"], 1)]);
    assert Seen(w, 1, ["d"], cache) == (Response(1, []), []);
  }

  /** The scans of the root, given those of its one subdirectory. */
  lemma {:induction false} RootAnswer(w: World)
    requires WellFormed(w) && 0 in w.directories && 1 in w.directories
    requires Children(w.directories[0].listing) == [Entry("d", SubDirectory(1))]
    requires FullScan(w, 1, ["d"], 1) == Ok(Response(1, [Repository(["d"], 1)]))
    ensures FullScan(w, 0, [], 0) == Ok(Response(2, [Repository(["d"], 1)]))
  {
    hide Children, WellFormed;
    var none: seq<Repository>, found := [], [Repository(["d"], 1)];
    assert Under([], "d") == ["d"] && none + found == found;
    assert Own(w, 0, []) == Response(1, none);
    assert FullChildren(w, 0, [], 0, 0) == Ok(Response(1, none));
    assert FullScan(w, 0, [], 0) == FullChildren(w, 0, [], 0, 1);
    OneMoreFullChild(w, 0, [], 0, 0);
    hide FullScan, FullChildren, Own, Under;
  }

  /** The root's entry, still valid, leads to the one subdirectory. */
  lemma RootSeen(w: World, cache: map<Path, Cached>)
    requires 0 in w.directories && w.directories[0] == Directory([Entry("d", SubDirectory(1))], 1, 1)
    requires [] in cache && cache[[]] == Cached(0, 1, 1, false, ["d"], false)
    ensures Seen(w, 0, [], cache) == (Response(1, []), [Entry("d", SubDirectory(1))])
  {
    var listing, names := w.directories[0].listing, ["d"];
    assert Lookup(listing, "d") == Some(listing[0]);
    assert names[..0] == [] && Reopened(listing, []) == Some([]) && [] + [listing[0]] == [listing[0]];
    assert Reopened(listing, names) == Some([listing[0]]);
  }

  lemma {:induction false} CachedRootAnswer(w: World, cache: map<Path, Cached>)
    requires WellFormed(w) && 0 in w.directories && 1 in w.directories
    requires Seen(w, 0, [], cache) == (Response(1, []), [Entry("d", SubDirectory(1))])
    requires CachedScan(w, 1, ["d"], 1, cache) == Ok(Response(1, []))
    ensures CachedScan(w, 0, [], 0, cache) == Ok(Response(2, []))
  {
    hide WellFormed, Seen;
    var none: seq<Repository> := [];
    assert Under([], "d") == ["d"] && none + none == none;
    assert CachedChildren(w, 0, [], 0, cache, 0) == Ok(Response(1, none));
    assert CachedScan(w, 0, [], 0, cache) == CachedChildren(w, 0, [], 0, cache, 1);
    OneMoreChild(w, 0, [], 0, cache, 0);
    hide CachedScan, CachedChildren, Under;
  }

  /** Were a stamp allowed to lie two seconds behind or more, a scan could answer wrongly: a repository that appears in
      a cached directory, in the very nanosecond of its last stamp, stays unseen. */
  lemma LongerLagsAreTooMuch(lag: nat) returns (w: World, cache: map<Path, Cached>, e: Event)
    requires lag > RACY_WINDOW
    ensures Tidy(w) && AllSound(w, cache) && [] in cache && 0 in w.directories && Stamps(w, e, lag)
    ensures Tidy(After(w, e)) && 0 in After(w, e).directories
    ensures CachedScan(After(w, e), 0, [], 0, cache) == Ok(Response(2, []))
    ensures FullScan(After(w, e), 0, [], 0) == Ok(Response(2, [Repository(["d"], 1)]))
  {
    hide CachedScan, FullScan, AllSound, Children;
    CacheIsSound();
    w, cache, e := BeforeGit(), CachedBefore(), GitAppears();
    var changed := After(w, e);
    OneSubdirectory(changed.directories[0].listing);
    Unseen(changed, cache);
    RootAnswer(changed);
    RootSeen(changed, cache);
    CachedRootAnswer(changed, cache);
  }
}
