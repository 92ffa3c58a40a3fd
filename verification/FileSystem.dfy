/** A directory tree's leaves as the system calls see them: names refer to inodes, inodes hold leaves. */
module FileSystem {
  import opened Wrappers
  import opened Mutations

  /** Inode numbers from `next` on have never been used. */
  datatype Files = Files(names: map<string, nat>, leaves: map<nat, Leaf>, next: nat)

  ghost predicate WellFormed(fs: Files) {
    && (forall n :: n in fs.names ==> fs.names[n] in fs.leaves)
    && (forall i :: i in fs.leaves ==> i < fs.next && fs.leaves[i] != Absent)
  }

  function At(fs: Files, name: string): Leaf
    requires WellFormed(fs)
  {
    if name in fs.names then fs.leaves[fs.names[name]] else Absent
  }

  predicate SameInode(fs: Files, a: string, b: string) {
    a in fs.names && b in fs.names && fs.names[a] == fs.names[b]
  }

  /** No other name leads to the inode of `name`. */
  ghost predicate Unshared(fs: Files, name: string) {
    name in fs.names && forall n :: n in fs.names && n != name ==> fs.names[n] != fs.names[name]
  }

  /** Outside `touched`, every name has the same inode with the same leaf. */
  ghost predicate SameElsewhere(before: Files, after: Files, touched: set<string>)
    requires WellFormed(before) && WellFormed(after)
  {
    forall n :: n !in touched ==>
      && (n in after.names <==> n in before.names)
      && At(after, n) == At(before, n)
      && (n in before.names ==> after.names[n] == before.names[n])
  }

  /** Names outside `touched` that have their inode to themselves keep it to themselves. */
  ghost predicate KeepsPrivate(before: Files, after: Files, touched: set<string>) {
    forall n :: n !in touched && Unshared(before, n) ==> Unshared(after, n)
  }

  // ---- system calls: `Failed` is EEXIST or ENOENT ----

  function LinkCall(fs: Files, from: string, to: string): (r: Result<Files>)
    requires WellFormed(fs)
    ensures r.Ok? <==> from in fs.names && to !in fs.names
    ensures r.Ok? ==> WellFormed(r.value) && SameInode(r.value, from, to) && At(r.value, to) == At(fs, from)
    ensures r.Ok? ==> SameElsewhere(fs, r.value, {to}) && KeepsPrivate(fs, r.value, {from, to})
  {
    if from !in fs.names || to in fs.names then Failed
    else Ok(fs.(names := fs.names[to := fs.names[from]]))
  }

  /** `open` with O_EXCL, and `symlink`. */
  function CreateCall(fs: Files, name: string, leaf: Leaf): (r: Result<Files>)
    requires WellFormed(fs) && leaf != Absent
    ensures r.Ok? <==> name !in fs.names
    ensures r.Ok? ==> WellFormed(r.value) && At(r.value, name) == leaf && Unshared(r.value, name)
    ensures r.Ok? ==> SameElsewhere(fs, r.value, {name}) && KeepsPrivate(fs, r.value, {name})
  {
    if name in fs.names then Failed
    else Ok(Files(fs.names[name := fs.next], fs.leaves[fs.next := leaf], fs.next + 1))
  }

  /** Writing through an open handle changes what every name of the inode shows. */
  function WriteCall(fs: Files, name: string, leaf: Leaf): (after: Files)
    requires WellFormed(fs) && leaf != Absent && name in fs.names
    ensures WellFormed(after) && after.names == fs.names && At(after, name) == leaf
    ensures Unshared(fs, name) ==> SameElsewhere(fs, after, {name})
    ensures KeepsPrivate(fs, after, {})
  {
    fs.(leaves := fs.leaves[fs.names[name] := leaf])
  }

  function UnlinkCall(fs: Files, name: string): (r: Result<Files>)
    requires WellFormed(fs)
    ensures r.Ok? <==> name in fs.names
    ensures r.Ok? ==> WellFormed(r.value) && At(r.value, name) == Absent && name !in r.value.names
    ensures r.Ok? ==> SameElsewhere(fs, r.value, {name}) && KeepsPrivate(fs, r.value, {name})
    ensures r.Ok? ==> forall a, b :: a != name && b != name ==> SameInode(r.value, a, b) == SameInode(fs, a, b)
  {
    if name !in fs.names then Failed else Ok(fs.(names := fs.names - {name}))
  }

  /** `renameat2` with RENAME_NOREPLACE. */
  function RenameCall(fs: Files, from: string, to: string): (r: Result<Files>)
    requires WellFormed(fs) && from != to
    ensures r.Ok? <==> from in fs.names && to !in fs.names
    ensures r.Ok? ==> WellFormed(r.value) && At(r.value, to) == At(fs, from) && At(r.value, from) == Absent
    ensures r.Ok? ==> SameElsewhere(fs, r.value, {from, to}) && KeepsPrivate(fs, r.value, {from, to})
  {
    if from !in fs.names || to in fs.names then Failed
    else Ok(fs.(names := (fs.names - {from})[to := fs.names[from]]))
  }

  // ---- other programs ----

  /** What the names of artifacts begin with: those of the journaled quarantine, and those of a pack's native batch. */
  const QUARANTINE_PREFIX := ".pi-undo-q1-"
  const PACK_PREFIX := ".pi-undo-q2-"

  function LastSegment(name: string): (last: string)
    ensures |last| <= |name|
  {
    if name == "" || name[|name| - 1] == '/' then ""
    else LastSegment(name[..|name| - 1]) + [name[|name| - 1]]
  }

  function Parent(name: string): string {
    name[..|name| - |LastSegment(name)|]
  }

  predicate IsArtifact(name: string) {
    QUARANTINE_PREFIX <= LastSegment(name) || PACK_PREFIX <= LastSegment(name)
  }

  predicate IsHex(c: char) {
    '0' <= c <= '9' || 'a' <= c <= 'f'
  }

  /** The name of an artifact of `path`: beside it, the prefix, 32 hexadecimal digits and the role. */
  predicate ArtifactOf(name: string, path: string, prefix: string, role: string) {
    var last := LastSegment(name);
    && Parent(name) == Parent(path) && |last| == |prefix| + 32 + |role| && prefix <= last
    && last[|prefix| + 32..] == role && forall i :: |prefix| <= i < |prefix| + 32 ==> IsHex(last[i])
  }

  /** What another program may do to a name: replace it by a new inode, remove it, or edit its inode in place. */
  datatype Change = Put(name: string, leaf: Leaf) | Remove(name: string) | Edit(name: string, leaf: Leaf)

  /** Other programs keep off the artifact names. */
  function Disturb(fs: Files, change: Change): (after: Files)
    requires WellFormed(fs)
    ensures WellFormed(after)
    ensures forall n :: IsArtifact(n) ==> (n in after.names <==> n in fs.names)
    ensures forall n :: IsArtifact(n) && n in fs.names ==> after.names[n] == fs.names[n]
    ensures forall n :: IsArtifact(n) && Unshared(fs, n) ==> Unshared(after, n)
  {
    if IsArtifact(change.name) then fs
    else match change
      case Put(name, leaf) =>
        if leaf == Absent then fs
        else Files(fs.names[name := fs.next], fs.leaves[fs.next := leaf], fs.next + 1)
      case Remove(name) => fs.(names := fs.names - {name})
      case Edit(name, leaf) =>
        if leaf == Absent || name !in fs.names then fs
        else fs.(leaves := fs.leaves[fs.names[name] := leaf])
  }
}
