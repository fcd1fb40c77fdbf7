/** What a preview reads, and the disposition it gives to one changed path. */
module PreviewInputs {
  import opened Wrappers
  import opened Bytes
  import opened Paths
  import opened Rows
  import opened ThreeWay
  import Normalization

  type Tree = map<Path, Obj>

  /** One changed path of the upstream range; oldPath for renames. */
  datatype Delta = Delta(path: Path, oldPath: Option<Path>)

  const REGULAR_MODES: set<string> := {"100644", "100755"}

  /** Everything a preview reads: three trees, the changes, blob contents, and the injected functions. */
  datatype Inputs = Inputs(bases: Tree, targets: Tree, ours: Tree, deltas: seq<Delta>, blobs: map<string, seq<byte>>,
                           forkPath: Path -> Path, decode: seq<byte> -> Option<string>, readme: Path -> bool,
                           merge: Merge)
  {
    /** Regular modes belong to blobs, and the content of every blob has been read. */
    ghost predicate Readable() {
      && TreeReadable(bases) && TreeReadable(targets) && TreeReadable(ours)
    }

    ghost predicate TreeReadable(tree: Tree) {
      && (forall p :: p in tree && tree[p].mode in REGULAR_MODES ==> tree[p].kind == "blob")
      && (forall p :: p in tree && tree[p].kind == "blob" ==> tree[p].oid in blobs)
    }

    function OldPath(d: Delta): Path {
      if d.oldPath.Some? then d.oldPath.value else d.path
    }

    /** Where the fork keeps the file: at the old name if it is still there, else at the new one. */
    function OursPath(d: Delta): Path {
      if forkPath(OldPath(d)) in ours then forkPath(OldPath(d)) else forkPath(d.path)
    }

    predicate Collides(d: Delta) {
      var oldFork, destination := forkPath(OldPath(d)), forkPath(d.path);
      oldFork != destination && oldFork in ours && destination in ours
    }

    function ObjectsOf(d: Delta): Objects {
      Objects(Find(bases, OldPath(d)), Find(ours, OursPath(d)), Find(targets, d.path),
              if Collides(d) then Some(ours[forkPath(d.path)]) else None)
    }

    function Find(tree: Tree, p: Path): Option<Obj> {
      if p in tree then Some(tree[p]) else None
    }

    function Exempt(d: Delta): bool {
      readme(d.path) || readme(OldPath(d))
    }

    function BytesOf(o: Option<Obj>): seq<byte> {
      if o.Some? && o.value.kind == "blob" && o.value.oid in blobs then blobs[o.value.oid] else []
    }

    function VersionOf(o: Option<Obj>, upstream: bool, exempt: bool): Option<Version> {
      if o.Some? && o.value.kind == "blob" && decode(BytesOf(o)).Some? then
        Some(Version(Normalization.Normalize(decode(BytesOf(o)).value, upstream, exempt), o.value.mode))
      else None
    }

    /** The disposition of a row before path conflicts. */
    function VerdictOf(d: Delta): Verdict {
      var objects := ObjectsOf(d);
      if Collides(d) then Plain(RenameCollision)
      else if Special(objects.base) || Special(objects.ours) || Special(objects.theirs) then Plain(SpecialEntry)
      else if IsBinary(objects.base) || IsBinary(objects.ours) || IsBinary(objects.theirs) then Plain(Binary)
      else if Opaque(objects.base) || Opaque(objects.ours) || Opaque(objects.theirs) then Plain(NonUtf8)
      else Decide(VersionOf(objects.base, true, Exempt(d)), VersionOf(objects.ours, false, Exempt(d)),
                  VersionOf(objects.theirs, true, Exempt(d)), merge)
    }

    predicate Special(o: Option<Obj>) {
      o.Some? && o.value.mode !in REGULAR_MODES
    }

    predicate IsBinary(o: Option<Obj>) {
      0 in BytesOf(o)
    }

    predicate Opaque(o: Option<Obj>) {
      o.Some? && o.value.kind == "blob" && decode(BytesOf(o)).None?
    }
  }
}
