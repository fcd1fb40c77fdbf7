/** The records of a preview: Git objects, one mutable row per changed path, and the artifact store. */
module Rows {
  import opened Wrappers
  import opened Paths

  /** One tree entry: file mode, object kind and blob identifier. */
  datatype Obj = Obj(mode: string, kind: string, oid: string)

  datatype Objects = Objects(base: Option<Obj>, ours: Option<Obj>, theirs: Option<Obj>, destination: Option<Obj>)

  datatype Status = RenameCollision | SpecialEntry | Binary | NonUtf8 | AlreadyAbsent | DeleteClean | DeleteModify
                  | AddClean | ModifyDelete | ModeConflict | AddAddConflict | Conflict | AddAddEqual | Clean
                  | PathConflict

  /** The part of a row that classification changes. */
  datatype Outcome = Outcome(status: Status, blockingPaths: seq<Path>, conflicts: nat, mergedMode: Option<string>,
                             merged: Option<string>)

  class Row {
    const forkPath: Path
    const oursPath: Path
    const oldForkPath: Option<Path>
    const objects: Objects
    var status: Status
    var blockingPaths: seq<Path>
    var conflicts: nat
    var mergedMode: Option<string>
    var merged: Option<string>

    constructor (forkPath: Path, oursPath: Path, oldForkPath: Option<Path>, objects: Objects, o: Outcome)
      ensures this.forkPath == forkPath && this.oursPath == oursPath && this.oldForkPath == oldForkPath
      ensures this.objects == objects && Now() == o
    {
      this.forkPath, this.oursPath, this.oldForkPath, this.objects := forkPath, oursPath, oldForkPath, objects;
      status, blockingPaths, conflicts := o.status, o.blockingPaths, o.conflicts;
      mergedMode, merged := o.mergedMode, o.merged;
    }

    function Now(): Outcome
      reads this
    {
      Outcome(status, blockingPaths, conflicts, mergedMode, merged)
    }
  }

  /** Artifact name to content: the dictionary that preview and apply share. */
  class Artifacts {
    var files: map<string, string>

    constructor ()
      ensures files == map[]
    {
      files := map[];
    }
  }
}
