/** The working tree as files and directories, changed one file-system call at a time. */
module Checkout {
  import opened Paths
  import opened Text

  datatype Content = Committed(oid: string) | Merged(text: string)

  datatype File = File(content: Content, mode: string)

  /** Git paths have no empty component. */
  predicate GitPath(p: Path) {
    "" !in Split(p, '/')
  }

  lemma GitPathHead(p: Path)
    requires GitPath(p)
    ensures p != "" && p[0] != '/'
  {
    SplitHead(p);
    assert Split(p, '/')[0] in Split(p, '/');
  }

  lemma SplitHead(p: Path)
    ensures p == "" || p[0] == '/' ==> Split(p, '/')[0] == ""
  {}

  // ---- Directories of a path -----------------------------------------------------------

  /** The directory part up to the last slash; "" is the root. */
  function ParentDir(p: Path): Path
    decreases |p|
  {
    if p == "" then "" else if p[|p| - 1] == '/' then p[..|p| - 1] else ParentDir(p[..|p| - 1])
  }

  ghost function Above(p: Path): set<Path> {
    set i | 0 <= i < |p| && p[i] == '/' :: p[..i]
  }

  lemma AboveIsInside(p: Path, d: Path)
    ensures d in Above(p) <==> Inside(p, d)
  {
    if Inside(p, d) { assert p[|d|] == (d + "/")[|d|] == '/' && p[..|d|] == (d + "/")[..|d|] == d; }
    if d in Above(p) {
      var i :| 0 <= i < |p| && p[i] == '/' && d == p[..i];
      assert p[..i + 1] == d + "/";
    }
  }

  lemma AboveInit(p: Path)
    requires p != ""
    ensures var init := p[..|p| - 1]; Above(p) == Above(init) + (if p[|p| - 1] == '/' then {init} else {})
  {
    var init := p[..|p| - 1];
    forall d | d in Above(init) ensures d in Above(p) {
      var i :| 0 <= i < |init| && init[i] == '/' && d == init[..i];
      assert p[i] == '/' && p[..i] == d;
    }
    forall d | d in Above(p) ensures d in Above(init) || (p[|p| - 1] == '/' && d == init) {
      var i :| 0 <= i < |p| && p[i] == '/' && d == p[..i];
      if i < |init| { assert init[i] == '/' && init[..i] == d; }
    }
  }

  /** The directories of p are its parent and the parent's directories. */
  lemma {:induction false} ParentDirAbove(p: Path)
    ensures Above(p) == if '/' in p then {ParentDir(p)} + Above(ParentDir(p)) else {}
    ensures '/' in p ==> |ParentDir(p)| < |p| && ParentDir(p) <= p
    ensures '/' !in p ==> ParentDir(p) == ""
    decreases |p|
  {
    if p != "" {
      ParentDirAbove(p[..|p| - 1]);
      AboveInit(p);
      assert p == p[..|p| - 1] + [p[|p| - 1]];
    }
  }

  /** Anything inside d passes through an entry directly in d. */
  lemma {:induction false} ChildOf(p: Path, d: Path) returns (e: Path)
    requires d in Above(p)
    ensures (e == p || e in Above(p)) && ParentDir(e) == d && d in Above(e)
    decreases |p|
  {
    ParentDirAbove(p);
    if ParentDir(p) == d {
      e := p;
    } else {
      e := ChildOf(ParentDir(p), d);
    }
  }

  ghost function Dirs(files: set<Path>): set<Path> {
    set p, d | p in files && d in Above(p) :: d
  }

  /** A directory with the directories it is in, down to the root. */
  ghost function Upward(d: Path): set<Path> {
    if d == "" then {} else {d} + Above(d)
  }

  lemma DirsClosed(files: set<Path>, d: Path)
    requires d in Dirs(files)
    ensures Above(d) <= Dirs(files)
  {
    var p :| p in files && d in Above(p);
    forall c | c in Above(d) ensures c in Dirs(files) {
      AboveIsInside(d, c);
      AboveIsInside(p, d);
      InsideTransitive(c, d, p);
      AboveIsInside(p, c);
    }
  }

  lemma PrefixFreeDirs(files: set<Path>)
    ensures PrefixFree(files) <==> files !! Dirs(files)
  {
    if PrefixFree(files) {
      forall d | d in files ensures d !in Dirs(files) {
        if d in Dirs(files) {
          var p :| p in files && d in Above(p);
          AboveIsInside(p, d);
        }
      }
    }
    if files !! Dirs(files) {
      forall a, b | a in files && b in files ensures !Inside(b, a) {
        AboveIsInside(b, a);
      }
    }
  }

  // ---- The checkout --------------------------------------------------------------------

  class WorkingTree {
    var files: map<Path, File>
    /** Directories below the root; the root itself always holds Git's own metadata. */
    var dirs: set<Path>

    constructor (files: map<Path, File>, dirs: set<Path>)
      ensures this.files == files && this.dirs == dirs
    {
      this.files, this.dirs := files, dirs;
    }

    /** A file system tree: files lie in directories, directories in directories, and no path is both. */
    ghost predicate Valid()
      reads this
    {
      && files.Keys !! dirs && Dirs(files.Keys) <= dirs && UpClosed(dirs) && "" !in dirs
      && forall p :: p in files ==> GitPath(p)
    }

    /** The directories that stay when all files go: those without files below, and those above them. */
    ghost function Empty(): set<Path>
      reads this
    {
      var bare := dirs - Dirs(files.Keys);
      bare + Dirs(bare)
    }

    /** Directories are those the files need and those kept by an empty directory; no path is both file and
        directory. */
    ghost predicate Tidy(empty: set<Path>)
      reads this
    {
      && dirs == Dirs(files.Keys) + empty && UpClosed(empty)
      && PrefixFree(files.Keys) && files.Keys !! empty
      && forall p :: p in files ==> GitPath(p)
    }

    /** A directory of `empty` that also holds files holds another directory of `empty`. */
    ghost predicate Rooted(empty: set<Path>)
      reads this
    {
      forall d :: d in empty && d in Dirs(files.Keys) ==> HoldsOne(d, empty)
    }

    predicate HasEntries(d: Path)
      reads this
    {
      exists e :: e in files.Keys + dirs && e != "" && ParentDir(e) == d
    }

    method Unlink(p: Path)
      requires p in files
      modifies `files
      ensures files == old(files) - {p}
    {
      files := files - {p};
    }

    method Rmdir(d: Path)
      requires d in dirs && !HasEntries(d)
      modifies `dirs
      ensures dirs == old(dirs) - {d}
    {
      dirs := dirs - {d};
    }

    method Mkdir(d: Path)
      requires d !in files && d !in dirs && d != "" && (ParentDir(d) == "" || ParentDir(d) in dirs)
      modifies `dirs
      ensures dirs == old(dirs) + {d}
    {
      dirs := dirs + {d};
    }

    method WriteFile(p: Path, f: File)
      requires p !in dirs && p != "" && (ParentDir(p) == "" || ParentDir(p) in dirs)
      modifies `files
      ensures files == old(files)[p := f]
    {
      files := files[p := f];
    }

    /** `remove`: unlink, then prune every directory that became empty. */
    method Remove(path: Path, ghost empty: set<Path>)
      requires Tidy(empty) && Rooted(empty) && path in files
      modifies this
      ensures Tidy(empty) && Rooted(empty) && files == old(files) - {path}
    {
      DirsLess(files.Keys, path);
      Unlink(path);
      Prune(path, empty);
    }

    /** The loop of `remove`: climb from an unlinked file while directories are empty. */
    method Prune(path: Path, ghost empty: set<Path>)
      requires GitPath(path) && UpClosed(empty)
      requires forall d :: d in empty && d in Above(path) ==> HoldsOne(d, empty)
      requires dirs == Dirs(files.Keys) + empty + Above(path)
      modifies `dirs
      ensures dirs == Dirs(files.Keys) + empty
    {
      GitPathHead(path);
      ParentDirAbove(path);
      var parent := ParentDir(path);
      while parent != "" && !HasEntries(parent)
        invariant parent == "" || parent in Above(path)
        invariant dirs == Dirs(files.Keys) + empty + Upward(parent)
        decreases |parent|
      {
        NoEntriesNotNeeded(parent, empty);
        Rmdir(parent);
        Climb(path, parent);
        parent := ParentDir(parent);
      }
      if parent != "" { EntriesNeedDir(parent, empty); }
    }

    /** A directory that files or empty directories need has entries. */
    lemma NoEntriesNotNeeded(parent: Path, empty: set<Path>)
      requires Dirs(files.Keys) + empty <= dirs && (parent in empty ==> HoldsOne(parent, empty))
      ensures !HasEntries(parent) ==> parent !in Dirs(files.Keys) + empty
    {
      if parent in Dirs(files.Keys) {
        var p :| p in files.Keys && parent in Above(p);
        var e := ChildOf(p, parent);
        assert e in files.Keys + dirs;
      } else if parent in empty {
        var e :| e in empty && e != "" && ParentDir(e) == parent;
        assert e in files.Keys + dirs;
      }
    }

    lemma EntriesNeedDir(parent: Path, empty: set<Path>)
      requires HasEntries(parent) && parent != "" && UpClosed(empty)
      requires dirs == Dirs(files.Keys) + empty + Upward(parent)
      ensures dirs == Dirs(files.Keys) + empty
    {
      var e :| e in files.Keys + dirs && e != "" && ParentDir(e) == parent;
      ParentDirAbove(e);
      if e in files.Keys {
        assert parent in Dirs(files.Keys);
        DirsClosed(files.Keys, parent);
      } else if e in Dirs(files.Keys) {
        DirsClosed(files.Keys, e);
        DirsClosed(files.Keys, parent);
      } else {
        assert e in empty;
      }
    }

    /** `parent.mkdir(parents=True, exist_ok=True)`: create what is missing, outermost first; refused, with
        nothing created, if a file is in the way. */
    method MkdirParents(path: Path, ghost empty: set<Path>) returns (made: bool)
      requires GitPath(path) && Tidy(empty)
      modifies `dirs
      ensures made <==> Above(path) !! files.Keys
      ensures dirs == if made then old(dirs) + Above(path) else old(dirs)
    {
      GitPathHead(path);
      var i := 0;
      while i < |path|
        invariant 0 <= i <= |path|
        invariant dirs == old(dirs) + AboveUpTo(path, i) && AboveUpTo(path, i) !! files.Keys
      {
        if path[i] == '/' && path[..i] in files {
          FileUnderDirs(path, i);
          assert path[..i] in Above(path);
          return false;
        }
        if path[i] == '/' && path[..i] !in dirs {
          ParentMade(path, i);
          Mkdir(path[..i]);
        }
        AboveStep(path, i);
        i := i + 1;
      }
      made := true;
    }

    /** The directories above a file are there already. */
    lemma FileUnderDirs(path: Path, i: nat)
      requires i < |path| && path[i] == '/' && path[..i] in files
      ensures AboveUpTo(path, i) <= Dirs(files.Keys)
    {
      forall d | d in AboveUpTo(path, i) ensures d in Dirs(files.Keys) {
        var k :| 0 <= k < i && path[k] == '/' && path[..k] == d;
        assert path[..i][k] == '/' && path[..i][..k] == d;
        assert d in Above(path[..i]);
      }
    }

    /** Writes the file, unless a file is in the way of its directories or a directory is in its own place;
        then nothing has changed. */
    method Write(path: Path, f: File, ghost empty: set<Path>) returns (written: bool)
      requires Tidy(empty) && GitPath(path)
      modifies this
      ensures written <==> Writable(path, old(files.Keys), old(dirs))
      ensures written ==> Tidy(empty) && files == old(files)[path := f]
      ensures !written ==> files == old(files) && dirs == old(dirs)
    {
      GitPathHead(path);
      ParentDirAbove(path);
      written := MkdirParents(path, empty);
      if !written { return; }
      if path in dirs {
        AboveNotSelf(path);
        DirsOfDir(files.Keys, empty, path);
        return false;
      }
      DirsMore(files.Keys, path);
      PrefixFreeDirs(files.Keys);
      PrefixFreeDirs(files.Keys + {path});
      WriteFile(path, f);
      assert files.Keys == old(files.Keys) + {path};
    }
  }

  /** No directory is at the path and no file where it needs a directory. */
  ghost predicate Writable(path: Path, files: set<Path>, dirs: set<Path>) {
    path !in dirs && Above(path) !! files
  }

  /** With a directory its own directories. */
  ghost predicate UpClosed(empty: set<Path>) {
    forall d :: d in empty ==> Above(d) <= empty
  }

  /** Some directory of the set lies directly in d. */
  ghost predicate HoldsOne(d: Path, empty: set<Path>) {
    exists e :: e in empty && e != "" && ParentDir(e) == d
  }

  lemma AboveNotSelf(path: Path)
    ensures path !in Above(path)
  {
    forall i | 0 <= i < |path| ensures path[..i] != path { assert |path[..i]| == i; }
  }

  lemma DirsOfDir(files: set<Path>, empty: set<Path>, d: Path)
    requires UpClosed(empty) && d in Dirs(files) + empty
    ensures Above(d) <= Dirs(files) + empty
  {
    if d in Dirs(files) { DirsClosed(files, d); }
  }

  /** Every file system tree is tidy, counting its empty directories, and those lead down to a bare one. */
  lemma ValidIsTidy(tree: WorkingTree)
    requires tree.Valid()
    ensures tree.Tidy(tree.Empty()) && tree.Rooted(tree.Empty()) && "" !in tree.Empty()
  {
    var bare, empty := tree.dirs - Dirs(tree.files.Keys), tree.Empty();
    PrefixFreeDirs(tree.files.Keys);
    forall d | d in Dirs(bare) ensures d in tree.dirs && Above(d) <= Dirs(bare) && HoldsOne(d, empty) {
      DirsClosed(bare, d);
      var e :| e in bare && d in Above(e);
      assert Above(e) <= tree.dirs;
      var c := ChildOf(e, d);
      assert c in empty;
    }
    forall d | d in bare ensures Above(d) <= empty {
      forall c | c in Above(d) ensures c in Dirs(bare) {}
    }
  }

  lemma TidyIsValid(tree: WorkingTree, empty: set<Path>)
    requires tree.Tidy(empty) && "" !in empty
    ensures tree.Valid()
  {
    PrefixFreeDirs(tree.files.Keys);
    forall d | d in tree.dirs ensures Above(d) <= tree.dirs { DirsOfDir(tree.files.Keys, empty, d); }
    if "" in Dirs(tree.files.Keys) {
      var p :| p in tree.files.Keys && "" in Above(p);
      GitPathHead(p);
      AboveIsInside(p, "");
    }
  }

  ghost function AboveUpTo(path: Path, n: nat): set<Path>
    requires n <= |path|
  {
    set i | 0 <= i < n && path[i] == '/' :: path[..i]
  }

  lemma AboveStep(path: Path, i: nat)
    requires i < |path|
    ensures AboveUpTo(path, i + 1) == AboveUpTo(path, i) + (if path[i] == '/' then {path[..i]} else {})
  {}

  lemma DirsLess(files: set<Path>, path: Path)
    requires path in files
    ensures Dirs(files) == Dirs(files - {path}) + Above(path)
  {
    assert files == (files - {path}) + {path};
    DirsMore(files - {path}, path);
  }

  lemma DirsMore(files: set<Path>, path: Path)
    ensures Dirs(files + {path}) == Dirs(files) + Above(path)
  {
    forall d ensures d in Dirs(files + {path}) <==> d in Dirs(files) || d in Above(path) {}
  }

  /** Going up from parent leaves exactly the parent's own directories. */
  lemma Climb(path: Path, parent: Path)
    requires parent in Above(path) && parent != "" && path != "" && path[0] != '/'
    ensures var up := ParentDir(parent);
            && Upward(parent) == {parent} + Upward(up) && parent !in Upward(up)
            && (up == "" || up in Above(path)) && |up| < |parent|
  {
    AboveIsInside(path, parent);
    assert parent[0] == path[0];
    ParentDirAbove(parent);
    var up := ParentDir(parent);
    AboveIsInside(parent, "");
    if up != "" {
      AboveIsInside(parent, up);
      InsideTransitive(up, parent, path);
      AboveIsInside(path, up);
    }
    AboveNotSelf(parent);
  }

  lemma ParentMade(path: Path, i: nat)
    requires path != "" && path[0] != '/' && i < |path| && path[i] == '/'
    ensures path[..i] != ""
    ensures ParentDir(path[..i]) == "" || ParentDir(path[..i]) in AboveUpTo(path, i)
  {
    var d := path[..i];
    ParentDirAbove(d);
    if '/' in d {
      var k :| 0 <= k < |d| && d[k] == '/' && d[..k] == ParentDir(d);
      assert path[..k] == d[..k];
    }
  }
}
