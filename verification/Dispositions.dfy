/** What a preview decides about one changed path, in terms of the three trees and their blobs alone. */
module Dispositions {
  import opened Wrappers
  import opened Paths
  import opened Preview
  import opened Rows
  import opened Conflicts
  import opened ThreeWay
  import opened PreviewInputs
  import Normalization

  // ---- The three versions of a changed path --------------------------------------------------

  /** The file in upstream's base, in the fork and in upstream's target, normalized; None where there is none. */
  datatype Sides = Sides(base: Option<Version>, fork: Option<Version>, target: Option<Version>)

  /** Upstream's name for the file before the change. */
  function NameBefore(d: Delta): Path {
    match d.oldPath
    case None => d.path
    case Some(name) => name
  }

  /** A regular file with NUL-free text that decodes. */
  ghost predicate TextFile(inp: Inputs, tree: Tree, p: Path) {
    && p in tree && tree[p].mode in {"100644", "100755"} && tree[p].oid in inp.blobs
    && 0 !in inp.blobs[tree[p].oid] && inp.decode(inp.blobs[tree[p].oid]).Some?
  }

  /** The tree has nothing at p, or a text file with this mode and this text once it is normalized. */
  ghost predicate Holds(inp: Inputs, tree: Tree, p: Path, upstream: bool, exempt: bool, v: Option<Version>) {
    match v
    case None => p !in tree
    case Some(w) =>
      && TextFile(inp, tree, p) && w.mode == tree[p].mode
      && w.text == Normalization.Normalize(inp.decode(inp.blobs[tree[p].oid]).value, upstream, exempt)
  }

  /** The fork has files of its own at both names of a renamed file. */
  ghost predicate BothNamesTaken(inp: Inputs, d: Delta) {
    && inp.forkPath(NameBefore(d)) != inp.forkPath(d.path)
    && inp.forkPath(NameBefore(d)) in inp.ours && inp.forkPath(d.path) in inp.ours
  }

  /** The fork's file for d lies at its old name if there is one, else it would lie at the new name. */
  ghost predicate LiesAt(inp: Inputs, d: Delta, at: Path) {
    if inp.forkPath(NameBefore(d)) in inp.ours then at == inp.forkPath(NameBefore(d)) else at == inp.forkPath(d.path)
  }

  /** All three sides of d are text or missing, the fork's at `at`, and these are the versions. Upstream's are
      rebranded, unless the file is a README under either name, the fork's never. */
  ghost predicate Reads(inp: Inputs, d: Delta, at: Path, s: Sides) {
    var exempt := inp.readme(d.path) || inp.readme(NameBefore(d));
    && LiesAt(inp, d, at) && !BothNamesTaken(inp, d)
    && Holds(inp, inp.bases, NameBefore(d), true, exempt, s.base)
    && Holds(inp, inp.ours, at, false, exempt, s.fork)
    && Holds(inp, inp.targets, d.path, true, exempt, s.target)
  }

  function SidesOf(inp: Inputs, d: Delta): Sides {
    var objects := inp.ObjectsOf(d);
    Sides(inp.VersionOf(objects.base, true, inp.Exempt(d)), inp.VersionOf(objects.ours, false, inp.Exempt(d)),
          inp.VersionOf(objects.theirs, true, inp.Exempt(d)))
  }

  const STRUCTURAL: set<Status> := {RenameCollision, SpecialEntry, Binary, NonUtf8}

  predicate Plainly(inp: Inputs, o: Option<Obj>) {
    !inp.Special(o) && !inp.IsBinary(o) && !inp.Opaque(o)
  }

  lemma HoldsExactly(inp: Inputs, tree: Tree, p: Path, upstream: bool, exempt: bool, v: Option<Version>)
    requires inp.TreeReadable(tree)
    ensures var o := inp.Find(tree, p);
            Holds(inp, tree, p, upstream, exempt, v) <==> Plainly(inp, o) && v == inp.VersionOf(o, upstream, exempt)
  {}

  lemma DecideIsTextual(s: Sides, merge: Merge)
    ensures Decide(s.base, s.fork, s.target, merge).status !in STRUCTURAL + {PathConflict}
  {}

  lemma TextBranch(inp: Inputs, d: Delta)
    ensures var o, v, s := inp.ObjectsOf(d), inp.VerdictOf(d), SidesOf(inp, d);
            && (v.status !in STRUCTURAL <==>
                !inp.Collides(d) && Plainly(inp, o.base) && Plainly(inp, o.ours) && Plainly(inp, o.theirs))
            && (v.status !in STRUCTURAL ==> v == Decide(s.base, s.fork, s.target, inp.merge))
  {
    DecideIsTextual(SidesOf(inp, d), inp.merge);
  }

  lemma NamesExactly(inp: Inputs, d: Delta, at: Path)
    ensures LiesAt(inp, d, at) <==> at == inp.OursPath(d)
    ensures BothNamesTaken(inp, d) <==> inp.Collides(d)
    ensures inp.OldPath(d) == NameBefore(d)
  {}

  /** The versions that the code computes are those ones, and it computes them exactly for such rows. */
  lemma ReadsExactly(inp: Inputs, d: Delta, at: Path, s: Sides)
    requires inp.Readable()
    ensures Reads(inp, d, at, s) <==>
            at == inp.OursPath(d) && s == SidesOf(inp, d) && inp.VerdictOf(d).status !in STRUCTURAL
    ensures Reads(inp, d, at, s) ==> inp.VerdictOf(d) == Decide(s.base, s.fork, s.target, inp.merge)
  {
    TextBranch(inp, d);
    NamesExactly(inp, d, at);
    HoldsExactly(inp, inp.bases, NameBefore(d), true, inp.Exempt(d), s.base);
    HoldsExactly(inp, inp.ours, at, false, inp.Exempt(d), s.fork);
    HoldsExactly(inp, inp.targets, d.path, true, inp.Exempt(d), s.target);
  }

  // ---- What the versions say -----------------------------------------------------------------

  /** Upstream deleted the file and the fork has it as upstream's base had it. */
  predicate UneditedDeletion(s: Sides) {
    s.target.None? && s.fork.Some? && s.fork == s.base
  }

  /** Both have the file, and v is the conflict-free merge of their texts under the mode that honours both. */
  ghost predicate MergesTo(s: Sides, merge: Merge, v: Version) {
    && s.fork.Some? && s.target.Some? && Honours(s.base, s.fork.value, s.target.value, v.mode)
    && merge(if s.base.Some? then s.base.value.text else "", s.fork.value.text, s.target.value.text) == (v.text, 0)
  }

  ghost predicate Merges(s: Sides, merge: Merge) {
    exists v :: MergesTo(s, merge, v)
  }

  /** Both have the file and a mode honours both, but the merge of their texts has n > 0 conflicts. */
  ghost predicate ConflictsIn(s: Sides, merge: Merge, n: nat) {
    && n > 0 && s.fork.Some? && s.target.Some? && (exists m :: Honours(s.base, s.fork.value, s.target.value, m))
    && merge(if s.base.Some? then s.base.value.text else "", s.fork.value.text, s.target.value.text).1 == n
  }

  /** Only upstream's target has the file. */
  predicate NewUpstream(s: Sides) {
    s.base.None? && s.fork.None? && s.target.Some?
  }

  /** v is what the fork's file should become. */
  ghost predicate Becomes(s: Sides, merge: Merge, v: Version) {
    MergesTo(s, merge, v) || (NewUpstream(s) && s.target == Some(v))
  }

  lemma MergesExactly(s: Sides, merge: Merge, v: Version)
    ensures var r := Decide(s.base, s.fork, s.target, merge);
            && (MergesTo(s, merge, v) <==>
                r.status in {Clean, AddAddEqual} && r.mergedMode == Some(v.mode) && r.merged == Some(v.text))
            && (r.status in {Clean, AddAddEqual} ==> r.mergedMode.Some? && r.merged.Some? && r.conflicts == 0)
  {
    if s.fork.Some? && s.target.Some? { ModesMerge(s.base, s.fork.value, s.target.value, merge); }
  }

  /** The status of a row tells, and is told by, what its versions are. */
  lemma StatusMeans(inp: Inputs, d: Delta, at: Path, s: Sides)
    requires inp.Readable() && Reads(inp, d, at, s)
    ensures var v := inp.VerdictOf(d);
            && (v.status == AlreadyAbsent <==> s.target.None? && s.fork.None?)
            && (v.status == DeleteClean <==> UneditedDeletion(s))
            && (v.status == DeleteModify <==> s.target.None? && s.fork.Some? && s.fork != s.base)
            && (v.status == AddClean <==> NewUpstream(s))
            && (v.status == ModifyDelete <==> s.target.Some? && s.fork.None? && s.base.Some?)
            && (v.status == Clean <==> Merges(s, inp.merge) && s.base.Some?)
            && (v.status == AddAddEqual <==> Merges(s, inp.merge) && s.base.None?)
            && (v.status == Conflict <==> ConflictsIn(s, inp.merge, v.conflicts) && s.base.Some?)
            && (v.status == AddAddConflict <==> ConflictsIn(s, inp.merge, v.conflicts) && s.base.None?)
            && (v.status == ModeConflict <==> s.fork.Some? && s.target.Some?
                                              && forall m :: !Honours(s.base, s.fork.value, s.target.value, m))
    ensures forall w :: Becomes(s, inp.merge, w) ==>
              inp.VerdictOf(d).merged == Some(w.text) && inp.VerdictOf(d).mergedMode == Some(w.mode)
  {
    ReadsExactly(inp, d, at, s);
    forall w ensures MergesTo(s, inp.merge, w) <==>
                     inp.VerdictOf(d).status in {Clean, AddAddEqual}
                     && inp.VerdictOf(d).mergedMode == Some(w.mode) && inp.VerdictOf(d).merged == Some(w.text)
    {
      MergesExactly(s, inp.merge, w);
    }
    var v := inp.VerdictOf(d);
    if v.status in {Clean, AddAddEqual} {
      MergesExactly(s, inp.merge, Version("", ""));
      assert MergesTo(s, inp.merge, Version(v.merged.value, v.mergedMode.value));
    }
    if s.fork.Some? && s.target.Some? { ModesMerge(s.base, s.fork.value, s.target.value, inp.merge); }
  }

  predicate IrregularAt(tree: Tree, p: Path) {
    p in tree && tree[p].mode !in {"100644", "100755"}
  }

  predicate NulAt(inp: Inputs, tree: Tree, p: Path) {
    p in tree && tree[p].kind == "blob" && tree[p].oid in inp.blobs && 0 in inp.blobs[tree[p].oid]
  }

  /** One of the three sides is a symbolic link, a submodule or the like. */
  ghost predicate Irregular(inp: Inputs, d: Delta) {
    || IrregularAt(inp.bases, NameBefore(d)) || IrregularAt(inp.targets, d.path)
    || exists at :: LiesAt(inp, d, at) && IrregularAt(inp.ours, at)
  }

  /** One of the three sides holds a NUL byte. */
  ghost predicate HasNul(inp: Inputs, d: Delta) {
    || NulAt(inp, inp.bases, NameBefore(d)) || NulAt(inp, inp.targets, d.path)
    || exists at :: LiesAt(inp, d, at) && NulAt(inp, inp.ours, at)
  }

  lemma SidesExactly(inp: Inputs, d: Delta)
    ensures var o := inp.ObjectsOf(d);
            && (Irregular(inp, d) <==> inp.Special(o.base) || inp.Special(o.ours) || inp.Special(o.theirs))
            && (HasNul(inp, d) <==> inp.IsBinary(o.base) || inp.IsBinary(o.ours) || inp.IsBinary(o.theirs))
  {
    var at := inp.OursPath(d);
    assert LiesAt(inp, d, at);
    assert forall p :: LiesAt(inp, d, p) ==> p == at;
  }

  /** Rows that are no text keep out of the merge, for the first of four reasons. */
  lemma StructuralMeans(inp: Inputs, d: Delta)
    requires inp.Readable()
    ensures var status := inp.VerdictOf(d).status;
            && (status == RenameCollision <==> BothNamesTaken(inp, d))
            && (status == SpecialEntry <==> !BothNamesTaken(inp, d) && Irregular(inp, d))
            && (status == Binary <==> !BothNamesTaken(inp, d) && !Irregular(inp, d) && HasNul(inp, d))
            && (status == NonUtf8 <==> !BothNamesTaken(inp, d) && !Irregular(inp, d) && !HasNul(inp, d)
                                       && forall at, s :: !Reads(inp, d, at, s))
  {
    NamesExactly(inp, d, inp.OursPath(d));
    SidesExactly(inp, d);
    DecideIsTextual(SidesOf(inp, d), inp.merge);
    forall at, s ensures Reads(inp, d, at, s) ==> inp.VerdictOf(d).status !in STRUCTURAL {
      ReadsExactly(inp, d, at, s);
    }
    ReadsExactly(inp, d, inp.OursPath(d), SidesOf(inp, d));
  }

  /** The row's result can be written or its file deleted without anybody looking at it. */
  ghost predicate Mechanical(s: Sides, merge: Merge) {
    UneditedDeletion(s) || NewUpstream(s) || Merges(s, merge)
  }

  ghost predicate CanApply(inp: Inputs, d: Delta) {
    exists at, s :: Reads(inp, d, at, s) && Mechanical(s, inp.merge)
  }

  lemma MechanicalWhen(s: Sides, merge: Merge)
    ensures Mechanical(s, merge) <==> Decide(s.base, s.fork, s.target, merge).status in APPLYABLE
  {
    var r := Decide(s.base, s.fork, s.target, merge);
    forall v ensures MergesTo(s, merge, v) ==> r.status in {Clean, AddAddEqual} { MergesExactly(s, merge, v); }
    if r.status in {Clean, AddAddEqual} {
      MergesExactly(s, merge, Version("", ""));
      MergesExactly(s, merge, Version(r.merged.value, r.mergedMode.value));
    }
  }

  lemma CanApplyBySides(inp: Inputs, d: Delta)
    requires inp.Readable()
    ensures CanApply(inp, d) <==>
            Reads(inp, d, inp.OursPath(d), SidesOf(inp, d)) && Mechanical(SidesOf(inp, d), inp.merge)
  {
    forall at, s | Reads(inp, d, at, s) ensures at == inp.OursPath(d) && s == SidesOf(inp, d) {
      ReadsExactly(inp, d, at, s);
    }
  }

  lemma ApplyableIsTextual(status: Status)
    ensures status in APPLYABLE ==> status !in STRUCTURAL
  {}

  /** The applyable statuses are exactly those of such rows. */
  lemma CanApplyExactly(inp: Inputs, d: Delta)
    requires inp.Readable()
    ensures CanApply(inp, d) <==> inp.VerdictOf(d).status in APPLYABLE
  {
    var at, s := inp.OursPath(d), SidesOf(inp, d);
    CanApplyBySides(inp, d);
    ReadsExactly(inp, d, at, s);
    ApplyableIsTextual(inp.VerdictOf(d).status);
    if Reads(inp, d, at, s) { MechanicalWhen(s, inp.merge); }
  }

  // ---- Path conflicts ------------------------------------------------------------------------

  /** The fork's file at p goes: upstream deleted it and the fork had not edited it, or its merge goes elsewhere. */
  ghost predicate TakesAway(s: Sides, merge: Merge, p: Path, destination: Path) {
    UneditedDeletion(s) || (Merges(s, merge) && p != destination)
  }

  /** Unless it is blocked, d takes the fork's file away from p. */
  ghost predicate Frees(inp: Inputs, d: Delta, p: Path) {
    exists s :: Reads(inp, d, p, s) && TakesAway(s, inp.merge, p, inp.forkPath(d.path))
  }

  lemma FreesBySides(inp: Inputs, d: Delta, p: Path)
    requires inp.Readable()
    ensures var s := SidesOf(inp, d);
            Frees(inp, d, p) <==> Reads(inp, d, p, s) && TakesAway(s, inp.merge, p, inp.forkPath(d.path))
  {
    forall t | Reads(inp, d, p, t) ensures t == SidesOf(inp, d) { ReadsExactly(inp, d, p, t); }
  }

  predicate RemovesRow(inp: Inputs, d: Delta) {
    Removes(inp.OursPath(d), inp.forkPath(d.path), inp.VerdictOf(d).status)
  }

  lemma RemovesIsText(inp: Inputs, d: Delta)
    ensures RemovesRow(inp, d) ==> inp.VerdictOf(d).status !in STRUCTURAL
  {}

  /** Which is what the classification assumes, for every row. */
  lemma FreesExactly(inp: Inputs, d: Delta, p: Path)
    requires inp.Readable()
    ensures Frees(inp, d, p) <==> p == inp.OursPath(d) && RemovesRow(inp, d)
  {
    var s := SidesOf(inp, d);
    FreesBySides(inp, d, p);
    ReadsExactly(inp, d, p, s);
    RemovesIsText(inp, d);
    if Reads(inp, d, p, s) { RemovesWhen(s, inp.merge, p, inp.forkPath(d.path)); }
  }

  lemma FreesForkFile(inp: Inputs, d: Delta, p: Path)
    requires Frees(inp, d, p)
    ensures p in inp.ours
  {
    var s :| Reads(inp, d, p, s) && TakesAway(s, inp.merge, p, inp.forkPath(d.path));
    assert s.fork.Some?;
  }

  lemma RemovesWhen(s: Sides, merge: Merge, p: Path, destination: Path)
    ensures Removes(p, destination, Decide(s.base, s.fork, s.target, merge).status) <==>
            TakesAway(s, merge, p, destination)
  {
    var r := Decide(s.base, s.fork, s.target, merge);
    forall v ensures MergesTo(s, merge, v) ==> r.status in {Clean, AddAddEqual} { MergesExactly(s, merge, v); }
    if r.status in {Clean, AddAddEqual} {
      MergesExactly(s, merge, Version("", ""));
      MergesExactly(s, merge, Version(r.merged.value, r.mergedMode.value));
    }
  }

  predicate Within(inp: Inputs, s: set<nat>) {
    forall i :: i in s ==> i < |inp.deltas|
  }

  function Below(n: nat): (s: set<nat>)
    ensures forall i: nat :: i in s <==> i < n
  {
    if n == 0 then {} else Below(n - 1) + {n - 1}
  }

  /** Every row. */
  function All(inp: Inputs): (s: set<nat>)
    ensures Within(inp, s)
  {
    Below(|inp.deltas|)
  }

  /** The fork paths that these rows take away. */
  ghost function FreedBy(inp: Inputs, rows: set<nat>): set<Path>
    requires Within(inp, rows)
  {
    set p | p in inp.ours.Keys && exists i :: i in rows && Frees(inp, inp.deltas[i], p)
  }

  /** Row i writes a path that would be a directory of a remaining fork file, or lie inside one. */
  ghost predicate InTheWay(inp: Inputs, freed: set<Path>, i: nat)
    requires i < |inp.deltas|
  {
    && inp.deltas[i].path in inp.targets
    && exists q :: q in inp.ours && q !in freed && Clash(q, inp.forkPath(inp.deltas[i].path))
  }

  /** Every row that something is in the way of, once the blocked rows take nothing away, is blocked. */
  ghost predicate ClosedRows(inp: Inputs, rows: set<nat>, blocked: set<nat>)
    requires Within(inp, rows)
  {
    forall i :: i in rows && InTheWay(inp, FreedBy(inp, rows - blocked), i) ==> i in blocked
  }

  /** The path conflicts among these rows: the least such set. */
  ghost predicate LeastBlocked(inp: Inputs, rows: set<nat>, blocked: set<nat>)
    requires Within(inp, rows)
  {
    && blocked <= rows && ClosedRows(inp, rows, blocked)
    && forall c: set<nat> :: c <= rows && ClosedRows(inp, rows, c) ==> blocked <= c
  }

  lemma LeastBlockedUnique(inp: Inputs, rows: set<nat>, a: set<nat>, b: set<nat>)
    requires Within(inp, rows) && LeastBlocked(inp, rows, a) && LeastBlocked(inp, rows, b)
    ensures a == b
  {}

  // ---- The same on facts ---------------------------------------------------------------------

  function PlanFact(inp: Inputs, i: nat): Fact
    requires i < |inp.deltas|
  {
    var d := inp.deltas[i];
    Fact(inp.forkPath(d.path), inp.OursPath(d), inp.ObjectsOf(d).theirs.Some?, inp.VerdictOf(d).status)
  }

  ghost function PlanFacts(inp: Inputs, rows: set<nat>): set<Fact>
    requires Within(inp, rows)
  {
    set i | i in rows :: PlanFact(inp, i)
  }

  /** The rows whose fact is in the set. */
  ghost function Numbered(inp: Inputs, rows: set<nat>, facts: set<Fact>): set<nat>
    requires Within(inp, rows)
  {
    set i | i in rows && PlanFact(inp, i) in facts
  }

  /** A set of facts and a set of rows that leave the same fork paths in place. */
  lemma SameFreed(inp: Inputs, rows: set<nat>, facts: set<Fact>, kept: set<nat>)
    requires inp.Readable() && Within(inp, rows) && kept <= rows && facts <= PlanFacts(inp, rows)
    requires forall f :: f in PlanFacts(inp, rows) && f !in facts <==> exists i :: i in kept && PlanFact(inp, i) == f
    ensures RemovedBy(PlanFacts(inp, rows), facts) == FreedBy(inp, kept)
  {
    forall p ensures p in RemovedBy(PlanFacts(inp, rows), facts) <==> p in FreedBy(inp, kept) {
      if p in RemovedBy(PlanFacts(inp, rows), facts) {
        var f :| f in PlanFacts(inp, rows) && f !in facts && Removes(f.oursPath, f.forkPath, f.status)
                 && f.oursPath == p;
        var i :| i in kept && PlanFact(inp, i) == f;
        FreesExactly(inp, inp.deltas[i], p);
        FreesForkFile(inp, inp.deltas[i], p);
      }
      if p in FreedBy(inp, kept) {
        var i :| i in kept && Frees(inp, inp.deltas[i], p);
        FreesExactly(inp, inp.deltas[i], p);
        assert PlanFact(inp, i) in PlanFacts(inp, rows);
      }
    }
  }

  lemma BlocksIsInTheWay(inp: Inputs, facts: set<Fact>, blocked: set<Fact>, freed: set<Path>, i: nat)
    requires inp.Readable() && i < |inp.deltas| && RemovedBy(facts, blocked) == freed
    ensures Blocks(facts, inp.ours.Keys, blocked, PlanFact(inp, i)) <==> InTheWay(inp, freed, i)
  {
    TextBranch(inp, inp.deltas[i]);
    DecideIsTextual(SidesOf(inp, inp.deltas[i]), inp.merge);
    var p, rest := inp.forkPath(inp.deltas[i].path), inp.ours.Keys - freed;
    assert Obstructed(p, rest) <==> exists q :: q in inp.ours && q !in freed && Clash(q, p);
  }

  /** The least blocked set of facts is the least blocked set of rows. */
  lemma LeastIsPlain(inp: Inputs, rows: set<nat>, facts: set<Fact>)
    requires inp.Readable() && Within(inp, rows) && Least(PlanFacts(inp, rows), inp.ours.Keys, facts)
    ensures LeastBlocked(inp, rows, Numbered(inp, rows, facts))
  {
    var all, blocked := PlanFacts(inp, rows), Numbered(inp, rows, facts);
    SameFreed(inp, rows, facts, rows - blocked);
    forall i | i in rows && InTheWay(inp, FreedBy(inp, rows - blocked), i) ensures i in blocked {
      BlocksIsInTheWay(inp, all, facts, FreedBy(inp, rows - blocked), i);
    }
    forall c: set<nat> | c <= rows && ClosedRows(inp, rows, c) ensures blocked <= c {
      ClosedOnFacts(inp, rows, c);
    }
  }

  /** The facts all of whose rows are in the set. */
  ghost function FactsOnlyOf(inp: Inputs, rows: set<nat>, c: set<nat>): set<Fact>
    requires Within(inp, rows)
  {
    set f | f in PlanFacts(inp, rows) && forall i :: i in rows && PlanFact(inp, i) == f ==> i in c
  }

  lemma ClosedOnFacts(inp: Inputs, rows: set<nat>, c: set<nat>)
    requires inp.Readable() && Within(inp, rows) && c <= rows && ClosedRows(inp, rows, c)
    ensures Closed(PlanFacts(inp, rows), inp.ours.Keys, FactsOnlyOf(inp, rows, c))
  {
    var all, only := PlanFacts(inp, rows), FactsOnlyOf(inp, rows, c);
    SameFreed(inp, rows, only, rows - c);
    forall f | f in all && Blocks(all, inp.ours.Keys, only, f) ensures f in only {
      forall i | i in rows && PlanFact(inp, i) == f ensures i in c {
        BlocksIsInTheWay(inp, all, only, FreedBy(inp, rows - c), i);
      }
    }
  }
}
