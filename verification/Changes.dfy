/** `parse_changes` and `paths_in`: the NUL-separated output of `git diff --name-status -z`. */
module Changes {
  import opened Wrappers
  import opened Text

  const NUL: char := 0 as char

  /** One name-status record; renames and copies carry the old path. */
  datatype Change = Change(status: string, path: string, oldPath: Option<string>)

  datatype ParseError = MissingPath | MissingNewPath

  predicate TwoPaths(status: string) {
    status != "" && (status[0] == 'R' || status[0] == 'C')
  }

  function Records(fields: seq<string>): Result<seq<Change>, ParseError>
    decreases |fields|
  {
    if fields == [] || fields[0] == "" then Success([])
    else if |fields| < 2 then Failure(MissingPath)
    else if TwoPaths(fields[0]) then
      if |fields| < 3 then Failure(MissingNewPath)
      else Cons(Change(fields[0], fields[2], Some(fields[1])), Records(fields[3..]))
    else Cons(Change(fields[0], fields[1], None), Records(fields[2..]))
  }

  function Cons(c: Change, r: Result<seq<Change>, ParseError>): Result<seq<Change>, ParseError> {
    if r.Failure? then r else Success([c] + r.value)
  }

  function Before(done: seq<Change>, r: Result<seq<Change>, ParseError>): Result<seq<Change>, ParseError> {
    if r.Failure? then r else Success(done + r.value)
  }

  method ParseChanges(raw: string) returns (r: Result<seq<Change>, ParseError>)
    ensures r == Records(Split(raw, NUL))
  {
    var fields := Split(raw, NUL);
    var result: seq<Change> := [];
    var cursor := 0;
    assert fields[0..] == fields;
    BeforeNothing(Records(fields));
    while cursor < |fields| && fields[cursor] != ""
      invariant 0 <= cursor <= |fields|
      invariant Records(fields) == Before(result, Records(fields[cursor..]))
    {
      ghost var rest := fields[cursor..];
      if cursor + 1 >= |fields| { return Failure(MissingPath); }
      var status, path := fields[cursor], fields[cursor + 1];
      cursor := cursor + 2;
      var item := Change(status, path, None);
      if TwoPaths(status) {
        if cursor >= |fields| { return Failure(MissingNewPath); }
        item := Change(status, fields[cursor], Some(path));
        cursor := cursor + 1;
        assert rest[3..] == fields[cursor..];
      } else {
        assert rest[2..] == fields[cursor..];
      }
      BeforeCons(result, item, Records(fields[cursor..]));
      result := result + [item];
    }
    r := Success(result);
    assert result + [] == result;
  }

  lemma BeforeNothing(r: Result<seq<Change>, ParseError>)
    ensures Before([], r) == r
  {
    if r.Success? { assert [] + r.value == r.value; }
  }

  lemma BeforeCons(done: seq<Change>, c: Change, r: Result<seq<Change>, ParseError>)
    ensures Before(done, Cons(c, r)) == Before(done + [c], r)
  {
    if r.Success? { assert done + ([c] + r.value) == done + [c] + r.value; }
  }

  // ---- The printer -------------------------------------------------------------------------

  function FieldsOf(c: Change): seq<string> {
    if c.oldPath.Some? then [c.status, c.oldPath.value, c.path] else [c.status, c.path]
  }

  function AllFields(changes: seq<Change>): seq<string> {
    if changes == [] then [] else FieldsOf(changes[0]) + AllFields(changes[1..])
  }

  /** Every field followed by NUL. */
  function Terminated(fields: seq<string>): string {
    if fields == [] then "" else fields[0] + [NUL] + Terminated(fields[1..])
  }

  function PrintChanges(changes: seq<Change>): string {
    Terminated(AllFields(changes))
  }

  /** Renames and copies, and only those, carry an old path. */
  predicate WellFormed(c: Change) {
    && c.status != "" && (c.oldPath.Some? <==> c.status[0] in {'R', 'C'})
    && forall i :: 0 <= i < |FieldsOf(c)| ==> NUL !in FieldsOf(c)[i]
  }

  lemma {:induction false} SplitTerminated(fields: seq<string>)
    requires forall i :: 0 <= i < |fields| ==> NUL !in fields[i]
    ensures Split(Terminated(fields), NUL) == fields + [""]
    decreases |fields|
  {
    if fields != [] {
      SplitTerminated(fields[1..]);
      SplitPiece(fields[0], NUL, Terminated(fields[1..]));
      assert [fields[0]] + (fields[1..] + [""]) == fields + [""];
    }
  }

  lemma {:induction false} FieldsClean(changes: seq<Change>)
    requires forall i :: 0 <= i < |changes| ==> WellFormed(changes[i])
    ensures forall i :: 0 <= i < |AllFields(changes)| ==> NUL !in AllFields(changes)[i]
    decreases |changes|
  {
    if changes != [] {
      FieldsClean(changes[1..]);
      assert WellFormed(changes[0]);
    }
  }

  lemma {:induction false} RecordsOfFields(changes: seq<Change>)
    requires forall i :: 0 <= i < |changes| ==> WellFormed(changes[i])
    ensures Records(AllFields(changes) + [""]) == Success(changes)
    decreases |changes|
  {
    if changes != [] {
      var c, head, rest := changes[0], FieldsOf(changes[0]), AllFields(changes[1..]) + [""];
      RecordsOfFields(changes[1..]);
      assert WellFormed(c);
      assert AllFields(changes) + [""] == head + rest;
      assert (head + rest)[|head|..] == rest;
      assert [c] + changes[1..] == changes;
    }
  }

  /** Parsing inverts printing for every list of changes, one-path and two-path records alike. */
  lemma ParseInvertsPrint(changes: seq<Change>)
    requires forall i :: 0 <= i < |changes| ==> WellFormed(changes[i])
    ensures Records(Split(PrintChanges(changes), NUL)) == Success(changes)
  {
    FieldsClean(changes);
    SplitTerminated(AllFields(changes));
    RecordsOfFields(changes);
  }

  /** And whatever is accepted is a well-formed list, so printing and parsing again changes nothing. */
  lemma {:induction false} ParsedIsWellFormed(fields: seq<string>)
    requires forall i :: 0 <= i < |fields| ==> NUL !in fields[i]
    requires Records(fields).Success?
    ensures forall i :: 0 <= i < |Records(fields).value| ==> WellFormed(Records(fields).value[i])
    decreases |fields|
  {
    if fields != [] && fields[0] != "" {
      ParsedIsWellFormed(if TwoPaths(fields[0]) then fields[3..] else fields[2..]);
    }
  }

  /** The fields are complete records, one after the other, and then nothing or an empty field. */
  ghost predicate Complete(fields: seq<string>, changes: seq<Change>) {
    && AllFields(changes) <= fields
    && (|AllFields(changes)| == |fields| || fields[|AllFields(changes)|] == "")
    && forall i :: 0 <= i < |changes| ==>
         changes[i].status != "" && (changes[i].oldPath.Some? <==> changes[i].status[0] in {'R', 'C'})
  }

  /** Exactly such fields are accepted, as exactly these records. */
  lemma {:induction false} AcceptedExactly(fields: seq<string>, changes: seq<Change>)
    ensures Records(fields) == Success(changes) <==> Complete(fields, changes)
    decreases |fields|
  {
    if changes != [] { FirstFields(changes); }
    if fields != [] && fields[0] != "" {
      var n := if TwoPaths(fields[0]) then 3 else 2;
      if changes != [] && |fields| >= n {
        AcceptedExactly(fields[n..], changes[1..]);
        AcceptedHead(fields, changes, n);
        ConsIs(if n == 3 then Change(fields[0], fields[2], Some(fields[1])) else Change(fields[0], fields[1], None),
               Records(fields[n..]), changes);
      }
    }
  }

  /** In a record of a rename or copy the old path comes before the new one. */
  lemma OldPathFirst(status: string, a: string, b: string, rest: seq<string>, more: seq<Change>)
    requires status != "" && Records(rest) == Success(more)
    ensures status[0] in {'R', 'C'} ==> Records([status, a, b] + rest) == Success([Change(status, b, Some(a))] + more)
    ensures status[0] !in {'R', 'C'} ==> Records([status, a] + rest) == Success([Change(status, a, None)] + more)
  {
    assert ([status, a, b] + rest)[3..] == rest && ([status, a] + rest)[2..] == rest;
  }

  lemma FirstFields(changes: seq<Change>)
    requires changes != []
    ensures FieldsOf(changes[0]) <= AllFields(changes) && AllFields(changes)[0] == changes[0].status
  {}

  lemma ConsIs(c: Change, r: Result<seq<Change>, ParseError>, changes: seq<Change>)
    requires changes != []
    ensures Cons(c, r) == Success(changes) <==> c == changes[0] && r == Success(changes[1..])
  {
    assert changes == [changes[0]] + changes[1..];
    if r.Success? { assert ([c] + r.value)[1..] == r.value; }
  }

  lemma AcceptedHead(fields: seq<string>, changes: seq<Change>, n: nat)
    requires changes != [] && fields != [] && fields[0] != "" && n == (if TwoPaths(fields[0]) then 3 else 2)
    requires |fields| >= n
    ensures Complete(fields, changes) <==>
            Complete(fields[n..], changes[1..])
            && changes[0] == (if n == 3 then Change(fields[0], fields[2], Some(fields[1]))
                              else Change(fields[0], fields[1], None))
  {
    var c, head, rest := changes[0], FieldsOf(changes[0]), AllFields(changes[1..]);
    assert AllFields(changes) == head + rest;
    if Complete(fields, changes) {
      assert head[0] == fields[0] && fields[..|head|] == head;
      assert |head| == n && rest <= fields[n..] by {
        assert fields[..|head + rest|] == head + rest;
        assert fields[n..][..|rest|] == rest;
      }
    }
    if Complete(fields[n..], changes[1..]) && |head| == n && head == fields[..n] {
      assert fields[..|head + rest|] == head + rest;
      assert changes == [c] + changes[1..];
    }
  }

  // ---- paths_in ------------------------------------------------------------------------------

  function PathsIn(items: seq<Change>): set<string> {
    (set i | 0 <= i < |items| :: items[i].path) +
    (set i | 0 <= i < |items| && items[i].oldPath.Some? :: items[i].oldPath.value)
  }

  /** The printed fields that are paths: all but the statuses. */
  function PrintedPaths(changes: seq<Change>): set<string> {
    if changes == [] then {} else (set p | p in FieldsOf(changes[0])[1..]) + PrintedPaths(changes[1..])
  }

  lemma {:induction false} PathsAreThePrinted(changes: seq<Change>)
    ensures PathsIn(changes) == PrintedPaths(changes)
    decreases |changes|
  {
    if changes != [] {
      var c, rest := changes[0], changes[1..];
      PathsAreThePrinted(rest);
      PathFields(c);
      PathsCons(c, rest);
      assert [c] + rest == changes;
    }
  }

  lemma PathFields(c: Change)
    ensures (set p | p in FieldsOf(c)[1..]) == {c.path} + (if c.oldPath.Some? then {c.oldPath.value} else {})
  {
    assert FieldsOf(c)[1..] == (if c.oldPath.Some? then [c.oldPath.value] else []) + [c.path];
  }

  lemma PathsCons(c: Change, rest: seq<Change>)
    ensures PathsIn([c] + rest) == {c.path} + (if c.oldPath.Some? then {c.oldPath.value} else {}) + PathsIn(rest)
  {
    var all := [c] + rest;
    assert forall i :: 0 <= i < |rest| ==> all[i + 1] == rest[i];
    assert all[0] == c;
    forall p | p in PathsIn(rest) ensures p in PathsIn(all) {
      if i :| 0 <= i < |rest| && rest[i].path == p { assert all[i + 1].path == p; }
      else { var i :| 0 <= i < |rest| && rest[i].oldPath == Some(p); assert all[i + 1].oldPath == Some(p); }
    }
  }
}
