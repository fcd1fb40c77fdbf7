/** `merge_entries` and `validate_ledger`: the recorded decisions and their strict schema. */
module Ledger {
  import opened Wrappers

  /** One recorded decision about an upstream commit. */
  datatype Entry = Entry(upstreamSha: string, status: string, forkCommits: seq<string>, reason: string,
                         remaining: seq<string>)

  // ---- merge_entries -----------------------------------------------------------------------

  predicate Unique(ports: seq<Entry>) {
    forall i, j :: 0 <= i < j < |ports| ==> ports[i].upstreamSha != ports[j].upstreamSha
  }

  /** The first entry recorded for sha, or |ports|. */
  function Position(ports: seq<Entry>, sha: string): (i: nat)
    ensures i <= |ports| && (i < |ports| ==> ports[i].upstreamSha == sha)
    ensures forall j :: 0 <= j < i ==> ports[j].upstreamSha != sha
  {
    if ports == [] || ports[0].upstreamSha == sha then 0 else 1 + Position(ports[1..], sha)
  }

  function Lookup(ports: seq<Entry>, sha: string): Option<Entry> {
    var i := Position(ports, sha);
    if i < |ports| then Some(ports[i]) else None
  }

  function Put(ports: seq<Entry>, e: Entry): seq<Entry> {
    var i := Position(ports, e.upstreamSha);
    if i < |ports| then ports[i := e] else ports + [e]
  }

  /** The decisions of a batch put one after the other. */
  function PutAll(ports: seq<Entry>, batch: seq<Entry>): seq<Entry>
    decreases |batch|
  {
    if batch == [] then ports else Put(PutAll(ports, batch[..|batch| - 1]), batch[|batch| - 1])
  }

  datatype MergeError = DuplicateInBatch(sha: string) | AlreadyRecorded(sha: string)

  /** Without update, an entry may only repeat what is recorded for its commit. */
  ghost predicate Admissible(ports: seq<Entry>, batch: seq<Entry>, update: bool) {
    && Unique(batch)
    && (update || forall i :: 0 <= i < |batch| ==> Lookup(ports, batch[i].upstreamSha) in {None, Some(batch[i])})
  }

  /** The error names the first entry that cannot be merged, and why. */
  ghost predicate MergeFault(ports: seq<Entry>, batch: seq<Entry>, update: bool, error: MergeError) {
    exists k :: 0 <= k < |batch| && FaultAt(ports, batch, update, error, k)
  }

  ghost predicate FaultAt(ports: seq<Entry>, batch: seq<Entry>, update: bool, error: MergeError, k: nat)
    requires k < |batch|
  {
    && Admissible(ports, batch[..k], update) && !Admissible(ports, batch[..k + 1], update)
    && error == if batch[k].upstreamSha in ShaSet(batch[..k]) then DuplicateInBatch(batch[k].upstreamSha)
                else AlreadyRecorded(batch[k].upstreamSha)
  }

  method MergeEntries(ports: seq<Entry>, entries: seq<Entry>, update: bool) returns (r: Result<seq<Entry>, MergeError>)
    ensures r.Success? <==> Admissible(ports, entries, update)
    ensures r.Success? ==> r.value == PutAll(ports, entries)
    ensures r.Failure? ==> MergeFault(ports, entries, update, r.error)
  {
    var merged := ports;
    var seen: set<string> := {};
    for k := 0 to |entries|
      invariant merged == PutAll(ports, entries[..k])
      invariant seen == ShaSet(entries[..k])
      invariant Admissible(ports, entries[..k], update)
    {
      var entry := entries[k];
      var sha := entry.upstreamSha;
      AdmissiblePrefix(ports, entries, k, update);
      if sha in seen {
        assert FaultAt(ports, entries, update, DuplicateInBatch(sha), k);
        return Failure(DuplicateInBatch(sha));
      }
      seen := seen + {sha};
      PutAllLookup(ports, entries[..k], sha);
      var existing := Position(merged, sha);
      if existing < |merged| && merged[existing] != entry && !update {
        assert FaultAt(ports, entries, update, AlreadyRecorded(sha), k);
        return Failure(AlreadyRecorded(sha));
      }
      assert entries[..k + 1][..k] == entries[..k];
      merged := if existing < |merged| then merged[existing := entry] else merged + [entry];
    }
    assert entries[..|entries|] == entries;
    r := Success(merged);
  }

  ghost function ShaSet(ports: seq<Entry>): set<string> {
    set i | 0 <= i < |ports| :: ports[i].upstreamSha
  }

  lemma AdmissiblePrefix(ports: seq<Entry>, batch: seq<Entry>, k: nat, update: bool)
    requires k < |batch| && Admissible(ports, batch[..k], update)
    ensures var sha := batch[k].upstreamSha;
            && (Admissible(ports, batch[..k + 1], update) <==>
                  sha !in ShaSet(batch[..k]) && (update || Lookup(ports, sha) in {None, Some(batch[k])}))
            && (Admissible(ports, batch, update) ==> Admissible(ports, batch[..k + 1], update))
            && ShaSet(batch[..k + 1]) == ShaSet(batch[..k]) + {sha}
            && (sha !in ShaSet(batch[..k]) ==> forall i :: 0 <= i < k ==> batch[..k][i].upstreamSha != sha)
  {
    UniquePrefix(batch, k);
    var less, more := batch[..k], batch[..k + 1];
    assert more == less + [batch[k]];
    assert more[k] == batch[k];
    assert forall i :: 0 <= i < k ==> more[i] == less[i];
  }

  lemma UniquePrefix(batch: seq<Entry>, k: nat)
    requires k < |batch| && Unique(batch[..k])
    ensures Unique(batch[..k + 1]) <==> batch[k].upstreamSha !in ShaSet(batch[..k])
    ensures Unique(batch) ==> Unique(batch[..k + 1])
    ensures ShaSet(batch[..k + 1]) == ShaSet(batch[..k]) + {batch[k].upstreamSha}
    ensures forall i :: 0 <= i < k ==> batch[..k][i].upstreamSha in ShaSet(batch[..k])
  {
    var less, more := batch[..k], batch[..k + 1];
    assert more == less + [batch[k]];
    forall i | 0 <= i < k ensures less[i].upstreamSha in ShaSet(less) {}
    if batch[k].upstreamSha in ShaSet(less) {
      var i :| 0 <= i < k && less[i].upstreamSha == batch[k].upstreamSha;
      assert more[i] == less[i] && more[k] == batch[k];
    }
  }

  lemma PutUnique(ports: seq<Entry>, e: Entry)
    requires Unique(ports)
    ensures Unique(Put(ports, e))
  {}

  lemma PutLookup(ports: seq<Entry>, e: Entry, sha: string)
    ensures Lookup(Put(ports, e), sha) == if sha == e.upstreamSha then Some(e) else Lookup(ports, sha)
  {
    var i, more := Position(ports, e.upstreamSha), Put(ports, e);
    var j, k := Position(ports, sha), Position(more, sha);
    if sha == e.upstreamSha {
      assert more[i] == e && k <= i;
    } else {
      assert forall n :: 0 <= n < |ports| && n != i ==> more[n] == ports[n];
    }
  }

  /** A commit outside the batch keeps its decision. */
  lemma {:induction false} PutAllLookup(ports: seq<Entry>, batch: seq<Entry>, sha: string)
    requires forall i :: 0 <= i < |batch| ==> batch[i].upstreamSha != sha
    ensures Lookup(PutAll(ports, batch), sha) == Lookup(ports, sha)
    decreases |batch|
  {
    if batch != [] {
      PutAllLookup(ports, batch[..|batch| - 1], sha);
      PutLookup(PutAll(ports, batch[..|batch| - 1]), batch[|batch| - 1], sha);
    }
  }

  /** A commit of the batch gets the batch's decision. */
  lemma {:induction false} PutAllOverrides(ports: seq<Entry>, batch: seq<Entry>, k: nat)
    requires Unique(batch) && k < |batch|
    ensures Lookup(PutAll(ports, batch), batch[k].upstreamSha) == Some(batch[k])
    decreases |batch|
  {
    var init, last := batch[..|batch| - 1], batch[|batch| - 1];
    PutLookup(PutAll(ports, init), last, batch[k].upstreamSha);
    if k < |init| { PutAllOverrides(ports, init, k); }
  }

  ghost function Shas(ports: seq<Entry>): seq<string> {
    seq(|ports|, i requires 0 <= i < |ports| => ports[i].upstreamSha)
  }

  /** The commits of the batch that the ledger did not know, in batch order. */
  ghost function NewShas(ports: seq<Entry>, batch: seq<Entry>): seq<string>
    decreases |batch|
  {
    if batch == [] then []
    else NewShas(ports, batch[..|batch| - 1]) +
         (if Lookup(ports, batch[|batch| - 1].upstreamSha).None? then [batch[|batch| - 1].upstreamSha] else [])
  }

  /** Recorded decisions keep their places; new ones follow in batch order. */
  lemma {:induction false} OrderKept(ports: seq<Entry>, batch: seq<Entry>)
    requires Unique(batch)
    ensures Shas(PutAll(ports, batch)) == Shas(ports) + NewShas(ports, batch)
    decreases |batch|
  {
    if batch != [] {
      var init, last := batch[..|batch| - 1], batch[|batch| - 1];
      OrderKept(ports, init);
      PutAllLookup(ports, init, last.upstreamSha);
      PutShas(PutAll(ports, init), last);
      assert Shas(ports) + NewShas(ports, init) + [last.upstreamSha]
          == Shas(ports) + (NewShas(ports, init) + [last.upstreamSha]);
    }
  }

  lemma PutShas(ports: seq<Entry>, e: Entry)
    ensures Shas(Put(ports, e)) == Shas(ports) + (if Lookup(ports, e.upstreamSha).None? then [e.upstreamSha] else [])
  {}

  lemma {:induction false} PutAllUnique(ports: seq<Entry>, batch: seq<Entry>)
    requires Unique(ports)
    ensures Unique(PutAll(ports, batch))
    decreases |batch|
  {
    if batch != [] {
      PutAllUnique(ports, batch[..|batch| - 1]);
      PutUnique(PutAll(ports, batch[..|batch| - 1]), batch[|batch| - 1]);
    }
  }

  /** Putting decisions that are already recorded changes nothing. */
  lemma {:induction false} PutAllRecorded(ports: seq<Entry>, batch: seq<Entry>)
    requires forall i :: 0 <= i < |batch| ==> Lookup(ports, batch[i].upstreamSha) == Some(batch[i])
    ensures PutAll(ports, batch) == ports
    decreases |batch|
  {
    if batch != [] { PutAllRecorded(ports, batch[..|batch| - 1]); }
  }

  /** Merging a batch twice equals merging it once, and the second time no update flag is needed. */
  lemma MergeTwice(ports: seq<Entry>, batch: seq<Entry>)
    requires Unique(ports) && Unique(batch)
    ensures PutAll(PutAll(ports, batch), batch) == PutAll(ports, batch)
    ensures Admissible(PutAll(ports, batch), batch, false)
  {
    forall i | 0 <= i < |batch| ensures Lookup(PutAll(ports, batch), batch[i].upstreamSha) == Some(batch[i]) {
      PutAllOverrides(ports, batch, i);
    }
    PutAllRecorded(PutAll(ports, batch), batch);
  }

  lemma {:induction false} PutAllSources(ports: seq<Entry>, batch: seq<Entry>)
    ensures forall e :: e in PutAll(ports, batch) ==> e in ports || e in batch
    decreases |batch|
  {
    if batch != [] { PutAllSources(ports, batch[..|batch| - 1]); }
  }

  // ---- validate_ledger ---------------------------------------------------------------------

  /** A loaded YAML or JSON value. */
  datatype Value = Null | Bool(b: bool) | Number(n: int) | Text(text: string) | Items(items: seq<Value>)
                 | Mapping(fields: map<string, Value>) | Other

  const STATUSES: set<string> := {"ported", "adapted", "partial", "deferred", "skipped"}
  const OPEN_STATUSES: set<string> := {"partial", "deferred"}
  const EVIDENCE_STATUSES: set<string> := {"ported", "adapted", "partial"}
  const DOCUMENT_FIELDS: set<string> := {"version", "upstream", "notes", "ports"}
  const ENTRY_FIELDS: set<string> := {"upstream_sha", "status", "fork_commits", "reason", "remaining"}

  predicate IsSpace(c: char) {
    '\t' <= c <= '\r' || '\U{1c}' <= c <= ' ' || c == '\U{85}' || c == '\U{a0}' || c == '\U{1680}'
    || '\U{2000}' <= c <= '\U{200a}' || c == '\U{2028}' || c == '\U{2029}' || c == '\U{202f}' || c == '\U{205f}'
    || c == '\U{3000}'
  }

  /** `text.strip()` is not empty. */
  predicate NotBlank(text: string) {
    exists i :: 0 <= i < |text| && !IsSpace(text[i])
  }

  predicate IsSha(text: string) {
    && (|text| == 40 || |text| == 64)
    && forall i :: 0 <= i < |text| ==> '0' <= text[i] <= '9' || 'a' <= text[i] <= 'f'
  }

  predicate NonblankTexts(v: Value) {
    v.Items? && forall i :: 0 <= i < |v.items| ==> v.items[i].Text? && NotBlank(v.items[i].text)
  }

  /** The schema of one entry. */
  ghost predicate ValidEntry(v: Value) {
    && v.Mapping? && v.fields.Keys == ENTRY_FIELDS
    && v.fields["upstream_sha"].Text? && IsSha(v.fields["upstream_sha"].text)
    && v.fields["status"].Text? && v.fields["status"].text in STATUSES
    && NonblankTexts(v.fields["fork_commits"]) && NonblankTexts(v.fields["remaining"])
    && (forall i :: 0 <= i < |v.fields["fork_commits"].items| ==> IsSha(v.fields["fork_commits"].items[i].text))
    && (v.fields["status"].text in EVIDENCE_STATUSES ==> v.fields["fork_commits"].items != [])
    && v.fields["reason"].Text? && NotBlank(v.fields["reason"].text)
    && (v.fields["status"].text in OPEN_STATUSES <==> v.fields["remaining"].items != [])
  }

  ghost predicate ValidPorts(ports: seq<Value>) {
    && (forall i :: 0 <= i < |ports| ==> ValidEntry(ports[i]))
    && forall i, j :: 0 <= i < j < |ports| ==> ports[i].fields["upstream_sha"] != ports[j].fields["upstream_sha"]
  }

  /** The document around the entries. */
  ghost predicate ValidHeader(doc: Value) {
    && doc.Mapping? && doc.fields.Keys <= DOCUMENT_FIELDS
    && "version" in doc.fields && doc.fields["version"] == Number(1)
    && "upstream" in doc.fields && doc.fields["upstream"].Text? && NotBlank(doc.fields["upstream"].text)
    && ("notes" in doc.fields ==> doc.fields["notes"].Text?)
    && "ports" in doc.fields && doc.fields["ports"].Items?
  }

  ghost predicate ValidDocument(doc: Value) {
    ValidHeader(doc) && ValidPorts(doc.fields["ports"].items)
  }

  datatype LedgerError = BadDocument | BadEntry(number: nat) | DuplicateSha(number: nat)

  /** The first checks of an entry, up to its commit identifier. */
  ghost predicate Identified(v: Value) {
    && v.Mapping? && v.fields.Keys == ENTRY_FIELDS
    && v.fields["upstream_sha"].Text? && IsSha(v.fields["upstream_sha"].text)
  }

  method ShaOf(v: Value) returns (sha: Option<string>)
    ensures sha.Some? <==> Identified(v)
    ensures sha.Some? ==> v.fields["upstream_sha"] == Text(sha.value)
  {
    if !v.Mapping? || v.fields.Keys != ENTRY_FIELDS { return None; }
    var value := v.fields["upstream_sha"];
    if !value.Text? || !IsSha(value.text) { return None; }
    sha := Some(value.text);
  }

  method RestValid(v: Value) returns (ok: bool)
    requires Identified(v)
    ensures ok <==> ValidEntry(v)
  {
    var status := v.fields["status"];
    if !status.Text? || status.text !in STATUSES { return false; }
    var commits, remaining := v.fields["fork_commits"], v.fields["remaining"];
    if !NonblankTexts(commits) || !NonblankTexts(remaining) { return false; }
    if exists i :: 0 <= i < |commits.items| && !IsSha(commits.items[i].text) { return false; }
    if status.text in EVIDENCE_STATUSES && commits.items == [] { return false; }
    var reason := v.fields["reason"];
    if !reason.Text? || !NotBlank(reason.text) { return false; }
    if status.text in OPEN_STATUSES && remaining.items == [] { return false; }
    if status.text !in OPEN_STATUSES && remaining.items != [] { return false; }
    ok := true;
  }

  ghost predicate SeenIs(seen: set<string>, ports: seq<Value>)
    requires ValidPorts(ports)
  {
    forall s :: s in seen <==> exists j :: 0 <= j < |ports| && ports[j].fields["upstream_sha"] == Text(s)
  }

  lemma ExtendPorts(ports: seq<Value>, v: Value, sha: string, seen: set<string>)
    requires ValidPorts(ports) && SeenIs(seen, ports) && Identified(v) && v.fields["upstream_sha"] == Text(sha)
    ensures ValidPorts(ports + [v]) <==> ValidEntry(v) && sha !in seen
    ensures ValidPorts(ports + [v]) ==> SeenIs(seen + {sha}, ports + [v])
  {
    var more := ports + [v];
    assert more[|ports|] == v && forall j :: 0 <= j < |ports| ==> more[j] == ports[j];
  }

  /** Entry k is identified, and an earlier entry already has its commit. */
  ghost predicate Repeats(ports: seq<Value>, k: nat)
    requires k < |ports| && ValidPorts(ports[..k])
  {
    Identified(ports[k]) &&
    exists j :: 0 <= j < k && ports[..k][j].fields["upstream_sha"] == ports[k].fields["upstream_sha"]
  }

  /** The error names the first entry that breaks the list, and says whether it only repeats a commit. */
  ghost predicate FirstFault(ports: seq<Value>, error: LedgerError) {
    && !error.BadDocument? && 1 <= error.number <= |ports|
    && ValidPorts(ports[..error.number - 1]) && !ValidPorts(ports[..error.number])
    && (error.DuplicateSha? <==> Repeats(ports, error.number - 1))
  }

  /** The first violation in document order, or none exactly for documents of the schema. */
  method ValidateLedger(doc: Value) returns (error: Option<LedgerError>)
    ensures error.None? <==> ValidDocument(doc)
    ensures error == Some(BadDocument) <==> !ValidHeader(doc)
    ensures error.Some? && ValidHeader(doc) ==> FirstFault(doc.fields["ports"].items, error.value)
  {
    if !doc.Mapping? || !(doc.fields.Keys <= DOCUMENT_FIELDS) { return Some(BadDocument); }
    if "version" !in doc.fields || doc.fields["version"] != Number(1) { return Some(BadDocument); }
    if "upstream" !in doc.fields || !doc.fields["upstream"].Text? || !NotBlank(doc.fields["upstream"].text) {
      return Some(BadDocument);
    }
    if "notes" in doc.fields && !doc.fields["notes"].Text? { return Some(BadDocument); }
    if "ports" !in doc.fields || !doc.fields["ports"].Items? { return Some(BadDocument); }
    var ports := doc.fields["ports"].items;
    error := CheckPorts(ports);
  }

  method CheckPorts(ports: seq<Value>) returns (error: Option<LedgerError>)
    ensures error.None? <==> ValidPorts(ports)
    ensures error.Some? ==> FirstFault(ports, error.value)
  {
    var seen: set<string> := {};
    for k := 0 to |ports|
      invariant ValidPorts(ports[..k]) && SeenIs(seen, ports[..k])
    {
      assert ports[..k + 1] == ports[..k] + [ports[k]];
      PrefixValid(ports, k + 1);
      var sha := ShaOf(ports[k]);
      if sha.None? {
        assert ports[..k + 1][k] == ports[k];
        return Some(BadEntry(k + 1));
      }
      ExtendPorts(ports[..k], ports[k], sha.value, seen);
      if sha.value in seen { return Some(DuplicateSha(k + 1)); }
      seen := seen + {sha.value};
      var ok := RestValid(ports[k]);
      if !ok { return Some(BadEntry(k + 1)); }
    }
    assert ports[..|ports|] == ports;
    error := None;
  }

  lemma PrefixValid(ports: seq<Value>, k: nat)
    requires k <= |ports|
    ensures ValidPorts(ports) ==> ValidPorts(ports[..k])
  {}

  // ---- record: merge, then validate ----------------------------------------------------------

  function Texts(items: seq<string>): Value {
    Items(seq(|items|, i requires 0 <= i < |items| => Text(items[i])))
  }

  function EntryValue(e: Entry): Value {
    Mapping(map["upstream_sha" := Text(e.upstreamSha), "status" := Text(e.status),
                "fork_commits" := Texts(e.forkCommits), "reason" := Text(e.reason), "remaining" := Texts(e.remaining)])
  }

  /** The schema in terms of an entry's own fields: work remains exactly for partial and deferred decisions, and
      ported, adapted and partial ones name fork commits. */
  lemma EntryExactly(e: Entry)
    ensures ValidEntry(EntryValue(e)) <==>
            && IsSha(e.upstreamSha) && e.status in {"ported", "adapted", "partial", "deferred", "skipped"}
            && (forall i :: 0 <= i < |e.forkCommits| ==> IsSha(e.forkCommits[i]))
            && (e.status in {"ported", "adapted", "partial"} ==> e.forkCommits != [])
            && NotBlank(e.reason) && (forall i :: 0 <= i < |e.remaining| ==> NotBlank(e.remaining[i]))
            && (e.remaining != [] <==> e.status in {"partial", "deferred"})
  {
    var v := EntryValue(e);
    assert v.fields.Keys == ENTRY_FIELDS;
    TextsFields(e.forkCommits);
    TextsFields(e.remaining);
    forall i | 0 <= i < |e.forkCommits| && IsSha(e.forkCommits[i]) ensures NotBlank(e.forkCommits[i]) {
      assert !IsSpace(e.forkCommits[i][0]);
    }
  }

  lemma TextsFields(items: seq<string>)
    ensures NonblankTexts(Texts(items)) <==> forall i :: 0 <= i < |items| ==> NotBlank(items[i])
    ensures |Texts(items).items| == |items| && (Texts(items).items == [] <==> items == [])
    ensures forall i :: 0 <= i < |items| ==> Texts(items).items[i] == Text(items[i])
  {
    var v := Texts(items);
    assert forall i :: 0 <= i < |items| ==> v.items[i] == Text(items[i]);
    if NonblankTexts(v) {
      forall i | 0 <= i < |items| ensures NotBlank(items[i]) { assert v.items[i].Text? && NotBlank(v.items[i].text); }
    }
  }

  function PortValues(ports: seq<Entry>): seq<Value> {
    seq(|ports|, i requires 0 <= i < |ports| => EntryValue(ports[i]))
  }

  /** A document with the given other fields and ports. */
  function DocumentOf(others: map<string, Value>, ports: seq<Entry>): Value {
    Mapping(others["ports" := Items(PortValues(ports))])
  }

  lemma PortsValidity(ports: seq<Entry>)
    ensures ValidPorts(PortValues(ports)) <==>
            Unique(ports) && forall i :: 0 <= i < |ports| ==> ValidEntry(EntryValue(ports[i]))
  {
    var values := PortValues(ports);
    assert forall i :: 0 <= i < |ports| ==> values[i] == EntryValue(ports[i]);
    if ValidPorts(values) {
      forall i, j | 0 <= i < j < |ports| ensures ports[i].upstreamSha != ports[j].upstreamSha {
        assert values[i].fields["upstream_sha"] == Text(ports[i].upstreamSha);
        assert values[j].fields["upstream_sha"] == Text(ports[j].upstreamSha);
      }
    }
  }

  /** Merging a duplicate-free batch into a valid ledger yields a document that passes validation
      exactly when every entry of the batch is valid on its own. */
  lemma RecordedLedgerValid(others: map<string, Value>, ports: seq<Entry>, batch: seq<Entry>)
    requires ValidDocument(DocumentOf(others, ports)) && Unique(batch)
    ensures ValidDocument(DocumentOf(others, PutAll(ports, batch))) <==>
            forall i :: 0 <= i < |batch| ==> ValidEntry(EntryValue(batch[i]))
  {
    var merged := PutAll(ports, batch);
    PortsValidity(ports);
    PortsValidity(merged);
    PutAllUnique(ports, batch);
    PutAllSources(ports, batch);
    var before, after := DocumentOf(others, ports), DocumentOf(others, merged);
    assert before.fields.Keys == after.fields.Keys;
    assert forall k :: k in before.fields && k != "ports" ==> before.fields[k] == after.fields[k];
    if forall i :: 0 <= i < |batch| ==> ValidEntry(EntryValue(batch[i])) {
      forall i | 0 <= i < |merged| ensures ValidEntry(EntryValue(merged[i])) {
        assert merged[i] in merged;
      }
    }
    if forall i :: 0 <= i < |merged| ==> ValidEntry(EntryValue(merged[i])) {
      forall k | 0 <= k < |batch| ensures ValidEntry(EntryValue(batch[k])) { PutAllOverrides(ports, batch, k); }
    }
  }
}
