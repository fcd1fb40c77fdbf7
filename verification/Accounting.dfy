/** Review accounting: the scan's pending and backlog lists against the waves' unreviewed counts. */
module Accounting {
  import opened History
  import opened WaveOrder
  import opened WaveCuts
  import opened Waves
  import Ledger

  type Entry = Ledger.Entry

  /** `{entry["upstream_sha"]: entry for entry in ports}`, reduced to the status. */
  function Recorded(ports: seq<Entry>): map<Sha, string> {
    if ports == [] then map[]
    else Recorded(ports[..|ports| - 1])[ports[|ports| - 1].upstreamSha := ports[|ports| - 1].status]
  }

  const PENDING_STATUSES: set<string> := {"partial", "deferred", "unreviewed"}

  /** The status a scan shows for a commit. */
  function PortStatus(recorded: map<Sha, string>, sha: Sha): string {
    if sha in recorded then recorded[sha] else "unreviewed"
  }

  predicate Pending(recorded: map<Sha, string>, sha: Sha) {
    PortStatus(recorded, sha) in PENDING_STATUSES
  }

  predicate IsOpen(e: Entry) {
    e.status in Ledger.OPEN_STATUSES
  }

  /** The commits that are pending, in the order given. */
  function PendingOf(commits: seq<Sha>, recorded: map<Sha, string>): seq<Sha>
    decreases |commits|
  {
    if commits == [] then []
    else
      var last := commits[|commits| - 1];
      PendingOf(commits[..|commits| - 1], recorded) + (if Pending(recorded, last) then [last] else [])
  }

  /** The open entries for other commits, in ledger order. */
  function BacklogOf(commits: seq<Sha>, ports: seq<Entry>): seq<Entry>
    decreases |ports|
  {
    if ports == [] then []
    else
      var last := ports[|ports| - 1];
      BacklogOf(commits, ports[..|ports| - 1])
      + (if IsOpen(last) && last.upstreamSha !in commits then [last] else [])
  }

  /** The two lists of the scan report. */
  method Scan(commits: seq<Sha>, ports: seq<Entry>) returns (pending: seq<Sha>, backlog: seq<Entry>)
    requires Distinct(commits)
    ensures pending == PendingOf(commits, Recorded(ports)) && backlog == BacklogOf(commits, ports)
    ensures Distinct(pending) && forall s :: s in pending <==> s in commits && Pending(Recorded(ports), s)
    ensures forall e :: e in backlog <==> e in ports && IsOpen(e) && e.upstreamSha !in commits
    ensures Ledger.Unique(ports) ==> Ledger.Unique(backlog)
  {
    var recorded := Recorded(ports);
    pending, backlog := [], [];
    for i := 0 to |commits|
      invariant pending == PendingOf(commits[..i], recorded)
    {
      assert commits[..i + 1][..i] == commits[..i];
      if PortStatus(recorded, commits[i]) in PENDING_STATUSES { pending := pending + [commits[i]]; }
    }
    assert commits[..|commits|] == commits;
    var inRange := set s | s in commits;
    for i := 0 to |ports|
      invariant backlog == BacklogOf(commits, ports[..i])
    {
      assert ports[..i + 1][..i] == ports[..i];
      if ports[i].status in Ledger.OPEN_STATUSES && ports[i].upstreamSha !in inRange {
        backlog := backlog + [ports[i]];
      }
    }
    assert ports[..|ports|] == ports;
    PendingMembers(commits, recorded);
    BacklogMembers(commits, ports);
  }

  lemma {:induction false} PendingMembers(commits: seq<Sha>, recorded: map<Sha, string>)
    requires Distinct(commits)
    ensures Distinct(PendingOf(commits, recorded))
    ensures forall s :: s in PendingOf(commits, recorded) <==> s in commits && Pending(recorded, s)
    decreases |commits|
  {
    if commits != [] {
      var init, last := commits[..|commits| - 1], commits[|commits| - 1];
      assert commits == init + [last] && last !in init;
      PendingMembers(init, recorded);
    }
  }

  lemma {:induction false} BacklogMembers(commits: seq<Sha>, ports: seq<Entry>)
    ensures forall e :: e in BacklogOf(commits, ports) <==> e in ports && IsOpen(e) && e.upstreamSha !in commits
    ensures Ledger.Unique(ports) ==> Ledger.Unique(BacklogOf(commits, ports))
    decreases |ports|
  {
    if ports != [] {
      var init, last := ports[..|ports| - 1], ports[|ports| - 1];
      assert ports == init + [last];
      BacklogMembers(commits, init);
      if Ledger.Unique(ports) {
        forall e | e in init ensures e.upstreamSha != last.upstreamSha {
          var i :| 0 <= i < |init| && init[i] == e;
        }
        var backlog := BacklogOf(commits, init);
        forall j | 0 <= j < |backlog| ensures backlog[j].upstreamSha != last.upstreamSha { assert backlog[j] in init; }
      }
    }
  }

  /** The recorded statuses are those of the ledger's entries. */
  ghost predicate Mirrors(recorded: map<Sha, string>, ports: seq<Entry>) {
    && (forall s :: s in recorded ==> exists e :: e in ports && e.upstreamSha == s && e.status == recorded[s])
    && (forall e :: e in ports ==> e.upstreamSha in recorded && recorded[e.upstreamSha] == e.status)
  }

  lemma {:induction false} RecordedAt(ports: seq<Entry>)
    requires Ledger.Unique(ports)
    ensures Mirrors(Recorded(ports), ports)
    decreases |ports|
  {
    if ports != [] {
      var init, last := ports[..|ports| - 1], ports[|ports| - 1];
      RecordedAt(init);
      assert ports == init + [last];
      forall e | e in init ensures e.upstreamSha != last.upstreamSha {
        var i :| 0 <= i < |init| && init[i] == e;
      }
      MirrorsAppend(Recorded(init), init, last);
    }
  }

  lemma MirrorsAppend(recorded: map<Sha, string>, ports: seq<Entry>, e: Entry)
    requires Mirrors(recorded, ports) && forall x :: x in ports ==> x.upstreamSha != e.upstreamSha
    ensures Mirrors(recorded[e.upstreamSha := e.status], ports + [e])
  {
    var more, all := recorded[e.upstreamSha := e.status], ports + [e];
    forall s | s in more ensures exists x :: x in all && x.upstreamSha == s && x.status == more[s] {
      if s == e.upstreamSha {
        assert e in all;
      } else {
        var x :| x in ports && x.upstreamSha == s && x.status == recorded[s];
        assert x in all;
      }
    }
  }

  /** Every open decision shows up exactly once: in pending if its commit is in range, else in backlog. */
  lemma OpenExactlyOnce(commits: seq<Sha>, ports: seq<Entry>, pending: seq<Sha>, backlog: seq<Entry>, e: Entry)
    requires Ledger.Unique(ports) && e in ports && IsOpen(e)
    requires forall s :: s in pending <==> s in commits && Pending(Recorded(ports), s)
    requires forall x :: x in backlog <==> x in ports && IsOpen(x) && x.upstreamSha !in commits
    ensures e.upstreamSha in pending <==> e !in backlog
    ensures e in backlog ==> forall x :: x in backlog && x.upstreamSha == e.upstreamSha ==> x == e
  {
    RecordedAt(ports);
    forall x | x in ports && x.upstreamSha == e.upstreamSha ensures x == e {
      var i :| 0 <= i < |ports| && ports[i] == x;
      var j :| 0 <= j < |ports| && ports[j] == e;
    }
  }

  /** Scan and waves judge a commit alike exactly when no decision is recorded as "unreviewed". */
  lemma JudgedAlike(recorded: map<Sha, string>, sha: Sha)
    ensures (Pending(recorded, sha) <==> NeedsReview(recorded, sha)) <==>
            !(sha in recorded && recorded[sha] == "unreviewed")
  {}

  /** The ledger schema rules that status out. */
  lemma SchemaStatuses(ports: seq<Entry>, sha: Sha)
    requires Ledger.ValidPorts(Ledger.PortValues(ports))
    ensures Pending(Recorded(ports), sha) <==> NeedsReview(Recorded(ports), sha)
  {
    StatusesListed(ports);
    Ledger.PortsValidity(ports);
    RecordedAt(ports);
    JudgedAlike(Recorded(ports), sha);
  }

  lemma StatusesListed(ports: seq<Entry>)
    requires Ledger.ValidPorts(Ledger.PortValues(ports))
    ensures forall e :: e in ports ==> e.status != "unreviewed"
  {
    var values := Ledger.PortValues(ports);
    forall e | e in ports ensures e.status != "unreviewed" {
      var i :| 0 <= i < |ports| && ports[i] == e;
      assert values[i] == Ledger.EntryValue(e) && Ledger.ValidEntry(values[i]);
      StatusListed(e);
    }
  }

  lemma StatusListed(e: Entry)
    requires Ledger.ValidEntry(Ledger.EntryValue(e))
    ensures e.status != "unreviewed"
  {
    assert Ledger.EntryValue(e).fields["status"] == Ledger.Text(e.status);
  }

  lemma EntriesValid(ports: seq<Entry>, e: Entry)
    requires Ledger.ValidPorts(Ledger.PortValues(ports)) && e in ports
    ensures Ledger.ValidEntry(Ledger.EntryValue(e))
  {
    var i :| 0 <= i < |ports| && ports[i] == e;
    assert Ledger.PortValues(ports)[i] == Ledger.EntryValue(e);
  }

  /** In a valid ledger an entry is open exactly if it lists remaining work, and a commit is pending exactly if
      nothing is recorded about it or such an entry. */
  lemma PendingExactly(ports: seq<Entry>, sha: Sha)
    requires Ledger.ValidPorts(Ledger.PortValues(ports))
    ensures forall e :: e in ports ==> (IsOpen(e) <==> e.remaining != [])
    ensures Pending(Recorded(ports), sha) <==>
            forall e :: e in ports && e.upstreamSha == sha ==> e.remaining != []
  {
    Ledger.PortsValidity(ports);
    RecordedAt(ports);
    forall e | e in ports
      ensures e.status in {"partial", "deferred"} <==> e.remaining != []
      ensures e.status != "unreviewed"
    {
      EntriesValid(ports, e);
      Ledger.EntryExactly(e);
    }
  }

  lemma {:induction false} DistinctCount(s: seq<Sha>)
    requires Distinct(s)
    ensures |Elems(s)| == |s|
    decreases |s|
  {
    if s != [] {
      var init, last := s[..|s| - 1], s[|s| - 1];
      DistinctCount(init);
      assert s == init + [last];
      ElemsAppend(init, last);
      assert last !in init;
    } else {
      assert Elems(s) == {};
    }
  }

  /** For one range and one valid ledger, the waves' unreviewed counts add up to the scan's pending list. */
  lemma ReportsAgree(h: Graph, base: Sha, target: Sha, waves: seq<Wave>, ports: seq<Entry>, commits: seq<Sha>,
                     pending: seq<Sha>)
    requires base in h && Tiles(h, base, target, waves) && Ledger.ValidPorts(Ledger.PortValues(ports))
    requires forall k :: 0 <= k < |waves| ==> waves[k].unreviewed == |Open(Recorded(ports), Elems(waves[k].shas))|
    requires Distinct(commits) && Elems(commits) == RangeOf(h, base, target)
    requires Distinct(pending) && forall s :: s in pending <==> s in commits && Pending(Recorded(ports), s)
    ensures SumUnreviewed(waves) == |pending|
  {
    UnreviewedTotal(h, base, target, waves, Recorded(ports));
    forall s ensures s in Elems(pending) <==> s in Open(Recorded(ports), RangeOf(h, base, target)) {
      SchemaStatuses(ports, s);
      assert s in commits <==> s in Elems(commits);
    }
    assert Elems(pending) == Open(Recorded(ports), RangeOf(h, base, target));
    DistinctCount(pending);
  }

  lemma {:induction false} WavesAt(p: Plan, cuts: seq<nat>, recorded: map<Sha, string>, base: Sha, n: nat, k: nat)
    requires InBounds(p, cuts) && k < n <= |cuts|
    ensures WavesOf(p, cuts, recorded, base, n)[k] == WaveOf(p, cuts, recorded, base, k)
  {
    if k < n - 1 { WavesAt(p, cuts, recorded, base, n - 1, k); }
  }

  /** The waves cut for a range and the scan of the same range agree: the unreviewed counts add up to the
      length of the pending list. Waves and lists are those that BuildWaves and Scan produce. */
  lemma WavesAndScanAgree(h: Graph, base: Sha, target: Sha, plan: Plan, cuts: seq<nat>, ports: seq<Entry>,
                          commits: seq<Sha>)
    requires base in h && InBounds(plan, cuts) && Ledger.ValidPorts(Ledger.PortValues(ports))
    requires Tiles(h, base, target, WavesOf(plan, cuts, Recorded(ports), base, |cuts|))
    requires Distinct(commits) && Elems(commits) == RangeOf(h, base, target)
    ensures SumUnreviewed(WavesOf(plan, cuts, Recorded(ports), base, |cuts|))
         == |PendingOf(commits, Recorded(ports))|
  {
    var recorded := Recorded(ports);
    var waves := WavesOf(plan, cuts, recorded, base, |cuts|);
    forall k | 0 <= k < |waves| ensures waves[k].unreviewed == |Open(recorded, Elems(waves[k].shas))| {
      WavesAt(plan, cuts, recorded, base, |cuts|, k);
    }
    PendingMembers(commits, recorded);
    ReportsAgree(h, base, target, waves, ports, commits, PendingOf(commits, recorded));
  }
}
