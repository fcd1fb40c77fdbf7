/** `adapt_patch`: rebranding a patch line by line without breaking binary payloads or hunk counts. */
module Patch {
  import opened Bytes
  import opened Text
  import Branding
  import Normalization

  type Table = seq<(Bytes, Bytes)>

  const DIFF_GIT: Bytes := Ascii("diff --git ")
  const GIT_BINARY: Bytes := Ascii("GIT binary patch")
  const HUNK: Bytes := Ascii("@@")
  const INDEX: Bytes := Ascii("index ")

  // ---- Lines -------------------------------------------------------------------------------

  /** Length of the first line with its end: LF, CR LF or a lone CR, as `splitlines` sees it. */
  function LineEnd(s: Bytes): (n: nat)
    ensures n <= |s| && (s != [] ==> n > 0)
  {
    if s == [] then 0
    else if s[0] == LF then 1
    else if s[0] == CR then (if |s| > 1 && s[1] == LF then 2 else 1)
    else 1 + LineEnd(s[1..])
  }

  /** Length of the first line with its end, where only LF ends a line, as `git apply` sees it. */
  function LfEnd(s: Bytes): (n: nat)
    ensures n <= |s| && (s != [] ==> n > 0)
  {
    if s == [] then 0 else if s[0] == LF then 1 else 1 + LfEnd(s[1..])
  }

  /** `splitlines(keepends=True)`. */
  function SplitLines(s: Bytes): seq<Bytes>
    decreases |s|
  {
    if s == [] then [] else [s[..LineEnd(s)]] + SplitLines(s[LineEnd(s)..])
  }

  function LfLines(s: Bytes): seq<Bytes>
    decreases |s|
  {
    if s == [] then [] else [s[..LfEnd(s)]] + LfLines(s[LfEnd(s)..])
  }

  function Concat(lines: seq<Bytes>): Bytes {
    if lines == [] then [] else lines[0] + Concat(lines[1..])
  }

  predicate NoLoneCr(s: Bytes) {
    forall i :: 0 <= i < |s| && s[i] == CR ==> i + 1 < |s| && s[i + 1] == LF
  }

  lemma SplitFirst(s: Bytes, piece: Bytes, after: Bytes)
    requires s != [] && piece == s[..LineEnd(s)] && after == s[LineEnd(s)..]
    ensures SplitLines(s) == [piece] + SplitLines(after)
  {}

  lemma {:induction false} ConcatSplitLines(s: Bytes)
    ensures Concat(SplitLines(s)) == s
    decreases |s|
  {
    if s != [] { ConcatSplitLines(s[LineEnd(s)..]); }
  }

  lemma {:induction false} ConcatAppend(a: seq<Bytes>, b: seq<Bytes>)
    ensures Concat(a + b) == Concat(a) + Concat(b)
    decreases |a|
  {
    if a == [] {
      assert a + b == b;
    } else {
      assert (a + b)[1..] == a[1..] + b;
      ConcatAppend(a[1..], b);
    }
  }

  lemma {:induction false} EndsAgree(s: Bytes)
    requires NoLoneCr(s)
    ensures LineEnd(s) == LfEnd(s)
    decreases |s|
  {
    if s != [] && s[0] != LF {
      assert NoLoneCr(s[1..]) by {
        assert forall i :: 0 <= i < |s[1..]| ==> s[1..][i] == s[i + 1];
        forall i | 0 <= i < |s[1..]| && s[1..][i] == CR ensures i + 1 < |s[1..]| && s[1..][i + 1] == LF {
          assert s[i + 1] == CR;
        }
      }
      if s[0] == CR {
        assert s[1] == LF;
      } else {
        EndsAgree(s[1..]);
      }
    }
  }

  /** Without lone CRs the two notions of a line coincide. */
  lemma {:induction false} LinesAgree(s: Bytes)
    requires NoLoneCr(s)
    ensures SplitLines(s) == LfLines(s)
    decreases |s|
  {
    if s != [] {
      EndsAgree(s);
      var rest := s[LineEnd(s)..];
      forall i | 0 <= i < |rest| && rest[i] == CR ensures i + 1 < |rest| && rest[i + 1] == LF {
        assert s[i + LineEnd(s)] == CR;
      }
      LinesAgree(rest);
    }
  }

  /** LF occurs at most as the last byte. */
  predicate OneLine(line: Bytes) {
    line != [] && forall i :: 0 <= i < |line| - 1 ==> line[i] != LF
  }

  predicate Terminated(line: Bytes) {
    OneLine(line) && line[|line| - 1] == LF
  }

  /** A list that is its own line structure: only the last line may lack its LF. */
  ghost predicate Lined(lines: seq<Bytes>) {
    && (forall i :: 0 <= i < |lines| ==> OneLine(lines[i]))
    && forall i :: 0 <= i < |lines| - 1 ==> Terminated(lines[i])
  }

  lemma {:induction false} LfEndOf(line: Bytes, rest: Bytes)
    requires OneLine(line) && (Terminated(line) || rest == [])
    ensures LfEnd(line + rest) == |line|
    decreases |line|
  {
    assert (line + rest)[1..] == line[1..] + rest;
    if |line| > 1 {
      assert line[1..][|line| - 2] == line[|line| - 1];
      LfEndOf(line[1..], rest);
    }
  }

  lemma {:induction false} LfLinesConcat(lines: seq<Bytes>)
    requires Lined(lines)
    ensures LfLines(Concat(lines)) == lines
    decreases |lines|
  {
    if lines != [] {
      var line, rest := lines[0], Concat(lines[1..]);
      LfEndOf(line, rest);
      assert (line + rest)[..|line|] == line && (line + rest)[|line|..] == rest;
      LfLinesConcat(lines[1..]);
    }
  }

  lemma {:induction false} LfLinesLined(s: Bytes)
    ensures Lined(LfLines(s))
    decreases |s|
  {
    if s != [] {
      FirstLine(s);
      LfLinesLined(s[LfEnd(s)..]);
    }
  }

  lemma {:induction false} FirstLine(s: Bytes)
    requires s != []
    ensures OneLine(s[..LfEnd(s)]) && (LfEnd(s) < |s| ==> Terminated(s[..LfEnd(s)]))
    decreases |s|
  {
    if s[0] != LF && |s| > 1 {
      FirstLine(s[1..]);
      assert s[..LfEnd(s)] == [s[0]] + s[1..][..LfEnd(s[1..])];
    }
  }

  // ---- One part ----------------------------------------------------------------------------

  /** What `adapt_patch` finds out about a part before its line loop. */
  datatype Kind = Kind(binary: bool, utf8: bool)

  predicate StartsPayload(line: Bytes) {
    GIT_BINARY <= line || HUNK <= line
  }

  /** What one line becomes: nothing, itself, or its rebranding. */
  function AdaptLine(line: Bytes, inside: bool, kind: Kind, header: Table, content: Table): seq<Bytes>
    requires Sources(header) && Sources(content)
  {
    if !kind.binary && INDEX <= line then []
    else if inside then (if kind.utf8 && !kind.binary then [ReplaceEach(line, content)] else [line])
    else [ReplaceEach(line, header)]
  }

  /** The line loop; payload says whether the header is over. */
  function Adapt(lines: seq<Bytes>, payload: bool, kind: Kind, header: Table, content: Table): seq<Bytes>
    requires Sources(header) && Sources(content)
    decreases |lines|
  {
    if lines == [] then []
    else
      var inside := payload || StartsPayload(lines[0]);
      AdaptLine(lines[0], inside, kind, header, content) + Adapt(lines[1..], inside, kind, header, content)
  }

  function PayloadStart(lines: seq<Bytes>): (n: nat)
    ensures n <= |lines|
  {
    if lines == [] || StartsPayload(lines[0]) then 0 else 1 + PayloadStart(lines[1..])
  }

  method AdaptPart(part: Bytes, kind: Kind, header: Table, content: Table) returns (output: seq<Bytes>)
    requires Sources(header) && Sources(content)
    ensures output == Adapt(SplitLines(part), false, kind, header, content)
  {
    output := [];
    var payload := false;
    var lines := SplitLines(part);
    ghost var goal := Adapt(lines, false, kind, header, content);
    assert lines[0..] == lines;
    for k := 0 to |lines|
      invariant output + Adapt(lines[k..], payload, kind, header, content) == goal
    {
      var line := lines[k];
      AdaptStep(output, lines, k, payload, kind, header, content);
      if GIT_BINARY <= line || HUNK <= line {
        payload := true;
      }
      var kept := AdaptOne(line, payload, kind, header, content);
      output := output + kept;
    }
    assert lines[|lines|..] == [];
  }

  /** The body of the line loop once `payload` is settled: the lines it appends. */
  method AdaptOne(line: Bytes, payload: bool, kind: Kind, header: Table, content: Table) returns (kept: seq<Bytes>)
    requires Sources(header) && Sources(content)
    ensures kept == AdaptLine(line, payload, kind, header, content)
  {
    if !kind.binary && INDEX <= line {
      return [];
    }
    var adapted := line;
    if !payload || (kind.utf8 && !kind.binary) {
      adapted := ReplaceAlong(line, if payload then content else header);
    }
    kept := [adapted];
  }

  /** The innermost loop: one replacement after the other. */
  method ReplaceAlong(line: Bytes, table: Table) returns (result: Bytes)
    requires Sources(table)
    ensures result == ReplaceEach(line, table)
  {
    result := line;
    for i := 0 to |table|
      invariant Sources(table[..i]) && result == ReplaceEach(line, table[..i])
    {
      assert table[..i + 1][..i] == table[..i];
      result := ReplaceAll(result, table[i].0, table[i].1);
    }
    assert table[..|table|] == table;
  }

  lemma AdaptStep(output: seq<Bytes>, lines: seq<Bytes>, k: nat, payload: bool, kind: Kind, header: Table,
                  content: Table)
    requires Sources(header) && Sources(content) && k < |lines|
    ensures output + Adapt(lines[k..], payload, kind, header, content)
         == output + AdaptLine(lines[k], payload || StartsPayload(lines[k]), kind, header, content)
          + Adapt(lines[k + 1..], payload || StartsPayload(lines[k]), kind, header, content)
  {
    assert lines[k..][1..] == lines[k + 1..];
  }

  /** Header and payload are adapted apart, split at the first payload line. */
  lemma {:induction false} AdaptInTwo(lines: seq<Bytes>, kind: Kind, header: Table, content: Table)
    requires Sources(header) && Sources(content)
    ensures Adapt(lines, false, kind, header, content)
         == Adapt(lines[..PayloadStart(lines)], false, kind, header, content)
          + Adapt(lines[PayloadStart(lines)..], true, kind, header, content)
    decreases |lines|
  {
    var n := PayloadStart(lines);
    if lines != [] && n > 0 {
      var rest := lines[1..];
      AdaptInTwo(rest, kind, header, content);
      AdaptFirst(lines, n, kind, header, content);
    } else {
      assert lines[..n] == [] && lines[n..] == lines;
    }
  }

  /** The first line, and the rest in two. */
  lemma AdaptFirst(lines: seq<Bytes>, n: nat, kind: Kind, header: Table, content: Table)
    requires Sources(header) && Sources(content) && 0 < n <= |lines| && !StartsPayload(lines[0])
    requires Adapt(lines[1..], false, kind, header, content)
          == Adapt(lines[1..][..n - 1], false, kind, header, content)
           + Adapt(lines[1..][n - 1..], true, kind, header, content)
    ensures Adapt(lines, false, kind, header, content)
         == Adapt(lines[..n], false, kind, header, content) + Adapt(lines[n..], true, kind, header, content)
  {
    CutRest(lines, n);
    AdaptCons(lines, kind, header, content);
    AdaptCons(lines[..n], kind, header, content);
    Regroup(AdaptLine(lines[0], false, kind, header, content), Adapt(lines[1..][..n - 1], false, kind, header, content),
            Adapt(lines[n..], true, kind, header, content));
  }

  lemma AdaptCons(lines: seq<Bytes>, kind: Kind, header: Table, content: Table)
    requires Sources(header) && Sources(content) && lines != [] && !StartsPayload(lines[0])
    ensures Adapt(lines, false, kind, header, content)
         == AdaptLine(lines[0], false, kind, header, content) + Adapt(lines[1..], false, kind, header, content)
  {}

  lemma CutRest(lines: seq<Bytes>, n: nat)
    requires 0 < n <= |lines|
    ensures lines[..n][0] == lines[0] && lines[..n][1..] == lines[1..][..n - 1] && lines[n..] == lines[1..][n - 1..]
  {}

  lemma Regroup(first: seq<Bytes>, more: seq<Bytes>, rest: seq<Bytes>)
    ensures first + (more + rest) == (first + more) + rest
  {}

  /** Binary payloads pass byte for byte. */
  lemma {:induction false} BinaryPayloadVerbatim(lines: seq<Bytes>, kind: Kind, header: Table, content: Table)
    requires Sources(header) && Sources(content) && kind.binary
    ensures Adapt(lines, true, kind, header, content) == lines
    decreases |lines|
  {
    if lines != [] { BinaryPayloadVerbatim(lines[1..], kind, header, content); }
  }

  /** First bytes of hunk lines: space, plus, minus, at sign, backslash. */
  predicate HunkLine(line: Bytes) {
    line != [] && line[0] in {32, 43, 45, 64, 92}
  }

  /** Undecodable payloads pass byte for byte, given that their lines are hunk lines. */
  lemma {:induction false} RawPayloadVerbatim(lines: seq<Bytes>, kind: Kind, header: Table, content: Table)
    requires Sources(header) && Sources(content) && !kind.binary && !kind.utf8
    requires forall i :: 0 <= i < |lines| ==> HunkLine(lines[i])
    ensures Adapt(lines, true, kind, header, content) == lines
    decreases |lines|
  {
    if lines != [] {
      HunkLinesStay(lines[0]);
      RawPayloadVerbatim(lines[1..], kind, header, content);
    }
  }

  lemma HunkLinesStay(line: Bytes)
    requires HunkLine(line)
    ensures !(INDEX <= line)
  {
    assert INDEX[0] == 105;
  }

  /** Replacements that keep line ends and hunk markers: no LF, no source starting like a marker. */
  ghost predicate LineSafe(table: Table) {
    && Sources(table)
    && (forall i :: 0 <= i < |table| ==> LF !in table[i].0 && LF !in table[i].1)
    && forall i :: 0 <= i < |table| ==> !HunkLine(table[i].0)
  }

  ghost predicate LfFree(table: Table) {
    && Sources(table)
    && forall i :: 0 <= i < |table| ==> LF !in table[i].0 && LF !in table[i].1
  }

  lemma {:induction false} LineSafeReplace(line: Bytes, table: Table)
    requires LineSafe(table) && OneLine(line) && HunkLine(line)
    ensures var r := ReplaceEach(line, table);
            OneLine(r) && HunkLine(r) && r[0] == line[0] && (Terminated(line) <==> Terminated(r))
    decreases |table|
  {
    if table != [] {
      var (t, r) := table[|table| - 1];
      LineSafeReplace(line, table[..|table| - 1]);
      ReplaceInLine(ReplaceEach(line, table[..|table| - 1]), t, r);
    }
  }

  lemma ReplaceInLine(line: Bytes, t: Bytes, r: Bytes)
    requires t != [] && LF !in t && LF !in r && OneLine(line) && HunkLine(line) && !HunkLine(t)
    ensures var out := ReplaceAll(line, t, r);
            OneLine(out) && HunkLine(out) && out[0] == line[0] && (Terminated(line) <==> Terminated(out))
  {
    var body := if Terminated(line) then line[..|line| - 1] else line;
    var out := ReplaceAll(line, t, r);
    assert !At(line, 0, t) && out[0] == line[0];
    ReplaceNoLf(body, t, r);
    if Terminated(line) {
      assert line == body + [LF] + [];
      ReplaceSeparator(body, LF, [], t, r);
      assert out == ReplaceAll(body, t, r) + [LF];
    }
  }

  /** Replacing texts without LF keeps a line one line, and its end. */
  lemma {:induction false} ReplaceKeepsEnd(line: Bytes, table: Table)
    requires LfFree(table) && (line == [] || OneLine(line))
    ensures var r := ReplaceEach(line, table);
            if line != [] && Terminated(line) then Terminated(r) else LF !in r
    decreases |table|
  {
    if table != [] {
      var (t, r) := table[|table| - 1];
      ReplaceKeepsEnd(line, table[..|table| - 1]);
      var mid := ReplaceEach(line, table[..|table| - 1]);
      if line != [] && Terminated(line) {
        TerminatedReplace(mid, t, r);
      } else {
        ReplaceNoLf(mid, t, r);
      }
    } else if line != [] && !Terminated(line) {
      assert forall i :: 0 <= i < |line| ==> line[i] != LF;
    }
  }

  lemma TerminatedReplace(line: Bytes, t: Bytes, r: Bytes)
    requires t != [] && LF !in t && LF !in r && Terminated(line)
    ensures Terminated(ReplaceAll(line, t, r))
  {
    var body := line[..|line| - 1];
    assert line == body + [LF] + [];
    ReplaceSeparator(body, LF, [], t, r);
    ReplaceNoLf(body, t, r);
    assert ReplaceAll(line, t, r) == ReplaceAll(body, t, r) + [LF];
  }

  lemma {:induction false} ReplaceNoLf(s: Bytes, t: Bytes, r: Bytes)
    requires t != [] && LF !in s && LF !in r
    ensures LF !in ReplaceAll(s, t, r)
    decreases |s|
  {
    if s != [] { ReplaceNoLf(if At(s, 0, t) then s[|t|..] else s[1..], t, r); }
  }

  /** Same marker byte, and both end in LF or neither. */
  predicate SameLine(a: Bytes, b: Bytes) {
    a != [] && b != [] && a[0] == b[0] && (Terminated(a) <==> Terminated(b))
  }

  /** Text payloads: one output line per payload line, with its marker byte and its line end. */
  lemma {:induction false} TextPayloadLines(lines: seq<Bytes>, kind: Kind, header: Table, content: Table)
    requires Sources(header) && LineSafe(content) && !kind.binary && kind.utf8 && Lined(lines)
    requires forall i :: 0 <= i < |lines| ==> HunkLine(lines[i])
    ensures var out := Adapt(lines, true, kind, header, content);
            && |out| == |lines| && Lined(out)
            && forall i :: 0 <= i < |lines| ==>
                 out[i] == ReplaceEach(lines[i], content) && SameLine(out[i], lines[i])
    decreases |lines|
  {
    if lines != [] {
      HunkLinesStay(lines[0]);
      LineSafeReplace(lines[0], content);
      TextPayloadLines(lines[1..], kind, header, content);
    }
  }

  /** The header loses its `index ` lines and nothing else, unless the part is binary. */
  lemma {:induction false} HeaderLines(lines: seq<Bytes>, kind: Kind, header: Table, content: Table)
    requires Sources(header) && Sources(content)
    requires forall i :: 0 <= i < |lines| ==> !StartsPayload(lines[i])
    ensures Adapt(lines, false, kind, header, content)
         == Rebranded(if kind.binary then lines else WithoutIndex(lines), header)
    decreases |lines|
  {
    if lines != [] {
      HeaderLines(lines[1..], kind, header, content);
      if kind.binary {
        assert Rebranded(lines, header) == [ReplaceEach(lines[0], header)] + Rebranded(lines[1..], header);
      } else if INDEX <= lines[0] {
        assert WithoutIndex(lines) == WithoutIndex(lines[1..]);
      } else {
        assert WithoutIndex(lines)[1..] == WithoutIndex(lines[1..]);
      }
    }
  }

  function WithoutIndex(lines: seq<Bytes>): seq<Bytes> {
    if lines == [] then [] else (if INDEX <= lines[0] then [] else [lines[0]]) + WithoutIndex(lines[1..])
  }

  function Rebranded(lines: seq<Bytes>, table: Table): seq<Bytes>
    requires Sources(table)
  {
    if lines == [] then [] else [ReplaceEach(lines[0], table)] + Rebranded(lines[1..], table)
  }

  /** Outside binary parts a piece is dropped exactly when it starts with `index `; in hunk lines that takes a
      lone CR. */
  lemma {:induction false} KeepsEveryLine(lines: seq<Bytes>, kind: Kind, header: Table, content: Table)
    requires Sources(header) && Sources(content) && !kind.binary
    ensures |Adapt(lines, true, kind, header, content)| <= |lines|
    ensures |Adapt(lines, true, kind, header, content)| == |lines| <==>
            forall i :: 0 <= i < |lines| ==> !(INDEX <= lines[i])
    decreases |lines|
  {
    if lines != [] {
      KeepsEveryLine(lines[1..], kind, header, content);
      assert forall i :: 0 < i < |lines| ==> lines[i] == lines[1..][i - 1];
    }
  }

  /** A lone CR inside an added line can cost the rest of that line, end included. */
  lemma LoneCrLosesBytes()
    ensures var added: Bytes := [43, CR] + (INDEX + [LF]);
            && LfLines(added) == [added] && HunkLine(added)
            && Adapt(SplitLines(added), true, Kind(false, true), [], []) == [[43, CR]]
  {
    var tail := INDEX + [LF];
    var added: Bytes := [43, CR] + tail;
    assert OneLine(added) && Terminated(added);
    LfLinesConcat([added]);
    assert Concat([added]) == added;
    LoneCrSplits(tail);
    IndexLineDropped([43, CR], tail, Kind(false, true));
    assert AdaptLine([43, CR], true, Kind(false, true), [], []) == [[43, CR]];
  }

  /** `splitlines` ends a line after a lone CR. */
  lemma LoneCrSplits(tail: Bytes)
    requires OneLine(tail) && Terminated(tail) && NoLoneCr(tail) && |tail| > 1
    ensures SplitLines([43, CR] + tail) == [[43, CR], tail]
  {
    LoneCrEnd(tail);
    SplitFirst([43, CR] + tail, [43, CR], tail);
    LinesAgree(tail);
    LfLinesConcat([tail]);
    assert Concat([tail]) == tail;
  }

  lemma LoneCrEnd(tail: Bytes)
    requires tail != [] && tail[0] != LF
    ensures var added: Bytes := [43, CR] + tail;
            LineEnd(added) == 2 && added[..2] == [43, CR] && added[2..] == tail
  {
    var added: Bytes := [43, CR] + tail;
    assert added[1..] == [CR] + tail && LineEnd([CR] + tail) == 1;
  }

  lemma IndexLineDropped(line: Bytes, index: Bytes, kind: Kind)
    requires INDEX <= index && !kind.binary
    ensures Adapt([line, index], true, kind, [], []) == AdaptLine(line, true, kind, [], [])
  {
    assert [line, index][1..] == [index] && [index][1..] == [];
    assert Adapt([index], true, kind, [], []) == [];
  }

  // ---- Whole parts ---------------------------------------------------------------------------

  /** Tables whose texts have no LF and never vanish. */
  ghost predicate Visible(table: Table) {
    && Sources(table)
    && forall i :: 0 <= i < |table| ==> LF !in table[i].0 && LF !in table[i].1 && table[i].1 != []
  }

  lemma {:induction false} VisibleReplace(line: Bytes, table: Table)
    requires Visible(table) && OneLine(line)
    ensures OneLine(ReplaceEach(line, table)) && (Terminated(ReplaceEach(line, table)) <==> Terminated(line))
  {
    ReplaceKeepsEnd(line, table);
    StaysVisible(line, table);
  }

  lemma {:induction false} StaysVisible(line: Bytes, table: Table)
    requires Visible(table) && line != []
    ensures ReplaceEach(line, table) != []
    decreases |table|
  {
    if table != [] { StaysVisible(line, table[..|table| - 1]); }
  }

  lemma {:induction false} RebrandedLined(lines: seq<Bytes>, table: Table)
    requires Visible(table) && Lined(lines)
    ensures Lined(Rebranded(lines, table)) && |Rebranded(lines, table)| == |lines|
    ensures forall i :: 0 <= i < |lines| ==> (Terminated(Rebranded(lines, table)[i]) <==> Terminated(lines[i]))
    decreases |lines|
  {
    if lines != [] {
      VisibleReplace(lines[0], table);
      RebrandedLined(lines[1..], table);
    }
  }

  lemma {:induction false} WithoutIndexLined(lines: seq<Bytes>)
    requires Lined(lines)
    ensures Lined(WithoutIndex(lines))
    ensures AllEnded(lines) ==> AllEnded(WithoutIndex(lines))
    decreases |lines|
  {
    if lines != [] {
      var rest := lines[1..];
      LinedRest(lines);
      WithoutIndexLined(rest);
      if !(INDEX <= lines[0]) { LinedCons(lines[0], WithoutIndex(rest), rest); }
    }
  }

  ghost predicate AllEnded(lines: seq<Bytes>) {
    forall i :: 0 <= i < |lines| ==> Terminated(lines[i])
  }

  lemma LinedRest(lines: seq<Bytes>)
    requires Lined(lines) && lines != []
    ensures Lined(lines[1..]) && OneLine(lines[0]) && (lines[1..] != [] ==> Terminated(lines[0]))
    ensures AllEnded(lines) ==> AllEnded(lines[1..])
  {
    var rest := lines[1..];
    forall i | 0 <= i < |rest| ensures OneLine(rest[i]) && (i < |rest| - 1 || AllEnded(lines) ==> Terminated(rest[i])) {
      assert rest[i] == lines[i + 1];
    }
  }

  /** Putting a line back before the lines that are left of those after it. */
  lemma LinedCons(line: Bytes, kept: seq<Bytes>, rest: seq<Bytes>)
    requires OneLine(line) && Lined(kept) && (rest != [] ==> Terminated(line)) && (kept != [] ==> rest != [])
    ensures Lined([line] + kept)
    ensures Terminated(line) && AllEnded(kept) ==> AllEnded([line] + kept)
  {}

  lemma {:induction false} RebrandedIs(lines: seq<Bytes>, table: Table, out: seq<Bytes>)
    requires Sources(table) && |out| == |lines|
    requires forall i :: 0 <= i < |lines| ==> out[i] == ReplaceEach(lines[i], table)
    ensures out == Rebranded(lines, table)
    decreases |lines|
  {
    if lines != [] { RebrandedIs(lines[1..], table, out[1..]); }
  }

  lemma {:induction false} HeaderHasNoPayload(lines: seq<Bytes>)
    ensures forall i :: 0 <= i < PayloadStart(lines) ==> !StartsPayload(lines[i])
    decreases |lines|
  {
    if lines != [] { HeaderHasNoPayload(lines[1..]); }
  }

  /** A text part keeps its line structure: the header minus its `index ` lines, rebranded, then one
      output line per payload line, if it has a payload, each the content rebranding of that line with
      its marker byte and its line end. */
  lemma TextPart(part: Bytes, header: Table, content: Table)
    requires Visible(header) && LineSafe(content) && NoLoneCr(part)
    requires HunksFrom(LfLines(part), PayloadStart(LfLines(part)))
    ensures var lines, n := LfLines(part), PayloadStart(LfLines(part));
            var head, body := Rebranded(WithoutIndex(lines[..n]), header), Rebranded(lines[n..], content);
            && Adapt(SplitLines(part), false, Kind(false, true), header, content) == head + body
            && LfLines(Concat(head + body)) == head + body
            && |body| == |lines[n..]| && forall i :: 0 <= i < |body| ==> SameLine(body[i], lines[n..][i])
  {
    var lines := LfLines(part);
    var n := PayloadStart(lines);
    LinesAgree(part);
    LfLinesLined(part);
    AdaptInTwo(lines, Kind(false, true), header, content);
    HeaderRebranded(lines, n, Kind(false, true), header, content);
    HunksDrop(lines, n);
    PayloadRebranded(lines[n..], header, content);
    AppendLined(Rebranded(WithoutIndex(lines[..n]), header), Rebranded(lines[n..], content));
    LfLinesConcat(Rebranded(WithoutIndex(lines[..n]), header) + Rebranded(lines[n..], content));
  }

  /** The lines from n on are hunk lines. */
  ghost predicate HunksFrom(lines: seq<Bytes>, n: nat) {
    forall i :: n <= i < |lines| ==> HunkLine(lines[i])
  }

  lemma HunksDrop(lines: seq<Bytes>, n: nat)
    requires n <= |lines| && HunksFrom(lines, n)
    ensures forall i :: 0 <= i < |lines[n..]| ==> HunkLine(lines[n..][i])
  {
    forall i | 0 <= i < |lines[n..]| ensures HunkLine(lines[n..][i]) { assert lines[n..][i] == lines[n + i]; }
  }

  /** The header lines of a part that stay. */
  function HeaderOf(lines: seq<Bytes>, kind: Kind): seq<Bytes> {
    if kind.binary then lines else WithoutIndex(lines)
  }

  lemma HeaderRebranded(lines: seq<Bytes>, n: nat, kind: Kind, header: Table, content: Table)
    requires Visible(header) && Sources(content) && Lined(lines) && n == PayloadStart(lines)
    ensures var out := Rebranded(HeaderOf(lines[..n], kind), header);
            && Adapt(lines[..n], false, kind, header, content) == out && Lined(out)
            && (n < |lines| || (lines != [] && Terminated(lines[|lines| - 1])) ==> AllEnded(out))
    ensures Lined(lines[n..])
  {
    var head := lines[..n];
    LinedCut(lines, n);
    HeaderHasNoPayload(lines);
    HeaderLines(head, kind, header, content);
    WithoutIndexLined(head);
    RebrandedLined(HeaderOf(head, kind), header);
  }

  lemma LinedCut(lines: seq<Bytes>, n: nat)
    requires Lined(lines) && n <= |lines|
    ensures Lined(lines[..n]) && Lined(lines[n..])
    ensures n < |lines| || (lines != [] && Terminated(lines[|lines| - 1])) ==> AllEnded(lines[..n])
  {
    assert forall i :: 0 <= i < |lines| - n ==> lines[n..][i] == lines[n + i];
  }

  lemma PayloadRebranded(lines: seq<Bytes>, header: Table, content: Table)
    requires Sources(header) && LineSafe(content) && Lined(lines)
    requires forall i :: 0 <= i < |lines| ==> HunkLine(lines[i])
    ensures var out := Rebranded(lines, content);
            && Adapt(lines, true, Kind(false, true), header, content) == out
            && Lined(out) && |out| == |lines| && forall i :: 0 <= i < |lines| ==> SameLine(out[i], lines[i])
  {
    TextPayloadLines(lines, Kind(false, true), header, content);
    RebrandedIs(lines, content, Adapt(lines, true, Kind(false, true), header, content));
  }

  lemma AppendLined(a: seq<Bytes>, b: seq<Bytes>)
    requires Lined(a) && Lined(b) && (b != [] ==> AllEnded(a))
    ensures Lined(a + b)
  {}

  lemma RawPayload(lines: seq<Bytes>, kind: Kind, header: Table, content: Table)
    requires Sources(header) && Sources(content) && (kind.binary || !kind.utf8)
    requires kind.binary || forall i :: 0 <= i < |lines| ==> HunkLine(lines[i])
    ensures Adapt(lines, true, kind, header, content) == lines
  {
    if kind.binary {
      BinaryPayloadVerbatim(lines, kind, header, content);
    } else {
      RawPayloadVerbatim(lines, kind, header, content);
    }
  }

  /** A binary or undecodable part keeps its payload byte for byte; only its header is rebranded, and
      loses its `index ` lines unless the part is binary. */
  lemma RawPart(part: Bytes, kind: Kind, header: Table, content: Table)
    requires Sources(header) && Sources(content) && (kind.binary || !kind.utf8)
    requires kind.binary || HunksFrom(SplitLines(part), PayloadStart(SplitLines(part)))
    ensures var lines, n := SplitLines(part), PayloadStart(SplitLines(part));
            && Concat(Adapt(lines, false, kind, header, content))
               == Concat(Rebranded(HeaderOf(lines[..n], kind), header)) + Concat(lines[n..])
            && part == Concat(lines[..n]) + Concat(lines[n..])
  {
    var lines := SplitLines(part);
    var n := PayloadStart(lines);
    AdaptInTwo(lines, kind, header, content);
    HeaderHasNoPayload(lines);
    HeaderLines(lines[..n], kind, header, content);
    if !kind.binary { HunksDrop(lines, n); }
    RawPayload(lines[n..], kind, header, content);
    ConcatAppend(Rebranded(HeaderOf(lines[..n], kind), header), lines[n..]);
    ConcatSplitLines(part);
    ConcatInTwo(lines, n);
  }

  lemma ConcatInTwo(lines: seq<Bytes>, n: nat)
    requires n <= |lines|
    ensures Concat(lines) == Concat(lines[..n]) + Concat(lines[n..])
  {
    assert lines == lines[..n] + lines[n..];
    ConcatAppend(lines[..n], lines[n..]);
  }

  // ---- The tables in use -----------------------------------------------------------------------

  predicate AllAscii(table: Branding.Table) {
    forall i :: 0 <= i < |table| ==> IsAscii(table[i].0) && IsAscii(table[i].1)
  }

  function AsciiTable(table: Branding.Table): Table
    requires AllAscii(table)
  {
    seq(|table|, i requires 0 <= i < |table| => (Ascii(table[i].0), Ascii(table[i].1)))
  }

  lemma AsciiUrl(scheme: string, owner: string)
    requires IsAscii(scheme) && IsAscii(owner)
    ensures IsAscii(Branding.UpstreamUrl(scheme, owner)) && IsAscii(Branding.ForkUrl(scheme))
  {}

  lemma ContentAscii()
    ensures AllAscii(Branding.CONTENT_REPLACEMENTS) && AllAscii(Branding.BRAND_REPLACEMENTS)
  {
    RepositoryAscii();
    ModuleAscii();
    BrandAscii();
  }

  lemma RepositoryAscii()
    ensures AllAscii(Branding.REPOSITORY_REPLACEMENTS)
  {
    AsciiUrl("https", "EvilFreelancer");
    AsciiUrl("https", "coddy-project");
    AsciiUrl("http", "EvilFreelancer");
    AsciiUrl("http", "coddy-project");
  }

  lemma BrandAscii()
    ensures AllAscii(Branding.BRAND_REPLACEMENTS)
  {}

  lemma ModuleLiterals()
    ensures IsAscii("github.com/EvilFreelancer/coddy-agent")
    ensures IsAscii("github.com/coddy-project/coddy-agent")
    ensures IsAscii("github.com/hijera/foxxycode-agent")
  {}

  lemma ModuleAscii()
    ensures AllAscii(Branding.MODULE_REPLACEMENTS)
  {
    ModuleLiterals();
    assert Branding.MODULE_REPLACEMENTS[0].0 == "github.com/EvilFreelancer/coddy-agent";
    assert Branding.MODULE_REPLACEMENTS[1].0 == "github.com/coddy-project/coddy-agent";
    assert Branding.MODULE_REPLACEMENTS[0].1 == Branding.MODULE_REPLACEMENTS[1].1
        == "github.com/hijera/foxxycode-agent";
  }

  lemma PlainBytes(s: string)
    requires IsAscii(s) && '\n' !in s
    ensures LF !in Ascii(s)
  {
    forall i | 0 <= i < |s| ensures Ascii(s)[i] != LF { assert s[i] != '\n' && s[i] in s; }
  }

  /** The replacement tables of the tool meet what the part theorems ask of them. */
  lemma TablesInUse()
    ensures AllAscii(Branding.CONTENT_REPLACEMENTS) && AllAscii(Branding.BRAND_REPLACEMENTS)
    ensures LineSafe(AsciiTable(Branding.CONTENT_REPLACEMENTS)) && Visible(AsciiTable(Branding.BRAND_REPLACEMENTS))
  {
    ContentAscii();
    Normalization.ContentPlain();
    Normalization.BrandPlain();
    forall i | 0 <= i < |Branding.CONTENT_REPLACEMENTS|
      ensures LF !in Ascii(Branding.CONTENT_REPLACEMENTS[i].0) && LF !in Ascii(Branding.CONTENT_REPLACEMENTS[i].1)
      ensures Branding.CONTENT_REPLACEMENTS[i].0[0] in {'h', 'g', 'c', 'C'}
    {
      PlainBytes(Branding.CONTENT_REPLACEMENTS[i].0);
      PlainBytes(Branding.CONTENT_REPLACEMENTS[i].1);
    }
    forall i | 0 <= i < |Branding.BRAND_REPLACEMENTS|
      ensures LF !in Ascii(Branding.BRAND_REPLACEMENTS[i].0) && LF !in Ascii(Branding.BRAND_REPLACEMENTS[i].1)
    {
      PlainBytes(Branding.BRAND_REPLACEMENTS[i].0);
      PlainBytes(Branding.BRAND_REPLACEMENTS[i].1);
    }
  }

  // ---- adapt_patch -----------------------------------------------------------------------------

  /** Where the next file's part begins: at a later line start that says `diff --git `. */
  function NextPart(s: Bytes, from: nat): (n: nat)
    requires from <= |s|
    ensures from <= n <= |s|
    decreases |s| - from
  {
    if from == |s| then |s|
    else if from > 0 && s[from - 1] == LF && DIFF_GIT <= s[from..] then from
    else NextPart(s, from + 1)
  }

  /** `re.split(br"(?m)(?=^diff --git )", patch)` without the empty first piece. */
  function SplitParts(s: Bytes): seq<Bytes>
    decreases |s|
  {
    if s == [] then [] else var n := NextPart(s, 1); [s[..n]] + SplitParts(s[n..])
  }

  lemma {:induction false} ConcatSplitParts(s: Bytes)
    ensures Concat(SplitParts(s)) == s
    decreases |s|
  {
    if s != [] { ConcatSplitParts(s[NextPart(s, 1)..]); }
  }

  predicate HasBinaryMarker(part: Bytes) {
    exists i :: 0 <= i <= |part| && ([LF] + GIT_BINARY + [LF]) <= part[i..]
  }

  function KindOf(part: Bytes, utf8: Bytes -> bool): Kind {
    Kind(HasBinaryMarker(part), utf8(part))
  }

  // ---- Which parts are README parts ---------------------------------------------------------

  const HUNK_START: Bytes := [LF] + HUNK
  const OLD_FILE: Bytes := Ascii("--- ")
  const NEW_FILE: Bytes := Ascii("+++ ")

  /** `part.split(b"\n@@", 1)[0]`. */
  function BeforeHunks(s: Bytes): Bytes {
    if s == [] || HUNK_START <= s then [] else [s[0]] + BeforeHunks(s[1..])
  }

  /** A line without its end. */
  function Bare(line: Bytes): Bytes {
    var n := |line|;
    if n > 1 && line[n - 2] == CR && line[n - 1] == LF then line[..n - 2]
    else if n > 0 && line[n - 1] in {CR, LF} then line[..n - 1]
    else line
  }

  function TrimEnd(s: Bytes, b: byte): Bytes {
    if s != [] && s[|s| - 1] == b then TrimEnd(s[..|s| - 1], b) else s
  }

  function TrimStart(s: Bytes, b: byte): Bytes {
    if s != [] && s[0] == b then TrimStart(s[1..], b) else s
  }

  /** `line[4:].rstrip(b"\t").strip(b'"')`. */
  function NamedFile(line: Bytes): Bytes
    requires |line| >= 4
  {
    TrimEnd(TrimStart(TrimEnd(line[4..], 9), 34), 34)
  }

  /** The paths on the `---` and `+++` lines. */
  function FilesNamed(lines: seq<Bytes>): seq<Bytes> {
    if lines == [] then []
    else
      var line := Bare(lines[0]);
      (if OLD_FILE <= line || NEW_FILE <= line then [NamedFile(line)] else []) + FilesNamed(lines[1..])
  }

  /** Does a file header of the part name a README? readme judges one path. */
  predicate Exempt(part: Bytes, readme: Bytes -> bool) {
    var paths := FilesNamed(SplitLines(BeforeHunks(part)));
    exists i :: 0 <= i < |paths| && readme(paths[i])
  }

  lemma {:induction false} BeforeHunksIs(head: Bytes, hunks: Bytes)
    requires HUNK_START <= hunks && forall i :: 0 <= i < |head| ==> !(HUNK_START <= head[i..] + hunks)
    ensures BeforeHunks(head + hunks) == head
    decreases |head|
  {
    if head == [] {
      assert head + hunks == hunks;
    } else {
      var rest := head[1..];
      assert head[0..] == head && (head + hunks)[0] == head[0] && (head + hunks)[1..] == rest + hunks;
      forall i | 0 <= i < |rest| ensures !(HUNK_START <= rest[i..] + hunks) { assert rest[i..] == head[i + 1..]; }
      BeforeHunksIs(rest, hunks);
    }
  }

  /** Only the text above the first hunk counts: a `---` or `+++` line inside a hunk is no file header. */
  lemma HunksNameNoFile(head: Bytes, hunks: Bytes, more: Bytes, readme: Bytes -> bool)
    requires HUNK_START <= hunks && HUNK_START <= more
    requires forall i :: 0 <= i < |head| ==> !(HUNK_START <= head[i..] + hunks) && !(HUNK_START <= head[i..] + more)
    ensures Exempt(head + hunks, readme) == Exempt(head + more, readme)
  {
    BeforeHunksIs(head, hunks);
    BeforeHunksIs(head, more);
  }

  function ContentFor(part: Bytes, content: Table, readme: Bytes -> bool): Table {
    if Exempt(part, readme) then [] else content
  }

  function AdaptedParts(parts: seq<Bytes>, header: Table, content: Table, utf8: Bytes -> bool,
                        readme: Bytes -> bool): Bytes
    requires Sources(header) && Sources(content)
  {
    if parts == [] then []
    else
      Concat(Adapt(SplitLines(parts[0]), false, KindOf(parts[0], utf8), header, ContentFor(parts[0], content, readme)))
      + AdaptedParts(parts[1..], header, content, utf8, readme)
  }

  datatype Warning = LeftUnchanged(header: Bytes) | ReadmeKept(header: Bytes)

  /** `part.split(b"\n", 1)[0]`. */
  function Title(part: Bytes): (line: Bytes)
    ensures LF !in line && line <= part && (line == part || part[|line|] == LF)
  {
    if part == [] || part[0] == LF then [] else [part[0]] + Title(part[1..])
  }

  function WarningsFor(part: Bytes, utf8: Bytes -> bool, readme: Bytes -> bool): seq<Warning> {
    var kind, first := KindOf(part, utf8), Title(part);
    if kind.binary || !kind.utf8 then [LeftUnchanged(first)]
    else if Exempt(part, readme) then [ReadmeKept(first)]
    else []
  }

  function AllWarnings(parts: seq<Bytes>, utf8: Bytes -> bool, readme: Bytes -> bool): seq<Warning> {
    if parts == [] then [] else WarningsFor(parts[0], utf8, readme) + AllWarnings(parts[1..], utf8, readme)
  }

  method AdaptPatch(patch: Bytes, header: Table, content: Table, utf8: Bytes -> bool, readme: Bytes -> bool)
    returns (output: Bytes, warnings: seq<Warning>)
    requires Sources(header) && Sources(content)
    ensures output == AdaptedParts(SplitParts(patch), header, content, utf8, readme)
    ensures warnings == AllWarnings(SplitParts(patch), utf8, readme)
  {
    var parts := SplitParts(patch);
    var lines: seq<Bytes> := [];
    warnings := [];
    assert parts[0..] == parts;
    ghost var text, notes := AdaptedParts(parts, header, content, utf8, readme), AllWarnings(parts, utf8, readme);
    for k := 0 to |parts|
      invariant Concat(lines) + AdaptedParts(parts[k..], header, content, utf8, readme) == text
      invariant warnings + AllWarnings(parts[k..], utf8, readme) == notes
    {
      PartStep(Concat(lines), parts, k, header, content, utf8, readme);
      WarnStep(warnings, parts, k, utf8, readme);
      var kind := KindOf(parts[k], utf8);
      var exempt := Exempt(parts[k], readme);
      var noted := Warn(parts[k], kind, exempt);
      warnings := warnings + noted;
      var adapted := AdaptPart(parts[k], kind, header, if exempt then [] else content);
      ConcatAppend(lines, adapted);
      lines := lines + adapted;
    }
    assert parts[|parts|..] == [];
    output := Concat(lines);
  }

  method Warn(part: Bytes, kind: Kind, exempt: bool) returns (noted: seq<Warning>)
    ensures noted == if kind.binary || !kind.utf8 then [LeftUnchanged(Title(part))]
                     else if exempt then [ReadmeKept(Title(part))] else []
  {
    noted := [];
    var first := Title(part);
    if kind.binary || !kind.utf8 { noted := noted + [LeftUnchanged(first)]; }
    if exempt && kind.utf8 && !kind.binary { noted := noted + [ReadmeKept(first)]; }
  }

  lemma PartStep(text: Bytes, parts: seq<Bytes>, k: nat, header: Table, content: Table, utf8: Bytes -> bool,
                 readme: Bytes -> bool)
    requires Sources(header) && Sources(content) && k < |parts|
    ensures text + AdaptedParts(parts[k..], header, content, utf8, readme)
         == text + Concat(Adapt(SplitLines(parts[k]), false, KindOf(parts[k], utf8), header,
                                ContentFor(parts[k], content, readme)))
          + AdaptedParts(parts[k + 1..], header, content, utf8, readme)
  {
    assert parts[k..][1..] == parts[k + 1..];
  }

  lemma WarnStep(warnings: seq<Warning>, parts: seq<Bytes>, k: nat, utf8: Bytes -> bool, readme: Bytes -> bool)
    requires k < |parts|
    ensures warnings + AllWarnings(parts[k..], utf8, readme)
         == warnings + WarningsFor(parts[k], utf8, readme) + AllWarnings(parts[k + 1..], utf8, readme)
  {
    assert parts[k..][1..] == parts[k + 1..];
  }
}
