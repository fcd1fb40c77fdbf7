/** What `adapt_patch` does to the LF lines of a patch, by which `git apply` counts hunks. */
module PatchLines {
  import opened Bytes
  import opened Text
  import opened Patch
  import Branding

  /** Line by line: same number, same marker bytes, same line ends. */
  ghost predicate SameLines(a: seq<Bytes>, b: seq<Bytes>) {
    |a| == |b| && forall i :: 0 <= i < |a| ==> SameLine(a[i], b[i])
  }

  /** The `splitlines` pieces of a payload that the loop drops carry no LF. */
  ghost predicate DropsNoEnd(pieces: seq<Bytes>) {
    forall i :: 0 <= i < |pieces| && INDEX <= pieces[i] ==> LF !in pieces[i]
  }

  const TEXT: Kind := Kind(false, true)

  /** The bytes that the loop makes of one piece, and of all pieces, of a text payload. */
  function Piece(piece: Bytes, content: Table): Bytes
    requires Sources(content)
  {
    if INDEX <= piece then [] else ReplaceEach(piece, content)
  }

  function Payload(pieces: seq<Bytes>, content: Table): Bytes
    requires Sources(content)
    decreases |pieces|
  {
    if pieces == [] then [] else Piece(pieces[0], content) + Payload(pieces[1..], content)
  }

  lemma {:induction false} PayloadIsAdapt(pieces: seq<Bytes>, header: Table, content: Table)
    requires Sources(header) && Sources(content)
    ensures Payload(pieces, content) == Concat(Adapt(pieces, true, TEXT, header, content))
    decreases |pieces|
  {
    if pieces != [] {
      PayloadIsAdapt(pieces[1..], header, content);
      var first := AdaptLine(pieces[0], true, TEXT, header, content);
      ConcatAppend(first, Adapt(pieces[1..], true, TEXT, header, content));
      assert first != [] ==> first[1..] == [] && Concat(first) == first[0] + Concat([]);
    }
  }

  lemma {:induction false} PayloadAppend(a: seq<Bytes>, b: seq<Bytes>, content: Table)
    requires Sources(content)
    ensures Payload(a + b, content) == Payload(a, content) + Payload(b, content)
    decreases |a|
  {
    if a == [] {
      assert a + b == b;
    } else {
      var rest := a[1..] + b;
      assert (a + b)[0] == a[0] && (a + b)[1..] == rest;
      PayloadAppend(a[1..], b, content);
      var first, x, y := Piece(a[0], content), Payload(a[1..], content), Payload(b, content);
      assert first + (x + y) == first + x + y;
    }
  }

  // ---- Pieces of lines -----------------------------------------------------------------------

  lemma {:induction false} EndLocal(line: Bytes, rest: Bytes)
    requires Terminated(line)
    ensures LineEnd(line + rest) == LineEnd(line)
    decreases |line|
  {
    if line[0] != LF && line[0] != CR {
      assert (line + rest)[1..] == line[1..] + rest;
      TailTerminated(line, 1);
      EndLocal(line[1..], rest);
    }
  }

  lemma TailTerminated(line: Bytes, n: nat)
    requires OneLine(line) && n < |line|
    ensures OneLine(line[n..]) && (Terminated(line[n..]) <==> Terminated(line))
  {
    var tail := line[n..];
    forall i | 0 <= i < |tail| - 1 ensures tail[i] != LF { assert line[n + i] != LF; }
  }

  /** `splitlines` cuts after every LF, so the pieces of a text are those of its LF lines. */
  lemma {:induction false} PiecesOfLine(line: Bytes, rest: Bytes)
    requires Terminated(line)
    ensures SplitLines(line + rest) == SplitLines(line) + SplitLines(rest)
    decreases |line|
  {
    var n := LineEnd(line);
    var piece, tail := line[..n], line[n..];
    EndLocal(line, rest);
    SplitFirst(line, piece, tail);
    CutWhole(line, rest, n);
    SplitFirst(line + rest, piece, tail + rest);
    if n < |line| {
      TailTerminated(line, n);
      PiecesOfLine(tail, rest);
    } else {
      assert tail + rest == rest;
    }
    Regroup([piece], SplitLines(tail), SplitLines(rest));
  }

  lemma CutWhole(line: Bytes, rest: Bytes, n: nat)
    requires n <= |line|
    ensures (line + rest)[..n] == line[..n] && (line + rest)[n..] == line[n..] + rest
  {}

  /** A piece that stops short of the line's end has no LF. */
  lemma PieceHasNoLf(line: Bytes, n: nat)
    requires OneLine(line) && n < |line|
    ensures LF !in line[..n]
  {
    forall i | 0 <= i < n ensures line[..n][i] != LF { assert line[i] != LF; }
  }

  /** What becomes of a line whose end is not dropped: an LF at the end if there was one, and no other. */
  lemma {:induction false} EndKept(line: Bytes, content: Table)
    requires LfFree(content) && (line == [] || OneLine(line)) && DropsNoEnd(SplitLines(line))
    ensures var out := Payload(SplitLines(line), content);
            if line != [] && Terminated(line) then Terminated(out) else LF !in out
    decreases |line|
  {
    if line != [] {
      var n := LineEnd(line);
      var piece, rest := line[..n], line[n..];
      assert SplitLines(line)[0] == piece && SplitLines(line)[1..] == SplitLines(rest);
      assert DropsNoEnd(SplitLines(rest)) by {
        assert forall i :: 0 <= i < |SplitLines(rest)| ==> SplitLines(rest)[i] == SplitLines(line)[i + 1];
      }
      if n < |line| {
        PieceHasNoLf(line, n);
        TailTerminated(line, n);
        EndKept(rest, content);
        FreePiece(piece, content);
        PrefixWithoutLf(Piece(piece, content), Payload(SplitLines(rest), content));
      } else {
        assert piece == line;
        ReplaceKeepsEnd(piece, content);
      }
    }
  }

  lemma FreePiece(piece: Bytes, content: Table)
    requires LfFree(content) && LF !in piece
    ensures LF !in ReplaceEach(piece, content)
  {
    assert piece != [] ==> OneLine(piece) && !Terminated(piece);
    ReplaceKeepsEnd(piece, content);
  }

  lemma PrefixWithoutLf(a: Bytes, b: Bytes)
    requires LF !in a
    ensures b != [] && Terminated(b) ==> Terminated(a + b)
    ensures LF !in b ==> LF !in a + b
  {
    if b != [] && Terminated(b) {
      forall i | 0 <= i < |a + b| - 1 ensures (a + b)[i] != LF {
        if i < |a| { assert a[i] in a; } else { assert b[i - |a|] != LF; }
      }
    }
  }

  /** A hunk line whose end is not dropped stays one line with its marker and its end. */
  lemma HunkSurvives(line: Bytes, content: Table)
    requires LineSafe(content) && OneLine(line) && HunkLine(line) && DropsNoEnd(SplitLines(line))
    ensures var out := Payload(SplitLines(line), content);
            OneLine(out) && SameLine(out, line)
  {
    var n := LineEnd(line);
    var piece := line[..n];
    assert SplitLines(line)[0] == piece && piece[0] == line[0];
    HunkLinesStay(piece);
    if n < |line| {
      PieceHasNoLf(line, n);
      assert OneLine(piece);
    } else {
      assert piece == line;
    }
    LineSafeReplace(piece, content);
    EndKept(line, content);
    var out := Payload(SplitLines(line), content);
    assert out[0] == line[0];
    if !Terminated(line) {
      forall i | 0 <= i < |out| ensures out[i] != LF { assert out[i] in out; }
    }
  }

  // ---- Whole payloads: if ---------------------------------------------------------------------

  lemma DropsNoEndParts(a: seq<Bytes>, b: seq<Bytes>)
    requires DropsNoEnd(a + b)
    ensures DropsNoEnd(a) && DropsNoEnd(b)
  {
    assert forall i :: 0 <= i < |a| ==> a[i] == (a + b)[i];
    assert forall i :: 0 <= i < |b| ==> b[i] == (a + b)[|a| + i];
  }

  lemma HunksRest(text: Bytes)
    requires text != [] && HunksFrom(LfLines(text), 0)
    ensures HunkLine(text[..LfEnd(text)]) && HunksFrom(LfLines(text[LfEnd(text)..]), 0)
  {
    var lines, rest := LfLines(text), LfLines(text[LfEnd(text)..]);
    assert HunkLine(lines[0]);
    forall i | 0 <= i < |rest| ensures HunkLine(rest[i]) { assert HunkLine(lines[i + 1]) && lines[i + 1] == rest[i]; }
  }

  lemma {:induction false} LinesSurvive(text: Bytes, content: Table)
    requires LineSafe(content) && HunksFrom(LfLines(text), 0) && DropsNoEnd(SplitLines(text))
    ensures SameLines(LfLines(Payload(SplitLines(text), content)), LfLines(text))
    decreases |text|
  {
    if text != [] {
      var n := LfEnd(text);
      var line, rest := text[..n], text[n..];
      FirstLine(text);
      HunksRest(text);
      assert text == line + rest;
      if rest == [] {
        assert line == text;
        HunkSurvives(line, content);
        OneLfLine(Payload(SplitLines(line), content));
      } else {
        PiecesOfLine(line, rest);
        DropsNoEndParts(SplitLines(line), SplitLines(rest));
        PayloadAppend(SplitLines(line), SplitLines(rest), content);
        HunkSurvives(line, content);
        LinesSurvive(rest, content);
        LfLinesCons(Payload(SplitLines(line), content), Payload(SplitLines(rest), content));
      }
    }
  }

  lemma OneLfLine(line: Bytes)
    requires OneLine(line)
    ensures LfLines(line) == [line]
  {
    LfEndOf(line, []);
    assert line + [] == line && line[..|line|] == line && line[|line|..] == [];
  }

  lemma LfLinesCons(line: Bytes, rest: Bytes)
    requires Terminated(line)
    ensures LfLines(line + rest) == [line] + LfLines(rest)
  {
    LfEndOf(line, rest);
    assert (line + rest)[..|line|] == line && (line + rest)[|line|..] == rest;
  }

  // ---- Whole payloads: only if ------------------------------------------------------------------

  function Lfs(s: Bytes): nat {
    if s == [] then 0 else (if s[0] == LF then 1 else 0) + Lfs(s[1..])
  }

  lemma {:induction false} LfsAppend(a: Bytes, b: Bytes)
    ensures Lfs(a + b) == Lfs(a) + Lfs(b)
    decreases |a|
  {
    if a == [] {
      assert a + b == b;
    } else {
      assert (a + b)[1..] == a[1..] + b;
      LfsAppend(a[1..], b);
    }
  }

  lemma {:induction false} LfsNone(s: Bytes)
    requires LF !in s
    ensures Lfs(s) == 0
    decreases |s|
  {
    if s != [] { LfsNone(s[1..]); }
  }

  lemma LfsOfLine(line: Bytes)
    requires OneLine(line)
    ensures Lfs(line) == if Terminated(line) then 1 else 0
  {
    var body := line[..|line| - 1];
    PieceHasNoLf(line, |line| - 1);
    LfsNone(body);
    LfsAppend(body, line[|line| - 1..]);
    assert line == body + line[|line| - 1..];
    assert line[|line| - 1..][1..] == [];
  }

  /** The number of lines that end in LF. */
  function Ended(lines: seq<Bytes>): nat {
    if lines == [] then 0 else (if lines[0] != [] && Terminated(lines[0]) then 1 else 0) + Ended(lines[1..])
  }

  lemma {:induction false} LfsAreEnds(s: Bytes)
    ensures Lfs(s) == Ended(LfLines(s))
    decreases |s|
  {
    if s != [] {
      var n := LfEnd(s);
      FirstLine(s);
      LfsOfLine(s[..n]);
      LfsAreEnds(s[n..]);
      LfsAppend(s[..n], s[n..]);
      assert s == s[..n] + s[n..];
    }
  }

  lemma {:induction false} SameEnds(a: seq<Bytes>, b: seq<Bytes>)
    requires SameLines(a, b)
    ensures Ended(a) == Ended(b)
    decreases |a|
  {
    if a != [] {
      assert SameLine(a[0], b[0]);
      forall i | 0 <= i < |a[1..]| ensures SameLine(a[1..][i], b[1..][i]) { assert SameLine(a[i + 1], b[i + 1]); }
      SameEnds(a[1..], b[1..]);
    }
  }

  /** The number of dropped pieces that carry an LF. */
  function EndsLost(pieces: seq<Bytes>): nat {
    if pieces == [] then 0
    else (if INDEX <= pieces[0] && LF in pieces[0] then 1 else 0) + EndsLost(pieces[1..])
  }

  lemma {:induction false} NoneLost(pieces: seq<Bytes>)
    requires EndsLost(pieces) == 0
    ensures DropsNoEnd(pieces)
    decreases |pieces|
  {
    if pieces != [] {
      NoneLost(pieces[1..]);
      forall i | 0 <= i < |pieces| && INDEX <= pieces[i] ensures LF !in pieces[i] {
        if i > 0 { assert pieces[i] == pieces[1..][i - 1]; }
      }
    }
  }

  lemma {:induction false} PiecesAreLines(text: Bytes)
    ensures forall i :: 0 <= i < |SplitLines(text)| ==> OneLine(SplitLines(text)[i])
    decreases |text|
  {
    if text != [] {
      FirstPiece(text);
      PiecesAreLines(text[LineEnd(text)..]);
    }
  }

  lemma {:induction false} FirstPiece(s: Bytes)
    requires s != []
    ensures OneLine(s[..LineEnd(s)])
    decreases |s|
  {
    if s[0] != LF && s[0] != CR && |s| > 1 {
      FirstPiece(s[1..]);
      assert s[..LineEnd(s)] == [s[0]] + s[1..][..LineEnd(s[1..])];
    }
  }

  /** Every LF of the payload is in the output, except those of dropped pieces. */
  lemma {:induction false} LfsKept(pieces: seq<Bytes>, content: Table)
    requires LfFree(content) && forall i :: 0 <= i < |pieces| ==> OneLine(pieces[i])
    ensures Lfs(Payload(pieces, content)) + EndsLost(pieces) == Lfs(Concat(pieces))
    decreases |pieces|
  {
    if pieces != [] {
      var piece := pieces[0];
      LfsKept(pieces[1..], content);
      LfsAppend(piece, Concat(pieces[1..]));
      LfsAppend(Piece(piece, content), Payload(pieces[1..], content));
      PieceLfs(piece, content);
    }
  }

  lemma PieceLfs(piece: Bytes, content: Table)
    requires LfFree(content) && OneLine(piece)
    ensures Lfs(ReplaceEach(piece, content)) == Lfs(piece)
    ensures Lfs(piece) == if LF in piece then 1 else 0
  {
    LfsOfLine(piece);
    ReplaceKeepsEnd(piece, content);
    if Terminated(piece) {
      LfsOfLine(ReplaceEach(piece, content));
      assert piece[|piece| - 1] in piece;
    } else {
      LfsNone(ReplaceEach(piece, content));
    }
  }

  /** A text payload of hunk lines, lone CRs or not: its LF lines keep their number, markers and ends if and
      only if no piece that `splitlines` makes both starts with `index ` and carries an LF. */
  lemma HunksSurviveExactly(text: Bytes, header: Table, content: Table)
    requires Sources(header) && LineSafe(content) && HunksFrom(LfLines(text), 0)
    ensures SameLines(LfLines(Concat(Adapt(SplitLines(text), true, TEXT, header, content))), LfLines(text))
            <==> DropsNoEnd(SplitLines(text))
  {
    var pieces := SplitLines(text);
    PayloadIsAdapt(pieces, header, content);
    var out := Payload(pieces, content);
    if DropsNoEnd(pieces) { LinesSurvive(text, content); }
    if SameLines(LfLines(out), LfLines(text)) {
      PiecesAreLines(text);
      LfsKept(pieces, content);
      ConcatSplitLines(text);
      LfsAreEnds(out);
      LfsAreEnds(text);
      SameEnds(LfLines(out), LfLines(text));
      NoneLost(pieces);
    }
  }

  // ---- Whole patches -------------------------------------------------------------------------

  /** Header and payload lines after the loop; verbatim parts keep their payload. */
  function Outcome(lines: seq<Bytes>, kind: Kind, header: Table, content: Table, verbatim: bool): seq<Bytes>
    requires Sources(header) && Sources(content)
  {
    var n := PayloadStart(lines);
    Rebranded(HeaderOf(lines[..n], kind), header) + BodyOf(lines[n..], content, verbatim)
  }

  function BodyOf(lines: seq<Bytes>, content: Table, verbatim: bool): seq<Bytes>
    requires Sources(content)
  {
    if verbatim then lines else Rebranded(lines, content)
  }

  /** A part as the loop sees it; readme says whether its content table is empty. */
  datatype PartFacts = PartFacts(part: Bytes, kind: Kind, readme: bool)

  /** Is the payload passed on as it is? */
  predicate PassesPayload(s: PartFacts) {
    s.kind.binary || !s.kind.utf8 || s.readme
  }

  function FactsOf(part: Bytes, utf8: Bytes -> bool, readme: Bytes -> bool): PartFacts {
    PartFacts(part, KindOf(part, utf8), Exempt(part, readme))
  }

  /** The tool warns exactly about the parts whose payload it passes on as it is. */
  lemma WarnedPassPayload(part: Bytes, utf8: Bytes -> bool, readme: Bytes -> bool)
    ensures WarningsFor(part, utf8, readme) != [] <==> PassesPayload(FactsOf(part, utf8, readme))
  {}

  /** The bytes the loop makes of a part. */
  function PartBytes(s: PartFacts, header: Table, content: Table): Bytes
    requires Sources(header) && Sources(content)
  {
    Concat(Adapt(SplitLines(s.part), false, s.kind, header, if s.readme then [] else content))
  }

  /** The lines a part becomes: its header rebranded, without `index ` lines unless it is binary, and its
      payload, rebranded unless it is passed on as it is. */
  function PartLines(s: PartFacts, header: Table, content: Table): seq<Bytes>
    requires Sources(header) && Sources(content)
  {
    Outcome(LfLines(s.part), s.kind, header, content, PassesPayload(s))
  }

  /** Text parts have hunk lines below the header, as git writes them. */
  ghost predicate WellFormed(s: PartFacts) {
    s.kind.binary || HunksFrom(LfLines(s.part), PayloadStart(LfLines(s.part)))
  }

  lemma {:induction false} RebrandedByNothing(lines: seq<Bytes>)
    ensures Rebranded(lines, []) == lines
    decreases |lines|
  {
    if lines != [] { RebrandedByNothing(lines[1..]); }
  }

  lemma EndedAppend(a: seq<Bytes>, b: seq<Bytes>)
    requires AllEnded(a) && AllEnded(b)
    ensures AllEnded(a + b)
  {}

  lemma EndsFollow(lines: seq<Bytes>, n: nat, out: seq<Bytes>)
    requires Lined(lines) && lines != [] && Terminated(lines[|lines| - 1]) && n <= |lines| && |out| == |lines| - n
    requires forall i :: 0 <= i < |out| ==> (Terminated(out[i]) <==> Terminated(lines[n..][i]))
    ensures AllEnded(out)
  {
    forall i | 0 <= i < |out| ensures Terminated(out[i]) {
      assert lines[n..][i] == lines[n + i];
    }
  }

  lemma BodyBecomes(lines: seq<Bytes>, kind: Kind, header: Table, content: Table, exempt: bool)
    requires Sources(header) && LineSafe(content) && Lined(lines)
    requires kind.binary || forall i :: 0 <= i < |lines| ==> HunkLine(lines[i])
    ensures var out := BodyOf(lines, content, kind.binary || !kind.utf8 || exempt);
            && Adapt(lines, true, kind, header, if exempt then [] else content) == out
            && Lined(out) && |out| == |lines|
            && forall i :: 0 <= i < |out| ==> (Terminated(out[i]) <==> Terminated(lines[i]))
  {
    if kind.binary || !kind.utf8 {
      RawPayload(lines, kind, header, if exempt then [] else content);
    } else if exempt {
      PayloadRebranded(lines, header, []);
      RebrandedByNothing(lines);
    } else {
      PayloadRebranded(lines, header, content);
    }
  }

  lemma LinesBecome(lines: seq<Bytes>, kind: Kind, header: Table, content: Table, exempt: bool)
    requires Visible(header) && LineSafe(content) && Lined(lines)
    requires kind.binary || HunksFrom(lines, PayloadStart(lines))
    ensures var out := Outcome(lines, kind, header, content, kind.binary || !kind.utf8 || exempt);
            && Adapt(lines, false, kind, header, if exempt then [] else content) == out
            && Lined(out) && (lines != [] && Terminated(lines[|lines| - 1]) ==> AllEnded(out))
  {
    var n, table := PayloadStart(lines), if exempt then [] else content;
    AdaptInTwo(lines, kind, header, table);
    HeaderRebranded(lines, n, kind, header, table);
    if !kind.binary { HunksDrop(lines, n); }
    BodyBecomes(lines[n..], kind, header, content, exempt);
    HeaderBeforeBody(lines, n, Rebranded(HeaderOf(lines[..n], kind), header),
                     BodyOf(lines[n..], content, kind.binary || !kind.utf8 || exempt));
  }

  lemma HeaderBeforeBody(lines: seq<Bytes>, n: nat, head: seq<Bytes>, body: seq<Bytes>)
    requires Lined(lines) && n <= |lines| && |body| == |lines| - n && Lined(head) && Lined(body)
    requires n < |lines| || (lines != [] && Terminated(lines[|lines| - 1])) ==> AllEnded(head)
    requires forall i :: 0 <= i < |body| ==> (Terminated(body[i]) <==> Terminated(lines[n..][i]))
    ensures Lined(head + body)
    ensures lines != [] && Terminated(lines[|lines| - 1]) ==> AllEnded(head + body)
  {
    AppendLined(head, body);
    if lines != [] && Terminated(lines[|lines| - 1]) {
      EndsFollow(lines, n, body);
      EndedAppend(head, body);
    }
  }

  /** One part without lone CRs, whatever its kind, with or without payload. */
  lemma PartBecomes(s: PartFacts, header: Table, content: Table)
    requires Visible(header) && LineSafe(content) && NoLoneCr(s.part) && WellFormed(s)
    ensures PartBytes(s, header, content) == Concat(PartLines(s, header, content))
    ensures Lined(PartLines(s, header, content))
    ensures s.part != [] && s.part[|s.part| - 1] == LF ==> AllEnded(PartLines(s, header, content))
  {
    LinesAgree(s.part);
    LfLinesLined(s.part);
    if s.part != [] { LastByte(s.part); }
    LinesBecome(LfLines(s.part), s.kind, header, content, s.readme);
  }

  /** A warning is given about a part exactly when its payload passes unchanged instead of being rebranded. */
  lemma WarnedIsVerbatim(part: Bytes, header: Table, content: Table, utf8: Bytes -> bool, readme: Bytes -> bool)
    requires Visible(header) && LineSafe(content) && NoLoneCr(part) && WellFormed(FactsOf(part, utf8, readme))
    ensures var lines, n := LfLines(part), PayloadStart(LfLines(part));
            var head := Rebranded(HeaderOf(lines[..n], KindOf(part, utf8)), header);
            PartBytes(FactsOf(part, utf8, readme), header, content)
            == Concat(head) + Concat(if WarningsFor(part, utf8, readme) != [] then lines[n..]
                                     else Rebranded(lines[n..], content))
  {
    var lines, n := LfLines(part), PayloadStart(LfLines(part));
    var s := FactsOf(part, utf8, readme);
    PartBecomes(s, header, content);
    WarnedPassPayload(part, utf8, readme);
    ConcatAppend(Rebranded(HeaderOf(lines[..n], s.kind), header), BodyOf(lines[n..], content, PassesPayload(s)));
  }

  /** The last line of a text ends where the text ends. */
  lemma {:induction false} LastByte(s: Bytes)
    requires s != []
    ensures LfLines(s) != []
    ensures var last := LfLines(s)[|LfLines(s)| - 1];
            last != [] && last[|last| - 1] == s[|s| - 1] && (s[|s| - 1] == LF ==> Terminated(last))
    decreases |s|
  {
    FirstLine(s);
    if LfEnd(s) < |s| { LastByte(s[LfEnd(s)..]); }
  }

  /** Parts that can follow one another: all but the last end in LF, and no part has a lone CR. */
  ghost predicate Parted(parts: seq<Bytes>) {
    && (forall i :: 0 <= i < |parts| ==> parts[i] != [] && NoLoneCr(parts[i]))
    && forall i :: 0 <= i < |parts| - 1 ==> parts[i][|parts[i]| - 1] == LF
  }

  lemma {:induction false} NextPartEnds(s: Bytes, from: nat)
    requires from <= |s|
    ensures NextPart(s, from) < |s| ==> NextPart(s, from) > 0 && s[NextPart(s, from) - 1] == LF
    decreases |s| - from
  {
    if from < |s| && !(from > 0 && s[from - 1] == LF && DIFF_GIT <= s[from..]) { NextPartEnds(s, from + 1); }
  }

  lemma {:induction false} SplitIsParted(s: Bytes)
    requires NoLoneCr(s)
    ensures Parted(SplitParts(s))
    decreases |s|
  {
    if s != [] {
      var n := NextPart(s, 1);
      NextPartEnds(s, 1);
      forall i | 0 <= i < n && s[..n][i] == CR ensures i + 1 < n && s[..n][i + 1] == LF {
        assert s[i] == CR;
      }
      forall i | 0 <= i < |s[n..]| && s[n..][i] == CR ensures i + 1 < |s[n..]| && s[n..][i + 1] == LF {
        assert s[n + i] == CR;
      }
      SplitIsParted(s[n..]);
      if n == |s| { assert SplitParts(s[n..]) == []; }
    }
  }

  function AllBytes(parts: seq<PartFacts>, header: Table, content: Table): Bytes
    requires Sources(header) && Sources(content)
  {
    if parts == [] then [] else PartBytes(parts[0], header, content) + AllBytes(parts[1..], header, content)
  }

  /** The lines of a whole patch, part by part. */
  function AllLines(parts: seq<PartFacts>, header: Table, content: Table): seq<Bytes>
    requires Sources(header) && Sources(content)
  {
    if parts == [] then [] else PartLines(parts[0], header, content) + AllLines(parts[1..], header, content)
  }

  /** Parts that follow one another: no lone CR in any, each but the last ends in LF. */
  ghost predicate Regular(parts: seq<PartFacts>)
    decreases |parts|
  {
    parts == [] ||
    (var s := parts[0];
     && s.part != [] && NoLoneCr(s.part) && WellFormed(s)
     && (|parts| > 1 ==> s.part[|s.part| - 1] == LF) && Regular(parts[1..]))
  }

  lemma {:induction false} PartsBecome(parts: seq<PartFacts>, header: Table, content: Table)
    requires Visible(header) && LineSafe(content) && Regular(parts)
    ensures Lined(AllLines(parts, header, content))
    ensures AllBytes(parts, header, content) == Concat(AllLines(parts, header, content))
    decreases |parts|
  {
    if parts != [] {
      PartBecomes(parts[0], header, content);
      PartsBecome(parts[1..], header, content);
      if |parts| == 1 { assert AllLines(parts[1..], header, content) == []; }
      JoinLines(PartLines(parts[0], header, content), AllLines(parts[1..], header, content));
    }
  }

  lemma JoinLines(a: seq<Bytes>, b: seq<Bytes>)
    requires Lined(a) && Lined(b) && (b != [] ==> AllEnded(a))
    ensures Lined(a + b) && Concat(a + b) == Concat(a) + Concat(b)
  {
    AppendLined(a, b);
    ConcatAppend(a, b);
  }

  function AllFacts(parts: seq<Bytes>, utf8: Bytes -> bool, readme: Bytes -> bool): seq<PartFacts> {
    if parts == [] then [] else [FactsOf(parts[0], utf8, readme)] + AllFacts(parts[1..], utf8, readme)
  }

  lemma {:induction false} FactsCoverParts(parts: seq<Bytes>, header: Table, content: Table, utf8: Bytes -> bool,
                                           readme: Bytes -> bool)
    requires Sources(header) && Sources(content)
    ensures AdaptedParts(parts, header, content, utf8, readme)
         == AllBytes(AllFacts(parts, utf8, readme), header, content)
    decreases |parts|
  {
    if parts != [] {
      FactsCoverParts(parts[1..], header, content, utf8, readme);
      var facts := AllFacts(parts, utf8, readme);
      assert facts[0] == FactsOf(parts[0], utf8, readme) && facts[1..] == AllFacts(parts[1..], utf8, readme);
    }
  }

  lemma {:induction false} PartedAreRegular(parts: seq<Bytes>, utf8: Bytes -> bool, readme: Bytes -> bool)
    requires Parted(parts) && forall i :: 0 <= i < |parts| ==> WellFormed(FactsOf(parts[i], utf8, readme))
    ensures Regular(AllFacts(parts, utf8, readme)) && |AllFacts(parts, utf8, readme)| == |parts|
    decreases |parts|
  {
    if parts != [] {
      var rest := parts[1..];
      forall i | 0 <= i < |rest|
        ensures rest[i] != [] && NoLoneCr(rest[i]) && WellFormed(FactsOf(rest[i], utf8, readme))
        ensures i < |rest| - 1 ==> rest[i][|rest[i]| - 1] == LF
      {
        assert rest[i] == parts[i + 1];
      }
      PartedAreRegular(rest, utf8, readme);
      var facts := AllFacts(parts, utf8, readme);
      assert facts[0] == FactsOf(parts[0], utf8, readme) && facts[1..] == AllFacts(rest, utf8, readme);
    }
  }

  /** The tool's own tables on a patch without lone CRs: the LF lines of the output are, part by part, the
      rebranded header lines that stay and one line per payload line. */
  lemma ToolPatch(patch: Bytes, utf8: Bytes -> bool, readme: Bytes -> bool)
    requires NoLoneCr(patch)
    requires forall i :: 0 <= i < |SplitParts(patch)| ==> WellFormed(FactsOf(SplitParts(patch)[i], utf8, readme))
    ensures AllAscii(Branding.BRAND_REPLACEMENTS) && AllAscii(Branding.CONTENT_REPLACEMENTS)
    ensures var header, content := AsciiTable(Branding.BRAND_REPLACEMENTS), AsciiTable(Branding.CONTENT_REPLACEMENTS);
            && Sources(header) && Sources(content)
            && LfLines(AdaptedParts(SplitParts(patch), header, content, utf8, readme))
               == AllLines(AllFacts(SplitParts(patch), utf8, readme), header, content)
  {
    TablesInUse();
    var header, content := AsciiTable(Branding.BRAND_REPLACEMENTS), AsciiTable(Branding.CONTENT_REPLACEMENTS);
    SplitIsParted(patch);
    PartedAreRegular(SplitParts(patch), utf8, readme);
    FactsCoverParts(SplitParts(patch), header, content, utf8, readme);
    PartsBecome(AllFacts(SplitParts(patch), utf8, readme), header, content);
    LfLinesConcat(AllLines(AllFacts(SplitParts(patch), utf8, readme), header, content));
  }
}
