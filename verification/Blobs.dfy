/** `read_blobs`: the length-framed output of `git cat-file --batch`, parsed back. */
module Blobs {
  import opened Bytes
  import opened Wrappers
  import opened Decimal

  // ---- Lexing ----------------------------------------------------------------------------

  predicate Space(b: byte) {
    b == 32 || 9 <= b <= 13
  }

  /** `output.index(b"\n")`. */
  function IndexLf(s: Bytes): (r: Option<nat>)
    ensures r.Some? ==> r.value < |s| && s[r.value] == LF && LF !in s[..r.value]
    ensures r.None? ==> LF !in s
  {
    if s == [] then None
    else if s[0] == LF then Some(0)
    else match IndexLf(s[1..]) case None => None case Some(i) => Some(i + 1)
  }

  function Word(s: Bytes): (n: nat)
    ensures n <= |s| && (forall i :: 0 <= i < n ==> !Space(s[i])) && (n < |s| ==> Space(s[n]))
  {
    if s == [] || Space(s[0]) then 0 else 1 + Word(s[1..])
  }

  /** `bytes.split()`: the maximal runs of non-space bytes. */
  function Fields(s: Bytes): seq<Bytes>
    decreases |s|
  {
    if s == [] then [] else if Space(s[0]) then Fields(s[1..]) else [s[..Word(s)]] + Fields(s[Word(s)..])
  }

  predicate IsDigit(b: byte) {
    48 <= b <= 57
  }

  function DigitOf(b: byte): (d: nat)
    requires IsDigit(b)
  {
    b as int - 48
  }

  /** Digits with single underscores between them, as `int()` accepts. */
  function Unsigned(s: Bytes): Option<nat>
    decreases |s|
  {
    if s == [] || !IsDigit(s[|s| - 1]) then None
    else
      var d := DigitOf(s[|s| - 1]);
      if |s| == 1 then Some(d)
      else
        var front := if s[|s| - 2] == 95 then s[..|s| - 2] else s[..|s| - 1];
        match Unsigned(front) case None => None case Some(v) => Some(v * 10 + d)
  }

  function Signed(negative: bool, magnitude: Option<nat>): Option<int> {
    if magnitude.None? then None
    else
      var m: int := magnitude.value;
      Option<int>.Some(if negative then 0 - m else m)
  }

  /** `int(field)` on a byte field without spaces. */
  function ParseInt(s: Bytes): Option<int> {
    if s != [] && s[0] == 43 then Signed(false, Unsigned(s[1..]))
    else if s != [] && s[0] == 45 then Signed(true, Unsigned(s[1..]))
    else Signed(false, Unsigned(s))
  }

  // ---- Reading ---------------------------------------------------------------------------

  datatype Record = Record(content: Bytes, rest: Bytes)

  const BLOB: Bytes := [98, 108, 111, 98]

  /** One framed blob at the front of the stream. */
  function ReadOne(stream: Bytes, oid: Bytes): Option<Record> {
    var end := IndexLf(stream);
    if end.None? then None
    else
      var header := Fields(stream[..end.value]);
      if |header| != 3 || header[0] != oid || header[1] != BLOB then None
      else
        var size := ParseInt(header[2]);
        var body := stream[end.value + 1..];
        if size.None? || size.value < 0 || size.value >= |body| || body[size.value] != LF then None
        else Some(Record(body[..size.value], body[size.value + 1..]))
  }

  function ReadAll(stream: Bytes, ids: seq<Bytes>): Option<map<Bytes, Bytes>>
    decreases |ids|
  {
    if ids == [] then Some(map[])
    else
      match ReadOne(stream, ids[0])
      case None => None
      case Some(first) =>
        match ReadAll(first.rest, ids[1..])
        case None => None
        case Some(others) => Some(map[ids[0] := first.content] + others)
  }

  datatype ReadError = CannotRead(oid: Bytes) | Truncated(oid: Bytes) | NoHeader(oid: Bytes)

  method ReadAt(output: Bytes, start: nat, oid: Bytes) returns (r: Result<Bytes, ReadError>, next: nat)
    requires start <= |output|
    ensures start <= next <= |output|
    ensures r.Success? <==> ReadOne(output[start..], oid).Some?
    ensures r.Success? ==> ReadOne(output[start..], oid) == Some(Record(r.value, output[next..]))
  {
    next := start;
    ghost var stream := output[start..];
    var found := IndexLf(output[start..]);
    if found.None? { return Failure(NoHeader(oid)), start; }
    var end := start + found.value;
    assert output[start..end] == stream[..found.value];
    var header := Fields(output[start..end]);
    if |header| != 3 || header[0] != oid || header[1] != BLOB { return Failure(CannotRead(oid)), start; }
    var size := ParseInt(header[2]);
    if size.None? { return Failure(CannotRead(oid)), start; }
    var pos := end + 1;
    ghost var body := stream[found.value + 1..];
    assert output[pos..] == body;
    if size.value < 0 || pos + size.value >= |output| || output[pos + size.value] != LF {
      return Failure(Truncated(oid)), start;
    }
    assert body[..size.value] == output[pos..pos + size.value];
    assert body[size.value + 1..] == output[pos + size.value + 1..];
    r, next := Success(output[pos..pos + size.value]), pos + size.value + 1;
  }

  /** The loop over the sorted identifiers, advancing pos through the output. */
  method ReadBlobs(output: Bytes, ids: seq<Bytes>) returns (r: Result<map<Bytes, Bytes>, ReadError>)
    requires forall i, j :: 0 <= i < j < |ids| ==> ids[i] != ids[j]
    ensures r.Success? <==> ReadAll(output, ids).Some?
    ensures r.Success? ==> r.value == ReadAll(output, ids).value
  {
    var blobs: map<Bytes, Bytes> := map[];
    var pos := 0;
    assert output[0..] == output && ids[0..] == ids;
    PrependNothing(ReadAll(output, ids));
    for k := 0 to |ids|
      invariant 0 <= pos <= |output|
      invariant blobs.Keys == Known(ids[..k])
      invariant ReadAll(output, ids) == Prepend(blobs, ReadAll(output[pos..], ids[k..]))
    {
      var one, next := ReadAt(output, pos, ids[k]);
      assert ids[k..][0] == ids[k] && ids[k..][1..] == ids[k + 1..];
      if one.Failure? { return Failure(one.error); }
      NotYet(ids, k);
      PrependStep(blobs, ids[k], one.value, ReadAll(output[next..], ids[k + 1..]));
      blobs := blobs[ids[k] := one.value];
      pos := next;
    }
    assert ids[|ids|..] == [];
    r := Success(blobs);
  }

  ghost function Known(ids: seq<Bytes>): set<Bytes> {
    set b | b in ids
  }

  ghost function Prepend(m: map<Bytes, Bytes>, o: Option<map<Bytes, Bytes>>): Option<map<Bytes, Bytes>> {
    if o.None? then None else Some(m + o.value)
  }

  lemma PrependNothing(o: Option<map<Bytes, Bytes>>)
    ensures Prepend(map[], o) == o
  {
    if o.Some? { assert map[] + o.value == o.value; }
  }

  lemma PrependStep(m: map<Bytes, Bytes>, id: Bytes, content: Bytes, o: Option<map<Bytes, Bytes>>)
    requires id !in m
    ensures Prepend(m, Prepend(map[id := content], o)) == Prepend(m[id := content], o)
  {
    if o.Some? { assert m + (map[id := content] + o.value) == m[id := content] + o.value; }
  }

  lemma NotYet(ids: seq<Bytes>, k: nat)
    requires k < |ids| && forall i, j :: 0 <= i < j < |ids| ==> ids[i] != ids[j]
    ensures ids[k] !in ids[..k]
    ensures Known(ids[..k + 1]) == Known(ids[..k]) + {ids[k]}
  {
    assert ids[..k + 1] == ids[..k] + [ids[k]];
  }

  // ---- Printing --------------------------------------------------------------------------

  /** What `git cat-file --batch` prints for one blob. */
  function Header(oid: Bytes, size: nat): Bytes {
    oid + [32] + BLOB + [32] + Numeral(size)
  }

  function Numeral(n: nat): Bytes {
    ValuePrint(n);
    Ascii(Print(n))
  }

  function PrintOne(oid: Bytes, content: Bytes): Bytes {
    Header(oid, |content|) + [LF] + content + [LF]
  }

  function PrintAll(ids: seq<Bytes>, contents: map<Bytes, Bytes>): Bytes
    requires forall i :: 0 <= i < |ids| ==> ids[i] in contents
  {
    if ids == [] then [] else PrintOne(ids[0], contents[ids[0]]) + PrintAll(ids[1..], contents)
  }

  /** An object identifier is a nonempty word. */
  predicate IsWord(s: Bytes) {
    s != [] && forall i :: 0 <= i < |s| ==> !Space(s[i])
  }

  lemma {:induction false} WordOf(w: Bytes, rest: Bytes)
    requires (forall i :: 0 <= i < |w| ==> !Space(w[i])) && (rest == [] || Space(rest[0]))
    ensures Word(w + rest) == |w|
  {
    assert forall i :: 0 <= i < |w| ==> (w + rest)[i] == w[i];
    assert rest != [] ==> (w + rest)[|w|] == rest[0];
  }

  lemma FirstField(w: Bytes, rest: Bytes)
    requires IsWord(w) && (rest == [] || Space(rest[0]))
    ensures Fields(w + rest) == [w] + Fields(rest)
  {
    WordOf(w, rest);
    assert (w + rest)[..|w|] == w && (w + rest)[|w|..] == rest;
  }

  lemma UnsignedAppend(s: Bytes, b: byte)
    requires s != [] && Unsigned(s).Some? && IsDigit(s[|s| - 1]) && IsDigit(b)
    ensures Unsigned(s + [b]) == Some(Unsigned(s).value * 10 + DigitOf(b))
  {
    assert (s + [b])[..|s|] == s;
  }

  function DigitByte(d: nat): (b: byte)
    requires d < 10
    ensures IsDigit(b) && DigitOf(b) == d
  {
    (48 + d) as byte
  }

  lemma NumeralStep(n: nat)
    ensures Numeral(n) == (if n < 10 then [] else Numeral(n / 10)) + [DigitByte(n % 10)]
  {
    ValuePrint(n);
    DigitInverse(n % 10);
    DigitAscii(n % 10);
    if n >= 10 {
      ValuePrint(n / 10);
      AsciiAppend(Print(n / 10), [Digit(n % 10)]);
    }
  }

  lemma DigitAscii(d: nat)
    requires d < 10
    ensures IsAscii([Digit(d)]) && Ascii([Digit(d)]) == [DigitByte(d)]
  {}

  lemma AsciiAppend(a: string, b: string)
    requires IsAscii(a) && IsAscii(b)
    ensures IsAscii(a + b) && Ascii(a + b) == Ascii(a) + Ascii(b)
  {}

  lemma {:induction false} UnsignedPrint(n: nat)
    ensures Unsigned(Numeral(n)) == Some(n)
    ensures Numeral(n) != [] && forall i :: 0 <= i < |Numeral(n)| ==> IsDigit(Numeral(n)[i])
  {
    NumeralStep(n);
    if n >= 10 {
      UnsignedPrint(n / 10);
      UnsignedAppend(Numeral(n / 10), DigitByte(n % 10));
    } else {
      assert Unsigned([DigitByte(n)]) == Some(n);
    }
  }

  lemma BlobWord()
    ensures IsWord(BLOB) && LF !in BLOB
  {}

  lemma SpacedFields(rest: Bytes)
    ensures Fields([32] + rest) == Fields(rest)
  {
    assert ([32] + rest)[1..] == rest;
  }

  lemma NumeralField(size: nat)
    ensures Fields(Numeral(size)) == [Numeral(size)] && ParseInt(Numeral(size)) == Some(size) && LF !in Numeral(size)
  {
    UnsignedPrint(size);
    assert IsWord(Numeral(size));
    assert Numeral(size) + [] == Numeral(size);
    FirstField(Numeral(size), []);
    assert IsDigit(Numeral(size)[0]) && IsWord(Numeral(size));
  }

  lemma HeaderFields(oid: Bytes, size: nat)
    requires IsWord(oid)
    ensures Fields(Header(oid, size)) == [oid, BLOB, Numeral(size)] && LF !in Header(oid, size)
  {
    NumeralField(size);
    BlobWord();
    var last := [32] + Numeral(size);
    SpacedFields(Numeral(size));
    FirstField(BLOB, last);
    SpacedFields(BLOB + last);
    FirstField(oid, [32] + (BLOB + last));
    HeaderShape(oid, size);
  }

  lemma HeaderShape(oid: Bytes, size: nat)
    requires IsWord(oid) && LF !in Numeral(size)
    ensures Header(oid, size) == oid + ([32] + (BLOB + ([32] + Numeral(size)))) && LF !in Header(oid, size)
  {
    BlobWord();
    NoLf(oid);
  }

  lemma NoLf(w: Bytes)
    requires IsWord(w)
    ensures LF !in w
  {
    assert Space(LF);
  }

  lemma BeforeFirst(s: Bytes, i: nat)
    requires i < |s| && s[i] == LF
    ensures IndexLf(s).Some? && IndexLf(s).value <= i
  {
    assert s[i] in s;
  }

  lemma {:induction false} IndexLfAt(head: Bytes, rest: Bytes)
    requires LF !in head
    ensures IndexLf(head + [LF] + rest) == Some(|head|)
  {
    var s := head + [LF] + rest;
    var r := IndexLf(s);
    assert s[|head|] == LF;
    assert forall i :: 0 <= i < |head| ==> s[i] == head[i];
    assert s[|head|] == LF;
    BeforeFirst(s, |head|);
  }

  /** Reading what was printed returns the content and leaves the rest of the stream. */
  lemma ReadPrinted(oid: Bytes, content: Bytes, rest: Bytes)
    requires IsWord(oid)
    ensures ReadOne(PrintOne(oid, content) + rest, oid) == Some(Record(content, rest))
  {
    var header := Header(oid, |content|);
    HeaderFields(oid, |content|);
    NumeralField(|content|);
    var stream := PrintOne(oid, content) + rest;
    assert stream == header + [LF] + (content + [LF] + rest);
    IndexLfAt(header, content + [LF] + rest);
    assert stream[..|header|] == header && stream[|header| + 1..] == content + [LF] + rest;
    assert (content + [LF] + rest)[..|content|] == content && (content + [LF] + rest)[|content| + 1..] == rest;
  }

  function Selected(ids: seq<Bytes>, contents: map<Bytes, Bytes>): map<Bytes, Bytes>
    requires forall i :: 0 <= i < |ids| ==> ids[i] in contents
  {
    map id | id in ids :: contents[id]
  }

  lemma PickOne(ids: seq<Bytes>, contents: map<Bytes, Bytes>)
    requires ids != [] && forall i :: 0 <= i < |ids| ==> ids[i] in contents
    ensures Selected(ids, contents) == map[ids[0] := contents[ids[0]]] + Selected(ids[1..], contents)
  {
    assert forall id :: id in ids <==> id == ids[0] || id in ids[1..];
  }

  /** Parsing inverts the batch printer, whatever bytes the blobs hold and whatever follows. */
  lemma {:induction false} ReadInvertsPrint(ids: seq<Bytes>, contents: map<Bytes, Bytes>, rest: Bytes)
    requires forall i :: 0 <= i < |ids| ==> ids[i] in contents && IsWord(ids[i])
    ensures ReadAll(PrintAll(ids, contents) + rest, ids) == Some(Selected(ids, contents))
    decreases |ids|
  {
    if ids != [] {
      var others := PrintAll(ids[1..], contents);
      assert PrintAll(ids, contents) + rest == PrintOne(ids[0], contents[ids[0]]) + (others + rest);
      ReadPrinted(ids[0], contents[ids[0]], others + rest);
      ReadInvertsPrint(ids[1..], contents, rest);
      PickOne(ids, contents);
    }
  }

  /** A record cut short is never read. */
  lemma CutRecord(oid: Bytes, content: Bytes, cut: Bytes)
    requires IsWord(oid) && cut <= PrintOne(oid, content) && |cut| < |PrintOne(oid, content)|
    ensures ReadOne(cut, oid).None?
  {
    var header := Header(oid, |content|);
    HeaderFields(oid, |content|);
    NumeralField(|content|);
    var whole := PrintOne(oid, content);
    if |cut| <= |header| {
      assert cut == whole[..|cut|] == header[..|cut|];
      assert LF !in cut;
    } else {
      var body := cut[|header| + 1..];
      CutBody(header, content, cut);
      IndexLfAt(header, body);
      assert cut[..|header|] == header;
    }
  }

  lemma CutBody(header: Bytes, content: Bytes, cut: Bytes)
    requires cut <= header + [LF] + content + [LF] && |header| < |cut| < |header| + |content| + 2
    ensures cut == header + [LF] + cut[|header| + 1..] && |cut[|header| + 1..]| <= |content|
  {
    var whole := header + [LF] + content + [LF];
    assert cut == whole[..|cut|];
  }

  /** Every proper prefix of the printed stream is rejected. */
  lemma {:induction false} CutStream(ids: seq<Bytes>, contents: map<Bytes, Bytes>, cut: Bytes)
    requires forall i :: 0 <= i < |ids| ==> ids[i] in contents && IsWord(ids[i])
    requires cut <= PrintAll(ids, contents) && |cut| < |PrintAll(ids, contents)|
    ensures ReadAll(cut, ids).None?
    decreases |ids|
  {
    if ids != [] {
      var first, others := PrintOne(ids[0], contents[ids[0]]), PrintAll(ids[1..], contents);
      var whole := first + others;
      assert cut == whole[..|cut|];
      if |cut| < |first| {
        assert cut == first[..|cut|];
        CutRecord(ids[0], contents[ids[0]], cut);
      } else {
        var rest := cut[|first|..];
        assert cut == first + rest && rest == others[..|rest|];
        ReadPrinted(ids[0], contents[ids[0]], rest);
        CutStream(ids[1..], contents, rest);
      }
    }
  }

  // ---- What is accepted ------------------------------------------------------------------------

  /** A header line of three words: the identifier, "blob", and a numeral for the size. */
  ghost predicate Announces(header: Bytes, oid: Bytes, size: nat) {
    && LF !in header
    && exists numeral :: Fields(header) == [oid, Ascii("blob"), numeral] && ParseInt(numeral) == Some(size)
  }

  lemma BlobIsAscii()
    ensures IsAscii("blob") && BLOB == Ascii("blob")
  {}

  lemma ReadAnnounces(stream: Bytes, oid: Bytes) returns (header: Bytes)
    requires ReadOne(stream, oid).Some?
    ensures var r := ReadOne(stream, oid).value;
            Announces(header, oid, |r.content|) && stream == header + [LF] + r.content + [LF] + r.rest
  {
    BlobIsAscii();
    var end, r := IndexLf(stream).value, ReadOne(stream, oid).value;
    header := stream[..end];
    var body := stream[end + 1..];
    assert Fields(header) == [oid, Ascii("blob"), Fields(header)[2]];
    assert body == r.content + [LF] + r.rest;
    assert stream == header + [LF] + body;
  }

  lemma AnnouncedIsRead(header: Bytes, oid: Bytes, content: Bytes, rest: Bytes)
    requires Announces(header, oid, |content|)
    ensures ReadOne(header + [LF] + content + [LF] + rest, oid) == Some(Record(content, rest))
  {
    BlobIsAscii();
    var body := content + [LF] + rest;
    var stream := header + [LF] + content + [LF] + rest;
    assert stream == header + [LF] + body;
    IndexLfAt(header, body);
    assert stream[..|header|] == header && stream[|header| + 1..] == body;
    assert body[..|content|] == content && body[|content| + 1..] == rest;
  }

  /** A record is read exactly if such a header announces its content, framed by line feeds. */
  lemma ReadExactly(stream: Bytes, oid: Bytes, content: Bytes, rest: Bytes)
    ensures ReadOne(stream, oid) == Some(Record(content, rest)) <==>
            exists header :: Announces(header, oid, |content|) && stream == header + [LF] + content + [LF] + rest
  {
    if ReadOne(stream, oid) == Some(Record(content, rest)) {
      var header := ReadAnnounces(stream, oid);
      assert Announces(header, oid, |content|);
    }
    forall header | Announces(header, oid, |content|) && stream == header + [LF] + content + [LF] + rest
      ensures ReadOne(stream, oid) == Some(Record(content, rest))
    {
      AnnouncedIsRead(header, oid, content, rest);
    }
  }

  /** The framed records of these contents under these headers, one after the other. */
  function Framed(headers: seq<Bytes>, ids: seq<Bytes>, blobs: map<Bytes, Bytes>): Bytes
    requires |headers| == |ids| && forall k :: 0 <= k < |ids| ==> ids[k] in blobs
  {
    if ids == [] then []
    else headers[0] + [LF] + blobs[ids[0]] + [LF] + Framed(headers[1..], ids[1..], blobs)
  }

  ghost predicate AllAnnounce(headers: seq<Bytes>, ids: seq<Bytes>, blobs: map<Bytes, Bytes>) {
    && |headers| == |ids|
    && forall k :: 0 <= k < |ids| ==> ids[k] in blobs && Announces(headers[k], ids[k], |blobs[ids[k]]|)
  }

  /** The stream carries, in the order of the identifiers, each one in a header of its own with its content. */
  ghost predicate Carries(stream: Bytes, ids: seq<Bytes>, blobs: map<Bytes, Bytes>, headers: seq<Bytes>, rest: Bytes) {
    AllAnnounce(headers, ids, blobs) && stream == Framed(headers, ids, blobs) + rest
  }

  /** What is returned for an accepted stream is exactly what the stream carries. */
  lemma {:induction false} AcceptedStream(stream: Bytes, ids: seq<Bytes>) returns (headers: seq<Bytes>, rest: Bytes)
    requires ReadAll(stream, ids).Some? && forall i, j :: 0 <= i < j < |ids| ==> ids[i] != ids[j]
    ensures ReadAll(stream, ids).value.Keys == Known(ids)
    ensures Carries(stream, ids, ReadAll(stream, ids).value, headers, rest)
    decreases |ids|
  {
    if ids == [] {
      headers, rest := [], stream;
    } else {
      var first := ReadOne(stream, ids[0]).value;
      var header := ReadAnnounces(stream, ids[0]);
      var others;
      others, rest := AcceptedStream(first.rest, ids[1..]);
      headers := [header] + others;
      CarriesCons(ids, header, first, ReadAll(first.rest, ids[1..]).value, others, rest);
    }
  }

  lemma CarriesCons(ids: seq<Bytes>, header: Bytes, first: Record, inner: map<Bytes, Bytes>, others: seq<Bytes>,
                    rest: Bytes)
    requires ids != [] && forall i, j :: 0 <= i < j < |ids| ==> ids[i] != ids[j]
    requires Announces(header, ids[0], |first.content|)
    requires inner.Keys == Known(ids[1..]) && Carries(first.rest, ids[1..], inner, others, rest)
    ensures var blobs := map[ids[0] := first.content] + inner;
            && blobs.Keys == Known(ids)
            && Carries(header + [LF] + first.content + [LF] + first.rest, ids, blobs, [header] + others, rest)
  {
    var blobs := map[ids[0] := first.content] + inner;
    JoinedBlobs(ids, first.content, inner);
    FramedSame(others, ids[1..], inner, blobs);
    HeadersCons(ids, header, others, blobs);
    FramedHead(ids, header, first.content, others, blobs, rest);
  }

  lemma JoinedBlobs(ids: seq<Bytes>, content: Bytes, inner: map<Bytes, Bytes>)
    requires ids != [] && inner.Keys == Known(ids[1..]) && forall i, j :: 0 <= i < j < |ids| ==> ids[i] != ids[j]
    ensures var blobs := map[ids[0] := content] + inner;
            && blobs.Keys == Known(ids) && blobs[ids[0]] == content
            && forall k :: 0 <= k < |ids[1..]| ==> ids[1..][k] in blobs && blobs[ids[1..][k]] == inner[ids[1..][k]]
  {
    assert ids == [ids[0]] + ids[1..] && ids[0] !in ids[1..];
  }

  lemma HeadersCons(ids: seq<Bytes>, header: Bytes, others: seq<Bytes>, blobs: map<Bytes, Bytes>)
    requires ids != [] && |others| == |ids| - 1 && ids[0] in blobs && Announces(header, ids[0], |blobs[ids[0]]|)
    requires AllAnnounce(others, ids[1..], blobs)
    ensures AllAnnounce([header] + others, ids, blobs)
  {
    var headers := [header] + others;
    forall k | 0 <= k < |ids| ensures ids[k] in blobs && Announces(headers[k], ids[k], |blobs[ids[k]]|) {
      if k > 0 { assert ids[1..][k - 1] == ids[k] && headers[k] == others[k - 1]; }
    }
  }

  lemma FramedHead(ids: seq<Bytes>, header: Bytes, content: Bytes, others: seq<Bytes>, blobs: map<Bytes, Bytes>,
                   rest: Bytes)
    requires ids != [] && |others| == |ids| - 1 && ids[0] in blobs && blobs[ids[0]] == content
    requires forall k :: 0 <= k < |ids[1..]| ==> ids[1..][k] in blobs
    requires forall k :: 0 <= k < |ids| ==> ids[k] in blobs
    ensures Framed([header] + others, ids, blobs) + rest
         == header + [LF] + content + [LF] + (Framed(others, ids[1..], blobs) + rest)
  {
    assert ([header] + others)[1..] == others;
  }

  lemma {:induction false} FramedSame(headers: seq<Bytes>, ids: seq<Bytes>, a: map<Bytes, Bytes>, b: map<Bytes, Bytes>)
    requires |headers| == |ids| && forall k :: 0 <= k < |ids| ==> ids[k] in a && ids[k] in b && a[ids[k]] == b[ids[k]]
    ensures Framed(headers, ids, a) == Framed(headers, ids, b)
    decreases |ids|
  {
    if ids != [] { FramedSame(headers[1..], ids[1..], a, b); }
  }
}
