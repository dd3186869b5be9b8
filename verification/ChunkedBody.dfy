/** The chunked body the local proxy reads from a print queue (read_chunked_body in
    adapters/client_proxy.rs; section 7.1 of RFC 9112). */
module ChunkedBody {
  import opened Common
  import opened Bytes
  import opened Text

  const MAX_BODY: nat := 64 * 1024 * 1024
  const MAX_SIZE_LINE: nat := 1024
  const MAX_TRAILER: nat := 8 * 1024
  const MAX_DELIMITER: nat := 4
  const USIZE_MAX: nat := 0xFFFF_FFFF_FFFF_FFFF

  const NEWLINE: byte := 10
  const LF: bytes := [10]
  const CRLF: bytes := [13, 10]

  datatype BodyError = Closed | SizeNotText | InvalidSize(text: string) | TooLarge | IncompleteData | BadDelimiter

  // ---------------------------------------------------------------- sizes

  function HexDigit(c: char): (d: nat)
    requires IsHexDigit(c)
    ensures d < 16 && (d == 0 <==> c == '0')
  {
    if IsDigit(c) then c as int - '0' as int
    else if 'a' <= c then c as int - 'a' as int + 10
    else c as int - 'A' as int + 10
  }

  predicate AllHex(s: string) {
    forall k :: 0 <= k < |s| ==> IsHexDigit(s[k])
  }

  function HexValue(s: string): nat
    requires AllHex(s)
  {
    if s == "" then 0 else HexValue(s[..|s| - 1]) * 16 + HexDigit(s[|s| - 1])
  }

  /** `usize::from_str_radix(text, 16)`, which also takes a leading plus sign. */
  function ParseHex(text: string): Option<nat> {
    var digits := if text != "" && text[0] == '+' then text[1..] else text;
    if digits != "" && AllHex(digits) && HexValue(digits) <= USIZE_MAX then Some(HexValue(digits)) else None
  }

  /** The size a size line gives, without its extensions. */
  function SizeOf(line: bytes): Result<nat, BodyError> {
    match DecodeUtf8(line)
    case None => Err(SizeNotText)
    case Some(text) =>
      var digits := Trim(Before(Trim(text), ';'));
      match ParseHex(digits)
      case None => Err(InvalidSize(digits))
      case Some(n) => Ok(n)
  }

  // ---------------------------------------------------------------- reading

  /** How many bytes a read up to a newline takes, given a limit. */
  function LineLength(b: bytes, limit: nat): (n: nat)
    ensures n <= limit && n <= |b|
    ensures forall k :: 0 <= k < n - 1 ==> b[k] != NEWLINE
    ensures n == 0 <==> b == [] || limit == 0
    ensures n < limit && n < |b| ==> n > 0 && b[n - 1] == NEWLINE
  {
    if b == [] || limit == 0 then 0
    else if b[0] == NEWLINE then 1
    else 1 + LineLength(b[1..], limit - 1)
  }

  /** What follows the trailer lines. */
  function AfterTrailers(b: bytes): bytes
    decreases |b|
  {
    var n := LineLength(b, MAX_TRAILER);
    if n == 0 || b[..n] == CRLF || b[..n] == LF then b[n..] else AfterTrailers(b[n..])
  }

  /** The chunk's data, its delimiter checked, and what follows. */
  function TakeData(b: bytes, size: nat, room: nat): (r: Result<(bytes, bytes), BodyError>)
    ensures r.Ok? ==> |r.value.0| == size && size <= room && |r.value.1| <= |b| - size
  {
    if size > room then Err(TooLarge)
    else if |b| < size then Err(IncompleteData)
    else
      var n := LineLength(b[size..], MAX_DELIMITER);
      var delimiter := b[size..][..n];
      if delimiter == CRLF || delimiter == LF then Ok((b[..size], b[size..][n..])) else Err(BadDelimiter)
  }

  /** What the next size line and what it announces amount to. */
  datatype Part = Failed(error: BodyError) | End(rest: bytes) | More(data: bytes, rest: bytes)

  function Next(b: bytes, room: nat): (p: Part)
    ensures p.More? ==> p.data != [] && |p.data| <= room && |p.rest| < |b|
  {
    var n := LineLength(b, MAX_SIZE_LINE);
    if n == 0 then Failed(Closed)
    else
      match SizeOf(b[..n])
      case Err(e) => Failed(e)
      case Ok(size) =>
        if size == 0 then End(AfterTrailers(b[n..]))
        else
          match TakeData(b[n..], size, room)
          case Err(e) => Failed(e)
          case Ok((data, rest)) => More(data, rest)
  }

  /** The decoded body, continuing `body`, and what is left of the stream. */
  function Decode(b: bytes, body: bytes): (r: Result<(bytes, bytes), BodyError>)
    requires |body| <= MAX_BODY
    ensures r.Ok? ==> |r.value.0| <= MAX_BODY && body <= r.value.0
    decreases |b|
  {
    match Next(b, MAX_BODY - |body|)
    case Failed(e) => Err(e)
    case End(rest) => Ok((body, rest))
    case More(data, rest) => Decode(rest, body + data)
  }

  /** Reads a chunked body; `stream` is what the connection still holds. */
  method ReadChunkedBody(b: bytes) returns (r: Result<(bytes, bytes), BodyError>)
    ensures r == Decode(b, [])
  {
    var stream := b;
    var body: bytes := [];
    while true
      invariant |body| <= MAX_BODY
      invariant Decode(b, []) == Decode(stream, body)
      decreases |stream|
    {
      var count := LineLength(stream, MAX_SIZE_LINE);
      var line := stream[..count];
      if count == 0 {
        return Err(Closed);
      }
      stream := stream[count..];
      var size := SizeOf(line);
      if size.Err? {
        return Err(size.error);
      }
      if size.value == 0 {
        var ended := false;
        ghost var trailers := stream;
        while !ended
          invariant AfterTrailers(trailers) == if ended then stream else AfterTrailers(stream)
          decreases !ended, |stream|
        {
          var count := LineLength(stream, MAX_TRAILER);
          var trailer := stream[..count];
          stream := stream[count..];
          ended := count == 0 || trailer == CRLF || trailer == LF;
        }
        return Ok((body, stream));
      }
      if size.value > MAX_BODY - |body| {
        return Err(TooLarge);
      }
      if |stream| < size.value {
        return Err(IncompleteData);
      }
      var data := stream[..size.value];
      stream := stream[size.value..];
      var taken := LineLength(stream, MAX_DELIMITER);
      var delimiter := stream[..taken];
      stream := stream[taken..];
      if delimiter != CRLF && delimiter != LF {
        return Err(BadDelimiter);
      }
      body := body + data;
    }
  }

  // ---------------------------------------------------------------- writing

  datatype Ending = Crlf | Lf

  function EndText(e: Ending): string {
    if e.Crlf? then "\r\n" else "\n"
  }

  function EndBytes(e: Ending): bytes {
    if e.Crlf? then CRLF else LF
  }

  datatype Chunk = Chunk(size: string, extension: string, lineEnd: Ending, data: bytes, dataEnd: Ending)

  function SizeLine(size: string, extension: string, end: Ending): bytes {
    EncodeUtf8(size + extension + EndText(end))
  }

  /** A size in hex digits with extensions: what stands before the first semicolon is blank. */
  ghost predicate IsSizeLine(size: string, extension: string, end: Ending, value: nat) {
    && size != "" && AllHex(size) && HexValue(size) == value && value <= USIZE_MAX
    && AllBlank(Before(extension, ';')) && '\n' !in extension
    && |SizeLine(size, extension, end)| <= 1024
  }

  ghost predicate IsChunk(c: Chunk) {
    c.data != [] && IsSizeLine(c.size, c.extension, c.lineEnd, |c.data|)
  }

  ghost predicate AreChunks(chunks: seq<Chunk>) {
    forall k :: 0 <= k < |chunks| ==> IsChunk(chunks[k])
  }

  function WriteChunk(c: Chunk): bytes {
    SizeLine(c.size, c.extension, c.lineEnd) + (c.data + EndBytes(c.dataEnd))
  }

  function WriteChunks(chunks: seq<Chunk>): bytes {
    if chunks == [] then [] else WriteChunk(chunks[0]) + WriteChunks(chunks[1..])
  }

  function Data(chunks: seq<Chunk>): bytes {
    if chunks == [] then [] else chunks[0].data + Data(chunks[1..])
  }

  /** A trailer line: at most the limit, ended by its only newline, and not blank. */
  ghost predicate IsTrailer(line: bytes) {
    && 0 < |line| <= 8192 && line[|line| - 1] == NEWLINE && line != CRLF && line != LF
    && forall k :: 0 <= k < |line| - 1 ==> line[k] != NEWLINE
  }

  ghost predicate AreTrailers(lines: seq<bytes>) {
    forall k :: 0 <= k < |lines| ==> IsTrailer(lines[k])
  }

  function Joined(lines: seq<bytes>): bytes {
    if lines == [] then [] else lines[0] + Joined(lines[1..])
  }

  /** The last chunk, the trailers and the blank line. */
  datatype Last = Last(size: string, extension: string, lineEnd: Ending, trailers: seq<bytes>, blank: Ending)

  ghost predicate IsLast(l: Last) {
    IsSizeLine(l.size, l.extension, l.lineEnd, 0) && AreTrailers(l.trailers)
  }

  function WriteLast(l: Last): bytes {
    SizeLine(l.size, l.extension, l.lineEnd) + (Joined(l.trailers) + EndBytes(l.blank))
  }

  // ---------------------------------------------------------------- size lines read back

  lemma {:induction false} LineOf(line: bytes, rest: bytes, limit: nat)
    requires 0 < |line| <= limit && line[|line| - 1] == NEWLINE
    requires forall k :: 0 <= k < |line| - 1 ==> line[k] != NEWLINE
    ensures LineLength(line + rest, limit) == |line|
    decreases |line|
  {
    assert (line + rest)[0] == line[0];
    if |line| > 1 {
      assert (line + rest)[1..] == line[1..] + rest;
      LineOf(line[1..], rest, limit - 1);
    }
  }

  /** The only newline of a size line is its last byte. */
  lemma SizeLineEnds(size: string, extension: string, end: Ending, value: nat)
    requires IsSizeLine(size, extension, end, value)
    ensures var line := SizeLine(size, extension, end);
      |line| > 0 && line[|line| - 1] == NEWLINE && forall k :: 0 <= k < |line| - 1 ==> line[k] != NEWLINE
  {
    var before := size + extension + (if end.Crlf? then "\r" else "");
    assert size + extension + EndText(end) == before + "\n";
    EncodeJoin(before, "\n");
    assert EncodeUtf8("\n") == [NEWLINE];
    assert '\n' !in before by {
      assert '\n' !in size;
    }
    AsciiBytes(before, '\n');
    var line := SizeLine(size, extension, end);
    assert forall k :: 0 <= k < |line| - 1 ==> line[k] == EncodeUtf8(before)[k];
  }

  lemma BlankBefore(s: string, cut: nat, c: char)
    requires AllBlank(Before(s, c)) && cut <= |s|
    ensures AllBlank(Before(s[..cut], c))
  {
    var t := s[..cut];
    assert forall k :: 0 <= k < |t| ==> t[k] == s[k];
    assert IndexOf(t, c) <= IndexOf(s, c);
    assert forall k :: 0 <= k < |Before(t, c)| ==> Before(t, c)[k] == Before(s, c)[k];
  }

  lemma BlankAfter(extension: string, end: Ending)
    requires AllBlank(Before(extension, ';'))
    ensures AllBlank(Before(extension + EndText(end), ';'))
  {
    var s := extension + EndText(end);
    var i := IndexOf(extension, ';');
    assert forall k :: 0 <= k < i ==> s[k] == Before(extension, ';')[k];
    if i < |extension| {
      assert s[i] == ';';
    }
    assert AllBlank(EndText(end));
  }

  lemma BeforeJoin(a: string, b: string, c: char)
    requires c !in a
    ensures Before(a + b, c) == a + Before(b, c)
  {
    var i := IndexOf(b, c);
    var s := a + b;
    assert forall k :: 0 <= k < |a| ==> s[k] == a[k];
    assert forall k :: |a| <= k < |s| ==> s[k] == b[k - |a|];
    if i < |b| {
      assert s[|a| + i] == c;
    }
    assert IndexOf(s, c) == |a| + i;
  }

  /** Trimming and cutting at the semicolon leave just the digits. */
  lemma DigitsRemain(size: string, after: string)
    requires size != "" && AllHex(size) && AllBlank(Before(after, ';'))
    ensures Trim(Before(Trim(size + after), ';')) == size
  {
    var last := |size| - 1;
    assert !IsWhitespace(size[0]) && !IsWhitespace(size[last]) && ';' !in size;
    assert (size + after)[0] == size[0];
    TrimEndJoin(size, after);
    TrimEndIsPrefix(after);
    var kept := TrimEnd(after);
    BlankBefore(after, |kept|, ';');
    BeforeJoin(size, kept, ';');
    TrimEndJoin(size, Before(kept, ';'));
    TrimEndOfBlank(Before(kept, ';'));
    assert (size + Before(kept, ';'))[0] == size[0];
    assert size + "" == size;
  }

  lemma SizeLineReads(size: string, extension: string, end: Ending, value: nat)
    requires IsSizeLine(size, extension, end, value)
    ensures SizeOf(SizeLine(size, extension, end)) == Ok(value)
  {
    var text := size + extension + EndText(end);
    Utf8RoundTrip(text);
    BlankAfter(extension, end);
    assert text == size + (extension + EndText(end));
    DigitsRemain(size, extension + EndText(end));
    assert size[0] != '+';
  }

  lemma SizeLineTaken(size: string, extension: string, end: Ending, value: nat, rest: bytes)
    requires IsSizeLine(size, extension, end, value)
    ensures var line := SizeLine(size, extension, end);
      LineLength(line + rest, MAX_SIZE_LINE) == |line| && |line| > 0
      && (line + rest)[..|line|] == line && (line + rest)[|line|..] == rest
  {
    SizeLineEnds(size, extension, end, value);
    LineOf(SizeLine(size, extension, end), rest, MAX_SIZE_LINE);
  }

  // ---------------------------------------------------------------- bodies read back

  lemma EndTaken(end: Ending, rest: bytes, limit: nat)
    requires limit >= 2
    ensures var b := EndBytes(end) + rest;
      LineLength(b, limit) == |EndBytes(end)| && b[..|EndBytes(end)|] == EndBytes(end) && b[|EndBytes(end)|..] == rest
  {
    LineOf(EndBytes(end), rest, limit);
  }

  lemma DataTaken(data: bytes, end: Ending, rest: bytes, room: nat)
    requires |data| <= room
    ensures TakeData(data + EndBytes(end) + rest, |data|, room) == Ok((data, rest))
  {
    var b := data + EndBytes(end) + rest;
    assert b[..|data|] == data && b[|data|..] == EndBytes(end) + rest;
    EndTaken(end, rest, MAX_DELIMITER);
  }

  lemma ChunkNext(c: Chunk, rest: bytes, room: nat, b: bytes)
    requires IsChunk(c) && |c.data| <= room && b == WriteChunk(c) + rest
    ensures Next(b, room) == More(c.data, rest)
  {
    var line := SizeLine(c.size, c.extension, c.lineEnd);
    var after := c.data + EndBytes(c.dataEnd);
    Regroup(line, after, rest);
    SizeLineTaken(c.size, c.extension, c.lineEnd, |c.data|, after + rest);
    SizeLineReads(c.size, c.extension, c.lineEnd, |c.data|);
    DataTaken(c.data, c.dataEnd, rest, room);
  }

  lemma ChunkRead(c: Chunk, rest: bytes, body: bytes)
    requires IsChunk(c) && |body| + |c.data| <= MAX_BODY
    ensures Decode(WriteChunk(c) + rest, body) == Decode(rest, body + c.data)
  {
    var b := WriteChunk(c) + rest;
    ChunkNext(c, rest, MAX_BODY - |body|, b);
    MoreDecoded(b, body, c.data, rest);
  }

  lemma MoreDecoded(b: bytes, body: bytes, data: bytes, rest: bytes)
    requires |body| <= MAX_BODY && Next(b, MAX_BODY - |body|) == More(data, rest)
    ensures |body + data| <= MAX_BODY && Decode(b, body) == Decode(rest, body + data)
  {
  }

  lemma {:induction false} TrailersRead(lines: seq<bytes>, blank: Ending, rest: bytes)
    requires AreTrailers(lines)
    ensures AfterTrailers(Joined(lines) + (EndBytes(blank) + rest)) == rest
    decreases |lines|
  {
    var end := EndBytes(blank) + rest;
    if lines == [] {
      assert Joined(lines) + end == end;
      EndTaken(blank, rest, MAX_TRAILER);
    } else {
      var after := Joined(lines[1..]) + end;
      Regroup(lines[0], Joined(lines[1..]), end);
      LineOf(lines[0], after, MAX_TRAILER);
      assert (lines[0] + after)[..|lines[0]|] == lines[0] && (lines[0] + after)[|lines[0]|..] == after;
      TrailersRead(lines[1..], blank, rest);
    }
  }

  lemma LastRead(l: Last, rest: bytes, body: bytes)
    requires IsLast(l) && |body| <= MAX_BODY
    ensures Decode(WriteLast(l) + rest, body) == Ok((body, rest))
  {
    var line := SizeLine(l.size, l.extension, l.lineEnd);
    var after := Joined(l.trailers) + EndBytes(l.blank);
    Regroup(line, after, rest);
    Regroup(Joined(l.trailers), EndBytes(l.blank), rest);
    SizeLineTaken(l.size, l.extension, l.lineEnd, 0, after + rest);
    SizeLineReads(l.size, l.extension, l.lineEnd, 0);
    TrailersRead(l.trailers, l.blank, rest);
  }

  lemma {:induction false} ChunksRead(chunks: seq<Chunk>, rest: bytes, body: bytes)
    requires AreChunks(chunks) && |body| + |Data(chunks)| <= MAX_BODY
    ensures Decode(WriteChunks(chunks) + rest, body) == Decode(rest, body + Data(chunks))
    decreases |chunks|
  {
    if chunks == [] {
      assert WriteChunks(chunks) + rest == rest && body + Data(chunks) == body;
    } else {
      Regroup(WriteChunk(chunks[0]), WriteChunks(chunks[1..]), rest);
      ChunkRead(chunks[0], WriteChunks(chunks[1..]) + rest, body);
      ChunksRead(chunks[1..], rest, body + chunks[0].data);
      Regroup(body, chunks[0].data, Data(chunks[1..]));
    }
  }

  /** The round trip: however a body within the limit is split into chunks, with whatever extensions,
      trailers and line endings, decoding gives it back and consumes exactly its encoding. */
  lemma BodyRoundTrip(chunks: seq<Chunk>, last: Last, rest: bytes)
    requires AreChunks(chunks) && IsLast(last) && |Data(chunks)| <= 64 * 1024 * 1024
    ensures Decode(WriteChunks(chunks) + (WriteLast(last) + rest), []) == Ok((Data(chunks), rest))
  {
    ChunksRead(chunks, WriteLast(last) + rest, []);
    assert [] + Data(chunks) == Data(chunks);
    LastRead(last, rest, Data(chunks));
  }

  /** A body over the limit is refused, wherever the excess begins. */
  lemma {:induction false} TooLargeRefused(chunks: seq<Chunk>, rest: bytes, body: bytes)
    requires AreChunks(chunks) && |body| <= 64 * 1024 * 1024 < |body| + |Data(chunks)|
    ensures Decode(WriteChunks(chunks) + rest, body) == Err(TooLarge)
    decreases |chunks|
  {
    var c := chunks[0];
    Regroup(WriteChunk(c), WriteChunks(chunks[1..]), rest);
    if |body| + |c.data| <= MAX_BODY {
      ChunkRead(c, WriteChunks(chunks[1..]) + rest, body);
      TooLargeRefused(chunks[1..], rest, body + c.data);
    } else {
      var line := SizeLine(c.size, c.extension, c.lineEnd);
      var after := c.data + EndBytes(c.dataEnd);
      Regroup(line, after, WriteChunks(chunks[1..]) + rest);
      SizeLineTaken(c.size, c.extension, c.lineEnd, |c.data|, after + (WriteChunks(chunks[1..]) + rest));
      SizeLineReads(c.size, c.extension, c.lineEnd, |c.data|);
    }
  }

  // ---------------------------------------------------------------- truncated bodies

  lemma {:induction false} PositiveValue(s: string)
    requires s != "" && AllHex(s) && s[0] != '0'
    ensures HexValue(s) > 0
    decreases |s|
  {
    if |s| > 1 {
      PositiveValue(s[..|s| - 1]);
    }
  }

  /** Trimming and cutting at a semicolon keep a first character that is neither. */
  lemma FirstKept(text: string)
    requires text != "" && !IsWhitespace(text[0]) && text[0] != ';'
    ensures var digits := Trim(Before(Trim(text), ';')); digits != "" && digits[0] == text[0]
  {
    TrimEndKeepsStart(text);
    var cut := Before(Trim(text), ';');
    assert cut != "" && cut[0] == text[0];
    TrimEndKeepsStart(cut);
  }

  lemma FirstDecoded(line: bytes)
    requires line != [] && line[0] < 0x80 && DecodeUtf8(line).Some?
    ensures DecodeUtf8(line).value != "" && DecodeUtf8(line).value[0] as int == line[0]
  {
  }

  /** A size that does not begin with a zero is not read as zero, however much of it is missing. */
  lemma NonZeroStart(line: bytes, c: char)
    requires line != [] && line[0] == c as int && IsHexDigit(c) && c != '0'
    ensures SizeOf(line) != Ok(0)
  {
    if SizeOf(line).Ok? {
      FirstDecoded(line);
      var text := DecodeUtf8(line).value;
      FirstKept(text);
      PositiveValue(Trim(Before(Trim(text), ';')));
    }
  }

  lemma {:induction false} NoNewline(b: bytes, limit: nat)
    requires |b| <= limit && forall k :: 0 <= k < |b| ==> b[k] != NEWLINE
    ensures LineLength(b, limit) == |b|
    decreases |b|
  {
    if b != [] {
      NoNewline(b[1..], limit - 1);
    }
  }

  /** Cut inside a size line: nothing follows, so only a size read as zero can end the body. */
  lemma CutLine(line: bytes, n: nat, room: nat)
    requires n < |line| <= MAX_SIZE_LINE && forall k :: 0 <= k < |line| - 1 ==> line[k] != NEWLINE
    ensures Next(line[..n], room).Failed? || (n > 0 && SizeOf(line[..n]) == Ok(0) && Next(line[..n], room).End?)
  {
    var cut := line[..n];
    NoNewline(cut, MAX_SIZE_LINE);
    assert cut[..n] == cut && cut[n..] == [];
  }

  /** The data or its delimiter cut short. */
  lemma CutData(c: Chunk, n: nat, room: nat)
    requires n < |c.data| + |EndBytes(c.dataEnd)|
    ensures TakeData((c.data + EndBytes(c.dataEnd))[..n], |c.data|, room).Err?
  {
    if n >= |c.data| {
      var cut := (c.data + EndBytes(c.dataEnd))[..n];
      var rest := EndBytes(c.dataEnd)[..n - |c.data|];
      assert cut[|c.data|..] == rest;
      NoNewline(rest, MAX_DELIMITER);
      assert rest[..|rest|] == rest;
    }
  }

  lemma FirstByte(size: string, extension: string, end: Ending)
    requires size != "" && AllHex(size)
    ensures SizeLine(size, extension, end) != [] && SizeLine(size, extension, end)[0] == size[0] as int
  {
    assert (size + extension + EndText(end))[0] == size[0];
  }

  lemma CutSizeLine(c: Chunk, n: nat, room: nat)
    requires IsChunk(c) && c.size[0] != '0'
    requires n < |SizeLine(c.size, c.extension, c.lineEnd)|
    ensures Next(SizeLine(c.size, c.extension, c.lineEnd)[..n], room).Failed?
  {
    var line := SizeLine(c.size, c.extension, c.lineEnd);
    SizeLineEnds(c.size, c.extension, c.lineEnd, |c.data|);
    CutLine(line, n, room);
    FirstByte(c.size, c.extension, c.lineEnd);
    if n > 0 {
      NonZeroStart(line[..n], c.size[0]);
    }
  }

  lemma CutAfterSize(c: Chunk, n: nat, room: nat)
    requires IsChunk(c) && n < |c.data| + |EndBytes(c.dataEnd)|
    ensures Next(SizeLine(c.size, c.extension, c.lineEnd) + (c.data + EndBytes(c.dataEnd))[..n], room).Failed?
  {
    SizeLineTaken(c.size, c.extension, c.lineEnd, |c.data|, (c.data + EndBytes(c.dataEnd))[..n]);
    SizeLineReads(c.size, c.extension, c.lineEnd, |c.data|);
    CutData(c, n, room);
  }

  lemma CutChunk(c: Chunk, n: nat, room: nat, cut: bytes)
    requires IsChunk(c) && c.size[0] != '0' && n < |WriteChunk(c)| && cut == WriteChunk(c)[..n]
    ensures Next(cut, room).Failed?
  {
    var line := SizeLine(c.size, c.extension, c.lineEnd);
    ChunkCut(c, n, cut);
    if n < |line| {
      CutSizeLine(c, n, room);
    } else {
      CutAfterSize(c, n - |line|, room);
    }
  }

  lemma ChunkCut(c: Chunk, n: nat, cut: bytes)
    requires n < |WriteChunk(c)| && cut == WriteChunk(c)[..n]
    ensures var line := SizeLine(c.size, c.extension, c.lineEnd);
      cut == if n < |line| then line[..n] else line + (c.data + EndBytes(c.dataEnd))[..n - |line|]
  {
    var line := SizeLine(c.size, c.extension, c.lineEnd);
    PrefixOfJoin(line, c.data + EndBytes(c.dataEnd), n);
    assert n == |line| ==> line[..n] == line + (c.data + EndBytes(c.dataEnd))[..0];
  }

  lemma CutLast(l: Last, n: nat, room: nat)
    requires IsLast(l) && n <= |WriteLast(l)|
    ensures !Next(WriteLast(l)[..n], room).More?
  {
    var line := SizeLine(l.size, l.extension, l.lineEnd);
    var after := Joined(l.trailers) + EndBytes(l.blank);
    SizeLineEnds(l.size, l.extension, l.lineEnd, 0);
    if n < |line| {
      assert WriteLast(l)[..n] == line[..n];
      CutLine(line, n, room);
    } else {
      var rest := after[..n - |line|];
      assert WriteLast(l)[..n] == line + rest;
      SizeLineTaken(l.size, l.extension, l.lineEnd, 0, rest);
      SizeLineReads(l.size, l.extension, l.lineEnd, 0);
    }
  }

  lemma {:induction false} CutBody(chunks: seq<Chunk>, last: Last, n: nat, body: bytes, cut: bytes)
    requires AreChunks(chunks) && IsLast(last) && |body| + |Data(chunks)| <= MAX_BODY
    requires forall k :: 0 <= k < |chunks| ==> chunks[k].size[0] != '0'
    requires n <= |WriteChunks(chunks) + WriteLast(last)| && cut == (WriteChunks(chunks) + WriteLast(last))[..n]
    ensures Decode(cut, body).Ok? ==> Decode(cut, body).value.0 == body + Data(chunks)
    decreases |chunks|
  {
    if chunks == [] {
      assert WriteChunks(chunks) + WriteLast(last) == WriteLast(last) && body + Data(chunks) == body;
      EndsInLast(last, n, body, cut);
    } else {
      var size := |WriteChunk(chunks[0])|;
      var rest := WriteChunks(chunks[1..]) + WriteLast(last);
      FirstCut(chunks, last, n, cut);
      if n < size {
        EndsInChunk(chunks[0], n, body, cut);
      } else {
        Regroup(body, chunks[0].data, Data(chunks[1..]));
        CutBody(chunks[1..], last, n - size, body + chunks[0].data, rest[..n - size]);
        ChunkRead(chunks[0], rest[..n - size], body);
      }
    }
  }

  lemma EndsHere(b: bytes, body: bytes)
    requires |body| <= MAX_BODY && !Next(b, MAX_BODY - |body|).More?
    ensures Decode(b, body).Ok? ==> Decode(b, body).value.0 == body
  {
  }

  lemma EndsInLast(last: Last, n: nat, body: bytes, cut: bytes)
    requires IsLast(last) && n <= |WriteLast(last)| && cut == WriteLast(last)[..n] && |body| <= MAX_BODY
    ensures Decode(cut, body).Ok? ==> Decode(cut, body).value.0 == body
  {
    CutLast(last, n, MAX_BODY - |body|);
    EndsHere(cut, body);
  }

  lemma EndsInChunk(c: Chunk, n: nat, body: bytes, cut: bytes)
    requires IsChunk(c) && c.size[0] != '0' && |body| <= MAX_BODY
    requires n < |WriteChunk(c)| && cut == WriteChunk(c)[..n]
    ensures Decode(cut, body).Err?
  {
    CutChunk(c, n, MAX_BODY - |body|, cut);
  }

  lemma FirstCut(chunks: seq<Chunk>, last: Last, n: nat, cut: bytes)
    requires chunks != [] && n <= |WriteChunks(chunks) + WriteLast(last)|
    requires cut == (WriteChunks(chunks) + WriteLast(last))[..n]
    ensures var first := WriteChunk(chunks[0]);
      var rest := WriteChunks(chunks[1..]) + WriteLast(last);
      |WriteChunks(chunks) + WriteLast(last)| == |first| + |rest|
      && cut == if n < |first| then first[..n] else first + rest[..n - |first|]
  {
    var first := WriteChunk(chunks[0]);
    var rest := WriteChunks(chunks[1..]) + WriteLast(last);
    Regroup(first, WriteChunks(chunks[1..]), WriteLast(last));
    PrefixOfJoin(first, rest, n);
    assert n == |first| ==> first[..n] == first + rest[..0];
  }

  lemma {:induction false} SplitChunks(chunks: seq<Chunk>, k: nat)
    requires k <= |chunks|
    ensures WriteChunks(chunks) == WriteChunks(chunks[..k]) + WriteChunks(chunks[k..])
    ensures Data(chunks) == Data(chunks[..k]) + Data(chunks[k..])
    decreases |chunks|
  {
    if k > 0 {
      SplitChunks(chunks[1..], k - 1);
      assert chunks[..k][1..] == chunks[1..][..k - 1] && chunks[1..][k - 1..] == chunks[k..];
      Regroup(WriteChunk(chunks[0]), WriteChunks(chunks[1..][..k - 1]), WriteChunks(chunks[k..]));
      Regroup(chunks[0].data, Data(chunks[1..][..k - 1]), Data(chunks[k..]));
    } else {
      assert chunks[0..] == chunks && WriteChunks(chunks[..0]) == [] && Data(chunks[..0]) == [];
    }
  }

  lemma LoneZero(body: bytes)
    requires |body| <= MAX_BODY
    ensures Decode(EncodeUtf8("0"), body) == Ok((body, []))
  {
    var b := EncodeUtf8("0");
    assert b == [0x30];
    NoNewline(b, MAX_SIZE_LINE);
    assert b[..1] == b && b[1..] == [];
    Utf8RoundTrip("0");
    assert Trim(Before(Trim("0"), ';')) == "0";
    assert HexValue("0") == 0 by { assert "0"[..0] == ""; }
  }

  lemma ZeroAt(chunks: seq<Chunk>, last: Last, k: nat)
    requires AreChunks(chunks) && k < |chunks| && chunks[k].size[0] == '0'
    ensures var whole := WriteChunks(chunks) + WriteLast(last);
      var n := |WriteChunks(chunks[..k])| + 1;
      n < |whole| && whole[..n] == WriteChunks(chunks[..k]) + [0x30]
  {
    SplitChunks(chunks, k);
    FirstByte(chunks[k].size, chunks[k].extension, chunks[k].lineEnd);
    assert chunks[k..][0] == chunks[k];
    OneMore(WriteChunks(chunks[..k]), WriteChunks(chunks[k..]), WriteLast(last));
  }

  lemma OneMore(a: bytes, b: bytes, c: bytes)
    requires |b| > 1
    ensures |a| + 1 < |a + b + c| && (a + b + c)[..|a| + 1] == a + [b[0]]
  {
  }

  /** A chunk whose size begins with a zero: cut right after that zero, the body looks complete. */
  lemma CutAtZero(chunks: seq<Chunk>, last: Last, k: nat)
    requires AreChunks(chunks) && IsLast(last) && |Data(chunks)| <= MAX_BODY
    requires k < |chunks| && chunks[k].size[0] == '0'
    ensures var whole := WriteChunks(chunks) + WriteLast(last);
      exists n :: 0 <= n < |whole| && Decode(whole[..n], []) == Ok((Data(chunks[..k]), []))
  {
    var whole := WriteChunks(chunks) + WriteLast(last);
    var n := |WriteChunks(chunks[..k])| + 1;
    ZeroAt(chunks, last, k);
    DataBefore(chunks, k);
    EndsAtZero(chunks[..k], whole[..n]);
  }

  lemma EndsAtZero(chunks: seq<Chunk>, cut: bytes)
    requires AreChunks(chunks) && |Data(chunks)| <= MAX_BODY && cut == WriteChunks(chunks) + [0x30]
    ensures Decode(cut, []) == Ok((Data(chunks), []))
  {
    assert EncodeUtf8("0") == [0x30];
    assert [] + Data(chunks) == Data(chunks);
    ChunksRead(chunks, EncodeUtf8("0"), []);
    LoneZero(Data(chunks));
  }

  /** Cutting an encoded body short is never mistaken for a shorter body. */
  ghost predicate TruncationShows(chunks: seq<Chunk>, last: Last) {
    var whole := WriteChunks(chunks) + WriteLast(last);
    forall n :: 0 <= n < |whole| && Decode(whole[..n], []).Ok? ==> Decode(whole[..n], []).value.0 == Data(chunks)
  }

  lemma DataBefore(chunks: seq<Chunk>, k: nat)
    requires AreChunks(chunks) && k < |chunks|
    ensures |Data(chunks[..k])| < |Data(chunks)|
  {
    SplitChunks(chunks, k);
    assert chunks[k..][0] == chunks[k];
  }

  /** A connection that ends early is noticed exactly when no chunk size begins with a zero. */
  lemma TruncationShowsExactly(chunks: seq<Chunk>, last: Last)
    requires AreChunks(chunks) && IsLast(last) && |Data(chunks)| <= MAX_BODY
    ensures TruncationShows(chunks, last) <==> forall k :: 0 <= k < |chunks| ==> chunks[k].size[0] != '0'
  {
    var whole := WriteChunks(chunks) + WriteLast(last);
    if forall k :: 0 <= k < |chunks| ==> chunks[k].size[0] != '0' {
      forall n | 0 <= n < |whole| && Decode(whole[..n], []).Ok?
        ensures Decode(whole[..n], []).value.0 == Data(chunks)
      {
        CutBody(chunks, last, n, [], whole[..n]);
        assert [] + Data(chunks) == Data(chunks);
      }
    } else {
      var k :| 0 <= k < |chunks| && chunks[k].size[0] == '0';
      CutAtZero(chunks, last, k);
      DataBefore(chunks, k);
    }
  }

  // ---------------------------------------------------------------- one chunk, read from any bytes

  /** The line at the front: up to and with the first newline, or as many bytes as there may be. */
  ghost predicate LineIs(b: bytes, limit: nat, line: bytes) {
    && line <= b && |line| <= limit
    && (forall k :: 0 <= k < |line| - 1 ==> line[k] != 10)
    && (line == b || |line| == limit || (line != [] && line[|line| - 1] == 10))
  }

  lemma LineExactly(b: bytes, limit: nat, line: bytes)
    requires limit > 0 && LineIs(b, limit, line)
    ensures LineLength(b, limit) == |line| && b[..LineLength(b, limit)] == line && (line == [] <==> b == [])
  {
    var n := LineLength(b, limit);
    assert forall k :: 0 <= k < |line| ==> line[k] == b[k];
    assert line == b[..|line|];
  }

  /** How a size is written: an optional plus sign and hexadecimal digits of a 64-bit value. */
  ghost predicate SpellsSize(text: string, digits: string, n: nat) {
    (text == digits || text == "+" + digits) && digits != "" && AllHex(digits) && HexValue(digits) == n < 0x1_0000_0000_0000_0000
  }

  lemma HexExactly(text: string, n: nat)
    ensures ParseHex(text) == Some(n) <==> exists digits :: SpellsSize(text, digits, n)
  {
    if ParseHex(text) == Some(n) {
      var digits := if text[0] == '+' then text[1..] else text;
      assert SpellsSize(text, digits, n);
    }
    forall digits | SpellsSize(text, digits, n) ensures ParseHex(text) == Some(n) {
      assert IsHexDigit(digits[0]);
      assert text != digits ==> text[1..] == digits;
    }
  }

  /** What stands before the first semicolon, without the blanks around it, is the size; anything else is refused. */
  lemma SizeExactly(line: bytes, text: string, n: nat)
    requires DecodeUtf8(line).Some? && text == Trim(Before(Trim(DecodeUtf8(line).value), ';'))
    ensures SizeOf(line) == Ok(n) <==> exists digits :: SpellsSize(text, digits, n)
    ensures SizeOf(line).Err? ==> SizeOf(line) == Err(InvalidSize(text))
  {
    HexExactly(text, n);
  }

  /** What one round reads before it comes to the data. */
  lemma SizeLineDecides(b: bytes, room: nat, line: bytes)
    requires LineIs(b, 1024, line)
    ensures line == [] ==> Next(b, room) == Failed(Closed)
    ensures line != [] && !ValidUtf8(line) ==> Next(b, room) == Failed(SizeNotText)
    ensures line != [] && SizeOf(line).Err? ==> Next(b, room) == Failed(SizeOf(line).error)
    ensures line != [] && SizeOf(line) == Ok(0) ==> Next(b, room).End?
  {
    LineExactly(b, 1024, line);
  }

  /** What one round makes of the data: too much, too little, badly ended, or taken. */
  lemma DataDecides(b: bytes, room: nat, line: bytes, size: nat, after: bytes, end: bytes)
    requires LineIs(b, 1024, line) && line != [] && SizeOf(line) == Ok(size) && size > 0 && b == line + after
    requires size <= |after| ==> LineIs(after[size..], 4, end)
    ensures Next(b, room) ==
            if size > room then Failed(TooLarge)
            else if |after| < size then Failed(IncompleteData)
            else if end == [10] || end == [13, 10] then More(after[..size], after[size + |end|..])
            else Failed(BadDelimiter)
  {
    LineExactly(b, 1024, line);
    assert b[|line|..] == after;
    if size <= room && size <= |after| {
      LineExactly(after[size..], 4, end);
      assert after[size..][|end|..] == after[size + |end|..];
    }
  }
}
