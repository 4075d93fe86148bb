/**
 Chunk framing (section 3.2 of RFC 2083) and the reading and writing of RGBA images.
 zlib and the CRC are parameters; the reader, like the source, ignores the CRC.
 */
module PngFile {
  import opened Wrappers
  import opened PngFilter

  type Bytes = seq<byte>

  const IHDR: Bytes := [73, 72, 68, 82]
  const IDAT: Bytes := [73, 68, 65, 84]
  const IEND: Bytes := [73, 69, 78, 68]
  const SIGNATURE: Bytes := [137, 80, 78, 71, 13, 10, 26, 10]

  const WORD: nat := 0x1_0000_0000

  datatype Chunk = Chunk(kind: Bytes, body: Bytes, crc: Bytes)

  /** Where the source stops with an error. */
  datatype Fault = TruncatedChunk | NotPng | WrongFormat | BadData | ShortData

  datatype Found = Found(header: Option<Bytes>, data: Bytes)

  datatype Image = Image(header: Bytes, width: nat, height: nat, lines: seq<Bytes>)

  function BigEndian(n: nat): (s: Bytes)
    requires n < WORD
    ensures |s| == 4
  {
    [n / 256 / 256 / 256, n / 256 / 256 % 256, n / 256 % 256, n % 256]
  }

  function Word(s: Bytes): nat
    requires |s| == 4
  {
    (((s[0] as int) * 256 + s[1] as int) * 256 + s[2] as int) * 256 + s[3] as int
  }

  /** The most significant byte comes first. */
  lemma WordsAreBigEndian(n: nat, s: Bytes)
    requires n < 0x1_0000_0000 && |s| == 4
    ensures Word(s) == (s[0] as int) * 0x100_0000 + (s[1] as int) * 0x1_0000 + (s[2] as int) * 0x100 + s[3] as int
    ensures BigEndian(n) == s <==>
              n == (s[0] as int) * 0x100_0000 + (s[1] as int) * 0x1_0000 + (s[2] as int) * 0x100 + s[3] as int
  {
    if BigEndian(n) == s {
      WordRoundTrip(n);
    }
    if n == Word(s) {
      WordDigits(s);
    }
  }

  lemma WordDigits(s: Bytes)
    requires |s| == 4
    ensures Word(s) < WORD && BigEndian(Word(s)) == s
  {
    var a: nat := s[0] as int;
    var b: nat := a * 256 + s[1] as int;
    var c: nat := b * 256 + s[2] as int;
    Digit256(c, s[3]);
    Digit256(b, s[2]);
    Digit256(a, s[1]);
    assert BigEndian(Word(s)) == [s[0], s[1], s[2], s[3]] == s;
  }

  lemma Digit256(n: nat, b: byte)
    ensures (n * 256 + b as int) / 256 == n && (n * 256 + b as int) % 256 == b as int
  {
  }

  lemma WordRoundTrip(n: nat)
    requires n < WORD
    ensures Word(BigEndian(n)) == n
  {
  }

  /** Slices that stop at the end of the data. */
  function Prefix(s: Bytes, n: nat): (r: Bytes)
    ensures |r| <= n && |r| <= |s|
  {
    if n <= |s| then s[..n] else s
  }

  function Drop(s: Bytes, n: nat): (r: Bytes)
    ensures |r| <= |s| && (n > 0 && s != [] ==> |r| < |s|)
  {
    if n <= |s| then s[n..] else []
  }

  function Take(found: Found, kind: Bytes, body: Bytes): Found {
    if kind == IHDR then found.(header := Some(body))
    else if kind == IDAT then found.(data := found.data + body)
    else found
  }

  /** The chunk walk over what is left of the file: the last IHDR, and every IDAT in order. */
  function ReadChunks(tail: Bytes, found: Found): Result<Found, Fault>
    decreases |tail|
  {
    if tail == [] then Ok(found)
    else if |tail| < 8 then Err(TruncatedChunk)
    else
      var length := Word(tail[..4]);
      ReadChunks(Drop(tail, 12 + length), Take(found, tail[4..8], Prefix(tail[8..], length)))
  }

  /** One row: a filter byte, then `stride` bytes filtered against the row above. */
  ghost function ReadRow(tail: Bytes, stride: nat, previous: Bytes): (line: Option<Bytes>) {
    if tail == [] then None
    else
      var stored := Prefix(tail[1..], stride);
      if InBounds(tail[0], |stored|, |previous|, stride) then Some(Unfiltered(tail[0], stored, previous))
      else None
  }

  /** The row loop, whatever reads one row; `done` are the lines read so far. */
  ghost function ReadRows(
    row: (Bytes, nat, Bytes) -> Option<Bytes>, tail: Bytes, stride: nat, rows: nat, previous: Bytes, done: seq<Bytes>)
    : Result<seq<Bytes>, Fault>
    decreases rows
  {
    if rows == 0 then Ok(done)
    else
      match row(tail, stride, previous)
      case None => Err(ShortData)
      case Some(line) => ReadRows(row, Drop(tail, 1 + stride), stride, rows - 1, line, done + [line])
  }

  /** `row` reads rows as `ReadRow` does. */
  ghost predicate ReadsRows(row: (Bytes, nat, Bytes) -> Option<Bytes>) {
    forall tail, stride, previous :: ReadsRow(row, tail, stride, previous)
  }

  ghost predicate ReadsRow(row: (Bytes, nat, Bytes) -> Option<Bytes>, tail: Bytes, stride: nat, previous: Bytes) {
    row(tail, stride, previous) == ReadRow(tail, stride, previous)
  }

  lemma ReadRowReadsRows()
    ensures ReadsRows(ReadRow)
  {
    forall tail, stride, previous ensures ReadsRow(ReadRow, tail, stride, previous) {
    }
  }

  function Zeros(n: nat): (s: Bytes)
    ensures |s| == n
  {
    seq(n, _ => 0)
  }

  ghost function ReadImage(blob: Bytes, decompress: Bytes -> Option<Bytes>): Result<Image, Fault> {
    match ReadChunks(Drop(blob, 8), Found(None, []))
    case Err(fault) => Err(fault)
    case Ok(found) =>
      if found.header.None? then Err(NotPng)
      else
        var header := found.header.value;
        if |header| < 13 then Err(TruncatedChunk)
        else if header[8] != 8 || header[9] != 6 || header[12] != 0 then Err(WrongFormat)
        else
          var width, height, raw := Word(header[..4]), Word(header[4..8]), decompress(found.data);
          if raw.None? then Err(BadData)
          else match ReadRows(ReadRow, raw.value, width * 4, height, Zeros(width * 4), [])
            case Err(fault) => Err(fault)
            case Ok(lines) => Ok(Image(header, width, height, lines))
  }

  lemma DropTwice(s: Bytes, a: nat, b: nat)
    ensures Drop(Drop(s, a), b) == Drop(s, a + b)
  {
  }

  /** Reading at a position is reading at the front of what is left. */
  lemma SliceAt(s: Bytes, at: nat, i: nat, j: nat)
    requires at + j <= |s| && i <= j
    ensures |Drop(s, at)| == |s| - at && Drop(s, at)[i..j] == s[at + i..at + j]
  {
  }

  lemma PrefixAt(s: Bytes, at: nat, i: nat, n: nat)
    requires at + i <= |s|
    ensures |Drop(s, at)| == |s| - at && Prefix(Drop(s, at)[i..], n) == Prefix(s[at + i..], n)
  {
    assert Drop(s, at)[i..] == s[at + i..];
  }

  /** One turn of the row loop. */
  method ReadScanline(ghost row: (Bytes, nat, Bytes) -> Option<Bytes>, raw: Bytes, offset: nat, stride: nat, previous: Bytes)
    returns (line: Option<Bytes>)
    requires ReadsRows(row)
    ensures line == row(Drop(raw, offset), stride, previous)
  {
    assert ReadsRow(row, Drop(raw, offset), stride, previous);
    if offset >= |raw| {
      return None;
    }
    PrefixAt(raw, offset, 1, stride);
    var filter := raw[offset];
    var stored := Prefix(raw[offset + 1..], stride);
    var bytes := new byte[|stored|](i requires 0 <= i < |stored| => stored[i]);
    assert bytes[..] == stored;
    var ok := Unfilter(filter, bytes, previous, stride);
    line := if ok then Some(bytes[..]) else None;
  }

  method ReadScanlines(ghost row: (Bytes, nat, Bytes) -> Option<Bytes>, raw: Bytes, stride: nat, height: nat)
    returns (r: Result<seq<Bytes>, Fault>)
    requires ReadsRows(row)
    ensures r == ReadRows(row, raw, stride, height, Zeros(stride), [])
  {
    var lines: seq<Bytes>, previous: Bytes := [], Zeros(stride);
    var offset: nat, rows: nat := 0, height;
    assert Drop(raw, 0) == raw;
    while rows > 0
      invariant ReadRows(row, raw, stride, height, Zeros(stride), [])
             == ReadRows(row, Drop(raw, offset), stride, rows, previous, lines)
    {
      var line := ReadScanline(row, raw, offset, stride, previous);
      if line.None? {
        return Err(ShortData);
      }
      DropTwice(raw, offset, 1 + stride);
      lines, previous, offset, rows := lines + [line.value], line.value, offset + 1 + stride, rows - 1;
    }
    r := Ok(lines);
  }

  lemma ReadChunksStep(tail: Bytes, found: Found, length: nat, kind: Bytes, body: Bytes, rest: Bytes)
    requires |tail| >= 8 && length == Word(tail[..4]) && kind == tail[4..8]
    requires body == Prefix(tail[8..], length) && rest == Drop(tail, 12 + length)
    ensures ReadChunks(tail, found) == ReadChunks(rest, Take(found, kind, body))
  {
  }

  lemma FrameAt(blob: Bytes, position: nat, length: nat)
    requires position + 8 <= |blob| && length == Word(blob[position..position + 4])
    ensures var tail := Drop(blob, position);
            && |tail| >= 8 && length == Word(tail[..4])
            && tail[4..8] == blob[position + 4..position + 8]
            && Prefix(tail[8..], length) == Prefix(blob[position + 8..], length)
            && Drop(tail, 12 + length) == Drop(blob, position + 12 + length)
  {
    SliceAt(blob, position, 0, 4);
    SliceAt(blob, position, 4, 8);
    PrefixAt(blob, position, 8, length);
    DropTwice(blob, position, 12 + length);
    assert Drop(blob, position)[..4] == Drop(blob, position)[0..4];
  }

  lemma ReadChunksAt(blob: Bytes, position: nat, length: nat, found: Found)
    requires position + 8 <= |blob| && length == Word(blob[position..position + 4])
    ensures ReadChunks(Drop(blob, position), found)
         == ReadChunks(Drop(blob, position + 12 + length),
                       Take(found, blob[position + 4..position + 8], Prefix(blob[position + 8..], length)))
  {
    FrameAt(blob, position, length);
    ReadChunksStep(Drop(blob, position), found, length, blob[position + 4..position + 8],
                   Prefix(blob[position + 8..], length), Drop(blob, position + 12 + length));
  }

  /** One turn of the chunk loop. */
  method ReadChunk(blob: Bytes, position: nat, found: Found) returns (found': Found, next: nat)
    requires position + 8 <= |blob|
    ensures next >= position + 12
    ensures ReadChunks(Drop(blob, position), found) == ReadChunks(Drop(blob, next), found')
  {
    var length := Word(blob[position..position + 4]);
    ReadChunksAt(blob, position, length, found);
    found' := Take(found, blob[position + 4..position + 8], Prefix(blob[position + 8..], length));
    next := position + 12 + length;
  }

  lemma ReadChunksEnd(blob: Bytes, position: nat, found: Found)
    ensures position >= |blob| ==> ReadChunks(Drop(blob, position), found) == Ok(found)
    ensures position < |blob| < position + 8 ==> ReadChunks(Drop(blob, position), found) == Err(TruncatedChunk)
  {
  }

  method WalkChunks(blob: Bytes) returns (r: Result<Found, Fault>)
    ensures r == ReadChunks(Drop(blob, 8), Found(None, []))
  {
    var position: nat, found := 8, Found(None, []);
    while position < |blob|
      invariant ReadChunks(Drop(blob, 8), Found(None, [])) == ReadChunks(Drop(blob, position), found)
      decreases |blob| - position
    {
      ReadChunksEnd(blob, position, found);
      if position + 8 > |blob| {
        return Err(TruncatedChunk);
      }
      found, position := ReadChunk(blob, position, found);
    }
    ReadChunksEnd(blob, position, found);
    r := Ok(found);
  }

  /** `read_png` on the bytes of the file. */
  method ReadPng(blob: Bytes, decompress: Bytes -> Option<Bytes>) returns (r: Result<Image, Fault>)
    ensures r == ReadImage(blob, decompress)
  {
    var walked := WalkChunks(blob);
    if walked.Err? {
      return Err(walked.error);
    }
    if walked.value.header.None? {
      return Err(NotPng);
    }
    var header := walked.value.header.value;
    if |header| < 13 {
      return Err(TruncatedChunk);
    }
    if header[8] != 8 || header[9] != 6 || header[12] != 0 {
      return Err(WrongFormat);
    }
    var width, height, raw := Word(header[..4]), Word(header[4..8]), decompress(walked.value.data);
    if raw.None? {
      return Err(BadData);
    }
    ReadRowReadsRows();
    var lines := ReadScanlines(ReadRow, raw.value, width * 4, height);
    match lines
    case Err(fault) => r := Err(fault);
    case Ok(ls) => r := Ok(Image(header, width, height, ls));
  }

  // ----- writing

  predicate Framable(c: Chunk) {
    |c.kind| == 4 && |c.crc| == 4 && |c.body| < WORD
  }

  predicate AllFramable(chunks: seq<Chunk>) {
    forall i | 0 <= i < |chunks| :: Framable(chunks[i])
  }

  predicate SameLength(lines: seq<Bytes>, n: nat) {
    forall i | 0 <= i < |lines| :: |lines[i]| == n
  }

  function Frame(c: Chunk): (s: Bytes)
    requires Framable(c)
    ensures |s| == 12 + |c.body|
  {
    BigEndian(|c.body|) + c.kind + c.body + c.crc
  }

  function FrameAll(chunks: seq<Chunk>): Bytes
    requires AllFramable(chunks)
  {
    if chunks == [] then [] else Frame(chunks[0]) + FrameAll(chunks[1..])
  }

  function TakeAll(found: Found, chunks: seq<Chunk>): Found
    decreases |chunks|
  {
    if chunks == [] then found else TakeAll(Take(found, chunks[0].kind, chunks[0].body), chunks[1..])
  }

  /** Rows as any encoder may write them: each with a filter of its choice. */
  function EncodeRows(filters: seq<byte>, lines: seq<Bytes>, previous: Bytes): Bytes
    requires |filters| == |lines| && SameLength(lines, |previous|)
  {
    if lines == [] then []
    else [filters[0]] + Filtered(filters[0], lines[0], previous) + EncodeRows(filters[1..], lines[1..], lines[0])
  }

  lemma FrameParts(c: Chunk)
    requires Framable(c)
    ensures var s := Frame(c);
            && s[..4] == BigEndian(|c.body|) && s[4..8] == c.kind && s[8..8 + |c.body|] == c.body
  {
    var s := Frame(c);
    assert s == BigEndian(|c.body|) + (c.kind + c.body + c.crc);
    assert s[4..] == c.kind + (c.body + c.crc);
    assert s[8..] == c.body + c.crc;
  }

  /** What the walk does with a frame. */
  lemma ReadFrame(c: Chunk, rest: Bytes, found: Found)
    requires Framable(c)
    ensures ReadChunks(Frame(c) + rest, found) == ReadChunks(rest, Take(found, c.kind, c.body))
  {
    FrameParts(c);
    WordRoundTrip(|c.body|);
    var tail, n := Frame(c) + rest, |c.body|;
    assert tail[..4] == Frame(c)[..4] && tail[4..8] == Frame(c)[4..8] && tail[8..8 + n] == Frame(c)[8..8 + n];
    assert Prefix(tail[8..], n) == tail[8..8 + n];
    assert Drop(tail, 12 + n) == rest;
  }

  /** The walk visits exactly the framed chunks. */
  lemma {:induction false} ReadFramed(chunks: seq<Chunk>, found: Found)
    requires AllFramable(chunks)
    ensures ReadChunks(FrameAll(chunks), found) == Ok(TakeAll(found, chunks))
    decreases |chunks|
  {
    if chunks != [] {
      var c := chunks[0];
      ReadFrame(c, FrameAll(chunks[1..]), found);
      ReadFramed(chunks[1..], Take(found, c.kind, c.body));
    }
  }

  lemma ReadEncodedRow(
    row: (Bytes, nat, Bytes) -> Option<Bytes>, filter: byte, line: Bytes, previous: Bytes, rest: Bytes)
    requires ReadsRows(row) && |line| == |previous|
    ensures var tail := [filter] + Filtered(filter, line, previous) + rest;
            row(tail, |previous|, previous) == Some(line) && Drop(tail, 1 + |previous|) == rest
  {
    var tail := [filter] + Filtered(filter, line, previous) + rest;
    assert ReadsRow(row, tail, |previous|, previous);
    assert tail[1..] == Filtered(filter, line, previous) + rest;
    assert Prefix(tail[1..], |previous|) == Filtered(filter, line, previous);
    UnfilteredIsUnique(filter, line, Filtered(filter, line, previous), previous);
  }

  lemma Regroup(a: Bytes, b: Bytes, c: Bytes, d: Bytes)
    ensures (a + b + c) + d == a + b + (c + d)
  {
  }

  lemma EncodedFirstRow(filters: seq<byte>, lines: seq<Bytes>, previous: Bytes, extra: Bytes)
    requires |filters| == |lines| > 0 && SameLength(lines, |previous|)
    ensures EncodeRows(filters, lines, previous) + extra
         == [filters[0]] + Filtered(filters[0], lines[0], previous) + (EncodeRows(filters[1..], lines[1..], lines[0]) + extra)
  {
    Regroup([filters[0]], Filtered(filters[0], lines[0], previous), EncodeRows(filters[1..], lines[1..], lines[0]), extra);
  }

  lemma ReadOneRow(
    row: (Bytes, nat, Bytes) -> Option<Bytes>, tail: Bytes, stride: nat, rows: nat, previous: Bytes, done: seq<Bytes>,
    line: Bytes, rest: Bytes)
    requires rows > 0 && row(tail, stride, previous) == Some(line) && Drop(tail, 1 + stride) == rest
    ensures ReadRows(row, tail, stride, rows, previous, done) == ReadRows(row, rest, stride, rows - 1, line, done + [line])
  {
  }

  lemma HeadMoves(done: seq<Bytes>, lines: seq<Bytes>)
    requires lines != []
    ensures (done + [lines[0]]) + lines[1..] == done + lines
  {
  }

  lemma {:induction false} ReadEncodedRows(
    row: (Bytes, nat, Bytes) -> Option<Bytes>, filters: seq<byte>, lines: seq<Bytes>, previous: Bytes, extra: Bytes, done: seq<Bytes>)
    requires ReadsRows(row)
    requires |filters| == |lines| && SameLength(lines, |previous|)
    ensures ReadRows(row, EncodeRows(filters, lines, previous) + extra, |previous|, |lines|, previous, done) == Ok(done + lines)
    decreases |lines|
  {
    if lines == [] {
      assert done + lines == done;
    } else {
      EncodedFirstRow(filters, lines, previous, extra);
      var rest := EncodeRows(filters[1..], lines[1..], lines[0]) + extra;
      ReadEncodedRow(row, filters[0], lines[0], previous, rest);
      ReadOneRow(row, EncodeRows(filters, lines, previous) + extra, |previous|, |lines|, previous, done, lines[0], rest);
      ReadEncodedRows(row, filters[1..], lines[1..], lines[0], extra, done + [lines[0]]);
      HeadMoves(done, lines);
    }
  }

  /** An IHDR of an 8-bit, non-interlaced RGBA image of these lines. */
  predicate Describes(header: Bytes, lines: seq<Bytes>) {
    && |header| >= 13
    && header[8] == 8 && header[9] == 6 && header[12] == 0
    && Word(header[4..8]) == |lines|
    && SameLength(lines, Word(header[..4]) * 4)
  }

  /** Every conforming encoding reads back: whatever filters the rows use, however the
      data is cut into IDAT chunks, and whatever other chunks stand between them. */
  lemma ReadsEveryConformingEncoding(
    chunks: seq<Chunk>, header: Bytes, filters: seq<byte>, lines: seq<Bytes>, extra: Bytes,
    decompress: Bytes -> Option<Bytes>)
    requires AllFramable(chunks)
    requires Describes(header, lines) && |filters| == |lines|
    requires TakeAll(Found(None, []), chunks).header == Some(header)
    requires decompress(TakeAll(Found(None, []), chunks).data)
          == Some(EncodeRows(filters, lines, Zeros(Word(header[..4]) * 4)) + extra)
    ensures ReadImage(SIGNATURE + FrameAll(chunks), decompress)
         == Ok(Image(header, Word(header[..4]), |lines|, lines))
  {
    var blob := SIGNATURE + FrameAll(chunks);
    assert Drop(blob, 8) == FrameAll(chunks);
    ReadFramed(chunks, Found(None, []));
    ReadRowReadsRows();
    ReadEncodedRows(ReadRow, filters, lines, Zeros(Word(header[..4]) * 4), extra, []);
    assert [] + lines == lines;
  }

  function Packed(lines: seq<Bytes>): Bytes {
    if lines == [] then [] else Packed(lines[..|lines| - 1]) + [0] + lines[|lines| - 1]
  }

  function WrittenChunks(header: Bytes, lines: seq<Bytes>, compress: Bytes -> Bytes, crc: Bytes -> nat): seq<Chunk> {
    [Checked(IHDR, header, crc), Checked(IDAT, compress(Packed(lines)), crc), Checked(IEND, [], crc)]
  }

  function Checked(kind: Bytes, body: Bytes, crc: Bytes -> nat): Chunk {
    Chunk(kind, body, BigEndian(crc(kind + body) % WORD))
  }

  /** `write_png`: filter 0 throughout, three chunks. `None` where a chunk is too long for
      its length field and the source raises. */
  method WritePng(header: Bytes, lines: seq<Bytes>, compress: Bytes -> Bytes, crc: Bytes -> nat) returns (r: Option<Bytes>)
    ensures r.Some? <==> AllFramable(WrittenChunks(header, lines, compress, crc))
    ensures r.Some? ==> r.value == SIGNATURE + FrameAll(WrittenChunks(header, lines, compress, crc))
  {
    var packed := [];
    for k := 0 to |lines|
      invariant packed == Packed(lines[..k])
    {
      assert lines[..k + 1][..k] == lines[..k];
      packed := packed + [0] + lines[k];
    }
    assert lines[..|lines|] == lines;
    var data := compress(packed);
    ghost var chunks := WrittenChunks(header, lines, compress, crc);
    if |header| >= WORD || |data| >= WORD {
      assert !Framable(chunks[0]) || !Framable(chunks[1]);
      return None;
    }
    assert chunks[0].body == header && chunks[1].body == data;
    FrameThree(chunks);
    r := Some(SIGNATURE + Frame(Checked(IHDR, header, crc)) + Frame(Checked(IDAT, data, crc)) + Frame(Checked(IEND, [], crc)));
  }

  lemma FrameThree(chunks: seq<Chunk>)
    requires |chunks| == 3 && AllFramable(chunks)
    ensures SIGNATURE + FrameAll(chunks) == SIGNATURE + Frame(chunks[0]) + Frame(chunks[1]) + Frame(chunks[2])
  {
    assert FrameAll(chunks[1..][1..]) == Frame(chunks[2]) + [];
    assert FrameAll(chunks[1..]) == Frame(chunks[1]) + (Frame(chunks[2]) + []);
  }

  lemma FilterZeroStores(line: Bytes, previous: Bytes)
    requires |line| == |previous|
    ensures Filtered(0, line, previous) == line
  {
  }

  lemma {:induction false} PackingIsFilterZero(lines: seq<Bytes>, previous: Bytes)
    requires SameLength(lines, |previous|)
    ensures Packed(lines) == EncodeRows(Zeros(|lines|), lines, previous)
    decreases |lines|
  {
    if lines != [] {
      FilterZeroStores(lines[0], previous);
      PackingIsFilterZero(lines[1..], lines[0]);
      assert Zeros(|lines|)[1..] == Zeros(|lines| - 1);
      PackedFirst(lines);
    }
  }

  lemma {:induction false} PackedFirst(lines: seq<Bytes>)
    requires lines != []
    ensures Packed(lines) == [0] + lines[0] + Packed(lines[1..])
    decreases |lines|
  {
    if |lines| == 1 {
      assert lines[..0] == [] && lines[1..] == [];
      assert [] + [0] + lines[0] == [0] + lines[0] + [];
    } else {
      var last, init := lines[|lines| - 1], lines[..|lines| - 1];
      PackedFirst(init);
      assert lines[1..][..|lines| - 2] == init[1..];
      assert ([0] + lines[0] + Packed(init[1..])) + [0] + last == [0] + lines[0] + (Packed(init[1..]) + [0] + last);
    }
  }

  /** What `write_png` frames, `read_png` recovers, given only that zlib inverts itself. */
  lemma WrittenImageReadsBack(header: Bytes, lines: seq<Bytes>, compress: Bytes -> Bytes, crc: Bytes -> nat,
                              decompress: Bytes -> Option<Bytes>)
    requires Describes(header, lines)
    requires AllFramable(WrittenChunks(header, lines, compress, crc))
    requires decompress(compress(Packed(lines))) == Some(Packed(lines))
    ensures ReadImage(SIGNATURE + FrameAll(WrittenChunks(header, lines, compress, crc)), decompress)
         == Ok(Image(header, Word(header[..4]), |lines|, lines))
  {
    var chunks := WrittenChunks(header, lines, compress, crc);
    var stride := Word(header[..4]) * 4;
    PackingIsFilterZero(lines, Zeros(stride));
    TakeWritten(chunks, header, compress(Packed(lines)));
    assert EncodeRows(Zeros(|lines|), lines, Zeros(stride)) + [] == Packed(lines);
    ReadsEveryConformingEncoding(chunks, header, Zeros(|lines|), lines, [], decompress);
  }

  lemma TakeWritten(chunks: seq<Chunk>, header: Bytes, data: Bytes)
    requires |chunks| == 3
    requires chunks[0].kind == IHDR && chunks[0].body == header
    requires chunks[1].kind == IDAT && chunks[1].body == data
    requires chunks[2].kind == IEND
    ensures TakeAll(Found(None, []), chunks) == Found(Some(header), data)
  {
    var none: Bytes := [];
    assert none + data == data;
    assert IHDR[0] == IDAT[0] && IHDR[1] != IDAT[1] && IHDR[1] != IEND[1] && IDAT[1] != IEND[1];
    var f1 := Take(Found(None, []), chunks[0].kind, chunks[0].body);
    var f2 := Take(f1, chunks[1].kind, chunks[1].body);
    assert TakeAll(f2, chunks[2..]) == Take(f2, chunks[2].kind, chunks[2].body) by {
      assert chunks[2..][1..] == [];
    }
    assert chunks[1..][1..] == chunks[2..];
  }

  // ----- the format, in its own bytes

  /** The data of the IDAT chunks, joined in their order. */
  function ImageData(chunks: seq<Chunk>): Bytes {
    if chunks == [] then [] else (if chunks[0].kind == [73, 68, 65, 84] then chunks[0].body else []) + ImageData(chunks[1..])
  }

  /** What the walk keeps of the chunks: the body of the last IHDR, and the data. */
  lemma {:induction false} WalkKeeps(found: Found, chunks: seq<Chunk>)
    ensures TakeAll(found, chunks).data == found.data + ImageData(chunks)
    ensures (forall i | 0 <= i < |chunks| :: chunks[i].kind != [73, 72, 68, 82]) ==> TakeAll(found, chunks).header == found.header
    ensures chunks != [] && chunks[|chunks| - 1].kind == [73, 72, 68, 82] ==>
              TakeAll(found, chunks).header == Some(chunks[|chunks| - 1].body)
    decreases |chunks|
  {
    if chunks == [] {
      assert found.data + [] == found.data;
    } else {
      KindsDiffer();
      var next := Take(found, chunks[0].kind, chunks[0].body);
      WalkKeeps(next, chunks[1..]);
      assert found.data + [] == found.data;
      Joins(found.data, if chunks[0].kind == IDAT then chunks[0].body else [], ImageData(chunks[1..]));
      assert forall i | 0 <= i < |chunks[1..]| :: chunks[1..][i] == chunks[i + 1];
      if |chunks| == 1 {
        assert chunks[1..] == [];
      }
    }
  }

  lemma KindsDiffer()
    ensures IHDR == [73, 72, 68, 82] && IDAT == [73, 68, 65, 84] && IHDR != IDAT
  {
    assert IHDR[1] != IDAT[1];
  }

  lemma Joins(a: Bytes, b: Bytes, c: Bytes)
    ensures (a + b) + c == a + (b + c)
  {
  }

  /** One chunk of the file: the length of its body, its kind, its body, its CRC over both. */
  lemma FrameBytes(kind: Bytes, body: Bytes, crc: Bytes -> nat)
    requires |kind| == 4 && |body| < 0x1_0000_0000
    ensures Framable(Checked(kind, body, crc))
    ensures var s := Frame(Checked(kind, body, crc));
            && |s| == |body| + 12 && Word(s[..4]) == |body| && s[4..8] == kind && s[8..|body| + 8] == body
            && Word(s[|body| + 8..]) == crc(kind + body) % 0x1_0000_0000
  {
    var c := Checked(kind, body, crc);
    FrameParts(c);
    WordRoundTrip(|body|);
    WordRoundTrip(crc(kind + body) % WORD);
    assert Frame(c)[|body| + 8..] == c.crc;
  }

  /** The file that is written: the eight bytes of the signature, then the header, the
      compressed rows and the empty end, each as one chunk. */
  lemma WrittenBytes(header: Bytes, lines: seq<Bytes>, compress: Bytes -> Bytes, crc: Bytes -> nat)
    requires AllFramable(WrittenChunks(header, lines, compress, crc))
    ensures var chunks := WrittenChunks(header, lines, compress, crc);
            && |chunks| == 3
            && chunks[0] == Checked([73, 72, 68, 82], header, crc)
            && chunks[1] == Checked([73, 68, 65, 84], compress(Packed(lines)), crc)
            && chunks[2] == Checked([73, 69, 78, 68], [], crc)
            && SIGNATURE + FrameAll(chunks) ==
               [137, 80, 78, 71, 13, 10, 26, 10] + Frame(chunks[0]) + Frame(chunks[1]) + Frame(chunks[2])
  {
    FrameThree(WrittenChunks(header, lines, compress, crc));
  }

  /** Which files are read, given what the walk found in them: the header must be there, whole,
      and that of a non-interlaced image with 8-bit red, green, blue and alpha; the data must
      decompress; and every row must be there. The size is the header's. */
  lemma ReadingSucceedsIff(blob: Bytes, decompress: Bytes -> Option<Bytes>, found: Found)
    requires ReadChunks(Drop(blob, 8), Found(None, [])) == Ok(found)
    ensures var r := ReadImage(blob, decompress);
            && (found.header.None? <==> r == Err(NotPng))
            && (found.header.Some? ==>
                  var h := found.header.value;
                  && (|h| < 13 <==> r == Err(TruncatedChunk))
                  && (|h| >= 13 ==>
                        && (h[8] == 8 && h[9] == 6 && h[12] == 0 <==> r != Err(WrongFormat))
                        && (r.Ok? ==>
                              && h[8] == 8 && h[9] == 6 && h[12] == 0 && decompress(found.data).Some?
                              && r.value.header == h && r.value.width == Word(h[0..4]) && r.value.height == Word(h[4..8])
                              && |r.value.lines| == r.value.height)))
  {
    if found.header.Some? && |found.header.value| >= 13 {
      var h := found.header.value;
      assert h[..4] == h[0..4];
      var raw := decompress(found.data);
      if raw.Some? {
        RowsAreCounted(ReadRow, raw.value, Word(h[..4]) * 4, Word(h[4..8]), Zeros(Word(h[..4]) * 4), []);
      }
    }
  }

  lemma {:induction false} RowsAreCounted(
    row: (Bytes, nat, Bytes) -> Option<Bytes>, tail: Bytes, stride: nat, rows: nat, previous: Bytes, done: seq<Bytes>)
    ensures var r := ReadRows(row, tail, stride, rows, previous, done);
            if r.Ok? then |r.value| == |done| + rows else r == Err(ShortData)
    decreases rows
  {
    if rows > 0 && row(tail, stride, previous).Some? {
      var line := row(tail, stride, previous).value;
      RowsAreCounted(row, Drop(tail, 1 + stride), stride, rows - 1, line, done + [line]);
    }
  }
}
