/** The small PNG decoder and encoder (`png.rs`): chunks, the five filters, and the colour types. The zlib
    pair and the checksum are parameters. */
module Png {
  import opened Prelude
  import Arith

  const MAX_SIDE := 512

  datatype Colour = Colour(r: byte, g: byte, b: byte, a: byte)

  datatype Refusal =
    NotPng | TooLarge | Unsupported | UnknownColour | PastEnd | BrokenData | WrongSize | UnknownFilter | PaletteRange

  /** `Fault`: the decoder stops at an index out of bounds. */
  datatype Outcome = Picture(w: nat, h: nat, px: seq<byte>) | Refused(why: Refusal) | Fault

  // ------------------------------------------------------------ filters (section 9 of ISO/IEC 15948)

  function Abs(x: int): nat { if x < 0 then -x else x }

  function Paeth(a: byte, b: byte, c: byte): byte {
    var p := a + b - c;
    if Abs(p - a) <= Abs(p - b) && Abs(p - a) <= Abs(p - c) then a
    else if Abs(p - b) <= Abs(p - c) then b
    else c
  }

  /** What a filter predicts from the bytes to the left, above, and above left. */
  function Predict(filter: nat, a: byte, b: byte, c: byte): byte
    requires filter <= 4
  {
    match filter
    case 0 => 0
    case 1 => a
    case 2 => b
    case 3 => (a as int + b) / 2
    case _ => Paeth(a, b, c)
  }

  /** The byte `bpp` places to the left. */
  function Left(row: seq<byte>, x: nat, bpp: nat): byte
    requires 0 < bpp && (bpp <= x ==> x - bpp < |row|)
  {
    if bpp <= x then row[x - bpp] else 0
  }

  /** The encoder's side: each byte less its prediction, all taken from the original rows. */
  function FilterRow(filter: nat, bpp: nat, prev: seq<byte>, row: seq<byte>): (r: seq<byte>)
    requires filter <= 4 && 0 < bpp && |prev| == |row|
    ensures |r| == |row|
  {
    seq(|row|, x requires 0 <= x < |row| =>
      (row[x] - Predict(filter, Left(row, x, bpp), prev[x], Left(prev, x, bpp))) % 256)
  }

  /** The decoder's side: the first `n` bytes of the row, predicted from what is already reconstructed. */
  function Unfilter(filter: nat, bpp: nat, prev: seq<byte>, src: seq<byte>, n: nat): (r: seq<byte>)
    requires filter <= 4 && 0 < bpp && |prev| == |src| && n <= |src|
    ensures |r| == n
  {
    if n == 0 then []
    else
      var done := Unfilter(filter, bpp, prev, src, n - 1);
      var x := n - 1;
      done + [(src[x] + Predict(filter, Left(done, x, bpp), prev[x], Left(prev, x, bpp))) % 256]
  }

  lemma {:induction false} UnfilterFilter(filter: nat, bpp: nat, prev: seq<byte>, row: seq<byte>, n: nat)
    requires filter <= 4 && 0 < bpp && |prev| == |row| && n <= |row|
    ensures Unfilter(filter, bpp, prev, FilterRow(filter, bpp, prev, row), n) == row[..n]
  {
    if n > 0 {
      UnfilterFilter(filter, bpp, prev, row, n - 1);
      var x := n - 1;
      assert Left(row[..x], x, bpp) == Left(row, x, bpp);
      AddBack(row[x], Predict(filter, Left(row, x, bpp), prev[x], Left(prev, x, bpp)));
    }
  }

  lemma AddBack(v: byte, p: byte)
    ensures ((v - p) % 256 + p) % 256 == v
    ensures ((v + p) % 256 - p) % 256 == v
  {
    assert (v - p) % 256 == if v < p then v - p + 256 else v - p;
    assert (v + p) % 256 == if v + p < 256 then v + p else v + p - 256;
  }

  lemma {:induction false} UnfilterGrows(filter: nat, bpp: nat, prev: seq<byte>, src: seq<byte>, n: nat, m: nat)
    requires filter <= 4 && 0 < bpp && |prev| == |src| && n <= m <= |src|
    ensures Unfilter(filter, bpp, prev, src, m)[..n] == Unfilter(filter, bpp, prev, src, n)
    decreases m
  {
    if n < m { UnfilterGrows(filter, bpp, prev, src, n, m - 1); }
  }

  /** Filtering undoes reconstruction, too: every row of bytes is the filtered form of exactly one row. */
  lemma FilterUnfilter(filter: nat, bpp: nat, prev: seq<byte>, src: seq<byte>)
    requires filter <= 4 && 0 < bpp && |prev| == |src|
    ensures FilterRow(filter, bpp, prev, Unfilter(filter, bpp, prev, src, |src|)) == src
  {
    var row := Unfilter(filter, bpp, prev, src, |src|);
    forall x | 0 <= x < |src| ensures FilterRow(filter, bpp, prev, row)[x] == src[x] {
      UnfilterGrows(filter, bpp, prev, src, x, |src|);
      UnfilterGrows(filter, bpp, prev, src, x + 1, |src|);
      var done := Unfilter(filter, bpp, prev, src, x);
      assert done == row[..x] && row[x] == Unfilter(filter, bpp, prev, src, x + 1)[x];
      assert Left(done, x, bpp) == Left(row, x, bpp);
      AddBack(src[x], Predict(filter, Left(row, x, bpp), prev[x], Left(prev, x, bpp)));
    }
  }

  // ------------------------------------------------------------ whole pictures

  predicate FiltersOk(filters: seq<nat>) {
    forall i :: 0 <= i < |filters| ==> filters[i] <= 4
  }

  /** All rows with their filter bytes; `prev` is the row above. */
  function FilterRows(filters: seq<nat>, bpp: nat, stride: nat, prev: seq<byte>, rows: seq<byte>): (r: seq<byte>)
    requires 0 < bpp && |prev| == stride && |rows| == |filters| * stride && FiltersOk(filters)
    ensures |r| == |filters| * (stride + 1)
    decreases |filters|
  {
    if filters == [] then []
    else
      RowsThere(|filters|, stride);
      RowsThere(|filters|, stride + 1);
      [filters[0] as byte] + FilterRow(filters[0], bpp, prev, rows[..stride])
      + FilterRows(filters[1..], bpp, stride, rows[..stride], rows[stride..])
  }

  lemma RowsThere(h: nat, stride: nat)
    requires h > 0
    ensures h * stride == stride + (h - 1) * stride && (h - 1) * stride >= 0
  {
  }

  /** The decoder's loop over the rows; `None` for an unknown filter. */
  function Reconstruct(raw: seq<byte>, h: nat, bpp: nat, stride: nat, prev: seq<byte>): (r: Option<seq<byte>>)
    requires 0 < bpp && |prev| == stride && |raw| == h * (stride + 1)
    ensures r.Some? ==> |r.value| == h * stride
    decreases h
  {
    if h == 0 then Some([])
    else
      RowsThere(h, stride);
      RowsThere(h, stride + 1);
      if raw[0] > 4 then None
      else
        var cur := Unfilter(raw[0], bpp, prev, raw[1..stride + 1], stride);
        Prepend(cur, Reconstruct(raw[stride + 1..], h - 1, bpp, stride, cur))
  }

  function Prepend<T>(a: seq<T>, r: Option<seq<T>>): Option<seq<T>> {
    if r.None? then None else Some(a + r.value)
  }

  /** A filtered row and what is below it. */
  lemma ReconstructFirst(filter: byte, src: seq<byte>, below: seq<byte>, h: nat, bpp: nat, stride: nat, prev: seq<byte>)
    requires 0 < bpp && |prev| == stride == |src| && h > 0 && |below| == (h - 1) * (stride + 1) && filter <= 4
    ensures var raw, cur := [filter] + src + below, Unfilter(filter, bpp, prev, src, stride);
      && |raw| == h * (stride + 1)
      && Reconstruct(raw, h, bpp, stride, prev) == Prepend(cur, Reconstruct(below, h - 1, bpp, stride, cur))
  {
    RowsThere(h, stride + 1);
    var raw := [filter] + src + below;
    assert raw[1..stride + 1] == src && raw[stride + 1..] == below;
  }

  /** Reconstruction returns the original rows, whatever filter was chosen for each. */
  lemma {:induction false} ReconstructInverts(filters: seq<nat>, bpp: nat, stride: nat, prev: seq<byte>, rows: seq<byte>)
    requires 0 < bpp && |prev| == stride && |rows| == |filters| * stride && FiltersOk(filters)
    ensures Reconstruct(FilterRows(filters, bpp, stride, prev, rows), |filters|, bpp, stride, prev) == Some(rows)
    decreases |filters|
  {
    if filters != [] {
      RowsThere(|filters|, stride);
      var row, below := rows[..stride], rows[stride..];
      var first := FilterRow(filters[0], bpp, prev, row);
      UnfilterFilter(filters[0], bpp, prev, row, stride);
      assert row[..stride] == row;
      var rest := FilterRows(filters[1..], bpp, stride, row, below);
      assert FilterRows(filters, bpp, stride, prev, rows) == [filters[0] as byte] + first + rest;
      ReconstructInverts(filters[1..], bpp, stride, row, below);
      ReconstructFirst(filters[0], first, rest, |filters|, bpp, stride, prev);
      assert row + below == rows;
    }
  }

  function Zeros(n: nat): (r: seq<byte>)
    ensures |r| == n
  {
    seq(n, i => 0)
  }

  // ------------------------------------------------------------ pixels

  predicate KnownColour(color: byte) { color == 0 || color == 2 || color == 3 || color == 4 || color == 6 }

  function Channels(color: byte): (n: nat)
    requires KnownColour(color)
    ensures 1 <= n <= 4
  {
    match color
    case 0 => 1
    case 2 => 3
    case 3 => 1
    case 4 => 2
    case _ => 4
  }

  /** One pixel as RGBA; `None`: not in the palette. */
  function Pixel(color: byte, palette: seq<Colour>, p: seq<byte>): (r: Option<seq<byte>>)
    requires KnownColour(color) && |p| == Channels(color)
    ensures r.Some? ==> |r.value| == 4
    ensures r.None? <==> color == 3 && p[0] >= |palette|
  {
    match color
    case 0 => Some([p[0], p[0], p[0], 255])
    case 2 => Some([p[0], p[1], p[2], 255])
    case 3 =>
      if p[0] >= |palette| then None
      else
        var c := palette[p[0]];
        Some([c.r, c.g, c.b, c.a])
    case 4 => Some([p[0], p[0], p[0], p[1]])
    case _ => Some(p)
  }

  function Expand(color: byte, palette: seq<Colour>, rows: seq<byte>): (r: Option<seq<byte>>)
    requires KnownColour(color) && |rows| % Channels(color) == 0
    decreases |rows|
  {
    if rows == [] then Some([])
    else
      var n := Channels(color);
      var first := Pixel(color, palette, rows[..n]);
      if first.None? then None
      else
        var rest := Expand(color, palette, rows[n..]);
        if rest.None? then None else Some(first.value + rest.value)
  }

  /** RGBA rows are the picture. */
  lemma {:induction false} ExpandRgba(palette: seq<Colour>, rows: seq<byte>)
    requires |rows| % 4 == 0
    ensures Expand(6, palette, rows) == Some(rows)
    decreases |rows|
  {
    if rows != [] {
      ExpandRgba(palette, rows[4..]);
      assert rows[..4] + rows[4..] == rows;
    }
  }

  /** Only a palette picture with an index beyond its palette is refused. */
  lemma {:induction false} ExpandRefuses(color: byte, palette: seq<Colour>, rows: seq<byte>)
    requires KnownColour(color) && |rows| % Channels(color) == 0
    ensures Expand(color, palette, rows).None? <==> color == 3 && exists i :: 0 <= i < |rows| && rows[i] >= |palette|
    ensures Expand(color, palette, rows).Some? ==> |Expand(color, palette, rows).value| == |rows| / Channels(color) * 4
    decreases |rows|
  {
    if rows != [] {
      var n := Channels(color);
      ExpandRefuses(color, palette, rows[n..]);
      assert |rows| / n == 1 + |rows[n..]| / n;
      if color == 3 {
        assert rows == [rows[0]] + rows[1..];
        if i :| 0 <= i < |rows| && rows[i] >= |palette| {
          if i > 0 { assert rows[1..][i - 1] >= |palette|; }
        }
      }
    }
  }

  // ------------------------------------------------------------ chunks

  const SIGNATURE: seq<byte> := [0x89, 0x50, 0x4e, 0x47, 0x0d, 0x0a, 0x1a, 0x0a]
  const IHDR: seq<byte> := [73, 72, 68, 82]
  const IDAT: seq<byte> := [73, 68, 65, 84]
  const PLTE: seq<byte> := [80, 76, 84, 69]
  const TRNS: seq<byte> := [116, 82, 78, 83]
  const IEND: seq<byte> := [73, 69, 78, 68]

  function Be32(n: u32): (r: seq<byte>)
    ensures |r| == 4
  {
    [n / 0x100_0000, n / 0x1_0000 % 256, n / 256 % 256, n % 256]
  }

  function FromBe32(b: seq<byte>): u32
    requires |b| == 4
  {
    b[0] as int * 0x100_0000 + b[1] as int * 0x1_0000 + b[2] as int * 256 + b[3]
  }

  lemma Be32Inverts(n: u32)
    ensures FromBe32(Be32(n)) == n
  {
    var a, b := n / 256, n / 0x1_0000;
    assert n == a * 256 + n % 256;
    assert a / 256 == b && a == b * 256 + a % 256;
    assert b / 256 == n / 0x100_0000 && b == n / 0x100_0000 * 256 + b % 256;
  }

  /** What the chunk walk collects. */
  datatype Gathered = Gathered(idat: seq<byte>, palette: seq<Colour>)

  function Palette(data: seq<byte>): seq<Colour> {
    if |data| < 3 then [] else [Colour(data[0], data[1], data[2], 255)] + Palette(data[3..])
  }

  function SetAlphas(palette: seq<Colour>, data: seq<byte>): (r: seq<Colour>)
    ensures |r| == |palette|
  {
    seq(|palette|, i requires 0 <= i < |palette| => if i < |data| then palette[i].(a := data[i]) else palette[i])
  }

  function Gather(g: Gathered, kind: seq<byte>, data: seq<byte>, color: byte): Gathered {
    if kind == IDAT then g.(idat := g.idat + data)
    else if kind == PLTE then g.(palette := Palette(data))
    else if kind == TRNS && color == 3 then g.(palette := SetAlphas(g.palette, data))
    else g
  }

  datatype Chunk = Chunk(kind: seq<byte>, data: seq<byte>)

  /** What lies at a place in the file: no more chunks, one that runs past the end, or a whole one. */
  datatype Place = Nothing | Beyond | Whole(chunk: Chunk)

  function PlaceAt(png: seq<byte>, pos: nat): Place {
    if pos + 8 > |png| then Nothing
    else
      var len := FromBe32(png[pos..pos + 4]);
      if pos + 8 + len > |png| then Beyond
      else Whole(Chunk(png[pos + 4..pos + 8], png[pos + 8..pos + 8 + len]))
  }

  /** The walk from `pos` on; `None`: a chunk runs past the end. */
  function Walk(png: seq<byte>, pos: nat, color: byte, g: Gathered): Option<Gathered>
    decreases if pos <= |png| then |png| - pos else 0
  {
    match PlaceAt(png, pos)
    case Nothing => Some(g)
    case Beyond => None
    case Whole(c) =>
      if c.kind == IEND then Some(g) else Walk(png, pos + 12 + |c.data|, color, Gather(g, c.kind, c.data, color))
  }

  /** The same walk over what is left of the file. */
  function WalkRest(rest: seq<byte>, color: byte, g: Gathered): Option<Gathered>
    decreases |rest|
  {
    match PlaceAt(rest, 0)
    case Nothing => Some(g)
    case Beyond => None
    case Whole(c) =>
      if c.kind == IEND then Some(g) else WalkRest(From(rest, 12 + |c.data|), color, Gather(g, c.kind, c.data, color))
  }

  function From(s: seq<byte>, pos: nat): (r: seq<byte>)
    ensures |r| == if pos <= |s| then |s| - pos else 0
  {
    if pos <= |s| then s[pos..] else []
  }

  lemma PlaceFrom(png: seq<byte>, pos: nat)
    ensures PlaceAt(From(png, pos), 0) == PlaceAt(png, pos)
  {
    if pos + 8 <= |png| {
      var rest := png[pos..];
      assert rest[0..4] == png[pos..pos + 4] && rest[4..8] == png[pos + 4..pos + 8];
    }
  }

  lemma FromTwice(s: seq<byte>, pos: nat, more: nat)
    ensures From(From(s, pos), more) == From(s, pos + more)
  {
  }

  ghost predicate Agree(png: seq<byte>, pos: nat, rest: seq<byte>, color: byte, g: Gathered) {
    Walk(png, pos, color, g) == WalkRest(rest, color, g)
  }

  lemma AgreeAtEnd(png: seq<byte>, pos: nat, rest: seq<byte>, color: byte, g: Gathered)
    requires PlaceAt(png, pos) == PlaceAt(rest, 0)
    requires PlaceAt(png, pos).Whole? ==> PlaceAt(png, pos).chunk.kind == IEND
    ensures Agree(png, pos, rest, color, g)
  {
  }

  lemma AgreeFurther(png: seq<byte>, pos: nat, rest: seq<byte>, c: Chunk, color: byte, g: Gathered)
    requires PlaceAt(png, pos) == PlaceAt(rest, 0) == Whole(c) && c.kind != IEND
    requires Agree(png, pos + 12 + |c.data|, From(rest, 12 + |c.data|), color, Gather(g, c.kind, c.data, color))
    ensures Agree(png, pos, rest, color, g)
  {
  }

  lemma {:induction false} WalkIsRest(png: seq<byte>, pos: nat, color: byte, g: Gathered)
    ensures Agree(png, pos, From(png, pos), color, g)
    decreases if pos <= |png| then |png| - pos else 0
  {
    PlaceFrom(png, pos);
    var p := PlaceAt(png, pos);
    if p.Whole? && p.chunk.kind != IEND {
      var c := p.chunk;
      FromTwice(png, pos, 12 + |c.data|);
      WalkIsRest(png, pos + 12 + |c.data|, color, Gather(g, c.kind, c.data, color));
      AgreeFurther(png, pos, From(png, pos), c, color, g);
    } else {
      AgreeAtEnd(png, pos, From(png, pos), color, g);
    }
  }

  predicate ChunkOk(c: Chunk) { |c.kind| == 4 && |c.data| < 0x1_0000_0000 }

  /** A chunk as the encoder writes it; the length is cut to 32 bits. */
  function ChunkBytes(c: Chunk, crc: seq<byte> -> u32): seq<byte> {
    Be32(|c.data| % 0x1_0000_0000) + (c.kind + (c.data + Be32(crc(c.kind + c.data))))
  }

  function ChunksBytes(cs: seq<Chunk>, crc: seq<byte> -> u32): seq<byte> {
    if cs == [] then [] else ChunkBytes(cs[0], crc) + ChunksBytes(cs[1..], crc)
  }

  function File(cs: seq<Chunk>, crc: seq<byte> -> u32): seq<byte> {
    SIGNATURE + ChunksBytes(cs, crc)
  }

  function GatherAll(g: Gathered, cs: seq<Chunk>, color: byte): Gathered
    decreases |cs|
  {
    if cs == [] then g else GatherAll(Gather(g, cs[0].kind, cs[0].data, color), cs[1..], color)
  }

  lemma Shift<T>(a: seq<T>, t: seq<T>, i: nat, j: nat)
    requires i <= j <= |t|
    ensures (a + t)[|a| + i..|a| + j] == t[i..j]
  {
  }

  lemma ChunkIsNext(c: Chunk, after: seq<byte>, crc: seq<byte> -> u32)
    requires ChunkOk(c)
    ensures var rest := ChunkBytes(c, crc) + after;
      PlaceAt(rest, 0) == Whole(c) && From(rest, 12 + |c.data|) == after
  {
    var rest, len := ChunkBytes(c, crc) + after, |c.data|;
    assert len % 0x1_0000_0000 == len;
    assert rest[0..4] == Be32(len);
    Be32Inverts(len);
  }

  /** Walking over written chunks up to `IEND` collects exactly what they hold. */
  lemma {:induction false} WalkChunks(cs: seq<Chunk>, color: byte, g: Gathered, crc: seq<byte> -> u32)
    requires ChunksOk(cs)
    ensures WalkRest(ChunksBytes(cs + [END], crc), color, g) == Some(GatherAll(g, cs, color))
    decreases |cs|
  {
    var all := cs + [END];
    ChunkIsNext(all[0], ChunksBytes(all[1..], crc), crc);
    if cs != [] {
      assert all[1..] == cs[1..] + [END];
      WalkChunks(cs[1..], color, Gather(g, cs[0].kind, cs[0].data, color), crc);
    }
  }

  const END := Chunk(IEND, [])

  /** Chunks that can be written and do not end the file. */
  predicate ChunksOk(cs: seq<Chunk>) {
    forall i :: 0 <= i < |cs| ==> ChunkOk(cs[i]) && cs[i].kind != IEND
  }

  // ------------------------------------------------------------ decoding

  function Size(png: seq<byte>): Option<(nat, nat)> {
    if |png| < 24 || png[..8] != SIGNATURE || png[12..16] != IHDR then None
    else Some((FromBe32(png[16..20]), FromBe32(png[20..24])))
  }

  predicate SideOk(n: nat) { 0 < n <= MAX_SIDE }

  function DecodeData(w: nat, h: nat, color: byte, g: Gathered, inflate: (seq<byte>, nat) -> Option<seq<byte>>): Outcome
    requires SideOk(w) && SideOk(h) && KnownColour(color)
  {
    var n := Channels(color);
    var stride := w * n;
    var raw := inflate(g.idat, h * (stride + 1));
    if raw.None? then Refused(BrokenData)
    else if |raw.value| != h * (stride + 1) then Refused(WrongSize)
    else
      var rows := Reconstruct(raw.value, h, n, stride, Zeros(stride));
      if rows.None? then Refused(UnknownFilter)
      else
        WholePixels(w, h, n);
        var px := Expand(color, g.palette, rows.value);
        if px.None? then Refused(PaletteRange) else Picture(w, h, px.value)
  }

  lemma WholePixels(w: nat, h: nat, n: nat)
    requires n > 0
    ensures (h * (w * n)) % n == 0 && h * (w * n) / n == h * w
  {
    assert h * (w * n) == (h * w) * n;
    MulDiv(h * w, n);
  }

  lemma MulDiv(q: nat, n: nat)
    requires n > 0
    ensures (q * n) % n == 0 && (q * n) / n == q
  {
    Arith.DivModIs(q * n, q, 0, n);
  }

  function Decode(png: seq<byte>, inflate: (seq<byte>, nat) -> Option<seq<byte>>): Outcome {
    var size := Size(png);
    if size.None? then Refused(NotPng)
    else
      var (w, h) := size.value;
      if !SideOk(w) || !SideOk(h) then Refused(TooLarge)
      else if |png| < 29 then Fault
      else if png[24] != 8 || png[28] != 0 then Refused(Unsupported)
      else if !KnownColour(png[25]) then Refused(UnknownColour)
      else
        var g := Walk(png, 8, png[25], Gathered([], []));
        if g.None? then Refused(PastEnd) else DecodeData(w, h, png[25], g.value, inflate)
  }

  /** The decoder answers, with a picture or a reason, exactly unless the file breaks off within the last five
      bytes of a header that is otherwise acceptable. */
  lemma DecodeFaults(png: seq<byte>, inflate: (seq<byte>, nat) -> Option<seq<byte>>)
    ensures Decode(png, inflate).Fault? <==>
              24 <= |png| < 29 && png[..8] == SIGNATURE && png[12..16] == IHDR
              && SideOk(FromBe32(png[16..20])) && SideOk(FromBe32(png[20..24]))
  {
  }

  /** Twenty-four bytes: the header breaks off after the sides, both 1. */
  const CUT_OFF: seq<byte> :=
    SIGNATURE + [0, 0, 0, 13] + IHDR + [0, 0, 0, 1] + [0, 0, 0, 1]

  lemma CutOffFaults(inflate: (seq<byte>, nat) -> Option<seq<byte>>)
    ensures |CUT_OFF| == 24 && Decode(CUT_OFF, inflate) == Fault
  {
    assert CUT_OFF[..8] == SIGNATURE;
    assert CUT_OFF[12..16] == IHDR;
    assert CUT_OFF[16..20] == [0, 0, 0, 1] == CUT_OFF[20..24];
    DecodeFaults(CUT_OFF, inflate);
  }

  /** A picture always has the size its header gives, and four bytes a pixel. */
  lemma DecodeSize(png: seq<byte>, inflate: (seq<byte>, nat) -> Option<seq<byte>>)
    requires Decode(png, inflate).Picture?
    ensures var p := Decode(png, inflate);
      SideOk(p.w) && SideOk(p.h) && Size(png) == Some((p.w, p.h)) && |p.px| == p.h * p.w * 4
  {
    var p := Decode(png, inflate);
    var color := png[25];
    var n := Channels(color);
    var g := Walk(png, 8, color, Gathered([], [])).value;
    var rows := Reconstruct(inflate(g.idat, p.h * (p.w * n + 1)).value, p.h, n, p.w * n, Zeros(p.w * n)).value;
    WholePixels(p.w, p.h, n);
    ExpandRefuses(color, g.palette, rows);
  }

  function Header(w: u32, h: u32, color: byte, compression: byte, method_: byte): Chunk {
    Chunk(IHDR, Be32(w) + Be32(h) + [8, color, compression, method_, 0])
  }

  /** The gathered data of a filtered picture decode to the picture. */
  lemma DataDecodes(w: nat, h: nat, color: byte, g: Gathered, filters: seq<nat>, rows: seq<byte>,
                    inflate: (seq<byte>, nat) -> Option<seq<byte>>)
    requires SideOk(w) && SideOk(h) && KnownColour(color)
    requires |filters| == h && FiltersOk(filters) && |rows| == h * (w * Channels(color))
    requires var n := Channels(color);
      inflate(g.idat, h * (w * n + 1)) == Some(FilterRows(filters, n, w * n, Zeros(w * n), rows))
    ensures |rows| % Channels(color) == 0
    ensures DecodeData(w, h, color, g, inflate)
            == (var px := Expand(color, g.palette, rows); if px.Some? then Picture(w, h, px.value) else Refused(PaletteRange))
  {
    var n := Channels(color);
    ReconstructInverts(filters, n, w * n, Zeros(w * n), rows);
    WholePixels(w, h, n);
  }

  /** Any 8-bit, non-interlaced PNG decodes to its picture: any colour type, any filter for each row, any number
      of `IDAT` chunks, any other chunks between. */
  lemma FileDecodes(w: nat, h: nat, color: byte, compression: byte, method_: byte, filters: seq<nat>, rows: seq<byte>,
                    chunks: seq<Chunk>, crc: seq<byte> -> u32, inflate: (seq<byte>, nat) -> Option<seq<byte>>)
    requires SideOk(w) && SideOk(h) && KnownColour(color)
    requires |filters| == h && FiltersOk(filters) && |rows| == h * (w * Channels(color))
    requires ChunksOk(chunks)
    requires var n := Channels(color);
      inflate(GatherAll(Gathered([], []), chunks, color).idat, h * (w * n + 1))
      == Some(FilterRows(filters, n, w * n, Zeros(w * n), rows))
    ensures var g := GatherAll(Gathered([], []), chunks, color);
      var png := File([Header(w, h, color, compression, method_)] + chunks + [END], crc);
      && |rows| % Channels(color) == 0
      && Decode(png, inflate) == (var px := Expand(color, g.palette, rows);
                                  if px.Some? then Picture(w, h, px.value) else Refused(PaletteRange))
  {
    var header := Header(w, h, color, compression, method_);
    var g0 := Gathered([], []);
    FileIsWalked(header, chunks, color, crc);
    assert Gather(g0, IHDR, header.data, color) == g0;
    HeaderIsRead(w, h, color, compression, method_, ChunksBytes(chunks + [END], crc), crc);
    DataDecodes(w, h, color, GatherAll(g0, chunks, color), filters, rows, inflate);
  }

  lemma FileIsWalked(header: Chunk, chunks: seq<Chunk>, color: byte, crc: seq<byte> -> u32)
    requires ChunkOk(header) && header.kind != IEND && ChunksOk(chunks)
    ensures var png := File([header] + chunks + [END], crc);
      && png == SIGNATURE + (ChunkBytes(header, crc) + ChunksBytes(chunks + [END], crc))
      && Walk(png, 8, color, Gathered([], []))
         == Some(GatherAll(Gather(Gathered([], []), header.kind, header.data, color), chunks, color))
  {
    var all := [header] + chunks;
    WalkChunks(all, color, Gathered([], []), crc);
    assert all[1..] == chunks;
    assert (all + [END])[1..] == chunks + [END];
    assert From(File(all + [END], crc), 8) == ChunksBytes(all + [END], crc);
    WalkIsRest(File(all + [END], crc), 8, color, Gathered([], []));
  }

  lemma HeaderIsRead(w: u32, h: u32, color: byte, compression: byte, method_: byte, after: seq<byte>, crc: seq<byte> -> u32)
    ensures var png := SIGNATURE + (ChunkBytes(Header(w, h, color, compression, method_), crc) + after);
      Size(png) == Some((w, h)) && |png| >= 33 && png[24] == 8 && png[25] == color && png[28] == 0
  {
    var header := Header(w, h, color, compression, method_);
    var rest := ChunkBytes(header, crc) + after;
    var png := SIGNATURE + rest;
    ChunkIsNext(header, after, crc);
    Shift(SIGNATURE, rest, 4, 8);
    Shift(SIGNATURE, rest, 8, 21);
    HeaderData(w, h, color, compression, method_, png);
    assert png[..8] == SIGNATURE;
  }

  lemma HeaderData(w: u32, h: u32, color: byte, compression: byte, method_: byte, png: seq<byte>)
    requires |png| >= 29 && png[16..29] == Header(w, h, color, compression, method_).data
    ensures FromBe32(png[16..20]) == w && FromBe32(png[20..24]) == h
    ensures png[24] == 8 && png[25] == color && png[28] == 0
  {
    var data := png[16..29];
    var tail := [8, color, compression, method_, 0];
    assert data == Be32(w) + (Be32(h) + tail);
    assert data[..4] == Be32(w) && data[4..8] == Be32(h);
    assert forall i :: 0 <= i < 13 ==> data[i] == png[16 + i];
    assert png[16..20] == data[..4];
    assert png[20..24] == data[4..8];
    assert data[8..] == tail;
    assert data[8] == tail[0] && data[9] == tail[1] && data[12] == tail[4];
    Be32Inverts(w);
    Be32Inverts(h);
  }

  // ------------------------------------------------------------ encoding

  /** Unfiltered rows, a zero byte before each; what is left over makes a shorter row. */
  function PlainRows(px: seq<byte>, stride: nat): (r: seq<byte>)
    requires stride > 0
    decreases |px|
  {
    if px == [] then []
    else if |px| <= stride then [0] + px
    else [0] + px[..stride] + PlainRows(px[stride..], stride)
  }

  lemma {:induction false} PlainIsFilterNone(px: seq<byte>, h: nat, bpp: nat, stride: nat, prev: seq<byte>)
    requires |px| == h * stride && |prev| == stride > 0 && bpp > 0
    ensures PlainRows(px, stride) == FilterRows(seq(h, i => 0), bpp, stride, prev, px)
    decreases h
  {
    if h > 0 {
      RowsThere(h, stride);
      var row := px[..stride];
      PlainIsFilterNone(px[stride..], h - 1, bpp, stride, row);
      assert seq(h, i => 0)[1..] == seq(h - 1, i => 0);
      assert FilterRow(0, bpp, prev, row) == row;
      if |px| == stride { assert px == row && px[stride..] == []; }
    }
  }

  /** `None`: cutting the pixels into rows of no bytes stops the encoder. */
  function Encode(w: u32, h: u32, px: seq<byte>, crc: seq<byte> -> u32, deflate: seq<byte> -> seq<byte>): Option<seq<byte>> {
    if w == 0 then None
    else Some(File([Header(w, h, 6, 0, 0), Chunk(IDAT, deflate(PlainRows(px, w * 4))), END], crc))
  }

  /** Inflating what was deflated gives it back, as long as it fits in the limit. */
  ghost predicate ZlibPair(deflate: seq<byte> -> seq<byte>, inflate: (seq<byte>, nat) -> Option<seq<byte>>) {
    forall d: seq<byte>, limit: nat :: |d| <= limit ==> inflate(deflate(d), limit) == Some(d)
  }

  /** A picture of legal size comes back from its encoding exactly if it has four bytes for each pixel. */
  lemma EncodeDecodes(w: nat, h: nat, px: seq<byte>, crc: seq<byte> -> u32, deflate: seq<byte> -> seq<byte>,
                      inflate: (seq<byte>, nat) -> Option<seq<byte>>)
    requires SideOk(w) && SideOk(h) && ZlibPair(deflate, inflate)
    requires |deflate(PlainRows(px, w * 4))| < 0x1_0000_0000
    ensures Encode(w, h, px, crc, deflate).Some?
    ensures Decode(Encode(w, h, px, crc, deflate).value, inflate) == Picture(w, h, px) <==> |px| == h * (w * 4)
  {
    if |px| == h * (w * 4) {
      EncodedDecodes(w, h, px, crc, deflate, inflate);
    } else {
      var png := Encode(w, h, px, crc, deflate).value;
      if Decode(png, inflate).Picture? {
        DecodeSize(png, inflate);
        WholePixels(w, h, 4);
        assert h * (w * 4) == h * w * 4;
      }
    }
  }

  lemma EncodedDecodes(w: nat, h: nat, px: seq<byte>, crc: seq<byte> -> u32, deflate: seq<byte> -> seq<byte>,
                       inflate: (seq<byte>, nat) -> Option<seq<byte>>)
    requires SideOk(w) && SideOk(h) && |px| == h * (w * 4) && ZlibPair(deflate, inflate)
    requires |deflate(PlainRows(px, w * 4))| < 0x1_0000_0000
    ensures Decode(Encode(w, h, px, crc, deflate).value, inflate) == Picture(w, h, px)
  {
    var filters := seq(h, i => 0);
    var raw := PlainRows(px, w * 4);
    var chunks := [Chunk(IDAT, deflate(raw))];
    PlainIsFilterNone(px, h, 4, w * 4, Zeros(w * 4));
    assert chunks[1..] == [];
    assert GatherAll(Gathered([], []), chunks, 6).idat == [] + deflate(raw) == deflate(raw);
    FileDecodes(w, h, 6, 0, 0, filters, px, chunks, crc, inflate);
    assert [Header(w, h, 6, 0, 0)] + chunks + [END]
        == [Header(w, h, 6, 0, 0), Chunk(IDAT, deflate(raw)), END];
    ExpandRgba([], px);
  }
}
