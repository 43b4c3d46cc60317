/** The decoder and the encoder as they are: loops that fill rows and append to buffers. */
module PngLoop {
  import opened Prelude
  import opened Png
  import Arith

  /** One row, filled from the left; false for an unknown filter. */
  method UnfilterInto(filter: byte, bpp: nat, prev: array<byte>, src: seq<byte>, cur: array<byte>) returns (ok: bool)
    requires 0 < bpp && prev.Length == |src| == cur.Length && 0 < |src| && prev != cur
    modifies cur
    ensures ok <==> filter <= 4
    ensures ok ==> cur[..] == Unfilter(filter, bpp, prev[..], src, |src|)
  {
    var x := 0;
    while x < |src|
      invariant 0 <= x <= |src| && (x > 0 ==> filter <= 4)
      invariant filter <= 4 ==> cur[..x] == Unfilter(filter, bpp, prev[..], src, x)
    {
      var a, b, c := 0, prev[x], 0;
      if x >= bpp {
        a, c := cur[x - bpp], prev[x - bpp];
      }
      if filter > 4 {
        return false;
      }
      ghost var done := cur[..x];
      assert a == Left(done, x, bpp) && c == Left(prev[..], x, bpp);
      cur[x] := (src[x] + Predict(filter, a, b, c)) % 256;
      assert cur[..x + 1] == done + [cur[x]];
      x := x + 1;
    }
    assert cur[..x] == cur[..];
    ok := true;
  }

  /** All rows. */
  method ReconstructRows(raw: seq<byte>, h: nat, bpp: nat, stride: nat) returns (r: Option<seq<byte>>)
    requires 0 < bpp && 0 < stride && |raw| == h * (stride + 1)
    ensures r == Reconstruct(raw, h, bpp, stride, Zeros(stride))
  {
    var rows: seq<byte> := [];
    var prev := new byte[stride](i => 0);
    assert prev[..] == Zeros(stride);
    var y := 0;
    ghost var all := Reconstruct(raw, h, bpp, stride, Zeros(stride));
    assert raw[0..] == raw;
    PrependNothing(all);
    ghost var at := 0;
    while y < h
      invariant 0 <= y <= h && prev.Length == stride && at == y * (stride + 1)
      invariant RowsDone(raw, all, at, h - y, bpp, stride, rows, prev[..])
    {
      Succ(y, stride + 1);
      RowLies(raw, all, at, h - y, bpp, stride, rows, prev[..]);
      var filter := raw[y * (stride + 1)];
      var src := raw[y * (stride + 1) + 1..(y + 1) * (stride + 1)];
      var cur := new byte[stride](i => 0);
      var ok := UnfilterInto(filter, bpp, prev, src, cur);
      OneRowMore(raw, all, at, h - y, bpp, stride, rows, prev[..]);
      if !ok {
        return None;
      }
      rows := rows + cur[..];
      prev := cur;
      at := at + stride + 1;
      y := y + 1;
    }
    assert rows + [] == rows;
    r := Some(rows);
  }

  /** The rows before `at`, and what the `k` rows from there on will add to make `all`. */
  ghost predicate RowsDone(raw: seq<byte>, all: Option<seq<byte>>, at: nat, k: nat, bpp: nat, stride: nat, rows: seq<byte>,
                           above: seq<byte>)
    requires 0 < bpp
  {
    && at <= |raw| && |raw| - at == k * (stride + 1) && |above| == stride
    && all == Prepend(rows, Reconstruct(raw[at..], k, bpp, stride, above))
  }

  lemma RowLies(raw: seq<byte>, all: Option<seq<byte>>, at: nat, k: nat, bpp: nat, stride: nat, rows: seq<byte>,
                above: seq<byte>)
    requires 0 < bpp && k > 0 && RowsDone(raw, all, at, k, bpp, stride, rows, above)
    ensures at + stride + 1 <= |raw|
  {
    RowsThere(k, stride + 1);
  }

  lemma OneRowMore(raw: seq<byte>, all: Option<seq<byte>>, at: nat, k: nat, bpp: nat, stride: nat, rows: seq<byte>,
                   above: seq<byte>)
    requires 0 < bpp && k > 0 && RowsDone(raw, all, at, k, bpp, stride, rows, above) && at + stride + 1 <= |raw|
    ensures var filter, src := raw[at], raw[at + 1..at + stride + 1];
      if filter > 4 then all == None
      else var cur := Unfilter(filter, bpp, above, src, stride);
           RowsDone(raw, all, at + stride + 1, k - 1, bpp, stride, rows + cur, cur)
  {
    NextRow(raw, at, k, bpp, stride, above);
    if raw[at] <= 4 {
      var cur := Unfilter(raw[at], bpp, above, raw[at + 1..at + stride + 1], stride);
      PrependTwice(rows, cur, Reconstruct(raw[at + stride + 1..], k - 1, bpp, stride, cur));
    }
  }

  /** Where the next of `k` rows lies, and what is left after it. */
  lemma NextRow(raw: seq<byte>, at: nat, k: nat, bpp: nat, stride: nat, above: seq<byte>)
    requires 0 < bpp && |above| == stride && k > 0 && at <= |raw| && |raw| - at == k * (stride + 1)
    ensures at + stride + 1 <= |raw| && |raw| - (at + stride + 1) == (k - 1) * (stride + 1)
    ensures var filter, src := raw[at], raw[at + 1..at + stride + 1];
      Reconstruct(raw[at..], k, bpp, stride, above)
      == if filter > 4 then None
         else var cur := Unfilter(filter, bpp, above, src, stride);
              Prepend(cur, Reconstruct(raw[at + stride + 1..], k - 1, bpp, stride, cur))
  {
    RowsThere(k, stride + 1);
    var left := raw[at..];
    assert left[1..stride + 1] == raw[at + 1..at + stride + 1];
    Cut(raw, at, stride + 1);
  }

  lemma Succ(k: nat, n: nat)
    ensures (k + 1) * n == k * n + n && k * n >= 0
  {
  }

  lemma Cut<T>(s: seq<T>, at: nat, n: nat)
    requires at + n <= |s|
    ensures s[at..][n..] == s[at + n..] && s[at..][..n] == s[at..at + n]
  {
  }

  lemma PrependNothing<T>(r: Option<seq<T>>)
    ensures Prepend([], r) == r
  {
    if r.Some? { assert [] + r.value == r.value; }
  }

  lemma PrependTwice<T>(a: seq<T>, b: seq<T>, r: Option<seq<T>>)
    ensures Prepend(a, Prepend(b, r)) == Prepend(a + b, r)
  {
    if r.Some? { assert a + (b + r.value) == a + b + r.value; }
  }

  /** The palette of a `PLTE` chunk. */
  method ReadPalette(data: seq<byte>) returns (palette: seq<Colour>)
    ensures palette == Palette(data)
  {
    palette := [];
    var i := 0;
    ghost var left := data;
    while i + 3 <= |data|
      invariant 0 <= i <= |data| && left == data[i..] && palette + Palette(left) == Palette(data)
    {
      var c := Colour(data[i], data[i + 1], data[i + 2], 255);
      assert left[0] == data[i] && left[1] == data[i + 1] && left[2] == data[i + 2];
      NextColour(palette, c, left);
      palette := palette + [c];
      left := left[3..];
      i := i + 3;
    }
    assert palette + [] == palette;
  }

  lemma NextColour(palette: seq<Colour>, c: Colour, left: seq<byte>)
    requires |left| >= 3 && c == Colour(left[0], left[1], left[2], 255)
    ensures palette + Palette(left) == palette + [c] + Palette(left[3..])
  {
    Assoc(palette, [c], Palette(left[3..]));
  }

  /** The alphas of a `tRNS` chunk. */
  method ReadAlphas(was: seq<Colour>, data: seq<byte>) returns (palette: seq<Colour>)
    ensures palette == SetAlphas(was, data)
  {
    palette := was;
    var i := 0;
    while i < |data|
      invariant 0 <= i <= |data| && |palette| == |was|
      invariant forall j :: 0 <= j < |was| ==> palette[j] == if j < i then was[j].(a := data[j]) else was[j]
    {
      if i < |palette| {
        palette := palette[i := palette[i].(a := data[i])];
      }
      i := i + 1;
    }
  }

  /** The chunk walk; `None`: a chunk runs past the end. */
  method WalkFile(png: seq<byte>, color: byte) returns (r: Option<Gathered>)
    ensures r == Walk(png, 8, color, Gathered([], []))
  {
    var pos := 8;
    var idat: seq<byte> := [];
    var palette: seq<Colour> := [];
    ghost var all := Walk(png, 8, color, Gathered([], []));
    while pos + 8 <= |png|
      invariant WalksOn(png, pos, color, Gathered(idat, palette), all)
      decreases |png| - pos
    {
      var len := FromBe32(png[pos..pos + 4]);
      var kind := png[pos + 4..pos + 8];
      if pos + 8 + len > |png| {
        return None;
      }
      var data := png[pos + 8..pos + 8 + len];
      WalksFurther(png, pos, Chunk(kind, data), color, Gathered(idat, palette), all);
      if kind == IEND {
        break;
      }
      if kind == IDAT {
        idat := idat + data;
      } else if kind == PLTE {
        palette := ReadPalette(data);
      } else if kind == TRNS && color == 3 {
        palette := ReadAlphas(palette, data);
      }
      pos := pos + 12 + len;
    }
    r := Some(Gathered(idat, palette));
  }

  /** The walk from `pos` on will end with `all`. */
  ghost predicate WalksOn(png: seq<byte>, pos: nat, color: byte, g: Gathered, all: Option<Gathered>) {
    Walk(png, pos, color, g) == all
  }

  lemma WalksFurther(png: seq<byte>, pos: nat, c: Chunk, color: byte, g: Gathered, all: Option<Gathered>)
    requires WalksOn(png, pos, color, g, all) && PlaceAt(png, pos) == Whole(c)
    ensures if c.kind == IEND then all == Some(g)
            else WalksOn(png, pos + 12 + |c.data|, color, Gather(g, c.kind, c.data, color), all)
  {
  }

  /** The pixels as RGBA; `None`: not in the palette. */
  method ExpandRows(color: byte, palette: seq<Colour>, rows: seq<byte>) returns (r: Option<seq<byte>>)
    requires KnownColour(color) && |rows| % Channels(color) == 0
    ensures r == Expand(color, palette, rows)
  {
    var n := Channels(color);
    var px: seq<byte> := [];
    var i := 0;
    ghost var left := rows;
    PrependNothing(Expand(color, palette, rows));
    while i < |rows|
      invariant 0 <= i <= |rows| && left == rows[i..] && |left| % n == 0
      invariant Expand(color, palette, rows) == Prepend(px, Expand(color, palette, left))
    {
      PixelsLeft(|left|, n);
      Cut(rows, i, n);
      var q := Pixel(color, palette, rows[i..i + n]);
      if q.None? {
        return None;
      }
      PrependTwice(px, q.value, Expand(color, palette, left[n..]));
      px := px + q.value;
      left := left[n..];
      i := i + n;
    }
    assert px + [] == px;
    r := Some(px);
  }

  lemma PixelsLeft(len: nat, n: nat)
    requires n > 0 && len > 0 && len % n == 0
    ensures len >= n && (len - n) % n == 0
  {
    var q := len / n;
    assert len == n * q;
    Arith.MulBig(n, q);
    assert len - n == n * (q - 1);
    Arith.DivModIs(len - n, q - 1, 0, n);
  }

  method DecodePng(png: seq<byte>, inflate: (seq<byte>, nat) -> Option<seq<byte>>) returns (r: Outcome)
    ensures r == Decode(png, inflate)
  {
    var size := Size(png);
    if size.None? {
      return Refused(NotPng);
    }
    var (w, h) := size.value;
    if w == 0 || h == 0 || w > MAX_SIDE || h > MAX_SIDE {
      return Refused(TooLarge);
    }
    if |png| < 29 {
      return Fault;
    }
    var depth, color, interlace := png[24], png[25], png[28];
    if depth != 8 || interlace != 0 {
      return Refused(Unsupported);
    }
    if !KnownColour(color) {
      return Refused(UnknownColour);
    }
    var g := WalkFile(png, color);
    if g.None? {
      return Refused(PastEnd);
    }
    r := DecodeGathered(w, h, color, g.value, inflate);
  }

  method DecodeGathered(w: nat, h: nat, color: byte, g: Gathered, inflate: (seq<byte>, nat) -> Option<seq<byte>>)
    returns (r: Outcome)
    requires SideOk(w) && SideOk(h) && KnownColour(color)
    ensures r == DecodeData(w, h, color, g, inflate)
  {
    var n := Channels(color);
    var stride := w * n;
    var want := h * (stride + 1);
    var raw := inflate(g.idat, want);
    if raw.None? {
      return Refused(BrokenData);
    }
    if |raw.value| != want {
      return Refused(WrongSize);
    }
    assert stride > 0;
    var rows := ReconstructRows(raw.value, h, n, stride);
    if rows.None? {
      return Refused(UnknownFilter);
    }
    WholePixels(w, h, n);
    var px := ExpandRows(color, g.palette, rows.value);
    if px.None? {
      return Refused(PaletteRange);
    }
    r := Picture(w, h, px.value);
  }

  lemma Assoc<T>(a: seq<T>, b: seq<T>, c: seq<T>)
    ensures a + b + c == a + (b + c)
  {
  }

  method AppendChunk(out: seq<byte>, c: Chunk, crc: seq<byte> -> u32) returns (r: seq<byte>)
    ensures r == out + ChunkBytes(c, crc)
  {
    r := out + Be32(|c.data| % 0x1_0000_0000);
    var body := c.kind + c.data;
    r := r + body;
    r := r + Be32(crc(body));
    Assoc(c.kind, c.data, Be32(crc(body)));
  }

  /** A zero byte and the row, for every row. */
  method PlainInto(px: seq<byte>, stride: nat) returns (raw: seq<byte>)
    requires stride > 0
    ensures raw == PlainRows(px, stride)
  {
    raw := [];
    var i := 0;
    assert px[0..] == px;
    while i < |px|
      invariant i <= |px| && raw + PlainRows(px[i..], stride) == PlainRows(px, stride)
    {
      var row := if |px| - i <= stride then px[i..] else px[i..i + stride];
      if |px| - i > stride {
        Cut(px, i, stride);
        AppendRow(raw, row, PlainRows(px[i + stride..], stride));
      } else {
        AppendRow(raw, row, []);
      }
      raw := raw + [0] + row;
      i := i + |row|;
    }
    assert raw + [] == raw;
  }

  lemma AppendRow(raw: seq<byte>, row: seq<byte>, rest: seq<byte>)
    ensures raw + ([0] + row + rest) == raw + [0] + row + rest
    ensures raw + ([0] + row) == raw + [0] + row + []
  {
  }

  method EncodePng(w: u32, h: u32, px: seq<byte>, crc: seq<byte> -> u32, deflate: seq<byte> -> seq<byte>)
    returns (out: Option<seq<byte>>)
    ensures out == Encode(w, h, px, crc, deflate)
  {
    if w == 0 {
      return None;
    }
    var raw := PlainInto(px, w * 4);
    var header, data, end := Header(w, h, 6, 0, 0), Chunk(IDAT, deflate(raw)), Chunk(IEND, []);
    var png := AppendChunk(SIGNATURE, header, crc);
    png := AppendChunk(png, data, crc);
    png := AppendChunk(png, end, crc);
    ThreeChunks(header, data, end, crc);
    out := Some(png);
  }

  lemma ThreeChunks(a: Chunk, b: Chunk, c: Chunk, crc: seq<byte> -> u32)
    ensures SIGNATURE + ChunkBytes(a, crc) + ChunkBytes(b, crc) + ChunkBytes(c, crc) == File([a, b, c], crc)
  {
    var x, y, z := ChunkBytes(a, crc), ChunkBytes(b, crc), ChunkBytes(c, crc);
    assert [a, b, c][1..] == [b, c] && [b, c][1..] == [c] && [c][1..] == [];
    assert ChunksBytes([c], crc) == z;
    assert ChunksBytes([b, c], crc) == y + z;
    assert ChunksBytes([a, b, c], crc) == x + (y + z);
    Assoc(SIGNATURE, x, y + z);
    Assoc(SIGNATURE + x, y, z);
  }
}
