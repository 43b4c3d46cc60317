/** What the decoder makes of each octet: section 9 of ISO/IEC 15948 for the filters, and the places of the header, the
    colours, the palette and the chunks in the file. */
module PngMeaning {
  import opened Prelude
  import opened Png
  import Arith

  // ------------------------------------------------------------ filters

  ghost predicate AsNear(p: int, x: int, y: int) { Abs(p - x) <= Abs(p - y) }

  /** Of left, above and above left, whichever is nearest to left + above - above left; the earlier one of a tie. */
  ghost predicate Nearest(a: int, b: int, c: int, r: int) {
    var p := a + b - c;
    && (AsNear(p, a, b) && AsNear(p, a, c) ==> r == a)
    && (!(AsNear(p, a, b) && AsNear(p, a, c)) && AsNear(p, b, c) ==> r == b)
    && (!AsNear(p, a, c) && !AsNear(p, b, c) ==> r == c)
  }

  lemma PaethMeaning(a: byte, b: byte, c: byte)
    ensures Nearest(a, b, c, Paeth(a, b, c))
    ensures var p, r := a as int + b as int - c as int, Paeth(a, b, c);
      (r == a || r == b || r == c) && AsNear(p, r, a) && AsNear(p, r, b) && AsNear(p, r, c)
  {
  }

  /** Octet `x` of the row, with `a`, `b`, `c` the octets to the left, above, and above left. */
  ghost predicate Rebuilt(filter: nat, raw: int, a: int, b: int, c: int, out: int) {
    match filter
    case 0 => out == raw
    case 1 => out == (raw + a) % 256
    case 2 => out == (raw + b) % 256
    case 3 => out == (raw + (a + b) / 2) % 256
    case 4 => exists p :: Nearest(a, b, c, p) && out == (raw + p) % 256
    case _ => false
  }

  lemma {:induction false} RowRebuilt(filter: nat, bpp: nat, prev: seq<byte>, src: seq<byte>, x: nat)
    requires filter <= 4 && 0 < bpp && |prev| == |src| && x < |src|
    ensures var row := Unfilter(filter, bpp, prev, src, |src|);
      Rebuilt(filter, src[x], if x < bpp then 0 else row[x - bpp],
              prev[x], if x < bpp then 0 else prev[x - bpp], row[x])
  {
    var row := Unfilter(filter, bpp, prev, src, |src|);
    UnfilterGrows(filter, bpp, prev, src, x, |src|);
    UnfilterGrows(filter, bpp, prev, src, x + 1, |src|);
    var done := Unfilter(filter, bpp, prev, src, x);
    assert done == row[..x] && row[x] == Unfilter(filter, bpp, prev, src, x + 1)[x];
    var a, b, c := Left(done, x, bpp), prev[x], Left(prev, x, bpp);
    if filter == 4 {
      PaethMeaning(a, b, c);
      assert Nearest(a, b, c, Paeth(a, b, c)) && row[x] == (src[x] + Paeth(a, b, c)) % 256;
    }
  }

  // ------------------------------------------------------------ rows

  function Joined(rows: seq<seq<byte>>): seq<byte> {
    if rows == [] then [] else rows[0] + Joined(rows[1..])
  }

  /** Lines of a filter octet and `stride` others. */
  predicate LinesOk(lines: seq<seq<byte>>, stride: nat) {
    forall y :: 0 <= y < |lines| ==> |lines[y]| == stride + 1
  }

  lemma {:induction false} LinesLength(lines: seq<seq<byte>>, stride: nat)
    requires LinesOk(lines, stride)
    ensures |Joined(lines)| == |lines| * (stride + 1)
  {
    if lines != [] {
      LinesLength(lines[1..], stride);
      RowsThere(|lines|, stride + 1);
    }
  }

  ghost predicate RebuiltAt(line: seq<byte>, bpp: nat, above: seq<byte>, row: seq<byte>, x: nat)
    requires bpp > 0 && x < |row| == |above| && |line| == |row| + 1
  {
    Rebuilt(line[0], line[x + 1], if x < bpp then 0 else row[x - bpp],
            above[x], if x < bpp then 0 else above[x - bpp], row[x])
  }

  /** Row `y` is what the filter of its line makes of the line and of the row above, `prev` for the first. */
  ghost predicate RowFrom(lines: seq<seq<byte>>, bpp: nat, stride: nat, prev: seq<byte>, rows: seq<seq<byte>>, y: nat)
    requires bpp > 0 && |prev| == stride && y < |rows| == |lines| && LinesOk(lines, stride)
  {
    && lines[y][0] <= 4 && |Above(rows, prev, y)| == |rows[y]| == stride
    && forall x :: 0 <= x < stride ==> RebuiltAt(lines[y], bpp, Above(rows, prev, y), rows[y], x)
  }

  function Above(rows: seq<seq<byte>>, prev: seq<byte>, y: nat): seq<byte>
    requires y < |rows|
  {
    if y == 0 then prev else rows[y - 1]
  }

  lemma FirstRow(lines: seq<seq<byte>>, bpp: nat, stride: nat, prev: seq<byte>, rows: seq<seq<byte>>)
    requires bpp > 0 && |prev| == stride && 0 < |rows| == |lines| && LinesOk(lines, stride)
    requires lines[0][0] <= 4 && rows[0] == Unfilter(lines[0][0], bpp, prev, lines[0][1..], stride)
    ensures RowFrom(lines, bpp, stride, prev, rows, 0)
  {
    forall x | 0 <= x < stride ensures RebuiltAt(lines[0], bpp, prev, rows[0], x) {
      RowRebuilt(lines[0][0], bpp, prev, lines[0][1..], x);
    }
  }

  lemma RowBelow(lines: seq<seq<byte>>, bpp: nat, stride: nat, prev: seq<byte>, rows: seq<seq<byte>>, y: nat)
    requires bpp > 0 && |prev| == stride && 0 < y < |rows| == |lines| && LinesOk(lines, stride)
    requires LinesOk(lines[1..], stride) && |rows[0]| == stride
    requires RowFrom(lines[1..], bpp, stride, rows[0], rows[1..], y - 1)
    ensures RowFrom(lines, bpp, stride, prev, rows, y)
  {
    var t, below := lines[1..], rows[1..];
    assert lines[y] == t[y - 1] && rows[y] == below[y - 1];
    assert Above(below, rows[0], y - 1) == Above(rows, prev, y);
    forall x | 0 <= x < stride ensures RebuiltAt(lines[y], bpp, Above(rows, prev, y), rows[y], x) {
      assert RebuiltAt(t[y - 1], bpp, Above(below, rows[0], y - 1), below[y - 1], x);
    }
  }

  lemma FirstLine(lines: seq<seq<byte>>, stride: nat)
    requires LinesOk(lines, stride) && lines != []
    ensures var raw := Joined(lines);
      raw[0] == lines[0][0] && raw[1..stride + 1] == lines[0][1..] && raw[stride + 1..] == Joined(lines[1..])
  {
  }

  /** The data, cut into lines, are refused exactly if some line has an unknown filter. */
  lemma {:induction false} RowsRefused(lines: seq<seq<byte>>, bpp: nat, stride: nat, prev: seq<byte>)
    requires bpp > 0 && |prev| == stride && LinesOk(lines, stride) && |Joined(lines)| == |lines| * (stride + 1)
    ensures Reconstruct(Joined(lines), |lines|, bpp, stride, prev).None? <==> exists y :: 0 <= y < |lines| && lines[y][0] > 4
    decreases |lines|
  {
    if lines != [] {
      var t := lines[1..];
      FirstLine(lines, stride);
      if lines[0][0] <= 4 {
        LinesLength(t, stride);
        RowsRefused(t, bpp, stride, Unfilter(lines[0][0], bpp, prev, lines[0][1..], stride));
        if y :| 0 <= y < |t| && t[y][0] > 4 { assert lines[y + 1][0] > 4; }
      }
    }
  }

  /** If they are not, each row is rebuilt from its line and the row above it. */
  lemma {:induction false} RowsRebuilt(lines: seq<seq<byte>>, bpp: nat, stride: nat, prev: seq<byte>)
    returns (rows: seq<seq<byte>>)
    requires bpp > 0 && |prev| == stride && LinesOk(lines, stride) && |Joined(lines)| == |lines| * (stride + 1)
    requires Reconstruct(Joined(lines), |lines|, bpp, stride, prev).Some?
    ensures Reconstruct(Joined(lines), |lines|, bpp, stride, prev).value == Joined(rows) && |rows| == |lines|
    ensures forall y :: 0 <= y < |rows| ==> RowFrom(lines, bpp, stride, prev, rows, y)
    decreases |lines|
  {
    rows := [];
    if lines != [] {
      var t := lines[1..];
      FirstLine(lines, stride);
      LinesLength(t, stride);
      var cur := Unfilter(lines[0][0], bpp, prev, lines[0][1..], stride);
      var below := RowsRebuilt(t, bpp, stride, cur);
      rows := [cur] + below;
      assert rows[1..] == below;
      FirstRow(lines, bpp, stride, prev, rows);
      forall y | 0 < y < |rows| ensures RowFrom(lines, bpp, stride, prev, rows, y) {
        RowBelow(lines, bpp, stride, prev, rows, y);
      }
    }
  }

  // ------------------------------------------------------------ pixels

  /** Red, green, blue and alpha of a pixel whose octets are `p`. */
  ghost predicate PixelOf(color: byte, palette: seq<Colour>, p: seq<byte>, px: seq<byte>) {
    && |px| == 4
    && match color
       case 0 => |p| == 1 && px[0] == px[1] == px[2] == p[0] && px[3] == 255
       case 2 => |p| == 3 && px[0] == p[0] && px[1] == p[1] && px[2] == p[2] && px[3] == 255
       case 3 => |p| == 1 && p[0] < |palette| && px[0] == palette[p[0]].r && px[1] == palette[p[0]].g
                 && px[2] == palette[p[0]].b && px[3] == palette[p[0]].a
       case 4 => |p| == 2 && px[0] == px[1] == px[2] == p[0] && px[3] == p[1]
       case 6 => |p| == 4 && px[0] == p[0] && px[1] == p[1] && px[2] == p[2] && px[3] == p[3]
       case _ => false
  }

  lemma PixelMeaning(color: byte, palette: seq<Colour>, p: seq<byte>)
    requires KnownColour(color) && |p| == Channels(color) && Pixel(color, palette, p).Some?
    ensures PixelOf(color, palette, p, Pixel(color, palette, p).value)
  {
  }

  ghost predicate PixelsOf(color: byte, palette: seq<Colour>, ps: seq<seq<byte>>, pxs: seq<seq<byte>>) {
    |ps| == |pxs| && forall i :: 0 <= i < |ps| ==> PixelOf(color, palette, ps[i], pxs[i])
  }

  lemma LessOne(k: nat, n: nat)
    requires n > 0 && k % n == 0 && k > 0
    ensures k >= n && (k - n) % n == 0
  {
    var q := k / n;
    assert k == n * q;
    Arith.MulBig(n, q);
    assert k - n == n * (q - 1);
    Arith.DivModIs(k - n, q - 1, 0, n);
  }

  /** Each pixel of a picture is its own octets' colour. */
  lemma {:induction false} PixelsMeaning(color: byte, palette: seq<Colour>, rows: seq<byte>)
    returns (ps: seq<seq<byte>>, pxs: seq<seq<byte>>)
    requires KnownColour(color) && |rows| % Channels(color) == 0 && Expand(color, palette, rows).Some?
    ensures PixelsOf(color, palette, ps, pxs) && Joined(ps) == rows && Joined(pxs) == Expand(color, palette, rows).value
    decreases |rows|
  {
    ps, pxs := [], [];
    if rows != [] {
      var n := Channels(color);
      LessOne(|rows|, n);
      var p, q := PixelsMeaning(color, palette, rows[n..]);
      PixelMeaning(color, palette, rows[..n]);
      ps, pxs := [rows[..n]] + p, [Pixel(color, palette, rows[..n]).value] + q;
      assert ps[1..] == p && pxs[1..] == q && rows[..n] + rows[n..] == rows;
    }
  }

  // ------------------------------------------------------------ chunks

  /** Three octets an entry, red first, opaque; one or two octets too many are left out. */
  lemma {:induction false} PaletteMeaning(data: seq<byte>, i: nat)
    ensures 3 * |Palette(data)| <= |data| < 3 * |Palette(data)| + 3
    ensures i < |Palette(data)| ==> Palette(data)[i] == Colour(data[3 * i], data[3 * i + 1], data[3 * i + 2], 255)
  {
    if |data| >= 3 { PaletteMeaning(data[3..], if i == 0 then 0 else i - 1); }
  }

  /** What each chunk adds: image data go behind those before, a palette replaces the one before, and alphas are set for
      the first entries, in palette pictures only. */
  lemma GatherMeaning(g: Gathered, kind: seq<byte>, data: seq<byte>, color: byte)
    ensures var h := Gather(g, kind, data, color);
      && (kind == [0x49, 0x44, 0x41, 0x54] ==> h.idat == g.idat + data && h.palette == g.palette)
      && (kind != [0x49, 0x44, 0x41, 0x54] ==> h.idat == g.idat)
      && (kind == [0x50, 0x4c, 0x54, 0x45] ==> h.palette == Palette(data))
      && (kind == [0x74, 0x52, 0x4e, 0x53] && color == 3 ==>
            && |h.palette| == |g.palette|
            && forall i :: 0 <= i < |h.palette| ==>
                 && h.palette[i].(a := 0) == g.palette[i].(a := 0)
                 && h.palette[i].a == if i < |data| then data[i] else g.palette[i].a)
      && (kind == [0x74, 0x52, 0x4e, 0x53] && color != 3 ==> h == g)
      && (kind !in {[0x49, 0x44, 0x41, 0x54], [0x50, 0x4c, 0x54, 0x45], [0x74, 0x52, 0x4e, 0x53]} ==> h == g)
  {
    assert IDAT[0] == 0x49 && PLTE[0] == 0x50 && TRNS[0] == 0x74;
  }

  /** The highest octet first. */
  function Number(a: int, b: int, c: int, d: int): int { ((a * 256 + b) * 256 + c) * 256 + d }

  /** A written chunk: its length, kind, data, and the checksum of kind and data. */
  lemma ChunkMeaning(c: Chunk, crc: seq<byte> -> u32)
    requires ChunkOk(c)
    ensures var b, n := ChunkBytes(c, crc), |c.data|;
      && |b| == 12 + n && Number(b[0], b[1], b[2], b[3]) == n && b[4..8] == c.kind && b[8..8 + n] == c.data
      && Number(b[8 + n], b[9 + n], b[10 + n], b[11 + n]) == crc(c.kind + c.data)
  {
    var n := |c.data|;
    Be32Inverts(n);
    Be32Inverts(crc(c.kind + c.data));
    assert n % 0x1_0000_0000 == n;
    assert ChunkBytes(c, crc)[8..8 + n] == c.data;
  }

  /** Behind whole chunks, a chunk that says it is longer than the file is refused, and fewer than eight octets are
      nothing. */
  lemma {:induction false} BrokenTail(cs: seq<Chunk>, tail: seq<byte>, color: byte, g: Gathered, crc: seq<byte> -> u32)
    requires ChunksOk(cs)
    ensures |tail| < 8 ==> WalkRest(ChunksBytes(cs, crc) + tail, color, g) == Some(GatherAll(g, cs, color))
    ensures |tail| >= 8 && Number(tail[0], tail[1], tail[2], tail[3]) > |tail| - 8 ==>
              WalkRest(ChunksBytes(cs, crc) + tail, color, g) == None
    decreases |cs|
  {
    if cs == [] {
      assert ChunksBytes(cs, crc) + tail == tail;
    } else {
      var after := ChunksBytes(cs[1..], crc) + tail;
      assert ChunksBytes(cs, crc) + tail == ChunkBytes(cs[0], crc) + after;
      ChunkIsNext(cs[0], after, crc);
      BrokenTail(cs[1..], tail, color, Gather(g, cs[0].kind, cs[0].data, color), crc);
    }
  }

  // ------------------------------------------------------------ header

  ghost predicate Starts(png: seq<byte>) {
    && |png| >= 24
    && png[..8] == [0x89, 0x50, 0x4e, 0x47, 0x0d, 0x0a, 0x1a, 0x0a] && png[12..16] == [0x49, 0x48, 0x44, 0x52]
  }

  /** What is wrong with a header, and in which order it is found. */
  lemma HeaderMeaning(png: seq<byte>, inflate: (seq<byte>, nat) -> Option<seq<byte>>)
    ensures !Starts(png) ==> Decode(png, inflate) == Refused(NotPng)
    ensures Starts(png) ==>
              var w, h := Number(png[16], png[17], png[18], png[19]), Number(png[20], png[21], png[22], png[23]);
              var d := Decode(png, inflate);
              && Size(png) == Some((w, h))
              && (w < 1 || w > 512 || h < 1 || h > 512 <==> d == Refused(TooLarge))
              && (1 <= w <= 512 && 1 <= h <= 512 && |png| >= 29 ==>
                    && (png[24] != 8 || png[28] != 0 <==> d == Refused(Unsupported))
                    && (png[24] == 8 && png[28] == 0 && png[25] !in {0, 2, 3, 4, 6} <==> d == Refused(UnknownColour)))
              && (d.Picture? ==> d.w == w && d.h == h)
  {
  }

  /** What is wrong with the image data; `n` octets make a pixel. */
  lemma DataMeaning(w: nat, h: nat, color: byte, g: Gathered, inflate: (seq<byte>, nat) -> Option<seq<byte>>, n: nat)
    requires SideOk(w) && SideOk(h) && KnownColour(color)
    requires n == match color case 2 => 3 case 4 => 2 case 6 => 4 case _ => 1
    ensures var want, d := h * (w * n + 1), DecodeData(w, h, color, g, inflate);
      && (inflate(g.idat, want) == None <==> d == Refused(BrokenData))
      && (inflate(g.idat, want).Some? && |inflate(g.idat, want).value| != want <==> d == Refused(WrongSize))
  {
  }

  /** The encoder writes the sides, eight bits, true colour with alpha, and zeros for the three methods. */
  lemma EncodedHeader(w: u32, h: u32, px: seq<byte>, crc: seq<byte> -> u32, deflate: seq<byte> -> seq<byte>)
    requires w > 0
    ensures Encode(w, h, px, crc, deflate).Some?
    ensures var f := Encode(w, h, px, crc, deflate).value;
      && Starts(f) && |f| >= 33 && Number(f[8], f[9], f[10], f[11]) == 13
      && Number(f[16], f[17], f[18], f[19]) == w && Number(f[20], f[21], f[22], f[23]) == h
      && f[24] == 8 && f[25] == 6 && f[26] == f[27] == f[28] == 0
  {
    var data := Chunk(IDAT, deflate(PlainRows(px, w * 4)));
    var header := Header(w, h, 6, 0, 0);
    assert [header, data, END][1..] == [data, END];
    HeaderOctets(w, h, ChunksBytes([data, END], crc), crc);
  }

  lemma HeaderOctets(w: u32, h: u32, rest: seq<byte>, crc: seq<byte> -> u32)
    ensures var f := SIGNATURE + (ChunkBytes(Header(w, h, 6, 0, 0), crc) + rest);
      && Starts(f) && |f| >= 33 && Number(f[8], f[9], f[10], f[11]) == 13
      && Number(f[16], f[17], f[18], f[19]) == w && Number(f[20], f[21], f[22], f[23]) == h
      && f[24] == 8 && f[25] == 6 && f[26] == f[27] == f[28] == 0
  {
    var header := Header(w, h, 6, 0, 0);
    var b := ChunkBytes(header, crc);
    ChunkMeaning(header, crc);
    Placed(b, rest);
    Be32Inverts(w);
    Be32Inverts(h);
    var d := b[8..21];
    assert d == header.data;
    assert d[0..4] == Be32(w) && d[4..8] == Be32(h);
    assert forall i :: 0 <= i < 13 ==> b[8 + i] == d[i];
  }

  /** The octets of the first chunk follow the signature. */
  lemma Placed(b: seq<byte>, rest: seq<byte>)
    requires |b| >= 25
    ensures var f := SIGNATURE + (b + rest);
      f[..8] == SIGNATURE && f[12..16] == b[4..8] && forall i :: 0 <= i < 25 ==> f[8 + i] == b[i]
  {
  }
}
