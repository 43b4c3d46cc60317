/** Screen text with scrollback (`screen.rs`): scroll detection by comparing snapshots, and stable line indices. */
module Screen {
  import opened Prelude

  const CAP := 20000
  const HEADER := 64
  const MAGIC := 0xFB01

  /** `rows[0]` has absolute index `base`, `scrollback[0]` has `firstAbs`. */
  datatype View = View(w: nat, h: nat, rows: seq<string>, cursor: (nat, nat), visible: bool, scrollback: seq<string>,
                       base: nat, firstAbs: nat, lastDirty: Option<nat>, lost: nat, version: nat)

  const BLANK := View(0, 0, [], (0, 0), true, [], 0, 0, None, 0, 0)

  /** What one framebuffer holds. */
  datatype Shot = Shot(w: nat, h: nat, cx: nat, cy: nat, visible: bool, dirty: nat, rows: seq<string>)

  // ------------------------------------------------------------ reading the framebuffer

  function U16(b: seq<byte>, at: nat): nat
    requires at + 1 < |b|
  {
    b[at] + b[at + 1] as int * 256
  }

  function CellChar(b: byte): char {
    if 0x20 <= b <= 0x7e then b as char else ' '
  }

  function TrimEnd(s: string): string {
    if s == "" || s[|s| - 1] != ' ' then s else TrimEnd(s[..|s| - 1])
  }

  lemma CellInside(w: nat, h: nat, y: nat, x: nat)
    requires y < h && x < w
    ensures 0 <= (y * w + x) * 4 && (y * w + x) * 4 + 4 <= w * h * 4
  {
    var d := h - 1 - y;
    assert d * w >= 0;
    Three(y, d, w);
  }

  lemma Three(y: int, d: int, w: int)
    ensures w * (y + 1 + d) == y * w + w + d * w
  {
  }

  function RowText(fb: seq<byte>, w: nat, h: nat, y: nat): string
    requires y < h && HEADER + w * h * 4 <= |fb|
  {
    TrimEnd(RowChars(fb, w, h, y, w))
  }

  function RowChars(fb: seq<byte>, w: nat, h: nat, y: nat, n: nat): (r: string)
    requires y < h && n <= w && HEADER + w * h * 4 <= |fb|
    ensures |r| == n
  {
    if n == 0 then ""
    else
      CellInside(w, h, y, n - 1);
      RowChars(fb, w, h, y, n - 1) + [CellChar(fb[HEADER + (y * w + (n - 1)) * 4])]
  }

  /** `None`: not a complete framebuffer. */
  function Snapshot(fb: seq<byte>): Option<Shot> {
    if |fb| < HEADER || U16(fb, 0) != MAGIC then None
    else
      var w, h := U16(fb, 2), U16(fb, 4);
      if w == 0 || h == 0 || HEADER + w * h * 4 > |fb| then None
      else Some(Shot(w, h, U16(fb, 6), U16(fb, 8), fb[10] != 0, U16(fb, 12) + U16(fb, 14) * 0x1_0000,
                     seq(h, y requires 0 <= y < h => RowText(fb, w, h, y))))
  }

  lemma {:induction false} TrimMeaning(s: string)
    ensures var t := TrimEnd(s);
      && |t| <= |s| && t == s[..|t|] && (t != "" ==> t[|t| - 1] != ' ') && forall x :: |t| <= x < |s| ==> s[x] == ' '
  {
    if s != "" && s[|s| - 1] == ' ' { TrimMeaning(s[..|s| - 1]); }
  }

  /** Where the octet of the cell in column `x` of row `y` is. */
  function CellAt(w: nat, y: nat, x: nat): int { 64 + 4 * (w * y + x) }

  lemma {:induction false} CharsMeaning(fb: seq<byte>, w: nat, h: nat, y: nat, n: nat, x: nat)
    requires x < n <= w && y < h && HEADER + w * h * 4 <= |fb|
    ensures 0 <= CellAt(w, y, x) < |fb|
    ensures RowChars(fb, w, h, y, n)[x] == CellChar(fb[CellAt(w, y, x)])
  {
    CellInside(w, h, y, x);
    if x < n - 1 { CharsMeaning(fb, w, h, y, n - 1, x); }
  }

  /** The cell shows `c`: a printable ASCII character, or else a blank. */
  ghost predicate Shows(fb: seq<byte>, at: int, c: char) {
    0 <= at < |fb| && if fb[at] < 32 || fb[at] > 126 then c == ' ' else c as int == fb[at]
  }

  /** `text` is what row `y` shows, without the blanks at its end. */
  ghost predicate ShowsRow(fb: seq<byte>, w: nat, y: nat, text: string) {
    && |text| <= w && (text != "" ==> text[|text| - 1] != ' ')
    && forall x: nat :: x < w ==> Shows(fb, CellAt(w, y, x), if x < |text| then text[x] else ' ')
  }

  lemma RowMeaning(fb: seq<byte>, w: nat, h: nat, y: nat)
    requires y < h && HEADER + w * h * 4 <= |fb|
    ensures ShowsRow(fb, w, y, RowText(fb, w, h, y))
  {
    var chars := RowChars(fb, w, h, y, w);
    TrimMeaning(chars);
    var text := RowText(fb, w, h, y);
    forall x: nat | x < w ensures Shows(fb, CellAt(w, y, x), if x < |text| then text[x] else ' ') {
      CharsMeaning(fb, w, h, y, w, x);
    }
  }

  /** A framebuffer starts with its mark, width, height, cursor, visibility and counter, low octets first, and has
      four octets for each cell; anything else shows nothing. */
  lemma SnapshotMeaning(fb: seq<byte>)
    ensures Snapshot(fb).Some? <==>
              && |fb| >= 64 && fb[0] == 0x01 && fb[1] == 0xFB
              && var w, h := fb[2] as int + 256 * fb[3] as int, fb[4] as int + 256 * fb[5] as int;
                 w > 0 && h > 0 && 64 + w * h * 4 <= |fb|
    ensures Snapshot(fb).Some? ==>
              var s := Snapshot(fb).value;
              && s.w == fb[2] as int + 256 * fb[3] as int && s.h == fb[4] as int + 256 * fb[5] as int
              && s.cx == fb[6] as int + 256 * fb[7] as int && s.cy == fb[8] as int + 256 * fb[9] as int
              && (s.visible <==> fb[10] > 0)
              && s.dirty == fb[12] as int + 0x100 * fb[13] as int + 0x1_0000 * fb[14] as int + 0x100_0000 * fb[15] as int
              && |s.rows| == s.h && forall y :: 0 <= y < s.h ==> ShowsRow(fb, s.w, y, s.rows[y])
  {
    if Snapshot(fb).Some? {
      var s := Snapshot(fb).value;
      forall y | 0 <= y < s.h ensures ShowsRow(fb, s.w, y, s.rows[y]) { RowMeaning(fb, s.w, s.h, y); }
    }
  }

  // ------------------------------------------------------------ scroll detection

  /** The rows above row `c` moved up by `k` and are otherwise unchanged. */
  predicate Shifted(was: seq<string>, now: seq<string>, c: nat, k: nat)
    requires k <= c < |was| && |now| == |was|
  {
    was[k..c] == now[..c - k]
  }

  function Min(a: nat, b: nat): nat { if a < b then a else b }

  /** The least shift from `k` on, below `c`. */
  function LeastShift(was: seq<string>, now: seq<string>, c: nat, k: nat): (r: nat)
    requires k <= c < |was| && |now| == |was|
    ensures k <= r <= c && (r < c ==> Shifted(was, now, c, r))
    ensures forall j :: k <= j < r ==> !Shifted(was, now, c, j)
    decreases c - k
  {
    if k == c || Shifted(was, now, c, k) then k else LeastShift(was, now, c, k + 1)
  }

  function ScrollOffset(was: seq<string>, now: seq<string>, cursor: nat): nat
    requires |now| == |was|
  {
    if |was| == 0 || was == now then 0
    else
      var c := Min(cursor, |was| - 1);
      if was[..c] == now[..c] then 0
      else
        var k := LeastShift(was, now, c, 1);
        if k < c then k
        else if c > 0 && was[c] != "" && was[c] <= now[0] then c
        else c + 1
  }

  /** A real scroll by less than the cursor's row is never overestimated, and found exactly unless a smaller shift
      (or none at all) looks the same. */
  lemma ScrollDetected(was: seq<string>, now: seq<string>, cursor: nat, k: nat)
    requires |now| == |was| > 0 && 1 <= k < Min(cursor, |was| - 1) && Shifted(was, now, Min(cursor, |was| - 1), k)
    ensures ScrollOffset(was, now, cursor) <= k
    ensures var c := Min(cursor, |was| - 1);
      ScrollOffset(was, now, cursor) == k <==> forall j :: 0 <= j < k ==> !Shifted(was, now, c, j)
  {
    var c := Min(cursor, |was| - 1);
    assert was == now ==> Shifted(was, now, c, 0);
    assert Shifted(was, now, c, 0) <==> was[..c] == now[..c];
  }

  /** What an answer means, whatever happened on the screen. */
  lemma ScrollMeaning(was: seq<string>, now: seq<string>, cursor: nat)
    requires |now| == |was| > 0
    ensures var c, r := Min(cursor, |was| - 1), ScrollOffset(was, now, cursor);
      && r <= c + 1 <= |was|
      && (r < c ==> Shifted(was, now, c, r))
      && (r == 0 <==> Shifted(was, now, c, 0))
      && (r >= 1 ==> forall j :: 0 <= j < Min(r, c) ==> !Shifted(was, now, c, j))
      && (r >= c > 0 ==> (r == c <==> was[c] != "" && was[c] <= now[0]))
  {
    var c := Min(cursor, |was| - 1);
    assert was == now ==> Shifted(was, now, c, 0);
    assert Shifted(was, now, c, 0) <==> was[..c] == now[..c];
  }

  // ------------------------------------------------------------ scrollback

  /** The scrollback after pushing lines, and the index of its first. */
  datatype History = History(lines: seq<string>, first: nat)

  function Push(s: History, line: string): History {
    var all := s.lines + [line];
    if |all| > CAP then History(all[1..], s.first + 1) else History(all, s.first)
  }

  function PushAll(s: History, lines: seq<string>): History
    decreases |lines|
  {
    if lines == [] then s else PushAll(Push(s, lines[0]), lines[1..])
  }

  /** Pushing appends; only the oldest lines go, and the indices of the others stay. */
  lemma {:induction false} PushAllKeepsIndices(s: History, lines: seq<string>)
    requires |s.lines| <= CAP
    ensures var p := PushAll(s, lines);
      && |p.lines| <= CAP && s.first <= p.first
      && p.first + |p.lines| == s.first + |s.lines| + |lines|
      && p.lines == (s.lines + lines)[p.first - s.first..]
    decreases |lines|
  {
    if lines == [] {
      assert s.lines + [] == s.lines;
    } else {
      var n := Push(s, lines[0]);
      PushAllKeepsIndices(n, lines[1..]);
      PushFirst(s, lines);
    }
  }

  lemma PushFirst(s: History, lines: seq<string>)
    requires |s.lines| <= CAP && lines != []
    ensures var n := Push(s, lines[0]);
      && n.first + |n.lines| == s.first + |s.lines| + 1
      && forall d :: 0 <= d <= |n.lines| + |lines| - 1 ==>
           (n.lines + lines[1..])[d..] == (s.lines + lines)[d + (n.first - s.first)..]
  {
    var n := Push(s, lines[0]);
    assert s.lines + lines == s.lines + [lines[0]] + lines[1..];
    if |s.lines| == CAP { assert n.lines + lines[1..] == (s.lines + lines)[1..]; }
  }

  // ------------------------------------------------------------ updating

  /** The view's history. */
  function Past(v: View): History { History(v.scrollback, v.firstAbs) }

  predicate Ok(v: View) {
    v.base == v.firstAbs + |v.scrollback| && |v.scrollback| <= CAP && |v.rows| == v.h
  }

  predicate Resized(v: View, s: Shot) { s.w != v.w || s.h != v.h || v.rows == [] }

  /** The old rows go to the scrollback, all or as many as scrolled off; `row` is the old cursor's. */
  function Retire(v: View, s: Shot, row: nat): View
    requires |v.rows| == v.h && |s.rows| == s.h
  {
    if Resized(v, s) then
      var p := PushAll(Past(v), v.rows);
      v.(scrollback := p.lines, firstAbs := p.first, base := p.first + |p.lines|)
    else
      var k := ScrollOffset(v.rows, s.rows, row);
      if k == 0 then v
      else
        var p := PushAll(Past(v), v.rows[..Min(k, |v.rows|)]);
        v.(scrollback := p.lines, firstAbs := p.first, base := v.base + k, lost := if k > row then v.lost + 1 else v.lost)
  }

  /** New text. */
  function Replace(v: View, s: Shot): View
    requires |v.rows| == v.h && |s.rows| == s.h
  {
    Retire(v, s, v.cursor.1).(cursor := (Min(s.cx, Max0(s.w)), Min(s.cy, Max0(s.h))), visible := s.visible,
                              lastDirty := Some(s.dirty), w := s.w, h := s.h, rows := s.rows, version := v.version + 1)
  }

  function Max(a: nat, b: nat): nat { if a < b then b else a }

  function Max0(n: nat): nat { if n == 0 then 0 else n - 1 }

  predicate CursorChanged(v: View, s: Shot) {
    (s.cx, s.cy) != v.cursor || s.visible != v.visible
  }

  /** `update`: the new view, and whether text or cursor changed. */
  function Update(v: View, s: Shot): (View, bool)
    requires |v.rows| == v.h && |s.rows| == s.h
  {
    if v.lastDirty == Some(s.dirty) && s.rows == v.rows && s.w == v.w && s.h == v.h then
      var moved := CursorChanged(v, s);
      (v.(cursor := (Min(s.cx, Max0(s.w)), Min(s.cy, Max0(s.h))), visible := s.visible,
          version := if moved then v.version + 1 else v.version), moved)
    else (Replace(v, s), true)
  }

  /** The text of an absolute line index. */
  function Lines(v: View): seq<string> { v.scrollback + v.rows }

  predicate Has(v: View, i: nat) { v.firstAbs <= i < v.firstAbs + |Lines(v)| }

  function LineAt(v: View, i: nat): string
    requires Has(v, i)
  {
    Lines(v)[i - v.firstAbs]
  }

  /** How many rows go to the scrollback. */
  function ScrolledOff(v: View, s: Shot): nat
    requires |v.rows| == v.h && |s.rows| == s.h
  {
    if Resized(v, s) then |v.rows| else ScrollOffset(v.rows, s.rows, v.cursor.1)
  }

  /** How far up the text is known to stay: everything, if nothing was redrawn; else what lies above the old cursor,
      unless more than that scrolled off; else only what was in the scrollback. */
  function StableBelow(v: View, s: Shot): nat
    requires |v.rows| == v.h && |s.rows| == s.h
  {
    v.base + if Resized(v, s) then |v.rows| else Max(Min(v.cursor.1, |v.rows| - 1), ScrolledOff(v, s))
  }

  /** The history after an update is the old one with the rows above the new `base`. */
  lemma ReplaceHistory(v: View, s: Shot)
    requires Ok(v) && |s.rows| == s.h
    ensures var u := Replace(v, s);
      && Ok(u) && u.base == v.base + ScrolledOff(v, s) <= v.base + |v.rows| && v.firstAbs <= u.firstAbs
      && u.scrollback == (v.scrollback + v.rows[..u.base - v.base])[u.firstAbs - v.firstAbs..]
  {
    if Resized(v, s) {
      PushAllKeepsIndices(Past(v), v.rows);
      assert v.rows[..|v.rows|] == v.rows;
    } else {
      ScrollMeaning(v.rows, s.rows, v.cursor.1);
      PushAllKeepsIndices(Past(v), v.rows[..ScrolledOff(v, s)]);
      assert v.scrollback + v.rows[..0] == v.scrollback;
    }
  }

  /** `base` is always where the scrollback ends, and never decreases; it ends below what is known to stay. */
  lemma UpdateKeepsIndices(v: View, s: Shot)
    requires Ok(v) && |s.rows| == s.h
    ensures var u := Update(v, s).0;
      Ok(u) && v.base <= u.base <= StableBelow(v, s) && v.firstAbs <= u.firstAbs
  {
    ReplaceHistory(v, s);
  }

  lemma RetireMeaning(v: View, s: Shot)
    requires Ok(v) && |s.rows| == s.h
    ensures var u := Retire(v, s, v.cursor.1);
      if Resized(v, s) then u.base == v.base + |v.rows| && u.lost == v.lost
      else u.base >= v.base && u.lost == v.lost + if u.base - v.base > v.cursor.1 then 1 else 0
  {
    if Resized(v, s) { PushAllKeepsIndices(Past(v), v.rows); }
  }

  function Clamp(x: nat, n: nat): int { if x < n then x else if n == 0 then 0 else n - 1 }

  /** After an update the view shows the snapshot, and it counts as changed if anything differs, the counter included. A
      resize retires all rows; a scroll by more rows than were above the cursor is counted as a loss. */
  lemma UpdateMeaning(v: View, s: Shot)
    requires Ok(v) && |s.rows| == s.h
    ensures var (u, changed) := Update(v, s);
      var redrawn := v.lastDirty != Some(s.dirty) || s.rows != v.rows || s.w != v.w || s.h != v.h;
      var resized := s.w != v.w || s.h != v.h || v.rows == [];
      && u.rows == s.rows && u.w == s.w && u.h == s.h && u.visible == s.visible && u.lastDirty == Some(s.dirty)
      && u.cursor == (Clamp(s.cx, s.w), Clamp(s.cy, s.h))
      && (changed <==> redrawn || (s.cx, s.cy) != v.cursor || s.visible != v.visible)
      && u.version == v.version + (if changed then 1 else 0)
      && (!redrawn ==> u.base == v.base && u.scrollback == v.scrollback && u.firstAbs == v.firstAbs)
      && (redrawn && resized ==> u.base == v.base + |v.rows|)
      && u.lost == v.lost + if redrawn && !resized && u.base - v.base > v.cursor.1 then 1 else 0
  {
    RetireMeaning(v, s);
  }

  /** Every line that scrolled off keeps its index and its text until it is evicted, and so does every line above the
      old cursor that an update can tell apart. */
  lemma UpdateKeepsLine(v: View, s: Shot, i: nat)
    requires Ok(v) && |s.rows| == s.h && Has(v, i) && Update(v, s).0.firstAbs <= i < StableBelow(v, s)
    ensures Has(Update(v, s).0, i) && LineAt(Update(v, s).0, i) == LineAt(v, i)
  {
    var u := Update(v, s).0;
    if u.scrollback == v.scrollback && u.rows == v.rows && u.firstAbs == v.firstAbs {
    } else {
      ReplaceHistory(v, s);
      ReplaceLine(v, s, u, i);
    }
  }

  lemma ReplaceLine(v: View, s: Shot, u: View, i: nat)
    requires Ok(v) && Ok(u) && |s.rows| == s.h && u.rows == s.rows && Has(v, i) && u.firstAbs <= i < StableBelow(v, s)
    requires u.base == v.base + ScrolledOff(v, s) <= v.base + |v.rows| && v.firstAbs <= u.firstAbs
    requires u.scrollback == (v.scrollback + v.rows[..u.base - v.base])[u.firstAbs - v.firstAbs..]
    ensures Has(u, i) && LineAt(u, i) == LineAt(v, i)
  {
    if i < u.base {
      ScrolledLine(v, u, i);
    } else {
      ScrollMeaning(v.rows, s.rows, v.cursor.1);
      MovedLine(v.rows, s.rows, Min(v.cursor.1, |v.rows| - 1), u.base - v.base, i - v.base);
    }
  }

  /** A line that is now in the scrollback. */
  lemma ScrolledLine(v: View, u: View, i: nat)
    requires Ok(v) && Ok(u) && v.base <= u.base <= v.base + |v.rows| && v.firstAbs <= u.firstAbs <= i < u.base
    requires u.scrollback == (v.scrollback + v.rows[..u.base - v.base])[u.firstAbs - v.firstAbs..]
    ensures Has(v, i) && Has(u, i) && LineAt(u, i) == LineAt(v, i)
  {
    var all := v.scrollback + v.rows[..u.base - v.base];
    assert LineAt(u, i) == u.scrollback[i - u.firstAbs] == all[i - v.firstAbs];
  }

  /** A line that is now further up the screen. */
  lemma MovedLine(was: seq<string>, now: seq<string>, c: nat, k: nat, j: nat)
    requires k <= j < c < |was| && |now| == |was| && Shifted(was, now, c, k)
    ensures now[j - k] == was[j]
  {
    assert now[..c - k][j - k] == was[k..c][j - k];
  }

  // ------------------------------------------------------------ runs

  /** The views after each of a run of snapshots. */
  function Play(v: View, shots: seq<Shot>): View
    requires |v.rows| == v.h && forall i :: 0 <= i < |shots| ==> |shots[i].rows| == shots[i].h
    decreases |shots|
  {
    if shots == [] then v else Play(Update(v, shots[0]).0, shots[1..])
  }

  /** Whatever is shown later, a line in the scrollback keeps its index and text until it is evicted. */
  lemma {:induction false} ScrollbackIsStable(v: View, shots: seq<Shot>)
    requires Ok(v) && forall i :: 0 <= i < |shots| ==> |shots[i].rows| == shots[i].h
    ensures var u := Play(v, shots);
      && Ok(u) && v.base <= u.base && v.firstAbs <= u.firstAbs
      && forall i :: u.firstAbs <= i < v.base && v.firstAbs <= i ==> Has(u, i) && LineAt(u, i) == LineAt(v, i)
    decreases |shots|
  {
    if shots != [] {
      var n := Update(v, shots[0]).0;
      UpdateKeepsIndices(v, shots[0]);
      ScrollbackIsStable(n, shots[1..]);
      forall i | n.firstAbs <= i < v.base && v.firstAbs <= i ensures Has(n, i) && LineAt(n, i) == LineAt(v, i) {
        UpdateKeepsLine(v, shots[0], i);
      }
    }
  }

  // ------------------------------------------------------------ reading lines

  function DropBlank(rows: seq<string>): seq<string> {
    if rows == [] || rows[|rows| - 1] != "" then rows else DropBlank(rows[..|rows| - 1])
  }

  function From(lines: seq<string>, first: nat, start: nat): seq<string> {
    if start <= first then lines
    else if start >= first + |lines| then []
    else lines[start - first..]
  }

  /** `lines_from`. */
  function LinesFrom(v: View, start: nat): seq<string> {
    From(v.scrollback, v.firstAbs, start) + DropBlank(From(v.rows, v.base, start))
  }

  lemma {:induction false} DropBlankMeaning(rows: seq<string>)
    ensures var d := DropBlank(rows);
      && |d| <= |rows| && d == rows[..|d|] && (d != [] ==> d[|d| - 1] != "")
      && forall i :: |d| <= i < |rows| ==> rows[i] == ""
  {
    if rows != [] && rows[|rows| - 1] == "" {
      DropBlankMeaning(rows[..|rows| - 1]);
    }
  }

  /** `all[lo..hi]` starts at index `start`, or at the first line held, and leaves out blank lines only. */
  predicate RunFrom(all: seq<string>, first: nat, past: nat, start: nat, lo: nat, hi: nat) {
    && lo <= hi <= |all| && past <= hi
    && lo == (if start <= first then 0 else Min(start - first, |all|))
    && (forall i :: hi <= i < |all| ==> all[i] == "")
    && (hi == lo || hi == past || all[hi - 1] != "")
  }

  /** The lines are a contiguous run from the index asked for (or the oldest still held) to the last screen row that is
      not blank. */
  lemma LinesFromMeaning(v: View, start: nat) returns (lo: nat, hi: nat)
    requires Ok(v)
    ensures RunFrom(Lines(v), v.firstAbs, |v.scrollback|, start, lo, hi) && LinesFrom(v, start) == Lines(v)[lo..hi]
  {
    if start < v.base {
      lo, hi := FromThePast(v.scrollback, v.rows, v.firstAbs, start);
    } else {
      lo, hi := FromTheScreen(v.scrollback, v.rows, v.firstAbs, start);
    }
  }

  lemma FromThePast(past: seq<string>, rows: seq<string>, first: nat, start: nat) returns (lo: nat, hi: nat)
    requires start < first + |past|
    ensures RunFrom(past + rows, first, |past|, start, lo, hi)
    ensures From(past, first, start) + DropBlank(From(rows, first + |past|, start)) == (past + rows)[lo..hi]
  {
    var d := DropBlank(rows);
    DropBlankMeaning(rows);
    lo, hi := if start <= first then 0 else start - first, |past| + |d|;
    assert From(past, first, start) == past[lo..];
    assert (past + rows)[lo..hi] == past[lo..] + d;
  }

  lemma FromTheScreen(past: seq<string>, rows: seq<string>, first: nat, start: nat) returns (lo: nat, hi: nat)
    requires start >= first + |past|
    ensures RunFrom(past + rows, first, |past|, start, lo, hi)
    ensures From(past, first, start) + DropBlank(From(rows, first + |past|, start)) == (past + rows)[lo..hi]
  {
    var tail := From(rows, first + |past|, start);
    var d := DropBlank(tail);
    DropBlankMeaning(tail);
    lo := |past| + |rows| - |tail|;
    hi := lo + |d|;
    PastIsOver(past, first, start, d);
    RestOfScreen(past, rows, first, start, |d|);
    TailRun(past + rows, tail, |past|, first, start, lo, |d|);
  }

  lemma PastIsOver(past: seq<string>, first: nat, start: nat, d: seq<string>)
    requires start >= first + |past|
    ensures From(past, first, start) + d == d
  {
    assert From(past, first, start) == [];
  }

  lemma RestOfScreen(past: seq<string>, rows: seq<string>, first: nat, start: nat, n: nat)
    requires start >= first + |past| && n <= |From(rows, first + |past|, start)|
    ensures var tail := From(rows, first + |past|, start);
      var lo := |past| + |rows| - |tail|;
      && |tail| <= |rows| && lo == |past| + Min(start - first - |past|, |rows|)
      && (past + rows)[lo..] == tail && (past + rows)[lo..lo + n] == tail[..n]
  {
    var tail := From(rows, first + |past|, start);
    assert tail == rows[|rows| - |tail|..];
  }

  lemma {:induction false} TailRun(all: seq<string>, tail: seq<string>, past: nat, first: nat, start: nat, lo: nat, n: nat)
    requires past <= |all| && start >= first + past && lo == past + Min(start - first - past, |all| - past)
    requires all[lo..] == tail && n <= |tail| && (n > 0 ==> tail[n - 1] != "") && forall i :: n <= i < |tail| ==> tail[i] == ""
    ensures RunFrom(all, first, past, start, lo, lo + n)
  {
    forall i | lo + n <= i < |all| ensures all[i] == "" { assert all[i] == tail[i - lo]; }
    if n > 0 { assert all[lo + n - 1] == tail[n - 1]; }
  }
}
