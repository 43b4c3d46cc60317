/** The captured screen as it is: fields updated from each framebuffer. */
module ScreenLoop {
  import opened Prelude
  import S = Screen

  /** `trim_end`. */
  method Trim(s: string) returns (r: string)
    ensures r == S.TrimEnd(s)
  {
    r := s;
    while r != "" && r[|r| - 1] == ' '
      invariant S.TrimEnd(r) == S.TrimEnd(s)
      decreases |r|
    {
      r := r[..|r| - 1];
    }
  }

  method ReadRows(fb: seq<byte>, w: nat, h: nat) returns (rows: seq<string>)
    requires S.HEADER + w * h * 4 <= |fb|
    ensures rows == seq(h, y requires 0 <= y < h => S.RowText(fb, w, h, y))
  {
    rows := [];
    for y := 0 to h
      invariant |rows| == y && forall j :: 0 <= j < y ==> rows[j] == S.RowText(fb, w, h, j)
    {
      var s := "";
      for x := 0 to w
        invariant s == S.RowChars(fb, w, h, y, x)
      {
        S.CellInside(w, h, y, x);
        var o := S.HEADER + (y * w + x) * 4;
        s := s + [S.CellChar(fb[o])];
      }
      var t := Trim(s);
      rows := rows + [t];
    }
  }

  /** The search from the least shift upwards. */
  method DetectScroll(was: seq<string>, now: seq<string>, cursor: nat) returns (r: nat)
    requires |now| == |was|
    ensures r == S.ScrollOffset(was, now, cursor)
  {
    var h := |was|;
    if h == 0 || was == now {
      return 0;
    }
    var c := S.Min(cursor, h - 1);
    if was[..c] == now[..c] {
      return 0;
    }
    var k := 1;
    while k < c
      invariant 1 <= k && (k <= c || c == 0)
      invariant c > 0 ==> S.LeastShift(was, now, c, k) == S.LeastShift(was, now, c, 1)
    {
      if was[k..c] == now[..c - k] {
        return k;
      }
      k := k + 1;
    }
    assert c > 0;
    if was[c] != "" && was[c] <= now[0] {
      return c;
    }
    return c + 1;
  }

  lemma RetireIgnores(v: S.View, s: S.Shot, row: nat, cursor: (nat, nat), visible: bool, dirty: Option<nat>)
    requires |v.rows| == v.h && |s.rows| == s.h
    ensures S.Retire(v.(cursor := cursor, visible := visible, lastDirty := dirty), s, row)
         == S.Retire(v, s, row).(cursor := cursor, visible := visible, lastDirty := dirty)
    ensures S.Retire(v, s, row).version == v.version
  {
  }

  class Screen {
    var w: nat
    var h: nat
    var rows: seq<string>
    var cursor: (nat, nat)
    var visible: bool
    var scrollback: seq<string>
    var base: nat
    var firstAbs: nat
    var lastDirty: Option<nat>
    var lost: nat
    var version: nat

    function State(): S.View
      reads this
    {
      S.View(w, h, rows, cursor, visible, scrollback, base, firstAbs, lastDirty, lost, version)
    }

    constructor ()
      ensures State() == S.BLANK
    {
      w, h, rows, cursor, visible, scrollback := 0, 0, [], (0, 0), true, [];
      base, firstAbs, lastDirty, lost, version := 0, 0, None, 0, 0;
    }

    method PushScrollback(line: string)
      modifies this`scrollback, this`firstAbs
      ensures S.History(scrollback, firstAbs) == S.Push(S.History(old(scrollback), old(firstAbs)), line)
    {
      scrollback := scrollback + [line];
      if |scrollback| > S.CAP {
        scrollback := scrollback[1..];
        firstAbs := firstAbs + 1;
      }
    }

    method PushRows(lines: seq<string>)
      modifies this`scrollback, this`firstAbs
      ensures S.History(scrollback, firstAbs) == S.PushAll(S.History(old(scrollback), old(firstAbs)), lines)
    {
      var i := 0;
      assert lines[0..] == lines;
      while i < |lines|
        invariant 0 <= i <= |lines|
        invariant S.PushAll(S.History(scrollback, firstAbs), lines[i..])
               == S.PushAll(S.History(old(scrollback), old(firstAbs)), lines)
      {
        assert lines[i..][1..] == lines[i + 1..];
        PushScrollback(lines[i]);
        i := i + 1;
      }
    }

    /** Take over a framebuffer, if it is complete. */
    method DoUpdate(fb: seq<byte>) returns (changed: bool)
      requires |rows| == h
      modifies this
      ensures var s := S.Snapshot(fb);
        if s.None? then State() == old(State()) && !changed
        else (State(), changed) == S.Update(old(State()), s.value)
    {
      if |fb| < S.HEADER || S.U16(fb, 0) != S.MAGIC {
        return false;
      }
      var nw, nh := S.U16(fb, 2), S.U16(fb, 4);
      if nw == 0 || nh == 0 || S.HEADER + nw * nh * 4 > |fb| {
        return false;
      }
      var dirty := S.U16(fb, 12) + S.U16(fb, 14) * 0x1_0000;
      var text := ReadRows(fb, nw, nh);
      changed := Show(S.Shot(nw, nh, S.U16(fb, 6), S.U16(fb, 8), fb[10] != 0, dirty, text));
    }

    method DoRetire(s: S.Shot, wasRow: nat)
      requires |rows| == h && |s.rows| == s.h
      modifies this
      ensures State() == S.Retire(old(State()), s, wasRow)
    {
      if s.w != w || s.h != h || rows == [] {
        PushRows(rows);
        base := firstAbs + |scrollback|;
      } else {
        var k := DetectScroll(rows, s.rows, wasRow);
        if k > 0 {
          if k > wasRow {
            lost := lost + 1;
          }
          PushRows(rows[..S.Min(k, |rows|)]);
          base := base + k;
        }
      }
    }

    method Show(s: S.Shot) returns (changed: bool)
      requires |rows| == h && |s.rows| == s.h > 0 && s.w > 0
      modifies this
      ensures (State(), changed) == S.Update(old(State()), s)
    {
      var cursorChanged := (s.cx, s.cy) != cursor || s.visible != visible;
      var wasRow := cursor.1;
      cursor := (S.Min(s.cx, s.w - 1), S.Min(s.cy, s.h - 1));
      visible := s.visible;
      if lastDirty == Some(s.dirty) && s.rows == rows && s.w == w && s.h == h {
        if cursorChanged {
          version := version + 1;
        }
        return cursorChanged;
      }
      RetireIgnores(old(State()), s, wasRow, cursor, visible, Some(s.dirty));
      NewText(s, wasRow);
      changed := true;
    }

    method NewText(s: S.Shot, wasRow: nat)
      requires |rows| == h && |s.rows| == s.h
      modifies this
      ensures State() == S.Retire(old(State()).(lastDirty := Some(s.dirty)), s, wasRow)
                         .(w := s.w, h := s.h, rows := s.rows, version := old(version) + 1)
    {
      lastDirty := Some(s.dirty);
      assert State() == old(State()).(lastDirty := Some(s.dirty));
      DoRetire(s, wasRow);
      w, h, rows := s.w, s.h, s.rows;
      version := version + 1;
    }

    /** Lines with an index of at least `start`, without the blank rows at the end of the screen. */
    method ReadLines(start: nat) returns (out: seq<string>)
      ensures out == S.LinesFrom(State(), start)
    {
      out := [];
      for i := 0 to |scrollback|
        invariant out == S.From(scrollback[..i], firstAbs, start)
      {
        assert scrollback[..i + 1] == scrollback[..i] + [scrollback[i]];
        if firstAbs + i >= start {
          out := out + [scrollback[i]];
        }
      }
      assert scrollback[..|scrollback|] == scrollback;
      var shown: seq<string> := [];
      for i := 0 to |rows|
        invariant shown == S.From(rows[..i], base, start)
      {
        assert rows[..i + 1] == rows[..i] + [rows[i]];
        if base + i >= start {
          shown := shown + [rows[i]];
        }
      }
      assert rows[..|rows|] == rows;
      while shown != [] && shown[|shown| - 1] == ""
        invariant S.DropBlank(shown) == S.DropBlank(S.From(rows, base, start))
        decreases |shown|
      {
        shown := shown[..|shown| - 1];
      }
      out := out + shown;
    }
  }
}
