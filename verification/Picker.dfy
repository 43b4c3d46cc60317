/** The system file picker (`picker.rs`): what may be shown and saved to, and the dialog's states. */
module Picker {
  import opened Prelude
  import opened Paths

  // ------------------------------------------------------------ what an app may be given

  const APP_DATABASE := "/var/lib/apps"
  const DEVICES := "/dev"
  const SIGNING_KEY := "/etc/pkg/signing.key"
  const APP_DATA := "/var/apps"

  /** The path normalizes, and to none of the places kept from the app. */
  predicate Allowed(path: string, app: string) {
    var n := Normalize(path);
    && n.Some?
    && var p := n.value;
       && !Under(p, APP_DATABASE) && !Under(p, DEVICES) && p != SIGNING_KEY
       && (Under(p, APP_DATA) && p != APP_DATA ==> app != "" && Under(p, APP_DATA + "/" + app))
  }

  const NO_SAVES := ["/apps", "/etc", "/var/lib", "/bin"]

  predicate MaySave(path: string, app: string) {
    Allowed(path, app) && forall d :: d in NO_SAVES ==> !Under(Normalize(path).value, d)
  }

  lemma Render1(a: string)
    requires Component(a)
    ensures Render([a]) == "/" + a
  {
    assert [a][1..] == [];
    assert Slashed([a]) == "/" + a + "";
  }

  lemma Render2(a: string, b: string)
    requires Component(a) && Component(b)
    ensures Render([a, b]) == "/" + a + ("/" + b)
  {
    Render1(b);
    assert [a, b][1..] == [b];
  }

  lemma Render3(a: string, b: string, c: string)
    requires Component(a) && Component(b) && Component(c)
    ensures Render([a, b, c]) == "/" + a + ("/" + b + ("/" + c))
  {
    Render2(b, c);
    assert [a, b, c][1..] == [b, c];
  }

  lemma RenderInjective(a: seq<string>, b: seq<string>)
    requires Components(a) && Components(b)
    ensures Render(a) == Render(b) <==> a == b
  {
    PartsOfRender(a);
    PartsOfRender(b);
  }

  lemma BelowDatabase(p: seq<string>)
    requires Components(p)
    ensures Under(Render(p), APP_DATABASE) <==> ["var", "lib", "apps"] <= p
  {
    Render3("var", "lib", "apps");
    assert Render(["var", "lib", "apps"]) == APP_DATABASE;
    UnderMeaning(p, ["var", "lib", "apps"]);
  }

  lemma BelowTop(p: seq<string>, dir: string, top: string)
    requires Components(p) && Component(top) && dir == "/" + top
    ensures Under(Render(p), dir) <==> [top] <= p
  {
    Render1(top);
    UnderMeaning(p, [top]);
  }

  lemma BelowData(p: seq<string>)
    requires Components(p)
    ensures Under(Render(p), APP_DATA) <==> ["var", "apps"] <= p
    ensures Render(p) == APP_DATA <==> p == ["var", "apps"]
  {
    Render2("var", "apps");
    assert Render(["var", "apps"]) == APP_DATA;
    UnderMeaning(p, ["var", "apps"]);
    RenderInjective(p, ["var", "apps"]);
  }

  /** Whatever the app's name is: it need not be one component, or ordinary. */
  lemma BelowOwn(p: seq<string>, app: string)
    requires Components(p)
    ensures Under(Render(p), APP_DATA + "/" + app) <==> ["var", "apps"] + Split(app) <= p
  {
    var own := Split(app);
    var dir := ["var", "apps"] + own;
    SlashedOfSplit(app);
    assert dir[1..] == ["apps"] + own && (["apps"] + own)[1..] == own;
    assert Slashed(dir) == "/" + "var" + ("/" + "apps" + ("/" + app));
    assert "/" + "var" + ("/" + "apps" + ("/" + app)) == APP_DATA + "/" + app;
    UnderMeaning(p, dir);
  }

  lemma IsKey(p: seq<string>)
    requires Components(p)
    ensures Render(p) == SIGNING_KEY <==> p == ["etc", "pkg", "signing.key"]
  {
    Render3("etc", "pkg", "signing.key");
    assert Render(["etc", "pkg", "signing.key"]) == SIGNING_KEY;
    RenderInjective(p, ["etc", "pkg", "signing.key"]);
  }

  /** In terms of components: never the app database, devices or the signing key; of the apps' data only the folder
      itself and the app's own part. */
  lemma AllowedMeaning(path: string, app: string)
    requires !Refused(path)
    ensures var p := Parts(path);
      Allowed(path, app) <==>
        && !(["var", "lib", "apps"] <= p) && !(["dev"] <= p) && p != ["etc", "pkg", "signing.key"]
        && (["var", "apps"] < p ==> app != "" && ["var", "apps"] + Split(app) <= p)
  {
    var p := Parts(path);
    PartsAreComponents(path);
    BelowDatabase(p);
    BelowTop(p, DEVICES, "dev");
    IsKey(p);
    BelowData(p);
    BelowOwn(p, app);
  }

  lemma NoSavesAre(p: string)
    ensures (forall d :: d in NO_SAVES ==> !Under(p, d)) <==>
              !Under(p, "/apps") && !Under(p, "/etc") && !Under(p, "/var/lib") && !Under(p, "/bin")
  {
    assert NO_SAVES[0] == "/apps" && NO_SAVES[1] == "/etc" && NO_SAVES[2] == "/var/lib" && NO_SAVES[3] == "/bin";
  }

  lemma BelowSystem(p: seq<string>)
    requires Components(p)
    ensures Under(Render(p), "/var/lib") <==> ["var", "lib"] <= p
  {
    Render2("var", "lib");
    assert Render(["var", "lib"]) == "/var/lib";
    UnderMeaning(p, ["var", "lib"]);
  }

  /** A save goes where the app may look, and never into programs, settings or system data. */
  lemma MaySaveMeaning(path: string, app: string)
    requires !Refused(path)
    ensures var p := Parts(path);
      MaySave(path, app) <==>
        Allowed(path, app) && !(["apps"] <= p) && !(["etc"] <= p) && !(["var", "lib"] <= p) && !(["bin"] <= p)
  {
    var p := Parts(path);
    PartsAreComponents(path);
    NoSavesAre(Render(p));
    BelowTop(p, "/apps", "apps");
    BelowTop(p, "/etc", "etc");
    BelowSystem(p);
    BelowTop(p, "/bin", "bin");
  }

  // ------------------------------------------------------------ names

  /** What the standard library knows of text: lower case, white space at the ends, control characters. */
  datatype Text = Text(lower: string -> string, trim: string -> string, control: char -> bool)

  function LastDot(s: string): Option<nat> {
    if s == "" then None else if s[|s| - 1] == '.' then Some(|s| - 1) else LastDot(s[..|s| - 1])
  }

  function Last(parts: seq<string>): string { if parts == [] then "" else parts[|parts| - 1] }

  /** The extension as the types list it (`.txt`). */
  function Extension(t: Text, path: string): Option<string> {
    var name := Last(Split(path));
    var dot := LastDot(name);
    if dot.Some? && dot.value < |name| && dot.value > 0 then Some(t.lower(name[dot.value..])) else None
  }

  predicate Matches(t: Text, name: string, types: seq<string>) {
    types == [] || (Extension(t, name).Some? && Extension(t, name).value in types)
  }

  datatype NameError = Empty | TooLong | BadCharacter | LeadingDot

  datatype Named = Name(name: string) | Bad(why: NameError)

  /** The trimmed name, with `types[0]` behind it unless it matches already, or the first objection to it. */
  function ValidateName(t: Text, name: string, types: seq<string>): Named {
    var n := t.trim(name);
    if n == "" then Bad(Empty)
    else if |n| > 64 then Bad(TooLong)
    else if '/' in n || '\\' in n || exists c :: c in n && t.control(c) then Bad(BadCharacter)
    else if n[0] == '.' then Bad(LeadingDot)
    else if Matches(t, n, types) then Name(n)
    else Name(n + types[0])
  }

  function Join(dir: string, name: string): string {
    if dir == "/" then "/" + name else dir + "/" + name
  }

  // ------------------------------------------------------------ the dialog

  datatype Mode = Open | Save

  datatype FsEntry = FsEntry(name: string, isDir: bool, size: nat)

  /** The disk at one moment: the listing of a directory, and whether a path is a directory, if it exists. */
  datatype Disk = Disk(list: string -> Option<seq<FsEntry>>, kind: string -> Option<bool>)

  datatype Request = Request(app: string, mode: Mode, types: seq<string>)

  datatype Problem = Fine | NotAvailable | CannotList | ChooseFirst | BadName(why: NameError) | CannotSave | IsFolder | Exists

  datatype Dialog = Dialog(req: Request, cwd: string, entries: seq<FsEntry>, selected: Option<nat>, name: string,
                           error: Problem, confirm: Option<string>, done: Option<Option<string>>)

  /** What of a listing is offered. */
  predicate Offered(t: Text, req: Request, dir: string, e: FsEntry) {
    && !(e.name != "" && e.name[0] == '.') && Allowed(Join(dir, e.name), req.app)
    && (e.isDir || Matches(t, e.name, req.types))
  }

  function Keep(t: Text, req: Request, dir: string, es: seq<FsEntry>): seq<FsEntry> {
    if es == [] then [] else (if Offered(t, req, dir, es[0]) then [es[0]] else []) + Keep(t, req, dir, es[1..])
  }

  /** Lexicographic order of strings. */
  predicate LessEq(a: string, b: string)
    decreases |a|
  {
    a == "" || (b != "" && (a[0] < b[0] || (a[0] == b[0] && LessEq(a[1..], b[1..]))))
  }

  /** Folders first, then by name without regard to case. */
  predicate InOrder(t: Text, a: FsEntry, b: FsEntry) {
    if a.isDir != b.isDir then a.isDir else LessEq(t.lower(a.name), t.lower(b.name))
  }

  function Insert(t: Text, e: FsEntry, es: seq<FsEntry>): seq<FsEntry> {
    if es == [] || InOrder(t, e, es[0]) then [e] + es else [es[0]] + Insert(t, e, es[1..])
  }

  /** The stable sort. */
  function Sorted(t: Text, es: seq<FsEntry>): seq<FsEntry> {
    if es == [] then [] else Insert(t, es[0], Sorted(t, es[1..]))
  }

  function OpenDir(t: Text, disk: Disk, d: Dialog, dir: string): Dialog {
    var n := Normalize(dir);
    if n.None? then d
    else if !Allowed(n.value, d.req.app) then d.(error := NotAvailable)
    else
      var es := disk.list(n.value);
      if es.None? then d.(error := CannotList)
      else d.(entries := Sorted(t, Keep(t, d.req, n.value, es.value)), cwd := n.value, selected := None, error := Fine,
              confirm := None)
  }

  function Up(t: Text, disk: Disk, d: Dialog): Dialog {
    var n := Normalize(d.cwd + "/..");
    OpenDir(t, disk, d, if n.Some? then n.value else "/")
  }

  function Select(t: Text, disk: Disk, d: Dialog, i: nat): Dialog {
    if i >= |d.entries| then d
    else
      var e := d.entries[i];
      if e.isDir then OpenDir(t, disk, d, Join(d.cwd, e.name))
      else d.(selected := Some(i), confirm := None, name := if d.req.mode == Save then e.name else d.name)
  }

  /** The text field of the save dialog was edited. */
  function TypeName(d: Dialog, name: string): Dialog {
    d.(name := name, confirm := None)
  }

  function Confirm(t: Text, disk: Disk, d: Dialog): Dialog {
    match d.req.mode
    case Open =>
      if d.selected.Some? && d.selected.value < |d.entries| then
        d.(error := Fine, done := Some(Some(Join(d.cwd, d.entries[d.selected.value].name))))
      else d.(error := ChooseFirst)
    case Save =>
      var n := ValidateName(t, d.name, d.req.types);
      if n.Bad? then d.(error := BadName(n.why))
      else
        var path := Join(d.cwd, n.name);
        if !MaySave(path, d.req.app) then d.(error := CannotSave)
        else
          var kind := disk.kind(path);
          if kind == Some(true) then d.(error := IsFolder)
          else if kind == Some(false) && d.confirm != Some(path) then d.(error := Exists, confirm := Some(path))
          else d.(error := Fine, done := Some(Some(path)))
  }

  function Cancel(d: Dialog): Dialog { d.(done := Some(None)) }

  // ------------------------------------------------------------ what sorting and filtering keep

  lemma {:induction false} KeepMeaning(t: Text, req: Request, dir: string, es: seq<FsEntry>)
    ensures forall e :: e in Keep(t, req, dir, es) <==> e in es && Offered(t, req, dir, e)
  {
    if es != [] {
      KeepMeaning(t, req, dir, es[1..]);
      assert es == [es[0]] + es[1..];
    }
  }

  lemma {:induction false} InsertKeeps(t: Text, e: FsEntry, es: seq<FsEntry>)
    ensures multiset(Insert(t, e, es)) == multiset(es) + multiset{e}
  {
    if es == [] || InOrder(t, e, es[0]) {
    } else {
      InsertKeeps(t, e, es[1..]);
      assert es == [es[0]] + es[1..];
    }
  }

  lemma {:induction false} SortedKeeps(t: Text, es: seq<FsEntry>)
    ensures multiset(Sorted(t, es)) == multiset(es)
  {
    if es != [] {
      SortedKeeps(t, es[1..]);
      InsertKeeps(t, es[0], Sorted(t, es[1..]));
      assert es == [es[0]] + es[1..];
    }
  }

  ghost predicate IsSorted(t: Text, es: seq<FsEntry>) {
    forall i, j :: 0 <= i < j < |es| ==> InOrder(t, es[i], es[j])
  }

  lemma {:induction false} LessEqTotal(a: string, b: string)
    ensures LessEq(a, b) || LessEq(b, a)
    decreases |a|
  {
    if a != "" && b != "" && a[0] == b[0] { LessEqTotal(a[1..], b[1..]); }
  }

  lemma {:induction false} LessEqTransitive(a: string, b: string, c: string)
    requires LessEq(a, b) && LessEq(b, c)
    ensures LessEq(a, c)
    decreases |a|
  {
    if a != "" && a[0] == b[0] && b[0] == c[0] { LessEqTransitive(a[1..], b[1..], c[1..]); }
  }

  lemma InOrderTotal(t: Text, a: FsEntry, b: FsEntry)
    ensures InOrder(t, a, b) || InOrder(t, b, a)
  {
    LessEqTotal(t.lower(a.name), t.lower(b.name));
  }

  lemma InOrderTransitive(t: Text, a: FsEntry, b: FsEntry, c: FsEntry)
    requires InOrder(t, a, b) && InOrder(t, b, c)
    ensures InOrder(t, a, c)
  {
    if a.isDir == b.isDir == c.isDir { LessEqTransitive(t.lower(a.name), t.lower(b.name), t.lower(c.name)); }
  }

  lemma {:induction false} InsertSorts(t: Text, e: FsEntry, es: seq<FsEntry>)
    requires IsSorted(t, es)
    ensures IsSorted(t, Insert(t, e, es))
  {
    if es == [] {
    } else if InOrder(t, e, es[0]) {
      forall j | 0 <= j < |es| ensures InOrder(t, e, es[j]) {
        if j > 0 { InOrderTransitive(t, e, es[0], es[j]); }
      }
    } else {
      InOrderTotal(t, e, es[0]);
      var rest := Insert(t, e, es[1..]);
      InsertSorts(t, e, es[1..]);
      InsertKeeps(t, e, es[1..]);
      forall j | 0 <= j < |rest| ensures InOrder(t, es[0], rest[j]) {
        assert rest[j] in multiset(rest);
        assert rest[j] == e || rest[j] in es[1..];
      }
    }
  }

  lemma {:induction false} SortedSorts(t: Text, es: seq<FsEntry>)
    ensures IsSorted(t, Sorted(t, es))
  {
    if es != [] {
      SortedSorts(t, es[1..]);
      InsertSorts(t, es[0], Sorted(t, es[1..]));
    }
  }

  /** The entries shown are exactly those of the listing that are offered, folders first and by name. */
  lemma EntriesMeaning(t: Text, req: Request, dir: string, es: seq<FsEntry>)
    ensures var shown := Sorted(t, Keep(t, req, dir, es));
      IsSorted(t, shown) && forall e :: e in shown <==> e in es && Offered(t, req, dir, e)
  {
    var kept := Keep(t, req, dir, es);
    KeepMeaning(t, req, dir, es);
    SortedKeeps(t, kept);
    SortedSorts(t, kept);
    forall e ensures e in Sorted(t, kept) <==> e in kept {
      assert e in Sorted(t, kept) <==> e in multiset(Sorted(t, kept));
      assert e in kept <==> e in multiset(kept);
    }
  }
}
