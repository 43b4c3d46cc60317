/** Every run of the file picker: what it answers was listed, is permitted, and was asked about if it exists. */
module PickerRuns {
  import opened Prelude
  import opened Paths
  import opened Picker

  datatype Step =
    | Opened(disk: Disk, dir: string)
    | WentUp(disk: Disk)
    | Selected(disk: Disk, i: nat)
    | Typed(name: string)
    | Confirmed(disk: Disk)
    | Cancelled

  function Apply(t: Text, d: Dialog, st: Step): Dialog {
    match st
    case Opened(disk, dir) => OpenDir(t, disk, d, dir)
    case WentUp(disk) => Up(t, disk, d)
    case Selected(disk, i) => Select(t, disk, d, i)
    case Typed(name) => TypeName(d, name)
    case Confirmed(disk) => Confirm(t, disk, d)
    case Cancelled => Cancel(d)
  }

  /** Before anything was listed. */
  function Blank(req: Request, name: string): Dialog {
    Dialog(req, "/", [], None, name, Fine, None, None)
  }

  /** A normalized place that may be shown. */
  ghost predicate MayStand(dir: string, app: string) {
    Normalize(dir) == Some(dir) && Allowed(dir, app)
  }

  /** The same, behind a quantifier, so that proofs unfold it only where it is needed. */
  ghost predicate PlaceOk(dir: string, app: string) {
    forall x: string :: x == dir ==> MayStand(x, app)
  }

  ghost predicate DialogOk(t: Text, d: Dialog) {
    && PlaceOk(d.cwd, d.req.app)
    && (forall e :: e in d.entries ==> Offered(t, d.req, d.cwd, e))
    && (d.selected.Some? ==> d.selected.value < |d.entries| && !d.entries[d.selected.value].isDir)
    && (d.confirm.Some? ==> d.req.mode == Save && WouldSave(t, d) == d.confirm)
  }

  /** Where a save would go now. */
  function WouldSave(t: Text, d: Dialog): Option<string> {
    var n := ValidateName(t, d.name, d.req.types);
    if n.Bad? then None else Some(Join(d.cwd, n.name))
  }

  lemma BlankOk(t: Text, req: Request, name: string)
    ensures DialogOk(t, Blank(req, name))
  {
    PartsOfRender([]);
    assert Normalize("/") == Some("/");
    assert Render([]) == "/";
    AllowedRoot(req.app);
  }

  lemma AllowedRoot(app: string)
    ensures Allowed("/", app)
  {
    PartsOfRender([]);
    assert Normalize("/") == Some("/");
    BelowDatabase([]);
    BelowTop([], DEVICES, "dev");
    IsKey([]);
    BelowData([]);
  }

  lemma OpenDirKeeps(t: Text, disk: Disk, d: Dialog, dir: string)
    requires DialogOk(t, d)
    ensures DialogOk(t, OpenDir(t, disk, d, dir))
  {
    var n := Normalize(dir);
    if n.Some? && Allowed(n.value, d.req.app) && disk.list(n.value).Some? {
      NormalizeIdempotent(dir);
      EntriesMeaning(t, d.req, n.value, disk.list(n.value).value);
    }
  }

  lemma ApplyKeeps(t: Text, d: Dialog, st: Step)
    requires DialogOk(t, d)
    ensures DialogOk(t, Apply(t, d, st))
  {
    match st
    case Opened(disk, dir) => OpenDirKeeps(t, disk, d, dir);
    case WentUp(disk) => UpKeeps(t, disk, d);
    case Selected(disk, i) => SelectKeeps(t, disk, d, i);
    case Typed(name) => TypeNameKeeps(t, d, name);
    case Confirmed(disk) => ConfirmKeeps(t, disk, d);
    case Cancelled => CancelKeeps(t, d);
  }

  lemma TypeNameKeeps(t: Text, d: Dialog, name: string)
    requires DialogOk(t, d)
    ensures DialogOk(t, TypeName(d, name))
  {
  }

  lemma CancelKeeps(t: Text, d: Dialog)
    requires DialogOk(t, d)
    ensures DialogOk(t, Cancel(d))
  {
  }

  lemma ApplyKeepsRequest(t: Text, d: Dialog, st: Step)
    ensures Apply(t, d, st).req == d.req
  {
  }

  lemma UpKeeps(t: Text, disk: Disk, d: Dialog)
    requires DialogOk(t, d)
    ensures DialogOk(t, Up(t, disk, d))
  {
    var n := Normalize(d.cwd + "/..");
    OpenDirKeeps(t, disk, d, if n.Some? then n.value else "/");
  }

  lemma SelectKeeps(t: Text, disk: Disk, d: Dialog, i: nat)
    requires DialogOk(t, d)
    ensures DialogOk(t, Select(t, disk, d, i))
  {
    if i < |d.entries| && d.entries[i].isDir { OpenDirKeeps(t, disk, d, Join(d.cwd, d.entries[i].name)); }
  }

  lemma ConfirmKeeps(t: Text, disk: Disk, d: Dialog)
    requires DialogOk(t, d)
    ensures DialogOk(t, Confirm(t, disk, d))
  {
    ConfirmCases(t, disk, d);
  }

  /** Pressing Open or Save changes nothing but the message, the question and the answer. */
  lemma ConfirmCases(t: Text, disk: Disk, d: Dialog)
    ensures var u := Confirm(t, disk, d);
      && u == d.(error := u.error, confirm := u.confirm, done := u.done)
      && (u.confirm == d.confirm || (d.req.mode == Save && u.confirm.Some? && u.confirm == WouldSave(t, d)))
  {
  }

  // ------------------------------------------------------------ one answer

  /** Pressing Open or Save now gives this answer. */
  ghost predicate Answers(t: Text, d: Dialog, st: Step, path: string) {
    st.Confirmed? && Apply(t, d, st) == d.(error := Fine, done := Some(Some(path)))
  }

  /** An answer to open is an entry shown: a file of a wanted type that the app may be given. */
  lemma OpenAnswer(t: Text, d: Dialog, st: Step, path: string) returns (e: FsEntry)
    requires DialogOk(t, d) && Answers(t, d, st, path) && d.req.mode == Open
    ensures e in d.entries && !e.isDir && path == Join(d.cwd, e.name)
    ensures Allowed(path, d.req.app) && Matches(t, e.name, d.req.types)
  {
    assert d.selected.Some?;
    e := d.entries[d.selected.value];
    assert Offered(t, d.req, d.cwd, e);
  }

  /** An answer to save is a place the app may save to, no folder, and if there is a file, one that was asked about. */
  lemma SaveAnswer(t: Text, d: Dialog, st: Step, path: string)
    requires Answers(t, d, st, path) && d.req.mode == Save
    ensures MaySave(path, d.req.app) && WouldSave(t, d) == Some(path) && st.disk.kind(path) != Some(true)
    ensures st.disk.kind(path) == Some(false) ==> d.confirm == Some(path)
  {
  }

  // ------------------------------------------------------------ moving about

  /** A name joined to a folder leads to that folder's entry. */
  lemma JoinLeadsBelow(dir: string, name: string)
    requires NoSlash(name)
    ensures Parts(Join(dir, name)) == Climb(Parts(dir), name)
  {
    if dir == "/" {
      PartsAppend("", name);
      assert "" + "/" + name == "/" + name;
      assert Split("") == [""] && [""][1..] == [];
      PartsOfRender([]);
    } else {
      PartsAppend(dir, name);
    }
  }

  /** Going up opens the parent folder, and the top folder at the top. */
  lemma UpIsParent(t: Text, disk: Disk, d: Dialog)
    requires DialogOk(t, d)
    ensures var parts := Parts(d.cwd);
      Up(t, disk, d) == OpenDir(t, disk, d, Render(if parts == [] then [] else parts[..|parts| - 1]))
  {
    assert MayStand(d.cwd, d.req.app);
    ParentPath(d.cwd);
  }

  lemma ParentPath(dir: string)
    requires !Refused(dir)
    ensures var parts := Parts(dir);
      Normalize(dir + "/..") == Some(Render(if parts == [] then [] else parts[..|parts| - 1]))
  {
    var up := dir + "/..";
    PartsAppend(dir, "..");
    assert up == dir + "/" + "..";
    assert up[0] == dir[0];
    assert '\\' !in up && '\0' !in up;
  }

  lemma NotDots(n: string)
    requires n != "" && n[0] != '.' && NoSlash(n)
    ensures Component(n)
  {
    assert "."[0] == '.' && ".."[0] == '.';
  }

  /** The checked name needs no extension, or the one it gets holds no slash. */
  predicate PlainSave(t: Text, d: Dialog) {
    var n := t.trim(d.name);
    Matches(t, n, d.req.types) || (d.req.types != [] && NoSlash(d.req.types[0]))
  }

  /** Directly in the folder shown, under one ordinary component. */
  ghost predicate InFolder(d: Dialog, path: string) {
    exists c :: Component(c) && path == Join(d.cwd, c)
  }

  /** A save goes directly into the folder shown exactly if the first extension holds no slash or is not needed; it then
      leads to an entry of that folder. */
  lemma SaveStaysInFolder(t: Text, d: Dialog)
    requires WouldSave(t, d).Some?
    ensures PlainSave(t, d) <==> InFolder(d, WouldSave(t, d).value)
    ensures PlainSave(t, d) ==> exists c :: Component(c) && Parts(WouldSave(t, d).value) == Parts(d.cwd) + [c]
  {
    var n := ValidateName(t, d.name, d.req.types).name;
    var typed := t.trim(d.name);
    assert NoSlash(typed);
    if PlainSave(t, d) {
      NotDots(n);
      JoinLeadsBelow(d.cwd, n);
    } else {
      assert n == typed + d.req.types[0];
      SlashStays(d.cwd, typed, d.req.types[0]);
    }
  }

  lemma SlashStays(cwd: string, typed: string, ext: string)
    requires !NoSlash(ext)
    ensures forall c :: Component(c) ==> Join(cwd, typed + ext) != Join(cwd, c)
  {
    forall c | Component(c) ensures Join(cwd, typed + ext) != Join(cwd, c) {
      var i :| 0 <= i < |ext| && ext[i] == '/';
      assert (typed + ext)[|typed| + i] == '/';
      var head := if cwd == "/" then "/" else cwd + "/";
      assert Join(cwd, typed + ext)[|head|..] == typed + ext && Join(cwd, c)[|head|..] == c;
    }
  }

  /** An extension with slashes can lead out of the folder: a permitted save, shown in `/home`, goes to `/x`. */
  lemma SlashedTypeLeaves() returns (t: Text, d: Dialog)
    ensures d.cwd == "/home" && d.name == "n" && d.req.types == ["./../../x"]
    ensures WouldSave(t, d).Some? && MaySave(WouldSave(t, d).value, d.req.app)
    ensures Parts(d.cwd) == ["home"] && Parts(WouldSave(t, d).value) == ["x"]
  {
    t := Text(s => s, s => s, c => false);
    var cwd, n, ext, x := "/home", "n", "./../../x", "x";
    d := Dialog(Request("", Save, [ext]), cwd, [], None, n, Fine, None, None);
    ShortName(t, n, ext);
    LeavingPath(cwd, n, ext, x);
    PathAt(Join(cwd, n + ext), x);
  }

  lemma LeavingPath(cwd: string, n: string, ext: string, x: string)
    requires cwd == "/home" && n == "n" && ext == "./../../x" && x == "x"
    ensures !Refused(Join(cwd, n + ext)) && Parts(cwd) == ["home"] && Parts(Join(cwd, n + ext)) == [x]
  {
    var p := n + ".";
    FromHome(cwd);
    NotDots(p);
    assert Component(x);
    TwoUp(cwd, "home", p, x);
    assert Join(cwd, n + ext) == cwd + "/" + p + "/" + ".." + "/" + ".." + "/" + x;
  }

  /** A name of one letter has no extension. */
  lemma ShortName(t: Text, n: string, ext: string)
    requires n == "n" && t == Text(t.lower, s => s, c => false) && t.trim(n) == n && !t.control('n')
    ensures ValidateName(t, n, [ext]) == Name(n + ext)
  {
    assert FirstSlash(n) == 1 && Split(n) == [n];
    assert n[..0] == "" && LastDot(n[..0]).None? && LastDot(n).None?;
    assert Extension(t, n).None?;
  }

  lemma FromHome(cwd: string)
    requires cwd == "/home"
    ensures Parts(cwd) == ["home"]
  {
    var home := "home";
    Render1(home);
    PartsOfRender([home]);
    assert "/" + home == cwd;
  }

  lemma TwoUp(s: string, h: string, p: string, x: string)
    requires Parts(s) == [h] && Component(p) && Component(x)
    ensures Parts(s + "/" + p + "/" + ".." + "/" + ".." + "/" + x) == [x]
  {
    PartsAppend(s, p);
    PartsAppend(s + "/" + p, "..");
    assert ([h] + [p])[..1] == [h];
    PartsAppend(s + "/" + p + "/" + "..", "..");
    PartsAppend(s + "/" + p + "/" + ".." + "/" + "..", x);
  }

  lemma PathAt(path: string, x: string)
    requires !Refused(path) && Parts(path) == [x] && x != "dev" && x != "apps" && x != "etc" && x != "bin"
    ensures MaySave(path, "")
  {
    MaySaveMeaning(path, "");
    AllowedMeaning(path, "");
    assert !(["dev"] <= [x]) && !(["apps"] <= [x]) && !(["etc"] <= [x]) && !(["bin"] <= [x]);
  }

  // ------------------------------------------------------------ runs

  ghost predicate Run(t: Text, ds: seq<Dialog>, sts: seq<Step>) {
    && |ds| == |sts| + 1 && ds[0] == Blank(ds[0].req, ds[0].name)
    && forall k :: 0 <= k < |sts| ==> StepAt(t, ds, sts, k)
  }

  ghost predicate StepAt(t: Text, ds: seq<Dialog>, sts: seq<Step>, k: nat)
    requires k < |sts| && |ds| == |sts| + 1
  {
    ds[k + 1] == Apply(t, ds[k], sts[k])
  }

  lemma NoStepYet(t: Text, req: Request, name: string)
    ensures Run(t, [Blank(req, name)], [])
  {
  }

  /** One step more. */
  lemma RunGrows(t: Text, ds: seq<Dialog>, sts: seq<Step>, st: Step)
    requires Run(t, ds, sts)
    ensures Run(t, ds + [Apply(t, ds[|sts|], st)], sts + [st])
  {
    var us, ss := ds + [Apply(t, ds[|sts|], st)], sts + [st];
    forall k | 0 <= k < |ss| ensures StepAt(t, us, ss, k) {
      if k < |sts| { assert StepAt(t, ds, sts, k); }
    }
  }

  lemma {:induction false} RunKeepsRequest(t: Text, ds: seq<Dialog>, sts: seq<Step>, k: nat)
    requires Run(t, ds, sts) && k < |ds|
    ensures ds[k].req == ds[0].req
  {
    if k > 0 {
      RunKeepsRequest(t, ds, sts, k - 1);
      assert StepAt(t, ds, sts, k - 1);
      ApplyKeepsRequest(t, ds[k - 1], sts[k - 1]);
    }
  }

  lemma {:induction false} RunOk(t: Text, ds: seq<Dialog>, sts: seq<Step>, k: nat)
    requires Run(t, ds, sts) && k < |ds|
    ensures OkAt(t, ds, k)
  {
    if k == 0 {
      StartOk(t, ds, sts);
    } else {
      RunOk(t, ds, sts, k - 1);
      RunStepOk(t, ds, sts, k);
    }
  }

  ghost predicate OkAt(t: Text, ds: seq<Dialog>, k: nat)
    requires k < |ds|
  {
    DialogOk(t, ds[k])
  }

  lemma StartOk(t: Text, ds: seq<Dialog>, sts: seq<Step>)
    requires Run(t, ds, sts)
    ensures OkAt(t, ds, 0)
  {
    BlankOk(t, ds[0].req, ds[0].name);
  }

  lemma RunStepOk(t: Text, ds: seq<Dialog>, sts: seq<Step>, k: nat)
    requires Run(t, ds, sts) && 0 < k < |ds| && OkAt(t, ds, k - 1)
    ensures OkAt(t, ds, k)
  {
    ApplyKeeps(t, ds[k - 1], sts[k - 1]);
    assert StepAt(t, ds, sts, k - 1);
  }

  /** In this step the picker asked before overwriting `path`. */
  ghost predicate AskedAt(t: Text, d: Dialog, st: Step, path: string) {
    st.Confirmed? && d.req.mode == Save && st.disk.kind(path) == Some(false) && WouldSave(t, d) == Some(path)
    && Apply(t, d, st) == d.(error := Exists, confirm := Some(path))
  }

  /** From step `j` to `k` folder, name and question stayed. */
  ghost predicate Unchanged(ds: seq<Dialog>, j: nat, k: nat)
    requires j < k < |ds|
  {
    forall i :: j < i <= k ==> ds[i].cwd == ds[k].cwd && ds[i].name == ds[k].name && ds[i].confirm == ds[k].confirm
  }

  /** What a question is there for: a step that asked it, or the question was there before and nothing it is about
      has changed. */
  lemma QuestionCause(t: Text, d: Dialog, st: Step)
    requires Apply(t, d, st).confirm.Some?
    ensures var u := Apply(t, d, st);
      AskedAt(t, d, st, u.confirm.value) || (u.confirm == d.confirm && u.cwd == d.cwd && u.name == d.name)
  {
  }

  lemma StaysUnchanged(ds: seq<Dialog>, j: nat, k: nat)
    requires j < k - 1 < k < |ds| && Unchanged(ds, j, k - 1)
    requires ds[k].cwd == ds[k - 1].cwd && ds[k].name == ds[k - 1].name && ds[k].confirm == ds[k - 1].confirm
    ensures Unchanged(ds, j, k)
  {
  }

  lemma {:induction false} AskedBefore(t: Text, ds: seq<Dialog>, sts: seq<Step>, k: nat) returns (j: nat)
    requires Run(t, ds, sts) && k < |ds| && ds[k].confirm.Some?
    ensures j < k && AskedAt(t, ds[j], sts[j], ds[k].confirm.value) && Unchanged(ds, j, k)
  {
    assert StepAt(t, ds, sts, k - 1);
    QuestionCause(t, ds[k - 1], sts[k - 1]);
    if AskedAt(t, ds[k - 1], sts[k - 1], ds[k].confirm.value) {
      j := k - 1;
    } else {
      j := AskedBefore(t, ds, sts, k - 1);
      StaysUnchanged(ds, j, k);
    }
  }

  /** In this step a directory was listed, with this entry. */
  ghost predicate ListedAt(st: Step, dir: string, e: FsEntry) {
    (st.Opened? || st.WentUp? || st.Selected?) && st.disk.list(dir).Some? && e in st.disk.list(dir).value
  }

  lemma EntriesCause(t: Text, d: Dialog, st: Step, e: FsEntry)
    requires e in Apply(t, d, st).entries
    ensures var u := Apply(t, d, st);
      ListedAt(st, u.cwd, e) || (u.entries == d.entries && u.cwd == d.cwd)
  {
    match st
    case Opened(disk, dir) => OpenedCause(t, disk, d, dir, e);
    case WentUp(disk) =>
      var n := Normalize(d.cwd + "/..");
      OpenedCause(t, disk, d, if n.Some? then n.value else "/", e);
    case Selected(disk, i) =>
      if i < |d.entries| && d.entries[i].isDir { OpenedCause(t, disk, d, Join(d.cwd, d.entries[i].name), e); }
    case _ =>
  }

  lemma OpenedCause(t: Text, disk: Disk, d: Dialog, dir: string, e: FsEntry)
    requires e in OpenDir(t, disk, d, dir).entries
    ensures var u := OpenDir(t, disk, d, dir);
      (disk.list(u.cwd).Some? && e in disk.list(u.cwd).value) || (u.entries == d.entries && u.cwd == d.cwd)
  {
    var u := OpenDir(t, disk, d, dir);
    if u.entries != d.entries || u.cwd != d.cwd {
      EntriesMeaning(t, d.req, u.cwd, disk.list(u.cwd).value);
    }
  }

  lemma {:induction false} ListedBefore(t: Text, ds: seq<Dialog>, sts: seq<Step>, k: nat, e: FsEntry) returns (j: nat)
    requires Run(t, ds, sts) && k < |ds| && e in ds[k].entries
    ensures j < k && ListedAt(sts[j], ds[k].cwd, e)
  {
    assert StepAt(t, ds, sts, k - 1);
    EntriesCause(t, ds[k - 1], sts[k - 1], e);
    if ListedAt(sts[k - 1], ds[k].cwd, e) {
      j := k - 1;
    } else {
      j := ListedBefore(t, ds, sts, k - 1, e);
    }
  }

  lemma AnswerCause(t: Text, d: Dialog, st: Step, path: string)
    ensures Apply(t, d, st).done == Some(Some(path)) ==> Answers(t, d, st, path) || d.done == Some(Some(path))
  {
  }

  lemma {:induction false} AnsweredBefore(t: Text, ds: seq<Dialog>, sts: seq<Step>, k: nat, path: string) returns (j: nat)
    requires Run(t, ds, sts) && k < |ds| && ds[k].done == Some(Some(path))
    ensures j < k && Answers(t, ds[j], sts[j], path)
  {
    AnswerCause(t, ds[k - 1], sts[k - 1], path);
    assert StepAt(t, ds, sts, k - 1);
    if Answers(t, ds[k - 1], sts[k - 1], path) {
      j := k - 1;
    } else {
      j := AnsweredBefore(t, ds, sts, k - 1, path);
    }
  }

  /** Over every run, whatever the disk does meanwhile: a file opened was listed in its folder, is no folder, is
      permitted and of a wanted type. */
  lemma OpenedWasListed(t: Text, ds: seq<Dialog>, sts: seq<Step>, k: nat, path: string)
    returns (j: nat, listed: nat, e: FsEntry)
    requires Run(t, ds, sts) && k < |ds| && ds[k].done == Some(Some(path)) && ds[0].req.mode == Open
    ensures listed < j < k && Answers(t, ds[j], sts[j], path) && path == Join(ds[j].cwd, e.name)
    ensures ListedAt(sts[listed], ds[j].cwd, e) && !e.isDir
    ensures Allowed(path, ds[0].req.app) && Matches(t, e.name, ds[0].req.types)
  {
    j := AnsweredBefore(t, ds, sts, k, path);
    RunOk(t, ds, sts, j);
    assert OkAt(t, ds, j);
    RunKeepsRequest(t, ds, sts, j);
    e := OpenAnswer(t, ds[j], sts[j], path);
    listed := ListedBefore(t, ds, sts, j, e);
  }

  /** Over every run: a save goes where it may, and over an existing file only if an earlier press asked about that very
      path, with folder, name and question unchanged since. */
  lemma SavedWasAsked(t: Text, ds: seq<Dialog>, sts: seq<Step>, k: nat, path: string) returns (j: nat, asked: nat)
    requires Run(t, ds, sts) && k < |ds| && ds[k].done == Some(Some(path)) && ds[0].req.mode == Save
    ensures j < k && Answers(t, ds[j], sts[j], path) && MaySave(path, ds[0].req.app) && sts[j].disk.kind(path) != Some(true)
    ensures sts[j].disk.kind(path) == Some(false) ==>
              asked < j && AskedAt(t, ds[asked], sts[asked], path) && Unchanged(ds, asked, j)
  {
    j := AnsweredBefore(t, ds, sts, k, path);
    RunOk(t, ds, sts, j);
    assert OkAt(t, ds, j);
    RunKeepsRequest(t, ds, sts, j);
    SaveAnswer(t, ds[j], sts[j], path);
    asked := 0;
    if sts[j].disk.kind(path) == Some(false) { asked := AskedBefore(t, ds, sts, j); }
  }
}
