/** The picker as its user sees it: which names fit, what a folder shows and in which order, and what each press does. */
module PickerMeaning {
  import opened Prelude
  import opened Paths
  import opened Picker
  import opened PickerRuns

  // ------------------------------------------------------------ names

  /** The last dot of the name is at `k`. */
  ghost predicate DotAt(name: string, k: nat) {
    k < |name| && name[k] == '.' && forall i :: k < i < |name| ==> name[i] != '.'
  }

  lemma {:induction false} LastDotMeaning(s: string)
    ensures LastDot(s).None? <==> '.' !in s
    ensures LastDot(s).Some? ==> DotAt(s, LastDot(s).value)
  {
    if s != "" && s[|s| - 1] != '.' {
      LastDotMeaning(s[..|s| - 1]);
      assert s == s[..|s| - 1] + [s[|s| - 1]];
    }
  }

  lemma {:induction false} WholeName(name: string)
    requires NoSlash(name)
    ensures Split(name) == [name]
  {
    SplitStep(name, "");
    assert name + "" == name;
  }

  /** A name fits the types if there are none, or if what follows its last dot, the dot included and in lower case, is
      one of them; a dot at the very beginning is none. */
  lemma MatchesMeaning(t: Text, name: string, types: seq<string>, k: nat)
    requires NoSlash(name)
    ensures types == [] ==> Matches(t, name, types)
    ensures types != [] && '.' !in name ==> !Matches(t, name, types)
    ensures types != [] && DotAt(name, k) ==>
              (Matches(t, name, types) <==> k > 0 && exists i :: 0 <= i < |types| && types[i] == t.lower(name[k..]))
  {
    WholeName(name);
    LastDotMeaning(name);
    assert DotAt(name, k) ==> '.' in name;
  }

  /** The characters that no name may have. */
  ghost predicate Forbidden(t: Text, c: char) { c == '/' || c == '\\' || t.control(c) }

  /** What is wrong with a typed name, and what it becomes if nothing is. */
  lemma NameMeaning(t: Text, name: string, types: seq<string>)
    ensures var n, r := t.trim(name), ValidateName(t, name, types);
      && (r == Bad(Empty) <==> |n| == 0)
      && (r == Bad(TooLong) <==> |n| >= 65)
      && (r == Bad(BadCharacter) <==> 1 <= |n| <= 64 && exists i :: 0 <= i < |n| && Forbidden(t, n[i]))
      && (r == Bad(LeadingDot) <==> 1 <= |n| <= 64 && n[0] == '.' && forall i :: 0 <= i < |n| ==> !Forbidden(t, n[i]))
      && (r.Name? ==> r.name == if Matches(t, n, types) then n else n + types[0])
  {
    var n := t.trim(name);
    assert forall c :: Forbidden(t, c) ==> (c in n <==> exists i :: 0 <= i < |n| && n[i] == c);
    if i :| 0 <= i < |n| && Forbidden(t, n[i]) { assert n[i] in n; }
  }

  /** Only absolute paths without backslashes and zeros are normalized. */
  lemma RefusedMeaning(path: string)
    ensures Normalize(path).Some? <==>
              |path| > 0 && path[0] == '/' && forall i :: 0 <= i < |path| ==> path[i] != '\\' && path[i] != '\0'
  {
  }

  // ------------------------------------------------------------ what a folder shows

  ghost predicate FirstDifference(a: string, b: string, k: nat) {
    k <= |a| && k < |b| && a[..k] == b[..k] && (k == |a| || a[k] < b[k])
  }

  /** `a` comes before `b` in a dictionary. */
  ghost predicate Before(a: string, b: string) {
    exists k: nat :: FirstDifference(a, b, k)
  }

  lemma DifferenceIsFirst(a: string, b: string, k: nat)
    ensures FirstDifference(a, b, k) && k > 0 ==> a[0] == b[0]
  {
    if FirstDifference(a, b, k) && k > 0 { assert a[..k][0] == b[..k][0]; }
  }

  lemma {:induction false} DictionaryOrder(a: string, b: string)
    ensures LessEq(a, b) <==> a == b || Before(a, b)
    decreases |a|
  {
    if b == "" {
    } else if a == "" || a[0] < b[0] {
      assert FirstDifference(a, b, 0);
    } else if a[0] == b[0] {
      DictionaryOrder(a[1..], b[1..]);
      assert a == [a[0]] + a[1..] && b == [b[0]] + b[1..];
      if k: nat :| FirstDifference(a[1..], b[1..], k) {
        assert a[..k + 1] == [a[0]] + a[1..][..k] && b[..k + 1] == [b[0]] + b[1..][..k];
        assert FirstDifference(a, b, k + 1);
      }
      if k: nat :| FirstDifference(a, b, k) {
        assert k > 0;
        assert a[1..][..k - 1] == a[..k][1..] && b[1..][..k - 1] == b[..k][1..];
        assert FirstDifference(a[1..], b[1..], k - 1);
      }
    } else {
      forall k: nat { DifferenceIsFirst(a, b, k); }
    }
  }

  /** Folders stand before files, and each kind in the dictionary order of the names in lower case. */
  ghost predicate StandsBefore(t: Text, a: FsEntry, b: FsEntry) {
    || (a.isDir && !b.isDir)
    || (a.isDir == b.isDir && (t.lower(a.name) == t.lower(b.name) || Before(t.lower(a.name), t.lower(b.name))))
  }

  /** The name does not begin with a dot, the app may be given the path, and a file is of a wanted type. */
  ghost predicate ToShow(t: Text, req: Request, dir: string, e: FsEntry) {
    && (e.name == "" || e.name[0] != '.')
    && Allowed(if dir == "/" then "/" + e.name else dir + "/" + e.name, req.app)
    && (!e.isDir ==> Matches(t, e.name, req.types))
  }

  /** Opening a place that may be shown and can be listed shows its entries, and the choice, the message and the question
      are gone; otherwise only the message changes, and not even that for a path that does not normalize. */
  lemma FolderOpens(t: Text, disk: Disk, d: Dialog, dir: string)
    ensures var u, n := OpenDir(t, disk, d, dir), Normalize(dir);
      && (n.None? ==> u == d)
      && (n.Some? && !Allowed(n.value, d.req.app) ==> u == d.(error := NotAvailable))
      && (n.Some? && Allowed(n.value, d.req.app) && disk.list(n.value).None? ==> u == d.(error := CannotList))
      && (n.Some? && Allowed(n.value, d.req.app) && disk.list(n.value).Some? ==>
            && u == d.(entries := u.entries, cwd := n.value, selected := None, error := Fine, confirm := None)
            && (forall e :: e in u.entries <==> e in disk.list(n.value).value && ToShow(t, d.req, n.value, e))
            && forall i, j :: 0 <= i < j < |u.entries| ==> StandsBefore(t, u.entries[i], u.entries[j]))
  {
    var u, n := OpenDir(t, disk, d, dir), Normalize(dir);
    if n.Some? && Allowed(n.value, d.req.app) && disk.list(n.value).Some? {
      EntriesMeaning(t, d.req, n.value, disk.list(n.value).value);
      forall i, j | 0 <= i < j < |u.entries| ensures StandsBefore(t, u.entries[i], u.entries[j]) {
        assert InOrder(t, u.entries[i], u.entries[j]);
        DictionaryOrder(t.lower(u.entries[i].name), t.lower(u.entries[j].name));
      }
    }
  }

  /** No entry is shown more or less often than the folder has it. */
  lemma {:induction false} ShownAsOften(t: Text, req: Request, dir: string, es: seq<FsEntry>, e: FsEntry)
    requires ToShow(t, req, dir, e)
    ensures multiset(Sorted(t, Keep(t, req, dir, es)))[e] == multiset(es)[e]
  {
    SortedKeeps(t, Keep(t, req, dir, es));
    KeptAsOften(t, req, dir, es, e);
  }

  lemma {:induction false} KeptAsOften(t: Text, req: Request, dir: string, es: seq<FsEntry>, e: FsEntry)
    requires ToShow(t, req, dir, e)
    ensures multiset(Keep(t, req, dir, es))[e] == multiset(es)[e]
  {
    if es != [] {
      KeptAsOften(t, req, dir, es[1..], e);
      assert es == [es[0]] + es[1..];
      var head := if Offered(t, req, dir, es[0]) then [es[0]] else [];
      assert multiset(head)[e] == if es[0] == e then 1 else 0;
    }
  }

  // ------------------------------------------------------------ pressing

  /** To open, a file is chosen and the button pressed: the answer is that file's path. */
  lemma ChooseAndOpen(t: Text, disk: Disk, later: Disk, d: Dialog, i: nat)
    requires d.req.mode == Open && i < |d.entries| && !d.entries[i].isDir
    ensures var n, u := d.entries[i].name, Confirm(t, later, Select(t, disk, d, i));
      && u.done == Some(Some(if d.cwd == "/" then "/" + n else d.cwd + "/" + n))
      && u == d.(selected := Some(i), confirm := None, error := Fine, done := u.done)
  {
  }

  /** A press with nothing chosen, and a choice beyond the list, answer nothing. */
  lemma NothingChosen(t: Text, disk: Disk, d: Dialog, i: nat)
    ensures d.req.mode == Open && d.selected.None? ==> Confirm(t, disk, d) == d.(error := ChooseFirst)
    ensures i >= |d.entries| ==> Select(t, disk, d, i) == d
    ensures Cancel(d) == d.(done := Some(None))
  {
  }

  /** Choosing a folder opens it, and nothing is chosen then. */
  lemma ChooseFolder(t: Text, disk: Disk, d: Dialog, i: nat)
    requires i < |d.entries| && d.entries[i].isDir && d.cwd != "" && d.cwd[0] == '/'
    requires Component(d.entries[i].name) && !Refused(Join(d.cwd, d.entries[i].name))
    ensures var below := Render(Parts(d.cwd) + [d.entries[i].name]);
      Allowed(below, d.req.app) && disk.list(below).Some? ==>
        Select(t, disk, d, i).cwd == below && Select(t, disk, d, i).selected.None? && Select(t, disk, d, i).done == d.done
  {
    JoinLeadsBelow(d.cwd, d.entries[i].name);
  }

  /** Choosing a file to save over takes over its name and forgets the question. */
  lemma ChooseToSave(t: Text, disk: Disk, d: Dialog, i: nat)
    requires d.req.mode == Save && i < |d.entries| && !d.entries[i].isDir
    ensures Select(t, disk, d, i) == d.(selected := Some(i), confirm := None, name := d.entries[i].name)
  {
  }

  /** To save under a name that is free one press is enough. */
  lemma SaveAsNew(t: Text, disk: Disk, d: Dialog, name: string)
    requires d.req.mode == Save && ValidateName(t, name, d.req.types).Name?
    ensures var n := ValidateName(t, name, d.req.types).name;
      var path := if d.cwd == "/" then "/" + n else d.cwd + "/" + n;
      var u := Confirm(t, disk, TypeName(d, name));
      && (!MaySave(path, d.req.app) ==> u == d.(name := name, confirm := None, error := CannotSave))
      && (MaySave(path, d.req.app) && disk.kind(path).None? ==>
            u == d.(name := name, confirm := None, error := Fine, done := Some(Some(path))))
      && (MaySave(path, d.req.app) && disk.kind(path) == Some(true) ==>
            u == d.(name := name, confirm := None, error := IsFolder))
  {
  }

  /** To save over a file takes two: the first asks and answers nothing, the second answers. */
  lemma SaveOver(t: Text, disk: Disk, later: Disk, d: Dialog, name: string)
    requires d.req.mode == Save && ValidateName(t, name, d.req.types).Name?
    ensures var n := ValidateName(t, name, d.req.types).name;
      var path := if d.cwd == "/" then "/" + n else d.cwd + "/" + n;
      var once := Confirm(t, disk, TypeName(d, name));
      MaySave(path, d.req.app) && disk.kind(path) == Some(false) ==>
        && once == d.(name := name, error := Exists, confirm := Some(path))
        && (later.kind(path) != Some(true) ==>
              Confirm(t, later, once) == once.(error := Fine, done := Some(Some(path))))
  {
  }

  /** With a name that is not accepted a press tells why. */
  lemma SaveBadName(t: Text, disk: Disk, d: Dialog)
    requires d.req.mode == Save && ValidateName(t, d.name, d.req.types).Bad?
    ensures Confirm(t, disk, d) == d.(error := BadName(ValidateName(t, d.name, d.req.types).why))
  {
  }
}
