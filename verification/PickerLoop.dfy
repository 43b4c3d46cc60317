/** The picker as it is: a stack of components, a filtered and sorted listing, and fields changed by each event. Its
    ghost history shows that whatever the user does is a run, so what is proved of all runs holds of the object. */
module PickerLoop {
  import opened Prelude
  import opened Paths
  import P = Picker
  import PickerRuns

  /** The loop of `normalize` over the components. */
  method NormalizePath(path: string) returns (r: Option<string>)
    ensures r == Normalize(path)
  {
    if path == "" || path[0] != '/' || '\\' in path || '\0' in path {
      return None;
    }
    var parts := Split(path);
    var stack: seq<string> := [];
    var i := 0;
    assert parts[0..] == parts;
    while i < |parts|
      invariant 0 <= i <= |parts| && Resolve(parts[i..], stack) == Parts(path)
    {
      assert parts[i..][1..] == parts[i + 1..];
      if parts[i] == "" || parts[i] == "." {
      } else if parts[i] == ".." {
        if stack != [] {
          stack := stack[..|stack| - 1];
        }
      } else {
        stack := stack + [parts[i]];
      }
      i := i + 1;
    }
    r := Some(Render(stack));
  }

  /** `retain`. */
  method Retain(t: P.Text, req: P.Request, dir: string, es: seq<P.FsEntry>) returns (kept: seq<P.FsEntry>)
    ensures kept == P.Keep(t, req, dir, es)
  {
    kept := [];
    var i := 0;
    assert es[0..] == es;
    while i < |es|
      invariant 0 <= i <= |es| && kept + P.Keep(t, req, dir, es[i..]) == P.Keep(t, req, dir, es)
    {
      assert es[i..][1..] == es[i + 1..];
      if P.Offered(t, req, dir, es[i]) {
        assert kept + ([es[i]] + P.Keep(t, req, dir, es[i + 1..])) == kept + [es[i]] + P.Keep(t, req, dir, es[i + 1..]);
        kept := kept + [es[i]];
      } else {
        assert P.Keep(t, req, dir, es[i..]) == P.Keep(t, req, dir, es[i + 1..]);
      }
      i := i + 1;
    }
    assert kept + [] == kept;
  }

  class Picker {
    const req: P.Request
    const text: P.Text
    var cwd: string
    var entries: seq<P.FsEntry>
    var selected: Option<nat>
    var name: string
    var error: P.Problem
    var confirm: Option<string>
    var done: Option<Option<string>>
    ghost var states: seq<P.Dialog>
    ghost var steps: seq<PickerRuns.Step>

    function State(): P.Dialog
      reads this
    {
      P.Dialog(req, cwd, entries, selected, name, error, confirm, done)
    }

    /** The events so far are a run that ends here. */
    ghost predicate Valid()
      reads this
    {
      PickerRuns.Run(text, states, steps) && states[|steps|] == State()
    }

    constructor (req: P.Request, text: P.Text, name: string)
      ensures Valid() && steps == [] && this.req == req && this.text == text
      ensures State() == P.Dialog(req, "/", [], None, name, P.Fine, None, None)
    {
      this.req, this.text, this.name := req, text, name;
      cwd, entries, selected, error, confirm, done := "/", [], None, P.Fine, None, None;
      states, steps := [PickerRuns.Blank(req, name)], [];
      PickerRuns.NoStepYet(text, req, name);
    }

    /** One event more. */
    ghost method Note(st: PickerRuns.Step)
      requires PickerRuns.Run(text, states, steps) && State() == PickerRuns.Apply(text, states[|steps|], st)
      modifies this`states, this`steps
      ensures Valid() && steps == old(steps) + [st]
    {
      PickerRuns.RunGrows(text, states, steps, st);
      states, steps := states + [State()], steps + [st];
    }

    method DoOpenDir(disk: P.Disk, dir: string)
      requires Valid()
      modifies this
      ensures Valid() && steps == old(steps) + [PickerRuns.Opened(disk, dir)]
      ensures State() == P.OpenDir(text, disk, old(State()), dir)
    {
      Show(disk, dir);
      Note(PickerRuns.Opened(disk, dir));
    }

    method Show(disk: P.Disk, dir: string)
      modifies this`cwd, this`entries, this`selected, this`error, this`confirm
      ensures State() == P.OpenDir(text, disk, old(State()), dir)
    {
      var d := NormalizePath(dir);
      if d.None? {
        return;
      }
      if !P.Allowed(d.value, req.app) {
        error := P.NotAvailable;
        return;
      }
      var es := disk.list(d.value);
      if es.None? {
        error := P.CannotList;
        return;
      }
      var kept := Retain(text, req, d.value, es.value);
      entries := P.Sorted(text, kept);
      cwd := d.value;
      selected := None;
      error := P.Fine;
      confirm := None;
    }

    method DoUp(disk: P.Disk)
      requires Valid()
      modifies this
      ensures Valid() && steps == old(steps) + [PickerRuns.WentUp(disk)]
      ensures State() == P.Up(text, disk, old(State()))
    {
      var parent := NormalizePath(cwd + "/..");
      Show(disk, if parent.Some? then parent.value else "/");
      Note(PickerRuns.WentUp(disk));
    }

    method DoSelect(disk: P.Disk, i: nat)
      requires Valid()
      modifies this
      ensures Valid() && steps == old(steps) + [PickerRuns.Selected(disk, i)]
      ensures State() == P.Select(text, disk, old(State()), i)
    {
      Choose(disk, i);
      Note(PickerRuns.Selected(disk, i));
    }

    method Choose(disk: P.Disk, i: nat)
      modifies this`cwd, this`entries, this`selected, this`error, this`confirm, this`name
      ensures State() == P.Select(text, disk, old(State()), i)
    {
      if i >= |entries| {
        return;
      }
      var e := entries[i];
      if e.isDir {
        Show(disk, P.Join(cwd, e.name));
      } else {
        selected := Some(i);
        confirm := None;
        if req.mode == P.Save {
          name := e.name;
        }
      }
    }

    method DoTypeName(n: string)
      requires Valid()
      modifies this
      ensures Valid() && steps == old(steps) + [PickerRuns.Typed(n)]
      ensures State() == P.TypeName(old(State()), n)
    {
      name := n;
      confirm := None;
      Note(PickerRuns.Typed(n));
    }

    method DoConfirm(disk: P.Disk)
      requires Valid()
      modifies this
      ensures Valid() && steps == old(steps) + [PickerRuns.Confirmed(disk)]
      ensures State() == P.Confirm(text, disk, old(State()))
    {
      Decide(disk);
      Note(PickerRuns.Confirmed(disk));
    }

    method Decide(disk: P.Disk)
      modifies this`error, this`confirm, this`done
      ensures State() == P.Confirm(text, disk, old(State()))
    {
      error := P.Fine;
      match req.mode
      case Open =>
        if selected.Some? && selected.value < |entries| {
          done := Some(Some(P.Join(cwd, entries[selected.value].name)));
        } else {
          error := P.ChooseFirst;
        }
      case Save =>
        var n := P.ValidateName(text, name, req.types);
        if n.Bad? {
          error := P.BadName(n.why);
          return;
        }
        var path := P.Join(cwd, n.name);
        if !P.MaySave(path, req.app) {
          error := P.CannotSave;
          return;
        }
        var kind := disk.kind(path);
        if kind == Some(true) {
          error := P.IsFolder;
        } else if kind == Some(false) && confirm != Some(path) {
          error := P.Exists;
          confirm := Some(path);
        } else {
          done := Some(Some(path));
        }
    }

    method DoCancel()
      requires Valid()
      modifies this
      ensures Valid() && steps == old(steps) + [PickerRuns.Cancelled]
      ensures State() == P.Cancel(old(State()))
    {
      done := Some(None);
      Note(PickerRuns.Cancelled);
    }
  }
}
