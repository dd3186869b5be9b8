/** The selection of shared printers (application/sharing.rs, SharedPrinters in domain/printer.rs) and
    what of it survives a restart. */
module Sharing {
  import opened Common
  import opened Queues
  import Text

  // ---------------------------------------------------------------- selections

  ghost predicate Distinct(names: seq<string>) {
    forall i, j :: 0 <= i < j < |names| ==> names[i] != names[j]
  }

  /** The first occurrence of each name. */
  function Dedup(names: seq<string>): seq<string> {
    if names == [] then []
    else
      var n := |names| - 1;
      var before := Dedup(names[..n]);
      if names[n] in before then before else before + [names[n]]
  }

  method NewSelection(names: seq<string>) returns (selected: seq<string>)
    ensures selected == Dedup(names)
  {
    selected := [];
    var i := 0;
    while i < |names|
      invariant 0 <= i <= |names| && selected == Dedup(names[..i])
    {
      assert names[..i + 1][..i] == names[..i];
      if names[i] !in selected {
        selected := selected + [names[i]];
      }
      i := i + 1;
    }
    assert names[..i] == names;
  }

  /** A selection has the same names, each once. */
  lemma {:induction false} DedupKeeps(names: seq<string>)
    ensures Distinct(Dedup(names)) && forall s :: s in Dedup(names) <==> s in names
    decreases |names|
  {
    if names != [] {
      var n := |names| - 1;
      DedupKeeps(names[..n]);
      assert names == names[..n] + [names[n]];
    }
  }

  /** A name listed before another also occurred before it. */
  lemma {:induction false} DedupInOrder(names: seq<string>, i: nat, j: nat)
    requires i < j < |Dedup(names)|
    ensures exists k :: 0 <= k < |names| && names[k] == Dedup(names)[i] && Dedup(names)[j] !in names[..k]
    decreases |names|
  {
    var n := |names| - 1;
    var first, second := Dedup(names)[i], Dedup(names)[j];
    DedupKeeps(names);
    DedupKeeps(names[..n]);
    if j < |Dedup(names[..n])| {
      DedupInOrder(names[..n], i, j);
      var k :| 0 <= k < n && names[..n][k] == first && second !in names[..n][..k];
      assert names[..n][..k] == names[..k];
    } else {
      assert first in names[..n];
      var k :| 0 <= k < n && names[..n][k] == first;
      assert second !in names[..n];
      assert forall l :: 0 <= l < k ==> names[..k][l] == names[..n][l];
    }
  }

  /** Selecting what is already distinct changes nothing. */
  lemma {:induction false} DedupOfDistinct(names: seq<string>)
    requires Distinct(names)
    ensures Dedup(names) == names
    decreases |names|
  {
    if names != [] {
      var n := |names| - 1;
      DedupOfDistinct(names[..n]);
      assert names == names[..n] + [names[n]];
    }
  }

  /** A printer name as the domain accepts it. */
  predicate IsName(s: string) {
    ParsePrinterName(s) == Ok(s)
  }

  ghost predicate IsSelection(names: seq<string>) {
    Distinct(names) && forall k :: 0 <= k < |names| ==> IsName(names[k])
  }

  // ---------------------------------------------------------------- the saved file

  datatype Saved = Saved(enabled: bool, printers: seq<string>)

  datatype State = State(enabled: bool, selection: seq<string>)

  function ParsedNames(printers: seq<string>): seq<Option<string>> {
    seq(|printers|, k requires 0 <= k < |printers| =>
      match ParsePrinterName(printers[k]) case Ok(name) => Some(name) case Err(_) => None)
  }

  /** What opening reads from the file; unusable names are dropped. */
  function Reopen(file: Option<Saved>): State {
    if file.None? then State(false, [])
    else State(file.value.enabled, Dedup(Somes(ParsedNames(file.value.printers))))
  }

  lemma {:induction false} SomesOfAll(names: seq<string>, options: seq<Option<string>>)
    requires |options| == |names| && forall k :: 0 <= k < |names| ==> options[k] == Some(names[k])
    ensures Somes(options) == names
    decreases |names|
  {
    if names != [] {
      SomesOfAll(names[1..], options[1..]);
    }
  }

  /** What was written for a selection is read back as that selection. */
  lemma SavedReopens(enabled: bool, selection: seq<string>)
    requires IsSelection(selection)
    ensures Reopen(Some(Saved(enabled, selection))) == State(enabled, selection)
  {
    SomesOfAll(selection, ParsedNames(selection));
    DedupOfDistinct(selection);
  }

  /** Whatever the file holds, opening gives a selection. */
  lemma ReopenIsSelection(file: Option<Saved>)
    ensures IsSelection(Reopen(file).selection)
  {
    if file.Some? {
      var names := Somes(ParsedNames(file.value.printers));
      DedupKeeps(names);
      forall s | s in names ensures IsName(s) {
        SomesAreThere(ParsedNames(file.value.printers), s);
        var k :| 0 <= k < |file.value.printers| && ParsedNames(file.value.printers)[k] == Some(s);
        Text.TrimIsIdempotent(file.value.printers[k]);
      }
      forall k | 0 <= k < |Dedup(names)| ensures IsName(Dedup(names)[k]) {
        assert Dedup(names)[k] in names;
      }
    }
  }

  /** Exactly what opening reads: the flag as it was saved, and every saved name that is usable, cleaned. */
  lemma ReopensExactly(file: Option<Saved>, name: string)
    ensures name in Reopen(file).selection <==>
              file.Some? && exists k :: 0 <= k < |file.value.printers| && ParsePrinterName(file.value.printers[k]) == Ok(name)
    ensures Reopen(file).enabled <==> file.Some? && file.value.enabled
  {
    if file.Some? {
      var options := ParsedNames(file.value.printers);
      DedupKeeps(Somes(options));
      SomesAreThere(options, name);
      if k :| 0 <= k < |file.value.printers| && ParsePrinterName(file.value.printers[k]) == Ok(name) {
        assert options[k] == Some(name);
      }
    }
  }

  // ---------------------------------------------------------------- restoring

  /** The names that are local queues, in order. */
  function Present(names: seq<string>, queues: seq<string>): seq<string> {
    if names == [] then []
    else
      var n := |names| - 1;
      Present(names[..n], queues) + if names[n] in queues then [names[n]] else []
  }

  lemma {:induction false} PresentAre(names: seq<string>, queues: seq<string>)
    ensures forall s :: s in Present(names, queues) <==> s in names && s in queues
    ensures |Present(names, queues)| <= |names|
    ensures Distinct(names) ==> Distinct(Present(names, queues))
    decreases |names|
  {
    if names != [] {
      var n := |names| - 1;
      PresentAre(names[..n], queues);
      assert names == names[..n] + [names[n]];
    }
  }

  /** Nothing is lost exactly when every name is still there. */
  lemma {:induction false} PresentLosesNothing(names: seq<string>, queues: seq<string>)
    ensures |Present(names, queues)| < |names| <==> Present(names, queues) != names
    ensures Present(names, queues) == names <==> forall s :: s in names ==> s in queues
    decreases |names|
  {
    PresentAre(names, queues);
    if names != [] {
      var n := |names| - 1;
      PresentLosesNothing(names[..n], queues);
      PresentAre(names[..n], queues);
      assert names == names[..n] + [names[n]];
    }
  }

  /** What restoring makes of the state. */
  function Restored(s: State, queues: seq<string>): State {
    var present := Present(s.selection, queues);
    if queues == [] || present == s.selection then s
    else State(s.enabled && present != [], present)
  }

  /** Restoring keeps exactly the queues that are still there, in their order, never turns sharing on,
      does nothing without a catalog, and a second time does nothing. */
  lemma RestoringIsStable(s: State, queues: seq<string>)
    requires Distinct(s.selection)
    ensures var r := Restored(s, queues);
      && (queues != [] ==> r.selection == Present(s.selection, queues))
      && (queues == [] ==> r == s)
      && (r.enabled ==> s.enabled)
      && (s.enabled && !r.enabled ==> r.selection == [])
      && Restored(r, queues) == r
  {
    var present := Present(s.selection, queues);
    PresentAre(s.selection, queues);
    PresentLosesNothing(present, queues);
  }

  /** Whether sharing starts by itself. */
  predicate Autostarts(s: State) {
    s.enabled && s.selection != []
  }

  /** After restoring against a catalog with queues, sharing starts by itself exactly when it was on and
      at least one of the saved queues is still there. */
  lemma AutostartAfterRestore(s: State, queues: seq<string>)
    requires queues != []
    ensures Autostarts(Restored(s, queues)) <==> s.enabled && exists name :: name in s.selection && name in queues
  {
    PresentAre(s.selection, queues);
    var present := Present(s.selection, queues);
    assert present != [] ==> present[0] in s.selection && present[0] in queues;
  }

  datatype Error = CatalogFailed | NotLocal(name: string) | WriteFailed

  /** One local queue and whether it is shared. */
  datatype LocalPrinter = LocalPrinter(name: string, shared: bool)

  function Marked(queues: seq<string>, selection: seq<string>): (r: seq<LocalPrinter>)
    ensures |r| == |queues|
    ensures forall k :: 0 <= k < |queues| ==> r[k] == LocalPrinter(queues[k], queues[k] in selection)
  {
    seq(|queues|, k requires 0 <= k < |queues| => LocalPrinter(queues[k], queues[k] in selection))
  }

  // ---------------------------------------------------------------- reloads

  /** The state of a persistent installation and its file. */
  datatype Store = Store(state: State, file: Option<Saved>)

  /** A call, with what the catalog and the disk answered it. */
  datatype Call =
    | Share(names: seq<string>, before: Option<seq<string>>, after: Option<seq<string>>, writable: bool)
    | Enable(value: bool, writable: bool)
    | Restoring(queues: Option<seq<string>>, writable: bool)

  /** The state with its file written, when the disk allows it. */
  function Written(s: State, file: Option<Saved>, writable: bool): Store {
    Store(s, if writable then Some(Saved(s.enabled, s.selection)) else file)
  }

  predicate AllLocal(names: seq<string>, queues: seq<string>) {
    forall k :: 0 <= k < |names| ==> names[k] in queues
  }

  /** What a call leaves behind. */
  function AfterCall(s: Store, c: Call): Store {
    match c
    case Share(names, before, _, writable) =>
      if before.None? || !AllLocal(names, before.value) then s
      else Written(State(s.state.enabled, Dedup(names)), s.file, writable)
    case Enable(value, writable) => Written(State(value, s.state.selection), s.file, writable)
    case Restoring(queues, writable) =>
      if queues.None? || Restored(s.state, queues.value) == s.state then s
      else Written(Restored(s.state, queues.value), s.file, writable)
  }

  /** Whether a call returns Ok. */
  predicate Succeeds(s: Store, c: Call) {
    match c
    case Share(names, before, after, writable) => before.Some? && AllLocal(names, before.value) && writable && after.Some?
    case Enable(_, writable) => writable
    case Restoring(queues, writable) => queues.Some? && (Restored(s.state, queues.value) == s.state || writable)
  }

  /** Reopening gives the same state. */
  ghost predicate Survives(s: Store) {
    IsSelection(s.state.selection) && Reopen(s.file) == s.state
  }

  ghost predicate HasNames(c: Call) {
    c.Share? ==> forall k :: 0 <= k < |c.names| ==> IsName(c.names[k])
  }

  lemma CallSurvives(s: Store, c: Call)
    requires Survives(s) && HasNames(c) && (c.writable || Succeeds(s, c))
    ensures Survives(AfterCall(s, c))
  {
    var state := AfterCall(s, c).state;
    if AfterCall(s, c) != s {
      if c.Share? {
        DedupKeeps(c.names);
        assert forall k :: 0 <= k < |state.selection| ==> state.selection[k] in c.names;
      } else if c.Restoring? {
        PresentAre(s.state.selection, c.queues.value);
        assert forall k :: 0 <= k < |state.selection| ==> state.selection[k] in s.state.selection;
      }
      SavedReopens(state.enabled, state.selection);
    }
  }

  /** Sharing state survives reloads: after any sequence of set, enable and restore calls from an opened
      file, each successful or failed for another reason than the disk, reopening gives the same
      selection and flag. */
  lemma {:induction false} RunsSurvive(stores: seq<Store>, calls: seq<Call>, k: nat)
    requires |stores| == |calls| + 1 && k <= |calls|
    requires stores[0].state == Reopen(stores[0].file)
    requires forall i :: 0 <= i < k ==>
               HasNames(calls[i]) && (calls[i].writable || Succeeds(stores[i], calls[i]))
               && stores[i + 1] == AfterCall(stores[i], calls[i])
    ensures Survives(stores[k])
    decreases k
  {
    if k == 0 {
      ReopenIsSelection(stores[0].file);
    } else {
      RunsSurvive(stores, calls, k - 1);
      CallSurvives(stores[k - 1], calls[k - 1]);
    }
  }

  // ---------------------------------------------------------------- the use case

  class Selection {
    var selection: seq<string>
    var enabled: bool
    /** What the watch channel holds, and how often it changed. */
    var channel: seq<string>
    var version: nat
    const persistent: bool
    var file: Option<Saved>

    ghost predicate Valid()
      reads this
    {
      IsSelection(selection) && channel == selection
    }

    ghost function Current(): State
      reads this
    {
      State(enabled, selection)
    }

    /** Reopening would give what there is now. */
    ghost predicate Saves()
      reads this
    {
      persistent ==> Reopen(file) == Current()
    }

    constructor (persistent: bool, file: Option<Saved>)
      ensures Valid() && Saves() && this.persistent == persistent && this.file == file && version == 0
      ensures Current() == if persistent then Reopen(file) else State(false, [])
    {
      var state := if persistent then Reopen(file) else State(false, []);
      this.persistent, this.file, version := persistent, file, 0;
      selection, channel, enabled := state.selection, state.selection, state.enabled;
      ReopenIsSelection(file);
    }

    /** Writes the settings, or leaves the file as it was. */
    method Persist(writable: bool) returns (ok: bool)
      requires Valid()
      modifies this`file
      ensures ok <==> !persistent || writable
      ensures ok ==> Saves()
      ensures file == if persistent && writable then Some(Saved(enabled, selection)) else old(file)
    {
      if !persistent {
        return true;
      }
      if !writable {
        return false;
      }
      SavedReopens(enabled, selection);
      file := Some(Saved(enabled, selection));
      return true;
    }

    method Select(names: seq<string>)
      requires channel == selection && IsSelection(names)
      modifies this`selection, this`channel, this`version
      ensures Valid() && selection == names
      ensures version == old(version) + if names == old(selection) then 0 else 1
    {
      selection := names;
      if channel != selection {
        channel := selection;
        version := version + 1;
      }
    }

    /** Shares exactly the given queues. `before` and `after` are what the catalog answers when it is
        asked first and last. */
    method SetShared(names: seq<string>, before: Option<seq<string>>, after: Option<seq<string>>, writable: bool)
      returns (r: Result<seq<LocalPrinter>, Error>)
      requires Valid() && forall k :: 0 <= k < |names| ==> IsName(names[k])
      modifies this
      ensures Valid() && enabled == old(enabled)
      ensures before.None? || (exists s :: s in names && s !in before.value)
              ==> r.Err? && Current() == old(Current()) && file == old(file) && version == old(version)
      ensures before.Some? && (forall s :: s in names ==> s in before.value)
              ==> selection == Dedup(names) && version == old(version) + (if Dedup(names) == old(selection) then 0 else 1)
                  && (!persistent || writable ==> Saves())
      ensures r.Ok? ==> Saves() && selection == Dedup(names) && after.Some? && r.value == Marked(after.value, Dedup(names))
      ensures r == Err(WriteFailed) ==> persistent && !writable && file == old(file)
      ensures persistent ==>
                var c := Share(names, before, after, writable);
                Store(Current(), file) == AfterCall(old(Store(Current(), file)), c)
                && (r.Ok? <==> Succeeds(old(Store(Current(), file)), c))
      ensures r.Err? && r.error.NotLocal? ==> r.error.name in names && before.Some? && r.error.name !in before.value
    {
      if before.None? {
        return Err(CatalogFailed);
      }
      var i := 0;
      while i < |names|
        invariant 0 <= i <= |names|
        invariant forall k :: 0 <= k < i ==> names[k] in before.value
      {
        if names[i] !in before.value {
          return Err(NotLocal(names[i]));
        }
        i := i + 1;
      }
      var selected := NewSelection(names);
      DedupKeeps(names);
      assert forall k :: 0 <= k < |selected| ==> selected[k] in names;
      Select(selected);
      var ok := Persist(writable);
      if !ok {
        return Err(WriteFailed);
      }
      if after.None? {
        return Err(CatalogFailed);
      }
      return Ok(Marked(after.value, selection));
    }

    /** Records whether sharing was started or stopped. */
    method SetSharingEnabled(value: bool, writable: bool) returns (ok: bool)
      requires Valid()
      modifies this`enabled, this`file
      ensures Valid() && enabled == value
      ensures ok <==> !persistent || writable
      ensures ok ==> Saves()
      ensures persistent ==> Store(Current(), file) == AfterCall(old(Store(Current(), file)), Enable(value, writable))
    {
      enabled := value;
      ok := Persist(writable);
    }

    /** Sharing starts by itself when it was on and there is something to share. */
    method IsAutostartEnabled() returns (r: bool)
      ensures r <==> Autostarts(Current())
    {
      r := enabled && selection != [];
    }

    /** The selected queues that are still there, and whether any is gone. */
    method StillThere(queues: seq<string>) returns (updated: seq<string>, changed: bool)
      ensures updated == Present(selection, queues)
      ensures changed <==> updated != selection
    {
      updated, changed := [], false;
      var i := 0;
      while i < |selection|
        invariant 0 <= i <= |selection|
        invariant updated == Present(selection[..i], queues)
        invariant changed <==> |updated| < i
      {
        assert selection[..i + 1][..i] == selection[..i];
        PresentAre(selection[..i], queues);
        if selection[i] in queues {
          updated := updated + [selection[i]];
        } else {
          changed := true;
        }
        i := i + 1;
      }
      assert selection[..i] == selection;
      PresentLosesNothing(selection, queues);
    }

    /** Drops the queues that are gone. */
    method Restore(queues: Option<seq<string>>, writable: bool) returns (r: Result<(), Error>)
      requires Valid()
      modifies this
      ensures Valid()
      ensures Current() == if queues.None? then old(Current()) else Restored(old(Current()), queues.value)
      ensures version == old(version) + if selection == old(selection) then 0 else 1
      ensures Current() == old(Current()) ==> file == old(file)
      ensures r.Ok? && old(Saves()) ==> Saves()
      ensures r.Err? <==> queues.None? || (selection != old(selection) && persistent && !writable)
      ensures persistent ==> Store(Current(), file) == AfterCall(old(Store(Current(), file)), Restoring(queues, writable))
    {
      if queues.None? {
        return Err(CatalogFailed);
      }
      if queues.value == [] {
        return Ok(());
      }
      var updated, changed := StillThere(queues.value);
      if changed {
        PresentAre(selection, queues.value);
        assert forall k :: 0 <= k < |updated| ==> updated[k] in selection;
        var ok := Keep(updated, writable);
        if !ok {
          return Err(WriteFailed);
        }
      }
      return Ok(());
    }

    /** Selects what is left of the selection; with nothing left sharing is off. */
    method Keep(updated: seq<string>, writable: bool) returns (ok: bool)
      requires Valid() && IsSelection(updated) && updated != selection
      modifies this
      ensures Valid() && Current() == State(old(enabled) && updated != [], updated)
      ensures version == old(version) + 1
      ensures ok <==> !persistent || writable
      ensures ok ==> Saves()
      ensures file == if persistent && writable then Some(Saved(enabled, selection)) else old(file)
    {
      DedupOfDistinct(updated);
      var kept := NewSelection(updated);
      if kept == [] {
        enabled := false;
      }
      Select(kept);
      ok := Persist(writable);
    }
  }
}
