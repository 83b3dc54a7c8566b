/** The interactive part of the switcher: the key bindings of the event loop,
    the selection state `App` keeps, and the loop that feeds keys to it. The
    pure definitions (`ActionOf`, `Apply`, `Run`) specify what the methods of
    `App` do in place. */
module AppState {
  import opened Common
  import opened Catalog
  import opened Profiles
  import opened Text
  import Script

  // ---------------------------------------------------------------------
  // Events and key bindings

  datatype KeyCode = Char(c: char) | Esc | Up | Down | Tab | Enter | OtherKey

  /** A key with whether the Control modifier was held. */
  datatype KeyEvent = KeyEvent(code: KeyCode, control: bool)

  /** What the terminal delivers: a key, or any other event (mouse, resize,
      focus, paste), which the loop reads and ignores. */
  datatype Event = Key(key: KeyEvent) | OtherEvent

  datatype Action = Exit | NextProfile | PreviousProfile | CycleManager | Confirm | Ignore

  /** The arms of the key match in `run_app`, tried in source order. */
  function ActionOf(key: KeyEvent): (a: Action)
    ensures a == Exit <==> key.code == Char('q') || key.code == Esc
    ensures a == NextProfile <==> key.code == Char('j') || key.code == Down
    ensures a == PreviousProfile <==> key.code == Char('k') || key.code == Up
    ensures a == CycleManager <==> (key.code == Char('p') && key.control) || key.code == Tab
    ensures a == Confirm <==> key.code == Enter
  {
    match key.code
    case Char(c) =>
      if c == 'q' then Exit
      else if c == 'j' then NextProfile
      else if c == 'k' then PreviousProfile
      else if c == 'p' && key.control then CycleManager
      else Ignore
    case Esc => Exit
    case Down => NextProfile
    case Up => PreviousProfile
    case Tab => CycleManager
    case Enter => Confirm
    case OtherKey => Ignore
  }

  /** Modifiers matter only for Ctrl+P: q and Esc exit whatever is held. */
  lemma ExitIgnoresModifiers(code: KeyCode, control: bool)
    ensures ActionOf(KeyEvent(code, control)) == ActionOf(KeyEvent(code, !control))
            || code == Char('p')
  {
  }

  // ---------------------------------------------------------------------
  // Index arithmetic

  /** `next_de`: one step forward, wrapping from the last profile to the first. */
  function NextIndex(i: nat, n: nat): (j: nat)
    requires i < n
    ensures j < n
    ensures j == (if i == n - 1 then 0 else i + 1)
  {
    (i + 1) % n
  }

  /** `previous_de`: one step back, wrapping from the first profile to the last. */
  function PreviousIndex(i: nat, n: nat): (j: nat)
    requires i < n
    ensures j < n
  {
    if i > 0 then i - 1 else n - 1
  }

  /** `cycle_pkg_manager`: the next of the three package managers. */
  function CycleIndex(i: nat): (j: nat)
    requires i < |PkgManagerList|
    ensures j < |PkgManagerList|
    ensures j == if i == |PkgManagerList| - 1 then 0 else i + 1
  {
    (i + 1) % |PkgManagerList|
  }

  lemma PreviousUndoesNext(i: nat, n: nat)
    requires i < n
    ensures PreviousIndex(NextIndex(i, n), n) == i
  {
  }

  lemma NextUndoesPrevious(i: nat, n: nat)
    requires i < n
    ensures NextIndex(PreviousIndex(i, n), n) == i
  {
  }

  lemma PreviousFromFirstIsLast(n: nat)
    requires n > 0
    ensures PreviousIndex(0, n) == n - 1
  {
  }

  /** Cycling three times comes back to the same package manager. */
  lemma CycleThriceIsIdentity(i: nat)
    requires i < |PkgManagerList|
    ensures CycleIndex(CycleIndex(CycleIndex(i))) == i
  {
  }

  /** `k` applications of `NextIndex`. */
  function NextPower(i: nat, n: nat, k: nat): (j: nat)
    requires i < n
    ensures j < n
  {
    if k == 0 then i else NextIndex(NextPower(i, n, k - 1), n)
  }

  /** Up to a full turn, `k` steps forward land `k` places on, wrapping once. */
  lemma {:induction false} NextPowerWraps(i: nat, n: nat, k: nat)
    requires i < n && k <= n
    ensures NextPower(i, n, k) == if i + k < n then i + k else i + k - n
  {
    if k > 0 {
      NextPowerWraps(i, n, k - 1);
    }
  }

  /** `n` steps forward from any profile come back to it. */
  lemma NextFullTurn(i: nat, n: nat)
    requires i < n
    ensures NextPower(i, n, n) == i
  {
    NextPowerWraps(i, n, n);
  }

  // ---------------------------------------------------------------------
  // The selection as a value

  /** The mutable fields of `App`. */
  datatype Selection = Selection(deIndex: nat, pkgIndex: nat, shouldQuit: bool)

  predicate InRange(s: Selection, n: nat)
  {
    s.deIndex < n && s.pkgIndex < |PkgManagerList|
  }

  /** The effect of one action on the selection. `Exit` makes the loop return
      and changes nothing; `Ignore` changes nothing. */
  function Apply(s: Selection, n: nat, a: Action): (t: Selection)
    requires InRange(s, n)
    ensures InRange(t, n)
    ensures t.shouldQuit == (s.shouldQuit || a == Confirm)
  {
    match a
    case Exit => s
    case NextProfile => s.(deIndex := NextIndex(s.deIndex, n))
    case PreviousProfile => s.(deIndex := PreviousIndex(s.deIndex, n))
    case CycleManager => s.(pkgIndex := CycleIndex(s.pkgIndex))
    case Confirm => s.(shouldQuit := true)
    case Ignore => s
  }

  /** Each action touches only the field it is bound to. */
  lemma ApplyFrames(s: Selection, n: nat, a: Action)
    requires InRange(s, n)
    ensures a != NextProfile && a != PreviousProfile ==> Apply(s, n, a).deIndex == s.deIndex
    ensures a != CycleManager ==> Apply(s, n, a).pkgIndex == s.pkgIndex
    ensures a == Exit || a == Ignore ==> Apply(s, n, a) == s
  {
  }

  /** Where the loop stands after a run of events: the selection, and whether
      the loop has returned. */
  datatype RunEnd = RunEnd(sel: Selection, returned: bool)

  /** `run_app` over a finite run of events: before each event it returns if
      `should_quit` is set; q or Esc makes it return at once; other events
      update the selection. When the events run out before it returns, the
      loop is still waiting. */
  function Run(s: Selection, n: nat, events: seq<Event>): (e: RunEnd)
    requires InRange(s, n)
    ensures InRange(e.sel, n)
    decreases |events|
  {
    if s.shouldQuit then RunEnd(s, true)
    else if |events| == 0 then RunEnd(s, false)
    else
      match events[0]
      case OtherEvent => Run(s, n, events[1..])
      case Key(k) =>
        var a := ActionOf(k);
        if a == Exit then RunEnd(s, true) else Run(Apply(s, n, a), n, events[1..])
  }

  predicate IsAction(e: Event, a: Action)
  {
    e.Key? && ActionOf(e.key) == a
  }

  /** Some Enter arrives with no q or Esc before it. */
  predicate ConfirmedBeforeExit(events: seq<Event>)
  {
    exists i :: 0 <= i < |events| && IsAction(events[i], Confirm)
                && forall j :: 0 <= j < i ==> !IsAction(events[j], Exit)
  }

  /** An event that neither confirms nor exits does not decide the outcome. */
  lemma ConfirmedAfterNeutral(events: seq<Event>)
    requires |events| > 0
    requires !IsAction(events[0], Confirm) && !IsAction(events[0], Exit)
    ensures ConfirmedBeforeExit(events) <==> ConfirmedBeforeExit(events[1..])
  {
    var rest := events[1..];
    if ConfirmedBeforeExit(events) {
      var i :| 0 <= i < |events| && IsAction(events[i], Confirm)
               && forall j :: 0 <= j < i ==> !IsAction(events[j], Exit);
      assert rest[i - 1] == events[i];
      forall j | 0 <= j < i - 1
        ensures !IsAction(rest[j], Exit)
      {
        assert rest[j] == events[j + 1];
      }
    }
    if ConfirmedBeforeExit(rest) {
      var i :| 0 <= i < |rest| && IsAction(rest[i], Confirm)
               && forall j :: 0 <= j < i ==> !IsAction(rest[j], Exit);
      assert events[i + 1] == rest[i];
      forall j | 0 <= j < i + 1
        ensures !IsAction(events[j], Exit)
      {
        if j > 0 {
          assert events[j] == rest[j - 1];
        }
      }
    }
  }

  /** A leading q or Esc rules out confirmation. */
  lemma NotConfirmedAfterExit(events: seq<Event>)
    requires |events| > 0 && IsAction(events[0], Exit)
    ensures !ConfirmedBeforeExit(events)
  {
    forall i | 0 <= i < |events| && IsAction(events[i], Confirm)
      ensures exists j :: 0 <= j < i && IsAction(events[j], Exit)
    {
      assert i != 0;
      assert IsAction(events[0], Exit);
    }
  }

  /** Starting from an unconfirmed selection, the loop ends with
      `should_quit` set exactly when Enter comes before any q or Esc. */
  lemma {:induction false} RunQuitsIffConfirmed(s: Selection, n: nat, events: seq<Event>)
    requires InRange(s, n) && !s.shouldQuit
    ensures Run(s, n, events).sel.shouldQuit <==> ConfirmedBeforeExit(events)
    decreases |events|
  {
    if |events| > 0 {
      var e := events[0];
      if IsAction(e, Exit) {
        NotConfirmedAfterExit(events);
      } else if IsAction(e, Confirm) {
        assert ConfirmedBeforeExit(events) by {
          assert IsAction(events[0], Confirm);
        }
      } else {
        ConfirmedAfterNeutral(events);
        match e
        case OtherEvent =>
          RunQuitsIffConfirmed(s, n, events[1..]);
        case Key(k) =>
          RunQuitsIffConfirmed(Apply(s, n, ActionOf(k)), n, events[1..]);
      }
    }
  }

  predicate Stops(e: Event)
  {
    IsAction(e, Exit) || IsAction(e, Confirm)
  }

  /** The loop returns within the events exactly when `should_quit` was
      already set or some event is Enter, q or Esc. */
  lemma {:induction false} RunReturnsIffStopKey(s: Selection, n: nat, events: seq<Event>)
    requires InRange(s, n)
    ensures Run(s, n, events).returned <==>
            s.shouldQuit || exists i :: 0 <= i < |events| && Stops(events[i])
    decreases |events|
  {
    if !s.shouldQuit && |events| > 0 && !Stops(events[0]) {
      var rest := events[1..];
      var t := match events[0] case OtherEvent => s case Key(k) => Apply(s, n, ActionOf(k));
      RunReturnsIffStopKey(t, n, rest);
      assert !t.shouldQuit;
      if exists i :: 0 <= i < |events| && Stops(events[i]) {
        var i :| 0 <= i < |events| && Stops(events[i]);
        assert rest[i - 1] == events[i];
      }
      if exists i :: 0 <= i < |rest| && Stops(rest[i]) {
        var i :| 0 <= i < |rest| && Stops(rest[i]);
        assert events[i + 1] == rest[i];
      }
    } else if !s.shouldQuit && |events| > 0 {
      assert Stops(events[0]);
    }
  }

  /** q or Esc leaves the selection as it was, with `should_quit` still clear. */
  lemma ExitKeyLeavesSelection(s: Selection, n: nat, events: seq<Event>)
    requires InRange(s, n) && !s.shouldQuit
    requires |events| > 0 && IsAction(events[0], Exit)
    ensures Run(s, n, events) == RunEnd(s, true)
  {
  }

  /** A key bound to nothing, and any non-key event, changes no field. */
  lemma IgnoredEventChangesNothing(s: Selection, n: nat, e: Event, rest: seq<Event>)
    requires InRange(s, n) && !s.shouldQuit
    requires e.OtherEvent? || IsAction(e, Ignore)
    ensures Run(s, n, [e] + rest) == Run(s, n, rest)
  {
    assert ([e] + rest)[1..] == rest;
  }

  // ---------------------------------------------------------------------
  // The application object

  class App {
    const currentDeRaw: string
    const currentDeProfile: string
    const availableDes: seq<string>
    var selectedDeIndex: nat
    var selectedPkgManagerIndex: nat
    var shouldQuit: bool

    /** The selection stays inside the profile list and the manager list. */
    ghost predicate Valid()
      reads this
    {
      |availableDes| > 0 && InRange(Sel(), |availableDes|)
    }

    function Sel(): Selection
      reads this
    {
      Selection(selectedDeIndex, selectedPkgManagerIndex, shouldQuit)
    }

    constructor (raw: string, des: seq<string>)
      requires |des| > 0
      ensures Valid()
      ensures currentDeRaw == raw && currentDeProfile == MapRawDeToProfile(raw)
      ensures availableDes == des
      ensures Sel() == Selection(0, 0, false)
    {
      currentDeRaw := raw;
      currentDeProfile := MapRawDeToProfile(raw);
      availableDes := des;
      selectedDeIndex := 0;
      selectedPkgManagerIndex := 0;
      shouldQuit := false;
    }

    /** `App::new`: the desktop name from the environment value, its
        profile, and the available profiles; fails when the listing command
        could not be started. */
    static method New(xdgCurrentDesktop: Option<string>, listing: Listing) returns (app: Option<App>)
      ensures app.None? <==> listing.SpawnFailed?
      ensures app.Some? ==> fresh(app.value) && app.value.Valid()
      ensures app.Some? ==> app.value.currentDeRaw == CurrentDesktopRaw(xdgCurrentDesktop)
      ensures app.Some? ==> app.value.currentDeProfile == MapRawDeToProfile(CurrentDesktopRaw(xdgCurrentDesktop))
      ensures app.Some? ==> Some(app.value.availableDes) == GetAvailableDes(listing)
      ensures app.Some? ==> app.value.Sel() == Selection(0, 0, false)
    {
      var raw := CurrentDesktopRaw(xdgCurrentDesktop);
      match GetAvailableDes(listing)
      case None =>
        app := None;
      case Some(des) =>
        var a := new App(raw, des);
        app := Some(a);
    }

    method NextDe()
      requires Valid()
      modifies this
      ensures Valid()
      ensures Sel() == Apply(old(Sel()), |availableDes|, NextProfile)
    {
      selectedDeIndex := (selectedDeIndex + 1) % |availableDes|;
    }

    method PreviousDe()
      requires Valid()
      modifies this
      ensures Valid()
      ensures Sel() == Apply(old(Sel()), |availableDes|, PreviousProfile)
    {
      if selectedDeIndex > 0 {
        selectedDeIndex := selectedDeIndex - 1;
      } else {
        selectedDeIndex := |availableDes| - 1;
      }
    }

    method CyclePkgManager()
      requires Valid()
      modifies this
      ensures Valid()
      ensures Sel() == Apply(old(Sel()), |availableDes|, CycleManager)
    {
      selectedPkgManagerIndex := (selectedPkgManagerIndex + 1) % |PkgManagerList|;
    }

    /** One key through the match of `run_app`; `exit` when the loop must return. */
    method HandleKey(key: KeyEvent) returns (exit: bool)
      requires Valid()
      modifies this
      ensures Valid()
      ensures exit <==> ActionOf(key) == Exit
      ensures Sel() == Apply(old(Sel()), |availableDes|, ActionOf(key))
    {
      exit := false;
      match key.code {
        case Char(c) =>
          if c == 'q' {
            exit := true;
          } else if c == 'j' {
            NextDe();
          } else if c == 'k' {
            PreviousDe();
          } else if c == 'p' && key.control {
            CyclePkgManager();
          }
        case Esc =>
          exit := true;
        case Down =>
          NextDe();
        case Up =>
          PreviousDe();
        case Tab =>
          CyclePkgManager();
        case Enter =>
          shouldQuit := true;
        case OtherKey =>
      }
    }

    /** `run_app` fed with a finite run of events; `returned` is false when the
        events ran out while the loop was still waiting. */
    method RunApp(events: seq<Event>) returns (returned: bool)
      requires Valid()
      modifies this
      ensures Valid()
      ensures RunEnd(Sel(), returned) == Run(old(Sel()), |availableDes|, events)
    {
      var i := 0;
      while true
        invariant Valid()
        invariant i <= |events|
        invariant Run(Sel(), |availableDes|, events[i..]) == Run(old(Sel()), |availableDes|, events)
        decreases |events| - i
      {
        if shouldQuit {
          return true;
        }
        if i == |events| {
          return false;
        }
        var e := events[i];
        assert events[i..][1..] == events[i + 1..];
        i := i + 1;
        match e {
          case Key(key) =>
            var exit := HandleKey(key);
            if exit {
              return true;
            }
          case OtherEvent =>
        }
      }
    }

    /** The selected target, always one of the offered profiles. */
    function TargetProfile(): (target: string)
      reads this
      requires Valid()
      ensures target in availableDes
    {
      availableDes[selectedDeIndex]
    }

    /** The selected package manager, always one of the three. */
    function PkgManager(): (pkgManager: string)
      reads this
      requires Valid()
      ensures pkgManager in PkgManagerList
    {
      PkgManagerList[selectedPkgManagerIndex]
    }

    /** `App::generate_filename`: the file name for the current profile and
        the selected target. */
    function GenerateFilename(): (name: string)
      reads this
      requires Valid()
      ensures StartsWith(name, "de_switcher_")
      ensures EndsWith(name, "_to_" + Script.StripProfileSuffix(TargetProfile()) + ".sh")
    {
      Script.GenerateFilename(currentDeProfile, TargetProfile())
    }

    /** `App::generate_script`: the script for the current profile and the
        selection; it names the selected target and manager and enables the
        target's display manager. */
    function GenerateScript(): (script: string)
      reads this
      requires Valid()
      ensures Contains(script, "# Target DE: " + TargetProfile() + "\n")
      ensures Contains(script, "# Package Manager: " + PkgManager() + "\n")
      ensures Contains(script, "sudo systemctl enable " + Script.DisplayManagerFor(TargetProfile()) + "\n")
    {
      Script.ScriptHeaderNamesChoice(currentDeProfile, TargetProfile(), PkgManager());
      Script.ScriptEnablesDisplayManager(currentDeProfile, TargetProfile(), PkgManager());
      Script.GenerateScript(currentDeProfile, TargetProfile(), PkgManager())
    }
  }
}
