/** One run of the program (`main`): build the application, run the event
    loop, and, when the user confirmed, hand the script file to the writer.
    The environment value, the listing command's result and the stream of
    terminal events are parameters; the file itself is the (path, text) pair
    passed to `fs::write`. */
module Session {
  import opened Common
  import opened Text
  import opened Catalog
  import opened Profiles
  import opened Script
  import opened AppState

  /** The choice a confirmed run writes a script for. */
  datatype Request = Request(current: string, target: string, pkgManager: string)

  /** How a run ends so far: the listing command could not be started; the
      loop is still waiting for keys; the user left with q or Esc; or the
      user confirmed this request. */
  datatype SessionEnd = InitFailed | StillRunning | Quit | Written(request: Request)

  /** The outcome of a run, as a function of its inputs. */
  function Outcome(xdgCurrentDesktop: Option<string>, listing: Listing, events: seq<Event>): SessionEnd
  {
    match GetAvailableDes(listing)
    case None => InitFailed
    case Some(des) =>
      var end := Run(Selection(0, 0, false), |des|, events);
      if !end.returned then StillRunning
      else if !end.sel.shouldQuit then Quit
      else Written(Request(MapRawDeToProfile(CurrentDesktopRaw(xdgCurrentDesktop)),
                           des[end.sel.deIndex], PkgManagerList[end.sel.pkgIndex]))
  }

  /** The file written for a request: named by `generate_filename`, holding
      `generate_script` with every placeholder replaced by that name. */
  function FileFor(r: Request): FileWrite
  {
    ScriptFile(r.current, r.target, r.pkgManager)
  }

  /** `main`, with the file write returned instead of performed. */
  method RunSession(xdgCurrentDesktop: Option<string>, listing: Listing, events: seq<Event>)
    returns (outcome: SessionEnd, written: Option<FileWrite>)
    ensures outcome == Outcome(xdgCurrentDesktop, listing, events)
    ensures written == if outcome.Written? then Some(FileFor(outcome.request)) else None
  {
    var created := App.New(xdgCurrentDesktop, listing);
    if created.None? {
      return InitFailed, None;
    }
    var app := created.value;
    var returned := app.RunApp(events);
    if !returned {
      return StillRunning, None;
    }
    if app.shouldQuit {
      outcome := Written(Request(app.currentDeProfile, app.TargetProfile(), app.PkgManager()));
      var fileName := app.GenerateFilename();
      var scriptContent := app.GenerateScript();
      var finalScriptContent := ReplaceAll(scriptContent, ScriptPlaceholder, fileName);
      written := Some(FileWrite(fileName, finalScriptContent));
    } else {
      outcome, written := Quit, None;
    }
  }

  /** A file is written exactly when the listing command could be started and
      Enter came before any q or Esc. */
  lemma WritesIffConfirmed(xdgCurrentDesktop: Option<string>, listing: Listing, events: seq<Event>)
    ensures Outcome(xdgCurrentDesktop, listing, events).Written? <==>
            listing.Exited? && ConfirmedBeforeExit(events)
  {
    match GetAvailableDes(listing)
    case None =>
    case Some(des) =>
      RunQuitsIffConfirmed(Selection(0, 0, false), |des|, events);
      RunReturnsIffStopKey(Selection(0, 0, false), |des|, events);
      if ConfirmedBeforeExit(events) {
        var i :| 0 <= i < |events| && IsAction(events[i], Confirm);
        assert Stops(events[i]);
      }
  }

  /** A confirmed request is for the current desktop's profile, one of the
      offered targets and one of the package managers. */
  lemma WrittenRequestShape(xdgCurrentDesktop: Option<string>, listing: Listing, events: seq<Event>)
    requires Outcome(xdgCurrentDesktop, listing, events).Written?
    ensures var r := Outcome(xdgCurrentDesktop, listing, events).request;
            && r.current == MapRawDeToProfile(CurrentDesktopRaw(xdgCurrentDesktop))
            && r.target in AvailableDes(listing.succeeded, listing.stdout)
            && r.pkgManager in PkgManagerList
  {
  }

  /** q or Esc as the first key writes nothing. */
  lemma QuitKeyWritesNothing(xdgCurrentDesktop: Option<string>, listing: Listing, events: seq<Event>)
    requires listing.Exited?
    requires |events| > 0 && IsAction(events[0], Exit)
    ensures Outcome(xdgCurrentDesktop, listing, events) == Quit
  {
    var des := AvailableDes(listing.succeeded, listing.stdout);
    ExitKeyLeavesSelection(Selection(0, 0, false), |des|, events);
  }

  /** Without Enter, q or Esc among the events, the loop is still waiting and
      nothing is written. */
  lemma NoStopKeyKeepsRunning(xdgCurrentDesktop: Option<string>, listing: Listing, events: seq<Event>)
    requires listing.Exited?
    requires forall i :: 0 <= i < |events| ==> !Stops(events[i])
    ensures Outcome(xdgCurrentDesktop, listing, events) == StillRunning
  {
    var des := AvailableDes(listing.succeeded, listing.stdout);
    RunReturnsIffStopKey(Selection(0, 0, false), |des|, events);
  }

  /** Down, Tab, Enter over two offered profiles confirms the second profile
      with the second package manager. */
  lemma DownTabEnterConfirms(events: seq<Event>)
    requires events == [Key(KeyEvent(Down, false)), Key(KeyEvent(Tab, false)), Key(KeyEvent(Enter, false))]
    ensures Run(Selection(0, 0, false), 2, events) == RunEnd(Selection(1, 1, true), true)
  {
    var rest1 := events[1..];
    var rest2 := rest1[1..];
    assert rest1 == [Key(KeyEvent(Tab, false)), Key(KeyEvent(Enter, false))];
    assert rest2 == [Key(KeyEvent(Enter, false))];
    assert rest2[1..] == [];
    assert ActionOf(KeyEvent(Down, false)) == NextProfile;
    assert ActionOf(KeyEvent(Tab, false)) == CycleManager;
    assert ActionOf(KeyEvent(Enter, false)) == Confirm;
    assert Run(Selection(1, 1, true), 2, []) == RunEnd(Selection(1, 1, true), true);
    assert Run(Selection(1, 1, false), 2, rest2) == RunEnd(Selection(1, 1, true), true);
    assert Run(Selection(1, 0, false), 2, rest1) == RunEnd(Selection(1, 1, true), true);
  }

  /** A desktop session of KDE with a listing of KDE and GNOME: Down selects
      GNOME, Tab selects yay, Enter confirms, and the script from KDE to GNOME
      with yay is written. */
  lemma KdeToGnomeWithYay(xdg: Option<string>, stdout: string, events: seq<Event>,
                          current: string, target: string, pkgManager: string)
    requires xdg == Some("KDE")
    requires current == "KDE-Desktop" && target == "GNOME-Desktop" && pkgManager == "yay"
    requires stdout == current + "\n" + target + "\n"
    requires events == [Key(KeyEvent(Down, false)), Key(KeyEvent(Tab, false)), Key(KeyEvent(Enter, false))]
    ensures Outcome(xdg, Exited(true, stdout), events) == Written(Request(current, target, pkgManager))
  {
    TwoDesktopListing(current, target);
    KdeResolves(xdg);
    DownTabEnterConfirms(events);
    var des := [current, target];
    assert GetAvailableDes(Exited(true, stdout)) == Some(des);
    assert des[1] == target && PkgManagerList[1] == pkgManager;
  }

  /** The file of that session is de_switcher_KDE_to_GNOME.sh. */
  lemma KdeToGnomeFileName(current: string, target: string)
    requires current == "KDE-Desktop" && target == "GNOME-Desktop"
    ensures GenerateFilename(current, target) == "de_switcher_" + "KDE" + "_to_" + "GNOME" + ".sh"
  {
    assert current == "KDE" + "-Desktop" && target == "GNOME" + "-Desktop";
    FilenameFromBases("KDE", "-Desktop", "GNOME", "-Desktop");
  }
}
