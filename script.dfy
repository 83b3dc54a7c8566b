/** The text the switcher writes: the script file name and the shell script
    that removes the current desktop's packages, installs the target's, and
    enables the target's display manager. Everything here is a pure function
    of (current profile, target profile, package manager). */
module Script {
  import opened Common
  import opened Text
  import opened Catalog

  /** The token the script names itself by until the caller substitutes the
      real file name. */
  const ScriptPlaceholder: string := "de_switch_script.sh"

  /** Joins text pieces in order. */
  function Concat(parts: seq<string>): string
  {
    if |parts| == 0 then "" else parts[0] + Concat(parts[1..])
  }

  /** Every piece occurs in the joined text. */
  lemma {:induction false} ConcatContainsPart(parts: seq<string>, i: nat)
    requires i < |parts|
    ensures Contains(Concat(parts), parts[i])
    decreases |parts|
  {
    var tail := Concat(parts[1..]);
    assert Concat(parts) == parts[0] + tail;
    if i == 0 {
      ContainsMiddle("", parts[0], tail);
      assert "" + parts[0] + tail == parts[0] + tail;
    } else {
      ConcatContainsPart(parts[1..], i - 1);
      assert parts[1..][i - 1] == parts[i];
      ContainsAfter(parts[0], tail, parts[i]);
    }
  }

  // ---------------------------------------------------------------------
  // Lookups

  /** "sudo" for the base package manager; the AUR helpers escalate on their own. */
  function SudoPrefix(pkgManager: string): (prefix: string)
    ensures prefix == "sudo" <==> pkgManager == "pacman"
    ensures prefix != "sudo" ==> prefix == ""
  {
    if pkgManager == "pacman" then "sudo" else ""
  }

  lemma SudoPrefixForManagers()
    ensures SudoPrefix(PkgManagerList[0]) == "sudo"
    ensures SudoPrefix(PkgManagerList[1]) == "" && SudoPrefix(PkgManagerList[2]) == ""
  {
  }

  /** Test applied to each catalog entry by the display-manager lookup. */
  function NamedAs(target: string): ((string, string)) -> bool
  {
    (entry: (string, string)) => entry.0 == target
  }

  /** The value of the first entry of `table` whose key is `key`, and
      `default` when no entry has that key. */
  function LookupOr(table: seq<(string, string)>, key: string, default: string): (v: string)
    ensures (exists k :: 0 <= k < |table| && table[k] == (key, v)) || v == default
    ensures (forall k :: 0 <= k < |table| ==> table[k].0 != key) ==> v == default
    ensures forall k :: (0 <= k < |table| && table[k].0 == key
                         && (forall j :: 0 <= j < k ==> table[j].0 != key)) ==> v == table[k].1
  {
    match FindFirst(table, NamedAs(key))
    case Some(k) =>
      assert forall k' :: (0 <= k' < |table| && table[k'].0 == key
                           && (forall j :: 0 <= j < k' ==> table[j].0 != key)) ==> k' == k;
      table[k].1
    case None => default
  }

  /** The display manager of the target: that of its catalog entry found by
      exact name, "lightdm" for a target the catalog does not list. */
  function DisplayManagerFor(target: string): (dm: string)
    ensures forall k :: 0 <= k < |DeDmMap| && DeDmMap[k].0 == target ==> dm == DeDmMap[k].1
    ensures target !in ProfileNames() ==> dm == "lightdm"
  {
    ProfileNamesDistinct();
    LookupOr(DeDmMap, target, "lightdm")
  }

  /** Every catalog profile gets the display manager listed beside it. */
  lemma DisplayManagerOfEntry(k: nat)
    requires k < |DeDmMap|
    ensures DisplayManagerFor(DeDmMap[k].0) == DeDmMap[k].1
  {
    ProfileNamesDistinct();
    FindFirstUnique(DeDmMap, NamedAs(DeDmMap[k].0), k);
  }

  /** A profile outside the catalog, such as COSMIC or the sentinel, gets "lightdm". */
  lemma DisplayManagerOutsideCatalog(target: string)
    requires target !in ProfileNames()
    ensures DisplayManagerFor(target) == "lightdm"
  {
    assert forall k :: 0 <= k < |DeDmMap| ==> ProfileNames()[k] != target;
  }

  lemma CosmicGetsDefaultDisplayManager(target: string)
    requires target == "COSMIC-Desktop"
    ensures DisplayManagerFor(target) == "lightdm"
  {
    SentinelsNotInCatalog();
    DisplayManagerOutsideCatalog(target);
  }

  // ---------------------------------------------------------------------
  // The script

  /** Step 2's commands: a special profile installs its literal package group
      (with the sudo prefix written directly against the manager name), every
      other profile installs what `eos-packagelist --install` resolves. */
  function InstallLines(target: string, pkgManager: string): seq<string>
  {
    if target in SpecialInstallMap then
      var group := SpecialInstallMap[target];
      [ "echo \"Installing special package group: " + group + "\"\n",
        SudoPrefix(pkgManager) + pkgManager + " -S " + group + "\n" ]
    else
      [ "echo \"Installing packages for " + target + " using eos-packagelist...\"\n",
        SudoPrefix(pkgManager) + " " + pkgManager + " -S $(eos-packagelist --install \"" + target + "\")\n" ]
  }

  function InstallCommand(target: string, pkgManager: string): string
  {
    Concat(InstallLines(target, pkgManager))
  }

  // The fixed text of the template, in the order it appears.

  const HeaderTop: string :=
    "#!/bin/bash\n"
    + "# "
    + "----------------------------------------------------\n"
    + "# Generated by Rust DE Switcher TUI\n"
  const ReviewNote: string :=
    "#\n"
    + "# REVIEW THIS SCRIPT BEFORE RUNNING:\n"
  const Rule: string := "# ----------------------------------------------------\n"
  const RemovalNotes: string :=
    "# 1. REMOVE CURRENT DE PACKAGES\n"
    + "# This assumes the current DE profile is one of "
    + "the recognized eos-packagelist profiles.\n"
    + "# CAUTION: This operation removes package "
    + "dependencies recursively.\n"
    + "\n"
  const GuardPrefix: string :=
    "if [ -n \"$CURRENT_DE_PROFILE\" ] "
    + "&& [ \"$CURRENT_DE_PROFILE\" != \"Unknown-Desktop\" ] "
    + "&& [ \"$CURRENT_DE_PROFILE\" != \""
  const PackageListSteps: string :=
    "    echo \"Creating package list for removal: "
    + "$CURRENT_DE_PROFILE...\"\n"
    + "\n"
    + "    # eos-packagelist runs as user\n"
    + "    eos-packagelist \"$CURRENT_DE_PROFILE\" > "
    + "/tmp/old_de_packages.txt\n"
    + "    \n"
    + "    echo \"Removing old DE packages (may prompt "
    + "for password)...\"\n"
    + "    # -Rcs: Remove, cascade, remove "
    + "dependencies only required by package(s) being "
    + "removed\n"
  const SkipRemoval: string :=
    "    rm /tmp/old_de_packages.txt\n"
    + "\n"
    + "else\n"
    + "    echo \"Skipping old DE removal (Current DE "
    + "profile: $CURRENT_DE_PROFILE is Unknown or "
    + "matches target).\"\n"
    + "fi\n"
    + "\n"
  const InstallHeading: string := "# 2. INSTALL NEW DE PACKAGES\n"
  const EnableHeading: string :=
    "\n"
    + "\n"
    + "# 3. ENABLE THE APPROPRIATE DISPLAY MANAGER\n"
  const DisableOthers: string :=
    "\n"
    + "# Disable any currently enabled display-manager "
    + "service\n"
    + "sudo systemctl disable --force $(systemctl "
    + "list-units --type=service --state=enabled "
    + "--no-pager | grep \"display-manager\" | awk "
    + "'{print $1}') 2>/dev/null\n"
    + "\n"
    + "# Enable the new display manager\n"
  const RebootPrompt: string :=
    "\n"
    + "# 4. Final message and reboot\n"
    + "echo \"\"\n"
    + "echo \"!!! Installation and configuration "
    + "complete. !!!\"\n"
    + "echo \"!!! You MUST reboot now to finish the "
    + "switch. !!!\"\n"
    + "\n"
    + "# Prompt for reboot\n"
    + "read -r -p \"Do you want to reboot now? [y/N]: "
    + "\" response\n"
    + "case \"$response\" in\n"
    + "    [yY][eE][sS]|[yY]) \n"
    + "        sudo reboot\n"
    + "        ;;\n"
    + "    *)\n"
    + "        echo \"Please reboot manually to "
    + "complete the switch.\"\n"
    + "        ;;\n"
    + "esac\n"

  /** The fixed text of the template as one record, so that what the script
      says can be proved for any fixed text and then read off for this one. */
  datatype Template = Template(
    headerTop: string, reviewNote: string, rule: string, removalNotes: string,
    guardPrefix: string, packageListSteps: string, skipRemoval: string,
    installHeading: string, enableHeading: string, disableOthers: string,
    rebootPrompt: string)

  const FixedText: Template :=
    Template(HeaderTop, ReviewNote, Rule, RemovalNotes, GuardPrefix, PackageListSteps,
             SkipRemoval, InstallHeading, EnableHeading, DisableOthers, RebootPrompt)

  /** The shell test that decides at run time whether the removal commands run. */
  function RemovalGuard(guardPrefix: string, target: string): string
  {
    guardPrefix + target + "\" ]; then\n"
  }

  /** The removal command of step 1. */
  function RemovalCommand(pkgManager: string): string
  {
    "    " + SudoPrefix(pkgManager) + " " + pkgManager + " -Rcs - < /tmp/old_de_packages.txt\n"
  }

  /** The script as a sequence of pieces: the fixed text, interleaved with the
      lines that carry the current profile, the target, the package manager,
      the placeholder and the display manager. */
  function ScriptPieces(fx: Template, current: string, target: string, pkgManager: string, dm: string)
    : seq<string>
  {
    [ fx.headerTop,
      "# Target DE: " + target + "\n",
      "# Package Manager: " + pkgManager + "\n",
      fx.reviewNote,
      "# bash " + ScriptPlaceholder + "\n",
      fx.rule,
      "echo \"Preparing to switch from " + current + " to " + target + " using " + pkgManager + "...\"\n\n",
      fx.removalNotes,
      "CURRENT_DE_PROFILE=\"" + current + "\"\n\n",
      RemovalGuard(fx.guardPrefix, target),
      fx.packageListSteps,
      RemovalCommand(pkgManager),
      fx.skipRemoval,
      fx.installHeading,
      InstallCommand(target, pkgManager),
      fx.enableHeading,
      "echo \"Enabling Display Manager: " + dm + "\"\n",
      fx.disableOthers,
      "sudo systemctl enable " + dm + "\n",
      fx.rebootPrompt ]
  }

  /** The pieces joined, for any fixed text. */
  function Render(fx: Template, current: string, target: string, pkgManager: string, dm: string): string
  {
    Concat(ScriptPieces(fx, current, target, pkgManager, dm))
  }

  /** `generate_script`: the whole script text, still naming itself by the placeholder. */
  function GenerateScript(current: string, target: string, pkgManager: string): string
  {
    Render(FixedText, current, target, pkgManager, DisplayManagerFor(target))
  }

  // ---------------------------------------------------------------------
  // What the script says, for any fixed text

  lemma RenderedHeader(fx: Template, current: string, target: string, pkgManager: string, dm: string)
    ensures var script := Render(fx, current, target, pkgManager, dm);
            && Contains(script, "# Target DE: " + target + "\n")
            && Contains(script, "# Package Manager: " + pkgManager + "\n")
            && Contains(script, "# bash " + ScriptPlaceholder + "\n")
  {
    var pieces := ScriptPieces(fx, current, target, pkgManager, dm);
    ConcatContainsPart(pieces, 1);
    ConcatContainsPart(pieces, 2);
    ConcatContainsPart(pieces, 4);
  }

  lemma RenderedCurrentProfile(fx: Template, current: string, target: string, pkgManager: string, dm: string)
    ensures Contains(Render(fx, current, target, pkgManager, dm), "CURRENT_DE_PROFILE=\"" + current + "\"\n")
  {
    var pieces := ScriptPieces(fx, current, target, pkgManager, dm);
    ConcatContainsPart(pieces, 8);
    CurrentProfileLineIn(pieces[8], current);
    ContainsWithin(Concat(pieces), pieces[8], "CURRENT_DE_PROFILE=\"" + current + "\"\n");
  }

  /** The assignment piece, blank line included, holds the assignment line. */
  lemma CurrentProfileLineIn(piece: string, current: string)
    requires piece == "CURRENT_DE_PROFILE=\"" + current + "\"\n\n"
    ensures Contains(piece, "CURRENT_DE_PROFILE=\"" + current + "\"\n")
  {
    var line := "CURRENT_DE_PROFILE=\"" + current + "\"\n";
    ContainsMiddle("", line, "\n");
    assert piece == "" + line + "\n";
  }

  lemma RenderedRemoval(fx: Template, current: string, target: string, pkgManager: string, dm: string)
    ensures var script := Render(fx, current, target, pkgManager, dm);
            && Contains(script, RemovalGuard(fx.guardPrefix, target))
            && Contains(script, RemovalCommand(pkgManager))
  {
    var pieces := ScriptPieces(fx, current, target, pkgManager, dm);
    ConcatContainsPart(pieces, 9);
    ConcatContainsPart(pieces, 11);
  }

  lemma RenderedInstall(fx: Template, current: string, target: string, pkgManager: string, dm: string)
    ensures var script := Render(fx, current, target, pkgManager, dm);
            && Contains(script, InstallCommand(target, pkgManager))
            && Contains(script, InstallLines(target, pkgManager)[1])
  {
    var script := Render(fx, current, target, pkgManager, dm);
    var cmd := InstallCommand(target, pkgManager);
    ConcatContainsPart(ScriptPieces(fx, current, target, pkgManager, dm), 14);
    ConcatContainsPart(InstallLines(target, pkgManager), 1);
    ContainsWithin(script, cmd, InstallLines(target, pkgManager)[1]);
  }

  lemma RenderedDisplayManager(fx: Template, current: string, target: string, pkgManager: string, dm: string)
    ensures var script := Render(fx, current, target, pkgManager, dm);
            && Contains(script, "echo \"Enabling Display Manager: " + dm + "\"\n")
            && Contains(script, "sudo systemctl enable " + dm + "\n")
  {
    var pieces := ScriptPieces(fx, current, target, pkgManager, dm);
    ConcatContainsPart(pieces, 16);
    ConcatContainsPart(pieces, 18);
  }

  // ---------------------------------------------------------------------
  // What the generated script says

  /** The header names the target, the package manager, and the placeholder
      file the reader is told to run. */
  lemma ScriptHeaderNamesChoice(current: string, target: string, pkgManager: string)
    ensures var script := GenerateScript(current, target, pkgManager);
            && Contains(script, "# Target DE: " + target + "\n")
            && Contains(script, "# Package Manager: " + pkgManager + "\n")
            && Contains(script, "# bash " + ScriptPlaceholder + "\n")
  {
    RenderedHeader(FixedText, current, target, pkgManager, DisplayManagerFor(target));
  }

  /** The removal step is always emitted, whatever the current profile: the
      current profile is recorded, the run-time guard compares it with the
      sentinel and the target, and the `-Rcs` command follows, also when the
      current profile is the sentinel or the target itself. */
  lemma ScriptAlwaysHoldsRemoval(current: string, target: string, pkgManager: string)
    ensures var script := GenerateScript(current, target, pkgManager);
            && Contains(script, "CURRENT_DE_PROFILE=\"" + current + "\"\n")
            && Contains(script, RemovalGuard(GuardPrefix, target))
            && Contains(script, RemovalCommand(pkgManager))
  {
    RenderedCurrentProfile(FixedText, current, target, pkgManager, DisplayManagerFor(target));
    RenderedRemoval(FixedText, current, target, pkgManager, DisplayManagerFor(target));
  }

  /** The install command of step 2 names the target's special package group
      for COSMIC and i3, with the sudo prefix fused to the manager name, and
      the resolved package list (prefix, space, manager) for every other
      target. */
  lemma ScriptInstallsTarget(current: string, target: string, pkgManager: string)
    ensures var script := GenerateScript(current, target, pkgManager);
            && Contains(script, InstallCommand(target, pkgManager))
            && (target in SpecialInstallMap ==>
                  Contains(script, SudoPrefix(pkgManager) + pkgManager + " -S " + SpecialInstallMap[target] + "\n"))
            && (target !in SpecialInstallMap ==>
                  Contains(script, SudoPrefix(pkgManager) + " " + pkgManager
                                   + " -S $(eos-packagelist --install \"" + target + "\")\n"))
  {
    RenderedInstall(FixedText, current, target, pkgManager, DisplayManagerFor(target));
  }

  /** With pacman, the COSMIC group line fuses the prefix to the manager: "sudopacman -S cosmic". */
  lemma CosmicPacmanInstallLine(current: string, target: string, pkgManager: string)
    requires target == "COSMIC-Desktop" && pkgManager == "pacman"
    ensures Contains(GenerateScript(current, target, pkgManager), "sudo" + pkgManager + " -S " + "cosmic" + "\n")
  {
    ScriptInstallsTarget(current, target, pkgManager);
    assert SpecialInstallMap[target] == "cosmic";
  }

  /** The resolved display manager is announced and then enabled. */
  lemma ScriptEnablesDisplayManager(current: string, target: string, pkgManager: string)
    ensures var script := GenerateScript(current, target, pkgManager);
            var dm := DisplayManagerFor(target);
            && Contains(script, "echo \"Enabling Display Manager: " + dm + "\"\n")
            && Contains(script, "sudo systemctl enable " + dm + "\n")
  {
    RenderedDisplayManager(FixedText, current, target, pkgManager, DisplayManagerFor(target));
  }

  // ---------------------------------------------------------------------
  // The file name

  /** A profile name with "-Desktop" removed, then "-Window-Manager" removed. */
  function StripProfileSuffix(profile: string): string
  {
    ReplaceAll(ReplaceAll(profile, "-Desktop", ""), "-Window-Manager", "")
  }

  /** `generate_filename`: "de_switcher_<from>_to_<to>.sh", or
      "de_switcher_from_Unknown_to_<to>.sh" when the current profile strips
      to "Unknown". */
  function GenerateFilename(current: string, target: string): (name: string)
    ensures StartsWith(name, "de_switcher_")
    ensures EndsWith(name, "_to_" + StripProfileSuffix(target) + ".sh")
    ensures StripProfileSuffix(current) == "Unknown" ==>
              name == "de_switcher_from_Unknown_to_" + StripProfileSuffix(target) + ".sh"
    ensures StripProfileSuffix(current) != "Unknown" ==>
              name == "de_switcher_" + StripProfileSuffix(current) + "_to_" + StripProfileSuffix(target) + ".sh"
  {
    var from := StripProfileSuffix(current);
    var to := StripProfileSuffix(target);
    if from == "Unknown" then "de_switcher_from_Unknown_to_" + to + ".sh"
    else "de_switcher_" + from + "_to_" + to + ".sh"
  }

  lemma WindowManagerSuffixHasNoDesktop()
    ensures ReplaceAll("-Window-Manager", "-Desktop", "") == "-Window-Manager"
  {
    assert "-Desktop"[1] == 'D';
    assert 'D' !in "-Window-Manager";
    MissingCharNotContained("-Window-Manager", "-Desktop", 1);
    ReplaceAllAbsent("-Window-Manager", "-Desktop", "");
  }

  lemma DesktopSuffixHasNoWindowManager()
    ensures ReplaceAll("-Desktop", "-Window-Manager", "") == "-Desktop"
  {
    var p := "-Window-Manager";
    assert !StartsWith("-Desktop", p);
    assert ReplaceAll("-Desktop", p, "") == "-" + ReplaceAll("Desktop", p, "");
    ReplaceAllPassThrough("Desktop", "", p, "");
    assert "Desktop" + "" == "Desktop";
  }

  /** A dash-free base name followed by either catalog suffix strips back to
      the base name. */
  lemma StripProfileSuffixOfBase(base: string, suffix: string)
    requires '-' !in base
    requires suffix == "-Desktop" || suffix == "-Window-Manager"
    ensures StripProfileSuffix(base + suffix) == base
  {
    assert base + suffix == base + suffix + "";
    if suffix == "-Desktop" {
      ReplaceAllPassThrough(base, suffix, "-Desktop", "");
      ReplaceAllAtFront("", "-Desktop", "");
      assert ReplaceAll(base + suffix, "-Desktop", "") == base + "";
      ReplaceAllPassThrough(base, "", "-Window-Manager", "");
      assert base + "" == base;
    } else {
      ReplaceAllPassThrough(base, suffix, "-Desktop", "");
      WindowManagerSuffixHasNoDesktop();
      ReplaceAllPassThrough(base, suffix, "-Window-Manager", "");
      ReplaceAllAtFront("", "-Window-Manager", "");
      assert suffix + "" == suffix;
      assert base + "" == base;
    }
  }

  /** For profiles made of a dash-free base and a catalog suffix, the file
      name uses the two base names. */
  lemma FilenameFromBases(fromBase: string, fromSuffix: string, toBase: string, toSuffix: string)
    requires '-' !in fromBase && '-' !in toBase
    requires fromSuffix == "-Desktop" || fromSuffix == "-Window-Manager"
    requires toSuffix == "-Desktop" || toSuffix == "-Window-Manager"
    ensures GenerateFilename(fromBase + fromSuffix, toBase + toSuffix)
            == if fromBase == "Unknown" then "de_switcher_from_Unknown_to_" + toBase + ".sh"
               else "de_switcher_" + fromBase + "_to_" + toBase + ".sh"
  {
    StripProfileSuffixOfBase(fromBase, fromSuffix);
    StripProfileSuffixOfBase(toBase, toSuffix);
  }

  /** `replace` makes a single pass: a suffix hidden inside another survives. */
  lemma StripIsSinglePass()
    ensures StripProfileSuffix("-Desk" + "-Desktop" + "top") == "-Desktop"
  {
    var p := "-Desktop";
    var s := "-Desk" + "-Desktop" + "top";
    assert !StartsWith(s, p) by { assert s[..8][5] != p[5]; }
    assert ReplaceAll(s, p, "") == "-" + ReplaceAll(s[1..], p, "");
    assert s[1..] == "Desk" + p + "top";
    ReplaceAllAfter("Desk", "top", p, "");
    ReplaceAllPassThrough("top", "", p, "");
    assert ReplaceAll(s[1..], p, "") == "Desk" + "" + "top" + ReplaceAll("", p, "");
    assert ReplaceAll(s, p, "") == "-Desktop";
    DesktopSuffixHasNoWindowManager();
  }

  /** The file handed to the writer: its path and the script with every
      placeholder replaced by that path. */
  datatype FileWrite = FileWrite(path: string, contents: string)

  function ScriptFile(current: string, target: string, pkgManager: string): FileWrite
  {
    var name := GenerateFilename(current, target);
    FileWrite(name, ReplaceAll(GenerateScript(current, target, pkgManager), ScriptPlaceholder, name))
  }

  /** The written script names its own file: the review line's placeholder
      has been replaced by the path it is written to. */
  lemma WrittenScriptNamesItself(current: string, target: string, pkgManager: string)
    ensures var file := ScriptFile(current, target, pkgManager);
            Contains(file.contents, file.path)
  {
    var script := GenerateScript(current, target, pkgManager);
    var line := "# bash " + ScriptPlaceholder + "\n";
    ScriptHeaderNamesChoice(current, target, pkgManager);
    ContainsMiddle("# bash ", ScriptPlaceholder, "\n");
    ContainsWithin(script, line, ScriptPlaceholder);
    ReplaceAllInserts(script, ScriptPlaceholder, GenerateFilename(current, target));
  }
}
