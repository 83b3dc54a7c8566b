# de-switcher core in Dafny

de-switcher is a terminal program for EndeavourOS-style Arch systems. It writes a
shell script that switches the machine from one desktop environment
to another. The script removes the current desktop's packages, installs the
target's packages and enables the target's display manager. This project
models `src/main.rs` apart from its terminal I/O (see "Left out"):

- **Catalog**: the static tables. These are the nine desktop profiles with
  their display managers (`DE_DM_MAP`), the two profiles installed as a literal
  package group (`SPECIAL_INSTALL_MAP`), the three package managers and the
  sentinel profile `Unknown-Desktop`.
- **Profiles**: how the current and target profiles are found.
  - `App::new` takes the last `:`-separated piece of `XDG_CURRENT_DESKTOP`.
  - `map_raw_de_to_profile` resolves it: upper-case the name, catch the two
    special names COSMIC and I3, otherwise prefix-match the catalog, and fall
    back to the sentinel.
  - `get_available_des` filters the trimmed lines of `eos-packagelist --list`
    and falls back to the catalog's names.
- **AppState**: the interactive state.
  - The key bindings of `run_app`, and the index arithmetic of
    `next_de`, `previous_de` and `cycle_pkg_manager`, are pure functions
    (`ActionOf`, `Apply`, `Run`) with their lemmas.
  - The class `App` holds the source's fields, with methods that update them in
    place: `NextDe`, `PreviousDe`, `CyclePkgManager`, `HandleKey`, and `RunApp`
    (a `while` loop over a finite run of events). Each method is proved
    against those functions.
- **Script**: `generate_filename` and `generate_script` as pure functions of
  (current profile, target profile, package manager), with lemmas on what the
  script contains. The template text is kept line for line. The proofs are done
  once for any fixed text (`Render`) and then read off for the real one.
- **Session**: `main`. It builds the `App`, runs the loop and, when Enter was
  pressed, returns the (path, text) pair that `fs::write` receives, with the
  script's self-reference replaced by the file name.
- **Text** and **Common**: the parts of Rust's `str` that the code uses, over
  `seq<char>`, plus an `Option` and a first-match search. These parts are
  `starts_with`, `ends_with`, `contains`, `to_uppercase`, `trim`, `replace`,
  `lines` and the last piece of `split`.

The program's inputs become parameters:
- the value of `XDG_CURRENT_DESKTOP` (`Option<string>`; `None` when the
  variable cannot be read);
- the result of running `eos-packagelist --list` (`Listing`: could not be
  started, or exited with a status and its standard output);
- the terminal events, as a finite sequence.

The model follows the code as written. That makes it reproduce these behaviours of
`src/main.rs`:
- An empty desktop name is a prefix of every profile name, so it resolves to
  `KDE-Desktop` (`Profiles.EmptyRawResolvesToFirstEntry`).
- A resolved profile can be `COSMIC-Desktop`, which is not an entry of
  `DE_DM_MAP` (`Profiles.ResolvedProfileIsKnown`).
- "CINNAMON" in capitals resolves to `Unknown-Desktop`. Only the raw name is
  upper-cased, and the catalog key is mixed case (`Profiles.UpperCinnamonIsUnknown`).
- The removal step is always written into the script. A shell test decides
  when the script runs whether it acts, so a script whose current profile is
  `Unknown-Desktop` or equal to the target still holds the `-Rcs` command
  (`Script.ScriptAlwaysHoldsRemoval`).
- In the special-group install line the sudo prefix stands directly against
  the manager name, with no space: `sudopacman -S cosmic`
  (`Script.CosmicPacmanInstallLine`).
- If `eos-packagelist` cannot be started, `App::new` fails and nothing is written.
  A non-zero exit or an empty result falls back to the catalog.
- Enter ends the loop, and the file is written under the generated name.
- `replace` makes one left-to-right pass (`Script.StripIsSinglePass`).

## Model

| member | source | states |
|---|---|---|
| Catalog.ProfileNames | src/main.rs:26-36 | the fallback list is the catalog's profile names in table order |
| Catalog.ProfileNamesDistinct | src/main.rs:26-36 | no profile name occurs twice in the catalog |
| Catalog.SentinelsNotInCatalog | src/main.rs:26-59 | neither `Unknown-Desktop` nor `COSMIC-Desktop` is a catalog profile |
| Common.FindFirst | src/main.rs:56-58 | the index found satisfies the test and no earlier entry does; None only when no entry does |
| Common.FindFirstUnique | src/main.rs:56-58 | a first match is unique |
| Text.ToUpper | src/main.rs:50 | every lower-case ASCII letter becomes its capital and every other character is kept, at the same length |
| Text.TrimIsSlice | src/main.rs:75 | the trimmed line is a slice of the line with only whitespace cut off at either end |
| Text.Trim | src/main.rs:75 | the trimmed text neither starts nor ends with whitespace |
| Text.TrimIdempotent | src/main.rs:75-78 | trimming a trimmed text changes nothing, so every kept line is its own trim |
| Text.LinesRoundTrip | src/main.rs:73 | for text without carriage returns, rejoining the lines with newlines gives back the text, newline-terminated |
| Text.Lines | src/main.rs:73 | no line holds a newline |
| Text.LastPiece | src/main.rs:103 | the last piece holds no separator and is the text after the last separator, or the whole text |
| Text.LastPieceWithoutSeparator | src/main.rs:103 | a value without separators is its own last piece |
| Text.ReplaceAll | src/main.rs:135-136 | `str::replace`: one left-to-right pass that replaces each non-overlapping occurrence; its properties are `Text.ReplaceAllAbsent`, `Text.ReplaceAllPassThrough`, `Text.ReplaceAllAfter`, `Text.ReplaceAllInserts` and `Script.StripIsSinglePass` |
| Text.ReplaceAllAbsent | src/main.rs:135 | replacing a pattern that does not occur changes nothing |
| Text.ReplaceAllInserts | src/main.rs:271 | text that holds the pattern holds the replacement after `replace` |
| Profiles.CurrentDesktopRaw | src/main.rs:101-103 | "Unknown" when the variable is absent; otherwise a separator-free suffix of the value that is either the whole value or follows its last `:` |
| Profiles.MapRawDeToProfile | src/main.rs:49-60 | the special cases COSMIC and I3 in any case; otherwise the first catalog profile the upper-cased name prefixes, and the sentinel exactly when none does |
| Profiles.ResolvedProfileIsKnown | src/main.rs:49-60 | every resolved profile is a catalog profile, `COSMIC-Desktop` or the sentinel |
| Profiles.EmptyRawResolvesToFirstEntry | src/main.rs:56-59 | the empty name resolves to `KDE-Desktop` |
| Profiles.FirstPrefixedUnique | src/main.rs:56-57 | the first prefixed catalog entry is unique |
| Profiles.ResolvesToFirstPrefixed | src/main.rs:56-58 | outside the special cases the resolver returns the first entry the upper-cased name prefixes |
| Profiles.I3ProfileOnlyFromI3 | src/main.rs:50-58 | the name resolves to `i3-Window-Manager` if and only if it upper-cases to "I3" |
| Profiles.SingleCResolvesToCinnamon | src/main.rs:56-58 | a name that upper-cases to "C" resolves to `Cinnamon-Desktop` |
| Profiles.CinnamonOnlyFromSingleC | src/main.rs:56-58 | the name resolves to `Cinnamon-Desktop` if and only if it upper-cases to "C" |
| Profiles.SpecialCasesResolve | src/main.rs:50-52 | "cosmic" and "i3" in lower case hit the special cases |
| Profiles.UpperCinnamonIsUnknown | src/main.rs:56-59 | "CINNAMON" resolves to the sentinel |
| Profiles.KdeResolves | src/main.rs:101-105 | `XDG_CURRENT_DESKTOP=KDE` gives the profile `KDE-Desktop` |
| Profiles.MissingVariableIsUnknown | src/main.rs:101-105 | a missing variable gives the sentinel profile |
| Profiles.IsProfileLine | src/main.rs:76 | the filter's test on a trimmed line: it ends in `-Desktop` or `-Window-Manager`, or holds `i3` |
| Profiles.KeptProfiles | src/main.rs:73-79 | the trimmed lines that pass the filter, in order, never more than the lines; its meaning is stated both ways by the next two lemmas |
| Profiles.KeptProfilesSound | src/main.rs:73-79 | every kept profile is a trimmed listing line that passes the filter |
| Profiles.KeptProfilesComplete | src/main.rs:73-79 | every listing line that passes the filter once trimmed is kept |
| Profiles.KeptProfilesAppend | src/main.rs:73-79 | filtering keeps input order: it distributes over concatenating listings |
| Profiles.AvailableDes | src/main.rs:67-85 | never empty; the catalog names on a failed exit status or when nothing is kept, the kept lines otherwise |
| Profiles.AvailableDesMembers | src/main.rs:67-85 | a profile is offered if and only if it is a catalog name under the fallback, or a kept trimmed line |
| Profiles.GetAvailableDes | src/main.rs:62-86 | an error exactly when the command could not be started; otherwise the non-empty list above |
| Profiles.TwoDesktopListing | src/main.rs:71-85 | a listing of `KDE-Desktop` and `GNOME-Desktop` on two lines offers exactly those two |
| AppState.ActionOf | src/main.rs:296-321 | q/Esc exit, j/Down next, k/Up previous, Ctrl+P/Tab cycle, Enter confirms, each binding in both directions |
| AppState.ExitIgnoresModifiers | src/main.rs:297-315 | the Control modifier matters only for `p` |
| AppState.NextIndex | src/main.rs:118-120 | stays in bounds and wraps from the last profile to the first |
| AppState.PreviousIndex | src/main.rs:122-128 | stays in bounds |
| AppState.CycleIndex | src/main.rs:130-132 | the next of the three package managers, wrapping from paru to pacman |
| AppState.PreviousUndoesNext | src/main.rs:118-128 | a step back undoes a step forward |
| AppState.NextUndoesPrevious | src/main.rs:118-128 | a step forward undoes a step back |
| AppState.PreviousFromFirstIsLast | src/main.rs:122-127 | a step back from the first profile lands on the last |
| AppState.CycleThriceIsIdentity | src/main.rs:130-132 | three cycles return to the same package manager |
| AppState.NextPowerWraps | src/main.rs:118-120 | up to a full turn, k steps forward land k places on, wrapping once |
| AppState.NextFullTurn | src/main.rs:118-120 | as many steps as there are profiles come back to the start |
| AppState.Apply | src/main.rs:296-321 | an action keeps the selection in range and sets `should_quit` exactly on Enter |
| AppState.ApplyFrames | src/main.rs:296-321 | each action changes only the field it is bound to; exit and unbound keys change nothing |
| AppState.Run | src/main.rs:283-330 | the loop keeps the selection in range |
| AppState.RunQuitsIffConfirmed | src/main.rs:283-330 | the loop ends with `should_quit` set if and only if Enter comes before any q or Esc |
| AppState.RunReturnsIffStopKey | src/main.rs:283-330 | the loop returns if and only if `should_quit` was set or some event is Enter, q or Esc |
| AppState.ExitKeyLeavesSelection | src/main.rs:297-299 | q or Esc returns at once with the selection unchanged |
| AppState.IgnoredEventChangesNothing | src/main.rs:295-321 | a non-key event or an unbound key changes nothing |
| AppState.App.constructor | src/main.rs:108-115 | the raw name, its resolved profile, the given list and a zero selection with `should_quit` clear |
| AppState.App.New | src/main.rs:100-116 | fails exactly when the listing cannot be started; otherwise the raw name, its profile, the available list and a zero selection |
| AppState.App.NextDe | src/main.rs:118-120 | the selection after one step forward, still valid |
| AppState.App.PreviousDe | src/main.rs:122-128 | the selection after one step back, still valid |
| AppState.App.CyclePkgManager | src/main.rs:130-132 | the selection after cycling the manager, still valid |
| AppState.App.HandleKey | src/main.rs:296-321 | reports exit exactly for q/Esc and leaves the selection the action's effect |
| AppState.App.RunApp | src/main.rs:283-330 | the loop in place ends where `Run` says, and returns when `Run` does |
| AppState.App.TargetProfile | src/main.rs:136 | the selected target is one of the offered profiles |
| AppState.App.PkgManager | src/main.rs:149 | the selected manager is one of the three |
| AppState.App.GenerateFilename | src/main.rs:134-143 | the file name starts with `de_switcher_` and ends with the stripped selected target and `.sh` |
| AppState.App.GenerateScript | src/main.rs:145-241 | the script names the selected target and manager and enables the target's display manager |
| Script.SudoPrefix | src/main.rs:151-152 | "sudo" exactly for pacman, nothing otherwise |
| Script.SudoPrefixForManagers | src/main.rs:151-152 | "sudo" for pacman, nothing for yay and paru |
| Script.LookupOr | src/main.rs:154-157 | the value of the first entry with that exact key, and the default when there is none |
| Script.DisplayManagerFor | src/main.rs:154-157 | every catalog profile gets the display manager beside it; a name outside the catalog gets `lightdm` |
| Script.DisplayManagerOfEntry | src/main.rs:154-157 | every catalog profile gets the display manager beside it |
| Script.DisplayManagerOutsideCatalog | src/main.rs:154-157 | a profile outside the catalog gets `lightdm` |
| Script.CosmicGetsDefaultDisplayManager | src/main.rs:154-157 | COSMIC gets `lightdm` |
| Script.InstallLines | src/main.rs:159-163 | the two lines of step 2; what they say is stated by `Script.ScriptInstallsTarget` |
| Script.GenerateScript | src/main.rs:145-241 | the script text, still naming itself by the placeholder; what it contains is stated by `Script.ScriptHeaderNamesChoice`, `Script.ScriptAlwaysHoldsRemoval`, `Script.ScriptInstallsTarget` and `Script.ScriptEnablesDisplayManager` |
| Script.ConcatContainsPart | src/main.rs:165-239 | every piece of the template occurs in the rendered text |
| Script.ScriptHeaderNamesChoice | src/main.rs:166-174 | the header names the target, the package manager and the script's own placeholder name |
| Script.ScriptAlwaysHoldsRemoval | src/main.rs:181-192 | the current profile, the run-time guard against the sentinel and the target, and the `-Rcs` command are always in the script |
| Script.ScriptInstallsTarget | src/main.rs:159-163 | COSMIC and i3 install their package group with the prefix fused to the manager; any other target installs the resolved package list |
| Script.CosmicPacmanInstallLine | src/main.rs:159-160 | COSMIC with pacman has the line `sudopacman -S cosmic` |
| Script.ScriptEnablesDisplayManager | src/main.rs:202-208 | the target's display manager is both announced and enabled |
| Script.GenerateFilename | src/main.rs:134-143 | `de_switcher_<from>_to_<to>.sh`, or `de_switcher_from_Unknown_to_<to>.sh` when the current profile strips to "Unknown" |
| Script.StripProfileSuffix | src/main.rs:135-136 | `-Desktop` removed, then `-Window-Manager` removed; its effect is stated by the next lemma and `Script.StripIsSinglePass` |
| Script.StripProfileSuffixOfBase | src/main.rs:135-136 | a dash-free name with either suffix strips back to the name |
| Script.FilenameFromBases | src/main.rs:134-143 | for catalog-shaped profiles the file name uses the two base names |
| Script.StripIsSinglePass | src/main.rs:135 | a suffix hidden inside another survives the single pass |
| Script.ScriptFile | src/main.rs:269-271 | the file handed to the writer: the generated name, and the script with every placeholder replaced by it |
| Script.WrittenScriptNamesItself | src/main.rs:268-271 | the written text names the file it is written to |
| Session.Outcome | src/main.rs:245-277 | how a run ends as a function of its inputs; stated by the lemmas below |
| Session.RunSession | src/main.rs:245-277 | the outcome of the run, and the file write: present exactly when Enter ended the loop, holding the generated name and the substituted script |
| Session.WritesIffConfirmed | src/main.rs:268-277 | a file is written if and only if the listing could be started and Enter came before any q or Esc |
| Session.WrittenRequestShape | src/main.rs:268-270 | a written script is for the current profile, one offered target and one package manager |
| Session.QuitKeyWritesNothing | src/main.rs:297-299 | q or Esc as the first key writes nothing |
| Session.NoStopKeyKeepsRunning | src/main.rs:283-330 | without Enter, q or Esc the loop keeps waiting and nothing is written |
| Session.DownTabEnterConfirms | src/main.rs:301-319 | Down, Tab, Enter over two profiles selects the second profile and yay, and confirms |
| Session.KdeToGnomeWithYay | src/main.rs:245-277 | on KDE with a KDE/GNOME listing, Down, Tab, Enter writes the KDE-to-GNOME script for yay |
| Session.KdeToGnomeFileName | src/main.rs:134-143 | that script is named `de_switcher_KDE_to_GNOME.sh` |

## Left out

- `render_ui` and the styling it draws: output only, with no state change.
- Terminal setup and teardown (raw mode, alternate screen, cursor) and their errors: I/O outside the logic.
- The 100 ms poll timeout: timing only. The event stream is a finite sequence, and a run that ends without Enter, q or Esc is reported as still running.
- Key press, release and repeat kinds are not told apart: the source matches on the key code only.
- Errors from `terminal.draw`, `event::poll` and `event::read`: I/O failures the model does not raise.
- Spawning `eos-packagelist` and reading `XDG_CURRENT_DESKTOP`: both are parameters. A variable that exists but is not valid Unicode is folded into the absent case, as `unwrap_or_else` does.
- `String::from_utf8_lossy`: the listing's output is taken as already decoded text.
- `fs::write` and the messages printed about it: `Session.RunSession` returns the (path, text) pair instead.
- Text.ToUpper: maps ASCII letters only. Rust's `to_uppercase` also maps other letters and can change the length; `ſ` (U+017F) becomes `S` and `ı` (U+0131) becomes `I`. So a raw name such as "coſmic" or "ı3" hits a special case in the program but resolves to `Unknown-Desktop` in `Profiles.MapRawDeToProfile`. The model covers ASCII desktop identifiers, which is what `XDG_CURRENT_DESKTOP` holds in practice.
- What the generated script does when bash runs it: only its text is modelled.
- Script.GenerateScript: its lemmas state which lines the text contains, not the whole text. The template's fixed lines are kept verbatim in the definition.
- Script.ScriptFile: the substituted text is stated by definition. No lemma says the placeholder is gone afterwards; a profile name could itself contain it.
- AppState.PreviousIndex: its own contract states only the bound. The wrap to the last profile and the inverse of `NextIndex` are separate lemmas.
