/** How the switcher learns what it is switching from and to: the raw desktop
    name from `XDG_CURRENT_DESKTOP`, its canonical profile, and the list of
    selectable target profiles read from `eos-packagelist --list`. */
module Profiles {
  import opened Common
  import opened Text
  import opened Catalog

  // ---------------------------------------------------------------------
  // The current desktop

  /** The raw desktop name: the last `:`-separated piece of the environment
      value, or "Unknown" when the variable is not available. */
  function CurrentDesktopRaw(xdgCurrentDesktop: Option<string>): (raw: string)
    ensures xdgCurrentDesktop.None? ==> raw == "Unknown"
    ensures xdgCurrentDesktop.Some? ==>
              var v := xdgCurrentDesktop.value;
              && Lacks(raw, ':')
              && EndsWith(v, raw)
              && (raw == v || EndsWith(v, ":" + raw))
  {
    match xdgCurrentDesktop
    case None => "Unknown"
    case Some(v) =>
      var raw := LastPiece(v, ':');
      assert raw != v ==> v[|v| - |raw| - 1..] == ":" + raw;
      raw
  }

  /** Test applied to each catalog entry by the resolver. */
  function PrefixedBy(upper: string): ((string, string)) -> bool
  {
    (entry: (string, string)) => StartsWith(entry.0, upper)
  }

  /** `k` is the first catalog entry whose profile name starts with `upper`. */
  predicate FirstPrefixed(upper: string, k: int)
  {
    && 0 <= k < |DeDmMap|
    && StartsWith(DeDmMap[k].0, upper)
    && forall j :: 0 <= j < k ==> !StartsWith(DeDmMap[j].0, upper)
  }

  /** The canonical profile for a raw desktop name. "COSMIC" and "I3" (in any
      letter case) are special; otherwise the result is the first catalog
      profile that starts with the upper-cased name, and the sentinel only
      when none does. The catalog side is not upper-cased. */
  function MapRawDeToProfile(raw: string): (profile: string)
    ensures ToUpper(raw) == "COSMIC" ==> profile == "COSMIC-Desktop"
    ensures ToUpper(raw) == "I3" ==> profile == "i3-Window-Manager"
    ensures ToUpper(raw) != "COSMIC" && ToUpper(raw) != "I3" ==>
              && (profile == UnknownProfile <==>
                    forall k :: 0 <= k < |DeDmMap| ==> !StartsWith(DeDmMap[k].0, ToUpper(raw)))
              && (profile != UnknownProfile ==>
                    exists k :: FirstPrefixed(ToUpper(raw), k) && profile == DeDmMap[k].0)
  {
    var upper := ToUpper(raw);
    if upper == "COSMIC" then "COSMIC-Desktop"
    else if upper == "I3" then "i3-Window-Manager"
    else
      match FindFirst(DeDmMap, PrefixedBy(upper))
      case Some(k) =>
        assert FirstPrefixed(upper, k);
        SentinelsNotInCatalog();
        DeDmMap[k].0
      case None => UnknownProfile
  }

  /** Every resolved profile is a catalog profile, the COSMIC profile or the sentinel. */
  lemma ResolvedProfileIsKnown(raw: string)
    ensures var profile := MapRawDeToProfile(raw);
            profile in ProfileNames() || profile == "COSMIC-Desktop" || profile == UnknownProfile
  {
    var profile := MapRawDeToProfile(raw);
    if profile != "COSMIC-Desktop" && profile != "i3-Window-Manager" && profile != UnknownProfile {
      var k :| FirstPrefixed(ToUpper(raw), k) && profile == DeDmMap[k].0;
      assert profile == ProfileNames()[k];
    } else if profile == "i3-Window-Manager" {
      assert profile == ProfileNames()[8];
    }
  }

  /** An empty desktop name is a prefix of every profile, so it resolves to
      the first catalog entry rather than to the sentinel. */
  lemma EmptyRawResolvesToFirstEntry()
    ensures MapRawDeToProfile("") == "KDE-Desktop"
  {
    assert ToUpper("") == "";
    assert FirstPrefixed("", 0);
    var profile := MapRawDeToProfile("");
    var k :| FirstPrefixed("", k) && profile == DeDmMap[k].0;
    assert k == 0;
  }

  /** The first prefixed entry is unique. */
  lemma FirstPrefixedUnique(upper: string, k1: int, k2: int)
    requires FirstPrefixed(upper, k1) && FirstPrefixed(upper, k2)
    ensures k1 == k2
  {
  }

  /** The window-manager profile is reached only through the "I3" special case:
      an upper-cased name never starts the lower-case catalog key. */
  lemma I3ProfileOnlyFromI3(raw: string)
    ensures MapRawDeToProfile(raw) == "i3-Window-Manager" <==> ToUpper(raw) == "I3"
  {
    var upper := ToUpper(raw);
    var profile := MapRawDeToProfile(raw);
    if upper != "I3" && upper != "COSMIC" && profile != UnknownProfile {
      ToUpperHasNoLower(raw);
      assert upper == [] || upper[0] != 'i';
      assert StartsWith(DeDmMap[0].0, []);
      var k :| FirstPrefixed(upper, k) && profile == DeDmMap[k].0;
      assert k != 8;
      ProfileNamesDistinct();
    }
  }

  /** A one-letter "c" resolves to "Cinnamon-Desktop". */
  lemma SingleCResolvesToCinnamon(raw: string)
    requires ToUpper(raw) == "C"
    ensures MapRawDeToProfile(raw) == "Cinnamon-Desktop"
  {
    var upper := ToUpper(raw);
    assert DeDmMap[0].0[..1] == "K";
    assert DeDmMap[1].0[..1] == "G";
    assert DeDmMap[2].0[..1] == "X";
    assert DeDmMap[3].0[..1] == "C";
    assert FirstPrefixed(upper, 3);
    var k :| FirstPrefixed(upper, k) && MapRawDeToProfile(raw) == DeDmMap[k].0;
    FirstPrefixedUnique(upper, k, 3);
  }

  /** The only upper-case prefixes of "Cinnamon-Desktop" are "" and "C". */
  lemma UpperPrefixOfCinnamon(u: string)
    requires forall i :: 0 <= i < |u| ==> !IsLowerAscii(u[i])
    requires StartsWith(DeDmMap[3].0, u)
    ensures u == [] || u == "C"
  {
    assert forall i :: 0 <= i < |u| ==> u[i] == DeDmMap[3].0[i];
    assert DeDmMap[3].0[0] == 'C' && DeDmMap[3].0[1] == 'i';
    assert |u| <= 1;
    assert u == [] || u == [u[0]];
  }

  /** "Cinnamon-Desktop" is reached only from a one-letter "c": the upper-cased
      "CINNAMON" does not start "Cinnamon-Desktop". */
  lemma CinnamonOnlyFromSingleC(raw: string)
    ensures MapRawDeToProfile(raw) == "Cinnamon-Desktop" <==> ToUpper(raw) == "C"
  {
    var upper := ToUpper(raw);
    var profile := MapRawDeToProfile(raw);
    if upper == "C" {
      SingleCResolvesToCinnamon(raw);
    } else if upper != "COSMIC" && upper != "I3" && profile != UnknownProfile {
      ToUpperHasNoLower(raw);
      var k :| FirstPrefixed(upper, k) && profile == DeDmMap[k].0;
      if upper == [] {
        assert FirstPrefixed(upper, 0);
        FirstPrefixedUnique(upper, k, 0);
      } else if StartsWith(DeDmMap[3].0, upper) {
        UpperPrefixOfCinnamon(upper);
      }
      assert k != 3;
      ProfileNamesDistinct();
    }
  }

  /** Outside the special cases, the resolver picks the first entry the
      upper-cased name prefixes. */
  lemma ResolvesToFirstPrefixed(raw: string, k: nat)
    requires ToUpper(raw) != "COSMIC" && ToUpper(raw) != "I3"
    requires FirstPrefixed(ToUpper(raw), k)
    ensures MapRawDeToProfile(raw) == DeDmMap[k].0
  {
    var upper := ToUpper(raw);
    var j :| FirstPrefixed(upper, j) && MapRawDeToProfile(raw) == DeDmMap[j].0;
    FirstPrefixedUnique(upper, j, k);
  }

  /** A lone desktop name resolves by prefix: "KDE" gives "KDE-Desktop". */
  lemma KdeResolves(xdgCurrentDesktop: Option<string>)
    requires xdgCurrentDesktop == Some("KDE")
    ensures MapRawDeToProfile(CurrentDesktopRaw(xdgCurrentDesktop)) == "KDE-Desktop"
  {
    var raw := xdgCurrentDesktop.value;
    LastPieceWithoutSeparator(raw, ':');
    assert CurrentDesktopRaw(xdgCurrentDesktop) == raw;
    KdePrefixesFirstEntry(raw);
    ResolvesToFirstPrefixed(raw, 0);
  }

  lemma KdePrefixesFirstEntry(raw: string)
    requires raw == "KDE"
    ensures ToUpper(raw) == raw && FirstPrefixed(raw, 0)
  {
    ToUpperOfUpper(raw);
    assert raw == DeDmMap[0].0[..3];
  }

  /** The special cases ignore letter case. */
  lemma SpecialCasesResolve()
    ensures MapRawDeToProfile("cosmic") == "COSMIC-Desktop"
    ensures MapRawDeToProfile("i3") == "i3-Window-Manager"
  {
    assert ToUpper("cosmic") == "COSMIC";
    assert ToUpper("i3") == "I3";
  }

  /** A full upper-case name does not match the mixed-case catalog key. */
  lemma UpperCinnamonIsUnknown()
    ensures MapRawDeToProfile("CINNAMON") == UnknownProfile
  {
    var upper := "CINNAMON";
    assert ToUpper(upper) == upper;
    forall k | 0 <= k < |DeDmMap|
      ensures !StartsWith(DeDmMap[k].0, upper)
    {
      if k == 3 {
        assert DeDmMap[3].0[1] != upper[1];
      } else {
        assert DeDmMap[k].0[0] != upper[0];
      }
    }
  }

  /** Without `XDG_CURRENT_DESKTOP` the raw name "Unknown" resolves to the sentinel. */
  lemma MissingVariableIsUnknown()
    ensures MapRawDeToProfile(CurrentDesktopRaw(None)) == UnknownProfile
  {
    assert ToUpper("Unknown") == "UNKNOWN";
    forall k | 0 <= k < |DeDmMap|
      ensures !StartsWith(DeDmMap[k].0, "UNKNOWN")
    {
      assert DeDmMap[k].0[0] != 'U';
    }
  }

  // ---------------------------------------------------------------------
  // The selectable targets

  /** Outcome of running `eos-packagelist --list`: it could not be started, or
      it ran with an exit status and printed `stdout`. */
  datatype Listing = SpawnFailed | Exited(succeeded: bool, stdout: string)

  /** A trimmed listing line kept as a profile. */
  predicate IsProfileLine(line: string)
  {
    EndsWith(line, "-Desktop") || EndsWith(line, "-Window-Manager") || Contains(line, "i3")
  }

  /** The trimmed lines that pass the filter, in input order. */
  function KeptProfiles(lines: seq<string>): (kept: seq<string>)
    ensures |kept| <= |lines|
  {
    if |lines| == 0 then []
    else
      var line := Trim(lines[0]);
      if IsProfileLine(line) then [line] + KeptProfiles(lines[1..]) else KeptProfiles(lines[1..])
  }

  /** `x` is the trimmed form of one of the listing lines. */
  predicate TrimmedLineOf(lines: seq<string>, x: string)
  {
    exists i :: 0 <= i < |lines| && Trim(lines[i]) == x
  }

  /** Every kept profile is a trimmed listing line that passes the filter. */
  lemma {:induction false} KeptProfilesSound(lines: seq<string>, x: string)
    requires x in KeptProfiles(lines)
    ensures IsProfileLine(x) && Trim(x) == x && TrimmedLineOf(lines, x)
    decreases |lines|
  {
    var line := Trim(lines[0]);
    var rest := KeptProfiles(lines[1..]);
    if IsProfileLine(line) && x == line {
      TrimIdempotent(lines[0]);
      assert Trim(lines[0]) == x;
    } else {
      assert KeptProfiles(lines) == if IsProfileLine(line) then [line] + rest else rest;
      assert x in rest;
      KeptProfilesSound(lines[1..], x);
      var i :| 0 <= i < |lines[1..]| && Trim(lines[1..][i]) == x;
      assert lines[1..][i] == lines[i + 1];
    }
  }

  /** A lone bare profile line is kept. */
  lemma KeptProfilesOfBareLine(line: string)
    requires Trim(line) == line && IsProfileLine(line)
    ensures KeptProfiles([line]) == [line]
  {
    assert [line][1..] == [];
  }

  /** Every listing line that passes the filter once trimmed is kept. */
  lemma {:induction false} KeptProfilesComplete(lines: seq<string>, i: nat)
    requires i < |lines| && IsProfileLine(Trim(lines[i]))
    ensures Trim(lines[i]) in KeptProfiles(lines)
    decreases |lines|
  {
    var line := Trim(lines[0]);
    var rest := KeptProfiles(lines[1..]);
    assert KeptProfiles(lines) == if IsProfileLine(line) then [line] + rest else rest;
    if i > 0 {
      assert lines[i] == lines[1..][i - 1];
      KeptProfilesComplete(lines[1..], i - 1);
      assert Trim(lines[i]) in rest;
    }
  }

  /** Filtering commutes with splitting the listing: the kept profiles keep
      the input order. */
  lemma {:induction false} KeptProfilesAppend(a: seq<string>, b: seq<string>)
    ensures KeptProfiles(a + b) == KeptProfiles(a) + KeptProfiles(b)
    decreases |a|
  {
    if |a| == 0 {
      assert a + b == b;
    } else {
      assert (a + b)[0] == a[0];
      assert (a + b)[1..] == a[1..] + b;
      KeptProfilesAppend(a[1..], b);
    }
  }

  /** The body of `get_available_des` once the listing command has run: the
      kept lines, or the catalog's profile names when the command failed or
      nothing was kept. */
  function AvailableDes(succeeded: bool, stdout: string): (des: seq<string>)
    ensures |des| > 0
    ensures !succeeded ==> des == ProfileNames()
    ensures succeeded && KeptProfiles(Lines(stdout)) == [] ==> des == ProfileNames()
    ensures succeeded && KeptProfiles(Lines(stdout)) != [] ==> des == KeptProfiles(Lines(stdout))
  {
    if !succeeded then ProfileNames()
    else
      var kept := KeptProfiles(Lines(stdout));
      if |kept| == 0 then ProfileNames() else kept
  }

  /** A profile is offered exactly when it is a catalog name and the listing
      produced nothing usable, or it is a trimmed listing line that passes the
      filter. */
  lemma AvailableDesMembers(succeeded: bool, stdout: string, x: string)
    ensures var des := AvailableDes(succeeded, stdout);
            var lines := Lines(stdout);
            x in des <==>
              || ((!succeeded || KeptProfiles(lines) == []) && x in ProfileNames())
              || (succeeded && KeptProfiles(lines) != [] && IsProfileLine(x) && TrimmedLineOf(lines, x))
  {
    var lines := Lines(stdout);
    var kept := KeptProfiles(lines);
    if succeeded && kept != [] {
      if x in kept {
        KeptProfilesSound(lines, x);
      }
      if IsProfileLine(x) && TrimmedLineOf(lines, x) {
        var i :| 0 <= i < |lines| && Trim(lines[i]) == x;
        KeptProfilesComplete(lines, i);
      }
    }
  }

  /** `get_available_des`: a listing command that cannot be started is an
      error; otherwise the list above, which is never empty. */
  function GetAvailableDes(listing: Listing): (des: Option<seq<string>>)
    ensures des.None? <==> listing.SpawnFailed?
    ensures des.Some? ==> |des.value| > 0
    ensures listing.Exited? ==> des == Some(AvailableDes(listing.succeeded, listing.stdout))
  {
    match listing
    case SpawnFailed => None
    case Exited(succeeded, stdout) => Some(AvailableDes(succeeded, stdout))
  }

  /** A line without a newline, followed by one, yields that line first. */
  lemma LinesAfterLine(line: string, rest: string)
    requires Lacks(line, '\n') && Lacks(line, '\r')
    ensures Lines(line + "\n" + rest) == [line] + Lines(rest)
  {
    var s := line + "\n" + rest;
    var k := IndexOf(s, '\n');
    assert s[|line|] == '\n';
    assert forall i :: 0 <= i < |line| ==> s[i] == line[i];
    assert k == |line|;
    assert s[..k] == line;
    assert s[k + 1..] == rest;
  }

  /** A profile name with no surrounding whitespace trims to itself. */
  lemma TrimOfBareName(name: string)
    requires |name| > 0 && !IsWhitespace(name[0]) && !IsWhitespace(name[|name| - 1])
    ensures Trim(name) == name
  {
    TrimStartOfTrimmed(name);
    TrimEndOfTrimmed(name);
  }

  lemma TwoDesktopLines(first: string, second: string)
    requires first == "KDE-Desktop" && second == "GNOME-Desktop"
    ensures Lines(first + "\n" + second + "\n") == [first, second]
  {
    assert Lacks(first, '\n') && Lacks(first, '\r');
    assert Lacks(second, '\n') && Lacks(second, '\r');
    assert first + "\n" + second + "\n" == first + "\n" + (second + "\n" + "");
    LinesAfterLine(second, "");
    LinesAfterLine(first, second + "\n" + "");
  }

  /** Two bare profile lines are both kept, in order. */
  lemma TwoBareLinesKept(first: string, second: string)
    requires Trim(first) == first && IsProfileLine(first)
    requires Trim(second) == second && IsProfileLine(second)
    ensures KeptProfiles([first, second]) == [first, second]
  {
    KeptProfilesOfBareLine(first);
    KeptProfilesOfBareLine(second);
    KeptProfilesAppend([first], [second]);
    assert [first] + [second] == [first, second];
  }

  lemma TwoDesktopKept(first: string, second: string)
    requires first == "KDE-Desktop" && second == "GNOME-Desktop"
    ensures KeptProfiles([first, second]) == [first, second]
  {
    TrimOfBareName(first);
    TrimOfBareName(second);
    assert EndsWith(first, "-Desktop") && EndsWith(second, "-Desktop");
    TwoBareLinesKept(first, second);
  }

  /** A listing that names two desktops, one per line, is offered as exactly
      those two. */
  lemma TwoDesktopListing(first: string, second: string)
    requires first == "KDE-Desktop" && second == "GNOME-Desktop"
    ensures AvailableDes(true, first + "\n" + second + "\n") == [first, second]
  {
    TwoDesktopLines(first, second);
    TwoDesktopKept(first, second);
  }
}
