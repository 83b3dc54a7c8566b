/** The switcher's static tables: the desktop profiles with their display
    managers, the profiles that install a named package group instead of a
    resolved package list, and the three supported package managers. */
module Catalog {

  /** Profile name and display-manager service, in table order. */
  const DeDmMap: seq<(string, string)> := [
    ("KDE-Desktop", "sddm"),
    ("GNOME-Desktop", "gdm"),
    ("XFCE4-Desktop", "lightdm"),
    ("Cinnamon-Desktop", "lightdm"),
    ("MATE-Desktop", "lightdm"),
    ("Budgie-Desktop", "lightdm"),
    ("LXQT-Desktop", "sddm"),
    ("LXDE-Desktop", "lightdm"),
    ("i3-Window-Manager", "lightdm")
  ]

  /** Profiles installed as one literal package group. */
  const SpecialInstallMap: map<string, string> := map[
    "COSMIC-Desktop" := "cosmic",
    "i3-Window-Manager" := "i3-gaps"
  ]

  const PkgManagerList: seq<string> := ["pacman", "yay", "paru"]

  /** The profile given to a desktop that matches no catalog entry. */
  const UnknownProfile: string := "Unknown-Desktop"

  /** The profile names of `DeDmMap` in table order: the fallback list of
      selectable targets. */
  function ProfileNames(): (names: seq<string>)
    ensures |names| == |DeDmMap|
    ensures forall i :: 0 <= i < |DeDmMap| ==> names[i] == DeDmMap[i].0
  {
    seq(|DeDmMap|, i requires 0 <= i < |DeDmMap| => DeDmMap[i].0)
  }

  /** No profile name appears twice, so an exact-match lookup finds at most one entry. */
  lemma ProfileNamesDistinct()
    ensures forall i, j :: 0 <= i < j < |DeDmMap| ==> DeDmMap[i].0 != DeDmMap[j].0
  {
  }

  /** The sentinel and the COSMIC profile are not catalog entries. */
  lemma SentinelsNotInCatalog()
    ensures UnknownProfile !in ProfileNames()
    ensures "COSMIC-Desktop" !in ProfileNames()
  {
  }
}
