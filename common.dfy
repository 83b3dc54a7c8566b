/** Small shared vocabulary: an optional value and the first-match search that
    every lookup of the desktop switcher is built on (Rust's `Iterator::find`
    followed by `map`/`unwrap_or`). */
module Common {

  datatype Option<+T> = None | Some(value: T)

  /** Index of the first element of `s` satisfying `p`, as `Iterator::find`
      walks a slice from the front; `None` when no element does. */
  function FindFirst<T>(s: seq<T>, p: T -> bool): (r: Option<nat>)
    ensures r.Some? ==> r.value < |s| && p(s[r.value])
    ensures r.Some? ==> forall j :: 0 <= j < r.value ==> !p(s[j])
    ensures r.None? <==> forall j :: 0 <= j < |s| ==> !p(s[j])
    decreases |s|
  {
    if |s| == 0 then None
    else if p(s[0]) then Some(0)
    else
      match FindFirst(s[1..], p)
      case None => None
      case Some(k) => Some(k + 1)
  }

  /** The first match is unique: any index that satisfies `p` and has no
      satisfying index before it is the one `FindFirst` returns. */
  lemma FindFirstUnique<T>(s: seq<T>, p: T -> bool, k: nat)
    requires k < |s| && p(s[k])
    requires forall j :: 0 <= j < k ==> !p(s[j])
    ensures FindFirst(s, p) == Some(k)
  {
    var r := FindFirst(s, p);
    assert r.Some?;
  }
}
