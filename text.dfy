/** The string operations of Rust's `str` that the desktop switcher relies on,
    stated over `seq<char>`: `starts_with`, `ends_with`, `contains`,
    `to_uppercase` (ASCII letters only), `trim`, `replace`, `lines` and the
    last piece of `split`. */
module Text {

  predicate StartsWith(s: string, p: string)
  {
    |p| <= |s| && s[..|p|] == p
  }

  predicate EndsWith(s: string, p: string)
  {
    |p| <= |s| && s[|s| - |p|..] == p
  }

  /** `s` holds `sub` starting at position `i`. */
  predicate OccursAt(s: string, sub: string, i: nat)
  {
    i + |sub| <= |s| && s[i..i + |sub|] == sub
  }

  predicate Contains(s: string, sub: string)
  {
    exists i :: 0 <= i <= |s| && OccursAt(s, sub, i)
  }

  lemma ContainsMiddle(a: string, sub: string, b: string)
    ensures Contains(a + sub + b, sub)
  {
    assert OccursAt(a + sub + b, sub, |a|);
  }

  /** Text put in front keeps every occurrence. */
  lemma ContainsAfter(a: string, s: string, sub: string)
    requires Contains(s, sub)
    ensures Contains(a + s, sub)
  {
    var k :| 0 <= k <= |s| && OccursAt(s, sub, k);
    assert (a + s)[|a| + k..|a| + k + |sub|] == s[k..k + |sub|];
    assert OccursAt(a + s, sub, |a| + k);
  }

  /** A text lacking one character of `sub` does not contain `sub`. */
  lemma MissingCharNotContained(s: string, sub: string, j: nat)
    requires j < |sub| && sub[j] !in s
    ensures !Contains(s, sub)
  {
    forall i | 0 <= i <= |s|
      ensures !OccursAt(s, sub, i)
    {
      if i + |sub| <= |s| {
        assert s[i..i + |sub|][j] == s[i + j];
        assert s[i + j] in s;
      }
    }
  }

  lemma ContainsWithin(s: string, mid: string, sub: string)
    requires Contains(mid, sub) && Contains(s, mid)
    ensures Contains(s, sub)
  {
    var i :| 0 <= i <= |mid| && OccursAt(mid, sub, i);
    var j :| 0 <= j <= |s| && OccursAt(s, mid, j);
    assert s[j..j + |mid|] == mid;
    forall x | 0 <= x < |sub|
      ensures s[j + i..j + i + |sub|][x] == sub[x]
    {
      assert s[j + i + x] == s[j..j + |mid|][i + x] == mid[i + x] == mid[i..i + |sub|][x];
    }
    assert OccursAt(s, sub, j + i);
  }

  // ---------------------------------------------------------------------
  // to_uppercase

  predicate IsLowerAscii(c: char)
  {
    'a' <= c <= 'z'
  }

  function UpperChar(c: char): (u: char)
    ensures !IsLowerAscii(u)
    ensures IsLowerAscii(c) ==> u as int == c as int - 32
    ensures !IsLowerAscii(c) ==> u == c
  {
    if IsLowerAscii(c) then (c as int - 32) as char else c
  }

  /** `str::to_uppercase` on the ASCII range: every lower-case ASCII letter
      becomes its capital, every other character is kept. */
  function ToUpper(s: string): (r: string)
    ensures |r| == |s|
    ensures forall i :: 0 <= i < |s| ==> r[i] == UpperChar(s[i])
  {
    seq(|s|, i requires 0 <= i < |s| => UpperChar(s[i]))
  }

  lemma ToUpperHasNoLower(s: string)
    ensures forall i :: 0 <= i < |s| ==> !IsLowerAscii(ToUpper(s)[i])
  {
  }

  /** Text without lower-case ASCII letters is its own upper case. */
  lemma ToUpperOfUpper(s: string)
    requires forall i :: 0 <= i < |s| ==> !IsLowerAscii(s[i])
    ensures ToUpper(s) == s
  {
  }

  // ---------------------------------------------------------------------
  // trim

  /** Unicode White_Space, the set `char::is_whitespace` (and so `str::trim`) uses. */
  predicate IsWhitespace(c: char)
  {
    || ('\t' <= c <= '\r')
    || c == ' '
    || c == '\U{85}'
    || c == '\U{A0}'
    || c == '\U{1680}'
    || ('\U{2000}' <= c <= '\U{200A}')
    || c == '\U{2028}'
    || c == '\U{2029}'
    || c == '\U{202F}'
    || c == '\U{205F}'
    || c == '\U{3000}'
  }

  /** `str::trim_start`: drops leading whitespace. */
  function TrimStart(s: string): (r: string)
    ensures |r| <= |s|
    decreases |s|
  {
    if |s| > 0 && IsWhitespace(s[0]) then TrimStart(s[1..]) else s
  }

  /** `str::trim_end`: drops trailing whitespace. */
  function TrimEnd(s: string): (r: string)
    ensures |r| <= |s|
    decreases |s|
  {
    if |s| > 0 && IsWhitespace(s[|s| - 1]) then TrimEnd(s[..|s| - 1]) else s
  }

  /** `trim_start` keeps the longest suffix that does not start with
      whitespace, and what it drops is whitespace. */
  lemma {:induction false} TrimStartIsSuffix(s: string)
    ensures var r := TrimStart(s);
            && r == s[|s| - |r|..]
            && (forall i :: 0 <= i < |s| - |r| ==> IsWhitespace(s[i]))
            && (r == [] || !IsWhitespace(r[0]))
    decreases |s|
  {
    if |s| > 0 && IsWhitespace(s[0]) {
      TrimStartIsSuffix(s[1..]);
      SuffixAfterWhitespace(s, s[1..], TrimStart(s[1..]));
    }
  }

  /** A suffix of `s[1..]` behind whitespace is a suffix of `s` behind
      whitespace, when `s` starts with whitespace. */
  lemma SuffixAfterWhitespace(s: string, t: string, r: string)
    requires |s| > 0 && IsWhitespace(s[0]) && t == s[1..]
    requires |r| <= |t| && r == t[|t| - |r|..]
    requires forall i :: 0 <= i < |t| - |r| ==> IsWhitespace(t[i])
    ensures r == s[|s| - |r|..]
    ensures forall i :: 0 <= i < |s| - |r| ==> IsWhitespace(s[i])
  {
    forall i | 0 <= i < |s| - |r|
      ensures IsWhitespace(s[i])
    {
      if i > 0 {
        assert s[i] == t[i - 1];
      }
    }
  }

  /** `trim_end` keeps the longest prefix that does not end with whitespace,
      and what it drops is whitespace. */
  lemma {:induction false} TrimEndIsPrefix(s: string)
    ensures var r := TrimEnd(s);
            && r == s[..|r|]
            && (forall i :: |r| <= i < |s| ==> IsWhitespace(s[i]))
            && (r == [] || !IsWhitespace(r[|r| - 1]))
    decreases |s|
  {
    if |s| > 0 && IsWhitespace(s[|s| - 1]) {
      TrimEndIsPrefix(s[..|s| - 1]);
      PrefixBeforeWhitespace(s, s[..|s| - 1], TrimEnd(s[..|s| - 1]));
    }
  }

  /** A prefix of `s` without its last character, followed by whitespace, is a
      prefix of `s` followed by whitespace, when `s` ends with whitespace. */
  lemma PrefixBeforeWhitespace(s: string, t: string, r: string)
    requires |s| > 0 && IsWhitespace(s[|s| - 1]) && t == s[..|s| - 1]
    requires |r| <= |t| && r == t[..|r|]
    requires forall i :: |r| <= i < |t| ==> IsWhitespace(t[i])
    ensures r == s[..|r|]
    ensures forall i :: |r| <= i < |s| ==> IsWhitespace(s[i])
  {
    forall i | |r| <= i < |s|
      ensures IsWhitespace(s[i])
    {
      if i < |s| - 1 {
        assert s[i] == t[i];
      }
    }
  }

  /** `str::trim`: `s` with its leading and trailing whitespace removed; the
      result neither starts nor ends with whitespace. */
  function Trim(s: string): (r: string)
    ensures r == [] || (!IsWhitespace(r[0]) && !IsWhitespace(r[|r| - 1]))
  {
    TrimStartIsSuffix(s);
    TrimEndIsPrefix(TrimStart(s));
    ghost var t := TrimStart(s);
    ghost var r := TrimEnd(t);
    assert r == [] || r[0] == t[0];
    TrimEnd(TrimStart(s))
  }

  /** `r` is the slice of `s` at `k` with only whitespace around it. */
  predicate TrimmedAt(s: string, r: string, k: nat)
  {
    && k + |r| <= |s| && r == s[k..k + |r|]
    && (forall i :: 0 <= i < k ==> IsWhitespace(s[i]))
    && (forall i :: k + |r| <= i < |s| ==> IsWhitespace(s[i]))
  }

  /** What `trim` cuts off is whitespace at both ends and nothing else. */
  lemma TrimIsSlice(s: string)
    ensures TrimmedAt(s, Trim(s), |s| - |TrimStart(s)|)
  {
    var t := TrimStart(s);
    var r := TrimEnd(t);
    var k := |s| - |t|;
    TrimStartIsSuffix(s);
    TrimEndIsPrefix(t);
    assert Trim(s) == r;
    PrefixOfSuffix(s, t, r, k);
    TrailingWhitespaceShifts(s, t, r, k);
  }

  /** A prefix of the suffix of `s` at `k` is the slice of `s` at `k`. */
  lemma PrefixOfSuffix(s: string, t: string, r: string, k: nat)
    requires k <= |s| && t == s[k..] && |r| <= |t| && r == t[..|r|]
    ensures k + |r| <= |s| && r == s[k..k + |r|]
  {
  }

  /** Whitespace after `r` in `t == s[k..]` is whitespace after `r` in `s`. */
  lemma TrailingWhitespaceShifts(s: string, t: string, r: string, k: nat)
    requires k <= |s| && t == s[k..] && |r| <= |t|
    requires forall i :: |r| <= i < |t| ==> IsWhitespace(t[i])
    ensures forall i :: k + |r| <= i < |s| ==> IsWhitespace(s[i])
  {
    forall i | k + |r| <= i < |s|
      ensures IsWhitespace(s[i])
    {
      assert s[i] == t[i - k];
    }
  }

  lemma TrimStartOfTrimmed(s: string)
    requires s == [] || !IsWhitespace(s[0])
    ensures TrimStart(s) == s
  {
  }

  lemma TrimEndOfTrimmed(s: string)
    requires s == [] || !IsWhitespace(s[|s| - 1])
    ensures TrimEnd(s) == s
  {
  }

  /** Trimming twice is trimming once. */
  lemma TrimIdempotent(s: string)
    ensures Trim(Trim(s)) == Trim(s)
  {
    var t := Trim(s);
    TrimStartOfTrimmed(t);
    TrimEndOfTrimmed(t);
  }

  // ---------------------------------------------------------------------
  // replace

  /** `str::replace(p, r)` for a non-empty pattern: scan from the left and
      replace every non-overlapping occurrence of `p` by `r`. */
  function ReplaceAll(s: string, p: string, r: string): string
    requires |p| > 0
    decreases |s|
  {
    if |s| == 0 then ""
    else if StartsWith(s, p) then r + ReplaceAll(s[|p|..], p, r)
    else [s[0]] + ReplaceAll(s[1..], p, r)
  }

  /** A string in which `p` never occurs is left as it is. */
  lemma {:induction false} ReplaceAllAbsent(s: string, p: string, r: string)
    requires |p| > 0
    requires !Contains(s, p)
    ensures ReplaceAll(s, p, r) == s
    decreases |s|
  {
    if |s| > 0 {
      assert !OccursAt(s, p, 0);
      assert !StartsWith(s, p);
      if Contains(s[1..], p) {
        var i :| 0 <= i <= |s[1..]| && OccursAt(s[1..], p, i);
        assert s[i + 1..i + 1 + |p|] == s[1..][i..i + |p|];
        assert OccursAt(s, p, i + 1);
      }
      ReplaceAllAbsent(s[1..], p, r);
    }
  }

  /** A prefix that lacks the pattern's first character passes through. */
  lemma {:induction false} ReplaceAllPassThrough(a: string, b: string, p: string, r: string)
    requires |p| > 0
    requires forall i :: 0 <= i < |a| ==> a[i] != p[0]
    ensures ReplaceAll(a + b, p, r) == a + ReplaceAll(b, p, r)
    decreases |a|
  {
    if |a| > 0 {
      var s := a + b;
      assert s[0] == a[0];
      assert !StartsWith(s, p);
      assert s[1..] == a[1..] + b;
      ReplaceAllPassThrough(a[1..], b, p, r);
      calc {
        ReplaceAll(s, p, r);
        [s[0]] + ReplaceAll(a[1..] + b, p, r);
        [a[0]] + (a[1..] + ReplaceAll(b, p, r));
        { assert a == [a[0]] + a[1..]; }
        a + ReplaceAll(b, p, r);
      }
    } else {
      assert a + b == b;
    }
  }

  /** An occurrence at the front is replaced and scanning resumes after it. */
  lemma ReplaceAllAtFront(b: string, p: string, r: string)
    requires |p| > 0
    ensures ReplaceAll(p + b, p, r) == r + ReplaceAll(b, p, r)
  {
    var s := p + b;
    assert StartsWith(s, p);
    assert s[|p|..] == b;
  }

  /** When `a` lacks the pattern's first character, an occurrence right after
      it is replaced in place. */
  lemma ReplaceAllAfter(a: string, b: string, p: string, r: string)
    requires |p| > 0
    requires forall i :: 0 <= i < |a| ==> a[i] != p[0]
    ensures ReplaceAll(a + p + b, p, r) == a + r + ReplaceAll(b, p, r)
  {
    assert a + p + b == a + (p + b);
    ReplaceAllPassThrough(a, p + b, p, r);
    ReplaceAllAtFront(b, p, r);
  }

  /** Text that holds the pattern holds the replacement afterwards: the scan
      replaces at least one occurrence, if not that one then an earlier,
      overlapping one. */
  lemma {:induction false} ReplaceAllInserts(s: string, p: string, r: string)
    requires |p| > 0 && Contains(s, p)
    ensures Contains(ReplaceAll(s, p, r), r)
    decreases |s|
  {
    if StartsWith(s, p) {
      ReplaceAllInsertsAtFront(s, p, r);
    } else {
      var t := s[1..];
      OccursLater(s, t, p);
      ReplaceAllInserts(t, p, r);
      assert ReplaceAll(s, p, r) == [s[0]] + ReplaceAll(t, p, r);
      ContainsAfter([s[0]], ReplaceAll(t, p, r), r);
    }
  }

  lemma ReplaceAllInsertsAtFront(s: string, p: string, r: string)
    requires |p| > 0 && StartsWith(s, p)
    ensures Contains(ReplaceAll(s, p, r), r)
  {
    var rest := ReplaceAll(s[|p|..], p, r);
    assert ReplaceAll(s, p, r) == r + rest;
    assert OccursAt(r + rest, r, 0);
  }

  /** An occurrence that is not at the front is an occurrence in the tail. */
  lemma OccursLater(s: string, t: string, p: string)
    requires |s| > 0 && t == s[1..] && Contains(s, p) && !StartsWith(s, p)
    ensures Contains(t, p)
  {
    var i :| 0 <= i <= |s| && OccursAt(s, p, i);
    assert i != 0;
    assert t[i - 1..i - 1 + |p|] == s[i..i + |p|];
    assert OccursAt(t, p, i - 1);
  }

  // ---------------------------------------------------------------------
  // lines

  /** Position of the first `c` in `s` at or after `i`, or `|s|` when there is none. */
  function IndexFrom(s: string, c: char, i: nat): (k: nat)
    requires i <= |s|
    ensures i <= k <= |s|
    ensures forall j :: i <= j < k ==> s[j] != c
    ensures k < |s| ==> s[k] == c
    decreases |s| - i
  {
    if i == |s| || s[i] == c then i else IndexFrom(s, c, i + 1)
  }

  /** Position of the first `c` in `s`, or `|s|` when there is none. */
  function IndexOf(s: string, c: char): (k: nat)
    ensures k <= |s|
    ensures forall i :: 0 <= i < k ==> s[i] != c
    ensures k < |s| ==> s[k] == c
  {
    IndexFrom(s, c, 0)
  }

  /** Drops the `\r` of a `\r\n` line ending. */
  function StripCr(line: string): string
  {
    if |line| > 0 && line[|line| - 1] == '\r' then line[..|line| - 1] else line
  }

  /** `str::lines`: split at every `\n` (dropping a `\r` just before it); a
      final line ending is optional and does not start an empty last line. */
  function Lines(s: string): (ls: seq<string>)
    ensures forall j :: 0 <= j < |ls| ==> Lacks(ls[j], '\n')
    decreases |s|
  {
    if |s| == 0 then []
    else
      var k := IndexOf(s, '\n');
      if k == |s| then [s]
      else [StripCr(s[..k])] + Lines(s[k + 1..])
  }

  /** Each line followed by a newline. */
  function Unlines(ls: seq<string>): string
  {
    if |ls| == 0 then "" else ls[0] + "\n" + Unlines(ls[1..])
  }

  /** `s` with a newline appended unless it is empty or already ends in one. */
  function Terminated(s: string): string
  {
    if |s| == 0 || s[|s| - 1] == '\n' then s else s + "\n"
  }

  lemma TerminatedAfterNewline(line: string, rest: string)
    ensures Terminated(line + "\n" + rest) == line + "\n" + Terminated(rest)
  {
    var s := line + "\n" + rest;
    if |rest| > 0 {
      assert s[|s| - 1] == rest[|rest| - 1];
    } else {
      assert s == line + "\n";
    }
  }

  /** No position of `s` holds `c`. */
  predicate Lacks(s: string, c: char)
  {
    forall i :: 0 <= i < |s| ==> s[i] != c
  }

  lemma LacksSlice(s: string, c: char, i: nat, j: nat)
    requires i <= j <= |s| && Lacks(s, c)
    ensures Lacks(s[i..j], c)
  {
    var t := s[i..j];
    forall x | 0 <= x < |t|
      ensures t[x] != c
    {
      assert t[x] == s[i + x];
    }
  }

  /** The first line of a text without carriage returns is everything up to
      its first newline. */
  lemma LinesAtNewline(s: string, k: nat)
    requires Lacks(s, '\r') && k < |s| && k == IndexOf(s, '\n')
    ensures Lines(s) == [s[..k]] + Lines(s[k + 1..])
  {
    if k > 0 {
      assert s[..k][k - 1] == s[k - 1];
    }
    assert StripCr(s[..k]) == s[..k];
  }

  /** Without carriage returns, re-joining the lines gives back the text, with a
      newline added at the end if it had none. */
  lemma {:induction false} LinesRoundTrip(s: string)
    requires Lacks(s, '\r')
    ensures Unlines(Lines(s)) == Terminated(s)
    decreases |s|
  {
    if |s| > 0 {
      var k := IndexOf(s, '\n');
      if k == |s| {
        assert Lines(s) == [s];
        assert Unlines([s]) == s + "\n" + Unlines([]);
      } else {
        var line, rest := s[..k], s[k + 1..];
        assert s == line + "\n" + rest;
        LacksSlice(s, '\r', k + 1, |s|);
        assert s[k + 1..|s|] == rest;
        LinesAtNewline(s, k);
        LinesRoundTrip(rest);
        var ls := Lines(s);
        assert ls[0] == line && ls[1..] == Lines(rest);
        assert Unlines(ls) == line + "\n" + Unlines(Lines(rest));
        TerminatedAfterNewline(line, rest);
      }
    }
  }

  // ---------------------------------------------------------------------
  // split(sep).last()

  /** The last piece of `s.split(sep)`: the longest suffix of `s` free of
      `sep`. It is all of `s` or it directly follows the last `sep`. */
  function LastPiece(s: string, sep: char): (r: string)
    ensures |r| <= |s| && r == s[|s| - |r|..]
    ensures Lacks(r, sep)
    ensures |r| == |s| || s[|s| - |r| - 1] == sep
    decreases |s|
  {
    if |s| == 0 then ""
    else if s[|s| - 1] == sep then ""
    else LastPiece(s[..|s| - 1], sep) + [s[|s| - 1]]
  }

  /** Without a separator, the last piece is the whole text. */
  lemma LastPieceWithoutSeparator(s: string, sep: char)
    requires Lacks(s, sep)
    ensures LastPiece(s, sep) == s
  {
  }
}
