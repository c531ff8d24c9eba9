/**
 * The changelog store of src/lib/stores/changelog.ts: the dialog state set
 * by `showChangelog`/`closeChangelog`, and the version check of
 * `checkAndShowChangelog`, which compares the first three dot-separated
 * components of the current version with those of the last version seen.
 * The browser flag and the stored `lastSeenVersion` are parameters.
 */
module Changelog {
  import opened Wrappers
  import opened Strings

  /** `ChangelogEntry` of the changelog configuration. */
  datatype ChangelogEntry = ChangelogEntry(version: string, date: string, title: string, items: seq<string>)

  const LastSeenKey := "lastSeenVersion"

  // ---------------------------------------------------------------------------
  // `v.split('.').map(Number)`
  // ---------------------------------------------------------------------------

  /** `s.split(sep)` for a one-character separator. */
  function Split(s: string, sep: char): (parts: seq<string>)
    ensures |parts| >= 1
    ensures forall i :: 0 <= i < |parts| ==> sep !in parts[i]
    decreases |s|
  {
    if s == [] then [""]
    else
      var rest := Split(s[1..], sep);
      if s[0] == sep then [""] + rest
      else [[s[0]] + rest[0]] + rest[1..]
  }

  /** `parts.join(sep)`. */
  function Join(parts: seq<string>, sep: char): string
    requires |parts| >= 1
    decreases |parts|
  {
    if |parts| == 1 then parts[0] else parts[0] + [sep] + Join(parts[1..], sep)
  }

  /** Splitting loses nothing: joining the parts again gives the string back. */
  lemma {:induction false} JoinSplit(s: string, sep: char)
    ensures Join(Split(s, sep), sep) == s
    decreases |s|
  {
    if s != [] {
      var rest := Split(s[1..], sep);
      JoinSplit(s[1..], sep);
      if s[0] == sep {
        assert ([""] + rest)[1..] == rest;
      } else {
        var parts := [[s[0]] + rest[0]] + rest[1..];
        if |rest| == 1 {
          assert parts == [[s[0]] + rest[0]];
        } else {
          assert parts[1..] == rest[1..];
          assert Join(rest, sep) == rest[0] + [sep] + Join(rest[1..], sep);
        }
      }
    }
  }

  /** A value of `Number(part)`, or `undefined` for a component the array does not have. */
  datatype Component = Absent | NotANumber | Num(n: int)

  predicate IsDigit(c: char) {
    '0' <= c <= '9'
  }

  function DigitValue(c: char): (d: nat)
    requires IsDigit(c)
    ensures d <= 9
  {
    c as int - '0' as int
  }

  /** The decimal value of a run of digits. */
  function DigitsValue(s: string): (n: nat)
    requires forall i :: 0 <= i < |s| ==> IsDigit(s[i])
    decreases |s|
  {
    if s == [] then 0 else DigitsValue(s[..|s| - 1]) * 10 + DigitValue(s[|s| - 1])
  }

  predicate AllDigits(s: string) {
    |s| > 0 && forall i :: 0 <= i < |s| ==> IsDigit(s[i])
  }

  /**
   * `Number(part)` for a part without a dot: white space around it is
   * ignored, an empty part is 0, an optionally signed run of decimal digits
   * is its value, and anything else is NaN.
   */
  function NumberOf(part: string): (c: Component)
    ensures c != Absent
  {
    var t := Trim(part);
    if t == [] then Num(0)
    else if AllDigits(t) then Num(DigitsValue(t))
    else if t[0] == '+' && AllDigits(t[1..]) then Num(DigitsValue(t[1..]))
    else if t[0] == '-' && AllDigits(t[1..]) then Num(-(DigitsValue(t[1..]) as int))
    else NotANumber
  }

  /** A plain run of digits is read as its decimal value. */
  lemma NumberOfDigits(part: string)
    requires AllDigits(part)
    ensures NumberOf(part) == Num(DigitsValue(part))
  {
    assert !IsJsSpace(part[0]) && !IsJsSpace(part[|part| - 1]);
    assert TrimStart(part) == part;
    assert TrimEnd(part) == part;
  }

  function ParseVersion(v: string): (cs: seq<Component>)
    ensures |cs| == |Split(v, '.')|
    ensures forall i :: 0 <= i < |cs| ==> cs[i] == NumberOf(Split(v, '.')[i])
  {
    var parts := Split(v, '.');
    seq(|parts|, i requires 0 <= i < |parts| => NumberOf(parts[i]))
  }

  /** The components of the last version seen: 0.0.0 when nothing (or an empty string) is stored. */
  function LastComponents(lastSeen: Option<string>): seq<Component> {
    if lastSeen.None? || lastSeen.value == "" then [Num(0), Num(0), Num(0)] else ParseVersion(lastSeen.value)
  }

  // ---------------------------------------------------------------------------
  // The comparison
  // ---------------------------------------------------------------------------

  /** `current[i]`: `undefined` past the end. */
  function At(cs: seq<Component>, i: nat): Component {
    if i < |cs| then cs[i] else Absent
  }

  /** `last[i] || 0`: a missing or NaN component counts as 0. */
  function OrZero(cs: seq<Component>, i: nat): int {
    if i < |cs| && cs[i].Num? then cs[i].n else 0
  }

  /** `c > l` and `c < l` in JavaScript: false for `undefined` and NaN. */
  predicate Above(c: Component, l: int) {
    c.Num? && c.n > l
  }

  predicate Below(c: Component, l: int) {
    c.Num? && c.n < l
  }

  /** Neither greater nor smaller at index `i`. */
  predicate Level(current: seq<Component>, last: seq<Component>, i: nat) {
    !Above(At(current, i), OrZero(last, i)) && !Below(At(current, i), OrZero(last, i))
  }

  /**
   * The current version is newer, compared lexicographically on the first
   * three components: greater at index 0, or level there and greater at 1,
   * or level at 0 and 1 and greater at 2.
   */
  predicate IsNewer(current: seq<Component>, last: seq<Component>) {
    Above(At(current, 0), OrZero(last, 0))
    || (Level(current, last, 0)
        && (Above(At(current, 1), OrZero(last, 1))
            || (Level(current, last, 1) && Above(At(current, 2), OrZero(last, 2)))))
  }

  /** The same order read as "at the first index below 3 where they are not level, the current is greater". */
  lemma NewerIsFirstDifference(current: seq<Component>, last: seq<Component>)
    ensures IsNewer(current, last) <==>
      exists i :: 0 <= i < 3 && Above(At(current, i), OrZero(last, i))
        && forall j :: 0 <= j < i ==> Level(current, last, j)
  {
    if IsNewer(current, last) {
      if Above(At(current, 0), OrZero(last, 0)) {
      } else if Above(At(current, 1), OrZero(last, 1)) {
        assert forall j :: 0 <= j < 1 ==> Level(current, last, j);
      } else {
        assert forall j :: 0 <= j < 2 ==> Level(current, last, j);
        assert Above(At(current, 2), OrZero(last, 2));
      }
    }
  }

  /** A version is never newer than itself. */
  lemma SameVersionNotNewer(cs: seq<Component>)
    ensures !IsNewer(cs, cs)
  {
  }

  /** For numeric versions, newer is a strict order: never both ways. */
  lemma NewerIsAsymmetric(a: seq<Component>, b: seq<Component>)
    requires |a| >= 3 && |b| >= 3
    requires forall i :: 0 <= i < 3 ==> a[i].Num? && b[i].Num?
    ensures IsNewer(a, b) ==> !IsNewer(b, a)
  {
  }

  /** Components past the third never matter. */
  lemma ExtraComponentsIgnored(current: seq<Component>, extra: seq<Component>, last: seq<Component>)
    requires |current| >= 3
    ensures IsNewer(current + extra, last) <==> IsNewer(current, last)
  {
  }

  /** Against a missing stored version the current one is newer iff its first non-zero component is positive. */
  lemma NewerThanNothing(a: int, b: int, c: int)
    ensures IsNewer([Num(a), Num(b), Num(c)], LastComponents(None))
      <==> (a > 0 || (a == 0 && (b > 0 || (b == 0 && c > 0))))
  {
  }

  // ---------------------------------------------------------------------------
  // The store
  // ---------------------------------------------------------------------------

  class ChangelogStore {
    var isOpen: bool
    var currentEntry: Option<ChangelogEntry>

    constructor ()
      ensures !isOpen && currentEntry == None
    {
      isOpen := false;
      currentEntry := None;
    }

    method ShowChangelog(entry: ChangelogEntry)
      modifies this
      ensures isOpen && currentEntry == Some(entry)
    {
      isOpen := true;
      currentEntry := Some(entry);
    }

    method CloseChangelog()
      modifies this
      ensures !isOpen && currentEntry == None
    {
      isOpen := false;
      currentEntry := None;
    }

    /**
     * `checkAndShowChangelog`: `None` outside the browser (the function
     * returns `undefined` without reading storage); otherwise whether the
     * current version is newer than the stored one. It does not change the
     * store.
     */
    method CheckAndShowChangelog(currentVersion: string, inBrowser: bool, lastSeen: Option<string>)
      returns (r: Option<bool>)
      ensures r.None? <==> !inBrowser
      ensures r.Some? ==> (r.value <==> IsNewer(ParseVersion(currentVersion), LastComponents(lastSeen)))
    {
      if !inBrowser {
        return None;
      }
      var current := ParseVersion(currentVersion);
      var last := LastComponents(lastSeen);
      var newer := CompareVersions(current, last);
      return Some(newer);
    }
  }

  /** The loop of `checkAndShowChangelog` over indices 0, 1, 2, with its early returns. */
  method CompareVersions(current: seq<Component>, last: seq<Component>) returns (newer: bool)
    ensures newer == IsNewer(current, last)
  {
    for i := 0 to 3
      invariant forall j :: 0 <= j < i ==> Level(current, last, j)
    {
      var c := if i < |current| then current[i] else Absent;
      var l := if i < |last| && last[i].Num? then last[i].n else 0;
      assert c == At(current, i) && l == OrZero(last, i);
      if c.Num? && c.n > l {
        return true;
      }
      if c.Num? && c.n < l {
        NotNewerWhenBelow(current, last, i);
        return false;
      }
    }
    assert Level(current, last, 0) && Level(current, last, 1) && Level(current, last, 2);
    return false;
  }

  /** A smaller component after level ones settles the comparison as not newer. */
  lemma NotNewerWhenBelow(current: seq<Component>, last: seq<Component>, i: nat)
    requires i < 3 && Below(At(current, i), OrZero(last, i))
    requires forall j :: 0 <= j < i ==> Level(current, last, j)
    ensures !IsNewer(current, last)
  {
    if i == 1 {
      assert Level(current, last, 0);
    } else if i == 2 {
      assert Level(current, last, 0) && Level(current, last, 1);
    }
  }
}
