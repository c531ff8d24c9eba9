/**
 * Normalisation of database timestamps toward the UTC form of section 5.6
 * of RFC 3339 (`ensureUTC` in src/lib/utils/time.ts): a date and time
 * joined by `T` and closed by `Z`.
 */
module Time {
  import opened Strings

  /** The string already names an offset: it contains `Z`, `+` or `-00:`. */
  predicate HasZone(s: string) {
    'Z' in s || '+' in s || Contains(s, "-00:")
  }

  /** `ensureUTC` */
  function EnsureUtc(s: string): (r: string)
    ensures s == "" ==> r == ""
    ensures HasZone(s) ==> r == s
    ensures !HasZone(s) && ' ' in s && 'T' !in s ==> r == ReplaceFirstChar(s, ' ', 'T') + "Z"
    ensures !HasZone(s) && 'T' in s ==> r == s + "Z"
    ensures !HasZone(s) && ' ' !in s && 'T' !in s ==> r == s
  {
    ContainsChar(s, 'Z');
    ContainsChar(s, '+');
    ContainsChar(s, ' ');
    ContainsChar(s, 'T');
    if s == "" then ""
    else if Contains(s, "Z") || Contains(s, "+") || Contains(s, "-00:") then s
    else if Contains(s, " ") && !Contains(s, "T") then ReplaceFirstChar(s, ' ', 'T') + "Z"
    else if Contains(s, "T") && !Contains(s, "Z") then s + "Z"
    else s
  }

  /** Every rewritten string ends in `Z`, and only strings without a zone are rewritten. */
  lemma RewrittenEndsInZ(s: string)
    ensures EnsureUtc(s) != s ==> !HasZone(s) && EndsWith(EnsureUtc(s), "Z")
  {
  }

  /** Normalising twice gives the same as normalising once. */
  lemma {:induction false} EnsureUtcIdempotent(s: string)
    ensures EnsureUtc(EnsureUtc(s)) == EnsureUtc(s)
  {
    var r := EnsureUtc(s);
    if r != s {
      RewrittenEndsInZ(s);
      assert r[|r| - 1] == 'Z';
      assert 'Z' in r;
    }
  }
}
