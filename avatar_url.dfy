/**
 * `ensureAvatarDownloadParam` of src/lib/utils/avatarUrl.ts: a signed
 * storage URL is rewritten to the public URL of the same object. The
 * regular expression `/\/storage\/v1\/object\/sign\/(.*?)(\?|$)/` is
 * modelled as JavaScript runs it: the leftmost start position where the
 * literal matches and the lazy capture can reach a `?` or the end of the
 * string, `.` matching any character but a line terminator.
 */
module AvatarUrl {
  import opened Wrappers
  import opened Strings

  const SignMarker := "/sign/"
  const SignedPath := "/storage/v1/object/sign/"
  const PublicPath := "/storage/v1/object/public/"
  const StorageMarker := "/storage/"

  /** The characters `.` does not match. */
  predicate IsLineTerminator(c: char) {
    c == '\n' || c == '\r' || c == '\U{2028}' || c == '\U{2029}'
  }

  /**
   * `(.*?)(\?|$)` tried from index `q`: the index where the lazy capture
   * stops, or `None` when a line terminator comes first.
   */
  function CaptureEnd(url: string, q: nat): (e: Option<nat>)
    requires q <= |url|
    ensures e.Some? ==> q <= e.value <= |url| && (e.value == |url| || url[e.value] == '?')
    ensures e.Some? ==> forall k :: q <= k < e.value ==> url[k] != '?' && !IsLineTerminator(url[k])
    decreases |url| - q
  {
    if q == |url| || url[q] == '?' then Some(q)
    else if IsLineTerminator(url[q]) then None
    else CaptureEnd(url, q + 1)
  }

  /** The literal part of the pattern occurs at index `p`. */
  predicate SignedAt(url: string, p: nat) {
    p + |SignedPath| <= |url| && url[p..p + |SignedPath|] == SignedPath
  }

  /** The whole pattern matches from start index `p`. */
  predicate MatchesAt(url: string, p: nat) {
    SignedAt(url, p) && CaptureEnd(url, p + |SignedPath|).Some?
  }

  /** `url.match(...)` tried from index `p` on: the bounds of capture group 1 of the leftmost match. */
  function MatchFrom(url: string, p: nat): (m: Option<(nat, nat)>)
    requires p <= |url|
    ensures m.Some? ==>
      (p + |SignedPath| <= m.value.0 && MatchesAt(url, m.value.0 - |SignedPath|)
       && CaptureEnd(url, m.value.0) == Some(m.value.1))
    ensures m.Some? ==> forall k :: p <= k < m.value.0 - |SignedPath| ==> !MatchesAt(url, k)
    ensures m.None? ==> forall k :: p <= k <= |url| ==> !MatchesAt(url, k)
    decreases |url| - p
  {
    if MatchesAt(url, p) then Some((p + |SignedPath|, CaptureEnd(url, p + |SignedPath|).value))
    else if p == |url| then None
    else MatchFrom(url, p + 1)
  }

  /** The index of the first occurrence of `sep` in `s` at or after `i`, or `|s|` without one. */
  function FirstAt(s: string, sep: string, i: nat): (n: nat)
    requires |sep| > 0 && i <= |s|
    ensures i <= n <= |s|
    ensures n == |s| || StartsWith(s[n..], sep)
    ensures forall k :: i <= k < n ==> !StartsWith(s[k..], sep)
    decreases |s| - i
  {
    if i == |s| || StartsWith(s[i..], sep) then i else FirstAt(s, sep, i + 1)
  }

  /** `s.split(sep)[0]`: everything before the first occurrence of `sep`, or `s` without one. */
  function BeforeFirst(s: string, sep: string): (r: string)
    requires |sep| > 0
    ensures |r| <= |s| && s[..|r|] == r
    ensures |r| == |s| || StartsWith(s[|r|..], sep)
    ensures forall k :: 0 <= k < |r| ==> !StartsWith(s[k..], sep)
  {
    s[..FirstAt(s, sep, 0)]
  }

  /**
   * The public URL built from the leftmost match of the signed pattern, or
   * `None` when the pattern does not match or its object path is empty.
   */
  function PublicUrl(u: string): (r: Option<string>)
    ensures r.Some? ==> StartsWith(r.value, BeforeFirst(u, StorageMarker) + PublicPath)
  {
    match MatchFrom(u, 0)
    case Some((a, b)) =>
      if a < b then
        var publicUrl := BeforeFirst(u, StorageMarker) + PublicPath + u[a..b];
        assert publicUrl[..|BeforeFirst(u, StorageMarker) + PublicPath|] == BeforeFirst(u, StorageMarker) + PublicPath;
        Some(publicUrl)
      else None
    case None => None
  }

  /**
   * `ensureAvatarDownloadParam`: `None` (`undefined`) for a missing or
   * empty URL; otherwise the public URL when the URL holds `/sign/` and the
   * signed pattern matches with a non-empty path, and the URL itself in
   * every other case.
   */
  function EnsureAvatarDownloadParam(url: Option<string>): (r: Option<string>)
    ensures r.None? <==> url.None? || url.value == ""
    ensures r.Some? && !Contains(url.value, SignMarker) ==> r.value == url.value
    ensures r.Some? && r.value != url.value ==>
      StartsWith(r.value, BeforeFirst(url.value, StorageMarker) + PublicPath)
  {
    if url.None? || url.value == "" then None
    else
      var u := url.value;
      if Contains(u, SignMarker) && PublicUrl(u).Some? then PublicUrl(u)
      else Some(u)
  }

  /**
   * What a rewrite means: the rewritten URL holds the leftmost match of the
   * pattern (whose shape `MatchFrom` and `CaptureEnd` state) with a
   * non-empty object path; it splits into a part before the match, the
   * signed path, that object path and a rest; and the result is the part
   * before the first `/storage/`, the public path and the same object path.
   */
  lemma {:induction false} RewriteDecomposes(url: string) returns (p: nat, b: nat)
    requires url != "" && EnsureAvatarDownloadParam(Some(url)) != Some(url)
    ensures MatchFrom(url, 0) == Some((p + |SignedPath|, b)) && p + |SignedPath| < b <= |url|
    ensures url == url[..p] + SignedPath + url[p + |SignedPath|..b] + url[b..]
    ensures EnsureAvatarDownloadParam(Some(url))
            == Some(BeforeFirst(url, StorageMarker) + PublicPath + url[p + |SignedPath|..b])
  {
    RewriteNeedsMatch(url);
    p, b := MatchSplits(url);
  }

  /** A match splits the URL into the part before it, the signed path, the object path and the rest. */
  lemma {:induction false} MatchSplits(url: string) returns (p: nat, b: nat)
    requires MatchFrom(url, 0).Some?
    ensures MatchFrom(url, 0) == Some((p + |SignedPath|, b)) && b <= |url|
    ensures url == url[..p] + SignedPath + url[p + |SignedPath|..b] + url[b..]
  {
    var m := MatchFrom(url, 0).value;
    p := m.0 - |SignedPath|;
    b := m.1;
    assert SignedAt(url, p) && CaptureEnd(url, p + |SignedPath|) == Some(b);
    assert b <= |url|;
    SignedUrlSplits(url, p, b);
  }

  /** A rewrite happens only on a match with a non-empty object path, and builds the public URL from it. */
  lemma {:induction false} RewriteNeedsMatch(url: string)
    requires url != "" && EnsureAvatarDownloadParam(Some(url)) != Some(url)
    ensures MatchFrom(url, 0).Some? && MatchFrom(url, 0).value.0 < MatchFrom(url, 0).value.1
    ensures EnsureAvatarDownloadParam(Some(url))
            == Some(BeforeFirst(url, StorageMarker) + PublicPath + url[MatchFrom(url, 0).value.0..MatchFrom(url, 0).value.1])
  {
    assert PublicUrl(url).Some?;
  }

  lemma {:induction false} SignedUrlSplits(url: string, p: nat, b: nat)
    requires SignedAt(url, p) && p + |SignedPath| <= b <= |url|
    ensures url == url[..p] + SignedPath + url[p + |SignedPath|..b] + url[b..]
  {
    assert url == url[..p] + url[p..p + |SignedPath|] + url[p + |SignedPath|..b] + url[b..];
  }

  /**
   * The rewrite direction: a URL in which the signed pattern matches with a
   * non-empty object path is rewritten to the part before the first
   * `/storage/`, the public path and that object path.
   */
  lemma {:induction false} MatchIsRewritten(url: string)
    requires url != "" && MatchFrom(url, 0).Some? && MatchFrom(url, 0).value.0 < MatchFrom(url, 0).value.1
    ensures EnsureAvatarDownloadParam(Some(url))
            == Some(BeforeFirst(url, StorageMarker) + PublicPath + url[MatchFrom(url, 0).value.0..MatchFrom(url, 0).value.1])
  {
    var m := MatchFrom(url, 0).value;
    var p := m.0 - |SignedPath|;
    assert SignedAt(url, p);
    SignMarkerInSignedPath(url, p);
    assert url != "" && Contains(url, SignMarker) && m.0 < m.1;
  }

  /** Where the signed path occurs, `/sign/` occurs 18 characters further on. */
  lemma {:induction false} SignMarkerInSignedPath(url: string, p: nat)
    requires SignedAt(url, p)
    ensures Contains(url, SignMarker)
  {
    assert url[p + 18..p + 18 + |SignMarker|] == url[p..p + |SignedPath|][18..];
    ContainsAt(url, SignMarker, p + 18);
  }

  /** A signed URL whose object path is empty (`.../sign/?token=...`) is returned unchanged. */
  lemma EmptyPathUnchanged(url: string)
    requires url != "" && MatchFrom(url, 0).Some? && MatchFrom(url, 0).value.0 == MatchFrom(url, 0).value.1
    ensures EnsureAvatarDownloadParam(Some(url)) == Some(url)
  {
  }

  /** The part kept from the signed URL holds no `/storage/`, so the public path is the first one in the result. */
  lemma PrefixHasNoStorageMarker(url: string)
    ensures !Contains(BeforeFirst(url, StorageMarker), StorageMarker)
  {
    var r := BeforeFirst(url, StorageMarker);
    forall k | 0 <= k < |r|
      ensures !StartsWith(r[k..], StorageMarker)
    {
      assert r[k..] == url[k..][..|r| - k];
      StartsWithWidened(url[k..], StorageMarker, |r| - k);
    }
    NotContains(r, StorageMarker);
  }
}
