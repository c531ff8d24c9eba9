/**
 * Session bookkeeping (src/lib/utils/sessions.ts): the relative "last
 * active" label, the device and browser classification of a user-agent
 * string, and the choice of the current session among the active ones.
 * The clock, the user agent, the browser locale and `Date` parsing are
 * parameters.
 */
module Sessions {
  import opened Wrappers
  import opened Strings
  import Ordering
  import Time

  // -------------------------------------------------------- formatLastActive

  /** One locale's strings; `{0}` marks where the count goes. */
  datatype Translation = Translation(now: string, minutesAgo: string, hoursAgo: string, daysAgo: string, invalid: string)

  const English := Translation("Now", "m ago", "h ago", "d ago", "Invalid date")

  /** The `translations` table. */
  function Translations(locale: string): Option<Translation> {
    if locale == "en" then Some(English)
    else if locale == "es" then Some(Translation("Ahora", "hace {0}m", "hace {0}h", "hace {0}d", "Fecha inválida"))
    else if locale == "fr" then Some(Translation("À l'instant", "il y a {0}m", "il y a {0}h", "il y a {0}d", "Date invalide"))
    else if locale == "de" then Some(Translation("Jetzt", "vor {0}m", "vor {0}h", "vor {0}d", "Ungültiges Datum"))
    else None
  }

  /** `translations[locale] || translations['en']` */
  function TranslationFor(locale: string): (t: Translation)
    ensures Translations(locale).None? ==> t == English
  {
    Translations(locale).GetOr(English)
  }

  /** The text before the first `-` (`split('-')[0]`). */
  function BeforeDash(s: string): (r: string)
    ensures |r| <= |s| && r == s[..|r|] && '-' !in r
    ensures |r| < |s| ==> s[|r|] == '-'
  {
    if s == [] || s[0] == '-' then [] else [s[0]] + BeforeDash(s[1..])
  }

  /** `getCurrentLocale`: `en` outside a browser, else the language part of `navigator.language`. */
  function CurrentLocale(inBrowser: bool, language: string): string {
    if !inBrowser then "en" else BeforeDash(if language == "" then "en" else language)
  }

  /**
   * The timestamp rewritten to an ISO string in UTC before it is parsed: an
   * ISO string (one with `T`) already ending in `Z` is kept, any other ISO
   * string gets `Z` appended, and a PostgreSQL string has its first space
   * replaced by `T` and `Z` appended.
   */
  function NormalisedTimestamp(ts: string): (iso: string)
    ensures EndsWith(iso, "Z")
    ensures 'T' in ts && EndsWith(ts, "Z") ==> iso == ts
    ensures 'T' in ts && !EndsWith(ts, "Z") ==> iso == ts + "Z"
    ensures 'T' !in ts ==> iso == ReplaceFirstChar(ts, ' ', 'T') + "Z"
  {
    if 'T' in ts then (if EndsWith(ts, "Z") then ts else ts + "Z")
    else ReplaceFirstChar(ts, ' ', 'T') + "Z"
  }

  /** The result: a label, or `then.toLocaleDateString(locale)` for timestamps a week old or more. */
  datatype LastActive = Label(text: string) | LocaleDate(instant: int, locale: string)

  const MinuteMs := 60000
  const HourMs := 3600000
  const DayMs := 86400000

  /**
   * The label for a non-negative elapsed time, or `None` from a week on:
   * under a minute is "now", then whole minutes, hours and days.
   */
  function RelativeLabel(t: Translation, diff: int): (text: Option<string>)
    ensures diff < MinuteMs ==> text == Some(t.now)
    ensures MinuteMs <= diff < HourMs ==> text == Some(ReplaceFirst(t.minutesAgo, "{0}", NatToString(diff / MinuteMs))) && 1 <= diff / MinuteMs < 60
    ensures HourMs <= diff < DayMs ==> text == Some(ReplaceFirst(t.hoursAgo, "{0}", NatToString(diff / HourMs))) && 1 <= diff / HourMs < 24
    ensures DayMs <= diff < 7 * DayMs ==> text == Some(ReplaceFirst(t.daysAgo, "{0}", NatToString(diff / DayMs))) && 1 <= diff / DayMs < 7
    ensures diff >= 7 * DayMs ==> text.None?
  {
    if diff < 0 then Some(t.now)
    else
      var minutes := diff / MinuteMs;
      var hours := diff / HourMs;
      var days := diff / DayMs;
      if minutes < 1 then Some(t.now)
      else if minutes < 60 then Some(ReplaceFirst(t.minutesAgo, "{0}", NatToString(minutes)))
      else if hours < 24 then Some(ReplaceFirst(t.hoursAgo, "{0}", NatToString(hours)))
      else if days < 7 then Some(ReplaceFirst(t.daysAgo, "{0}", NatToString(days)))
      else None
  }

  /** `locale || getCurrentLocale()` */
  function ChosenLocale(locale: Option<string>, inBrowser: bool, language: string): string {
    if locale.Some? && locale.value != "" then locale.value else CurrentLocale(inBrowser, language)
  }

  /**
   * `formatLastActive`, with the clock reading `now` and `parse` standing
   * for `new Date(...)` (`None` for an invalid date): "Unknown" without a
   * timestamp, the locale's invalid text when the normalised timestamp does
   * not parse, the locale date exactly when it parses to an instant a week
   * or more in the past, and the relative label otherwise.
   */
  function FormatLastActive(timestamp: Option<string>, locale: Option<string>, inBrowser: bool, language: string,
                            parse: string -> Option<int>, now: int): (r: LastActive)
    ensures timestamp.None? || timestamp.value == "" ==> r == Label("Unknown")
    ensures timestamp.Some? && timestamp.value != "" && parse(NormalisedTimestamp(timestamp.value)).None?
            ==> r == Label(TranslationFor(ChosenLocale(locale, inBrowser, language)).invalid)
    ensures r.LocaleDate? <==>
      (timestamp.Some? && timestamp.value != "" && parse(NormalisedTimestamp(timestamp.value)).Some?
       && now - parse(NormalisedTimestamp(timestamp.value)).value >= 7 * DayMs)
    ensures r.LocaleDate? ==> r.instant == parse(NormalisedTimestamp(timestamp.value)).value
                              && r.locale == ChosenLocale(locale, inBrowser, language)
  {
    if timestamp.None? || timestamp.value == "" then Label("Unknown")
    else
      var current := ChosenLocale(locale, inBrowser, language);
      var trans := TranslationFor(current);
      match parse(NormalisedTimestamp(timestamp.value))
      case None => Label(trans.invalid)
      case Some(parsed) => SinceParsed(trans, current, parsed, now)
  }

  /** The result for a timestamp that parsed: the relative label under a week, the locale date from then on. */
  function SinceParsed(trans: Translation, current: string, parsed: int, now: int): (r: LastActive)
    ensures r.LocaleDate? <==> now - parsed >= 7 * DayMs
    ensures r.LocaleDate? ==> r == LocaleDate(parsed, current)
    ensures now - parsed < 7 * DayMs ==> RelativeLabel(trans, now - parsed).Some? && r == Label(RelativeLabel(trans, now - parsed).value)
  {
    match RelativeLabel(trans, now - parsed)
    case Some(text) => Label(text)
    case None => LocaleDate(parsed, current)
  }

  /**
   * The main case: a timestamp that parses to an instant less than a week
   * ago is shown as the chosen locale's relative label for the elapsed time.
   */
  lemma RecentIsRelativeLabel(ts: string, locale: Option<string>, inBrowser: bool, language: string,
                              parse: string -> Option<int>, now: int, parsed: int)
    requires ts != "" && parse(NormalisedTimestamp(ts)) == Some(parsed) && now - parsed < 7 * DayMs
    ensures var rel := RelativeLabel(TranslationFor(ChosenLocale(locale, inBrowser, language)), now - parsed);
      rel.Some? && FormatLastActive(Some(ts), locale, inBrowser, language, parse, now) == Label(rel.value)
  {
    var current := ChosenLocale(locale, inBrowser, language);
    assert FormatLastActive(Some(ts), locale, inBrowser, language, parse, now)
           == SinceParsed(TranslationFor(current), current, parsed, now);
  }

  /** A missing or empty timestamp is "Unknown". */
  lemma MissingTimestampIsUnknown(locale: Option<string>, inBrowser: bool, language: string, parse: string -> Option<int>, now: int)
    ensures FormatLastActive(None, locale, inBrowser, language, parse, now) == Label("Unknown")
    ensures FormatLastActive(Some(""), locale, inBrowser, language, parse, now) == Label("Unknown")
  {
  }

  /** An unknown locale labels with the English strings. */
  lemma UnknownLocaleUsesEnglish(ts: string, locale: string, parse: string -> Option<int>, now: int)
    requires locale != "" && Translations(locale).None?
    ensures var r := FormatLastActive(Some(ts), Some(locale), true, "", parse, now);
      r.Label? ==> r == FormatLastActive(Some(ts), Some("en"), true, "", parse, now)
  {
  }

  /** Every label the English table can produce. */
  const EnglishLabels: set<string> := {"Unknown", "Invalid date", "Now", "m ago", "h ago", "d ago"}

  /** The English strings have no `{0}`, so an English relative label is a fixed text without a number. */
  lemma EnglishRelativeLabels(diff: int)
    ensures RelativeLabel(English, diff).Some? ==> RelativeLabel(English, diff).value in EnglishLabels
  {
    NoPlaceholder("m ago");
    NoPlaceholder("h ago");
    NoPlaceholder("d ago");
  }

  /** An English label is one of the fixed texts. */
  lemma {:induction false} EnglishLabelsAreFixed(ts: string, parse: string -> Option<int>, now: int)
    ensures var r := FormatLastActive(Some(ts), Some("en"), true, "", parse, now);
      r.Label? ==> r.text in EnglishLabels
  {
    EnglishIsChosen();
    if ts != "" && parse(NormalisedTimestamp(ts)).Some? {
      EnglishParsedLabel(ts, parse, now, parse(NormalisedTimestamp(ts)).value);
    }
  }

  lemma EnglishIsChosen()
    ensures TranslationFor(ChosenLocale(Some("en"), true, "")) == English
  {
    assert ChosenLocale(Some("en"), true, "") == "en";
  }

  /** For a timestamp that parses, the English label is fixed by the elapsed bucket alone. */
  lemma {:induction false} EnglishParsedLabel(ts: string, parse: string -> Option<int>, now: int, parsed: int)
    requires ts != "" && parse(NormalisedTimestamp(ts)) == Some(parsed)
    ensures var r := FormatLastActive(Some(ts), Some("en"), true, "", parse, now);
      r.Label? ==> r.text in EnglishLabels
    ensures now - parsed < MinuteMs ==> FormatLastActive(Some(ts), Some("en"), true, "", parse, now) == Label("Now")
    ensures MinuteMs <= now - parsed < HourMs ==> FormatLastActive(Some(ts), Some("en"), true, "", parse, now) == Label("m ago")
    ensures HourMs <= now - parsed < DayMs ==> FormatLastActive(Some(ts), Some("en"), true, "", parse, now) == Label("h ago")
    ensures DayMs <= now - parsed < 7 * DayMs ==> FormatLastActive(Some(ts), Some("en"), true, "", parse, now) == Label("d ago")
  {
    EnglishIsChosen();
    var r := FormatLastActive(Some(ts), Some("en"), true, "", parse, now);
    var d := now - parsed;
    if d < MinuteMs {
      assert r == Label("Now");
    } else if d < HourMs {
      NoPlaceholder("m ago");
      assert r == Label("m ago");
    } else if d < DayMs {
      NoPlaceholder("h ago");
      assert r == Label("h ago");
    } else if d < 7 * DayMs {
      NoPlaceholder("d ago");
      assert r == Label("d ago");
    }
  }

  /** An English label is one of the fixed texts, none of which holds a digit. */
  lemma EnglishLabelsHaveNoDigits(ts: string, parse: string -> Option<int>, now: int)
    ensures var r := FormatLastActive(Some(ts), Some("en"), true, "", parse, now);
      r.Label? ==> r.text in EnglishLabels && forall i :: 0 <= i < |r.text| ==> !('0' <= r.text[i] <= '9')
  {
    var r := FormatLastActive(Some(ts), Some("en"), true, "", parse, now);
    EnglishLabelsAreFixed(ts, parse, now);
    if r.Label? {
      EnglishLabelHasNoDigit(r.text);
    }
  }

  lemma EnglishLabelHasNoDigit(text: string)
    requires text in EnglishLabels
    ensures forall i :: 0 <= i < |text| ==> !('0' <= text[i] <= '9')
  {
  }

  lemma {:induction false} NoPlaceholder(s: string)
    requires '{' !in s
    ensures !Contains(s, "{0}")
    decreases |s|
  {
    if s != [] {
      assert s[0] != '{';
      NoPlaceholder(s[1..]);
    }
  }

  /** The normalisation agrees with `ensureUTC` on strings without a zone that contain `T` or a space. */
  lemma NormalisationAgreesWithEnsureUtc(ts: string)
    requires !Time.HasZone(ts) && ('T' in ts || ' ' in ts)
    ensures NormalisedTimestamp(ts) == Time.EnsureUtc(ts)
  {
  }

  /**
   * Where the two normalisations part: an ISO string with a `+hh:mm` offset
   * gets a `Z` appended here, after the offset, while `ensureUTC` leaves it
   * as it is.
   */
  lemma OffsetTimestampDiffersFromEnsureUtc(ts: string)
    requires 'T' in ts && '+' in ts && !EndsWith(ts, "Z")
    ensures NormalisedTimestamp(ts) == ts + "Z"
    ensures Time.EnsureUtc(ts) == ts
    ensures NormalisedTimestamp(ts) != Time.EnsureUtc(ts)
  {
    assert |ts + "Z"| != |ts|;
  }

  // ----------------------------------------------------------- getDeviceInfo

  /** The length of the leading run of decimal digits. */
  function DigitRun(s: string): (n: nat)
    ensures n <= |s| && forall i :: 0 <= i < n ==> '0' <= s[i] <= '9'
    ensures n == |s| || !('0' <= s[n] <= '9')
  {
    if s != [] && '0' <= s[0] <= '9' then 1 + DigitRun(s[1..]) else 0
  }

  /**
   * The first capture of `/iPhone OS (\d+)_(\d+)/` at the start of `s`. The
   * greedy digit run can only be followed by `_` at its end.
   */
  function IosVersionAt(s: string): Option<string> {
    if StartsWith(s, "iPhone OS ") then
      var rest := s[10..];
      var n := DigitRun(rest);
      if n >= 1 && n + 1 < |rest| && rest[n] == '_' && '0' <= rest[n + 1] <= '9' then Some(rest[..n]) else None
    else None
  }

  /** The leftmost match of the pattern. */
  function IosVersion(ua: string): (v: Option<string>)
    ensures v.Some? ==> |v.value| > 0 && forall i :: 0 <= i < |v.value| ==> '0' <= v.value[i] <= '9'
    decreases |ua|
  {
    match IosVersionAt(ua)
    case Some(v) => Some(v)
    case None => if ua == [] then None else IosVersion(ua[1..])
  }

  /** A reported version was read from an `iPhone OS <version>_` run of the user agent. */
  lemma {:induction false} IosVersionOccurs(ua: string)
    ensures IosVersion(ua).Some? ==> Contains(ua, "iPhone OS " + IosVersion(ua).value + "_")
    decreases |ua|
  {
    match IosVersionAt(ua)
    case Some(v) =>
      assert ua[..10 + |v| + 1] == "iPhone OS " + v + "_";
      ContainsAt(ua, "iPhone OS " + v + "_", 0);
    case None =>
      if ua != [] && IosVersion(ua[1..]).Some? {
        var pat := "iPhone OS " + IosVersion(ua[1..]).value + "_";
        IosVersionOccurs(ua[1..]);
        var i := ContainsWitness(ua[1..], pat);
        assert ua[i + 1..i + 1 + |pat|] == ua[1..][i..i + |pat|];
        ContainsAt(ua, pat, i + 1);
      }
  }

  /** The device name: the first platform named in the user agent, overridden by an iOS version. */
  function DeviceName(ua: string): (device: string)
    ensures IosVersion(ua).Some? ==> device == "iPhone (iOS " + IosVersion(ua).value + ")"
    ensures IosVersion(ua).None? && Contains(ua, "iPhone") ==> device == "iPhone"
    ensures IosVersion(ua).None? && !Contains(ua, "iPhone") && Contains(ua, "iPad") ==> device == "iPad"
    ensures (IosVersion(ua).None? && !Contains(ua, "iPhone") && !Contains(ua, "iPad") && Contains(ua, "Android"))
            ==> device == "Android Device"
    ensures (IosVersion(ua).None? && !Contains(ua, "iPhone") && !Contains(ua, "iPad") && !Contains(ua, "Android")
             && Contains(ua, "Mac")) ==> device == "Mac"
    ensures (IosVersion(ua).None? && !Contains(ua, "iPhone") && !Contains(ua, "iPad") && !Contains(ua, "Android")
             && !Contains(ua, "Mac") && Contains(ua, "Windows")) ==> device == "Windows PC"
    ensures (IosVersion(ua).None? && !Contains(ua, "iPhone") && !Contains(ua, "iPad") && !Contains(ua, "Android")
             && !Contains(ua, "Mac") && !Contains(ua, "Windows") && Contains(ua, "Linux")) ==> device == "Linux"
    ensures (IosVersion(ua).None? && !Contains(ua, "iPhone") && !Contains(ua, "iPad") && !Contains(ua, "Android")
             && !Contains(ua, "Mac") && !Contains(ua, "Windows") && !Contains(ua, "Linux")) ==> device == "Unknown Device"
  {
    var platform :=
      if Contains(ua, "iPhone") then "iPhone"
      else if Contains(ua, "iPad") then "iPad"
      else if Contains(ua, "Android") then "Android Device"
      else if Contains(ua, "Mac") then "Mac"
      else if Contains(ua, "Windows") then "Windows PC"
      else if Contains(ua, "Linux") then "Linux"
      else "Unknown Device";
    match IosVersion(ua)
    case Some(v) => "iPhone (iOS " + v + ")"
    case None => platform
  }

  /** An iPhone user agent carries "iPhone", so without a version the platform test names it first. */
  lemma IosAgentIsIphone(ua: string)
    ensures IosVersion(ua).Some? ==> Contains(ua, "iPhone")
  {
    if IosVersion(ua).Some? {
      var v := IosVersion(ua).value;
      IosVersionOccurs(ua);
      var i := ContainsWitness(ua, "iPhone OS " + v + "_");
      assert ua[i..i + 6] == ua[i..i + |"iPhone OS " + v + "_"|][..6] == ("iPhone OS " + v + "_")[..6] == "iPhone";
      ContainsAt(ua, "iPhone", i);
    }
  }

  /** The browser name (the version suffix is not modelled). */
  function BrowserName(ua: string): (browser: string)
    ensures browser == "Chrome" ==> Contains(ua, "Chrome/") && !Contains(ua, "Edge") && !Contains(ua, "Edg/")
    ensures browser == "Safari" ==> Contains(ua, "Safari/") && !Contains(ua, "Chrome")
  {
    var isEdge := Contains(ua, "Edge") || Contains(ua, "Edg/");
    if Contains(ua, "Chrome/") && !isEdge then "Chrome"
    else if Contains(ua, "Safari/") && !Contains(ua, "Chrome") then "Safari"
    else if Contains(ua, "Firefox/") then "Firefox"
    else if isEdge then "Edge"
    else if Contains(ua, "Opera") || Contains(ua, "OPR/") then "Opera"
    else "Unknown Browser"
  }

  // ------------------------------------------------------------ session rows

  /** A `user_sessions` row; `isCurrent` is absent on rows read from the table. */
  datatype UserSession = UserSession(id: string, userId: string, isActive: bool, lastActive: int, isCurrent: Option<bool>)

  /** The sessions list with its first (most recent) entry marked current. */
  function WithCurrentMarked(sessions: seq<UserSession>): seq<UserSession> {
    if sessions == [] then [] else [sessions[0].(isCurrent := Some(true))] + sessions[1..]
  }

  /** `sessions[0].is_current = true` on the fetched array. */
  method MarkCurrentSession(sessions: array<UserSession>)
    modifies sessions
    ensures sessions[..] == WithCurrentMarked(old(sessions[..]))
  {
    if sessions.Length > 0 {
      sessions[0] := sessions[0].(isCurrent := Some(true));
      assert sessions[..] == [sessions[0]] + old(sessions[..])[1..];
    }
  }

  /**
   * `getUserSessions`: an empty list without a user or when the query fails;
   * otherwise the fetched rows (most recent first) with the first marked current.
   */
  method GetUserSessions(authenticated: bool, fetched: Response<seq<UserSession>>) returns (result: seq<UserSession>)
    ensures !authenticated || fetched.Threw? ==> result == []
    ensures authenticated && fetched.Done? ==> result == WithCurrentMarked(fetched.value)
  {
    if !authenticated || fetched.Threw? {
      return [];
    }
    var a := new UserSession[|fetched.value|](i requires 0 <= i < |fetched.value| => fetched.value[i]);
    assert a[..] == fetched.value;
    MarkCurrentSession(a);
    result := a[..];
  }

  /** Only the first session is marked current; the others are as fetched. */
  lemma OnlyFirstIsCurrent(sessions: seq<UserSession>)
    requires forall i :: 0 <= i < |sessions| ==> sessions[i].isCurrent.None?
    ensures var r := WithCurrentMarked(sessions);
      |r| == |sessions|
      && (|r| > 0 ==> r[0].isCurrent == Some(true) && r[0].(isCurrent := None) == sessions[0])
      && (forall i :: 1 <= i < |r| ==> r[i] == sessions[i] && r[i].isCurrent.None?)
  {
  }

  /** The user's active sessions, most recent first (the order the query asks for). */
  function ActiveSessionsOf(rows: seq<UserSession>, user: string): seq<UserSession> {
    Ordering.SortBy(ActiveOf(rows, user), (s: UserSession) => -s.lastActive)
  }

  function ActiveOf(rows: seq<UserSession>, user: string): (r: seq<UserSession>)
    ensures forall s :: s in r <==> s in rows && s.userId == user && s.isActive
  {
    if rows == [] then []
    else (if rows[0].userId == user && rows[0].isActive then [rows[0]] else []) + ActiveOf(rows[1..], user)
  }

  function Ids(sessions: seq<UserSession>): (ids: seq<string>)
    ensures |ids| == |sessions| && forall i :: 0 <= i < |ids| ==> ids[i] == sessions[i].id
  {
    seq(|sessions|, i requires 0 <= i < |sessions| => sessions[i].id)
  }

  /** `update({ is_active: false }).eq('user_id', user).in('id', ids)` */
  function Deactivate(rows: seq<UserSession>, user: string, ids: seq<string>): (r: seq<UserSession>)
    ensures |r| == |rows|
    ensures forall i :: 0 <= i < |rows| ==>
      r[i] == if rows[i].userId == user && rows[i].id in ids then rows[i].(isActive := false) else rows[i]
  {
    seq(|rows|, i requires 0 <= i < |rows| =>
      if rows[i].userId == user && rows[i].id in ids then rows[i].(isActive := false) else rows[i])
  }

  class SessionTable {
    var rows: seq<UserSession>

    constructor (rows: seq<UserSession>)
      ensures this.rows == rows
    {
      this.rows := rows;
    }

    /**
     * `deleteAllOtherSessions`: every active session of the user except the
     * most recent one is deactivated. Nothing changes without a user, when
     * a query fails, or when there is at most one active session.
     */
    method DeleteAllOtherSessions(user: Option<string>, fetchFailed: bool, updateFailed: bool) returns (ok: bool)
      modifies this
      ensures user.None? || fetchFailed ==> !ok && rows == old(rows)
      ensures user.Some? && !fetchFailed && |ActiveSessionsOf(old(rows), user.value)| <= 1 ==> ok && rows == old(rows)
      ensures user.Some? && !fetchFailed && |ActiveSessionsOf(old(rows), user.value)| > 1 ==>
        ok == !updateFailed
        && rows == if updateFailed then old(rows) else Deactivate(old(rows), user.value, Ids(ActiveSessionsOf(old(rows), user.value)[1..]))
    {
      if user.None? || fetchFailed {
        return false;
      }
      var sessions := ActiveSessionsOf(rows, user.value);
      if |sessions| <= 1 {
        return true;
      }
      var idsToDelete := Ids(sessions[1..]);
      if updateFailed {
        return false;
      }
      rows := Deactivate(rows, user.value, idsToDelete);
      return true;
    }
  }

  /**
   * With distinct session ids, deactivating all but the most recent leaves
   * the most recent as the user's only active session, and other users'
   * rows untouched.
   */
  lemma OthersDeactivated(rows: seq<UserSession>, user: string)
    requires forall i, j :: 0 <= i < j < |rows| ==> rows[i].id != rows[j].id
    requires |ActiveSessionsOf(rows, user)| > 1
    ensures var sessions := ActiveSessionsOf(rows, user);
      var after := Deactivate(rows, user, Ids(sessions[1..]));
      (forall i :: 0 <= i < |rows| && rows[i].userId != user ==> after[i] == rows[i])
      && (forall i :: 0 <= i < |rows| && rows[i].userId == user && after[i].isActive ==> rows[i] == sessions[0])
      && (forall i :: 0 <= i < |rows| && rows[i] == sessions[0] ==> after[i].isActive)
  {
    OnlyNewestStaysActive(rows, user);
    NewestStaysActive(rows, user);
  }

  /** Every other session of the user that was active is among the deactivated ids. */
  lemma OnlyNewestStaysActive(rows: seq<UserSession>, user: string)
    requires |ActiveSessionsOf(rows, user)| > 1
    ensures var sessions := ActiveSessionsOf(rows, user);
      var after := Deactivate(rows, user, Ids(sessions[1..]));
      forall i :: 0 <= i < |rows| && rows[i].userId == user && after[i].isActive ==> rows[i] == sessions[0]
  {
    var sessions := ActiveSessionsOf(rows, user);
    var ids := Ids(sessions[1..]);
    var after := Deactivate(rows, user, ids);
    forall i | 0 <= i < |rows| && rows[i].userId == user && after[i].isActive
      ensures rows[i] == sessions[0]
    {
      assert rows[i].isActive && rows[i].id !in ids;
      Ordering.SortByMembers(ActiveOf(rows, user), (s: UserSession) => -s.lastActive, rows[i]);
      var k :| 0 <= k < |sessions| && sessions[k] == rows[i];
    }
  }

  /** With distinct ids, the most recent session's id is not among the deactivated ones. */
  lemma NewestStaysActive(rows: seq<UserSession>, user: string)
    requires forall i, j :: 0 <= i < j < |rows| ==> rows[i].id != rows[j].id
    requires |ActiveSessionsOf(rows, user)| > 1
    ensures var sessions := ActiveSessionsOf(rows, user);
      var after := Deactivate(rows, user, Ids(sessions[1..]));
      forall i :: 0 <= i < |rows| && rows[i] == sessions[0] ==> after[i].isActive
  {
    var sessions := ActiveSessionsOf(rows, user);
    var ids := Ids(sessions[1..]);
    var after := Deactivate(rows, user, ids);
    Ordering.SortByMembers(ActiveOf(rows, user), (s: UserSession) => -s.lastActive, sessions[0]);
    forall i | 0 <= i < |rows| && rows[i] == sessions[0]
      ensures after[i].isActive
    {
      if rows[i].id in ids {
        var k :| 0 <= k < |ids| && ids[k] == rows[i].id;
        var s := sessions[k + 1];
        Ordering.SortByMembers(ActiveOf(rows, user), (s: UserSession) => -s.lastActive, s);
        var j :| 0 <= j < |rows| && rows[j] == s;
        assert rows[j].id == rows[i].id;
        assert j == i;
        SortedDistinct(rows, user);
        assert false;
      }
    }
  }

  /** Distinct ids make the sorted active list free of repeats. */
  lemma SortedDistinct(rows: seq<UserSession>, user: string)
    requires forall i, j :: 0 <= i < j < |rows| ==> rows[i].id != rows[j].id
    ensures var s := ActiveSessionsOf(rows, user); forall a, b :: 0 <= a < b < |s| ==> s[a] != s[b]
  {
    var s := ActiveSessionsOf(rows, user);
    Ordering.SortBySorted(ActiveOf(rows, user), (x: UserSession) => -x.lastActive);
    ActiveOfWithin(rows, user);
    DistinctIdsOccurOnce(rows);
    forall a, b | 0 <= a < b < |s|
      ensures s[a] != s[b]
    {
      if s[a] == s[b] {
        RepeatCountsTwice(s, a, b);
      }
    }
  }

  lemma {:induction false} ActiveOfWithin(rows: seq<UserSession>, user: string)
    ensures multiset(ActiveOf(rows, user)) <= multiset(rows)
    decreases |rows|
  {
    if rows != [] {
      ActiveOfWithin(rows[1..], user);
      assert rows == [rows[0]] + rows[1..];
    }
  }

  lemma {:induction false} DistinctIdsOccurOnce(rows: seq<UserSession>)
    requires forall i, j :: 0 <= i < j < |rows| ==> rows[i].id != rows[j].id
    ensures forall x :: multiset(rows)[x] <= 1
    decreases |rows|
  {
    if rows != [] {
      DistinctIdsOccurOnce(rows[1..]);
      assert rows == [rows[0]] + rows[1..];
      assert rows[0] !in rows[1..];
    }
  }

  lemma RepeatCountsTwice(s: seq<UserSession>, a: nat, b: nat)
    requires a < b < |s| && s[a] == s[b]
    ensures multiset(s)[s[a]] >= 2
  {
    assert s == s[..b] + [s[b]] + s[b + 1..];
    assert s[..b][a] == s[a];
    assert s[a] in multiset(s[..b]);
  }
}
