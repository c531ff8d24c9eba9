/**
 * Input sanitising (src/lib/utils/security.ts): HTML escaping, removal of
 * script-like patterns, identifier filtering, e-mail validation and the
 * redaction of error messages. Regular expressions are written out as the
 * left-to-right scans JavaScript performs for them.
 */
module Security {
  import opened Wrappers
  import opened Strings

  // ---------------------------------------------------------------- escapeHtml

  /** The characters the escaping pattern `[&<>"']` matches (`/` is in the entity map but not in the pattern). */
  predicate IsHtmlSpecial(c: char) {
    c == '&' || c == '<' || c == '>' || c == '"' || c == '\''
  }

  /** The replacement of one character. */
  function Entity(c: char): string {
    if c == '&' then "&amp;"
    else if c == '<' then "&lt;"
    else if c == '>' then "&gt;"
    else if c == '"' then "&quot;"
    else if c == '\'' then "&#x27;"
    else [c]
  }

  /** `replace(/[&<>"']/g, ...)`: each character replaced by its entity. */
  function Escape(s: string): string {
    if s == [] then [] else Entity(s[0]) + Escape(s[1..])
  }

  /** `escapeHtml`: the empty string for null, undefined or ''. */
  function EscapeHtml(str: Option<string>): (r: string)
    ensures str.None? || str.value == "" ==> r == ""
    ensures str.Some? ==> '<' !in r && '>' !in r && '"' !in r && '\'' !in r
    ensures str.Some? && (forall i :: 0 <= i < |str.value| ==> !IsHtmlSpecial(str.value[i])) ==> r == str.value
  {
    if str.None? || str.value == "" then ""
    else
      EscapeRemovesMarkup(str.value);
      EscapeKeepsPlainText(str.value);
      Escape(str.value)
  }

  /** No escaped text contains `<`, `>`, `"` or `'`. */
  lemma {:induction false} EscapeRemovesMarkup(s: string)
    ensures '<' !in Escape(s) && '>' !in Escape(s) && '"' !in Escape(s) && '\'' !in Escape(s)
    decreases |s|
  {
    if s != [] {
      EscapeRemovesMarkup(s[1..]);
      var e := Entity(s[0]);
      assert '<' !in e && '>' !in e && '"' !in e && '\'' !in e;
    }
  }

  /** Text without the five special characters (for example `/`) is left as it is. */
  lemma {:induction false} EscapeKeepsPlainText(s: string)
    ensures (forall i :: 0 <= i < |s| ==> !IsHtmlSpecial(s[i])) ==> Escape(s) == s
    decreases |s|
  {
    if s != [] && forall i :: 0 <= i < |s| ==> !IsHtmlSpecial(s[i]) {
      EscapeKeepsPlainText(s[1..]);
      assert s == [s[0]] + s[1..];
    }
  }

  /** Decoding of the five entities: the inverse of `Escape`. */
  function Unescape(t: string): string
    decreases |t|
  {
    if t == [] then []
    else if StartsWith(t, "&amp;") then "&" + Unescape(t[5..])
    else if StartsWith(t, "&lt;") then "<" + Unescape(t[4..])
    else if StartsWith(t, "&gt;") then ">" + Unescape(t[4..])
    else if StartsWith(t, "&quot;") then "\"" + Unescape(t[6..])
    else if StartsWith(t, "&#x27;") then "'" + Unescape(t[6..])
    else [t[0]] + Unescape(t[1..])
  }

  lemma UnescapeEntity(c: char, rest: string)
    ensures Unescape(Entity(c) + rest) == [c] + Unescape(rest)
  {
    var t := Entity(c) + rest;
    if c == '&' {
      assert t[..5] == "&amp;" && t[5..] == rest;
    } else if c == '<' {
      assert !StartsWith(t, "&amp;") by { assert t[1] == 'l'; }
      assert t[..4] == "&lt;" && t[4..] == rest;
    } else if c == '>' {
      assert !StartsWith(t, "&amp;") && !StartsWith(t, "&lt;") by { assert t[1] == 'g'; }
      assert t[..4] == "&gt;" && t[4..] == rest;
    } else if c == '"' {
      assert !StartsWith(t, "&amp;") && !StartsWith(t, "&lt;") && !StartsWith(t, "&gt;") by { assert t[1] == 'q'; }
      assert t[..6] == "&quot;" && t[6..] == rest;
    } else if c == '\'' {
      assert !StartsWith(t, "&amp;") && !StartsWith(t, "&lt;") && !StartsWith(t, "&gt;") && !StartsWith(t, "&quot;")
        by { assert t[1] == '#'; }
      assert t[..6] == "&#x27;" && t[6..] == rest;
    } else {
      assert t[0] == c && t[1..] == rest;
      assert !StartsWith(t, "&amp;") && !StartsWith(t, "&lt;") && !StartsWith(t, "&gt;") && !StartsWith(t, "&quot;")
        && !StartsWith(t, "&#x27;");
    }
  }

  /** Escaping loses nothing: decoding the entities gives the original text back. */
  lemma {:induction false} EscapeRoundTrip(s: string)
    ensures Unescape(Escape(s)) == s
    decreases |s|
  {
    if s != [] {
      EscapeRoundTrip(s[1..]);
      UnescapeEntity(s[0], Escape(s[1..]));
      assert s == [s[0]] + s[1..];
    }
  }

  // -------------------------------------------------------------- sanitizeText

  const DefaultMaxLength := 500

  /** ASCII lower-casing: the case folding of a `/i` pattern over ASCII letters. */
  function Lower(c: char): char {
    if 'A' <= c <= 'Z' then (c as int + 32) as char else c
  }

  /** `s` starts with the lower-case pattern `pat`, ignoring case. */
  predicate StartsWithIgnoringCase(s: string, pat: string) {
    |pat| <= |s| && forall i :: 0 <= i < |pat| ==> Lower(s[i]) == pat[i]
  }

  /** `s.replace(/pat/gi, '')` for a literal lower-case pattern. */
  function RemoveIgnoringCase(s: string, pat: string): (r: string)
    requires |pat| > 0
    ensures |r| <= |s|
    ensures forall c :: c in r ==> c in s
    decreases |s|
  {
    if s == [] then []
    else if StartsWithIgnoringCase(s, pat) then RemoveIgnoringCase(s[|pat|..], pat)
    else [s[0]] + RemoveIgnoringCase(s[1..], pat)
  }

  /** `\w` without the Unicode flag. */
  predicate IsWordChar(c: char) {
    'a' <= c <= 'z' || 'A' <= c <= 'Z' || '0' <= c <= '9' || c == '_'
  }

  /** The length of the leading run of word characters. */
  function WordRun(s: string): (n: nat)
    ensures n <= |s|
    ensures forall i :: 0 <= i < n ==> IsWordChar(s[i])
    ensures n == |s| || !IsWordChar(s[n])
  {
    if s != [] && IsWordChar(s[0]) then 1 + WordRun(s[1..]) else 0
  }

  /**
   * The length of a match of `/on\w+=/i` at the start of `s`. The greedy run
   * can only be followed by `=` at its end, so backtracking finds nothing else.
   */
  function HandlerMatch(s: string): (n: Option<nat>)
    ensures n.Some? ==> 4 <= n.value <= |s|
  {
    if |s| >= 4 && Lower(s[0]) == 'o' && Lower(s[1]) == 'n' then
      var w := WordRun(s[2..]);
      if w >= 1 && 2 + w < |s| && s[2 + w] == '=' then Some(3 + w) else None
    else None
  }

  /** `s.replace(/on\w+=/gi, '')` */
  function RemoveHandlers(s: string): (r: string)
    ensures |r| <= |s|
    ensures forall c :: c in r ==> c in s
    decreases |s|
  {
    if s == [] then []
    else match HandlerMatch(s)
      case Some(n) => RemoveHandlers(s[n..])
      case None => [s[0]] + RemoveHandlers(s[1..])
  }

  /** The escaped text with the four dangerous patterns removed and trimmed. */
  function Cleaned(s: string): (r: string)
    ensures '<' !in r && '>' !in r && '"' !in r && '\'' !in r
  {
    EscapeRemovesMarkup(s);
    var e := Escape(s);
    Trim(RemoveIgnoringCase(RemoveIgnoringCase(RemoveHandlers(RemoveIgnoringCase(e, "javascript:")), "data:"), "vbscript:"))
  }

  /**
   * `sanitizeText`: at most `maxLength` characters when not truncated, and
   * otherwise the first `maxLength` characters followed by `...`.
   */
  function SanitizeText(str: Option<string>, maxLength: nat): (r: string)
    ensures str.None? || str.value == "" ==> r == ""
    ensures '<' !in r && '>' !in r && '"' !in r && '\'' !in r
    ensures |r| <= maxLength || (EndsWith(r, "...") && |r| == maxLength + 3)
  {
    if str.None? || str.value == "" then ""
    else
      var t := Cleaned(str.value);
      if |t| > maxLength then
        assert forall c :: c in t[..maxLength] ==> c in t;
        t[..maxLength] + "..."
      else t
  }

  // ---------------------------------------------------------------- sanitizeId

  predicate IsIdChar(c: char) {
    'a' <= c <= 'z' || 'A' <= c <= 'Z' || '0' <= c <= '9' || c == '-' || c == '_'
  }

  /** `replace(/[^a-zA-Z0-9\-_]/g, '')`: the text is kept exactly when it is already clean. */
  function KeepIdChars(s: string): (r: string)
    ensures |r| <= |s|
    ensures forall i :: 0 <= i < |r| ==> IsIdChar(r[i])
    ensures r == s <==> forall i :: 0 <= i < |s| ==> IsIdChar(s[i])
    decreases |s|
  {
    if s == [] then []
    else
      var rest := KeepIdChars(s[1..]);
      assert s == [s[0]] + s[1..];
      (if IsIdChar(s[0]) then [s[0]] else []) + rest
  }

  /**
   * The filter works character by character: filtering a concatenation is
   * filtering each part, so with the one-character case (`[c]` is kept iff
   * it is allowed) every allowed character is kept, in order.
   */
  lemma {:induction false} KeepIdCharsAppend(a: string, b: string)
    ensures KeepIdChars(a + b) == KeepIdChars(a) + KeepIdChars(b)
    decreases |a|
  {
    if a == [] {
      assert a + b == b;
    } else {
      assert (a + b)[0] == a[0] && (a + b)[1..] == a[1..] + b;
      KeepIdCharsAppend(a[1..], b);
    }
  }

  const MaxIdLength := 100

  /**
   * `sanitizeId`: identifier characters only, at most 100 of them: the
   * first 100 characters of the filtered text, so a clean identifier of at
   * most 100 characters is returned as it is.
   */
  function SanitizeId(id: Option<string>): (r: string)
    ensures |r| <= MaxIdLength
    ensures forall i :: 0 <= i < |r| ==> IsIdChar(r[i])
    ensures id.Some? ==> r <= KeepIdChars(id.value)
                         && |r| == if |KeepIdChars(id.value)| <= MaxIdLength then |KeepIdChars(id.value)| else MaxIdLength
    ensures id.Some? && |id.value| <= MaxIdLength && (forall i :: 0 <= i < |id.value| ==> IsIdChar(id.value[i]))
            ==> r == id.value
  {
    if id.None? || id.value == "" then ""
    else
      var kept := KeepIdChars(id.value);
      if |kept| <= MaxIdLength then kept else kept[..MaxIdLength]
  }

  lemma {:induction false} KeepIdCharsOfIdIsIdentity(s: string)
    requires forall i :: 0 <= i < |s| ==> IsIdChar(s[i])
    ensures KeepIdChars(s) == s
    decreases |s|
  {
    if s != [] {
      KeepIdCharsOfIdIsIdentity(s[1..]);
      assert s == [s[0]] + s[1..];
    }
  }

  /** Sanitising an identifier twice gives what sanitising it once does. */
  lemma SanitizeIdIdempotent(id: Option<string>)
    ensures SanitizeId(Some(SanitizeId(id))) == SanitizeId(id)
  {
    KeepIdCharsOfIdIsIdentity(SanitizeId(id));
  }

  // -------------------------------------------------------------- isValidEmail

  /** `[^\s@]` */
  predicate IsEmailChar(c: char) {
    !IsJsSpace(c) && c != '@'
  }

  predicate AllEmailChars(s: string) {
    forall i :: 0 <= i < |s| ==> IsEmailChar(s[i])
  }

  /** `^[^\s@]+@[^\s@]+\.[^\s@]+$`: three non-empty runs separated by `@` and `.`. */
  ghost predicate MatchesEmailPattern(t: string) {
    exists at, dot :: 0 < at && at + 1 < dot && dot + 1 < |t| && t[at] == '@' && t[dot] == '.'
      && AllEmailChars(t[..at]) && AllEmailChars(t[at + 1..dot]) && AllEmailChars(t[dot + 1..])
  }

  /** The index of the first occurrence of `c`. */
  function IndexOf(s: string, c: char): (r: Option<nat>)
    ensures r.Some? ==> r.value < |s| && s[r.value] == c && c !in s[..r.value]
    ensures r.None? ==> c !in s
  {
    if s == [] then None
    else if s[0] == c then Some(0)
    else match IndexOf(s[1..], c)
      case None => None
      case Some(i) => assert s[..i + 1] == [s[0]] + s[1..][..i]; Some(i + 1)
  }

  /** The check as a split at the first `@`: a local part, and a domain with an inner dot. */
  predicate EmailShape(t: string) {
    match IndexOf(t, '@')
    case None => false
    case Some(at) =>
      var domain := t[at + 1..];
      at > 0 && AllEmailChars(t[..at]) && AllEmailChars(domain) && |domain| >= 3 && '.' in domain[1..|domain| - 1]
  }

  lemma EmailShapeGivesPattern(t: string)
    requires EmailShape(t)
    ensures MatchesEmailPattern(t)
  {
    var at := IndexOf(t, '@').value;
    var domain := t[at + 1..];
    var j :| 0 <= j < |domain[1..|domain| - 1]| && domain[1..|domain| - 1][j] == '.';
    var dot := at + 2 + j;
    assert t[dot] == '.';
    assert t[at + 1..dot] == domain[..j + 1];
    assert t[dot + 1..] == domain[j + 2..];
    assert AllEmailChars(t[at + 1..dot]);
    assert AllEmailChars(t[dot + 1..]);
  }

  lemma PatternGivesEmailShape(t: string, at: nat, dot: nat)
    requires 0 < at && at + 1 < dot && dot + 1 < |t| && t[at] == '@' && t[dot] == '.'
    requires AllEmailChars(t[..at]) && AllEmailChars(t[at + 1..dot]) && AllEmailChars(t[dot + 1..])
    ensures EmailShape(t)
  {
    var first := IndexOf(t, '@');
    assert first.Some?;
    assert first.value == at;
    var domain := t[at + 1..];
    forall i | 0 <= i < |domain|
      ensures IsEmailChar(domain[i])
    {
      if at + 1 + i < dot {
        assert domain[i] == t[at + 1..dot][i];
      } else if at + 1 + i > dot {
        assert domain[i] == t[dot + 1..][at + i - dot];
      }
    }
    assert domain[1..|domain| - 1][dot - at - 2] == '.';
  }

  /** The split at the first `@` decides the same strings as the pattern. */
  lemma EmailShapeMatchesPattern(t: string)
    ensures EmailShape(t) <==> MatchesEmailPattern(t)
  {
    if EmailShape(t) {
      EmailShapeGivesPattern(t);
    }
    if MatchesEmailPattern(t) {
      var at, dot :| 0 < at && at + 1 < dot && dot + 1 < |t| && t[at] == '@' && t[dot] == '.'
        && AllEmailChars(t[..at]) && AllEmailChars(t[at + 1..dot]) && AllEmailChars(t[dot + 1..]);
      PatternGivesEmailShape(t, at, dot);
    }
  }

  /** `isValidEmail`: the trimmed input matches the e-mail pattern. */
  function IsValidEmail(email: Option<string>): (ok: bool)
    ensures ok <==> email.Some? && MatchesEmailPattern(Trim(email.value))
  {
    if email.None? then false
    else
      EmailShapeMatchesPattern(Trim(email.value));
      email.value != "" && EmailShape(Trim(email.value))
  }

  // ------------------------------------------------------- sanitizeErrorMessage

  /** The thrown value: a falsy value, a string, an object with optional string `message`/`msg`, or anything else. */
  datatype ErrorValue = Falsy | Text(text: string) | ErrorObject(message: Option<string>, msg: Option<string>) | OtherValue

  const GenericError := "An unexpected error occurred"

  /**
   * The text `sanitizeErrorMessage` extracts before redaction: a string is
   * taken as it is; an object gives its string `message`, failing that its
   * string `msg`, failing that the generic text; anything else gives the
   * generic text.
   */
  function ExtractedMessage(error: ErrorValue): (m: string)
    ensures error.Text? ==> m == error.text
    ensures error.ErrorObject? && error.message.Some? ==> m == error.message.value
    ensures error.ErrorObject? && error.message.None? && error.msg.Some? ==> m == error.msg.value
    ensures error.Falsy? || error.OtherValue? || error == ErrorObject(None, None) ==> m == GenericError
  {
    match error
    case Text(s) => s
    case ErrorObject(message, msg) =>
      if message.Some? then message.value else if msg.Some? then msg.value else GenericError
    case _ => GenericError
  }

  /** The two fixed texts `sanitizeErrorMessage` can return hold no markup character. */
  lemma FixedErrorTextsAreSafe()
    ensures forall c :: c in "An error occurred" ==> !IsHtmlSpecial(c)
    ensures forall c :: c in GenericError ==> !IsHtmlSpecial(c)
  {
  }

  /**
   * `sanitizeErrorMessage`: a fixed text for a falsy value, the generic text
   * when the message looks like a stack trace, and otherwise the message
   * sanitised to at most 200 characters (plus `...`).
   */
  function SanitizeErrorMessage(error: ErrorValue): (r: string)
    ensures error.Falsy? || error == Text("") ==> r == "An error occurred"
    ensures !(error.Falsy? || error == Text("")) && (Contains(ExtractedMessage(error), "stack") || Contains(ExtractedMessage(error), "at ")) ==> r == GenericError
    ensures !(error.Falsy? || error == Text("")) && !Contains(ExtractedMessage(error), "stack") && !Contains(ExtractedMessage(error), "at ")
            ==> r == SanitizeText(Some(ExtractedMessage(error)), ErrorMessageLength)
    ensures |r| <= ErrorMessageLength + 3
    ensures '<' !in r && '>' !in r && '"' !in r && '\'' !in r
  {
    FixedErrorTextsAreSafe();
    if error.Falsy? || error == Text("") then "An error occurred"
    else
      var message := ExtractedMessage(error);
      if Contains(message, "stack") || Contains(message, "at ") then GenericError
      else SanitizeText(Some(message), ErrorMessageLength)
  }

  const ErrorMessageLength := 200

  /** A character the cleaning passes never touch: no markup, no `:` ending a scheme, no `=` ending a handler. */
  predicate IsPlainChar(c: char) {
    !IsHtmlSpecial(c) && c != ':' && c != '='
  }

  /**
   * An ordinary error text, short, free of markup, schemes, handlers and
   * stack-trace hints and without surrounding white space, is shown exactly
   * as the backend wrote it.
   */
  lemma {:induction false} PlainMessageKept(m: string)
    requires m != "" && |m| <= ErrorMessageLength
    requires forall i :: 0 <= i < |m| ==> IsPlainChar(m[i])
    requires !IsJsSpace(m[0]) && !IsJsSpace(m[|m| - 1])
    requires !Contains(m, "stack") && !Contains(m, "at ")
    ensures SanitizeErrorMessage(Text(m)) == m
    ensures SanitizeErrorMessage(ErrorObject(Some(m), None)) == m
  {
    PlainTextKept(m, ErrorMessageLength);
    UnchangedMessageShown(m);
  }

  /** A message that sanitising leaves unchanged is shown as it is, whether thrown as a string or as `message`. */
  lemma UnchangedMessageShown(m: string)
    requires m != "" && SanitizeText(Some(m), ErrorMessageLength) == m
    requires !Contains(m, "stack") && !Contains(m, "at ")
    ensures SanitizeErrorMessage(Text(m)) == m
    ensures SanitizeErrorMessage(ErrorObject(Some(m), None)) == m
  {
    var asText, asObject := Text(m), ErrorObject(Some(m), None);
    assert ExtractedMessage(asText) == m && asText != Text("");
    assert ExtractedMessage(asObject) == m;
  }

  /** `sanitizeText` returns plain text within the limit unchanged. */
  lemma PlainTextKept(m: string, maxLength: nat)
    requires m != "" && |m| <= maxLength
    requires forall i :: 0 <= i < |m| ==> IsPlainChar(m[i])
    requires !IsJsSpace(m[0]) && !IsJsSpace(m[|m| - 1])
    ensures SanitizeText(Some(m), maxLength) == m
  {
    PlainTextCleaned(m);
  }

  /** Cleaning leaves plain text without surrounding white space unchanged. */
  lemma PlainTextCleaned(m: string)
    requires m != ""
    requires forall i :: 0 <= i < |m| ==> IsPlainChar(m[i])
    requires !IsJsSpace(m[0]) && !IsJsSpace(m[|m| - 1])
    ensures Cleaned(m) == m
  {
    EscapeKeepsPlainText(m);
    RemoveAbsentPattern(m, "javascript:");
    RemoveHandlersWithoutEquals(m);
    RemoveAbsentPattern(m, "data:");
    RemoveAbsentPattern(m, "vbscript:");
    TrimKeepsTrimmed(m);
  }

  /** A pattern whose last character is `:` is never found in text without a `:`. */
  lemma {:induction false} RemoveAbsentPattern(s: string, pat: string)
    requires |pat| > 0 && pat[|pat| - 1] == ':'
    requires forall i :: 0 <= i < |s| ==> s[i] != ':'
    ensures RemoveIgnoringCase(s, pat) == s
    decreases |s|
  {
    if s != [] {
      if |pat| <= |s| {
        assert Lower(s[|pat| - 1]) != pat[|pat| - 1];
      }
      RemoveAbsentPattern(s[1..], pat);
      assert s == [s[0]] + s[1..];
    }
  }

  /** Without an `=` there is no `on...=` attribute to remove. */
  lemma {:induction false} RemoveHandlersWithoutEquals(s: string)
    requires forall i :: 0 <= i < |s| ==> s[i] != '='
    ensures RemoveHandlers(s) == s
    decreases |s|
  {
    if s != [] {
      assert HandlerMatch(s).None?;
      RemoveHandlersWithoutEquals(s[1..]);
      assert s == [s[0]] + s[1..];
    }
  }
}
