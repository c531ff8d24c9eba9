/**
 * The user-facing error classifier (`formatError`, `getErrorMessage`,
 * `getErrorTitle` in src/lib/utils.ts). The thrown value is reduced to the
 * text and code the classifier reads; substring tests are case-sensitive.
 */
module ErrorFormat {
  import opened Wrappers
  import opened Strings

  /**
   * A thrown value: falsy, or a value with its `message` (empty when absent),
   * its `toString()` text, and its `code` (empty when absent).
   */
  datatype ErrorInput = Falsy | Value(message: string, asString: string, code: string)

  datatype FormattedError = FormattedError(title: string, message: string, code: string, action: Option<string>)

  const DefaultMessage := "An unexpected error occurred. Please try again."

  const UnknownError := FormattedError("Unknown Error", DefaultMessage, "UNKNOWN", None)
  const PermissionDenied := FormattedError("Permission Denied",
    "You do not have permission to perform this action. Contact an administrator if you believe this is an error.",
    "PERMISSION_DENIED", Some("Check your user role and permissions"))
  const AuthFailed := FormattedError("Authentication Failed",
    "Your session has expired or is invalid. Please log in again.", "AUTH_ERROR", Some("Sign in again"))
  const DuplicateEntry := FormattedError("Duplicate Entry",
    "This entry already exists. Please use a different value or update the existing entry.", "DUPLICATE_ERROR", None)
  const ReferenceMissing := FormattedError("Referenced Record Missing",
    "The referenced record does not exist or has been deleted. Please select a valid option.", "FK_ERROR", None)
  const InvalidValue := FormattedError("Invalid Value",
    "The value provided does not meet the requirements. Please check your input.", "CHECK_ERROR", None)
  const NetworkError := FormattedError("Network Error",
    "Unable to connect to the server. Check your internet connection and try again.", "NETWORK_ERROR",
    Some("Check your connection"))
  const InvalidInput := FormattedError("Invalid Input",
    "The information provided is invalid. Please check your input and try again.", "VALIDATION_ERROR", None)
  const CameraError := FormattedError("Camera Error",
    "Camera is not available or has been disconnected. Check your device and permissions.", "DEVICE_ERROR",
    Some("Grant camera permissions or try a different device"))
  const PermissionRequired := FormattedError("Permission Required",
    "Camera or device access was denied. Enable these permissions in your browser settings.", "DEVICE_PERMISSION",
    Some("Allow camera access in settings"))
  const StorageError := FormattedError("Storage Error",
    "Unable to access the file storage. Please try again.", "STORAGE_ERROR", None)
  const FileTooLarge := FormattedError("File Too Large",
    "The file size exceeds the 5MB limit. Please choose a smaller file.", "FILE_SIZE_ERROR", None)
  const ServerError := FormattedError("Server Error",
    "The server encountered an error. Please try again in a few moments.", "SERVER_ERROR", Some("Try again later"))
  const NotFound := FormattedError("Not Found",
    "The requested resource does not exist. It may have been deleted.", "NOT_FOUND", None)

  /** `error.message || error.toString?.() || ''` */
  function ErrorText(message: string, asString: string): string {
    if message != "" then message else asString
  }

  /** The text of the fallback result: the error text, or the default text when it is empty. */
  function Fallback(str: string, code: string): FormattedError {
    FormattedError("Error Occurred", if str != "" then str else DefaultMessage, if code != "" then code else "UNKNOWN", None)
  }

  /** `formatError`, as the cascade of tests the source runs. */
  function FormatError(error: ErrorInput): FormattedError {
    match error
    case Falsy => UnknownError
    case Value(message, asString, code) =>
      var s := ErrorText(message, asString);
      if Contains(s, "permission denied") || Contains(s, "new row violates row-level security policy") || code == "PGRST301" then
        PermissionDenied
      else if Contains(s, "unauthorized") || Contains(s, "invalid credential") || Contains(s, "session")
              || code == "PGRST301" || code == "AUTH" then
        AuthFailed
      else if Contains(s, "duplicate key") || Contains(s, "violates unique constraint") || Contains(s, "already exists") then
        DuplicateEntry
      else if Contains(s, "foreign key constraint") || Contains(s, "violates foreign key constraint") then
        ReferenceMissing
      else if Contains(s, "violates check constraint") || Contains(s, "new row for relation") then
        InvalidValue
      else if Contains(s, "network") || Contains(s, "fetch") || Contains(s, "disconnected") || Contains(s, "timeout") then
        NetworkError
      else if Contains(s, "invalid") || Contains(s, "must be") || Contains(s, "required") || Contains(s, "invalid_param") then
        InvalidInput
      else if Contains(s, "camera") || Contains(s, "device not found") || Contains(s, "NotFoundError") then
        CameraError
      else if Contains(s, "NotAllowedError") || Contains(s, "permission") || Contains(s, "denied") then
        PermissionRequired
      else if Contains(s, "storage") || Contains(s, "bucket") || Contains(s, "object not found") then
        StorageError
      else if Contains(s, "file size") || Contains(s, "too large") || Contains(s, "5MB") then
        FileTooLarge
      else if Contains(s, "internal server error") || Contains(s, "500") || StartsWith(code, "500") then
        ServerError
      else if Contains(s, "not found") || Contains(s, "404") || Contains(code, "notfound") then
        NotFound
      else
        Fallback(s, code)
  }

  // ------------------------------------------------------------------ the table

  /** One test of a rule, on the error text or on the code. */
  datatype Test = TextHas(sub: string) | CodeIs(value: string) | CodeStartsWith(prefix: string) | CodeHas(part: string)

  predicate Passes(t: Test, text: string, code: string) {
    match t
    case TextHas(sub) => Contains(text, sub)
    case CodeIs(value) => code == value
    case CodeStartsWith(prefix) => StartsWith(code, prefix)
    case CodeHas(part) => Contains(code, part)
  }

  /** Some test of the list passes. */
  predicate AnyPasses(tests: seq<Test>, text: string, code: string) {
    tests != [] && (Passes(tests[0], text, code) || AnyPasses(tests[1..], text, code))
  }

  /** A rule: the result, when any of its tests passes. */
  datatype Rule = Rule(tests: seq<Test>, outcome: FormattedError)

  /** The rules in the order they are tried. */
  const Rules: seq<Rule> := [
    Rule([TextHas("permission denied"), TextHas("new row violates row-level security policy"), CodeIs("PGRST301")], PermissionDenied),
    Rule([TextHas("unauthorized"), TextHas("invalid credential"), TextHas("session"), CodeIs("PGRST301"), CodeIs("AUTH")], AuthFailed),
    Rule([TextHas("duplicate key"), TextHas("violates unique constraint"), TextHas("already exists")], DuplicateEntry),
    Rule([TextHas("foreign key constraint"), TextHas("violates foreign key constraint")], ReferenceMissing),
    Rule([TextHas("violates check constraint"), TextHas("new row for relation")], InvalidValue),
    Rule([TextHas("network"), TextHas("fetch"), TextHas("disconnected"), TextHas("timeout")], NetworkError),
    Rule([TextHas("invalid"), TextHas("must be"), TextHas("required"), TextHas("invalid_param")], InvalidInput),
    Rule([TextHas("camera"), TextHas("device not found"), TextHas("NotFoundError")], CameraError),
    Rule([TextHas("NotAllowedError"), TextHas("permission"), TextHas("denied")], PermissionRequired),
    Rule([TextHas("storage"), TextHas("bucket"), TextHas("object not found")], StorageError),
    Rule([TextHas("file size"), TextHas("too large"), TextHas("5MB")], FileTooLarge),
    Rule([TextHas("internal server error"), TextHas("500"), CodeStartsWith("500")], ServerError),
    Rule([TextHas("not found"), TextHas("404"), CodeHas("notfound")], NotFound)
  ]

  /** The outcome of the first rule from index `k` on with a passing test, if any. */
  function FirstMatch(rules: seq<Rule>, k: nat, text: string, code: string): Option<FormattedError>
    decreases |rules| - k
  {
    if k >= |rules| then None
    else if AnyPasses(rules[k].tests, text, code) then Some(rules[k].outcome)
    else FirstMatch(rules, k + 1, text, code)
  }

  /** The classification as a table: the first firing rule decides, the fallback applies when none fires. */
  function Classify(error: ErrorInput): FormattedError {
    match error
    case Falsy => UnknownError
    case Value(message, asString, code) =>
      var text := ErrorText(message, asString);
      match FirstMatch(Rules, 0, text, code)
      case Some(outcome) => outcome
      case None => Fallback(text, code)
  }

  lemma AnyPassesFrom(tests: seq<Test>, i: nat, text: string, code: string)
    requires i < |tests|
    ensures AnyPasses(tests[i..], text, code) == (Passes(tests[i], text, code) || AnyPasses(tests[i + 1..], text, code))
  {
    assert tests[i..][0] == tests[i];
    assert tests[i..][1..] == tests[i + 1..];
  }

  /** A list of at most five tests passes exactly when one of its entries does. */
  lemma AnyPassesUpToFive(tests: seq<Test>, text: string, code: string)
    requires |tests| <= 5
    ensures AnyPasses(tests, text, code) <==>
      (|tests| > 0 && Passes(tests[0], text, code)) || (|tests| > 1 && Passes(tests[1], text, code))
      || (|tests| > 2 && Passes(tests[2], text, code)) || (|tests| > 3 && Passes(tests[3], text, code))
      || (|tests| > 4 && Passes(tests[4], text, code))
  {
    assert tests[0..] == tests;
    assert tests[|tests|..] == [];
    var i := |tests|;
    while i > 0
      invariant 0 <= i <= |tests|
      invariant AnyPasses(tests[i..], text, code) <==> exists m :: i <= m < |tests| && Passes(tests[m], text, code)
    {
      AnyPassesFrom(tests, i - 1, text, code);
      i := i - 1;
    }
  }

  /** The tests of the permission and authentication rules, spelled out. */
  lemma AccessRuleTests(text: string, code: string)
    ensures AnyPasses(Rules[0].tests, text, code) <==> Contains(text, "permission denied") || Contains(text, "new row violates row-level security policy") || code == "PGRST301"
    ensures AnyPasses(Rules[1].tests, text, code) <==> Contains(text, "unauthorized") || Contains(text, "invalid credential") || Contains(text, "session") || code == "PGRST301" || code == "AUTH"
  {
    AnyPassesUpToFive(Rules[0].tests, text, code);
    AnyPassesUpToFive(Rules[1].tests, text, code);
  }

  /** The tests of the database constraint rules, spelled out. */
  lemma ConstraintRuleTests(text: string, code: string)
    ensures AnyPasses(Rules[2].tests, text, code) <==> Contains(text, "duplicate key") || Contains(text, "violates unique constraint") || Contains(text, "already exists")
    ensures AnyPasses(Rules[3].tests, text, code) <==> Contains(text, "foreign key constraint") || Contains(text, "violates foreign key constraint")
    ensures AnyPasses(Rules[4].tests, text, code) <==> Contains(text, "violates check constraint") || Contains(text, "new row for relation")
  {
    AnyPassesUpToFive(Rules[2].tests, text, code);
    AnyPassesUpToFive(Rules[3].tests, text, code);
    AnyPassesUpToFive(Rules[4].tests, text, code);
  }

  /** The tests of the network, validation and device rules, spelled out. */
  lemma ClientRuleTests(text: string, code: string)
    ensures AnyPasses(Rules[5].tests, text, code) <==> Contains(text, "network") || Contains(text, "fetch") || Contains(text, "disconnected") || Contains(text, "timeout")
    ensures AnyPasses(Rules[6].tests, text, code) <==> Contains(text, "invalid") || Contains(text, "must be") || Contains(text, "required") || Contains(text, "invalid_param")
    ensures AnyPasses(Rules[7].tests, text, code) <==> Contains(text, "camera") || Contains(text, "device not found") || Contains(text, "NotFoundError")
    ensures AnyPasses(Rules[8].tests, text, code) <==> Contains(text, "NotAllowedError") || Contains(text, "permission") || Contains(text, "denied")
  {
    AnyPassesUpToFive(Rules[5].tests, text, code);
    AnyPassesUpToFive(Rules[6].tests, text, code);
    AnyPassesUpToFive(Rules[7].tests, text, code);
    AnyPassesUpToFive(Rules[8].tests, text, code);
  }

  /** The tests of the storage, size and server rules, spelled out. */
  lemma ServerRuleTests(text: string, code: string)
    ensures AnyPasses(Rules[9].tests, text, code) <==> Contains(text, "storage") || Contains(text, "bucket") || Contains(text, "object not found")
    ensures AnyPasses(Rules[10].tests, text, code) <==> Contains(text, "file size") || Contains(text, "too large") || Contains(text, "5MB")
    ensures AnyPasses(Rules[11].tests, text, code) <==> Contains(text, "internal server error") || Contains(text, "500") || StartsWith(code, "500")
    ensures AnyPasses(Rules[12].tests, text, code) <==> Contains(text, "not found") || Contains(text, "404") || Contains(code, "notfound")
  {
    AnyPassesUpToFive(Rules[9].tests, text, code);
    AnyPassesUpToFive(Rules[10].tests, text, code);
    AnyPassesUpToFive(Rules[11].tests, text, code);
    AnyPassesUpToFive(Rules[12].tests, text, code);
  }

  /** The first-match scan over the last six rules, spelled out. */
  lemma FirstMatchOfLaterRules(text: string, code: string)
    ensures FirstMatch(Rules, 7, text, code) ==
      if AnyPasses(Rules[7].tests, text, code) then Some(Rules[7].outcome)
      else if AnyPasses(Rules[8].tests, text, code) then Some(Rules[8].outcome)
      else if AnyPasses(Rules[9].tests, text, code) then Some(Rules[9].outcome)
      else if AnyPasses(Rules[10].tests, text, code) then Some(Rules[10].outcome)
      else if AnyPasses(Rules[11].tests, text, code) then Some(Rules[11].outcome)
      else if AnyPasses(Rules[12].tests, text, code) then Some(Rules[12].outcome)
      else None
  {
    assert FirstMatch(Rules, 13, text, code) == None;
    assert FirstMatch(Rules, 12, text, code) == if AnyPasses(Rules[12].tests, text, code) then Some(Rules[12].outcome) else FirstMatch(Rules, 13, text, code);
    assert FirstMatch(Rules, 11, text, code) == if AnyPasses(Rules[11].tests, text, code) then Some(Rules[11].outcome) else FirstMatch(Rules, 12, text, code);
    assert FirstMatch(Rules, 10, text, code) == if AnyPasses(Rules[10].tests, text, code) then Some(Rules[10].outcome) else FirstMatch(Rules, 11, text, code);
    assert FirstMatch(Rules, 9, text, code) == if AnyPasses(Rules[9].tests, text, code) then Some(Rules[9].outcome) else FirstMatch(Rules, 10, text, code);
    assert FirstMatch(Rules, 8, text, code) == if AnyPasses(Rules[8].tests, text, code) then Some(Rules[8].outcome) else FirstMatch(Rules, 9, text, code);
    assert FirstMatch(Rules, 7, text, code) == if AnyPasses(Rules[7].tests, text, code) then Some(Rules[7].outcome) else FirstMatch(Rules, 8, text, code);
  }

  /** The first-match scan over the thirteen rules, spelled out. */
  lemma FirstMatchOfRules(text: string, code: string)
    ensures FirstMatch(Rules, 0, text, code) ==
      if AnyPasses(Rules[0].tests, text, code) then Some(Rules[0].outcome)
      else if AnyPasses(Rules[1].tests, text, code) then Some(Rules[1].outcome)
      else if AnyPasses(Rules[2].tests, text, code) then Some(Rules[2].outcome)
      else if AnyPasses(Rules[3].tests, text, code) then Some(Rules[3].outcome)
      else if AnyPasses(Rules[4].tests, text, code) then Some(Rules[4].outcome)
      else if AnyPasses(Rules[5].tests, text, code) then Some(Rules[5].outcome)
      else if AnyPasses(Rules[6].tests, text, code) then Some(Rules[6].outcome)
      else FirstMatch(Rules, 7, text, code)
  {
    assert FirstMatch(Rules, 6, text, code) == if AnyPasses(Rules[6].tests, text, code) then Some(Rules[6].outcome) else FirstMatch(Rules, 7, text, code);
    assert FirstMatch(Rules, 5, text, code) == if AnyPasses(Rules[5].tests, text, code) then Some(Rules[5].outcome) else FirstMatch(Rules, 6, text, code);
    assert FirstMatch(Rules, 4, text, code) == if AnyPasses(Rules[4].tests, text, code) then Some(Rules[4].outcome) else FirstMatch(Rules, 5, text, code);
    assert FirstMatch(Rules, 3, text, code) == if AnyPasses(Rules[3].tests, text, code) then Some(Rules[3].outcome) else FirstMatch(Rules, 4, text, code);
    assert FirstMatch(Rules, 2, text, code) == if AnyPasses(Rules[2].tests, text, code) then Some(Rules[2].outcome) else FirstMatch(Rules, 3, text, code);
    assert FirstMatch(Rules, 1, text, code) == if AnyPasses(Rules[1].tests, text, code) then Some(Rules[1].outcome) else FirstMatch(Rules, 2, text, code);
    assert FirstMatch(Rules, 0, text, code) == if AnyPasses(Rules[0].tests, text, code) then Some(Rules[0].outcome) else FirstMatch(Rules, 1, text, code);
  }

  /** The cascade and the table agree on every input. */
  lemma FormatErrorFollowsTable(error: ErrorInput)
    ensures FormatError(error) == Classify(error)
  {
    if error.Value? {
      var text := ErrorText(error.message, error.asString);
      AccessRuleTests(text, error.code);
      ConstraintRuleTests(text, error.code);
      ClientRuleTests(text, error.code);
      ServerRuleTests(text, error.code);
      FirstMatchOfRules(text, error.code);
      FirstMatchOfLaterRules(text, error.code);
    }
  }

  /** `formatError(null)` and `formatError(undefined)`. */
  lemma FalsyIsUnknown()
    ensures FormatError(Falsy).title == "Unknown Error" && FormatError(Falsy).code == "UNKNOWN"
  {
  }

  /** Code `PGRST301` is always a permission error: the authentication test that also names it is never reached. */
  lemma Pgrst301IsPermissionDenied(message: string, asString: string)
    ensures FormatError(Value(message, asString, "PGRST301")).code == "PERMISSION_DENIED"
    ensures FormatError(Value(message, asString, "PGRST301")) != AuthFailed
  {
  }

  /** A text mentioning a session, with none of the permission substrings, is an authentication error. */
  lemma SessionIsAuthError(text: string, code: string)
    requires Contains(text, "session")
    requires !Contains(text, "permission denied") && !Contains(text, "new row violates row-level security policy")
    requires code != "PGRST301"
    ensures FormatError(Value(text, text, code)).code == "AUTH_ERROR"
  {
  }

  /** When no rule fires, the original text and code are kept, with defaults for empty ones. */
  lemma FallbackKeepsOriginal(message: string, asString: string, code: string)
    requires FirstMatch(Rules, 0, ErrorText(message, asString), code).None?
    ensures var r := FormatError(Value(message, asString, code));
      r.title == "Error Occurred"
      && r.message == (if ErrorText(message, asString) != "" then ErrorText(message, asString) else DefaultMessage)
      && r.code == (if code != "" then code else "UNKNOWN")
  {
    FormatErrorFollowsTable(Value(message, asString, code));
  }

  /** Every part of a formatted error a caller shows is non-empty. */
  predicate Filled(f: FormattedError) {
    f.title != "" && f.message != "" && f.code != ""
  }

  /** The outcome the first-match scan picks is the outcome of one of the rules. */
  lemma {:induction false} FirstMatchIsRuleOutcome(rules: seq<Rule>, k: nat, text: string, code: string)
    requires FirstMatch(rules, k, text, code).Some?
    ensures exists i :: k <= i < |rules| && FirstMatch(rules, k, text, code).value == rules[i].outcome
    decreases |rules| - k
  {
    if !AnyPasses(rules[k].tests, text, code) {
      FirstMatchIsRuleOutcome(rules, k + 1, text, code);
    }
  }

  /** `formatError` never yields an empty title, message or code, whatever it is given. */
  lemma FormatErrorFilled(error: ErrorInput)
    ensures Filled(FormatError(error))
  {
    FormatErrorFollowsTable(error);
    ClassifyFilled(error);
  }

  /** Every rule outcome and the fallback are filled, so the table's classification is. */
  lemma ClassifyFilled(error: ErrorInput)
    ensures Filled(Classify(error))
  {
    if error.Value? {
      var text := ErrorText(error.message, error.asString);
      if FirstMatch(Rules, 0, text, error.code).Some? {
        FirstMatchIsRuleOutcome(Rules, 0, text, error.code);
        assert forall i :: 0 <= i < |Rules| ==> Filled(Rules[i].outcome);
      }
    }
  }

  /** `getErrorMessage`: the message `formatError` would show, never empty. */
  function GetErrorMessage(error: ErrorInput): (m: string)
    ensures m == FormatError(error).message && m != ""
  {
    FormatErrorFilled(error);
    FormatError(error).message
  }

  /** `getErrorTitle`: the title `formatError` would show, never empty. */
  function GetErrorTitle(error: ErrorInput): (t: string)
    ensures t == FormatError(error).title && t != ""
  {
    FormatErrorFilled(error);
    FormatError(error).title
  }
}
