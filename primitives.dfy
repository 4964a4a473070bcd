/**
 * server/src/constants/Primitives.ts: the shared bounds and the Zod string validators.
 * A Zod string schema runs every one of its checks and reports each that fails, so a
 * parse either returns its input unchanged or the messages of all failed checks, in order.
 * `z.email()` has library-defined semantics and is the parameter `isEmail`. Length bounds are on
 * JavaScript's `length`, which counts UTF-16 code units (`Text.JsLength`).
 */
module Primitives {
  import opened Wrappers
  import Text

  const USERNAME_MIN := 1
  const USERNAME_MAX := 8
  const PROJECT_TITLE_MAX := 100
  const PROJECT_DESC_MAX := 4096
  const TICKET_TITLE_MAX := 100
  const TICKET_DESC_MAX := 2048
  const JOB_TEAM_MAX := 50

  const JOB_TITLES: seq<string> :=
    ["Project Manager", "Software Engineer", "Support Engineer", "Systems Engineer", "Tester", "Designer"]
  const ROLES: seq<string> := ["User", "Admin"]
  const PRIORITY: seq<string> := ["Low", "Medium", "High"]
  const STATUS: seq<string> := ["Open", "In-Progress", "In Review", "Closed"]
  const SIZING: seq<int> := [1, 2, 3, 5, 8]

  const AMAZON_DOMAIN := "@amazon.com"

  /** `/^[^<>]*$/` */
  predicate NoHtml(s: string) {
    forall i :: 0 <= i < |s| ==> s[i] != '<' && s[i] != '>'
  }

  /** `/^[a-z]+$/` */
  predicate LowercaseWord(s: string) {
    |s| > 0 && forall i :: 0 <= i < |s| ==> 'a' <= s[i] <= 'z'
  }

  /** The character class `[a-zA-Z0-9._%+-]`. */
  predicate IsLocalPartChar(c: char) {
    'a' <= c <= 'z' || 'A' <= c <= 'Z' || '0' <= c <= '9' || c in {'.', '_', '%', '+', '-'}
  }

  /** `/^[a-zA-Z0-9._%+-]+@amazon\.com$/` */
  predicate AmazonAddress(s: string) {
    && |s| > |AMAZON_DOMAIN|
    && s[|s| - |AMAZON_DOMAIN|..] == AMAZON_DOMAIN
    && forall i :: 0 <= i < |s| - |AMAZON_DOMAIN| ==> IsLocalPartChar(s[i])
  }

  /** One check of a Zod schema: whether it passed and the message it reports when not. */
  datatype Check = Check(passed: bool, message: string)

  function FailedMessages(checks: seq<Check>): (msgs: seq<string>)
    ensures |msgs| <= |checks|
    ensures msgs == [] <==> forall i :: 0 <= i < |checks| ==> checks[i].passed
  {
    if checks == [] then []
    else (if checks[0].passed then [] else [checks[0].message]) + FailedMessages(checks[1..])
  }

  /** `schema.parse(s)`: the input itself, or every failed check's message. */
  function RunChecks(s: string, checks: seq<Check>): (r: Result<string, seq<string>>)
    ensures r.Ok? <==> forall i :: 0 <= i < |checks| ==> checks[i].passed
    ensures r.Ok? ==> r.value == s
    ensures r.Err? ==> r.error != []
  {
    var msgs := FailedMessages(checks);
    if msgs == [] then Ok(s) else Err(msgs)
  }

  /** `Username.parse`: 1 to 8 characters, all of them lower-case ASCII letters. */
  function ParseUsername(s: string): (r: Result<string, seq<string>>)
    ensures r.Ok? <==> USERNAME_MIN <= |s| <= USERNAME_MAX && forall i :: 0 <= i < |s| ==> 'a' <= s[i] <= 'z'
    ensures r.Ok? ==> r.value == s
  {
    var checks := [
      Check(Text.JsLength(s) >= 1, "Username is required"),
      Check(Text.JsLength(s) <= 8, "Username must be less than 8 characters"),
      Check(LowercaseWord(s), "Username must contain only lowercase letters")];
    assert LowercaseWord(s) ==> Text.JsLength(s) == |s| by {
      if LowercaseWord(s) {
        Text.JsLengthBmp(s);
      }
    }
    assert (forall i :: 0 <= i < |checks| ==> checks[i].passed)
      <==> checks[0].passed && checks[1].passed && checks[2].passed;
    RunChecks(s, checks)
  }

  /** `UserEmail.parse`: a valid e-mail address (per `isEmail`) whose domain is exactly amazon.com. */
  function ParseUserEmail(s: string, isEmail: string -> bool): (r: Result<string, seq<string>>)
    ensures r.Ok? <==> isEmail(s) && AmazonAddress(s)
    ensures r.Ok? ==> r.value == s
  {
    var checks := [
      Check(isEmail(s), "Invalid email format"),
      Check(AmazonAddress(s), "Email must be a username ending with @amazon.com")];
    assert (forall i :: 0 <= i < |checks| ==> checks[i].passed) <==> checks[0].passed && checks[1].passed;
    RunChecks(s, checks)
  }

  /** `ProjectTitle.parse` */
  function ParseProjectTitle(s: string): (r: Result<string, seq<string>>)
    ensures r.Ok? <==> 1 <= Text.JsLength(s) <= PROJECT_TITLE_MAX && NoHtml(s)
    ensures r.Ok? ==> r.value == s
  {
    var checks := [
      Check(Text.JsLength(s) >= 1, "Project title is required"),
      Check(Text.JsLength(s) <= 100, "Project title must be 100 characters or less"),
      Check(NoHtml(s), "Project title must not contain HTML or script content")];
    assert (forall i :: 0 <= i < |checks| ==> checks[i].passed)
      <==> checks[0].passed && checks[1].passed && checks[2].passed;
    RunChecks(s, checks)
  }

  /** `ProjectDescription.parse`: the empty description is rejected. */
  function ParseProjectDescription(s: string): (r: Result<string, seq<string>>)
    ensures r.Ok? <==> 1 <= Text.JsLength(s) <= PROJECT_DESC_MAX && NoHtml(s)
    ensures r.Ok? ==> r.value == s
  {
    var checks := [
      Check(Text.JsLength(s) >= 1, "Project description is required"),
      Check(Text.JsLength(s) <= 4096, "Project description must be 4096 characters or less"),
      Check(NoHtml(s), "Project description must not contain HTML or script content")];
    assert (forall i :: 0 <= i < |checks| ==> checks[i].passed)
      <==> checks[0].passed && checks[1].passed && checks[2].passed;
    RunChecks(s, checks)
  }

  /** `TicketTitle.parse` */
  function ParseTicketTitle(s: string): (r: Result<string, seq<string>>)
    ensures r.Ok? <==> 1 <= Text.JsLength(s) <= TICKET_TITLE_MAX && NoHtml(s)
    ensures r.Ok? ==> r.value == s
  {
    var checks := [
      Check(Text.JsLength(s) >= 1, "Ticket title is required"),
      Check(Text.JsLength(s) <= TICKET_TITLE_MAX, "Ticket title must be 100 characters or less"),
      Check(NoHtml(s), "Ticket title must not contain HTML or script content")];
    assert (forall i :: 0 <= i < |checks| ==> checks[i].passed)
      <==> checks[0].passed && checks[1].passed && checks[2].passed;
    RunChecks(s, checks)
  }

  /** `z.enum(options).parse`: case-sensitive membership. */
  function ParseEnum(s: string, options: seq<string>): (r: Result<string, seq<string>>)
    ensures r.Ok? <==> s in options
    ensures r.Ok? ==> r.value == s
  {
    RunChecks(s, [Check(s in options, "Invalid option")])
  }

  function ParseTicketPriority(s: string): (r: Result<string, seq<string>>)
    ensures r.Ok? <==> s == "Low" || s == "Medium" || s == "High"
  {
    ParseEnum(s, PRIORITY)
  }

  function ParseTicketStatus(s: string): (r: Result<string, seq<string>>)
    ensures r.Ok? <==> s == "Open" || s == "In-Progress" || s == "In Review" || s == "Closed"
  {
    ParseEnum(s, STATUS)
  }

  /** An accepted username can never carry markup. */
  lemma UsernameHasNoHtml(s: string)
    requires ParseUsername(s).Ok?
    ensures NoHtml(s)
  {
  }

  /** An accepted Amazon address is a non-empty local part over `[a-zA-Z0-9._%+-]` followed by exactly `@amazon.com`. */
  lemma {:induction false} UserEmailShape(s: string, isEmail: string -> bool)
    requires ParseUserEmail(s, isEmail).Ok?
    ensures exists local: string ::
              && |local| >= 1
              && s == local + AMAZON_DOMAIN
              && forall i :: 0 <= i < |local| ==> IsLocalPartChar(local[i])
  {
    var local := s[..|s| - |AMAZON_DOMAIN|];
    assert s == local + AMAZON_DOMAIN;
  }

  /** Conversely, every such local part followed by `@amazon.com` is an Amazon address. */
  lemma {:induction false} AmazonAddressOf(local: string)
    requires |local| >= 1 && forall i :: 0 <= i < |local| ==> IsLocalPartChar(local[i])
    ensures AmazonAddress(local + AMAZON_DOMAIN)
  {
    var s := local + AMAZON_DOMAIN;
    assert s[|s| - |AMAZON_DOMAIN|..] == AMAZON_DOMAIN;
    assert forall i :: 0 <= i < |local| ==> s[i] == local[i];
  }

  /** Eight letters pass, although the message says "less than 8"; the empty string fails. */
  lemma UsernameBoundaries()
    ensures ParseUsername(seq(8, _ => 'a')).Ok?
    ensures ParseUsername("").Err?
  {
  }

  /** Nine letters fail. */
  lemma UsernameTooLong()
    ensures ParseUsername(seq(9, _ => 'a')).Err?
  {
  }

  /** Capitals and digits are refused, whatever the length. */
  lemma UsernameCharacters()
    ensures ParseUsername("John").Err?
    ensures ParseUsername("john1").Err?
  {
    assert "John"[0] == 'J';
    assert "john1"[4] == '1';
  }

  lemma UserEmailRejections(isEmail: string -> bool)
    ensures ParseUserEmail("@amazon.com", isEmail).Err?
    ensures ParseUserEmail("john@gmail.com", isEmail).Err?
  {
    var s := "john@gmail.com";
    assert s[|s| - |AMAZON_DOMAIN|..][0] == 'n' != AMAZON_DOMAIN[0];
  }

  /**
   * The bound is on UTF-16 code units: 51 emoji are 102 units, over the 100 allowed, although
   * they are only 51 characters.
   */
  lemma {:induction false} AstralTitleTooLong()
    ensures ParseProjectTitle(seq(51, _ => '\U{1F600}')).Err?
  {
    Text.JsLengthAstral(seq(51, _ => '\U{1F600}'));
  }

  lemma DescriptionMustBeNonEmpty()
    ensures ParseProjectDescription("").Err?
  {
  }

  lemma EnumsAreCaseSensitive()
    ensures ParseTicketPriority("low").Err?
    ensures ParseTicketStatus("open").Err?
    ensures ParseTicketStatus("Pending").Err?
    ensures ParseTicketStatus("In-Progress").Ok?
  {
  }
}
