/**
 * The subscription endpoint `POST /api/subscribe`: validate the email, fill in
 * defaults, insert an unverified subscriber into a table whose email column is
 * unique, map the outcome to an HTTP status, and make a best-effort call to the
 * MailerLite API whose failure is logged and swallowed.
 *
 * The database and MailerLite are not called: how the insert fares and what
 * MailerLite answers are parameters of the handler.
 */
module Subscribe {
  import opened Wrappers
  import opened EmailSyntax

  /** One row of the `subscribers` table. */
  datatype Subscriber = Subscriber(email: string, source: string, tags: seq<string>, verified: bool)

  /** The table, keyed by its unique `email` column. */
  type Table = map<string, Subscriber>

  /** The JSON body of a request: `Malformed` when `request.json()` throws or
      the value cannot be destructured; otherwise each field may be absent. */
  datatype RequestBody =
    | Malformed
    | Body(email: Option<string>, source: Option<string>, tags: Option<seq<string>>)

  /** The environment: the optional `MAILERLITE_API_KEY`. */
  datatype Config = Config(mailerLiteKey: Option<string>)

  /** How the insert fares apart from the unique constraint: `Failing` is any
      database error other than a violation of that constraint (code 23505). */
  datatype Store = Available | Failing

  /** What the MailerLite `fetch` does: answers with some status (a non-2xx
      answer does not throw) or throws (network failure). */
  datatype MailerReply = Answered(status: int) | NetworkFailure

  /** The request sent to MailerLite: key header, email, and the fields object. */
  datatype MailerCall = MailerCall(apiKey: string, email: string, source: string, tags: string)

  /** What the handler writes with `console.error`. */
  datatype LogEntry = MailerLiteError | SubscriptionError

  /** The four results of the endpoint. */
  datatype Outcome = Subscribed | InvalidEmail | AlreadySubscribed | InternalError {

    /** The HTTP status of the response. */
    function Status(): (code: int)
      ensures IsOk(code) <==> Subscribed?
      ensures code in {200, 400, 409, 500}
    {
      match this
      case Subscribed => 200
      case InvalidEmail => 400
      case AlreadySubscribed => 409
      case InternalError => 500
    }

    /** The JSON body of the response. */
    function Json(): (j: ResponseJson)
      ensures j.Success? <==> Subscribed?
    {
      match this
      case Subscribed => Success(true, "Successfully subscribed! Check your email to confirm.")
      case InvalidEmail => Error("Invalid email address")
      case AlreadySubscribed => Error("Email already subscribed")
      case InternalError => Error("Internal server error")
    }
  }

  datatype ResponseJson = Success(success: bool, message: string) | Error(error: string)

  /** `Response.ok` of the Fetch API: a status in 200..299. */
  predicate IsOk(status: int)
  {
    200 <= status <= 299
  }

  /** What a page's `fetch("/api/subscribe")` gives back: a response with a
      status, or a thrown error. */
  datatype Reply = Responded(status: int) | Threw

  /** The pages' success test, `response.ok`. */
  predicate ReplyOk(reply: Reply)
  {
    reply.Responded? && IsOk(reply.status)
  }

  /** Everything one request produces: the response, the table afterwards,
      the MailerLite call if one is made, and the error log. */
  datatype Handled = Handled(outcome: Outcome, table: Table, sideCall: Option<MailerCall>, log: seq<LogEntry>)

  /** The string the regular expression tests: an absent email is coerced to "undefined". */
  function EmailText(field: Option<string>): string
  {
    field.GetOr("undefined")
  }

  /** The four outcomes give four different statuses and four different bodies,
      so a client can tell each of them from the response alone. */
  lemma ResponsesDistinct(o1: Outcome, o2: Outcome)
    ensures o1.Status() == o2.Status() <==> o1 == o2
    ensures o1.Json() == o2.Json() <==> o1 == o2
  {
  }

  /** The row inserted for a request: defaults "site" and [] for an absent source and tags. */
  function NewRow(email: string, source: Option<string>, tags: Option<seq<string>>): (row: Subscriber)
    ensures row.email == email && !row.verified
    ensures row.source == (if source.Some? then source.value else "site")
    ensures row.tags == (if tags.Some? then tags.value else [])
  {
    Subscriber(email, source.GetOr("site"), tags.GetOr([]), false)
  }

  /** The side call is enabled by a non-empty key (an empty environment variable is falsy). */
  predicate MailerEnabled(config: Config): (enabled: bool)
    ensures enabled <==> config.mailerLiteKey.GetOr("") != ""
  {
    config.mailerLiteKey.Some? && config.mailerLiteKey.value != ""
  }

  /** The MailerLite request for a stored row: tags flattened to one comma-joined string. */
  function CallFor(key: string, row: Subscriber): MailerCall
  {
    MailerCall(key, row.email, row.source, Join(row.tags, ','))
  }

  /** The handler as a function of the table before the request. */
  function Handle(table: Table, config: Config, body: RequestBody, store: Store, mailer: MailerReply): (h: Handled)
    ensures h.outcome != Subscribed ==> h.table == table && h.sideCall == None
    ensures |h.log| <= 1 && (h.log == [SubscriptionError] <==> h.outcome == InternalError)
  {
    match body
    case Malformed => Handled(InternalError, table, None, [SubscriptionError])
    case Body(emailField, source, tags) =>
      var email := EmailText(emailField);
      if !IsValidEmail(email) then Handled(InvalidEmail, table, None, [])
      else if store == Failing then Handled(InternalError, table, None, [SubscriptionError])
      else if email in table then Handled(AlreadySubscribed, table, None, [])
      else
        var row := NewRow(email, source, tags);
        if MailerEnabled(config) then
          Handled(Subscribed, table[email := row], Some(CallFor(config.mailerLiteKey.value, row)),
                  if mailer.NetworkFailure? then [MailerLiteError] else [])
        else Handled(Subscribed, table[email := row], None, [])
  }

  /** The table's invariant: each row sits under its own email, which is valid.
      Rows may be verified: the confirmation flow that sets `verified` is not
      part of this endpoint, but the table it serves may hold such rows. */
  ghost predicate WellFormed(table: Table)
  {
    forall e :: e in table ==> table[e].email == e && IsValidEmail(e)
  }

  /** The route handler, holding the table it writes to. */
  class SubscribeRoute {
    var table: Table
    const config: Config

    ghost predicate Valid()
      reads this
    {
      WellFormed(table)
    }

    /** The route connected to the table as it stands, earlier subscribers included. */
    constructor (config: Config, initial: Table)
      requires WellFormed(initial)
      ensures Valid() && table == initial && this.config == config
    {
      table := initial;
      this.config := config;
    }

    /** One POST request: early returns in the order of the source. */
    method Post(body: RequestBody, store: Store, mailer: MailerReply)
      returns (outcome: Outcome, sideCall: Option<MailerCall>, log: seq<LogEntry>)
      requires Valid()
      modifies this
      ensures Valid()
      ensures Handle(old(table), config, body, store, mailer) == Handled(outcome, table, sideCall, log)
    {
      sideCall, log := None, [];
      if body.Malformed? {
        log := [SubscriptionError];
        return InternalError, sideCall, log;
      }
      var email := EmailText(body.email);
      if !IsValidEmail(email) {
        return InvalidEmail, sideCall, log;
      }
      if store == Failing {
        log := [SubscriptionError];
        return InternalError, sideCall, log;
      }
      if email in table {
        return AlreadySubscribed, sideCall, log;
      }
      var row := NewRow(email, body.source, body.tags);
      table := table[email := row];
      if MailerEnabled(config) {
        sideCall := Some(CallFor(config.mailerLiteKey.value, row));
        if mailer.NetworkFailure? {
          log := [MailerLiteError];
        }
      }
      outcome := Subscribed;
    }
  }

  /** Every request keeps the table well formed and leaves every existing row,
      verified or not, as it was. */
  lemma HandlePreservesWellFormed(table: Table, config: Config, body: RequestBody, store: Store, mailer: MailerReply)
    requires WellFormed(table)
    ensures WellFormed(Handle(table, config, body, store, mailer).table)
    ensures forall e :: e in table ==>
              e in Handle(table, config, body, store, mailer).table && Handle(table, config, body, store, mailer).table[e] == table[e]
  {
    var h := Handle(table, config, body, store, mailer);
    if h.outcome == Subscribed {
      var e := EmailText(body.email);
      assert IsValidEmail(e) && h.table == table[e := NewRow(e, body.source, body.tags)];
    } else {
      assert h.table == table;
    }
  }

  /** A request is accepted past validation exactly when its email matches the
      regular expression; a rejected one is answered 400 with no insert and no side call. */
  lemma ValidationMatchesPattern(table: Table, config: Config, body: RequestBody, store: Store, mailer: MailerReply)
    requires body.Body?
    ensures var h := Handle(table, config, body, store, mailer);
      && (h.outcome == InvalidEmail <==> !MatchesPattern(EmailText(body.email)))
      && (h.outcome == InvalidEmail ==> h.table == table && h.sideCall == None)
  {
    ValidEmailIffPattern(EmailText(body.email));
  }

  /** A body without an email is answered 400. */
  lemma MissingEmailRejected(table: Table, config: Config, source: Option<string>, tags: Option<seq<string>>, store: Store, mailer: MailerReply)
    ensures Handle(table, config, Body(None, source, tags), store, mailer).outcome == InvalidEmail
  {
    UndefinedRejected();
  }

  /** The status of a request, case by case: 200 exactly when the body parses,
      the email is valid, the store works and the email is new; 409 exactly when
      it is already in the table; 500 exactly for a malformed body or a failing
      store; 400 exactly for an email the validator refuses. */
  lemma OutcomeCases(table: Table, config: Config, body: RequestBody, store: Store, mailer: MailerReply)
    ensures var code := Handle(table, config, body, store, mailer).outcome.Status();
      && (code == 200 <==>
            body.Body? && IsValidEmail(EmailText(body.email)) && store == Available && EmailText(body.email) !in table)
      && (code == 409 <==>
            body.Body? && IsValidEmail(EmailText(body.email)) && store == Available && EmailText(body.email) in table)
      && (code == 500 <==>
            body.Malformed? || (IsValidEmail(EmailText(body.email)) && store == Failing))
      && (code == 400 <==> body.Body? && !IsValidEmail(EmailText(body.email)))
  {
  }

  /** A successful request inserts exactly one row, `{email, source, tags, verified: false}`
      with the defaults filled in, and changes nothing else; any other request leaves the table alone. */
  lemma SuccessInsertsOneRow(table: Table, config: Config, body: RequestBody, store: Store, mailer: MailerReply)
    ensures var h := Handle(table, config, body, store, mailer);
      if h.outcome == Subscribed then
        var e := EmailText(body.email);
        && e !in table
        && h.table == table[e := Subscriber(e, body.source.GetOr("site"), body.tags.GetOr([]), false)]
        && |h.table| == |table| + 1
      else h.table == table
  {
  }

  /** MailerLite is called only after a successful insert with a configured key,
      with the stored row's email and source and its tags joined by commas. */
  lemma SideCallOnlyAfterSuccess(table: Table, config: Config, body: RequestBody, store: Store, mailer: MailerReply)
    ensures var h := Handle(table, config, body, store, mailer);
      && (h.sideCall.Some? <==> h.outcome == Subscribed && MailerEnabled(config))
      && (h.sideCall.Some? ==>
            var row := h.table[EmailText(body.email)];
            h.sideCall.value == MailerCall(config.mailerLiteKey.value, row.email, row.source, Join(row.tags, ',')))
  {
  }

  /** Whatever MailerLite answers or throws, the response, the table and the side call are the same:
      its reply can only add an entry to the log. */
  lemma MailerCannotChangeResult(table: Table, config: Config, body: RequestBody, store: Store, m1: MailerReply, m2: MailerReply)
    ensures var h1, h2 := Handle(table, config, body, store, m1), Handle(table, config, body, store, m2);
      h1.outcome == h2.outcome && h1.table == h2.table && h1.sideCall == h2.sideCall
  {
  }

  /** The first valid submission of an email on a working store succeeds; a second
      one with the same email, whatever its other fields, is answered 409 and
      leaves the table as the first left it. */
  lemma SecondSubmissionConflicts(table: Table, config: Config, email: string,
                                  s1: Option<string>, t1: Option<seq<string>>, m1: MailerReply,
                                  s2: Option<string>, t2: Option<seq<string>>, m2: MailerReply)
    requires IsValidEmail(email) && email !in table
    ensures var h1 := Handle(table, config, Body(Some(email), s1, t1), Available, m1);
      && h1.outcome == Subscribed && h1.outcome.Json() == Success(true, "Successfully subscribed! Check your email to confirm.")
      && var h2 := Handle(h1.table, config, Body(Some(email), s2, t2), Available, m2);
      && h2.outcome == AlreadySubscribed && h2.outcome.Status() == 409
      && h2.table == h1.table
  {
  }

  /** On an empty table, the email "not-an-email" is answered 400. */
  lemma ExampleInvalidRequest(config: Config, m: MailerReply)
    ensures Handle(map[], config, Body(Some("not-an-email"), None, None), Available, m).outcome.Status() == 400
  {
    NotAnEmailRejected();
    assert EmailText(Some("not-an-email")) == "not-an-email";
  }

  /** On an empty table, "a@b.com" from the demo page is stored with its own
      source and tags and answered 200; sending it again is answered 409. */
  lemma ExampleSignupThenConflict(config: Config, m: MailerReply, e: string)
    requires e == "a@b.com"
    ensures var body := Body(Some(e), Some("demo_page"), Some(["demo_early_access"]));
      var h := Handle(map[], config, body, Available, m);
      && h.outcome.Status() == 200
      && h.table == map[e := Subscriber(e, "demo_page", ["demo_early_access"], false)]
      && Handle(h.table, config, body, Available, m).outcome.Status() == 409
  {
    var body := Body(Some(e), Some("demo_page"), Some(["demo_early_access"]));
    var row := Subscriber(e, "demo_page", ["demo_early_access"], false);
    ExampleEmailAccepted();
    SecondSubmissionConflicts(map[], config, e, body.source, body.tags, m, body.source, body.tags, m);
    SuccessInsertsOneRow(map[], config, body, Available, m);
    assert map[][e := row] == map[e := row];
  }
}
