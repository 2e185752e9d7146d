/** The two message handlers of the bot: which one a message reaches (bot.py:33, 50), the
    `/start` welcome (bot.py:34-47), and the lookup pipeline of `message_handler` with its
    `except` chain (bot.py:51-97). */
module BotHandlers {
  import opened Wrappers
  import opened PyStr
  import opened JsonValue
  import opened PyExceptions
  import opened BotFormat

  /** `API_URL` up to its one replacement field `{number_to_lookup}`, which ends it. */
  const ApiUrlBase := "https://ox.taitaninfo.workers.dev/?mobile="

  /** `API_URL` as the source writes it. */
  const ApiUrl := ApiUrlBase + "{number_to_lookup}"

  /** `API_URL.format(number_to_lookup=phone)`: the phone string stands verbatim where the
      replacement field was; nothing checks that it is made of digits or how long it is. */
  function LookupUrl(phone: string): string {
    ApiUrlBase + phone
  }

  /** The number a lookup URL asks about: the inverse of `LookupUrl`. */
  function QueryOf(url: string): Option<string> {
    if |ApiUrlBase| <= |url| && url[..|ApiUrlBase|] == ApiUrlBase then Some(url[|ApiUrlBase|..])
    else None
  }

  /** The URL carries the phone string verbatim: it can be read back from the URL, so two
      different phone strings never lead to the same request. */
  lemma LookupUrlRoundTrip(phone: string)
    ensures QueryOf(LookupUrl(phone)) == Some(phone)
    ensures forall other :: LookupUrl(other) == LookupUrl(phone) ==> other == phone
  {
    assert LookupUrl(phone)[..|ApiUrlBase|] == ApiUrlBase;
    forall other | LookupUrl(other) == LookupUrl(phone) ensures other == phone {
      assert other == LookupUrl(other)[|ApiUrlBase|..];
    }
  }

  /** The number looked up: the message text with surrounding whitespace stripped. */
  function PhoneOf(text: string): string {
    Strip(text)
  }

  /** `re.match('/start', text)`: the text begins with `/start`, whatever follows. */
  predicate StartPatternMatches(text: string) {
    |text| >= |"/start"| && text[..|"/start"|] == "/start"
  }

  /** `re.match('^(?!/)', text)`: the text does not begin with a slash (the empty text
      matches). */
  predicate LookupPatternMatches(text: string) {
    text == [] || text[0] != '/'
  }

  /** The handler a new message reaches. */
  datatype Handler = StartHandler | LookupHandler | NoHandler

  /** Handlers run in the order they were registered; the welcome handler stops propagation. */
  function Route(text: string): Handler {
    if StartPatternMatches(text) then StartHandler
    else if LookupPatternMatches(text) then LookupHandler
    else NoHandler
  }

  /** A message goes to the lookup exactly when it does not begin with a slash, to the welcome
      exactly when it begins with `/start`, and any other command gets no handler; the two
      patterns never both match, so the order of registration decides nothing. */
  lemma RouteCases(text: string)
    ensures !(StartPatternMatches(text) && LookupPatternMatches(text))
    ensures Route(text) == LookupHandler <==> text == [] || text[0] != '/'
    ensures Route(text) == StartHandler <==> |text| >= 6 && text[..6] == "/start"
    ensures Route(text) == NoHandler <==>
      |text| > 0 && text[0] == '/' && !(|text| >= 6 && text[..6] == "/start")
  {
    if StartPatternMatches(text) {
      assert text[0] == text[..6][0] == '/';
    }
  }

  /** The welcome reply; `firstName` is the sender's first name. */
  function WelcomeText(firstName: string): string {
    "Hi " + firstName + "!\n\n"
    + "Welcome to the Phone Number Bot. Just send me any "
    + "phone number and I'll try to find information about it.\n\n"
    + "\U{E2}\U{20AC}\U{201D} This bot was created by Rahul Sharma"
  }

  const ApiDownText := "The API service seems to be down. Please try again later."
  const ConnectionTroubleText := "I'm having trouble connecting to the API."
  const UnexpectedText := "An unexpected error happened. I've logged it."

  /** One `except C:` clause and the reply it sends. */
  datatype ExceptClause = ExceptClause(catches: ExcClass, message: string)

  /** The `except` clauses of `message_handler`, in the order Python tries them. */
  const ExceptClauses := [
    ExceptClause(HTTPError, ApiDownText),
    ExceptClause(RequestException, ConnectionTroubleText),
    ExceptClause(Exception, UnexpectedText)
  ]

  /** Python's choice of handler: the first clause whose class the raised exception is an
      instance of, or none, in which case the exception propagates. */
  function FirstHandler(clauses: seq<ExceptClause>, raised: ExcClass): (r: Option<string>)
    ensures r.None? <==> forall i :: 0 <= i < |clauses| ==> !IsSubclass(raised, clauses[i].catches)
    ensures r.Some? ==> exists i ::
      && 0 <= i < |clauses|
      && IsSubclass(raised, clauses[i].catches)
      && r.value == clauses[i].message
      && forall j :: 0 <= j < i ==> !IsSubclass(raised, clauses[j].catches)
  {
    if clauses == [] then None
    else if IsSubclass(raised, clauses[0].catches) then Some(clauses[0].message)
    else
      var r := FirstHandler(clauses[1..], raised);
      assert r.Some? ==> exists i :: (
        && 0 <= i < |clauses| - 1
        && r.value == clauses[1..][i].message
        && IsSubclass(raised, clauses[1..][i].catches)
        && forall j :: 0 <= j < i ==> !IsSubclass(raised, clauses[1..][j].catches));
      r
  }

  /** The reply sent when the `try` block raises `raised`, or `None` when no clause catches it. */
  function FailureReply(raised: ExcClass): Option<Reply> {
    match FirstHandler(ExceptClauses, raised)
    case Some(text) => Some(Reply(text, ClientDefault))
    case None => None
  }

  /** The `except` chain in closed form: an `HTTPError` (or a subclass) gets the "service down"
      reply although it is also a `RequestException`; any other `RequestException` the
      "trouble connecting" reply; any other `Exception` the "unexpected error" reply; and an
      exception outside `Exception`, such as `asyncio.CancelledError`, gets no reply. */
  lemma FailureReplyCases(raised: ExcClass)
    ensures IsSubclass(raised, HTTPError) ==> FailureReply(raised) == Some(Reply(ApiDownText, ClientDefault))
    ensures IsSubclass(raised, RequestException) && !IsSubclass(raised, HTTPError) ==>
      FailureReply(raised) == Some(Reply(ConnectionTroubleText, ClientDefault))
    ensures IsSubclass(raised, Exception) && !IsSubclass(raised, RequestException) ==>
      FailureReply(raised) == Some(Reply(UnexpectedText, ClientDefault))
    ensures FailureReply(raised).None? <==> !IsSubclass(raised, Exception)
  {
    ExceptChainUnfolded(raised);
    RequestsHierarchy();
    if IsSubclass(raised, HTTPError) {
      SubclassTransitive(raised, HTTPError, RequestException);
    }
    if IsSubclass(raised, RequestException) {
      SubclassTransitive(raised, RequestException, Exception);
    }
  }

  /** The `except` chain tried clause by clause. */
  lemma ExceptChainUnfolded(raised: ExcClass)
    ensures FirstHandler(ExceptClauses, raised) ==
      if IsSubclass(raised, HTTPError) then Some(ApiDownText)
      else if IsSubclass(raised, RequestException) then Some(ConnectionTroubleText)
      else if IsSubclass(raised, Exception) then Some(UnexpectedText)
      else None
  {
    var rest := ExceptClauses[1..];
    var last := rest[1..];
    assert last == [ExceptClause(Exception, UnexpectedText)] && last[1..] == [];
    assert FirstHandler(last, raised) ==
      if IsSubclass(raised, Exception) then Some(UnexpectedText) else None;
    assert FirstHandler(rest, raised) ==
      if IsSubclass(raised, RequestException) then Some(ConnectionTroubleText)
      else FirstHandler(last, raised);
  }

  /** The order of the clauses matters: were the `RequestException` clause tried first, an
      `HTTPError` would get the "trouble connecting" reply instead of "service down". */
  lemma ExceptOrderMatters()
    ensures var swapped := [ExceptClauses[1], ExceptClauses[0], ExceptClauses[2]];
      && FirstHandler(ExceptClauses, HTTPError) == Some(ApiDownText)
      && FirstHandler(swapped, HTTPError) == Some(ConnectionTroubleText)
      && ApiDownText != ConnectionTroubleText
  {
    assert IsSubclass(HTTPError, RequestException);
    assert |ApiDownText| != |ConnectionTroubleText|;
  }

  /** What the HTTP request and the JSON decoding came to: a decoded body, or the class of the
      exception `requests.get`, `raise_for_status` or `response.json` raised. */
  datatype Outcome = Decoded(body: Body) | Raised(exc: ExcClass)

  /** The reply to a lookup of `phone` once the request has come to `outcome`: `None` when the
      exception escapes the handler. A body that is not an object has no `get`, so it raises
      `AttributeError`. */
  function LookupReply(phone: string, outcome: Outcome): Option<Reply> {
    match outcome
    case Raised(c) => FailureReply(c)
    case Decoded(NotObject) => FailureReply(AttributeError)
    case Decoded(Object(fields)) => Some(FormatReply(phone, fields))
  }

  /** The replies sent for one new message with text `text` from a sender called `firstName`;
      `api` stands for the remote service: what requesting a URL comes to. */
  function HandleMessage(text: string, firstName: string, api: string -> Outcome): seq<Reply> {
    match Route(text)
    case StartHandler => [Reply(WelcomeText(firstName), ClientDefault)]
    case NoHandler => []
    case LookupHandler =>
      var phone := PhoneOf(text);
      match LookupReply(phone, api(LookupUrl(phone)))
      case Some(reply) => [reply]
      case None => []
  }

  /** The lookup outcome whose exception no clause catches. */
  predicate Escapes(outcome: Outcome) {
    outcome.Raised? && !IsSubclass(outcome.exc, Exception)
  }

  /** Every message gets at most one reply, and exactly one unless it is a command other than
      `/start` or the lookup raised an exception outside `Exception`. */
  lemma OneReplyPerMessage(text: string, firstName: string, api: string -> Outcome)
    ensures var replies := HandleMessage(text, firstName, api);
      && |replies| <= 1
      && (|replies| == 1 <==>
          || Route(text) == StartHandler
          || (Route(text) == LookupHandler && !Escapes(api(LookupUrl(PhoneOf(text))))))
  {
    if Route(text) == LookupHandler {
      var phone := PhoneOf(text);
      LookupReplySent(phone, api(LookupUrl(phone)));
    }
  }

  /** A lookup sends a reply unless its exception escapes the handler. */
  lemma LookupReplySent(phone: string, outcome: Outcome)
    ensures LookupReply(phone, outcome).None? <==> Escapes(outcome)
  {
    match outcome
    case Raised(c) => FailureReplyCases(c);
    case Decoded(body) => FailureReplyCases(AttributeError);
  }

  /** The lookup sends one request, to the URL of the stripped text: two services that answer
      that URL alike lead to the same replies, whatever they answer for any other URL. */
  lemma OnlyTheLookupUrlIsRequested(text: string, firstName: string, api1: string -> Outcome,
                                    api2: string -> Outcome)
    requires api1(LookupUrl(PhoneOf(text))) == api2(LookupUrl(PhoneOf(text)))
    ensures HandleMessage(text, firstName, api1) == HandleMessage(text, firstName, api2)
  {
  }

  /** Every message that begins with `/start` gets the same welcome, whatever follows. */
  lemma WelcomeIgnoresTheRest(text: string, rest: string, firstName: string, api: string -> Outcome)
    ensures HandleMessage("/start" + rest, firstName, api) ==
      [Reply(WelcomeText(firstName), ClientDefault)]
  {
    assert ("/start" + rest)[..6] == "/start";
  }

  /** A lookup whose request succeeded with an object replies with the formatted fields, sent
      with the reply's own parse mode; the error report, the "no details" text and the HTML
      block are the only replies a decoded object can lead to. */
  lemma DecodedObjectReply(text: string, firstName: string, api: string -> Outcome)
    requires LookupPatternMatches(text)
    requires api(LookupUrl(PhoneOf(text))).Decoded?
    requires api(LookupUrl(PhoneOf(text))).body.Object?
    ensures var fields := api(LookupUrl(PhoneOf(text))).body.fields;
      HandleMessage(text, firstName, api) == [FormatReply(PhoneOf(text), fields)]
  {
    RouteCases(text);
  }
}
