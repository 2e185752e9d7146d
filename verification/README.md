# Phone Number Bot — a Dafny model of its message handling

The bot is a Telegram bot (`bot.py`) that looks up phone numbers. A message that starts with
`/start` gets a welcome. Any other message that does not start with a slash is read as a number.
The bot strips the text, puts it verbatim into the lookup API's URL, decodes the JSON object that
comes back, and replies with one of:

- the object's `error` member;
- "No details found for …";
- an HTML block with one line per meaningful field.

An exception raised on the way is answered by the first matching `except` clause.

The model has five modules:

- `PyStr` models the parts of Python's `str` the bot uses: `strip()`, `title()`, `replace()`
  and `str()` of an integer.
- `JsonValue` models the decoded response:
  - JSON scalars;
  - Python truthiness and `str()`;
  - the "meaningful value" test with its placeholder list `""`, `"NA"`, `"N/A"`;
  - `dict.get` over an insertion-ordered object.
- `PyExceptions` models the exception classes involved, as a single-inheritance tree, with
  `isinstance` as reachability towards the root.
- `BotFormat` models the formatting of the reply. The imperative loop of the handler is the
  method `ComposeReply`. It is proved equal to the function `FormatReply`, which is defined by a
  filter over the fields (`MeaningfulFields`) and a fold that builds the HTML block
  (`InfoText`).
- `BotHandlers` models:
  - message routing;
  - the welcome;
  - the lookup URL;
  - the `except` chain (a first-match over the clause list);
  - the whole handling of one message, `HandleMessage`. The remote service is a function
    parameter from the requested URL to what the request came to.

Where the bot's documentation describes more than the code does, the model follows the code:

- The code has no phone-number validator.
- The code has no per-field icon table.
- The code has no filter for the bot's own messages.
- The code sets no request timeout.
- The code has no separate "remote error" outcome in the client. An `error` member is seen
  only by the formatter, and only when it is truthy. A falsy `error` member (`""`, `0`,
  `false`, `null`) is treated like any other field.
- The parse mode differs by reply. The error, "no details", failure and welcome replies use the
  client's default parse mode. Only the information block is sent with `parse_mode='html'`.
- The welcome text ends with the three characters `â€”` exactly as the source file spells them.
  These are a mis-decoded em dash, kept verbatim.

## Model

| member | source | states |
|---|---|---|
| PyStr.TrimStartSpec | bot.py:53 | stripping the front leaves a suffix of the text, removes only whitespace, and stops at a non-space character |
| PyStr.TrimEndSpec | bot.py:53 | stripping the back leaves a prefix of the text, removes only whitespace, and stops at a non-space character |
| PyStr.StripIsSlice | bot.py:53 | `strip()` returns the contiguous slice left after cutting whitespace at both ends; everything cut is whitespace and neither end of the result is |
| PyStr.StripOfTrimmed | bot.py:77 | a string with no whitespace at either end is its own `strip()` |
| PyStr.StripIdempotent | bot.py:53 | stripping an already stripped number changes nothing |
| PyStr.TitleSpec | bot.py:78 | `title()` keeps the length; a letter becomes upper case at the start or after a non-letter and lower case after a letter; other characters stay |
| PyStr.TitleIdempotent | bot.py:78 | title-casing twice equals title-casing once |
| PyStr.ReplaceChar | bot.py:78 | `replace("_", " ")` keeps the length and changes exactly the occurrences of the replaced character |
| PyStr.IntToStringDigits | bot.py:77 | `str()` of an integer is digits with a leading minus exactly for negatives |
| PyStr.IntToStringRoundTrip | bot.py:79 | the decimal text printed for an integer value reads back as that integer |
| JsonValue.StrMeaningful | bot.py:77 | a string is meaningful exactly when its stripped form is not `""`, `"NA"` or `"N/A"` (case-sensitive) |
| JsonValue.IntMeaningful | bot.py:77 | an integer is meaningful exactly when it is non-zero |
| JsonValue.MeaningfulCases | bot.py:77 | the meaningful-value test type by type: non-placeholder strings, non-zero integers, `true`; never `null` |
| JsonValue.Get | bot.py:69 | `get` answers `None` exactly when no member has the key |
| JsonValue.GetFinds | bot.py:69-70 | in an object with distinct keys, `get` returns the value stored under the key |
| PyExceptions.Base | bot.py:87-97 | only `BaseException` lacks a base class, and a base class sits one level nearer the root |
| PyExceptions.RootedAtBaseException | bot.py:87-97 | every exception class derives from `BaseException` |
| PyExceptions.SubclassTransitive | bot.py:87-97 | `isinstance` through a chain of subclasses is transitive |
| PyExceptions.RequestsHierarchy | bot.py:87-91 | `HTTPError` is a `RequestException`, which is an `Exception` |
| BotFormat.ReportedError | bot.py:69-70 | an error is reported only for a truthy value that `get("error")` returns |
| BotFormat.ReportedErrorSpec | bot.py:69-70 | with distinct keys, an error is reported exactly when the `error` member is truthy, and the report carries that member's value |
| BotFormat.ComposeReply | bot.py:73-85 | the formatting loop, which appends one line per meaningful field to the header and tracks `info_found`, sends exactly the reply `FormatReply` describes |
| BotFormat.ComposeStep | bot.py:76-80 | one loop turn appends the field's line exactly when its value is meaningful, and sets the found flag accordingly |
| BotFormat.MeaningfulFieldsAppend | bot.py:76-80 | filtering two runs of fields one after the other equals filtering each and concatenating |
| BotFormat.SelectedPositionsSpec | bot.py:76-77 | the listed positions increase, each holds a meaningful field, and every meaningful field's position is listed |
| BotFormat.SelectedPositionsSound | bot.py:76-77 | every listed position is in range and meaningful, and the list increases |
| BotFormat.SelectedPositionsComplete | bot.py:76-77 | every position with a meaningful value is listed |
| BotFormat.MeaningfulFieldsInOrder | bot.py:76-80 | the shown fields are exactly the fields at the meaningful positions, in the response's order |
| BotFormat.MeaningfulFieldsMembers | bot.py:76-77 | a field gets a line exactly when it is in the response and its value is meaningful |
| BotFormat.NothingMeaningful | bot.py:74-83 | nothing is shown exactly when no field has a meaningful value |
| BotFormat.InfoTextIsHeaderThenLines | bot.py:73-79 | the HTML block is the header followed by the shown fields' lines, in order |
| BotFormat.FormatReplyCases | bot.py:69-85 | a truthy `error` gives the error reply; "no details" exactly when `error` is not truthy and no field is meaningful; HTML exactly when `error` is not truthy and some field is meaningful |
| BotFormat.ErrorMemberNeverALine | bot.py:69-80 | an HTML reply never contains a line for the `error` member |
| BotFormat.LabelSpec | bot.py:78 | a label keeps the key's length, has a space exactly where the key had `_` or a space, and contains no `_` |
| BotFormat.LabelIdempotent | bot.py:78 | labelling a label changes nothing |
| BotFormat.NamedCarrierExample | bot.py:69-85 | for `name`="Jane Doe", `carrier`="Acme", `country`="NA" the reply is the HTML header plus the Name and Carrier lines only |
| BotFormat.NamedCarrierFilter | bot.py:76-77 | in that example the filter keeps `name` and `carrier` and drops `country` |
| BotFormat.InfoTextOfTwo | bot.py:73-79 | a block with two shown fields is the header followed by their two lines |
| BotHandlers.LookupUrlRoundTrip | bot.py:61 | the stripped text appears verbatim in the URL and can be read back from it, so distinct queries give distinct URLs |
| BotHandlers.RouteCases | bot.py:33-50 | `/start…` reaches the welcome and text not starting with `/` reaches the lookup; any other command reaches nothing; the two patterns never both match |
| BotHandlers.FirstHandler | bot.py:87-97 | the chosen clause is the first whose class the exception is an instance of; none is chosen exactly when no clause matches |
| BotHandlers.ExceptChainUnfolded | bot.py:87-97 | the three clauses are tried in order `HTTPError`, `RequestException`, `Exception` |
| BotHandlers.FailureReplyCases | bot.py:87-97 | an `HTTPError` gets "service down", any other `RequestException` gets "trouble connecting", any other `Exception` gets "unexpected error"; there is no reply exactly when the exception is not an `Exception` |
| BotHandlers.ExceptOrderMatters | bot.py:87-93 | with the first two clauses swapped, an `HTTPError` would get a different reply |
| BotHandlers.LookupReplySent | bot.py:59-97 | a lookup sends a reply unless the exception raised is not an `Exception` |
| BotHandlers.OneReplyPerMessage | bot.py:33-97 | a message gets at most one reply; it gets exactly one when it is `/start…`, or a lookup whose exception does not escape |
| BotHandlers.OnlyTheLookupUrlIsRequested | bot.py:53-62 | the replies depend on the remote service only through its answer for the stripped text's URL |
| BotHandlers.WelcomeIgnoresTheRest | bot.py:33-47 | every text beginning with `/start` gets the same single welcome |
| BotHandlers.DecodedObjectReply | bot.py:50-85 | a lookup whose response decodes to an object replies with the formatted fields of that object |

## Left out

- The Telegram client is out of the model. This covers `main`, connecting, `run_until_disconnected`, the event loop, the `typing` action and the coroutines. A message's handling is one function from its text to the replies it sends.
- Configuration from the environment (`BOT_TOKEN`, `API_ID`, `API_HASH`) and the startup check on it are out. They do not affect how a message is handled.
- Logging is out. It has no effect on the replies.
- The HTTP request and JSON decoding are out. What they come to is a parameter of `HandleMessage`: a decoded body or the class of the exception they raised. The status codes that make `raise_for_status` raise are therefore not modelled.
- Decoded values are strings, integers, booleans and `null` only. Floats and nested arrays or objects are out: their `str()` needs Python's float printing and `repr`.
- The model has no duplicate JSON keys. The object is a sequence of members, and the lemmas that need `dict` lookup require distinct keys, as a Python `dict` has.
- `PyStr.Title`: title-casing is modelled for ASCII letters only. Other characters are kept as they are and count as uncased. Python's Unicode case mapping, such as `ß` or titlecase digraphs, is not modelled.
- `PyExceptions.IsSubclass`: a class has a single base. Multiple inheritance in `requests` is flattened. For example, `ConnectTimeout` derives from both `ConnectionError` and `Timeout`; it is an `HTTPError` in neither and is caught by the `RequestException` clause either way.
- The sender's first name is an opaque parameter. A failing `get_sender` or a missing name is not modelled.
- `event.message.text` is taken as given. Telethon's rendering of message entities into that text is not modelled.
- Failures of sending a reply are out. An exception from `event.reply` inside the `try` is not modelled.
