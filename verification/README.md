# homework_bot decision logic in Dafny

A model of the pure logic of `homework.py`, the Telegram bot that polls the
Practicum homework-status API every ten minutes and tells a chat when the
review status of the student's latest homework changes. It covers:

- the verdict table `HOMEWORK_STATUSES` and the notification `parse_status`
  builds from a homework record;
- the answer validator `check_response`, in its own order of checks
  (missing key, `None`, empty, not a list);
- the configuration check `check_tokens`, and the start of `main`;
- `get_api_answer` as a function of what the HTTP client reports;
- one pass of `main`'s `while True` body as a pure transition over the
  loop's memory (`previous_status`, `previous_error`, the `from_date`
  cursor), and runs of several passes.

The decoded JSON answer is a datatype (`PyJson.Json`), and the Python
operations the script applies to it (`[...]`, `.get`, `len`, `==`,
dictionary lookup, `str`, `repr`) are modelled with the built-in exception
each raises on the wrong shape, because those exceptions reach the loop's
handler and their texts are what the loop deduplicates on. The exception
classes of `exceptions.py` are constructors of `Exceptions.Error`; `str` of
an error is `Exceptions.Text`.

Files: `wrappers.dfy` (Option, Result), `pyjson.dfy` (JSON values and
Python operations), `exceptions.dfy`, `homework.dfy` (validator, parser,
configuration, API answer), `loop.dfy` (start-up, one pass, runs).

Behaviours of the code worth knowing, all of which the model keeps:

- an empty `homeworks` list is an error (`Список домашних работ пуст`),
  reported once, not a quiet pass;
- the cursor is set once at start-up and never advanced;
- a status-code failure of the API leaves `main` instead of being reported
  (see Findings);
- an answer that is not an object fails with Python's `TypeError`, and an
  undocumented status with `KeyError` (the `UnknownHWStatusException` branch
  cannot run);
- `previous_status` starts as `None`, and Python's `None == None` means a
  homework record without a `status` is never reported from the start.

Messages of Python's own exceptions follow CPython 3.9 wording.

## Model

| member | source | states |
|---|---|---|
| PyJson.LastIndex | homework.py:63 | the binding a dict built from the answer keeps for a key is the last one in the document, or there is none |
| PyJson.Lookup | homework.py:63 | a key lookup finds nothing exactly when the key is absent, and otherwise the value of the key's last binding in the document |
| PyJson.Subscript | homework.py:63-66 | `response['homeworks']` succeeds exactly on an object holding the key; a missing key is a `KeyError` naming it; any other shape is a `TypeError` |
| PyJson.Get | homework.py:81-87 | `.get` succeeds exactly on an object, giving the bound value or `None`; on any other shape it raises `AttributeError`, which the `except KeyError` clauses do not catch |
| PyJson.IsEmpty | homework.py:70 | `len(...) == 0` is defined for strings, lists and dicts and true exactly for the empty ones; on numbers and booleans it raises `TypeError` |
| PyJson.PyEqReflexive | homework.py:129 | every decoded value compares equal to itself under Python's `==`, so a status seen again is never taken for a change |
| PyJson.PyEqOnStrings | homework.py:129 | a string status equals exactly the same string and nothing else |
| PyJson.Str | homework.py:93 | an f-string inserts a string as is, `None` as `None`, a boolean as `True`/`False`, an integer in decimal, and a list or dict in its brackets |
| PyJson.PyEq | homework.py:129 | values equal under Python's `==` have the same type, except that a boolean may equal an integer |
| PyJson.PyEqBoolInt | homework.py:129 | `True == 1` and `False == 0`, in either order, and a boolean equals no other integer |
| PyJson.DictEqBySameLookups | homework.py:129 | two dicts that bind every key to the same value are equal, whatever the order or repetition of their members |
| PyJson.PyEqIgnoresMemberOrder | homework.py:129 | `{k1: v1, k2: v2} == {k2: v2, k1: v1}` for distinct keys |
| PyJson.ReprNamesEachKeyOnce | homework.py:138 | the `repr` of a dict writes each key once, at its first binding in the document, with the value the dict keeps for it; the key's later bindings write nothing |
| PyJson.ReprOfRepeatedKey | homework.py:138 | the `repr` of the dict decoded from `{k1: v1, k2: v2, k1: v3}` is `{k1: v3, k2: v2}` |
| PyJson.StrReprOfPlainText | homework.py:138 | a key made of plain characters appears in a `KeyError` text between single quotes, e.g. `'done'` |
| Homework.GetApiAnswer | homework.py:48-58 | the answer is returned exactly for status 200 with a decodable body; any other status raises the bot's status-code exception; nothing raises `IncorrectAPIResponseException` |
| Homework.CheckResponse | homework.py:61-76 | success exactly when `homeworks` is a non-empty list, returning that list; missing key or `None` fail with an empty `CheckResponseException`; an empty string, list or dict fails with `Список домашних работ пуст`; a non-empty non-list fails with an empty `CheckResponseException`; a number fails with `TypeError`; a non-object answer fails with `TypeError` |
| Homework.CheckResponseReturnsList | homework.py:73-76 | an answer whose `homeworks` is a non-empty list yields exactly that list, unchanged, whatever other members surround it |
| Homework.VerdictFor | homework.py:89 | the table lookup succeeds exactly for `approved`, `reviewing`, `rejected` with their verdicts; a list or dict key raises `TypeError`; any other value raises `KeyError` naming it |
| Exceptions.Text | homework.py:137-139 | `str` of the bot's own exceptions, raised without arguments, is empty; `str` of a `CheckResponseException` or a client error is its message; `str` of a `KeyError` is the `repr` of the key, in quotes for a string key |
| Exceptions.KeyErrorTextOfPlainKey | homework.py:137-139 | a `KeyError` for a key of plain characters reads as the key between single quotes |
| Homework.ParseStatus | homework.py:79-93 | a record with a documented status yields `Изменился статус проверки работы "<name>". <verdict>`, with `None` as the name when `homework_name` is missing; an undocumented hashable status raises `KeyError` with that status; a non-record raises `AttributeError`; `UnknownHWStatusException` is never raised |
| Homework.ReadStatusMessage | homework.py:93 | a notification read back gives a name text and a status whose message it is |
| Homework.ParseStatusRoundTrip | homework.py:93 | reading back the notification of a record gives exactly the record's name text and status |
| Homework.VerdictsTellApart | homework.py:24-28 | no message ends in two different verdicts of the table |
| Homework.ParseStatusDistinguishesStatuses | homework.py:89-93 | two records with the same notification have the same status |
| Homework.CheckTokens | homework.py:96-103 | true exactly when all three settings are set; otherwise it names the first unset one in the order `PRACTICUM_TOKEN`, `TELEGRAM_TOKEN`, `TELEGRAM_CHAT_ID` |
| Loop.Start | homework.py:106-114 | `main` raises `MissingRequiredTokenException` exactly when a setting is unset; otherwise it polls from the current time with no status and no error remembered |
| Loop.ReportFailure | homework.py:137-143 | the caught error's text is remembered; one message `Сбой в работе программы: <text>` is sent exactly when the text differs from the last one reported |
| Loop.ReportApiFailure | homework.py:119-125 | the first handler, with the caught class corrected and sending `str(error)` where line 122 passes the exception object, remembers the error's text and sends that text exactly when it differs from the last one reported |
| Loop.Step | homework.py:116-143 | a pass leaves `main` exactly when `get_api_answer` raises (as written, always); otherwise the cursor is kept, at most one message is sent, an error is sent only when its text differs from the remembered one, which then becomes it, a pass that reports no error leaves the remembered error as it was, and a status message is sent only when the status differs from the remembered one |
| Loop.StatusUnchangedIsSilent | homework.py:128-134 | when the first homework's status equals the remembered one, nothing is sent and the memory is unchanged |
| Loop.StatusChangeIsRemembered | homework.py:128-132 | a different status is remembered before parsing, even when parsing fails; a documented status sends exactly one status message, which reads back as that status; an undocumented one sends only error messages |
| Loop.UnknownStatusIsReported | homework.py:128-141 | an undocumented status is remembered and its `KeyError` is reported as an error message carrying the status's `repr` |
| Loop.RepeatedReplyIsSilent | homework.py:126-143 | handling the same reply a second time sends nothing and changes nothing |
| Loop.Run | homework.py:112-118 | over any run, the cursor stays at its start-up value and a run sends no more messages than it has passes |
| Loop.RunNeverRepeatsAnError | homework.py:137-143 | over any run, no error text is reported twice in a row, the first differs from the remembered one, and the memory ends on the last one reported |
| Loop.FreshHasNoAdjacentRepeats | homework.py:139-141 | consecutive error reports always carry different texts |
| Loop.SteadyRepliesAreSilent | homework.py:116-143 | after a reply has been handled, any number of identical replies sends nothing |
| Loop.StatusCodeFailureEscapes | homework.py:117-125 | as written, a reply with a status other than 200 ends `main` with the status-code exception |
| Loop.CorrectedRunKeepsPolling | homework.py:119-125 | with the handler catching the status-code exception, a run over received replies keeps polling and never repeats an error report |
| Loop.FirstApprovedNotice | homework.py:128-132 | the first pass over `{"homeworks": [{"homework_name": "task1", "status": "approved"}]}` sends `Изменился статус проверки работы "task1". Работа проверена: ревьюеру всё понравилось. Ура!` |
| Loop.EmptyListIsReported | homework.py:70-72 | the first pass over `{"homeworks": []}` sends `Сбой в работе программы: Список домашних работ пуст` |
| Loop.UndocumentedStatusText | homework.py:137-141 | a first homework with status `done` is remembered and reported as `Сбой в работе программы: 'done'` |
| Loop.MissingStatusIsNeverReported | homework.py:113-129 | from the start, a homework without `status` equals the remembered `None` and nothing is sent |

## Findings

| source | as written | input that shows it | evidently intended | confidence | as-written member | corrected member |
|---|---|---|---|---|---|---|
| homework.py:119 | the handler around `get_api_answer` catches `IncorrectAPIResponseException`, which nothing raises, so the `APIResponseStatusCodeException` raised at line 57 leaves `main` | a reply with HTTP status 503 | the handler catches the exception `get_api_answer` raises, reports it once and the loop keeps polling | not executed; high | Loop.StatusCodeFailureEscapes | Loop.CorrectedRunKeepsPolling |

Both behaviours are one definition: `Loop.Step` and `Loop.Run` take a
`Policy`, `AsWritten` or `Corrected`, and every lemma about passes and runs
other than the two above holds for both. The corrected handler sends
`str(error)`, which is empty for an exception raised without arguments, and
shares `previous_error` with the second handler, so
`Loop.RunNeverRepeatsAnError` covers both kinds of report.

## Left out

- `send_message` and `telegram.Bot`: a send is appending a notice to the pass's output and always succeeds. A Telegram failure is not modelled; it is not a `SendMessageFailure`, so it would not be caught on line 44.
- `requests.get`, `response.json()` and `time.time()`: a pass receives the client's report (`HttpReply`) as a parameter, and start-up receives the current time. The `or int(time.time())` fallback on line 49 for a zero cursor is not modelled.
- The `except` on line 53 names an exception the client never raises; a connection or decoding failure is modelled as passing through `get_api_answer` unchanged (`RequestException`), which then leaves `main`.
- `load_dotenv`, `os.getenv` and the logging set-up and calls: environment and log sinks; the settings are a `Config` value.
- `time.sleep(RETRY_TIME)` and the endless `while True`: the model has one pass and finite runs.
- JSON numbers are integers; floating-point values are not modelled.
- PyJson.StrRepr: escapes backslash, the quote in use, tab, newline, carriage return and ASCII control characters, but not the `\x`/`\u` escapes `repr` uses for other non-printable characters; its contract states only the quoting.
- Python's `str` of an exception raised by the HTTP client or the JSON decoder is kept as an opaque text.
