/**
 * The polling loop of `main`: start-up, then one pass of the `while True`
 * body as a pure transition over what the loop remembers, and a run of
 * several passes. A pass receives the HTTP client's report for the request
 * made with the current cursor and returns the notifications it sends.
 */
module Loop {
  import opened Wrappers
  import opened PyJson
  import opened Exceptions
  import opened Homework

  /** Prefix of the text sent for an error caught by the loop. */
  const ErrorPrefix := "Сбой в работе программы: "

  /** What the loop remembers between passes: the last status it saw
      (Python `None` at first), the text of the last error it reported, and
      the `from_date` cursor of its requests. */
  datatype State = State(previousStatus: Json, previousError: Option<string>, cursor: int)

  /** One message given to the bot. An error notice also records the error
      text the loop deduplicates on. */
  datatype Notice =
    | StatusNotice(text: string)
    | ErrorNotice(error: string, text: string)

  /** The result of one pass: the loop goes on with a new memory, or an
      exception leaves `main`. */
  datatype Outcome =
    | Continued(state: State, sent: seq<Notice>)
    | Escaped(error: Error)

  /** `AsWritten` is the script as it stands; `Corrected` lets the handler
      on the first `try` catch the exception `get_api_answer` raises. */
  datatype Policy = AsWritten | Corrected

  /** The error texts of the error notices among `ns`, in order. */
  function ErrorTexts(ns: seq<Notice>): (r: seq<string>)
    ensures |r| <= |ns|
  {
    if |ns| == 0 then []
    else (if ns[0].ErrorNotice? then [ns[0].error] else []) + ErrorTexts(ns[1..])
  }

  /** No error text equals the one reported just before it, starting from
      the remembered one. */
  predicate Fresh(previous: Option<string>, texts: seq<string>)
    decreases |texts|
  {
    |texts| == 0 || (Some(texts[0]) != previous && Fresh(Some(texts[0]), texts[1..]))
  }

  /** The last of `texts`, or `previous` when there is none. */
  function LastOr(previous: Option<string>, texts: seq<string>): Option<string> {
    if |texts| == 0 then previous else Some(texts[|texts| - 1])
  }

  // ---------------------------------------------------------------------
  // Start-up
  // ---------------------------------------------------------------------

  /** `main` before its loop: without all three settings it raises; with
      them it polls from `now` with an empty memory. */
  method Start(c: Config, now: int) returns (r: Result<State, Error>)
    ensures r.Success? <==> c.practicumToken.Some? && c.telegramToken.Some? && c.telegramChatId.Some?
    ensures r.Success? ==> r.value == State(JNull, None, now)
    ensures r.Failure? ==> r.error == MissingRequiredTokenException
  {
    var ok, _ := CheckTokens(c);
    if !ok {
      return Failure(MissingRequiredTokenException);
    }
    return Success(State(JNull, None, now));
  }

  // ---------------------------------------------------------------------
  // One pass
  // ---------------------------------------------------------------------

  /** The handler of the second `try`: the error is sent, with its prefix,
      only when its text differs from the last one reported. */
  function ReportFailure(s: State, e: Error): (r: Outcome)
    ensures r.Continued?
    ensures r.state == s.(previousError := Some(Text(e)))
    ensures |r.sent| == 1 <==> s.previousError != Some(Text(e))
    ensures |r.sent| <= 1
    ensures forall n :: n in r.sent ==> n == ErrorNotice(Text(e), ErrorPrefix + Text(e))
  {
    var text := Text(e);
    if s.previousError != Some(text) then
      Continued(s.(previousError := Some(text)), [ErrorNotice(text, ErrorPrefix + text)])
    else
      Continued(s, [])
  }

  /** The handler of the first `try`, which sends the error's own text. */
  function ReportApiFailure(s: State, e: Error): (r: Outcome)
    ensures r.Continued?
    ensures r.state == s.(previousError := Some(Text(e)))
    ensures |r.sent| == 1 <==> s.previousError != Some(Text(e))
    ensures |r.sent| <= 1
    ensures forall n :: n in r.sent ==> n == ErrorNotice(Text(e), Text(e))
  {
    var text := Text(e);
    if s.previousError != Some(text) then
      Continued(s.(previousError := Some(text)), [ErrorNotice(text, text)])
    else
      Continued(s, [])
  }

  /** The status `main` compares, when the answer passes `check_response`
      and its first homework is a record. */
  function FirstStatus(response: Json): Option<Json> {
    match CheckResponse(response)
    case Failure(_) => None
    case Success(homeworks) =>
      if homeworks[0].JObject? then Some(Field(homeworks[0], "status")) else None
  }

  /** The second `try` and its handler, for an answer the API returned. The
      remembered status is replaced before the record is parsed. */
  function Poll(s: State, response: Json): (r: Outcome)
    ensures r.Continued?
  {
    match CheckResponse(response)
    case Failure(e) => ReportFailure(s, e)
    case Success(homeworks) =>
      match Get(homeworks[0], "status")
      case Failure(e) => ReportFailure(s, Builtin(e))
      case Success(status) =>
        if PyEq(status, s.previousStatus) then Continued(s, [])
        else
          var next := s.(previousStatus := status);
          match ParseStatus(homeworks[0])
          case Failure(e) => ReportFailure(next, e)
          case Success(message) => Continued(next, [StatusNotice(message)])
  }

  /** One pass of the loop. As written, any exception from `get_api_answer`
      leaves `main`: its handler names a class nothing raises. */
  function Step(policy: Policy, s: State, reply: HttpReply): (r: Outcome)
    ensures r.Escaped? <==>
      GetApiAnswer(reply).Failure? &&
      !(policy == Corrected && GetApiAnswer(reply).error == APIResponseStatusCodeException)
    ensures r.Escaped? ==> r.error == GetApiAnswer(reply).error
    ensures r.Continued? ==> r.state.cursor == s.cursor
    ensures r.Continued? ==> |r.sent| <= 1
    ensures r.Continued? ==> ReportsFreshly(s.previousError, r.state.previousError, ErrorTexts(r.sent))
    ensures r.Continued? && r.state.previousStatus != s.previousStatus ==>
      !PyEq(r.state.previousStatus, s.previousStatus)
    ensures r.Continued? && r.sent != [] && r.sent[0].StatusNotice? ==>
      r.state.previousError == s.previousError && !PyEq(r.state.previousStatus, s.previousStatus)
  {
    match GetApiAnswer(reply)
    case Failure(e) =>
      if policy == Corrected && e == APIResponseStatusCodeException then ReportApiFailure(s, e)
      else Escaped(e)
    case Success(response) => Poll(s, response)
  }

  /** When the first homework's status equals the remembered one nothing is
      sent and nothing is remembered anew. */
  lemma StatusUnchangedIsSilent(policy: Policy, s: State, reply: HttpReply, status: Json)
    requires GetApiAnswer(reply).Success?
    requires FirstStatus(GetApiAnswer(reply).value) == Some(status)
    requires PyEq(status, s.previousStatus)
    ensures Step(policy, s, reply) == Continued(s, [])
  {
  }

  /** When the status differs it is remembered whether or not it parses;
      a documented status yields exactly one notification, which reads back
      as that status. */
  lemma StatusChangeIsRemembered(policy: Policy, s: State, reply: HttpReply, status: Json)
    requires GetApiAnswer(reply).Success?
    requires FirstStatus(GetApiAnswer(reply).value) == Some(status)
    requires !PyEq(status, s.previousStatus)
    ensures Step(policy, s, reply).Continued?
    ensures Step(policy, s, reply).state.previousStatus == status
    ensures status.JStr? && status.s in HomeworkStatuses ==>
      Step(policy, s, reply).state == s.(previousStatus := status) &&
      |Step(policy, s, reply).sent| == 1 && Step(policy, s, reply).sent[0].StatusNotice? &&
      ReadStatusMessage(Step(policy, s, reply).sent[0].text).Some? &&
      ReadStatusMessage(Step(policy, s, reply).sent[0].text).value.1 == status.s
    ensures !(status.JStr? && status.s in HomeworkStatuses) ==>
      forall n :: n in Step(policy, s, reply).sent ==> n.ErrorNotice?
  {
    var homeworks := CheckResponse(GetApiAnswer(reply).value).value;
    if status.JStr? && status.s in HomeworkStatuses {
      ParseStatusRoundTrip(homeworks[0]);
    }
  }

  /** Repeating the reply that a pass just handled changes nothing and sends
      nothing: a status or an error is reported once until it changes. */
  lemma RepeatedReplyIsSilent(policy: Policy, s: State, reply: HttpReply)
    requires Step(policy, s, reply).Continued?
    ensures Step(policy, Step(policy, s, reply).state, reply) ==
      Continued(Step(policy, s, reply).state, [])
  {
  }

  // ---------------------------------------------------------------------
  // Several passes
  // ---------------------------------------------------------------------

  /** Where a run of passes stops: still polling, or left by an exception. */
  datatype Ending = Polling(state: State) | Stopped(error: Error)

  /** Everything sent during a run, and where it ends. */
  datatype Trace = Trace(sent: seq<Notice>, ending: Ending)

  /** Passes over consecutive replies, stopping at the first exception. */
  function Run(policy: Policy, s: State, replies: seq<HttpReply>): (t: Trace)
    ensures |t.sent| <= |replies|
    ensures t.ending.Polling? ==> t.ending.state.cursor == s.cursor
    decreases |replies|
  {
    if |replies| == 0 then Trace([], Polling(s))
    else
      match Step(policy, s, replies[0])
      case Escaped(e) => Trace([], Stopped(e))
      case Continued(next, sent) =>
        var rest := Run(policy, next, replies[1..]);
        Trace(sent + rest.sent, rest.ending)
  }

  lemma {:induction false} ErrorTextsAppend(a: seq<Notice>, b: seq<Notice>)
    ensures ErrorTexts(a + b) == ErrorTexts(a) + ErrorTexts(b)
    decreases |a|
  {
    if |a| > 0 {
      var head := if a[0].ErrorNotice? then [a[0].error] else [];
      assert (a + b)[0] == a[0];
      assert (a + b)[1..] == a[1..] + b;
      ErrorTextsAppend(a[1..], b);
      calc {
        ErrorTexts(a + b);
        head + ErrorTexts(a[1..] + b);
        head + (ErrorTexts(a[1..]) + ErrorTexts(b));
        (head + ErrorTexts(a[1..])) + ErrorTexts(b);
      }
    } else {
      assert a + b == b;
    }
  }

  /** The error texts one pass reports, and the memory it leaves. */
  predicate ReportsFreshly(previous: Option<string>, next: Option<string>, texts: seq<string>) {
    if texts == [] then next == previous
    else |texts| == 1 && Some(texts[0]) != previous && next == Some(texts[0])
  }

  lemma {:induction false} FreshThroughPass(previous: Option<string>, next: Option<string>, mine: seq<string>, theirs: seq<string>)
    requires ReportsFreshly(previous, next, mine)
    requires Fresh(next, theirs)
    ensures Fresh(previous, mine + theirs)
    ensures LastOr(previous, mine + theirs) == LastOr(next, theirs)
  {
    if mine != [] {
      var all := mine + theirs;
      assert all[0] == mine[0];
      assert all[1..] == theirs;
      assert Some(all[0]) != previous && Fresh(Some(all[0]), all[1..]);
    } else {
      assert mine + theirs == theirs;
    }
  }

  /** Over any run, no error is reported twice in a row, and the loop's
      memory holds the last error it reported. */
  lemma {:induction false} RunNeverRepeatsAnError(policy: Policy, s: State, replies: seq<HttpReply>)
    ensures Fresh(s.previousError, ErrorTexts(Run(policy, s, replies).sent))
    ensures Run(policy, s, replies).ending.Polling? ==>
      Run(policy, s, replies).ending.state.previousError ==
        LastOr(s.previousError, ErrorTexts(Run(policy, s, replies).sent))
    decreases |replies|
  {
    if |replies| > 0 {
      var o := Step(policy, s, replies[0]);
      if o.Continued? {
        var rest := Run(policy, o.state, replies[1..]);
        assert Run(policy, s, replies) == Trace(o.sent + rest.sent, rest.ending);
        RunNeverRepeatsAnError(policy, o.state, replies[1..]);
        ErrorTextsAppend(o.sent, rest.sent);
        assert ReportsFreshly(s.previousError, o.state.previousError, ErrorTexts(o.sent));
        FreshThroughPass(s.previousError, o.state.previousError, ErrorTexts(o.sent), ErrorTexts(rest.sent));
      }
    }
  }

  /** `Fresh` spelt out: neighbouring error reports always differ. */
  lemma {:induction false} FreshHasNoAdjacentRepeats(previous: Option<string>, texts: seq<string>)
    requires Fresh(previous, texts)
    ensures forall i :: 0 < i < |texts| ==> texts[i] != texts[i - 1]
    ensures |texts| > 0 ==> Some(texts[0]) != previous
    decreases |texts|
  {
    if |texts| > 0 {
      FreshHasNoAdjacentRepeats(Some(texts[0]), texts[1..]);
      forall i | 0 < i < |texts|
        ensures texts[i] != texts[i - 1]
      {
        if i > 1 {
          assert texts[1..][i - 1] == texts[i] && texts[1..][i - 2] == texts[i - 1];
        }
      }
    }
  }

  /** `n` copies of one reply. */
  function Repeat(reply: HttpReply, n: nat): (rs: seq<HttpReply>)
    ensures |rs| == n
    ensures forall i :: 0 <= i < n ==> rs[i] == reply
  {
    if n == 0 then [] else [reply] + Repeat(reply, n - 1)
  }

  /** Once a reply has been handled, any number of further identical
      replies sends nothing and leaves the memory as it is. */
  lemma {:induction false} SteadyRepliesAreSilent(policy: Policy, s: State, reply: HttpReply, n: nat)
    requires Step(policy, s, reply).Continued?
    ensures Run(policy, Step(policy, s, reply).state, Repeat(reply, n)) ==
      Trace([], Polling(Step(policy, s, reply).state))
    decreases n
  {
    if n > 0 {
      var next := Step(policy, s, reply).state;
      RepeatedReplyIsSilent(policy, s, reply);
      assert Step(policy, next, reply) == Continued(next, []);
      assert Step(policy, next, reply).state == next;
      SteadyRepliesAreSilent(policy, s, reply, n - 1);
      assert Repeat(reply, n)[1..] == Repeat(reply, n - 1);
    }
  }

  // ---------------------------------------------------------------------
  // The API failure that leaves the loop
  // ---------------------------------------------------------------------

  /** As written, a reply with a status other than 200 ends `main`. */
  lemma StatusCodeFailureEscapes(s: State, code: int, json: Result<Json, string>)
    requires code != HttpOk
    ensures Step(AsWritten, s, Reply(code, json)) == Escaped(APIResponseStatusCodeException)
  {
  }

  /** A reply the client could decode, whatever its status code. */
  predicate Received(reply: HttpReply) {
    reply.Reply? && (reply.statusCode != HttpOk || reply.json.Success?)
  }

  /** With the handler catching the status-code exception, a run over
      received replies never leaves the loop and reports such failures
      at most once in a row. */
  lemma {:induction false} CorrectedRunKeepsPolling(s: State, replies: seq<HttpReply>)
    requires forall i :: 0 <= i < |replies| ==> Received(replies[i])
    ensures Run(Corrected, s, replies).ending.Polling?
    ensures Fresh(s.previousError, ErrorTexts(Run(Corrected, s, replies).sent))
    decreases |replies|
  {
    RunNeverRepeatsAnError(Corrected, s, replies);
    if |replies| > 0 {
      var o := Step(Corrected, s, replies[0]);
      assert o.Continued?;
      CorrectedRunKeepsPolling(o.state, replies[1..]);
    }
  }

  // ---------------------------------------------------------------------
  // Worked passes
  // ---------------------------------------------------------------------

  /** The first pass over an approved homework sends its one notification. */
  lemma FirstApprovedNotice(policy: Policy, now: int)
    ensures
      var record := JObject([("homework_name", JStr("task1")), ("status", JStr("approved"))]);
      var body := JObject([("homeworks", JList([record]))]);
      Step(policy, State(JNull, None, now), Reply(HttpOk, Success(body))) ==
        Continued(State(JStr("approved"), None, now),
          [StatusNotice("Изменился статус проверки работы \"" + "task1" + "\". " + "Работа проверена: ревьюеру всё понравилось. Ура!")])
  {
  }

  /** A hashable status outside the table is remembered, and the `KeyError`
      naming it is reported unless it was the last error reported. */
  lemma UnknownStatusIsReported(policy: Policy, s: State, reply: HttpReply, status: Json)
    requires GetApiAnswer(reply).Success?
    requires FirstStatus(GetApiAnswer(reply).value) == Some(status)
    requires !PyEq(status, s.previousStatus)
    requires Hashable(status) && !(status.JStr? && status.s in HomeworkStatuses)
    ensures Step(policy, s, reply) ==
      ReportFailure(s.(previousStatus := status), Builtin(KeyError(status)))
    ensures Text(Builtin(KeyError(status))) == Repr(status)
  {
  }

  /** A status such as `done` is reported as the quoted key. */
  lemma UndocumentedStatusText(policy: Policy, now: int)
    ensures
      var body := JObject([("homeworks", JList([JObject([("status", JStr("done"))])]))]);
      Step(policy, State(JNull, None, now), Reply(HttpOk, Success(body))) ==
        Continued(State(JStr("done"), Some("'done'"), now),
          [ErrorNotice("'done'", "Сбой в работе программы: " + "'done'")])
  {
    var record := JObject([("status", JStr("done"))]);
    var body := JObject([("homeworks", JList([record]))]);
    assert LastIndex(body.members, "homeworks") == 0;
    assert CheckResponse(body) == Success([record]);
    assert LastIndex(record.members, "status") == 0;
    assert ParseStatus(record) == Failure(Builtin(KeyError(JStr("done"))));
    StrReprOfPlainText("done");
    assert "'" + "done" + "'" == "'done'";
    assert Text(Builtin(KeyError(JStr("done")))) == "'done'";
    assert ReportFailure(State(JStr("done"), None, now), Builtin(KeyError(JStr("done")))) ==
      Continued(State(JStr("done"), Some("'done'"), now), [ErrorNotice("'done'", ErrorPrefix + "'done'")]);
  }

  /** An empty homework list is reported as an error, once. */
  lemma EmptyListIsReported(policy: Policy, now: int)
    ensures
      var body := JObject([("homeworks", JList([]))]);
      Step(policy, State(JNull, None, now), Reply(HttpOk, Success(body))) ==
        Continued(State(JNull, Some("Список домашних работ пуст"), now),
          [ErrorNotice("Список домашних работ пуст", "Сбой в работе программы: " + "Список домашних работ пуст")])
  {
  }

  /** A homework without a status equals the initial `None` and is never
      reported from the start. */
  lemma MissingStatusIsNeverReported(policy: Policy, now: int, name: Json)
    ensures
      var body := JObject([("homeworks", JList([JObject([("homework_name", name)])]))]);
      Step(policy, State(JNull, None, now), Reply(HttpOk, Success(body))) ==
        Continued(State(JNull, None, now), [])
  {
  }
}
