/**
 * The decision logic of the bot's script: what it makes of the API's
 * answer, of one homework record and of its configuration.
 */
module Homework {
  import opened Wrappers
  import opened PyJson
  import opened Exceptions

  const Approved := "Работа проверена: ревьюеру всё понравилось. Ура!"
  const Reviewing := "Работа взята на проверку ревьюером."
  const Rejected := "Работа проверена: у ревьюера есть замечания."

  /** The verdict sentence of each review status the API documents. */
  const HomeworkStatuses: map<string, string> :=
    map["approved" := Approved, "reviewing" := Reviewing, "rejected" := Rejected]

  /** The one explicit message `check_response` raises with. */
  const EmptyListMessage := "Список домашних работ пуст"

  /** Start of every status notification, up to the opening quote. */
  const StatusChangedPrefix := "Изменился статус проверки работы \""

  /** Between the homework's name and its verdict. */
  const NameVerdictSeparator := "\". "

  const HttpOk := 200

  // ---------------------------------------------------------------------
  // get_api_answer
  // ---------------------------------------------------------------------

  /** What the HTTP client reports for one request: a reply with its status
      code and its body decoded by `response.json()` (or the decoder's
      error), or a failure to reach the server at all. */
  datatype HttpReply =
    | Reply(statusCode: int, json: Result<Json, string>)
    | ConnectionFailure(message: string)

  /** The answer `get_api_answer` returns, or the exception it raises. A
      status other than 200 raises the bot's own status-code exception; a
      client or decoder failure passes through unchanged. */
  function GetApiAnswer(reply: HttpReply): (r: Result<Json, Error>)
    ensures r.Success? <==> reply.Reply? && reply.statusCode == HttpOk && reply.json.Success?
    ensures r.Success? ==> r.value == reply.json.value
    ensures reply.Reply? && reply.statusCode != HttpOk ==> r == Failure(APIResponseStatusCodeException)
    ensures r.Failure? ==> r.error.APIResponseStatusCodeException? || r.error.RequestException?
  {
    match reply
    case ConnectionFailure(m) => Failure(RequestException(m))
    case Reply(code, json) =>
      if code != HttpOk then Failure(APIResponseStatusCodeException)
      else
        match json
        case Failure(m) => Failure(RequestException(m))
        case Success(body) => Success(body)
  }

  // ---------------------------------------------------------------------
  // check_response
  // ---------------------------------------------------------------------

  /** The `homeworks` member of an answer that is an object, if it has one. */
  function HomeworksMember(response: Json): Option<Json> {
    if response.JObject? then Lookup(response.members, "homeworks") else None
  }

  /** The homework list of an answer. The checks run in the script's order:
      the key, then `None`, then emptiness (so an empty string or dict is
      reported as an empty list), then the list type. */
  function CheckResponse(response: Json): (r: Result<seq<Json>, Error>)
    ensures r.Success? <==>
      HomeworksMember(response).Some? && HomeworksMember(response).value.JList? &&
      |HomeworksMember(response).value.items| > 0
    ensures r.Success? ==> HomeworksMember(response) == Some(JList(r.value))
    ensures !response.JObject? ==> r.Failure? && r.error.Builtin? && r.error.error.TypeError?
    ensures response.JObject? && "homeworks" !in Keys(response.members) ==>
      r == Failure(CheckResponseException(""))
    ensures HomeworksMember(response) == Some(JNull) ==> r == Failure(CheckResponseException(""))
    ensures HomeworksMember(response) in {Some(JStr([])), Some(JList([])), Some(JObject([]))} ==>
      r == Failure(CheckResponseException(EmptyListMessage))
    ensures HomeworksMember(response).Some? && HomeworksMember(response).value.JStr? &&
      |HomeworksMember(response).value.s| > 0
      ==> r == Failure(CheckResponseException(""))
    ensures HomeworksMember(response).Some? && HomeworksMember(response).value.JObject? &&
      |HomeworksMember(response).value.members| > 0
      ==> r == Failure(CheckResponseException(""))
    ensures HomeworksMember(response).Some? && (HomeworksMember(response).value.JInt? || HomeworksMember(response).value.JBool?) ==>
      r.Failure? && r.error.Builtin? && r.error.error.TypeError?
  {
    match Subscript(response, "homeworks")
    case Failure(KeyError(_)) => Failure(CheckResponseException(""))
    case Failure(e) => Failure(Builtin(e))
    case Success(homeworks) =>
      if homeworks == JNull then Failure(CheckResponseException(""))
      else
        match IsEmpty(homeworks)
        case Failure(e) => Failure(Builtin(e))
        case Success(empty) =>
          if empty then Failure(CheckResponseException(EmptyListMessage))
          else if !homeworks.JList? then Failure(CheckResponseException(""))
          else Success(homeworks.items)
  }

  /** An answer whose `homeworks` member is a non-empty list yields exactly
      that list, whatever else the answer holds and wherever the member is. */
  lemma CheckResponseReturnsList(before: seq<(string, Json)>, after: seq<(string, Json)>, list: seq<Json>)
    requires |list| > 0
    requires "homeworks" !in Keys(after)
    ensures CheckResponse(JObject(before + [("homeworks", JList(list))] + after)) == Success(list)
  {
    var m := before + [("homeworks", JList(list))] + after;
    assert m[|before|].0 == "homeworks";
    forall j | |before| < j < |m|
      ensures m[j].0 != "homeworks"
    {
      assert m[j] == after[j - |before| - 1];
    }
  }

  // ---------------------------------------------------------------------
  // parse_status
  // ---------------------------------------------------------------------

  /** `HOMEWORK_STATUSES[status]`: a list or dict cannot be a key at all,
      any other value that is not a documented status raises `KeyError`. */
  function VerdictFor(status: Json): (r: Result<string, Error>)
    ensures r.Success? <==> status.JStr? && status.s in HomeworkStatuses
    ensures r.Success? ==> r.value == HomeworkStatuses[status.s]
    ensures !Hashable(status) ==> r.Failure? && r.error.Builtin? && r.error.error.TypeError?
    ensures Hashable(status) && r.Failure? ==> r.error == Builtin(KeyError(status))
  {
    if !Hashable(status) then
      Failure(Builtin(TypeError("unhashable type: '" + TypeName(status) + "'")))
    else if status.JStr? && status.s in HomeworkStatuses then
      Success(HomeworkStatuses[status.s])
    else
      Failure(Builtin(KeyError(status)))
  }

  /** A member of a homework record as `homework.get(key)` reads it. */
  function Field(homework: Json, key: string): Json
    requires homework.JObject?
  {
    Get(homework, key).value
  }

  /** The notification for a homework, given the text its name prints as. */
  function StatusMessage(name: string, verdict: string): string {
    StatusChangedPrefix + name + NameVerdictSeparator + verdict
  }

  /** The notification for one homework record. A missing name prints as
      `None`; a status outside the table raises at the lookup, so the
      `UnknownHWStatusException` branch after it never runs. */
  function ParseStatus(homework: Json): (r: Result<string, Error>)
    ensures r.Success? <==>
      homework.JObject? && Field(homework, "status").JStr? && Field(homework, "status").s in HomeworkStatuses
    ensures r.Success? ==>
      r.value == StatusMessage(Str(Field(homework, "homework_name")), HomeworkStatuses[Field(homework, "status").s])
    ensures r.Success? && "homework_name" !in Keys(homework.members) ==>
      r.value == StatusMessage("None", HomeworkStatuses[Field(homework, "status").s])
    ensures !homework.JObject? ==> r.Failure? && r.error.Builtin? && r.error.error.AttributeError?
    ensures homework.JObject? && Hashable(Field(homework, "status")) && r.Failure? ==>
      r.error == Builtin(KeyError(Field(homework, "status")))
    ensures r.Failure? ==> !r.error.UnknownHWStatusException?
  {
    match Get(homework, "homework_name")
    case Failure(e) => Failure(Builtin(e))
    case Success(name) =>
      var status := Get(homework, "status").value;
      match VerdictFor(status)
      case Failure(e) => Failure(e)
      case Success(verdict) => Success(StatusMessage(Str(name), verdict))
  }

  predicate EndsWith(m: string, suffix: string) {
    |suffix| <= |m| && m[|m| - |suffix|..] == suffix
  }

  /** Reads a status notification back: the text of the homework's name
      and the status whose verdict closes it. */
  function ReadStatusMessage(m: string): (r: Option<(string, string)>)
    ensures r.Some? ==> r.value.1 in HomeworkStatuses
    ensures r.Some? ==> m == StatusMessage(r.value.0, HomeworkStatuses[r.value.1])
  {
    var status := ClosingStatus(m);
    var verdict := HomeworkStatuses[status];
    var p := |StatusChangedPrefix|;
    var e := |m| - |verdict| - |NameVerdictSeparator|;
    if p <= e && m[..p] == StatusChangedPrefix && m[e..|m| - |verdict|] == NameVerdictSeparator
       && EndsWith(m, verdict)
    then
      var name := m[p..e];
      SplitInFour(m, p, e, |m| - |verdict|);
      Some((name, status))
    else None
  }

  lemma SplitInFour(m: string, p: int, e: int, f: int)
    requires 0 <= p <= e <= f <= |m|
    ensures m == m[..p] + m[p..e] + m[e..f] + m[f..]
  {
  }

  /** The status whose verdict a notification ends in, trying the table's
      verdicts in turn. */
  function ClosingStatus(m: string): (r: string)
    ensures r in HomeworkStatuses
  {
    if EndsWith(m, Approved) then "approved"
    else if EndsWith(m, Reviewing) then "reviewing"
    else "rejected"
  }

  /** The last two characters of a text of at least two. */
  function LastTwo(v: string): string
    requires |v| >= 2
  {
    v[|v| - 2..]
  }

  /** The three verdicts already differ in their last two characters. */
  lemma VerdictEndingsDiffer(s: string, t: string)
    requires s in HomeworkStatuses && t in HomeworkStatuses && s != t
    ensures |HomeworkStatuses[s]| >= 2 && |HomeworkStatuses[t]| >= 2
    ensures LastTwo(HomeworkStatuses[s]) != LastTwo(HomeworkStatuses[t])
  {
  }

  /** A message ending in one verdict does not end in another one. */
  lemma VerdictsTellApart(x: string, s: string, t: string)
    requires s in HomeworkStatuses && t in HomeworkStatuses
    requires EndsWith(x + HomeworkStatuses[s], HomeworkStatuses[t])
    ensures s == t
  {
    var v := HomeworkStatuses[s];
    var w := HomeworkStatuses[t];
    if s != t && |v| >= 2 && |w| >= 2 {
      var m := x + v;
      assert LastTwo(m) == LastTwo(v);
      assert LastTwo(m) == LastTwo(w) by {
        assert m[|m| - |w|..] == w;
        assert LastTwo(m) == m[|m| - |w|..][|w| - 2..];
      }
      VerdictEndingsDiffer(s, t);
    } else if s != t {
      VerdictEndingsDiffer(s, t);
    }
  }

  /** A message closing with a verdict is attributed to that verdict's
      status. */
  lemma ClosingStatusOfVerdict(x: string, status: string)
    requires status in HomeworkStatuses
    ensures ClosingStatus(x + HomeworkStatuses[status]) == status
  {
    var m := x + HomeworkStatuses[status];
    if EndsWith(m, Approved) {
      VerdictsTellApart(x, status, "approved");
    } else if EndsWith(m, Reviewing) {
      VerdictsTellApart(x, status, "reviewing");
    } else {
      assert m[|m| - |HomeworkStatuses[status]|..] == HomeworkStatuses[status];
    }
  }

  /** Reading a notification back gives the name text and the status it
      was made from. */
  lemma ReadStatusMessageOfNotification(name: string, status: string)
    requires status in HomeworkStatuses
    ensures ReadStatusMessage(StatusMessage(name, HomeworkStatuses[status])) == Some((name, status))
  {
    var verdict := HomeworkStatuses[status];
    var m := StatusMessage(name, verdict);
    var x := StatusChangedPrefix + name + NameVerdictSeparator;
    assert m == x + verdict;
    ClosingStatusOfVerdict(x, status);
    var p := |StatusChangedPrefix|;
    var e := |m| - |verdict| - |NameVerdictSeparator|;
    assert m[..p] == StatusChangedPrefix;
    assert m[e..|m| - |verdict|] == NameVerdictSeparator;
    assert m[|m| - |verdict|..] == verdict;
    assert m[p..e] == name;
  }

  /** Reading back the notification of a homework record gives its name
      text and its status, so distinct statuses never yield the same
      notification. */
  lemma ParseStatusRoundTrip(homework: Json)
    requires ParseStatus(homework).Success?
    ensures ReadStatusMessage(ParseStatus(homework).value) ==
      Some((Str(Field(homework, "homework_name")), Field(homework, "status").s))
  {
    ReadStatusMessageOfNotification(Str(Field(homework, "homework_name")), Field(homework, "status").s);
  }

  /** Two homework records that parse to the same notification have the
      same status. */
  lemma ParseStatusDistinguishesStatuses(h1: Json, h2: Json)
    requires ParseStatus(h1).Success? && ParseStatus(h2).Success?
    requires ParseStatus(h1) == ParseStatus(h2)
    ensures Field(h1, "status") == Field(h2, "status")
  {
    ParseStatusRoundTrip(h1);
    ParseStatusRoundTrip(h2);
  }

  // ---------------------------------------------------------------------
  // check_tokens
  // ---------------------------------------------------------------------

  /** The three settings the script reads from its environment; `None` is
      an unset variable (an empty one is present). */
  datatype Config = Config(
    practicumToken: Option<string>,
    telegramToken: Option<string>,
    telegramChatId: Option<string>)

  const TokenNames: seq<string> := ["PRACTICUM_TOKEN", "TELEGRAM_TOKEN", "TELEGRAM_CHAT_ID"]

  /** `globals()[name]` for one of the three setting names. */
  function Setting(c: Config, name: string): Option<string> {
    if name == TokenNames[0] then c.practicumToken
    else if name == TokenNames[1] then c.telegramToken
    else c.telegramChatId
  }

  /** Walks the setting names in order and stops at the first unset one,
      which is also the one its error log names. */
  method CheckTokens(c: Config) returns (ok: bool, missing: Option<string>)
    ensures ok <==> c.practicumToken.Some? && c.telegramToken.Some? && c.telegramChatId.Some?
    ensures ok <==> missing.None?
    ensures missing.Some? ==>
      exists k :: 0 <= k < |TokenNames| && missing.value == TokenNames[k] &&
        Setting(c, TokenNames[k]).None? &&
        forall j :: 0 <= j < k ==> Setting(c, TokenNames[j]).Some?
  {
    var k := 0;
    while k < |TokenNames|
      invariant 0 <= k <= |TokenNames|
      invariant forall j :: 0 <= j < k ==> Setting(c, TokenNames[j]).Some?
    {
      if Setting(c, TokenNames[k]).None? {
        return false, Some(TokenNames[k]);
      }
      k := k + 1;
    }
    assert Setting(c, TokenNames[0]).Some? && Setting(c, TokenNames[1]).Some? && Setting(c, TokenNames[2]).Some?;
    return true, None;
  }
}
