/**
 * The value `response.json()` hands to the bot, and the few Python
 * operations the bot applies to it: subscripting, `dict.get`, `len`,
 * `==`, hashing as a dict key, `str` and `repr`. Each operation returns the
 * built-in exception Python raises when it is applied to the wrong shape.
 */
module PyJson {
  import opened Wrappers

  /** A decoded JSON document. Numbers are integers; an object keeps its
      members in document order, as the dict `json.loads` builds does. */
  datatype Json =
    | JNull
    | JBool(b: bool)
    | JInt(i: int)
    | JStr(s: string)
    | JList(items: seq<Json>)
    | JObject(members: seq<(string, Json)>)

  /** Built-in exceptions raised by the operations below. */
  datatype PyError =
    | KeyError(key: Json)
    | TypeError(message: string)
    | AttributeError(message: string)

  /** `type(j).__name__` */
  function TypeName(j: Json): string {
    match j
    case JNull => "NoneType"
    case JBool(_) => "bool"
    case JInt(_) => "int"
    case JStr(_) => "str"
    case JList(_) => "list"
    case JObject(_) => "dict"
  }

  /** Position of the binding of `key` that `json.loads` keeps: the last
      one in the document; -1 when the object has no such key. */
  function LastIndex(members: seq<(string, Json)>, key: string): (r: int)
    ensures -1 <= r < |members|
    ensures r >= 0 ==> members[r].0 == key && forall j :: r < j < |members| ==> members[j].0 != key
    ensures r < 0 ==> forall j :: 0 <= j < |members| ==> members[j].0 != key
  {
    if |members| == 0 then -1
    else if members[|members| - 1].0 == key then |members| - 1
    else LastIndex(members[..|members| - 1], key)
  }

  /** The keys of an object. */
  function Keys(members: seq<(string, Json)>): set<string> {
    set i | 0 <= i < |members| :: members[i].0
  }

  /** `d[key]` on the dict built from an object's members, or `None`. */
  function Lookup(members: seq<(string, Json)>, key: string): (r: Option<Json>)
    ensures r.None? <==> key !in Keys(members)
    ensures r.Some? ==>
      exists k :: 0 <= k < |members| && members[k] == (key, r.value) &&
        forall j :: k < j < |members| ==> members[j].0 != key
  {
    var i := LastIndex(members, key);
    if i < 0 then None else Some(members[i].1)
  }

  /** Whether member `k` is the first binding of its key, which is where a
      dict places that key. */
  predicate FirstBinding(members: seq<(string, Json)>, k: int)
    requires 0 <= k < |members|
  {
    forall j :: 0 <= j < k ==> members[j].0 != members[k].0
  }

  /** `j[key]` with a string key. */
  function Subscript(j: Json, key: string): (r: Result<Json, PyError>)
    ensures r.Success? <==> j.JObject? && Lookup(j.members, key).Some?
    ensures r.Success? ==> r.value == Lookup(j.members, key).value
    ensures j.JObject? && r.Failure? ==> r.error == KeyError(JStr(key))
    ensures !j.JObject? ==> r.Failure? && r.error.TypeError?
  {
    match j
    case JObject(m) =>
      (match Lookup(m, key)
       case None => Failure(KeyError(JStr(key)))
       case Some(v) => Success(v))
    case JList(_) => Failure(TypeError("list indices must be integers or slices, not str"))
    case JStr(_) => Failure(TypeError("string indices must be integers"))
    case _ => Failure(TypeError("'" + TypeName(j) + "' object is not subscriptable"))
  }

  /** `j.get(key)`: `None` for a missing key; only dicts have the method. */
  function Get(j: Json, key: string): (r: Result<Json, PyError>)
    ensures r.Success? <==> j.JObject?
    ensures r.Success? && Lookup(j.members, key).Some? ==> r.value == Lookup(j.members, key).value
    ensures r.Success? && Lookup(j.members, key).None? ==> r.value == JNull
    ensures r.Failure? ==> r.error.AttributeError?
  {
    if j.JObject? then
      Success(match Lookup(j.members, key) case None => JNull case Some(v) => v)
    else
      Failure(AttributeError("'" + TypeName(j) + "' object has no attribute 'get'"))
  }

  /** `len(j) == 0`: strings, lists and dicts have a length, scalars raise. */
  function IsEmpty(j: Json): (r: Result<bool, PyError>)
    ensures r.Success? <==> j.JStr? || j.JList? || j.JObject?
    ensures r.Success? ==> (r.value <==> j in {JStr([]), JList([]), JObject([])})
    ensures r.Failure? ==> r.error.TypeError?
  {
    match j
    case JStr(s) => Success(|s| == 0)
    case JList(xs) => Success(|xs| == 0)
    case JObject(m) => Success(|m| == 0)
    case _ => Failure(TypeError("object of type '" + TypeName(j) + "' has no len()"))
  }

  /** Lists and dicts cannot be dict keys. */
  predicate Hashable(j: Json) {
    !j.JList? && !j.JObject?
  }

  /** The integer a Python `bool` stands for. */
  function BoolValue(b: bool): int {
    if b then 1 else 0
  }

  /** Python's `a == b` on decoded JSON: `True == 1`, lists compare element
      by element, dicts compare as key-to-value mappings in any order. */
  predicate PyEq(a: Json, b: Json)
    ensures PyEq(a, b) ==>
      TypeName(a) == TypeName(b) || {TypeName(a), TypeName(b)} == {"bool", "int"}
    decreases a
  {
    match (a, b)
    case (JNull, JNull) => true
    case (JBool(x), JBool(y)) => x == y
    case (JBool(x), JInt(y)) => BoolValue(x) == y
    case (JInt(x), JBool(y)) => x == BoolValue(y)
    case (JInt(x), JInt(y)) => x == y
    case (JStr(x), JStr(y)) => x == y
    case (JList(xs), JList(ys)) =>
      |xs| == |ys| && forall i :: 0 <= i < |xs| ==> PyEq(xs[i], ys[i])
    case (JObject(f), JObject(g)) =>
      Keys(f) == Keys(g) &&
      forall i :: 0 <= i < |f| ==>
        var x := LastIndex(f, f[i].0);
        var y := LastIndex(g, f[i].0);
        0 <= y && PyEq(f[x].1, g[y].1)
    case _ => false
  }

  /** Every decoded value equals itself under Python's `==`. */
  lemma {:induction false} PyEqReflexive(a: Json)
    ensures PyEq(a, a)
    decreases a
  {
    match a
    case JList(xs) =>
      forall i | 0 <= i < |xs|
        ensures PyEq(xs[i], xs[i])
      {
        PyEqReflexive(xs[i]);
      }
    case JObject(m) =>
      forall i | 0 <= i < |m|
        ensures PyEq(m[LastIndex(m, m[i].0)].1, m[LastIndex(m, m[i].0)].1)
      {
        PyEqReflexive(m[LastIndex(m, m[i].0)].1);
      }
    case _ =>
  }

  /** A string equals, under Python's `==`, exactly the same string. */
  lemma PyEqOnStrings(a: Json, x: string)
    ensures PyEq(JStr(x), a) <==> a == JStr(x)
    ensures PyEq(a, JStr(x)) <==> a == JStr(x)
  {
  }

  /** Decimal digits of a natural number. */
  function Digits(n: nat): (r: string)
    ensures |r| > 0
    ensures forall k :: 0 <= k < |r| ==> '0' <= r[k] <= '9'
  {
    var d := ['0', '1', '2', '3', '4', '5', '6', '7', '8', '9'][n % 10];
    if n < 10 then [d] else Digits(n / 10) + [d]
  }

  /** `str(i)` for an integer. */
  function Decimal(i: int): string {
    if i < 0 then "-" + Digits(-i) else Digits(i)
  }

  /** Two hexadecimal digits of a byte, as `repr` writes `\xhh`. */
  function Hex2(n: nat): string
    requires n < 256
  {
    var h := "0123456789abcdef";
    [h[n / 16], h[n % 16]]
  }

  /** One character inside a quoted string repr, `q` being the quote in use. */
  function EscapeChar(c: char, q: char): string {
    if c == '\\' then "\\\\"
    else if c == q then ['\\', q]
    else if c == '\t' then "\\t"
    else if c == '\n' then "\\n"
    else if c == '\r' then "\\r"
    else if c < ' ' || c as int == 0x7f then "\\x" + Hex2(c as int)
    else [c]
  }

  function EscapeAll(s: string, q: char): string {
    if |s| == 0 then "" else EscapeChar(s[0], q) + EscapeAll(s[1..], q)
  }

  /** `repr(s)`: single quotes unless the text holds a single quote and no
      double quote. */
  function StrRepr(s: string): (r: string)
    ensures |r| >= 2 && r[0] == r[|r| - 1] && r[0] in {'\'', '"'}
  {
    var q := if '\'' in s && '"' !in s then '"' else '\'';
    [q] + EscapeAll(s, q) + [q]
  }

  /** `True == 1` and `False == 0`, in either order. */
  lemma PyEqBoolInt(b: bool, i: int)
    ensures PyEq(JBool(b), JInt(i)) <==> i == (if b then 1 else 0)
    ensures PyEq(JInt(i), JBool(b)) <==> i == (if b then 1 else 0)
  {
  }

  /** Two dicts that bind every key to the same value are equal, whatever
      the order and repetition of their members. */
  lemma DictEqBySameLookups(f: seq<(string, Json)>, g: seq<(string, Json)>)
    requires forall k :: Lookup(f, k) == Lookup(g, k)
    ensures PyEq(JObject(f), JObject(g))
  {
    assert Keys(f) == Keys(g) by {
      forall k
        ensures k in Keys(f) <==> k in Keys(g)
      {
        assert Lookup(f, k) == Lookup(g, k);
      }
    }
    forall i | 0 <= i < |f|
      ensures 0 <= LastIndex(g, f[i].0) && f[LastIndex(f, f[i].0)].1 == g[LastIndex(g, f[i].0)].1
      ensures PyEq(f[LastIndex(f, f[i].0)].1, f[LastIndex(f, f[i].0)].1)
    {
      assert f[i].0 in Keys(f);
      assert Lookup(f, f[i].0) == Lookup(g, f[i].0);
      PyEqReflexive(f[LastIndex(f, f[i].0)].1);
    }
  }

  /** `{k1: v1, k2: v2} == {k2: v2, k1: v1}` for distinct keys. */
  lemma PyEqIgnoresMemberOrder(k1: string, v1: Json, k2: string, v2: Json)
    requires k1 != k2
    ensures PyEq(JObject([(k1, v1), (k2, v2)]), JObject([(k2, v2), (k1, v1)]))
  {
    var f := [(k1, v1), (k2, v2)];
    var g := [(k2, v2), (k1, v1)];
    assert f[..1] == [(k1, v1)] && g[..1] == [(k2, v2)];
    forall k
      ensures Lookup(f, k) == Lookup(g, k)
    {
      if k == k1 {
        assert LastIndex(f, k) == 0 && LastIndex(g, k) == 1;
      } else if k == k2 {
        assert LastIndex(f, k) == 1 && LastIndex(g, k) == 0;
      } else {
        assert LastIndex(f, k) < 0 && LastIndex(g, k) < 0;
      }
    }
    DictEqBySameLookups(f, g);
  }

  /** A character `repr` writes as itself inside single quotes. */
  predicate PlainChar(c: char) {
    c != '\\' && c != '\'' && c >= ' ' && c as int != 0x7f
  }

  /** A text of plain characters prints inside single quotes unchanged. */
  lemma {:induction false} StrReprOfPlainText(s: string)
    requires forall k :: 0 <= k < |s| ==> PlainChar(s[k])
    ensures StrRepr(s) == "'" + s + "'"
  {
    EscapeAllPlain(s);
  }

  lemma {:induction false} EscapeAllPlain(s: string)
    requires forall k :: 0 <= k < |s| ==> PlainChar(s[k])
    ensures EscapeAll(s, '\'') == s
    decreases |s|
  {
    if |s| > 0 {
      EscapeAllPlain(s[1..]);
      assert s == [s[0]] + s[1..];
    }
  }

  /** `sep.join(parts)` */
  function Join(parts: seq<string>, sep: string): string {
    if |parts| == 0 then ""
    else if |parts| == 1 then parts[0]
    else parts[0] + sep + Join(parts[1..], sep)
  }

  function Flatten(parts: seq<seq<string>>): seq<string> {
    if |parts| == 0 then [] else parts[0] + Flatten(parts[1..])
  }

  /** `repr(j)`; a dict lists each key once, where it first appeared, with
      the value bound last. */
  function Repr(j: Json): string
    decreases j, 1
  {
    match j
    case JNull => "None"
    case JBool(b) => if b then "True" else "False"
    case JInt(i) => Decimal(i)
    case JStr(s) => StrRepr(s)
    case JList(xs) =>
      "[" + Join(seq(|xs|, k requires 0 <= k < |xs| => Repr(xs[k])), ", ") + "]"
    case JObject(m) => "{" + Join(Flatten(DictEntries(m)), ", ") + "}"
  }

  /** What `repr` writes for each member of a dict: the key and its value at
      the key's first binding, nothing at a later binding of the same key. */
  function DictEntries(m: seq<(string, Json)>): (r: seq<seq<string>>)
    ensures |r| == |m|
    decreases JObject(m), 0
  {
    seq(|m|, k requires 0 <= k < |m| =>
      if FirstBinding(m, k) then [StrRepr(m[k].0) + ": " + Repr(m[LastIndex(m, m[k].0)].1)] else [])
  }

  /** Position of the first binding of `key`; -1 when there is none. */
  function FirstIndex(members: seq<(string, Json)>, key: string): (r: int)
    ensures -1 <= r < |members|
    ensures r >= 0 ==> members[r].0 == key && forall j :: 0 <= j < r ==> members[j].0 != key
    ensures r < 0 ==> forall j :: 0 <= j < |members| ==> members[j].0 != key
  {
    if |members| == 0 then -1
    else if members[0].0 == key then 0
    else
      var r := FirstIndex(members[1..], key);
      if r < 0 then -1 else r + 1
  }

  /** The `repr` of a dict names each key once, at its first binding, with
      the value the dict keeps for it; every other member writes nothing. */
  lemma ReprNamesEachKeyOnce(m: seq<(string, Json)>, key: string)
    requires key in Keys(m)
    ensures 0 <= FirstIndex(m, key) < |m|
    ensures DictEntries(m)[FirstIndex(m, key)] == [StrRepr(key) + ": " + Repr(Lookup(m, key).value)]
    ensures forall j :: 0 <= j < |m| && j != FirstIndex(m, key) && m[j].0 == key ==> DictEntries(m)[j] == []
  {
    var i := FirstIndex(m, key);
    assert i >= 0 by {
      var w :| 0 <= w < |m| && m[w].0 == key;
    }
    assert FirstBinding(m, i);
    forall j | 0 <= j < |m| && j != i && m[j].0 == key
      ensures DictEntries(m)[j] == []
    {
      assert i < j && m[i].0 == m[j].0;
      assert !FirstBinding(m, j);
    }
  }

  /** The dict decoded from `{k1: v1, k2: v2, k1: v3}` prints as
      `{k1: v3, k2: v2}`. */
  lemma ReprOfRepeatedKey(k1: string, k2: string, v1: Json, v2: Json, v3: Json)
    requires k1 != k2
    ensures Repr(JObject([(k1, v1), (k2, v2), (k1, v3)])) ==
      "{" + StrRepr(k1) + ": " + Repr(v3) + ", " + StrRepr(k2) + ": " + Repr(v2) + "}"
  {
    var m := [(k1, v1), (k2, v2), (k1, v3)];
    RepeatedKeyBindings(k1, k2, v1, v2, v3);
    var entries := DictEntries(m);
    var x1, x2, x3, x4 := StrRepr(k1), Repr(v3), StrRepr(k2), Repr(v2);
    var a := x1 + ": " + x2;
    var b := x3 + ": " + x4;
    assert entries[0] == [a] && entries[1] == [b] && entries[2] == [];
    assert entries == [[a], [b], []];
    assert Repr(JObject(m)) == "{" + Join(Flatten(entries), ", ") + "}";
    JoinOfTwoEntries(a, b);
    DictTextOfTwo(x1, x2, x3, x4);
  }

  lemma DictTextOfTwo(x1: string, x2: string, x3: string, x4: string)
    ensures "{" + ((x1 + ": " + x2) + ", " + (x3 + ": " + x4)) + "}" ==
      "{" + x1 + ": " + x2 + ", " + x3 + ": " + x4 + "}"
  {
  }

  lemma RepeatedKeyBindings(k1: string, k2: string, v1: Json, v2: Json, v3: Json)
    requires k1 != k2
    ensures var m := [(k1, v1), (k2, v2), (k1, v3)];
      LastIndex(m, k1) == 2 && LastIndex(m, k2) == 1 &&
      FirstBinding(m, 0) && FirstBinding(m, 1) && !FirstBinding(m, 2)
  {
    var m := [(k1, v1), (k2, v2), (k1, v3)];
    assert LastIndex(m, k2) == 1 by {
      assert m[..2] == [(k1, v1), (k2, v2)];
    }
    assert !FirstBinding(m, 2) by {
      assert m[0].0 == m[2].0;
    }
  }

  lemma JoinOfTwoEntries(a: string, b: string)
    ensures Join(Flatten([[a], [b], []]), ", ") == a + ", " + b
  {
    var parts: seq<seq<string>> := [[a], [b], []];
    assert parts[1..] == [[b], []];
    assert parts[1..][1..] == [[]];
    assert Flatten(parts[1..][1..]) == [];
    assert Flatten(parts) == [a, b];
    assert [a, b][1..] == [b];
  }

  /** `str(j)`, which is also what an f-string inserts. */
  function Str(j: Json): (r: string)
    ensures j.JStr? ==> r == j.s
    ensures j == JNull ==> r == "None"
    ensures j.JBool? ==> r == (if j.b then "True" else "False")
    ensures j.JInt? ==> r == Decimal(j.i)
    ensures j.JList? ==> |r| >= 2 && r[0] == '[' && r[|r| - 1] == ']'
    ensures j.JObject? ==> |r| >= 2 && r[0] == '{' && r[|r| - 1] == '}'
  {
    if j.JStr? then j.s else Repr(j)
  }
}
