/*
 * The part of JSON that the configuration file and the document sidecars
 * (info.json) use: strings, arrays and objects. It covers the values, the
 * accessors the loaders call (QJsonValue::toString, QVariant::toStringList),
 * a parser deciding whether a text is a JSON document (standing in for
 * QJsonDocument::fromJson), and the pieces of text the configuration
 * writer glues together, with the proof that the parser reads them back.
 */
module JsonText {
  import opened Options
  import opened Text

  datatype Json =
    | JString(s: string)
    | JArray(items: seq<Json>)
    | JObject(fields: map<string, Json>)
    | JOther  // numbers, booleans, null, and the undefined value of a missing key

  /** QJsonValue::toString: the text of a string value, "" for anything else. */
  function AsString(j: Json): string {
    if j.JString? then j.s else ""
  }

  function AsStrings(items: seq<Json>): (r: seq<string>)
    ensures |r| == |items|
    ensures forall k :: 0 <= k < |items| ==> r[k] == AsString(items[k])
  {
    seq(|items|, k requires 0 <= k < |items| => AsString(items[k]))
  }

  /** QVariant::toStringList of a value taken from QJsonObject::toVariantMap. */
  function AsStringList(j: Json): seq<string> {
    match j
    case JArray(items) => AsStrings(items)
    case JString(s) => [s]
    case _ => []
  }

  /** The array elements for a list of strings. */
  function Strings(ts: seq<string>): (r: seq<Json>)
    ensures |r| == |ts|
    ensures AsStrings(r) == ts
  {
    seq(|ts|, k requires 0 <= k < |ts| => JString(ts[k]))
  }

  /** QJsonObject::operator[]: the undefined value when the key is missing. */
  function Field(obj: map<string, Json>, key: string): Json {
    if key in obj then obj[key] else JOther
  }

  /** QJsonDocument::object: no fields unless the document is an object. */
  function ObjectOf(doc: Option<Json>): map<string, Json> {
    if doc.Some? && doc.value.JObject? then doc.value.fields else map[]
  }

  // ---------------------------------------------------------------- parser

  /** JSON whitespace. */
  predicate IsWs(c: char) {
    c == ' ' || c == '\t' || c == '\n' || c == '\r'
  }

  function SkipWs(s: string): (r: string)
    ensures |r| <= |s|
    ensures r != [] ==> !IsWs(r[0])
  {
    if s != [] && IsWs(s[0]) then SkipWs(s[1..]) else s
  }

  /** A character a string may hold as it is: no quote, no backslash
      (escapes are outside this model), no control character. */
  predicate Plain(c: char) {
    c != '"' && c != '\\' && c >= ' '
  }

  predicate PlainText(t: string) {
    forall k :: 0 <= k < |t| ==> Plain(t[k])
  }

  /** The characters of a string up to its closing quote, and what follows. */
  function ScanString(s: string): (r: Option<(string, string)>)
    ensures r.Some? ==> |r.value.1| < |s|
  {
    if s == [] then None
    else if s[0] == '"' then Some(([], s[1..]))
    else if !Plain(s[0]) then None
    else
      match ScanString(s[1..])
      case None => None
      case Some((t, rest)) => Some(([s[0]] + t, rest))
  }

  /** One value at the start of s, and the text after it. */
  function ParseValue(s: string): (r: Option<(Json, string)>)
    ensures r.Some? ==> |r.value.1| < |s|
    decreases |s|, 0
  {
    var t := SkipWs(s);
    if t == [] then None
    else if t[0] == '"' then
      match ScanString(t[1..])
      case None => None
      case Some((text, rest)) => Some((JString(text), rest))
    else if t[0] == '[' then
      var u := SkipWs(t[1..]);
      if u != [] && u[0] == ']' then Some((JArray([]), u[1..]))
      else
        match ParseElements(t[1..])
        case None => None
        case Some((items, rest)) => Some((JArray(items), rest))
    else if t[0] == '{' then
      var u := SkipWs(t[1..]);
      if u != [] && u[0] == '}' then Some((JObject(map[]), u[1..]))
      else
        match ParseMembers(t[1..])
        case None => None
        case Some((fields, rest)) => Some((JObject(fields), rest))
    else None
  }

  /** The elements of a non-empty array up to and including its ']'. */
  function ParseElements(s: string): (r: Option<(seq<Json>, string)>)
    ensures r.Some? ==> |r.value.1| < |s|
    decreases |s|, 1
  {
    match ParseValue(s)
    case None => None
    case Some((v, rest)) =>
      var u := SkipWs(rest);
      if u == [] then None
      else if u[0] == ']' then Some(([v], u[1..]))
      else if u[0] == ',' then
        match ParseElements(u[1..])
        case None => None
        case Some((vs, rest')) => Some(([v] + vs, rest'))
      else None
  }

  /** The members of a non-empty object up to and including its '}'; of two
      members with the same key the later one is kept. */
  function ParseMembers(s: string): (r: Option<(map<string, Json>, string)>)
    ensures r.Some? ==> |r.value.1| < |s|
    decreases |s|, 1
  {
    var t := SkipWs(s);
    if t == [] || t[0] != '"' then None
    else
      match ScanString(t[1..])
      case None => None
      case Some((key, rest)) =>
        var u := SkipWs(rest);
        if u == [] || u[0] != ':' then None
        else
          match ParseValue(u[1..])
          case None => None
          case Some((v, rest')) =>
            var w := SkipWs(rest');
            if w == [] then None
            else if w[0] == '}' then Some((map[key := v], w[1..]))
            else if w[0] == ',' then
              match ParseMembers(w[1..])
              case None => None
              case Some((m, rest'')) => Some((map[key := v] + m, rest''))
            else None
  }

  /** QJsonDocument::fromJson: a document is an object or an array with
      nothing but whitespace after it; anything else is the null document. */
  function ParseDocument(text: string): (r: Option<Json>)
    ensures r.Some? ==> r.value.JObject? || r.value.JArray?
  {
    match ParseValue(text)
    case None => None
    case Some((v, rest)) =>
      if SkipWs(rest) == [] && (v.JObject? || v.JArray?) then Some(v) else None
  }

  // ---------------------------------------------------------------- writer

  /** A list of strings as the configuration writer renders it between
      brackets: each quoted, joined by ", ". */
  function QuotedItems(ts: seq<string>): string {
    "\"" + Join(ts, "\", \"") + "\""
  }

  /** An array of strings; the empty list gives "[]". */
  function ArrayText(ts: seq<string>): string {
    "[" + (if ts == [] then "" else QuotedItems(ts)) + "]"
  }

  /** One object member: the quoted key, a colon and the value's text. */
  function MemberText(key: string, value: string): string {
    "\"" + key + "\":" + value
  }

  /** An object whose members' texts are joined by ", ". */
  function ObjectText(members: seq<string>): string {
    "{" + Join(members, ", ") + "}"
  }

  /** The objects whose keys are ks with the string-array values m holds. */
  function FieldsOf(ks: seq<string>, m: map<string, seq<string>>): (r: map<string, Json>)
    requires forall k :: k in ks ==> k in m
    ensures r.Keys == set k | k in ks
    ensures forall k :: k in r ==> r[k] == JArray(Strings(m[k]))
  {
    map k | k in ks :: JArray(Strings(m[k]))
  }

  // ---------------------------------------------------------------- reading back

  lemma SkipWsSpace(x: string)
    ensures SkipWs(" " + x) == SkipWs(x)
  {
    assert (" " + x)[1..] == x;
  }

  lemma {:induction false} ScanQuoted(t: string, rest: string)
    requires PlainText(t)
    ensures ScanString(t + "\"" + rest) == Some((t, rest))
  {
    var s := t + "\"" + rest;
    if t == [] {
      assert s == "\"" + rest;
      assert s[1..] == rest;
    } else {
      assert s[0] == t[0];
      assert s[1..] == t[1..] + "\"" + rest;
      ScanQuoted(t[1..], rest);
      assert [t[0]] + t[1..] == t;
    }
  }

  /** A quoted plain text reads back as that string. */
  lemma QuotedValue(t: string, rest: string)
    requires PlainText(t)
    ensures ParseValue("\"" + t + "\"" + rest) == Some((JString(t), rest))
  {
    var s := "\"" + t + "\"" + rest;
    assert SkipWs(s) == s;
    assert s[1..] == t + "\"" + rest;
    ScanQuoted(t, rest);
  }

  lemma ValueAfterSpace(x: string)
    ensures ParseValue(" " + x) == ParseValue(x)
  {
    SkipWsSpace(x);
  }

  lemma ElementsAfterSpace(x: string)
    ensures ParseElements(" " + x) == ParseElements(x)
  {
    ValueAfterSpace(x);
  }

  lemma MembersAfterSpace(x: string)
    ensures ParseMembers(" " + x) == ParseMembers(x)
  {
    SkipWsSpace(x);
  }

  lemma ElementsLast(s: string, v: Json, rest: string)
    requires ParseValue(s) == Some((v, "]" + rest))
    ensures ParseElements(s) == Some(([v], rest))
  {
    assert SkipWs("]" + rest) == "]" + rest;
  }

  lemma ElementsNext(s: string, v: Json, more: string, vs: seq<Json>, rest: string)
    requires ParseValue(s) == Some((v, ", " + more))
    requires ParseElements(more) == Some((vs, rest))
    ensures ParseElements(s) == Some(([v] + vs, rest))
  {
    var u := ", " + more;
    assert SkipWs(u) == u;
    assert u[1..] == " " + more;
    ElementsAfterSpace(more);
  }

  /** The steps of ParseMembers on a member whose key, colon and value have
      been read, when the object closes after it ... */
  lemma MemberStepLast(s: string, key: string, after: string, v: Json, rest: string)
    requires s != [] && s[0] == '"' && ScanString(s[1..]) == Some((key, after))
    requires after != [] && after[0] == ':'
    requires ParseValue(after[1..]) == Some((v, "}" + rest))
    ensures ParseMembers(s) == Some((map[key := v], rest))
  {
    assert SkipWs(s) == s;
    assert SkipWs(after) == after;
    assert SkipWs("}" + rest) == "}" + rest;
  }

  /** ... and when further members follow it. */
  lemma MemberStepNext(s: string, key: string, after: string, v: Json, more: string,
                       m: map<string, Json>, rest: string)
    requires s != [] && s[0] == '"' && ScanString(s[1..]) == Some((key, after))
    requires after != [] && after[0] == ':'
    requires ParseValue(after[1..]) == Some((v, ", " + more))
    requires ParseMembers(more) == Some((m, rest))
    ensures ParseMembers(s) == Some((map[key := v] + m, rest))
  {
    assert SkipWs(s) == s;
    assert SkipWs(after) == after;
    var w := ", " + more;
    assert SkipWs(w) == w;
    assert w[1..] == " " + more;
    MembersAfterSpace(more);
  }

  /** A member whose value does not parse: the members do not parse. */
  lemma MemberValueFails(s: string, key: string, after: string)
    requires s != [] && s[0] == '"' && ScanString(s[1..]) == Some((key, after))
    requires after != [] && after[0] == ':'
    requires ParseValue(after[1..]) == None
    ensures ParseMembers(s) == None
  {
    assert SkipWs(s) == s;
    assert SkipWs(after) == after;
  }

  /** A member followed by ", " and members that do not parse. */
  lemma MemberRestFails(s: string, key: string, after: string, v: Json, more: string)
    requires s != [] && s[0] == '"' && ScanString(s[1..]) == Some((key, after))
    requires after != [] && after[0] == ':'
    requires ParseValue(after[1..]) == Some((v, ", " + more))
    requires ParseMembers(more) == None
    ensures ParseMembers(s) == None
  {
    assert SkipWs(s) == s;
    assert SkipWs(after) == after;
    var w := ", " + more;
    assert SkipWs(w) == w;
    assert w[1..] == " " + more;
    MembersAfterSpace(more);
  }

  /** An opening brace followed by members that do not parse. */
  lemma ObjectFails(s: string)
    requires s != [] && s[0] == '"'
    requires ParseMembers(s) == None
    ensures ParseValue("{" + s) == None
  {
    var t := "{" + s;
    assert SkipWs(t) == t;
    assert t[1..] == s;
    assert SkipWs(s) == s;
  }

  /** An opening brace followed by a character no member starts with. */
  lemma NotAMember(s: string)
    requires s != [] && !IsWs(s[0]) && s[0] != '"' && s[0] != '}'
    ensures ParseValue("{" + s) == None
  {
    var t := "{" + s;
    assert SkipWs(t) == t;
    assert t[1..] == s;
    assert SkipWs(s) == s;
  }

  lemma QuotedItemsCons(ts: seq<string>)
    requires |ts| >= 2
    ensures QuotedItems(ts) == "\"" + ts[0] + "\"" + ", " + QuotedItems(ts[1..])
  {
    var j := Join(ts[1..], "\", \"");
    assert Join(ts, "\", \"") == ts[0] + "\", \"" + j;
  }

  lemma {:induction false} ItemsReadBack(ts: seq<string>, rest: string)
    requires ts != []
    requires forall t :: t in ts ==> PlainText(t)
    ensures ParseElements(QuotedItems(ts) + "]" + rest) == Some((Strings(ts), rest))
  {
    assert ts[0] in ts;
    if |ts| == 1 {
      var s := QuotedItems(ts) + "]" + rest;
      assert s == "\"" + ts[0] + "\"" + ("]" + rest);
      QuotedValue(ts[0], "]" + rest);
      ElementsLast(s, JString(ts[0]), rest);
      assert Strings(ts) == [JString(ts[0])];
    } else {
      var tail := QuotedItems(ts[1..]) + "]" + rest;
      QuotedItemsCons(ts);
      var s := QuotedItems(ts) + "]" + rest;
      assert s == "\"" + ts[0] + "\"" + (", " + tail);
      QuotedValue(ts[0], ", " + tail);
      assert forall t :: t in ts[1..] ==> t in ts;
      ItemsReadBack(ts[1..], rest);
      ElementsNext(s, JString(ts[0]), tail, Strings(ts[1..]), rest);
      assert Strings(ts) == [JString(ts[0])] + Strings(ts[1..]);
    }
  }

  /** An array of plain strings reads back as those strings. */
  lemma ArrayReadBack(ts: seq<string>, rest: string)
    requires forall t :: t in ts ==> PlainText(t)
    ensures ParseValue(ArrayText(ts) + rest) == Some((JArray(Strings(ts)), rest))
  {
    var s := ArrayText(ts) + rest;
    assert SkipWs(s) == s;
    if ts == [] {
      assert s[1..] == "]" + rest;
      assert SkipWs("]" + rest) == "]" + rest;
      assert Strings(ts) == [];
    } else {
      assert s[1..] == QuotedItems(ts) + "]" + rest;
      assert SkipWs(s[1..]) == s[1..];
      ItemsReadBack(ts, rest);
    }
  }

  /** How a member text followed by tail splits: the opening quote, the
      key, the closing quote, then the colon, the value and tail. */
  lemma MemberTextParts(key: string, value: string, tail: string)
    ensures MemberText(key, value) + tail == "\"" + key + "\"" + (":" + value + tail)
    ensures (MemberText(key, value) + tail)[1..] == key + "\"" + (":" + value + tail)
    ensures (":" + value + tail)[1..] == value + tail
  {
    var after := ":" + value + tail;
    assert MemberText(key, value) + tail == "\"" + key + "\"" + after;
    assert ("\"" + key + "\"" + after)[1..] == key + "\"" + after;
  }

  /** The last member of an object, then its closing brace. */
  lemma MemberLast(key: string, value: string, v: Json, rest: string)
    requires PlainText(key)
    requires ParseValue(value + "}" + rest) == Some((v, "}" + rest))
    ensures ParseMembers(MemberText(key, value) + "}" + rest) == Some((map[key := v], rest))
  {
    var tail := "}" + rest;
    var after := ":" + value + tail;
    var s := MemberText(key, value) + tail;
    MemberTextParts(key, value, tail);
    ScanQuoted(key, after);
    assert value + tail == value + "}" + rest;
    assert s == MemberText(key, value) + "}" + rest;
    MemberStepLast(s, key, after, v, rest);
  }

  /** The last member of an object that ends the text. */
  lemma MemberAtEnd(key: string, value: string, v: Json)
    requires PlainText(key)
    requires ParseValue(value + "}") == Some((v, "}"))
    ensures ParseMembers(MemberText(key, value) + "}") == Some((map[key := v], []))
  {
    var tail := "}";
    var after := ":" + value + tail;
    var s := MemberText(key, value) + tail;
    MemberTextParts(key, value, tail);
    ScanQuoted(key, after);
    assert "}" + [] == "}";
    MemberStepLast(s, key, after, v, []);
  }

  /** A member followed by ", " and further members. */
  lemma MemberNext(key: string, value: string, v: Json, more: string, m: map<string, Json>, rest: string)
    requires PlainText(key)
    requires ParseValue(value + ", " + more) == Some((v, ", " + more))
    requires ParseMembers(more) == Some((m, rest))
    ensures ParseMembers(MemberText(key, value) + ", " + more) == Some((map[key := v] + m, rest))
  {
    var tail := ", " + more;
    var after := ":" + value + tail;
    var s := MemberText(key, value) + tail;
    MemberTextParts(key, value, tail);
    ScanQuoted(key, after);
    assert value + tail == value + ", " + more;
    assert s == MemberText(key, value) + ", " + more;
    MemberStepNext(s, key, after, v, more, m, rest);
  }

  /** The member texts of the keys ks, each holding its string array. */
  function Members(ks: seq<string>, m: map<string, seq<string>>): (r: seq<string>)
    requires forall k :: k in ks ==> k in m
    ensures |r| == |ks|
  {
    seq(|ks|, i requires 0 <= i < |ks| => MemberText(ks[i], ArrayText(m[ks[i]])))
  }

  predicate PlainEntries(ks: seq<string>, m: map<string, seq<string>>)
    requires forall k :: k in ks ==> k in m
  {
    forall k :: k in ks ==> PlainText(k) && forall t :: t in m[k] ==> PlainText(t)
  }

  lemma FieldsOfCons(ks: seq<string>, m: map<string, seq<string>>)
    requires ks != []
    requires forall k :: k in ks ==> k in m
    ensures FieldsOf(ks, m) == FieldsOf(ks[1..], m)[ks[0] := JArray(Strings(m[ks[0]]))]
  {
    assert forall x :: x in ks <==> x == ks[0] || x in ks[1..];
  }

  lemma MembersCons(ks: seq<string>, m: map<string, seq<string>>)
    requires |ks| >= 2
    requires forall k :: k in ks ==> k in m
    ensures Members(ks[1..], m) == Members(ks, m)[1..]
    ensures Join(Members(ks, m), ", ") == MemberText(ks[0], ArrayText(m[ks[0]])) + ", " + Join(Members(ks[1..], m), ", ")
  {
    var ms := Members(ks, m);
    assert forall k :: k in ks[1..] ==> k in ks;
    var tail := Members(ks[1..], m);
    forall i | 0 <= i < |tail| ensures tail[i] == ms[1..][i] {
      assert ks[1..][i] == ks[i + 1];
    }
    assert tail == ms[1..];
    assert ms[0] == MemberText(ks[0], ArrayText(m[ks[0]]));
  }

  lemma UnionAgreeing(k: string, v: Json, f: map<string, Json>)
    requires k in f ==> f[k] == v
    ensures map[k := v] + f == f[k := v]
  {
    var l, r := map[k := v] + f, f[k := v];
    assert l.Keys == r.Keys;
    forall x | x in l ensures l[x] == r[x] {
      if x == k { assert l[x] == v; } else { assert x in f; }
    }
  }

  lemma SingleMemberReadBack(ks: seq<string>, m: map<string, seq<string>>, rest: string)
    requires |ks| == 1 && ks[0] in m
    requires PlainText(ks[0]) && forall t :: t in m[ks[0]] ==> PlainText(t)
    ensures ParseMembers(Join(Members(ks, m), ", ") + "}" + rest) == Some((FieldsOf(ks, m), rest))
  {
    var k := ks[0];
    var value := ArrayText(m[k]);
    var v := JArray(Strings(m[k]));
    assert Join(Members(ks, m), ", ") == MemberText(k, value);
    ArrayReadBack(m[k], "}" + rest);
    assert value + "}" + rest == ArrayText(m[k]) + ("}" + rest);
    MemberLast(k, value, v, rest);
    FieldsOfCons(ks, m);
    assert FieldsOf(ks[1..], m) == map[];
  }

  lemma {:induction false} MembersReadBack(ks: seq<string>, m: map<string, seq<string>>, rest: string)
    requires ks != []
    requires forall k :: k in ks ==> k in m
    requires PlainEntries(ks, m)
    ensures ParseMembers(Join(Members(ks, m), ", ") + "}" + rest) == Some((FieldsOf(ks, m), rest))
  {
    var k := ks[0];
    assert k in ks;
    var value := ArrayText(m[k]);
    var v := JArray(Strings(m[k]));
    if |ks| == 1 {
      SingleMemberReadBack(ks, m, rest);
    } else {
      var more := Join(Members(ks[1..], m), ", ") + "}" + rest;
      MembersCons(ks, m);
      assert Join(Members(ks, m), ", ") + "}" + rest == MemberText(k, value) + ", " + more;
      assert forall x :: x in ks[1..] ==> x in ks;
      MembersReadBack(ks[1..], m, rest);
      ArrayReadBack(m[k], ", " + more);
      assert value + ", " + more == ArrayText(m[k]) + (", " + more);
      MemberNext(k, value, v, more, FieldsOf(ks[1..], m), rest);
      FieldsOfCons(ks, m);
      UnionAgreeing(k, v, FieldsOf(ks[1..], m));
    }
  }

  /** An opening brace followed by members that parse is an object. */
  lemma ObjectOfMembers(s: string, m: map<string, Json>, rest: string)
    requires s != [] && s[0] == '"'
    requires ParseMembers(s) == Some((m, rest))
    ensures ParseValue("{" + s) == Some((JObject(m), rest))
  {
    var t := "{" + s;
    assert SkipWs(t) == t;
    assert t[1..] == s;
    assert SkipWs(s) == s;
  }

  /** An object of string arrays, keyed by plain names, reads back as those
      arrays under those names. */
  lemma ObjectReadBack(ks: seq<string>, m: map<string, seq<string>>, rest: string)
    requires forall k :: k in ks ==> k in m
    requires PlainEntries(ks, m)
    ensures ParseValue(ObjectText(Members(ks, m)) + rest) == Some((JObject(FieldsOf(ks, m)), rest))
  {
    var ms := Members(ks, m);
    if ks == [] {
      EmptyObjectReadBack(rest);
      assert ObjectText(ms) == "{}";
      assert FieldsOf(ks, m) == map[];
    } else {
      var body := Join(ms, ", ") + "}" + rest;
      assert ObjectText(ms) + rest == "{" + body;
      assert ms[0][0] == '"';
      assert Join(ms, ", ")[0] == ms[0][0];
      MembersReadBack(ks, m, rest);
      ObjectOfMembers(body, FieldsOf(ks, m), rest);
    }
  }

  /** "{}" reads as the empty object. */
  lemma EmptyObjectReadBack(rest: string)
    ensures ParseValue("{}" + rest) == Some((JObject(map[]), rest))
  {
    var s := "{}" + rest;
    assert SkipWs(s) == s;
    assert s[1..] == "}" + rest;
    assert SkipWs("}" + rest) == "}" + rest;
    assert ("}" + rest)[1..] == rest;
  }
}
