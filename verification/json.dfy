/** Encoding of a parsed record as a JSON object, as `json.Marshal` does for
    a `map[string]interface{}` holding strings and ints: members in
    ascending key order, strings quoted, integers in decimal. */
module JsonDoc {
  import opened Results
  import opened Strings
  import opened Numbers
  import opened StringOrder
  import opened LineParser

  /** The two characters that must be escaped inside a JSON string. */
  function EscapeChar(c: char): string
  {
    if c == '"' then ['\\', '"']
    else if c == '\\' then ['\\', '\\']
    else [c]
  }

  function Escape(s: string): string
  {
    if |s| == 0 then "" else EscapeChar(s[0]) + Escape(s[1..])
  }

  /** Reads an escaped string back: a backslash takes the next character
      literally. The partner of `Escape`. */
  function Unescape(t: string): string
  {
    if |t| == 0 then ""
    else if t[0] == '\\' && |t| >= 2 then [t[1]] + Unescape(t[2..])
    else [t[0]] + Unescape(t[1..])
  }

  /** Escaping loses nothing: every string value can be recovered from its
      encoded form. */
  lemma {:induction false} UnescapeEscape(s: string)
    ensures Unescape(Escape(s)) == s
  {
    if |s| > 0 {
      UnescapeEscape(s[1..]);
      var t := Escape(s);
      assert t == EscapeChar(s[0]) + Escape(s[1..]);
      if s[0] == '"' || s[0] == '\\' {
        assert t[2..] == Escape(s[1..]);
      } else {
        assert t[1..] == Escape(s[1..]);
      }
      assert s == [s[0]] + s[1..];
    }
  }

  /** Text without quotes or backslashes is written as it is. */
  lemma {:induction false} EscapePlain(s: string)
    requires '"' !in s && '\\' !in s
    ensures Escape(s) == s
  {
    if |s| > 0 {
      assert forall c :: c in s[1..] ==> c in s;
      EscapePlain(s[1..]);
      assert s == [s[0]] + s[1..];
    }
  }

  function Quote(s: string): string
  {
    "\"" + Escape(s) + "\""
  }

  function RenderValue(v: Value): string
  {
    match v
    case Str(text) => Quote(text)
    case Int(n) => Itoa(n)
  }

  /** The comma-separated `"key":value` members for the given keys, in the
      given order. */
  function Members(keys: seq<string>, r: Record): string
    requires forall i :: 0 <= i < |keys| ==> keys[i] in r
  {
    if |keys| == 0 then ""
    else
      var member := Quote(keys[0]) + ":" + RenderValue(r[keys[0]]);
      if |keys| == 1 then member else member + "," + Members(keys[1..], r)
  }

  /** The text of each member, key by key: the quoted key, a colon, and the
      rendered value the record binds it to. */
  function MemberTexts(keys: seq<string>, r: Record): (texts: seq<string>)
    requires forall i :: 0 <= i < |keys| ==> keys[i] in r
    ensures |texts| == |keys|
    ensures forall i :: 0 <= i < |keys| ==> texts[i] == Quote(keys[i]) + ":" + RenderValue(r[keys[i]])
  {
    seq(|keys|, i requires 0 <= i < |keys| => Quote(keys[i]) + ":" + RenderValue(r[keys[i]]))
  }

  /** The members of the document are exactly one `"key":value` text per
      key, in the given order, separated by commas. */
  lemma {:induction false} MembersJoin(keys: seq<string>, r: Record)
    requires forall i :: 0 <= i < |keys| ==> keys[i] in r
    ensures Members(keys, r) == Join(MemberTexts(keys, r), ',')
  {
    if |keys| > 1 {
      var texts := MemberTexts(keys, r);
      assert texts == [texts[0]] + MemberTexts(keys[1..], r);
      MembersJoin(keys[1..], r);
      JoinCons(texts[0], MemberTexts(keys[1..], r), ',');
    }
  }

  /** `json.Marshal` of the record: members in ascending key order. */
  function Marshal(r: Record): (doc: string)
    ensures |doc| >= 2 && doc[0] == '{' && doc[|doc| - 1] == '}'
    ensures doc == "{}" <==> |r| == 0
  {
    var keys := SortedKeys(r.Keys);
    assert forall i :: 0 <= i < |keys| ==> keys[i] in r;
    "{" + Members(keys, r) + "}"
  }

  /** The member order of `Marshal`: the record's keys, each once, strictly
      ascending, and no other listing of them has that property. */
  lemma MarshalKeyOrder(r: Record, keys: seq<string>)
    requires StrictlySorted(keys)
    requires forall k :: k in keys <==> k in r
    ensures forall i :: 0 <= i < |keys| ==> keys[i] in r
    ensures Marshal(r) == "{" + Members(keys, r) + "}"
  {
    SortedUnique(keys, SortedKeys(r.Keys));
  }

  /** `logLineToJson` as a whole: the decoded record, encoded; or the error
      of the first rejected token. `json.Marshal` cannot fail on a map of
      strings and ints, so that error path of the source never fires. */
  function ToJson(line: string, numeric: set<string>): (r: Result<string, ParseError>)
    ensures r.Ok? <==> AllWellFormed(Split(line, FieldSeparator), numeric)
    ensures r.Ok? ==> |r.value| > 2 && r.value[0] == '{' && r.value[|r.value| - 1] == '}'
  {
    match Parse(line, numeric)
    case Ok(data) => Ok(Marshal(data))
    case Err(e) => Err(e)
  }

  /** Exactly one of: an error and no document, or a document and no error;
      the document exactly when every token is well formed. */
  lemma ToJsonOutcome(line: string, numeric: set<string>)
    ensures ToJson(line, numeric).Ok? <==> AllWellFormed(Split(line, FieldSeparator), numeric)
    ensures ToJson(line, numeric).Ok? ==>
              Parse(line, numeric).Ok? && ToJson(line, numeric).value == Marshal(Parse(line, numeric).value)
    ensures ToJson(line, numeric).Err? ==> Parse(line, numeric) == Err(ToJson(line, numeric).error)
  {
    ParseMeaning(line, numeric);
  }

  /** The Go loop of `logLineToJson`, statement by statement: split on tabs,
      cut each field at its first colon, convert numeric values, return on
      the first error with no document. */
  method LogLineToJson(line: string, numeric: set<string>) returns (r: Result<string, ParseError>)
    ensures r == ToJson(line, numeric)
  {
    var data: Record := map[];
    var fields := Split(line, FieldSeparator);
    var i := 0;
    while i < |fields|
      invariant 0 <= i <= |fields|
      invariant ParseFields(fields[..i], numeric) == Ok(data)
    {
      ParseFieldsPrefix(fields, numeric, i);
      var values := Cut(fields[i], KeySeparator);
      if values.None? {
        assert ParseField(fields[i], numeric) == Err(MissingColon(fields[i]));
        ParseFieldsErrSticky(fields, numeric, i + 1, MissingColon(fields[i]));
        return Err(MissingColon(fields[i]));
      }
      var (key, value) := values.value;
      if key !in numeric {
        assert ParseField(fields[i], numeric) == Ok((key, Str(value)));
        data := data[key := Str(value)];
      } else {
        var num := Atoi(value);
        if num.None? {
          assert ParseField(fields[i], numeric) == Err(NotAnInteger(key, value));
          ParseFieldsErrSticky(fields, numeric, i + 1, NotAnInteger(key, value));
          return Err(NotAnInteger(key, value));
        }
        assert ParseField(fields[i], numeric) == Ok((key, Int(num.value)));
        data := data[key := Int(num.value)];
      }
      i := i + 1;
    }
    assert fields[..i] == fields;
    assert Parse(line, numeric) == Ok(data);
    return Ok(Marshal(data));
  }
}
