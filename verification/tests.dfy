/** The scenarios of json_test.go and atskafka_test.go, and a few reconnect
    scenarios, stated as facts about the model. */
module SourceTests {
  import opened Results
  import opened Strings
  import opened Numbers
  import opened StringOrder
  import opened LineParser
  import opened JsonDoc
  import opened Reader
  import opened Worker

  /** A token `key:text` is decoded from its first colon on. */
  lemma FieldToken(key: string, text: string, numeric: set<string>)
    requires KeySeparator !in key
    ensures key !in numeric ==> ParseField(key + ":" + text, numeric) == Ok((key, Str(text)))
    ensures key in numeric && Atoi(text).Some? ==>
              ParseField(key + ":" + text, numeric) == Ok((key, Int(Atoi(text).value)))
    ensures key in numeric && Atoi(text).None? ==>
              ParseField(key + ":" + text, numeric) == Err(NotAnInteger(key, text))
  {
    assert [KeySeparator] == ":";
    CutAtFirst(key, KeySeparator, text);
  }

  /** A quoted name without quotes or backslashes is the name between quotes. */
  lemma QuotePlain(s: string)
    requires '"' !in s && '\\' !in s
    ensures Quote(s) == "\"" + s + "\""
  {
    EscapePlain(s);
  }

  lemma Itoa1235()
    ensures Itoa(1235) == "1235"
  {
    assert NatToDigits(1) == "1";
    assert NatToDigits(12) == NatToDigits(1) + "2";
    assert NatToDigits(123) == NatToDigits(12) + "3";
    assert NatToDigits(1235) == NatToDigits(123) + "5";
  }

  /** `strconv.Atoi("1235")` is 1235. */
  lemma Atoi1235()
    ensures Atoi("1235") == Some(1235)
  {
    Itoa1235();
    AtoiItoa(1235);
  }

  const HostToken: string := "hostname" + ":" + "cp3050.esams.wmnet"
  const FirstByteToken: string := "time_firstbyte" + ":" + "1235"
  const MethodToken: string := "http_method" + ":" + "GET"
  const UriHostToken: string := "uri_host" + ":" + "en.wikipedia.org"

  /** The line of TestLogLineToJsonOK, token by token. */
  const OkLine: string := HostToken + "\t" + (FirstByteToken + "\t" + (MethodToken + "\t" + UriHostToken))

  const OkRecord: Record :=
    map["hostname" := Str("cp3050.esams.wmnet"), "time_firstbyte" := Int(1235),
        "http_method" := Str("GET"), "uri_host" := Str("en.wikipedia.org")]

  const HostMember: string := "\"" + "hostname" + "\"" + ":" + "\"" + "cp3050.esams.wmnet" + "\""
  const MethodMember: string := "\"" + "http_method" + "\"" + ":" + "\"" + "GET" + "\""
  const FirstByteMember: string := "\"" + "time_firstbyte" + "\"" + ":" + "1235"
  const UriHostMember: string := "\"" + "uri_host" + "\"" + ":" + "\"" + "en.wikipedia.org" + "\""

  /** The document TestLogLineToJsonOK expects, member by member. */
  const OkDoc: string :=
    "{" + HostMember + "," + MethodMember + "," + FirstByteMember + "," + UriHostMember + "}"

  /** One more token is one more turn of the loop. */
  lemma ParseSnoc(tokens: seq<string>, token: string, numeric: set<string>)
    ensures ParseFields(tokens + [token], numeric) == Extend(ParseFields(tokens, numeric), token, numeric)
  {
    assert (tokens + [token])[..|tokens|] == tokens;
  }

  lemma SplitTwo(c: string, d: string)
    requires FieldSeparator !in c && FieldSeparator !in d
    ensures Split(c + "\t" + d, FieldSeparator) == [c, d]
  {
    assert Split(d, FieldSeparator) == [d];
    SplitAfterPiece(c, FieldSeparator, d);
  }

  lemma SplitCons(a: string, rest: string, tail: seq<string>)
    requires FieldSeparator !in a
    requires Split(rest, FieldSeparator) == tail
    ensures Split(a + "\t" + rest, FieldSeparator) == [a] + tail
  {
    SplitAfterPiece(a, FieldSeparator, rest);
  }

  lemma SplitThree(b: string, cd: string, c: string, d: string)
    requires FieldSeparator !in b
    requires Split(cd, FieldSeparator) == [c, d]
    ensures Split(b + "\t" + cd, FieldSeparator) == [b, c, d]
  {
    SplitCons(b, cd, [c, d]);
  }

  /** `strings.Split` on tabs of four tab-free pieces joined by tabs. */
  lemma SplitFour(a: string, b: string, c: string, d: string)
    requires FieldSeparator !in a && FieldSeparator !in b && FieldSeparator !in c && FieldSeparator !in d
    ensures Split(a + "\t" + (b + "\t" + (c + "\t" + d)), FieldSeparator) == [a, b, c, d]
  {
    var cd := c + "\t" + d;
    var bcd := b + "\t" + cd;
    SplitTwo(c, d);
    SplitThree(b, cd, c, d);
    SplitCons(a, bcd, [b, c, d]);
  }

  lemma OkLineTokens()
    ensures Split(OkLine, FieldSeparator) == [HostToken, FirstByteToken, MethodToken, UriHostToken]
  {
    SplitFour(HostToken, FirstByteToken, MethodToken, UriHostToken);
  }

  /** The loop over four tokens, unrolled. */
  lemma ParseFour(a: string, b: string, c: string, d: string, numeric: set<string>)
    ensures ParseFields([a, b, c, d], numeric) ==
              Extend(Extend(Extend(Extend(Ok(map[]), a, numeric), b, numeric), c, numeric), d, numeric)
  {
    assert [a] == [] + [a];
    ParseSnoc([], a, numeric);
    assert [a, b] == [a] + [b];
    ParseSnoc([a], b, numeric);
    assert [a, b, c] == [a, b] + [c];
    ParseSnoc([a, b], c, numeric);
    assert [a, b, c, d] == [a, b, c] + [d];
    ParseSnoc([a, b, c], d, numeric);
  }

  lemma HostField()
    ensures ParseField(HostToken, {"time_firstbyte"}) == Ok(("hostname", Str("cp3050.esams.wmnet")))
  {
    FieldToken("hostname", "cp3050.esams.wmnet", {"time_firstbyte"});
  }

  lemma FirstByteField()
    ensures ParseField(FirstByteToken, {"time_firstbyte"}) == Ok(("time_firstbyte", Int(1235)))
  {
    Atoi1235();
    FieldToken("time_firstbyte", "1235", {"time_firstbyte"});
  }

  lemma MethodField()
    ensures ParseField(MethodToken, {"time_firstbyte"}) == Ok(("http_method", Str("GET")))
  {
    FieldToken("http_method", "GET", {"time_firstbyte"});
  }

  lemma UriHostField()
    ensures ParseField(UriHostToken, {"time_firstbyte"}) == Ok(("uri_host", Str("en.wikipedia.org")))
  {
    FieldToken("uri_host", "en.wikipedia.org", {"time_firstbyte"});
  }

  lemma OkLineRecord()
    ensures Parse(OkLine, {"time_firstbyte"}) == Ok(OkRecord)
  {
    var numeric := {"time_firstbyte"};
    OkLineTokens();
    ParseFour(HostToken, FirstByteToken, MethodToken, UriHostToken, numeric);
    HostField();
    FirstByteField();
    MethodField();
    UriHostField();
    var r1 := Extend(Ok(map[]), HostToken, numeric);
    assert r1 == Ok(map["hostname" := Str("cp3050.esams.wmnet")]);
    var r2 := Extend(r1, FirstByteToken, numeric);
    assert r2 == Ok(map["hostname" := Str("cp3050.esams.wmnet"), "time_firstbyte" := Int(1235)]);
    var r3 := Extend(r2, MethodToken, numeric);
    assert r3 == Ok(map["hostname" := Str("cp3050.esams.wmnet"), "time_firstbyte" := Int(1235),
                        "http_method" := Str("GET")]);
    assert Extend(r3, UriHostToken, numeric) == Ok(OkRecord);
  }

  const OkKeys: seq<string> := ["hostname", "http_method", "time_firstbyte", "uri_host"]

  lemma OkKeysSorted()
    ensures StrictlySorted(OkKeys)
  {
    assert Less("hostname", "http_method") by {
      assert "hostname"[1..] == "ostname" && "http_method"[1..] == "ttp_method";
    }
    assert Less("http_method", "time_firstbyte");
    assert Less("time_firstbyte", "uri_host");
    LessTransitive("hostname", "http_method", "time_firstbyte");
    LessTransitive("hostname", "time_firstbyte", "uri_host");
    LessTransitive("http_method", "time_firstbyte", "uri_host");
  }

  /** A string member whose key and text need no escaping. */
  lemma PlainMember(key: string, text: string)
    requires '"' !in key && '\\' !in key && '"' !in text && '\\' !in text
    ensures Quote(key) + ":" + RenderValue(Str(text)) == "\"" + key + "\"" + ":" + "\"" + text + "\""
  {
    QuotePlain(key);
    QuotePlain(text);
  }

  lemma HostRendered()
    ensures Quote("hostname") + ":" + RenderValue(Str("cp3050.esams.wmnet")) == HostMember
  {
    PlainMember("hostname", "cp3050.esams.wmnet");
  }

  lemma MethodRendered()
    ensures Quote("http_method") + ":" + RenderValue(Str("GET")) == MethodMember
  {
    PlainMember("http_method", "GET");
  }

  lemma UriHostRendered()
    ensures Quote("uri_host") + ":" + RenderValue(Str("en.wikipedia.org")) == UriHostMember
  {
    PlainMember("uri_host", "en.wikipedia.org");
  }

  lemma FirstByteRendered()
    ensures Quote("time_firstbyte") + ":" + RenderValue(Int(1235)) == FirstByteMember
  {
    QuotePlain("time_firstbyte");
    assert RenderValue(Int(1235)) == "1235" by {
      Itoa1235();
    }
  }

  lemma MembersCons(key: string, rest: seq<string>, r: Record, member: string, tail: string)
    requires key in r && |rest| >= 1 && forall i :: 0 <= i < |rest| ==> rest[i] in r
    requires Quote(key) + ":" + RenderValue(r[key]) == member
    requires Members(rest, r) == tail
    ensures Members([key] + rest, r) == member + "," + tail
  {
    assert ([key] + rest)[1..] == rest;
  }

  /** The members of a record for four of its keys, in the given order. */
  lemma MembersFour(r: Record, k1: string, k2: string, k3: string, k4: string)
    requires k1 in r && k2 in r && k3 in r && k4 in r
    ensures Members([k1, k2, k3, k4], r) ==
      (Quote(k1) + ":" + RenderValue(r[k1])) + "," + ((Quote(k2) + ":" + RenderValue(r[k2]))
      + "," + ((Quote(k3) + ":" + RenderValue(r[k3])) + "," + (Quote(k4) + ":" + RenderValue(r[k4]))))
  {
    var m4 := Quote(k4) + ":" + RenderValue(r[k4]);
    var m34 := (Quote(k3) + ":" + RenderValue(r[k3])) + "," + m4;
    var m234 := (Quote(k2) + ":" + RenderValue(r[k2])) + "," + m34;
    assert Members([k4], r) == m4;
    MembersCons(k3, [k4], r, Quote(k3) + ":" + RenderValue(r[k3]), m4);
    assert [k3] + [k4] == [k3, k4];
    MembersCons(k2, [k3, k4], r, Quote(k2) + ":" + RenderValue(r[k2]), m34);
    assert [k2] + [k3, k4] == [k2, k3, k4];
    MembersCons(k1, [k2, k3, k4], r, Quote(k1) + ":" + RenderValue(r[k1]), m234);
    assert [k1] + [k2, k3, k4] == [k1, k2, k3, k4];
  }

  lemma OkRecordShape()
    ensures forall k :: k in OkKeys <==> k in OkRecord
    ensures OkRecord["hostname"] == Str("cp3050.esams.wmnet")
    ensures OkRecord["http_method"] == Str("GET")
    ensures OkRecord["time_firstbyte"] == Int(1235)
    ensures OkRecord["uri_host"] == Str("en.wikipedia.org")
  {
  }

  lemma OkMembers(r: Record)
    requires "hostname" in r && "http_method" in r && "time_firstbyte" in r && "uri_host" in r
    requires r["hostname"] == Str("cp3050.esams.wmnet") && r["http_method"] == Str("GET")
    requires r["time_firstbyte"] == Int(1235) && r["uri_host"] == Str("en.wikipedia.org")
    ensures Members(OkKeys, r) == HostMember + "," + (MethodMember + "," + (FirstByteMember + "," + UriHostMember))
  {
    MembersFour(r, "hostname", "http_method", "time_firstbyte", "uri_host");
    HostRendered();
    MethodRendered();
    FirstByteRendered();
    UriHostRendered();
  }

  lemma Assemble(m1: string, m2: string, m3: string, m4: string)
    ensures "{" + (m1 + "," + (m2 + "," + (m3 + "," + m4))) + "}" == "{" + m1 + "," + m2 + "," + m3 + "," + m4 + "}"
  {
  }

  /** TestLogLineToJsonOK: the sample line with `time_firstbyte` numeric
      becomes the expected document, keys sorted and the number unquoted. */
  lemma LogLineToJsonOK()
    ensures ToJson(OkLine, {"time_firstbyte"}) == Ok(OkDoc)
  {
    OkLineRecord();
    OkMarshal();
  }

  lemma OkMarshal()
    ensures Marshal(OkRecord) == OkDoc
  {
    OkKeysSorted();
    OkRecordShape();
    OkMembers(OkRecord);
    MarshalKeyOrder(OkRecord, OkKeys);
    Assemble(HostMember, MethodMember, FirstByteMember, UriHostMember);
  }

  /** `strconv.Atoi` rejects text that does not start with a digit or sign. */
  lemma AtoiNotANumber()
    ensures Atoi("notanumber").None?
  {
    assert !IsDigit("notanumber"[0]);
  }

  const BadFirstByteToken: string := "time_firstbyte" + ":" + "notanumber"

  /** The line of TestLogLineToJsonKO. */
  const KoLine: string := HostToken + "\t" + BadFirstByteToken

  /** The loop over two tokens, unrolled. */
  lemma ParseTwo(a: string, b: string, numeric: set<string>)
    ensures ParseFields([a, b], numeric) == Extend(Extend(Ok(map[]), a, numeric), b, numeric)
  {
    assert [a] == [] + [a];
    ParseSnoc([], a, numeric);
    assert [a, b] == [a] + [b];
    ParseSnoc([a], b, numeric);
  }

  lemma BadFirstByteField()
    ensures ParseField(BadFirstByteToken, {"time_firstbyte"}) == Err(NotAnInteger("time_firstbyte", "notanumber"))
  {
    AtoiNotANumber();
    FieldToken("time_firstbyte", "notanumber", {"time_firstbyte"});
  }

  /** TestLogLineToJsonKO: a non-numeric value for a numeric field makes the
      whole line fail, with no document. */
  lemma LogLineToJsonKO()
    ensures ToJson(KoLine, {"time_firstbyte"}) == Err(NotAnInteger("time_firstbyte", "notanumber"))
  {
    SplitTwo(HostToken, BadFirstByteToken);
    ParseTwo(HostToken, BadFirstByteToken, {"time_firstbyte"});
    HostField();
    BadFirstByteField();
  }

  // TestDoWork: three lines, the first two malformed.

  const PlainText: string := "Not what we would expect"

  const CacheToken: string := "cache_status" + ":" + "hit-front"
  const ShortFirstByteToken: string := "time_firstbyte" + ":" + "9"

  const GoodLine: string := HostToken + "\t" + (ShortFirstByteToken + "\t" + CacheToken)

  const CacheMember: string := "\"" + "cache_status" + "\"" + ":" + "\"" + "hit-front" + "\""
  const ShortFirstByteMember: string := "\"" + "time_firstbyte" + "\"" + ":" + "9"

  /** The document produced for the third line, keys in ascending order. */
  const GoodDoc: string := "{" + CacheMember + "," + HostMember + "," + ShortFirstByteMember + "}"

  /** The set `doWork` builds from the default flag; `DefaultFlagNumeric`
      shows the flag path gives exactly this set. */
  const DefaultNumeric: set<string> := {"response_size", "sequence", "time_firstbyte"}

  lemma DefaultFlagNumeric()
    ensures NumericFieldSet(DefaultNumericFields) == DefaultNumeric
  {
    DefaultNumericFieldSet();
  }

  const GoodRecord: Record :=
    map["hostname" := Str("cp3050.esams.wmnet"), "time_firstbyte" := Int(9), "cache_status" := Str("hit-front")]

  /** A line without a colon is one token without a colon: rejected. */
  lemma PlainTextRejected()
    ensures ToJson(PlainText, DefaultNumeric) == Err(MissingColon(PlainText))
  {
    assert FieldSeparator !in PlainText && KeySeparator !in PlainText;
    assert Split(PlainText, FieldSeparator) == [PlainText];
    ParseSnoc([], PlainText, DefaultNumeric);
    assert [PlainText] == [] + [PlainText];
  }

  lemma EmptyLineRejected()
    ensures ToJson("", DefaultNumeric) == Err(MissingColon(""))
  {
    ParseEmptyLine(DefaultNumeric);
  }

  lemma Atoi9()
    ensures Atoi("9") == Some(9) && Itoa(9) == "9"
  {
    assert NatToDigits(9) == "9";
    AtoiItoa(9);
  }

  lemma DefaultNumericMembers()
    ensures "hostname" !in DefaultNumeric && "cache_status" !in DefaultNumeric
    ensures "time_firstbyte" in DefaultNumeric
  {
    assert "hostname"[0] != "sequence"[0];
  }

  lemma GoodHostField()
    ensures ParseField(HostToken, DefaultNumeric) == Ok(("hostname", Str("cp3050.esams.wmnet")))
  {
    DefaultNumericMembers();
    FieldToken("hostname", "cp3050.esams.wmnet", DefaultNumeric);
  }

  lemma ShortFirstByteField()
    ensures ParseField(ShortFirstByteToken, DefaultNumeric) == Ok(("time_firstbyte", Int(9)))
  {
    DefaultNumericMembers();
    Atoi9();
    FieldToken("time_firstbyte", "9", DefaultNumeric);
  }

  lemma CacheField()
    ensures ParseField(CacheToken, DefaultNumeric) == Ok(("cache_status", Str("hit-front")))
  {
    DefaultNumericMembers();
    FieldToken("cache_status", "hit-front", DefaultNumeric);
  }

  lemma GoodLineTokens()
    ensures Split(GoodLine, FieldSeparator) == [HostToken, ShortFirstByteToken, CacheToken]
  {
    SplitTwo(ShortFirstByteToken, CacheToken);
    SplitThree(HostToken, ShortFirstByteToken + "\t" + CacheToken, ShortFirstByteToken, CacheToken);
  }

  lemma GoodLineRecord()
    ensures Parse(GoodLine, DefaultNumeric) == Ok(GoodRecord)
  {
    GoodLineTokens();
    ParseThree(HostToken, ShortFirstByteToken, CacheToken, DefaultNumeric);
    GoodHostField();
    ShortFirstByteField();
    CacheField();
  }

  /** The loop over three tokens, unrolled. */
  lemma ParseThree(a: string, b: string, c: string, numeric: set<string>)
    ensures ParseFields([a, b, c], numeric) ==
              Extend(Extend(Extend(Ok(map[]), a, numeric), b, numeric), c, numeric)
  {
    ParseTwo(a, b, numeric);
    assert [a, b, c] == [a, b] + [c];
    ParseSnoc([a, b], c, numeric);
  }

  lemma CacheRendered()
    ensures Quote("cache_status") + ":" + RenderValue(Str("hit-front")) == CacheMember
  {
    PlainMember("cache_status", "hit-front");
  }

  lemma ShortFirstByteRendered()
    ensures Quote("time_firstbyte") + ":" + RenderValue(Int(9)) == ShortFirstByteMember
  {
    QuotePlain("time_firstbyte");
    assert RenderValue(Int(9)) == "9" by {
      Atoi9();
    }
  }

  lemma GoodKeysSorted()
    ensures StrictlySorted(["cache_status", "hostname", "time_firstbyte"])
  {
    assert Less("cache_status", "hostname");
    assert Less("hostname", "time_firstbyte");
    LessTransitive("cache_status", "hostname", "time_firstbyte");
  }

  /** The members of a record for three of its keys, in the given order. */
  lemma MembersThree(r: Record, k1: string, k2: string, k3: string)
    requires k1 in r && k2 in r && k3 in r
    ensures Members([k1, k2, k3], r) ==
      (Quote(k1) + ":" + RenderValue(r[k1])) + "," + ((Quote(k2) + ":" + RenderValue(r[k2]))
      + "," + (Quote(k3) + ":" + RenderValue(r[k3])))
  {
    var m3 := Quote(k3) + ":" + RenderValue(r[k3]);
    var m23 := (Quote(k2) + ":" + RenderValue(r[k2])) + "," + m3;
    assert Members([k3], r) == m3;
    MembersCons(k2, [k3], r, Quote(k2) + ":" + RenderValue(r[k2]), m3);
    assert [k2] + [k3] == [k2, k3];
    MembersCons(k1, [k2, k3], r, Quote(k1) + ":" + RenderValue(r[k1]), m23);
    assert [k1] + [k2, k3] == [k1, k2, k3];
  }

  lemma GoodMembers(r: Record)
    requires "cache_status" in r && "hostname" in r && "time_firstbyte" in r
    requires r["cache_status"] == Str("hit-front") && r["hostname"] == Str("cp3050.esams.wmnet")
    requires r["time_firstbyte"] == Int(9)
    ensures Members(["cache_status", "hostname", "time_firstbyte"], r) == CacheMember + "," + (HostMember + "," + ShortFirstByteMember)
  {
    MembersThree(r, "cache_status", "hostname", "time_firstbyte");
    CacheRendered();
    HostRendered();
    ShortFirstByteRendered();
  }

  lemma GoodRecordShape()
    ensures forall k :: k in ["cache_status", "hostname", "time_firstbyte"] <==> k in GoodRecord
    ensures GoodRecord["cache_status"] == Str("hit-front")
    ensures GoodRecord["hostname"] == Str("cp3050.esams.wmnet")
    ensures GoodRecord["time_firstbyte"] == Int(9)
  {
  }

  lemma GoodMarshal()
    ensures Marshal(GoodRecord) == GoodDoc
  {
    GoodKeysSorted();
    GoodRecordShape();
    GoodMembers(GoodRecord);
    MarshalKeyOrder(GoodRecord, ["cache_status", "hostname", "time_firstbyte"]);
    AssembleThree(CacheMember, HostMember, ShortFirstByteMember);
  }

  lemma AssembleThree(m1: string, m2: string, m3: string)
    ensures "{" + (m1 + "," + (m2 + "," + m3)) + "}" == "{" + m1 + "," + m2 + "," + m3 + "}"
  {
  }

  lemma GoodLineDocument()
    ensures ToJson(GoodLine, DefaultNumeric) == Ok(GoodDoc)
  {
    GoodLineRecord();
    GoodMarshal();
  }

  /** Three lines of which only the last parses. */
  lemma DispatchThree(l1: string, l2: string, l3: string, numeric: set<string>, topic: string, m: seq<Message>)
    requires Dispatch([l1], numeric, topic) == [] && Dispatch([l2], numeric, topic) == []
    requires Dispatch([l3], numeric, topic) == m
    ensures Dispatch([l1, l2, l3], numeric, topic) == m
  {
    ThreeLines(l1, l2, l3);
    DispatchAppend([l1], [l2], numeric, topic);
    DispatchAppend([l1, l2], [l3], numeric, topic);
  }

  lemma ThreeLines(l1: string, l2: string, l3: string)
    ensures [l1] + [l2] == [l1, l2]
    ensures [l1, l2] + [l3] == [l1, l2, l3]
  {
  }

  /** TestDoWork: of the three lines only the third is produced, on the
      default topic, with any partition, as the document holding its three
      fields. */
  lemma DoWorkScenario()
    ensures Dispatch(["", PlainText, GoodLine], NumericFieldSet(DefaultNumericFields), DefaultTopic) ==
              [Message(DefaultTopic, PartitionAny, GoodDoc)]
  {
    DefaultFlagNumeric();
    EmptyLineRejected();
    PlainTextRejected();
    GoodLineDocument();
    DispatchOne("", DefaultNumeric, DefaultTopic);
    DispatchOne(PlainText, DefaultNumeric, DefaultTopic);
    DispatchOne(GoodLine, DefaultNumeric, DefaultTopic);
    DispatchThree("", PlainText, GoodLine, DefaultNumeric, DefaultTopic, [Message(DefaultTopic, PartitionAny, GoodDoc)]);
  }

  lemma EmptyLineDropped()
    ensures Dropped([""], DefaultNumeric) == [("", MissingColon(""))]
  {
    EmptyLineRejected();
    DroppedOne("", DefaultNumeric);
  }

  lemma PlainTextDropped()
    ensures Dropped([PlainText], DefaultNumeric) == [(PlainText, MissingColon(PlainText))]
  {
    PlainTextRejected();
    DroppedOne(PlainText, DefaultNumeric);
  }

  lemma GoodLineKept()
    ensures Dropped([GoodLine], DefaultNumeric) == []
  {
    GoodLineDocument();
    DroppedOne(GoodLine, DefaultNumeric);
  }

  /** Three lines of which the first two are dropped. */
  lemma DroppedThree(l1: string, l2: string, l3: string, numeric: set<string>, d1: seq<(string, ParseError)>, d2: seq<(string, ParseError)>)
    requires Dropped([l1], numeric) == d1 && Dropped([l2], numeric) == d2
    requires Dropped([l3], numeric) == []
    ensures Dropped([l1, l2, l3], numeric) == d1 + d2
  {
    ThreeLines(l1, l2, l3);
    DroppedAppend([l1], [l2], numeric);
    DroppedAppend([l1, l2], [l3], numeric);
  }

  /** The other two lines of TestDoWork, the empty line and the plain text,
      are logged and dropped, in that order, each for its missing colon. */
  lemma DoWorkScenarioDropped()
    ensures Dropped(["", PlainText, GoodLine], NumericFieldSet(DefaultNumericFields)) ==
              [("", MissingColon("")), (PlainText, MissingColon(PlainText))]
  {
    DefaultFlagNumeric();
    EmptyLineDropped();
    PlainTextDropped();
    GoodLineKept();
    DroppedThree("", PlainText, GoodLine, DefaultNumeric, [("", MissingColon(""))], [(PlainText, MissingColon(PlainText))]);
  }

  // The reconnect loop.

  /** Three failed attempts, whatever made them fail, then a connection:
      the delays are 1, 2 and 4 ms, and 1 ms again after the connection
      closes, since `reader` reset the counter; the connection's lines go out
      tagged 0, 1, ... */
  lemma BackoffThenConnect(conns: seq<Connection>, lines: seq<string>)
    requires |conns| == 4 && conns[3] == Connected(lines)
    requires !conns[0].Connected? && !conns[1].Connected? && !conns[2].Connected?
    ensures ReconnectLoop(conns) == Run([1, 2, 4, 1], TagLines(lines), if |lines| == 0 then 0 else |lines|, false)
  {
    var failures := conns[..3];
    ThreeFailuresFirst(conns, lines);
    var gauge := if |lines| == 0 then 0 else |lines|;
    calc {
      ReconnectLoop(conns);
      Supervise(failures + [Connected(lines)], 0, 0);
      { RetriesThenConnect(failures, lines, 0, 0); }
      Run(Backoff(0, 3) + [1], TagLines(lines), gauge, false);
      { BackoffFromStart(); }
      Run([1, 2, 4, 1], TagLines(lines), gauge, false);
    }
  }

  lemma ThreeFailuresFirst(conns: seq<Connection>, lines: seq<string>)
    requires |conns| == 4 && conns[3] == Connected(lines)
    requires !conns[0].Connected? && !conns[1].Connected? && !conns[2].Connected?
    ensures conns == conns[..3] + [Connected(lines)]
    ensures |conns[..3]| == 3 && forall i :: 0 <= i < 3 ==> !conns[..3][i].Connected?
  {
    assert conns == conns[..3] + [conns[3]];
  }

  lemma BackoffFromStart()
    ensures Backoff(0, 3) + [1] == [1, 2, 4, 1]
  {
    var b := Backoff(0, 3);
    assert Pow2(0) == 1 && Pow2(1) == 2 && Pow2(2) == 4;
    assert b[0] == 1 && b[1] == 2 && b[2] == 4;
    assert b == [1, 2, 4];
  }

  /** From start-up, sixteen failed attempts end in "Giving up". */
  lemma SixteenFailuresGiveUp(conns: seq<Connection>)
    requires |conns| == 16 && forall i :: 0 <= i < |conns| ==> conns[i] == DialFailed
    ensures ReconnectLoop(conns).gaveUp
    ensures |ReconnectLoop(conns).delays| == 16 && ReconnectLoop(conns).delays[15] == Pow2(15)
  {
    ConsecutiveFailures(conns, 0, 0);
  }

  /** After a connection, fifteen failed attempts already end in "Giving up"
      and fourteen do not. */
  lemma FifteenFailuresAfterConnect(lines: seq<string>, failures: seq<Connection>)
    requires forall i :: 0 <= i < |failures| ==> !failures[i].Connected?
    ensures Supervise([Connected(lines)] + failures, 0, 0).gaveUp <==> |failures| >= 15
  {
    var conns := [Connected(lines)] + failures;
    assert conns[1..] == failures;
    SuperviseConnected(conns, 0, 0);
    ConsecutiveFailures(failures, 1, if |lines| == 0 then 0 else |lines|);
  }
}
