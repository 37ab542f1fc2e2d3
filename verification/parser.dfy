/** The line-to-record parser of json.go (`logLineToJson` up to the point
    where the record is encoded): a log line is a tab-separated list of
    `key:value` tokens; values of keys in the numeric field set become
    integers, all others stay strings. */
module LineParser {
  import opened Results
  import opened Strings
  import opened Numbers

  const FieldSeparator: char := '\t'
  const KeySeparator: char := ':'

  /** A field value: JSON string or JSON number. */
  datatype Value = Str(text: string) | Int(number: int)

  /** The decoded line, before encoding: field name to value. */
  type Record = map<string, Value>

  /** Why a line was rejected. `MissingColon` is the "Cannot split ... into
      'field:value'" error; `NotAnInteger` stands for the error `Atoi` returns
      for the value of a numeric field. */
  datatype ParseError = MissingColon(token: string) | NotAnInteger(key: string, text: string)

  /** The key of a token: everything before its first colon. */
  function Key(token: string): string
    requires KeySeparator in token
  {
    Cut(token, KeySeparator).value.0
  }

  /** The value text of a token: everything after its first colon. */
  function Text(token: string): string
    requires KeySeparator in token
  {
    Cut(token, KeySeparator).value.1
  }

  /** A token the parser accepts: it has a colon, and if its key is numeric
      its value text is an `int`. */
  predicate WellFormed(token: string, numeric: set<string>)
  {
    KeySeparator in token && (Key(token) in numeric ==> Atoi(Text(token)).Some?)
  }

  /** What an accepted token contributes to the record. */
  function FieldValue(token: string, numeric: set<string>): Value
    requires WellFormed(token, numeric)
  {
    if Key(token) in numeric then Int(Atoi(Text(token)).value) else Str(Text(token))
  }

  /** Why a rejected token is rejected. */
  function FieldError(token: string, numeric: set<string>): ParseError
    requires !WellFormed(token, numeric)
  {
    if KeySeparator !in token then MissingColon(token) else NotAnInteger(Key(token), Text(token))
  }

  /** One iteration of the loop body, on one token. */
  function ParseField(token: string, numeric: set<string>): (r: Result<(string, Value), ParseError>)
    ensures r.Ok? <==> WellFormed(token, numeric)
    ensures r.Ok? ==> r.value == (Key(token), FieldValue(token, numeric))
    ensures r.Err? ==> r.error == FieldError(token, numeric)
  {
    match Cut(token, KeySeparator)
    case None => Err(MissingColon(token))
    case Some((key, text)) =>
      if key !in numeric then Ok((key, Str(text)))
      else
        match Atoi(text)
        case None => Err(NotAnInteger(key, text))
        case Some(n) => Ok((key, Int(n)))
  }

  /** One iteration of the loop: an earlier failure stands, otherwise the
      token is parsed and its binding added, replacing any earlier one. */
  function Extend(acc: Result<Record, ParseError>, token: string, numeric: set<string>): Result<Record, ParseError>
  {
    match acc
    case Err(e) => Err(e)
    case Ok(data) =>
      match ParseField(token, numeric)
      case Err(e) => Err(e)
      case Ok((key, value)) => Ok(data[key := value])
  }

  /** The loop over the tokens, left to right: the first bad token aborts the
      whole line, and a later token overwrites an earlier one with the same
      key. Written as recursion on the last token so that it reads like the
      loop after `|tokens|` iterations. */
  function ParseFields(tokens: seq<string>, numeric: set<string>): (r: Result<Record, ParseError>)
    ensures r.Ok? <==> AllWellFormed(tokens, numeric)
    decreases |tokens|
  {
    if |tokens| == 0 then Ok(map[])
    else
      var n := |tokens| - 1;
      AllWellFormedSnoc(tokens, numeric);
      ExtendOk(ParseFields(tokens[..n], numeric), tokens[n], numeric);
      Extend(ParseFields(tokens[..n], numeric), tokens[n], numeric)
  }

  ghost predicate AllWellFormed(tokens: seq<string>, numeric: set<string>)
  {
    forall i :: 0 <= i < |tokens| ==> WellFormed(tokens[i], numeric)
  }

  /** The set of keys the tokens name. */
  ghost function TokenKeys(tokens: seq<string>): set<string>
  {
    set i | 0 <= i < |tokens| && KeySeparator in tokens[i] :: Key(tokens[i])
  }

  /** Token `i` is the last one with its key. */
  ghost predicate IsLastWithKey(tokens: seq<string>, i: int)
  {
    && 0 <= i < |tokens|
    && KeySeparator in tokens[i]
    && forall j :: i < j < |tokens| && KeySeparator in tokens[j] ==> Key(tokens[j]) != Key(tokens[i])
  }

  /** Token `i` is the first token the parser rejects. */
  ghost predicate IsFirstBad(tokens: seq<string>, numeric: set<string>, i: int)
  {
    && 0 <= i < |tokens|
    && !WellFormed(tokens[i], numeric)
    && forall j :: 0 <= j < i ==> WellFormed(tokens[j], numeric)
  }

  /** An iteration keeps the loop going exactly when it was still going and
      the token is accepted. */
  lemma ExtendOk(acc: Result<Record, ParseError>, token: string, numeric: set<string>)
    ensures Extend(acc, token, numeric).Ok? <==> acc.Ok? && WellFormed(token, numeric)
  {
  }

  lemma AllWellFormedSnoc(tokens: seq<string>, numeric: set<string>)
    requires |tokens| > 0
    ensures AllWellFormed(tokens, numeric) <==>
              AllWellFormed(tokens[..|tokens| - 1], numeric) && WellFormed(tokens[|tokens| - 1], numeric)
  {
    var n := |tokens| - 1;
    assert forall i :: 0 <= i < n ==> tokens[..n][i] == tokens[i];
  }

  /** Helper: the keys of a token list grow by the last token's key. */
  lemma TokenKeysSnoc(tokens: seq<string>)
    requires |tokens| > 0
    ensures TokenKeys(tokens) ==
              TokenKeys(tokens[..|tokens| - 1])
              + (if KeySeparator in tokens[|tokens| - 1] then {Key(tokens[|tokens| - 1])} else {})
  {
    var n := |tokens| - 1;
    var init := tokens[..n];
    forall k | k in TokenKeys(tokens)
      ensures k in TokenKeys(init) || (KeySeparator in tokens[n] && k == Key(tokens[n]))
    {
      var i :| 0 <= i < |tokens| && KeySeparator in tokens[i] && k == Key(tokens[i]);
      if i < n {
        assert init[i] == tokens[i];
      }
    }
    forall k | k in TokenKeys(init)
      ensures k in TokenKeys(tokens)
    {
      var i :| 0 <= i < n && KeySeparator in init[i] && k == Key(init[i]);
      assert init[i] == tokens[i];
    }
  }

  /** On success the record has exactly the keys the tokens name. */
  lemma {:induction false} ParseFieldsKeys(tokens: seq<string>, numeric: set<string>)
    requires ParseFields(tokens, numeric).Ok?
    ensures ParseFields(tokens, numeric).value.Keys == TokenKeys(tokens)
    decreases |tokens|
  {
    if |tokens| > 0 {
      var n := |tokens| - 1;
      ParseFieldsKeys(tokens[..n], numeric);
      TokenKeysSnoc(tokens);
    }
  }

  /** A successful run is the run over all but the last token, with the
      last token's binding added. */
  lemma ParseFieldsSnocOk(tokens: seq<string>, numeric: set<string>)
    requires |tokens| > 0 && ParseFields(tokens, numeric).Ok?
    ensures ParseFields(tokens[..|tokens| - 1], numeric).Ok? && WellFormed(tokens[|tokens| - 1], numeric)
    ensures ParseFields(tokens, numeric).value ==
              ParseFields(tokens[..|tokens| - 1], numeric).value[Key(tokens[|tokens| - 1]) := FieldValue(tokens[|tokens| - 1], numeric)]
  {
  }

  /** Once the loop has failed on a prefix, the whole line fails with that
      error. */
  lemma {:induction false} ParseFieldsErrSticky(tokens: seq<string>, numeric: set<string>, j: nat, e: ParseError)
    requires j <= |tokens|
    requires ParseFields(tokens[..j], numeric) == Err(e)
    ensures ParseFields(tokens, numeric) == Err(e)
    decreases |tokens| - j
  {
    if j < |tokens| {
      assert tokens[..j + 1][..j] == tokens[..j];
      ParseFieldsErrSticky(tokens, numeric, j + 1, e);
    } else {
      assert tokens[..j] == tokens;
    }
  }

  /** Helper: the loop after `i + 1` iterations is one more iteration. */
  lemma ParseFieldsPrefix(tokens: seq<string>, numeric: set<string>, i: nat)
    requires i < |tokens|
    ensures ParseFields(tokens[..i + 1], numeric) == Extend(ParseFields(tokens[..i], numeric), tokens[i], numeric)
  {
    assert tokens[..i + 1][..i] == tokens[..i];
  }

  /** A successful run yields at most one field per token, and at least
      one field when there is a token: the last token's binding is always
      there. */
  lemma {:induction false} ParseFieldsSize(tokens: seq<string>, numeric: set<string>)
    requires ParseFields(tokens, numeric).Ok?
    ensures |ParseFields(tokens, numeric).value| <= |tokens|
    ensures |tokens| > 0 ==> |ParseFields(tokens, numeric).value| >= 1
    decreases |tokens|
  {
    if |tokens| > 0 {
      var n := |tokens| - 1;
      ParseFieldsSnocOk(tokens, numeric);
      ParseFieldsSize(tokens[..n], numeric);
      var before := ParseFields(tokens[..n], numeric).value;
      var k := Key(tokens[n]);
      assert k in ParseFields(tokens, numeric).value;
      assert ParseFields(tokens, numeric).value.Keys == before.Keys + {k};
    }
  }

  /** On success each key is bound to the value of the LAST token carrying
      it: a later token with the same key replaces the earlier value. */
  lemma {:induction false} ParseFieldsValues(tokens: seq<string>, numeric: set<string>, i: int)
    requires ParseFields(tokens, numeric).Ok?
    requires IsLastWithKey(tokens, i)
    ensures Key(tokens[i]) in ParseFields(tokens, numeric).value && WellFormed(tokens[i], numeric)
    ensures ParseFields(tokens, numeric).value[Key(tokens[i])] == FieldValue(tokens[i], numeric)
    decreases |tokens|
  {
    var n := |tokens| - 1;
    var init := tokens[..n];
    if i < n {
      assert init[i] == tokens[i];
      assert IsLastWithKey(init, i) by {
        assert forall j :: i < j < n ==> init[j] == tokens[j];
      }
      ParseFieldsSnocOk(tokens, numeric);
      ParseFieldsValues(init, numeric, i);
      ValuesKeptBelow(tokens, numeric, i);
    } else {
      ValuesOfLast(tokens, numeric);
    }
  }

  /** The last token's binding is in the record. */
  lemma ValuesOfLast(tokens: seq<string>, numeric: set<string>)
    requires |tokens| > 0 && ParseFields(tokens, numeric).Ok?
    ensures WellFormed(tokens[|tokens| - 1], numeric)
    ensures Key(tokens[|tokens| - 1]) in ParseFields(tokens, numeric).value
    ensures ParseFields(tokens, numeric).value[Key(tokens[|tokens| - 1])] == FieldValue(tokens[|tokens| - 1], numeric)
  {
    ParseFieldsSnocOk(tokens, numeric);
  }

  /** A binding made before the last token survives it when the last
      token has another key. */
  lemma ValuesKeptBelow(tokens: seq<string>, numeric: set<string>, i: nat)
    requires i < |tokens| - 1 && ParseFields(tokens, numeric).Ok?
    requires ParseFields(tokens[..|tokens| - 1], numeric).Ok?
    requires KeySeparator in tokens[i] && KeySeparator in tokens[|tokens| - 1]
    requires Key(tokens[|tokens| - 1]) != Key(tokens[i]) && WellFormed(tokens[|tokens| - 1], numeric)
    requires Key(tokens[i]) in ParseFields(tokens[..|tokens| - 1], numeric).value
    requires ParseFields(tokens, numeric).value ==
               ParseFields(tokens[..|tokens| - 1], numeric).value[Key(tokens[|tokens| - 1]) := FieldValue(tokens[|tokens| - 1], numeric)]
    ensures Key(tokens[i]) in ParseFields(tokens, numeric).value
    ensures ParseFields(tokens, numeric).value[Key(tokens[i])] == ParseFields(tokens[..|tokens| - 1], numeric).value[Key(tokens[i])]
  {
    var n := |tokens| - 1;
    UpdateOther(ParseFields(tokens[..n], numeric).value, Key(tokens[n]), FieldValue(tokens[n], numeric), Key(tokens[i]));
  }

  /** Updating a map at one key leaves the binding of every other key. */
  lemma UpdateOther<K, V>(m: map<K, V>, k: K, v: V, other: K)
    requires other in m && other != k
    ensures other in m[k := v] && m[k := v][other] == m[other]
  {
  }

  /** On failure the error is the one of the FIRST rejected token. */
  lemma {:induction false} ParseFieldsError(tokens: seq<string>, numeric: set<string>)
    requires ParseFields(tokens, numeric).Err?
    ensures exists i :: IsFirstBad(tokens, numeric, i) && ParseFields(tokens, numeric).error == FieldError(tokens[i], numeric)
    decreases |tokens|
  {
    var n := |tokens| - 1;
    var init := tokens[..n];
    assert forall j :: 0 <= j < n ==> init[j] == tokens[j];
    if ParseFields(init, numeric).Err? {
      ParseFieldsError(init, numeric);
      var i :| IsFirstBad(init, numeric, i) && ParseFields(init, numeric).error == FieldError(init[i], numeric);
      assert IsFirstBad(tokens, numeric, i);
    } else {
      assert IsFirstBad(tokens, numeric, n);
    }
  }

  /** `logLineToJson`'s decoding step: split the line on tabs and run the
      loop over the tokens. */
  function Parse(line: string, numeric: set<string>): (r: Result<Record, ParseError>)
    ensures r.Ok? <==> AllWellFormed(Split(line, FieldSeparator), numeric)
    ensures r.Ok? ==> 1 <= |r.value| <= |Split(line, FieldSeparator)|
  {
    var tokens := Split(line, FieldSeparator);
    if ParseFields(tokens, numeric).Ok? then
      ParseFieldsSize(tokens, numeric);
      ParseFields(tokens, numeric)
    else
      ParseFields(tokens, numeric)
  }

  /** What `Parse` promises: the line is accepted exactly when every
      tab-separated token is well formed; then the record has exactly the
      tokens' keys, each bound to the value of the last token carrying it;
      otherwise the error is that of the first rejected token. */
  lemma ParseMeaning(line: string, numeric: set<string>)
    ensures Parse(line, numeric).Ok? <==> AllWellFormed(Split(line, FieldSeparator), numeric)
    ensures Parse(line, numeric).Ok? ==> Parse(line, numeric).value.Keys == TokenKeys(Split(line, FieldSeparator))
    ensures Parse(line, numeric).Ok? ==>
              forall i :: IsLastWithKey(Split(line, FieldSeparator), i) ==>
                Parse(line, numeric).value[Key(Split(line, FieldSeparator)[i])]
                  == FieldValue(Split(line, FieldSeparator)[i], numeric)
    ensures Parse(line, numeric).Err? ==>
              exists i :: IsFirstBad(Split(line, FieldSeparator), numeric, i)
                && Parse(line, numeric).error == FieldError(Split(line, FieldSeparator)[i], numeric)
  {
    var tokens := Split(line, FieldSeparator);
    if ParseFields(tokens, numeric).Ok? {
      ParseFieldsKeys(tokens, numeric);
      forall i | IsLastWithKey(tokens, i) {
        ParseFieldsValues(tokens, numeric, i);
      }
    } else {
      ParseFieldsError(tokens, numeric);
    }
  }

  /** Parsing one token in front of an already parsed rest. */
  function Prepend(first: Result<(string, Value), ParseError>, rest: Result<Record, ParseError>): Result<Record, ParseError>
  {
    match first
    case Err(e) => Err(e)
    case Ok((key, value)) =>
      match rest
      case Err(e) => Err(e)
      case Ok(data) => Ok(map[key := value] + data)
  }

  lemma PrependExtend(first: Result<(string, Value), ParseError>, rest: Result<Record, ParseError>, token: string, numeric: set<string>)
    ensures Extend(Prepend(first, rest), token, numeric) == Prepend(first, Extend(rest, token, numeric))
  {
    if first.Ok? && rest.Ok? && ParseField(token, numeric).Ok? {
      var (key, value) := first.value;
      var (k, v) := ParseField(token, numeric).value;
      assert (map[key := value] + rest.value)[k := v] == map[key := value] + rest.value[k := v];
    }
  }

  /** Putting one token in front: it is checked first, and its binding is
      overridden by any later token with the same key. */
  lemma {:induction false} ParseFieldsPrepend(token: string, tokens: seq<string>, numeric: set<string>)
    ensures ParseFields([token] + tokens, numeric) == Prepend(ParseField(token, numeric), ParseFields(tokens, numeric))
    decreases |tokens|
  {
    var all := [token] + tokens;
    if |tokens| == 0 {
      assert all[..0] == [];
      if ParseField(token, numeric).Ok? {
        var (key, value) := ParseField(token, numeric).value;
        assert map[][key := value] == map[key := value] + map[];
      }
    } else {
      var n := |tokens| - 1;
      assert all[..|all| - 1] == [token] + tokens[..n];
      assert all[|all| - 1] == tokens[n];
      ParseFieldsPrepend(token, tokens[..n], numeric);
      PrependExtend(ParseField(token, numeric), ParseFields(tokens[..n], numeric), tokens[n], numeric);
    }
  }

  /** The empty line is one empty token without a colon: rejected. */
  lemma ParseEmptyLine(numeric: set<string>)
    ensures Parse("", numeric) == Err(MissingColon(""))
  {
    assert Split("", FieldSeparator) == [""];
    assert [""][..0] == [];
    assert ParseFields([""], numeric) == Extend(Ok(map[]), "", numeric);
  }

  /** A trailing tab leaves an empty last token, which poisons the line. */
  lemma ParseTrailingTab(line: string, numeric: set<string>)
    ensures Parse(line + [FieldSeparator], numeric).Err?
  {
    SplitTrailingSeparator(line, FieldSeparator);
    var tokens := Split(line + [FieldSeparator], FieldSeparator);
    assert tokens[|tokens| - 1] == "";
    assert !WellFormed(tokens[|tokens| - 1], numeric);
  }

  /** A single token `key:value` with a non-numeric key keeps the value
      verbatim, further colons included. */
  lemma ParseSingleStringField(key: string, text: string, numeric: set<string>)
    requires KeySeparator !in key && FieldSeparator !in key && FieldSeparator !in text
    requires key !in numeric
    ensures Parse(key + [KeySeparator] + text, numeric) == Ok(map[key := Str(text)])
  {
    var token := key + [KeySeparator] + text;
    assert FieldSeparator !in token;
    CutAtFirst(key, KeySeparator, text);
    assert Split(token, FieldSeparator) == [token];
    assert [token][..0] == [];
    assert ParseField(token, numeric) == Ok((key, Str(text)));
    assert ParseFields([token], numeric) == Ok(map[][key := Str(text)]);
  }

  /** A single token whose numeric key carries a value `Atoi` rejects makes
      the line fail, with no record. */
  lemma ParseSingleBadNumber(key: string, text: string, numeric: set<string>)
    requires KeySeparator !in key && FieldSeparator !in key && FieldSeparator !in text
    requires key in numeric && Atoi(text).None?
    ensures Parse(key + [KeySeparator] + text, numeric) == Err(NotAnInteger(key, text))
  {
    var token := key + [KeySeparator] + text;
    assert FieldSeparator !in token;
    CutAtFirst(key, KeySeparator, text);
    assert Split(token, FieldSeparator) == [token];
    assert [token][..0] == [];
    assert ParseField(token, numeric) == Err(NotAnInteger(key, text));
    assert ParseFields([token], numeric) == Extend(Ok(map[]), token, numeric);
  }
}
