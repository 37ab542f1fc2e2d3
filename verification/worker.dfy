/** `doWork` of atskafka.go for one worker: build the numeric field set from
    its comma-separated flag, then for every line taken from the channel
    either hand one message to the producer or log the line and drop it.
    The producer is replaced by the sequence of messages handed to it. */
module Worker {
  import opened Results
  import opened Strings
  import opened LineParser
  import opened JsonDoc

  /** Default of the `numericFields` flag. */
  const DefaultNumericFields: string := "response_size,sequence,time_firstbyte"

  /** Default of the `kafkaTopic` flag. */
  const DefaultTopic: string := "test_topic"

  /** `kafka.PartitionAny`: let the producer choose the partition. */
  const PartitionAny: int := -1

  const FlagSeparator: char := ','

  function Elements(items: seq<string>): set<string>
  {
    set item | item in items
  }

  /** The numeric field set: every comma-separated item of the flag. */
  function NumericFieldSet(flag: string): (names: set<string>)
    ensures names != {}
    ensures forall name :: name in names ==> FlagSeparator !in name
  {
    var items := Split(flag, FlagSeparator);
    assert items[0] in Elements(items);
    Elements(items)
  }

  /** The numeric field set holds exactly the names the flag lists. */
  lemma NumericFieldSetOfList(names: seq<string>)
    requires |names| >= 1
    requires forall i :: 0 <= i < |names| ==> FlagSeparator !in names[i]
    ensures NumericFieldSet(Join(names, FlagSeparator)) == Elements(names)
  {
    SplitJoin(names, FlagSeparator);
  }

  lemma DefaultFlagJoined()
    ensures Join(["response_size", "sequence", "time_firstbyte"], FlagSeparator) == DefaultNumericFields
  {
    var names := ["response_size", "sequence", "time_firstbyte"];
    assert names[1..] == ["sequence", "time_firstbyte"];
    assert names[1..][1..] == ["time_firstbyte"];
  }

  lemma DefaultNamesSet()
    ensures Elements(["response_size", "sequence", "time_firstbyte"]) == {"response_size", "sequence", "time_firstbyte"}
  {
  }

  /** With the default flag the injected `sequence` tag is numeric. */
  lemma DefaultNumericFieldSet()
    ensures NumericFieldSet(DefaultNumericFields) == {"response_size", "sequence", "time_firstbyte"}
  {
    DefaultNamesSet();
    DefaultFlagJoined();
    NumericFieldSetOfList(["response_size", "sequence", "time_firstbyte"]);
  }

  /** What `Produce` is handed. */
  datatype Message = Message(topic: string, partition: int, value: string)

  /** The producer's side of the worker loop, given each line's outcome. */
  function Publish(outcomes: seq<Result<string, ParseError>>, topic: string): (out: seq<Message>)
    ensures |out| <= |outcomes|
    ensures forall i :: 0 <= i < |out| ==> out[i].topic == topic && out[i].partition == PartitionAny
  {
    if |outcomes| == 0 then []
    else
      var last := outcomes[|outcomes| - 1];
      Publish(outcomes[..|outcomes| - 1], topic) + (if last.Ok? then [Message(topic, PartitionAny, last.value)] else [])
  }

  lemma {:induction false} PublishCount(outcomes: seq<Result<string, ParseError>>, topic: string)
    ensures |Publish(outcomes, topic)| == |outcomes| <==> forall i :: 0 <= i < |outcomes| ==> outcomes[i].Ok?
    ensures |Publish(outcomes, topic)| == 0 <==> forall i :: 0 <= i < |outcomes| ==> outcomes[i].Err?
  {
    if |outcomes| > 0 {
      var n := |outcomes| - 1;
      PublishCount(outcomes[..n], topic);
      assert forall i :: 0 <= i < n ==> outcomes[..n][i] == outcomes[i];
    }
  }

  /** Each line's outcome: its document or its error. */
  function Outcomes(lines: seq<string>, numeric: set<string>): (r: seq<Result<string, ParseError>>)
    ensures |r| == |lines|
    ensures forall i :: 0 <= i < |lines| ==> r[i] == ToJson(lines[i], numeric)
  {
    if |lines| == 0 then []
    else Outcomes(lines[..|lines| - 1], numeric) + [ToJson(lines[|lines| - 1], numeric)]
  }

  function Dispatch(lines: seq<string>, numeric: set<string>, topic: string): (out: seq<Message>)
    ensures |out| + |Dropped(lines, numeric)| == |lines|
    ensures forall i :: 0 <= i < |out| ==> out[i].topic == topic && out[i].partition == PartitionAny
  {
    PublishOrDrop(lines, Outcomes(lines, numeric), topic);
    Publish(Outcomes(lines, numeric), topic)
  }

  lemma DispatchCount(lines: seq<string>, numeric: set<string>, topic: string)
    ensures |Dispatch(lines, numeric, topic)| == |lines| <==> forall i :: 0 <= i < |lines| ==> ToJson(lines[i], numeric).Ok?
    ensures |Dispatch(lines, numeric, topic)| == 0 <==> forall i :: 0 <= i < |lines| ==> ToJson(lines[i], numeric).Err?
  {
    var outcomes := Outcomes(lines, numeric);
    PublishCount(outcomes, topic);
    CountsOfOutcomes(lines, outcomes, numeric);
  }

  /** Each outcome is its line's: the all/none statements about outcomes
      carry over to the lines. */
  lemma CountsOfOutcomes(lines: seq<string>, outcomes: seq<Result<string, ParseError>>, numeric: set<string>)
    requires |outcomes| == |lines|
    requires forall i :: 0 <= i < |lines| ==> outcomes[i] == ToJson(lines[i], numeric)
    ensures (forall i :: 0 <= i < |outcomes| ==> outcomes[i].Ok?) <==> (forall i :: 0 <= i < |lines| ==> ToJson(lines[i], numeric).Ok?)
    ensures (forall i :: 0 <= i < |outcomes| ==> outcomes[i].Err?) <==> (forall i :: 0 <= i < |lines| ==> ToJson(lines[i], numeric).Err?)
  {
  }

  /** Publishing works outcome by outcome: a stream split anywhere
      publishes the messages of the first part, then those of the second. */
  lemma {:induction false} PublishAppend(a: seq<Result<string, ParseError>>, b: seq<Result<string, ParseError>>, topic: string)
    ensures Publish(a + b, topic) == Publish(a, topic) + Publish(b, topic)
    decreases |b|
  {
    if |b| == 0 {
      assert a + b == a;
    } else {
      var n := |b| - 1;
      assert (a + b)[..|a + b| - 1] == a + b[..n];
      PublishAppend(a, b[..n], topic);
    }
  }

  /** Dispatch works line by line: a stream split anywhere produces the
      messages of the first part followed by those of the second, so lines
      are published in channel order and each independently of the others. */
  lemma DispatchAppend(a: seq<string>, b: seq<string>, numeric: set<string>, topic: string)
    ensures Dispatch(a + b, numeric, topic) == Dispatch(a, numeric, topic) + Dispatch(b, numeric, topic)
  {
    OutcomesAppend(a, b, numeric);
    PublishAppend(Outcomes(a, numeric), Outcomes(b, numeric), topic);
  }

  /** Each line is parsed on its own: the outcomes of a split stream are
      those of its parts. */
  lemma OutcomesAppend(a: seq<string>, b: seq<string>, numeric: set<string>)
    ensures Outcomes(a + b, numeric) == Outcomes(a, numeric) + Outcomes(b, numeric)
  {
    var oa := Outcomes(a, numeric);
    var ob := Outcomes(b, numeric);
    forall i | 0 <= i < |a + b|
      ensures Outcomes(a + b, numeric)[i] == (oa + ob)[i]
    {
      if i < |a| {
        assert (a + b)[i] == a[i];
      } else {
        assert (a + b)[i] == b[i - |a|];
      }
    }
  }

  /** A single line yields exactly one message, carrying its document, when
      it parses, and none otherwise. */
  lemma DispatchOne(line: string, numeric: set<string>, topic: string)
    ensures ToJson(line, numeric).Ok? ==>
              Dispatch([line], numeric, topic) == [Message(topic, PartitionAny, ToJson(line, numeric).value)]
    ensures ToJson(line, numeric).Err? ==> Dispatch([line], numeric, topic) == []
  {
    var o := Outcomes([line], numeric);
    assert o == [ToJson(line, numeric)];
    assert o[..0] == [];
  }

  /** The logging side of the worker loop: each rejected line with its
      error, in stream order. */
  function Drop(lines: seq<string>, outcomes: seq<Result<string, ParseError>>): (r: seq<(string, ParseError)>)
    requires |lines| == |outcomes|
    ensures |r| <= |lines|
    decreases |lines|
  {
    if |lines| == 0 then []
    else
      var n := |lines| - 1;
      Drop(lines[..n], outcomes[..n]) + (if outcomes[n].Err? then [(lines[n], outcomes[n].error)] else [])
  }

  /** The lines rejected in a stream, with their errors. */
  function Dropped(lines: seq<string>, numeric: set<string>): (r: seq<(string, ParseError)>)
    ensures forall j :: 0 <= j < |r| ==> r[j].0 in lines && ToJson(r[j].0, numeric) == Err(r[j].1)
  {
    var outcomes := Outcomes(lines, numeric);
    assert forall j :: 0 <= j < |Drop(lines, outcomes)| ==>
        Drop(lines, outcomes)[j].0 in lines && ToJson(Drop(lines, outcomes)[j].0, numeric) == Err(Drop(lines, outcomes)[j].1) by {
      forall j | 0 <= j < |Drop(lines, outcomes)|
        ensures Drop(lines, outcomes)[j].0 in lines && ToJson(Drop(lines, outcomes)[j].0, numeric) == Err(Drop(lines, outcomes)[j].1)
      {
        DropSound(lines, outcomes, j);
      }
    }
    Drop(lines, outcomes)
  }

  /** Dropping works line by line: a stream split anywhere drops the lines
      of the first part, then those of the second. */
  lemma {:induction false} DropAppend(a: seq<string>, oa: seq<Result<string, ParseError>>,
                                      b: seq<string>, ob: seq<Result<string, ParseError>>)
    requires |a| == |oa| && |b| == |ob|
    ensures Drop(a + b, oa + ob) == Drop(a, oa) + Drop(b, ob)
    decreases |b|
  {
    if |b| == 0 {
      assert a + b == a && oa + ob == oa;
    } else {
      var n := |b| - 1;
      assert (a + b)[..|a + b| - 1] == a + b[..n];
      assert (oa + ob)[..|oa + ob| - 1] == oa + ob[..n];
      DropAppend(a, oa, b[..n], ob[..n]);
    }
  }

  /** The logging side of `DispatchAppend`: lines are logged in channel
      order, each independently of the others. */
  lemma DroppedAppend(a: seq<string>, b: seq<string>, numeric: set<string>)
    ensures Dropped(a + b, numeric) == Dropped(a, numeric) + Dropped(b, numeric)
  {
    OutcomesAppend(a, b, numeric);
    DropAppend(a, Outcomes(a, numeric), b, Outcomes(b, numeric));
  }

  /** A single line is dropped, with its error, exactly when it fails to
      parse. */
  lemma DroppedOne(line: string, numeric: set<string>)
    ensures ToJson(line, numeric).Err? ==> Dropped([line], numeric) == [(line, ToJson(line, numeric).error)]
    ensures ToJson(line, numeric).Ok? ==> Dropped([line], numeric) == []
  {
    var o := Outcomes([line], numeric);
    assert o == [ToJson(line, numeric)];
    assert o[..0] == [] && [line][..0] == [];
  }

  /** The messages produced and the lines dropped together number exactly
      the lines. */
  lemma {:induction false} PublishOrDrop(lines: seq<string>, outcomes: seq<Result<string, ParseError>>, topic: string)
    requires |lines| == |outcomes|
    ensures |Publish(outcomes, topic)| + |Drop(lines, outcomes)| == |lines|
    decreases |lines|
  {
    if |lines| > 0 {
      PublishOrDrop(lines[..|lines| - 1], outcomes[..|outcomes| - 1], topic);
    }
  }

  /** Each dropped entry is a line of the stream together with the error
      that line was rejected with. */
  lemma {:induction false} DropSound(lines: seq<string>, outcomes: seq<Result<string, ParseError>>, j: int)
    requires |lines| == |outcomes|
    requires 0 <= j < |Drop(lines, outcomes)|
    ensures exists k :: 0 <= k < |lines| && outcomes[k] == Err(Drop(lines, outcomes)[j].1) && lines[k] == Drop(lines, outcomes)[j].0
    decreases |lines|
  {
    var n := |lines| - 1;
    var prefix := Drop(lines[..n], outcomes[..n]);
    if j < |prefix| {
      DropSound(lines[..n], outcomes[..n], j);
      var k :| 0 <= k < n && outcomes[..n][k] == Err(prefix[j].1) && lines[..n][k] == prefix[j].0;
      assert outcomes[k] == Err(Drop(lines, outcomes)[j].1) && lines[k] == Drop(lines, outcomes)[j].0;
    } else {
      assert outcomes[n] == Err(Drop(lines, outcomes)[j].1) && lines[n] == Drop(lines, outcomes)[j].0;
    }
  }

  lemma OutcomesSnoc(lines: seq<string>, line: string, numeric: set<string>)
    ensures Outcomes(lines + [line], numeric) == Outcomes(lines, numeric) + [ToJson(line, numeric)]
  {
    assert (lines + [line])[..|lines|] == lines;
  }

  lemma PublishSnoc(outcomes: seq<Result<string, ParseError>>, last: Result<string, ParseError>, topic: string)
    ensures Publish(outcomes + [last], topic) ==
              Publish(outcomes, topic) + (if last.Ok? then [Message(topic, PartitionAny, last.value)] else [])
  {
    assert (outcomes + [last])[..|outcomes|] == outcomes;
  }

  lemma DropSnoc(lines: seq<string>, outcomes: seq<Result<string, ParseError>>, line: string, last: Result<string, ParseError>)
    requires |lines| == |outcomes|
    ensures Drop(lines + [line], outcomes + [last]) ==
              Drop(lines, outcomes) + (if last.Err? then [(line, last.error)] else [])
  {
    assert (lines + [line])[..|lines|] == lines;
    assert (outcomes + [last])[..|outcomes|] == outcomes;
  }

  /** One more line taken from the channel adds its message or its drop
      entry to what the lines before it gave. */
  lemma DispatchStep(lines: seq<string>, i: nat, numeric: set<string>, topic: string)
    requires i < |lines|
    ensures Publish(Outcomes(lines[..i + 1], numeric), topic) ==
              Publish(Outcomes(lines[..i], numeric), topic) +
              (if ToJson(lines[i], numeric).Ok? then [Message(topic, PartitionAny, ToJson(lines[i], numeric).value)] else [])
    ensures Drop(lines[..i + 1], Outcomes(lines[..i + 1], numeric)) ==
              Drop(lines[..i], Outcomes(lines[..i], numeric)) +
              (if ToJson(lines[i], numeric).Err? then [(lines[i], ToJson(lines[i], numeric).error)] else [])
  {
    var seen, line := lines[..i], lines[i];
    assert lines[..i + 1] == seen + [line];
    OutcomesSnoc(seen, line, numeric);
    PublishSnoc(Outcomes(seen, numeric), ToJson(line, numeric), topic);
    DropSnoc(seen, Outcomes(seen, numeric), line, ToJson(line, numeric));
  }

  /** The worker loop over the lines it receives: parse, produce on success,
      log and drop on failure, never stop. */
  method DoWork(lines: seq<string>, numericFlag: string, topic: string)
    returns (produced: seq<Message>, dropped: seq<(string, ParseError)>)
    ensures produced == Dispatch(lines, NumericFieldSet(numericFlag), topic)
    ensures dropped == Dropped(lines, NumericFieldSet(numericFlag))
  {
    var numericFields := NumericFieldSet(numericFlag);
    produced := [];
    dropped := [];
    var i := 0;
    while i < |lines|
      invariant 0 <= i <= |lines|
      invariant produced == Publish(Outcomes(lines[..i], numericFields), topic)
      invariant dropped == Drop(lines[..i], Outcomes(lines[..i], numericFields))
    {
      var line := lines[i];
      var json := ToJson(line, numericFields);
      DispatchStep(lines, i, numericFields, topic);
      if json.Ok? {
        produced := produced + [Message(topic, PartitionAny, json.value)];
      } else {
        dropped := dropped + [(line, json.error)];
      }
      i := i + 1;
    }
    assert lines[..i] == lines;
  }
}
