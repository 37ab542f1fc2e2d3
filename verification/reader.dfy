/** The socket side of atskafka.go: `reader` tags every scanned line with its
    per-connection sequence number, and the reconnect loop in `main` calls
    `reader` again after an exponential delay until it gives up. The socket
    is replaced by what it delivered: one `Connection` value per call of
    `reader`, and sleeps by the list of delays they would last. */
module Reader {
  import opened Results
  import opened Strings
  import opened Numbers
  import opened LineParser
  import opened Sequences

  const SequenceKey: string := "sequence"

  /** `maxConnectAttempts`. */
  const MaxConnectAttempts: nat := 16

  /** `fmt.Sprintf("sequence:%d\t%s", seq, line)`. */
  function Tag(number: nat, line: string): (s: string)
    ensures Cut(s, FieldSeparator) == Some((SequenceKey + [KeySeparator] + Itoa(number), line))
  {
    var head := SequenceKey + [KeySeparator] + Itoa(number);
    assert FieldSeparator !in head by {
      ItoaNatDigits(number);
    }
    CutAtFirst(head, FieldSeparator, line);
    head + [FieldSeparator] + line
  }

  /** What the injected `sequence` token decodes to. */
  function SequenceValue(number: nat, numeric: set<string>): Value
  {
    if SequenceKey in numeric then Int(number) else Str(Itoa(number))
  }

  /** Tagging puts one well-formed `sequence` token in front of the line: the
      tagged line parses exactly when the line does, to the line's record
      plus the sequence number (unless the line carries its own `sequence`
      field, which then wins, being later). */
  lemma TagParse(number: nat, line: string, numeric: set<string>)
    requires number <= MaxInt
    ensures Parse(Tag(number, line), numeric) ==
              match Parse(line, numeric)
              case Err(e) => Err(e)
              case Ok(data) => Ok(map[SequenceKey := SequenceValue(number, numeric)] + data)
  {
    var head := SequenceKey + [KeySeparator] + Itoa(number);
    ItoaNatDigits(number);
    assert FieldSeparator !in head;
    assert Tag(number, line) == head + [FieldSeparator] + line;
    SplitAfterPiece(head, FieldSeparator, line);
    CutAtFirst(SequenceKey, KeySeparator, Itoa(number));
    AtoiItoa(number);
    assert ParseField(head, numeric) == Ok((SequenceKey, SequenceValue(number, numeric)));
    ParseFieldsPrepend(head, Split(line, FieldSeparator), numeric);
  }

  /** A line as `reader` sends it: the line and its sequence number. Its
      text on the channel is `Text()`. */
  datatype Tagged = Tagged(number: nat, line: string)
  {
    function Text(): string
    {
      Tag(number, line)
    }
  }

  /** The lines of one connection as sent to the work channel: the k-th
      scanned line, counting from 0, carries sequence number k. */
  function TagLines(lines: seq<string>): (tagged: seq<Tagged>)
    ensures |tagged| == |lines|
    ensures forall k :: 0 <= k < |lines| ==> tagged[k] == Tagged(k, lines[k])
  {
    if |lines| == 0 then []
    else TagLines(lines[..|lines| - 1]) + [Tagged(|lines| - 1, lines[|lines| - 1])]
  }

  /** The scan loop of `reader`: send each line tagged, bump the counter,
      publish it on the sequence gauge. The gauge is only written when a line
      arrives, so a connection that delivers nothing leaves it as it was. */
  method ScanConnection(lines: seq<string>, gauge: int) returns (sent: seq<string>, gaugeOut: int)
    ensures |sent| == |lines|
    ensures forall k :: 0 <= k < |lines| ==> sent[k] == Tag(k, lines[k])
    ensures forall k :: 0 <= k < |lines| ==> sent[k] == TagLines(lines)[k].Text()
    ensures gaugeOut == if |lines| == 0 then gauge else |lines|
  {
    sent := [];
    gaugeOut := gauge;
    var count := 0;
    while count < |lines|
      invariant 0 <= count <= |lines|
      invariant |sent| == count
      invariant forall k :: 0 <= k < count ==> sent[k] == Tag(k, lines[k])
      invariant gaugeOut == if count == 0 then gauge else count
    {
      var text := Tag(count, lines[count]);
      SnocKeeps(sent, text);
      sent := sent + [text];
      count := count + 1;
      gaugeOut := count;
    }
  }

  /** What one call of `reader` met: the dial failed, the write of the
      filter expression failed, or the connection was made and delivered
      these lines before it ended. */
  datatype Connection = DialFailed | HandshakeFailed | Connected(lines: seq<string>)

  /** The effect of one call of `reader`. `failed` is whether it returned an
      error; `attempt` is the connect counter afterwards. */
  datatype ReaderStep = ReaderStep(failed: bool, attempt: nat, sent: seq<Tagged>, gauge: int)

  /** One call of `reader`. */
  function Read(conn: Connection, attempt: nat, gauge: int): (r: ReaderStep)
    ensures !conn.Connected? ==> r.failed && r.attempt == attempt && r.sent == [] && r.gauge == gauge
    ensures conn.Connected? ==> !r.failed && r.attempt == 0
    ensures conn.Connected? ==> |r.sent| == |conn.lines|
    ensures conn.Connected? ==> forall k :: 0 <= k < |conn.lines| ==> r.sent[k] == Tagged(k, conn.lines[k])
    ensures conn.Connected? ==> r.gauge == if |conn.lines| == 0 then gauge else |conn.lines|
  {
    match conn
    case DialFailed => ReaderStep(true, attempt, [], gauge)
    case HandshakeFailed => ReaderStep(true, attempt, [], gauge)
    case Connected(lines) =>
      ReaderStep(false, 0, TagLines(lines), if |lines| == 0 then gauge else |lines|)
  }

  function Pow2(n: nat): (p: nat)
    ensures p >= 1
  {
    if n == 0 then 1 else 2 * Pow2(n - 1)
  }

  lemma {:induction false} Pow2Monotone(m: nat, n: nat)
    requires m <= n
    ensures Pow2(m) <= Pow2(n)
    decreases n
  {
    if m < n {
      Pow2Monotone(m, n - 1);
    }
  }

  /** Everything the lines of these connections put on the work channel. */
  function SentBy(conns: seq<Connection>): seq<Tagged>
  {
    if |conns| == 0 then []
    else (if conns[0].Connected? then TagLines(conns[0].lines) else []) + SentBy(conns[1..])
  }

  /** The observable course of the reconnect loop: the delays slept, in
      milliseconds; the lines sent; the final gauge; and whether it reached
      "Giving up". */
  datatype Run = Run(delays: seq<nat>, sent: seq<Tagged>, gauge: int, gaveUp: bool)

  /** The `for connectAttempt ...` loop of `main`, from a counter value on:
      call `reader`, sleep 2^counter ms (the counter as `reader` left it),
      increment, stop at `MaxConnectAttempts`. The model also stops, without
      giving up, when the given connections run out. */
  function Supervise(conns: seq<Connection>, attempt: nat, gauge: int): (r: Run)
    ensures |r.delays| <= |conns|
    ensures !r.gaveUp ==> |r.delays| == |conns|
    decreases |conns|
  {
    if attempt >= MaxConnectAttempts then Run([], [], gauge, true)
    else if |conns| == 0 then Run([], [], gauge, false)
    else
      var step := Read(conns[0], attempt, gauge);
      var rest := Supervise(conns[1..], step.attempt + 1, step.gauge);
      Run([Pow2(step.attempt)] + rest.delays, step.sent + rest.sent, rest.gauge, rest.gaveUp)
  }

  /** Every delay is between 1 ms and 2^15 ms. */
  lemma {:induction false} SuperviseDelayBounds(conns: seq<Connection>, attempt: nat, gauge: int)
    ensures forall i :: 0 <= i < |Supervise(conns, attempt, gauge).delays| ==>
              1 <= Supervise(conns, attempt, gauge).delays[i] <= Pow2(MaxConnectAttempts - 1)
    decreases |conns|
  {
    if attempt < MaxConnectAttempts && |conns| > 0 {
      var step := Read(conns[0], attempt, gauge);
      SuperviseDelayBounds(conns[1..], step.attempt + 1, step.gauge);
      Pow2Monotone(step.attempt, MaxConnectAttempts - 1);
    }
  }

  /** What goes out on the work channel is exactly the tagged lines of the
      connections the loop got through, in order. */
  lemma {:induction false} SuperviseSends(conns: seq<Connection>, attempt: nat, gauge: int)
    ensures Supervise(conns, attempt, gauge).sent == SentBy(conns[..|Supervise(conns, attempt, gauge).delays|])
    decreases |conns|
  {
    if attempt < MaxConnectAttempts && |conns| > 0 {
      var step := Read(conns[0], attempt, gauge);
      var rest := Supervise(conns[1..], step.attempt + 1, step.gauge);
      SuperviseSends(conns[1..], step.attempt + 1, step.gauge);
      var prefix := conns[..1 + |rest.delays|];
      assert prefix[0] == conns[0];
      assert prefix[1..] == conns[1..][..|rest.delays|];
    }
  }

  /** The loop as `main` enters it: counter 0, gauge 0. */
  function ReconnectLoop(conns: seq<Connection>): Run
  {
    Supervise(conns, 0, 0)
  }

  /** Consecutive failures from counter value `a`: the delays double from
      2^a, and the loop gives up once the counter reaches 16, i.e. after
      exactly 16 - a failed calls. */
  lemma {:induction false} ConsecutiveFailures(conns: seq<Connection>, a: nat, gauge: int)
    requires a <= MaxConnectAttempts
    requires forall i :: 0 <= i < |conns| ==> !conns[i].Connected?
    ensures |Supervise(conns, a, gauge).delays| == if |conns| < MaxConnectAttempts - a then |conns| else MaxConnectAttempts - a
    ensures forall i :: 0 <= i < |Supervise(conns, a, gauge).delays| ==> Supervise(conns, a, gauge).delays[i] == Pow2(a + i)
    ensures Supervise(conns, a, gauge).gaveUp <==> |conns| >= MaxConnectAttempts - a
    decreases |conns|
  {
    if a < MaxConnectAttempts && |conns| > 0 {
      ConsecutiveFailures(conns[1..], a + 1, gauge);
    }
  }

  /** A successful connection resets the counter: from then on the loop
      behaves the same whatever the counter was before. */
  lemma ConnectResets(lines: seq<string>, rest: seq<Connection>, a: nat, gauge: int)
    requires a < MaxConnectAttempts
    ensures Supervise([Connected(lines)] + rest, a, gauge) == Supervise([Connected(lines)] + rest, 0, gauge)
    ensures Supervise([Connected(lines)] + rest, a, gauge).delays[0] == 1
  {
    assert ([Connected(lines)] + rest)[1..] == rest;
  }

  /** `16 - a` failed calls in a row from the start. */
  ghost predicate FailStreakFromStart(conns: seq<Connection>, a: nat)
    requires a <= MaxConnectAttempts
  {
    && MaxConnectAttempts - a <= |conns|
    && forall i :: 0 <= i < MaxConnectAttempts - a ==> !conns[i].Connected?
  }

  /** A successful connection followed by 15 failed calls in a row. */
  ghost predicate FailStreakAfterConnect(conns: seq<Connection>)
  {
    exists s :: 0 <= s && s + MaxConnectAttempts <= |conns| && conns[s].Connected?
      && forall j :: s < j < s + MaxConnectAttempts ==> !conns[j].Connected?
  }

  lemma FailStreakAfterConnectShift(conns: seq<Connection>)
    requires |conns| > 0 && !conns[0].Connected?
    ensures FailStreakAfterConnect(conns) <==> FailStreakAfterConnect(conns[1..])
  {
    var rest := conns[1..];
    if FailStreakAfterConnect(conns) {
      var s :| 0 <= s && s + MaxConnectAttempts <= |conns| && conns[s].Connected?
        && forall j :: s < j < s + MaxConnectAttempts ==> !conns[j].Connected?;
      assert s >= 1;
      assert rest[s - 1].Connected?;
      assert forall j :: s - 1 < j < s - 1 + MaxConnectAttempts ==> rest[j] == conns[j + 1];
    }
    if FailStreakAfterConnect(rest) {
      var s :| 0 <= s && s + MaxConnectAttempts <= |rest| && rest[s].Connected?
        && forall j :: s < j < s + MaxConnectAttempts ==> !rest[j].Connected?;
      assert conns[s + 1].Connected?;
      assert forall j :: s + 1 < j < s + 1 + MaxConnectAttempts ==> conns[j] == rest[j - 1];
    }
  }

  lemma FailStreakAfterConnectHead(conns: seq<Connection>)
    requires |conns| > 0 && conns[0].Connected?
    ensures FailStreakAfterConnect(conns) <==> FailStreakFromStart(conns[1..], 1) || FailStreakAfterConnect(conns[1..])
  {
    var rest := conns[1..];
    if FailStreakAfterConnect(conns) {
      var s :| 0 <= s && s + MaxConnectAttempts <= |conns| && conns[s].Connected?
        && forall j :: s < j < s + MaxConnectAttempts ==> !conns[j].Connected?;
      if s == 0 {
        assert forall i :: 0 <= i < MaxConnectAttempts - 1 ==> rest[i] == conns[i + 1];
        assert FailStreakFromStart(rest, 1);
      } else {
        assert rest[s - 1].Connected?;
        assert forall j :: s - 1 < j < s - 1 + MaxConnectAttempts ==> rest[j] == conns[j + 1];
      }
    }
    if FailStreakFromStart(rest, 1) {
      assert forall j :: 0 < j < MaxConnectAttempts ==> conns[j] == rest[j - 1];
    }
    if FailStreakAfterConnect(rest) {
      var s :| 0 <= s && s + MaxConnectAttempts <= |rest| && rest[s].Connected?
        && forall j :: s < j < s + MaxConnectAttempts ==> !rest[j].Connected?;
      assert conns[s + 1].Connected?;
      assert forall j :: s + 1 < j < s + 1 + MaxConnectAttempts ==> conns[j] == rest[j - 1];
    }
  }

  lemma FailStreakFromStartShift(conns: seq<Connection>, a: nat)
    requires a < MaxConnectAttempts
    requires |conns| > 0 && !conns[0].Connected?
    ensures FailStreakFromStart(conns, a) <==> FailStreakFromStart(conns[1..], a + 1)
  {
    assert forall i :: 0 <= i < |conns[1..]| ==> conns[1..][i] == conns[i + 1];
  }

  /** Helper: one iteration of the loop, as far as giving up goes. */
  lemma SuperviseStep(conns: seq<Connection>, a: nat, gauge: int)
    requires a < MaxConnectAttempts && |conns| > 0
    ensures Supervise(conns, a, gauge).gaveUp ==
              Supervise(conns[1..], if conns[0].Connected? then 1 else a + 1, Read(conns[0], a, gauge).gauge).gaveUp
  {
  }

  /** One failed call: sleep 2^a ms, then carry on with the counter one up
      and the gauge untouched. */
  lemma SuperviseFailed(conns: seq<Connection>, a: nat, gauge: int)
    requires a < MaxConnectAttempts && |conns| > 0 && !conns[0].Connected?
    ensures var r := Supervise(conns[1..], a + 1, gauge);
            Supervise(conns, a, gauge) == Run([Pow2(a)] + r.delays, r.sent, r.gauge, r.gaveUp)
  {
  }

  /** One connection: its tagged lines go out, then sleep 1 ms and carry on
      with the counter at 1. */
  lemma SuperviseConnected(conns: seq<Connection>, a: nat, gauge: int)
    requires a < MaxConnectAttempts && |conns| > 0 && conns[0].Connected?
    ensures var lines := conns[0].lines;
            var r := Supervise(conns[1..], 1, if |lines| == 0 then gauge else |lines|);
            Supervise(conns, a, gauge) == Run([1] + r.delays, TagLines(lines) + r.sent, r.gauge, r.gaveUp)
  {
  }

  /** The delays of `n` failed calls from counter value `a`. */
  function Backoff(a: nat, n: nat): (delays: seq<nat>)
    ensures |delays| == n
    ensures forall i :: 0 <= i < n ==> delays[i] == Pow2(a + i)
    decreases n
  {
    if n == 0 then [] else [Pow2(a)] + Backoff(a + 1, n - 1)
  }

  /** Failed calls and then a connection, before the loop gives up: the
      delays double from 2^a, then 1 ms after the connection, and the
      connection's lines are what goes out. */
  lemma {:induction false} RetriesThenConnect(failures: seq<Connection>, lines: seq<string>, a: nat, gauge: int)
    requires forall i :: 0 <= i < |failures| ==> !failures[i].Connected?
    requires a + |failures| < MaxConnectAttempts
    ensures Supervise(failures + [Connected(lines)], a, gauge)
              == Run(Backoff(a, |failures|) + [1], TagLines(lines), if |lines| == 0 then gauge else |lines|, false)
    decreases |failures|
  {
    var conns := failures + [Connected(lines)];
    SnocTail(failures, Connected(lines));
    if |failures| == 0 {
      ConnectLast(lines, a, gauge);
    } else {
      var n := |failures|;
      var rest := failures[1..] + [Connected(lines)];
      RetriesThenConnect(failures[1..], lines, a + 1, gauge);
      var r := Supervise(rest, a + 1, gauge);
      SuperviseFailed(conns, a, gauge);
      BackoffThenOne(a, n);
      calc {
        Supervise(conns, a, gauge);
        Run([Pow2(a)] + r.delays, r.sent, r.gauge, r.gaveUp);
        Run([Pow2(a)] + (Backoff(a + 1, n - 1) + [1]), TagLines(lines), r.gauge, false);
        Run(Backoff(a, n) + [1], TagLines(lines), r.gauge, false);
      }
    }
  }

  /** Helper: a last connection, before the loop gives up. */
  lemma ConnectLast(lines: seq<string>, a: nat, gauge: int)
    requires a < MaxConnectAttempts
    ensures Supervise([Connected(lines)], a, gauge) == Run([1], TagLines(lines), if |lines| == 0 then gauge else |lines|, false)
  {
    var conns := [Connected(lines)];
    SuperviseConnected(conns, a, gauge);
    assert conns[1..] == [];
    assert TagLines(lines) + [] == TagLines(lines);
  }

  /** Helper: the backoff of `n` calls is its first delay followed by the
      backoff of the remaining `n - 1`. */
  lemma BackoffThenOne(a: nat, n: nat)
    requires n > 0
    ensures [Pow2(a)] + (Backoff(a + 1, n - 1) + [1]) == Backoff(a, n) + [1]
  {
  }

  /** When the loop gives up: exactly when the connections contain 16 - a
      failures in a row from the start, or a successful connection followed
      by 15 failures in a row. After a successful connection `reader` has set
      the counter to 0 and the loop then increments it, so one failure fewer
      suffices than at start-up. */
  lemma {:induction false} GiveUpExactly(conns: seq<Connection>, a: nat, gauge: int)
    requires a <= MaxConnectAttempts
    ensures Supervise(conns, a, gauge).gaveUp <==> FailStreakFromStart(conns, a) || FailStreakAfterConnect(conns)
    decreases |conns|
  {
    if a == MaxConnectAttempts {
    } else if |conns| == 0 {
      assert !FailStreakFromStart(conns, a);
    } else {
      SuperviseStep(conns, a, gauge);
      if conns[0].Connected? {
        GiveUpExactly(conns[1..], 1, Read(conns[0], a, gauge).gauge);
        FailStreakAfterConnectHead(conns);
        assert !FailStreakFromStart(conns, a);
      } else {
        GiveUpExactly(conns[1..], a + 1, Read(conns[0], a, gauge).gauge);
        FailStreakAfterConnectShift(conns);
        FailStreakFromStartShift(conns, a);
      }
    }
  }
}
