/** The streaming parser of rsync output: a byte machine with three limits, shown to split its input into lines. */
module TransferParser {
  import opened Common
  import opened TransferLines

  /** `usize::MAX` on a 64-bit target. */
  const USIZE_MAX: nat := 0xFFFF_FFFF_FFFF_FFFF

  const NEWLINE: Byte := 0x0A

  const DEFAULT_MAX_RECORD_BYTES: nat := 1024 * 1024
  const DEFAULT_MAX_OUTPUT_RECORDS: nat := 1_000_000
  const DEFAULT_MAX_OUTPUT_BYTES: nat := 64 * 1024 * 1024

  /** The limits; the constructor raises each of them to at least 1. */
  datatype Limits = Limits(recordBytes: nat, outputRecords: nat, outputBytes: nat)
  {
    predicate Valid() {
      recordBytes >= 1 && outputRecords >= 1 && 1 <= outputBytes <= USIZE_MAX
    }
  }

  /** What has been let through so far. */
  datatype Budget = Budget(records: nat, bytes: nat, reached: bool)

  datatype State = State(buffer: Bytes, discarding: bool, budget: Budget)

  function SaturatingAdd(a: nat, b: nat): nat {
    if a + b > USIZE_MAX then USIZE_MAX else a + b
  }

  // ----- The machine -----

  /** The event loop of `append_line`. */
  function Admit(limits: Limits, records: nat, events: seq<Output>): (nat, bool, seq<Output>)
    decreases |events|
  {
    if events == [] then (records, false, [])
    else if records >= limits.outputRecords then (records, true, [Reported(OutputTooLarge)])
    else
      var (after, stopped, rest) := Admit(limits, records + 1, events[1..]);
      (after, stopped, [events[0]] + rest)
  }

  /** `append_line`. */
  function AppendLine(limits: Limits, budget: Budget, line: Bytes): (Budget, seq<Output>) {
    if budget.reached then (budget, [])
    else if SaturatingAdd(budget.bytes, |line|) > limits.outputBytes then
      (budget.(reached := true), [Reported(OutputTooLarge)])
    else
      var (records, stopped, output) := Admit(limits, budget.records, ParseLine(line));
      if stopped then (budget.(records := records, reached := true), output)
      else (Budget(records, SaturatingAdd(budget.bytes, |line|), false), output)
  }

  /** One byte of `feed`. */
  function FeedByte(limits: Limits, state: State, byte: Byte): (State, seq<Output>) {
    if state.discarding then
      if byte == NEWLINE then (state.(discarding := false), [Reported(RecordTooLong)]) else (state, [])
    else if byte == NEWLINE then
      var (budget, output) := AppendLine(limits, state.budget, state.buffer);
      (State([], false, budget), output)
    else if |state.buffer| + 1 > limits.recordBytes then (State([], true, state.budget), [])
    else (state.(buffer := state.buffer + [byte]), [])
  }

  function Feed(limits: Limits, state: State, chunk: Bytes): (State, seq<Output>) {
    if chunk == [] then (state, [])
    else
      var (before, output) := Feed(limits, state, Init(chunk));
      var (after, more) := FeedByte(limits, before, Last(chunk));
      (after, output + more)
  }

  function Finish(state: State): (State, seq<Output>) {
    if state.buffer == [] && !state.discarding then (state, [])
    else
      (State([], false, state.budget), [Reported(if state.discarding then RecordTooLong else TruncatedRecord)])
  }

  class TransferOutputParser {
    var buffer: Bytes
    var discarding: bool
    const limits: Limits
    var records: nat
    var bytes: nat
    var reached: bool

    ghost function Current(): State
      reads this
    {
      State(buffer, discarding, Budget(records, bytes, reached))
    }

    constructor (recordBytes: nat, outputRecords: nat, outputBytes: nat)
      requires outputBytes <= USIZE_MAX
      ensures limits.Valid() && Current() == State([], false, Budget(0, 0, false))
      ensures recordBytes >= 1 && outputRecords >= 1 && outputBytes >= 1 ==>
                limits == Limits(recordBytes, outputRecords, outputBytes)
    {
      limits := Limits(if recordBytes < 1 then 1 else recordBytes, if outputRecords < 1 then 1 else outputRecords,
                       if outputBytes < 1 then 1 else outputBytes);
      buffer, discarding, records, bytes, reached := [], false, 0, 0, false;
    }

    method AppendOneLine(line: Bytes) returns (output: seq<Output>)
      modifies `records, `bytes, `reached
      ensures
        var appended := AppendLine(limits, old(Current().budget), line);
        Current().budget == appended.0 && output == appended.1
    {
      output := [];
      if reached {
        return;
      }
      if SaturatingAdd(bytes, |line|) > limits.outputBytes {
        reached := true;
        return [Reported(OutputTooLarge)];
      }
      var events := ParseLine(line);
      ghost var all := Admit(limits, records, events);
      assert events[0..] == events && [] + all.2 == all.2;
      for i := 0 to |events|
        invariant !reached && bytes == old(bytes)
        invariant
          var rest := Admit(limits, records, events[i..]);
          all.0 == rest.0 && all.1 == rest.1 && all.2 == output + rest.2
      {
        var event := events[i];
        assert events[i..][1..] == events[i + 1..] && events[i..][0] == event;
        ghost var after := Admit(limits, records + 1, events[i + 1..]);
        assert output + ([event] + after.2) == output + [event] + after.2;
        if records >= limits.outputRecords {
          reached := true;
          return output + [Reported(OutputTooLarge)];
        }
        records := records + 1;
        output := output + [event];
      }
      assert events[|events|..] == [] && output + [] == output;
      bytes := SaturatingAdd(bytes, |line|);
    }

    /** `feed`. */
    method FeedChunk(chunk: Bytes) returns (output: seq<Output>)
      modifies this
      ensures Current() == Feed(limits, old(Current()), chunk).0 && output == Feed(limits, old(Current()), chunk).1
    {
      output := [];
      for i := 0 to |chunk|
        invariant Current() == Feed(limits, old(Current()), chunk[..i]).0
        invariant output == Feed(limits, old(Current()), chunk[..i]).1
      {
        assert Init(chunk[..i + 1]) == chunk[..i];
        var byte := chunk[i];
        ghost var before, step := output, FeedByte(limits, Current(), byte);
        if discarding {
          if byte == NEWLINE {
            discarding := false;
            output := output + [Reported(RecordTooLong)];
          }
        } else if byte == NEWLINE {
          var line := buffer;
          buffer := [];
          var more := AppendOneLine(line);
          output := output + more;
        } else {
          buffer := buffer + [byte];
          if |buffer| > limits.recordBytes {
            buffer := [];
            discarding := true;
          }
        }
        assert Current() == step.0 && output == before + step.1;
      }
      assert chunk[..|chunk|] == chunk;
    }

    /** `finish`. */
    method FinishOutput() returns (output: seq<Output>)
      modifies `buffer, `discarding
      ensures Current() == Finish(old(Current())).0 && output == Finish(old(Current())).1
    {
      if buffer == [] && !discarding {
        return [];
      }
      var diagnostic := if discarding then RecordTooLong else TruncatedRecord;
      buffer, discarding := [], false;
      return [Reported(diagnostic)];
    }
  }

  // ----- Splitting into lines -----

  datatype Text = Text(lines: seq<Bytes>, tail: Bytes)

  /** The complete lines of the input, and what follows the last newline. */
  function SplitLines(input: Bytes): Text {
    if input == [] then Text([], [])
    else
      var before := SplitLines(Init(input));
      if Last(input) == NEWLINE then Text(before.lines + [before.tail], [])
      else before.(tail := before.tail + [Last(input)])
  }

  function Rejoin(lines: seq<Bytes>): Bytes {
    if lines == [] then [] else Rejoin(Init(lines)) + Last(lines) + [NEWLINE]
  }

  lemma RejoinPush(lines: seq<Bytes>, line: Bytes)
    ensures Rejoin(lines + [line]) == Rejoin(lines) + line + [NEWLINE]
  {
    assert Init(lines + [line]) == lines;
  }

  lemma SplitPush(input: Bytes, byte: Byte, before: Text)
    requires SplitLines(input) == before
    ensures SplitLines(input + [byte]) ==
            if byte == NEWLINE then Text(before.lines + [before.tail], []) else Text(before.lines, before.tail + [byte])
  {
    assert Init(input + [byte]) == input;
  }

  lemma {:induction false} SplitRejoins(input: Bytes)
    ensures Rejoin(SplitLines(input).lines) + SplitLines(input).tail == input
  {
    if input != [] {
      var most, last := Init(input), Last(input);
      var before := SplitLines(most);
      SplitRejoins(most);
      assert input == most + [last];
      SplitPush(most, last, before);
      RejoinPush(before.lines, before.tail);
    }
  }

  lemma {:induction false} LinesHaveNoNewline(input: Bytes)
    ensures NEWLINE !in SplitLines(input).tail
    ensures forall i :: 0 <= i < |SplitLines(input).lines| ==> NEWLINE !in SplitLines(input).lines[i]
  {
    if input != [] {
      LinesHaveNoNewline(Init(input));
    }
  }

  /** The lines, each ended by a newline, and the tail make up the input, and none of them contains a newline. */
  lemma SplitIsFaithful(input: Bytes)
    ensures Rejoin(SplitLines(input).lines) + SplitLines(input).tail == input
    ensures NEWLINE !in SplitLines(input).tail
    ensures forall i :: 0 <= i < |SplitLines(input).lines| ==> NEWLINE !in SplitLines(input).lines[i]
  {
    SplitRejoins(input);
    LinesHaveNoNewline(input);
  }

  /** What one line yields: a line over the record limit is reported, any other is parsed within the budget. */
  function LineOutput(limits: Limits, budget: Budget, line: Bytes): (Budget, seq<Output>) {
    if |line| > limits.recordBytes then (budget, [Reported(RecordTooLong)]) else AppendLine(limits, budget, line)
  }

  function LinesOutput(limits: Limits, budget: Budget, lines: seq<Bytes>): (Budget, seq<Output>) {
    if lines == [] then (budget, [])
    else
      var (before, output) := LinesOutput(limits, budget, Init(lines));
      var (after, more) := LineOutput(limits, before, Last(lines));
      (after, output + more)
  }

  function TailOutput(limits: Limits, tail: Bytes): seq<Output> {
    if tail == [] then []
    else if |tail| > limits.recordBytes then [Reported(RecordTooLong)]
    else [Reported(TruncatedRecord)]
  }

  /** What the parser should say about an input, however it arrives. */
  function Specified(limits: Limits, budget: Budget, input: Bytes): seq<Output> {
    LinesOutput(limits, budget, SplitLines(input).lines).1 + TailOutput(limits, SplitLines(input).tail)
  }

  /** Between bytes the machine holds the tail, or has given it up; what it said and spent is what the lines call
      for. */
  lemma {:induction false} MachineFollowsLines(limits: Limits, budget: Budget, input: Bytes)
    requires limits.Valid()
    ensures
      var (state, output) := Feed(limits, State([], false, budget), input);
      var text := SplitLines(input);
      && state.budget == LinesOutput(limits, budget, text.lines).0
      && output == LinesOutput(limits, budget, text.lines).1
      && state.discarding == (|text.tail| > limits.recordBytes)
      && state.buffer == (if state.discarding then [] else text.tail)
  {
    if input != [] {
      var before := SplitLines(Init(input));
      MachineFollowsLines(limits, budget, Init(input));
      if Last(input) == NEWLINE {
        var lines := before.lines + [before.tail];
        assert Init(lines) == before.lines && Last(lines) == before.tail;
      } else {
        var output := Feed(limits, State([], false, budget), Init(input)).1;
        assert output + [] == output;
      }
    }
  }

  /** The chunks, one after another. */
  function Flatten(chunks: seq<Bytes>): Bytes {
    if chunks == [] then [] else Flatten(Init(chunks)) + Last(chunks)
  }

  function FeedAll(limits: Limits, state: State, chunks: seq<Bytes>): (State, seq<Output>) {
    if chunks == [] then (state, [])
    else
      var (before, output) := FeedAll(limits, state, Init(chunks));
      var (after, more) := Feed(limits, before, Last(chunks));
      (after, output + more)
  }

  /** The last byte of a chunk, fed behind the rest. */
  lemma FeedPush(limits: Limits, state: State, chunk: Bytes, byte: Byte, before: (State, seq<Output>))
    requires Feed(limits, state, chunk) == before
    ensures Feed(limits, state, chunk + [byte]) ==
            (FeedByte(limits, before.0, byte).0, before.1 + FeedByte(limits, before.0, byte).1)
  {
    assert Init(chunk + [byte]) == chunk && Last(chunk + [byte]) == byte;
  }

  lemma {:induction false} FeedInTwoParts(limits: Limits, state: State, first: Bytes, second: Bytes)
    ensures
      var between := Feed(limits, state, first);
      var after := Feed(limits, between.0, second);
      Feed(limits, state, first + second) == (after.0, between.1 + after.1)
  {
    var between := Feed(limits, state, first);
    if second == [] {
      assert first + second == first && between.1 + [] == between.1;
    } else {
      var most, last := Init(second), Last(second);
      FeedInTwoParts(limits, state, first, most);
      var middle := Feed(limits, between.0, most);
      JoinPush(first, second);
      FeedPush(limits, state, first + most, last, (middle.0, between.1 + middle.1));
      FeedPush(limits, between.0, most, last, middle);
      Associate(between.1, middle.1, FeedByte(limits, middle.0, last).1);
    }
  }

  lemma JoinPush(first: Bytes, second: Bytes)
    requires second != []
    ensures second == Init(second) + [Last(second)] && first + second == (first + Init(second)) + [Last(second)]
  {
  }

  lemma Associate(a: seq<Output>, b: seq<Output>, c: seq<Output>)
    ensures (a + b) + c == a + (b + c)
  {
  }

  lemma {:induction false} ChunksDoNotMatter(limits: Limits, state: State, chunks: seq<Bytes>)
    ensures FeedAll(limits, state, chunks) == Feed(limits, state, Flatten(chunks))
  {
    if chunks != [] {
      ChunksDoNotMatter(limits, state, Init(chunks));
      FeedInTwoParts(limits, state, Flatten(Init(chunks)), Last(chunks));
    }
  }

  /** For every way of cutting an input into chunks, feeding them and finishing says exactly what its lines call for. */
  lemma StreamingRefinesLines(limits: Limits, budget: Budget, chunks: seq<Bytes>)
    requires limits.Valid()
    ensures
      var (state, output) := FeedAll(limits, State([], false, budget), chunks);
      && output + Finish(state).1 == Specified(limits, budget, Flatten(chunks))
      && |state.buffer| <= limits.recordBytes
      && Finish(state).0 == State([], false, LinesOutput(limits, budget, SplitLines(Flatten(chunks)).lines).0)
  {
    ChunksDoNotMatter(limits, State([], false, budget), chunks);
    MachineFollowsLines(limits, budget, Flatten(chunks));
  }

  /** Within one chunk, too, the buffer never exceeds the record limit between two bytes. */
  lemma {:induction false} BufferIsBounded(limits: Limits, state: State, chunk: Bytes)
    requires limits.Valid() && |state.buffer| <= limits.recordBytes
    ensures |Feed(limits, state, chunk).0.buffer| <= limits.recordBytes
  {
    if chunk != [] {
      BufferIsBounded(limits, state, Init(chunk));
    }
  }

  // ----- The output limits -----

  predicate Within(limits: Limits, budget: Budget) {
    budget.records <= limits.outputRecords && budget.bytes <= limits.outputBytes
  }

  /** Total length of the lines that are short enough to be parsed. */
  function ShortBytes(limits: Limits, lines: seq<Bytes>): nat {
    if lines == [] then 0
    else ShortBytes(limits, Init(lines)) + if |Last(lines)| > limits.recordBytes then 0 else |Last(lines)|
  }

  /** What the lines say without any output limit. */
  function Unlimited(limits: Limits, lines: seq<Bytes>): seq<Output> {
    if lines == [] then []
    else
      Unlimited(limits, Init(lines)) +
      if |Last(lines)| > limits.recordBytes then [Reported(RecordTooLong)] else ParseLine(Last(lines))
  }

  /** How many events the short lines give. */
  function ShortEvents(limits: Limits, lines: seq<Bytes>): nat {
    if lines == [] then 0
    else ShortEvents(limits, Init(lines)) + if |Last(lines)| > limits.recordBytes then 0 else |ParseLine(Last(lines))|
  }

  predicate Fits(limits: Limits, lines: seq<Bytes>) {
    && SaturatingAdd(ShortBytes(limits, lines), 0) <= limits.outputBytes
    && ShortEvents(limits, lines) <= limits.outputRecords
  }

  function CountTooLarge(output: seq<Output>): nat {
    if output == [] then 0 else CountTooLarge(Init(output)) + if Last(output) == Reported(OutputTooLarge) then 1 else 0
  }

  predicate IsAction(output: Output) {
    output.Itemized? || output.Progress?
  }

  lemma AdmitIsBounded(limits: Limits, records: nat, events: seq<Output>)
    requires |events| <= 1 && records <= limits.outputRecords
    ensures
      var (after, stopped, output) := Admit(limits, records, events);
      && after <= limits.outputRecords
      && (stopped <==> records + |events| > limits.outputRecords)
      && output == (if stopped then [Reported(OutputTooLarge)] else events)
      && (!stopped ==> after == records + |events|)
  {
    if events != [] {
      assert events[1..] == [] && events == [events[0]];
    }
  }

  /** The machine spends its budget exactly: nothing is withheld while the short lines fit the limits, the limit is
      reached exactly when they no longer fit, and the counters stay within the limits. */
  lemma {:induction false} BudgetExactly(limits: Limits, lines: seq<Bytes>)
    requires limits.Valid()
    ensures
      var (budget, output) := LinesOutput(limits, Budget(0, 0, false), lines);
      && Within(limits, budget)
      && (budget.reached <==> !Fits(limits, lines))
      && (!budget.reached ==>
            && output == Unlimited(limits, lines)
            && budget.records == ShortEvents(limits, lines)
            && budget.bytes == SaturatingAdd(ShortBytes(limits, lines), 0))
  {
    if lines != [] {
      BudgetExactly(limits, Init(lines));
      var budget := LinesOutput(limits, Budget(0, 0, false), Init(lines)).0;
      AdmitIsBounded(limits, budget.records, ParseLine(Last(lines)));
    }
  }

  lemma CountTooLargePush(output: seq<Output>, last: Output)
    ensures CountTooLarge(output + [last]) == CountTooLarge(output) + if last == Reported(OutputTooLarge) then 1 else 0
  {
    assert Init(output + [last]) == output;
  }

  /** No action comes after an OutputTooLarge. */
  predicate Quiet(output: seq<Output>) {
    forall i, j :: 0 <= i < j < |output| && output[i] == Reported(OutputTooLarge) ==> !IsAction(output[j])
  }

  lemma QuietPush(output: seq<Output>, last: Output)
    requires Quiet(output) && (CountTooLarge(output) == 0 || !IsAction(last))
    ensures Quiet(output + [last])
  {
    CountIsPositive(output);
    var pushed := output + [last];
    forall i, j | 0 <= i < j < |pushed| && pushed[i] == Reported(OutputTooLarge) ensures !IsAction(pushed[j]) {
      assert pushed[i] == output[i] && output[i] in output;
    }
  }

  /** What a line adds is at most one event, and OutputTooLarge exactly when it reaches the limit. */
  lemma LineAddsOne(limits: Limits, budget: Budget, line: Bytes)
    requires limits.Valid() && Within(limits, budget)
    ensures
      var (after, more) := LineOutput(limits, budget, line);
      && |more| <= 1
      && (more == [Reported(OutputTooLarge)] <==> after.reached && !budget.reached)
      && (budget.reached ==> after.reached && forall i :: 0 <= i < |more| ==> !IsAction(more[i]))
  {
    AdmitIsBounded(limits, budget.records, ParseLine(line));
    ParseLineIsWithinLimits(line);
  }

  /** OutputTooLarge is said exactly once when the limit is reached and never before; no action follows it. */
  lemma {:induction false} NothingActsBeyondTheLimit(limits: Limits, lines: seq<Bytes>)
    requires limits.Valid()
    ensures
      var (budget, output) := LinesOutput(limits, Budget(0, 0, false), lines);
      CountTooLarge(output) == (if budget.reached then 1 else 0) && Quiet(output)
  {
    if lines != [] {
      var (budget, output) := LinesOutput(limits, Budget(0, 0, false), Init(lines));
      NothingActsBeyondTheLimit(limits, Init(lines));
      BudgetExactly(limits, Init(lines));
      LineAddsOne(limits, budget, Last(lines));
      var more := LineOutput(limits, budget, Last(lines)).1;
      if more == [] {
        assert output + more == output;
      } else {
        assert more == [more[0]];
        CountTooLargePush(output, more[0]);
        QuietPush(output, more[0]);
      }
    }
  }

  /** However the input is cut, the whole output says OutputTooLarge at most once, exactly when the short lines do not
      fit the limits, and no action follows it. */
  lemma WholeOutputIsQuiet(limits: Limits, chunks: seq<Bytes>)
    requires limits.Valid()
    ensures
      var (state, output) := FeedAll(limits, State([], false, Budget(0, 0, false)), chunks);
      var whole := output + Finish(state).1;
      && CountTooLarge(whole) == (if Fits(limits, SplitLines(Flatten(chunks)).lines) then 0 else 1)
      && Quiet(whole) && Within(limits, state.budget)
  {
    var start, input := State([], false, Budget(0, 0, false)), Flatten(chunks);
    ChunksDoNotMatter(limits, start, chunks);
    MachineFollowsLines(limits, start.budget, input);
    var text := SplitLines(input);
    BudgetExactly(limits, text.lines);
    NothingActsBeyondTheLimit(limits, text.lines);
    var (state, output) := Feed(limits, start, input);
    var last := Finish(state).1;
    if last == [] {
      assert output + last == output;
    } else {
      assert last == [last[0]];
      CountTooLargePush(output, last[0]);
      QuietPush(output, last[0]);
    }
  }

  lemma ParseLineIsWithinLimits(line: Bytes)
    ensures Reported(OutputTooLarge) !in ParseLine(line)
  {
  }

  lemma {:induction false} CountIsPositive(output: seq<Output>)
    ensures CountTooLarge(output) == 0 <==> Reported(OutputTooLarge) !in output
  {
    if output != [] {
      CountIsPositive(Init(output));
      assert output == Init(output) + [Last(output)];
    }
  }

  // ----- The whole parse -----

  /** `ParsedTransferOutput`: the outputs of each kind, in the order they came. */
  datatype ParsedTransferOutput =
    ParsedTransferOutput(itemized: seq<Output>, progress: seq<Output>, diagnostics: seq<Output>)
  {
    function Push(event: Output): ParsedTransferOutput {
      match event
      case Itemized(_, _) => this.(itemized := itemized + [event])
      case Progress(_, _) => this.(progress := progress + [event])
      case Reported(_) => this.(diagnostics := diagnostics + [event])
    }
  }

  function Collected(output: seq<Output>): ParsedTransferOutput {
    if output == [] then ParsedTransferOutput([], [], []) else Collected(Init(output)).Push(Last(output))
  }

  function CountActions(output: seq<Output>): nat {
    if output == [] then 0 else CountActions(Init(output)) + if IsAction(Last(output)) then 1 else 0
  }

  lemma {:induction false} CollectedCounts(output: seq<Output>)
    ensures |Collected(output).itemized| + |Collected(output).progress| == CountActions(output)
    ensures |Collected(output).diagnostics| == |output| - CountActions(output)
    ensures CountTooLarge(Collected(output).diagnostics) == CountTooLarge(output)
  {
    if output != [] {
      CollectedCounts(Init(output));
      if Last(output).Reported? {
        CountTooLargePush(Collected(Init(output)).diagnostics, Last(output));
      }
    }
  }

  lemma CountActionsPush(output: seq<Output>, last: Output)
    ensures CountActions(output + [last]) == CountActions(output) + if IsAction(last) then 1 else 0
  {
    assert Init(output + [last]) == output;
  }

  lemma LineActs(limits: Limits, budget: Budget, line: Bytes)
    requires limits.Valid() && Within(limits, budget)
    ensures
      var (after, more) := LineOutput(limits, budget, line);
      && |more| <= 1
      && budget.records + CountActions(more) <= after.records
  {
    AdmitIsBounded(limits, budget.records, ParseLine(line));
    LineAddsOne(limits, budget, line);
  }

  /** Every action is paid for. */
  lemma {:induction false} ActionsAreBounded(limits: Limits, lines: seq<Bytes>)
    requires limits.Valid()
    ensures
      var (budget, output) := LinesOutput(limits, Budget(0, 0, false), lines);
      CountActions(output) <= budget.records
  {
    if lines != [] {
      var (budget, output) := LinesOutput(limits, Budget(0, 0, false), Init(lines));
      ActionsAreBounded(limits, Init(lines));
      BudgetExactly(limits, Init(lines));
      LineActs(limits, budget, Last(lines));
      var more := LineOutput(limits, budget, Last(lines)).1;
      if more == [] {
        assert output + more == output;
      } else {
        assert more == [more[0]];
        CountActionsPush(output, more[0]);
      }
    }
  }

  lemma SpecifiedActions(limits: Limits, input: Bytes)
    requires limits.Valid()
    ensures CountActions(Specified(limits, Budget(0, 0, false), input)) <= limits.outputRecords
  {
    var text := SplitLines(input);
    ActionsAreBounded(limits, text.lines);
    BudgetExactly(limits, text.lines);
    var output, last := LinesOutput(limits, Budget(0, 0, false), text.lines).1, TailOutput(limits, text.tail);
    if last == [] {
      assert output + last == output;
    } else {
      assert last == [last[0]];
      CountActionsPush(output, last[0]);
    }
  }

  const DEFAULT_LIMITS: Limits :=
    Limits(DEFAULT_MAX_RECORD_BYTES, DEFAULT_MAX_OUTPUT_RECORDS, DEFAULT_MAX_OUTPUT_BYTES)

  lemma CollectedPush(output: seq<Output>, event: Output)
    ensures Collected(output + [event]) == Collected(output).Push(event)
  {
    assert Init(output + [event]) == output;
  }

  /** Pushing the events one by one. */
  method PushAll(before: ParsedTransferOutput, events: seq<Output>, ghost said: seq<Output>)
    returns (parsed: ParsedTransferOutput)
    requires before == Collected(said)
    ensures parsed == Collected(said + events)
  {
    parsed := before;
    assert said + events[..0] == said;
    for i := 0 to |events|
      invariant parsed == Collected(said + events[..i])
    {
      CollectedPush(said + events[..i], events[i]);
      assert said + events[..i + 1] == said + events[..i] + [events[i]];
      parsed := parsed.Push(events[i]);
    }
    assert events[..|events|] == events;
  }

  /** `parse_chunks`. What it collects is what the lines and the tail of the whole input call for. It has no more
      records than the limit; it says OutputTooLarge at most once, exactly when the short lines do not fit the limits,
      and no record collected came after it. */
  method ParseChunks(chunks: seq<Bytes>) returns (parsed: ParsedTransferOutput, ghost output: seq<Output>)
    ensures output == Specified(DEFAULT_LIMITS, Budget(0, 0, false), Flatten(chunks))
    ensures parsed == Collected(output) && Quiet(output)
    ensures |parsed.itemized| + |parsed.progress| <= DEFAULT_MAX_OUTPUT_RECORDS
    ensures |parsed.itemized| + |parsed.progress| + |parsed.diagnostics| == |output|
    ensures CountTooLarge(parsed.diagnostics) ==
            if Fits(DEFAULT_LIMITS, SplitLines(Flatten(chunks)).lines) then 0 else 1
  {
    var parser := new TransferOutputParser(
      DEFAULT_MAX_RECORD_BYTES, DEFAULT_MAX_OUTPUT_RECORDS, DEFAULT_MAX_OUTPUT_BYTES);
    parsed, output := ParsedTransferOutput([], [], []), [];
    ghost var start := parser.Current();
    for i := 0 to |chunks|
      invariant (parser.Current(), output) == FeedAll(DEFAULT_LIMITS, start, chunks[..i])
      invariant parsed == Collected(output)
    {
      assert Init(chunks[..i + 1]) == chunks[..i];
      var events := parser.FeedChunk(chunks[i]);
      parsed := PushAll(parsed, events, output);
      output := output + events;
    }
    assert chunks[..|chunks|] == chunks;
    var events := parser.FinishOutput();
    parsed := PushAll(parsed, events, output);
    output := output + events;
    StreamingRefinesLines(DEFAULT_LIMITS, start.budget, chunks);
    WholeOutputIsQuiet(DEFAULT_LIMITS, chunks);
    CollectedCounts(output);
    SpecifiedActions(DEFAULT_LIMITS, Flatten(chunks));
  }
}
