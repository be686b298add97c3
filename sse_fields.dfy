/**
 * decodeEvent (lib/chat/stream.ts): the `event:` and `data:` fields of one
 * block, read line by line.
 */
module SseFields {
  import opened Wrappers
  import opened Text

  /** What decodeEvent has gathered so far: the event name, and the data lines in order. */
  datatype Fields = Fields(event: Option<string>, dataLines: seq<string>)

  /** What decodeEvent returns: the event name and the joined data, either of which may be absent. */
  datatype Decoded = Decoded(event: Option<string>, data: Option<string>)

  /**
   * A line that opens with "event:" and also holds "data:": the name is
   * the text after "event:" up to the first "data:", the data the text
   * between the first and the second "data:" (or the end).
   */
  function LeadingEventLine(f: Fields, line: string): Fields
    requires Contains(line, "data:")
  {
    SplitFirstTwo(line, "data:");
    var parts := Split(line, "data:");
    Fields(Some(Trim(Slice(parts[0], 6, |parts[0]|))), f.dataLines + [Trim(parts[1])])
  }

  /** A line holding both fields elsewhere: the name between "event:" and "data:", the data after "data:". */
  function CombinedLine(f: Fields, line: string): Fields
    requires Contains(line, "event:") && Contains(line, "data:")
  {
    var eventIndex := IndexOf(line, "event:");
    var dataIndex := IndexOf(line, "data:");
    Fields(Some(Trim(Slice(line, eventIndex + 6, dataIndex))), f.dataLines + [Trim(Slice(line, dataIndex + 5, |line|))])
  }

  /** An ordinary line: "event:" sets the name, "data:" adds a data line, anything else is ignored. */
  function OrdinaryLine(f: Fields, line: string): Fields {
    if StartsWith(line, "event:") then Fields(Some(Trim(Slice(line, 6, |line|))), f.dataLines)
    else if StartsWith(line, "data:") then Fields(f.event, f.dataLines + [Trim(Slice(line, 5, |line|))])
    else f
  }

  /**
   * One line of decodeEvent as written: the second branch takes every line
   * holding both fields, whatever their order (its check that "event:"
   * occurs always passes).
   */
  function LineStepAsWritten(f: Fields, line: string): (r: Fields)
    ensures r.dataLines == f.dataLines || (|r.dataLines| == |f.dataLines| + 1 && r.dataLines[..|f.dataLines|] == f.dataLines && Contains(line, "data:"))
    ensures r.event != f.event ==> Contains(line, "event:")
  {
    if line == "" then f
    else if StartsWith(line, "event:") && Contains(line, "data:") then LeadingEventLine(f, line)
    else if Contains(line, "event:") && Contains(line, "data:") then
      if IndexOf(line, "event:") != -1 then CombinedLine(f, line) else f
    else OrdinaryLine(f, line)
  }

  /**
   * One line of decodeEvent as it is meant to work: the second branch
   * only takes a line whose "event:" comes before its "data:"; any other
   * line is read as an ordinary line.
   */
  function LineStep(f: Fields, line: string): Fields {
    if line == "" then f
    else if StartsWith(line, "event:") && Contains(line, "data:") then LeadingEventLine(f, line)
    else if Contains(line, "event:") && Contains(line, "data:") && IndexOf(line, "event:") < IndexOf(line, "data:") then
      CombinedLine(f, line)
    else OrdinaryLine(f, line)
  }

  /** The lines read first to last with `step`, from no name and no data. */
  function Fold(lines: seq<string>, step: (Fields, string) -> Fields): Fields {
    if lines == [] then Fields(None, [])
    else step(Fold(lines[..|lines| - 1], step), lines[|lines| - 1])
  }

  /** Reading one more line is one more step. */
  lemma FoldSnoc(lines: seq<string>, n: nat, step: (Fields, string) -> Fields)
    requires n < |lines|
    ensures Fold(lines[..n + 1], step) == step(Fold(lines[..n], step), lines[n])
  {
    assert lines[..n + 1][..n] == lines[..n];
  }

  /** The result of decodeEvent: data is present exactly when some data line was read, and then they are joined by "\n". */
  function Finish(f: Fields): (d: Decoded)
    ensures d.event == f.event
    ensures d.data.Some? <==> f.dataLines != []
    ensures f.dataLines != [] ==> d.data == Some(Join(f.dataLines, "\n"))
  {
    Decoded(f.event, if |f.dataLines| > 0 then Some(Join(f.dataLines, "\n")) else None)
  }

  /** decodeEvent on a block as it is meant to work. */
  function DecodeBlock(raw: string): Decoded {
    Finish(Fold(SplitLines(raw), LineStep))
  }

  /** decodeEvent on a block as written. */
  function DecodeBlockAsWritten(raw: string): Decoded {
    Finish(Fold(SplitLines(raw), LineStepAsWritten))
  }

  /** The first branch of decodeEvent's loop: split at "data:", the name from the first part, the data from the second. */
  method ReadLeadingEventLine(eventName: Option<string>, dataLines: seq<string>, line: string)
    returns (eventName': Option<string>, dataLines': seq<string>)
    requires Contains(line, "data:")
    ensures Fields(eventName', dataLines') == LeadingEventLine(Fields(eventName, dataLines), line)
  {
    SplitFirstTwo(line, "data:");
    var parts := Split(line, "data:");
    eventName' := Some(Trim(Slice(parts[0], 6, |parts[0]|)));
    dataLines' := dataLines + [Trim(parts[1])];
  }

  /** The second branch of decodeEvent's loop: the name between the two fields, the data after "data:". */
  method ReadCombinedLine(eventName: Option<string>, dataLines: seq<string>, line: string)
    returns (eventName': Option<string>, dataLines': seq<string>)
    requires Contains(line, "event:") && Contains(line, "data:")
    ensures Fields(eventName', dataLines') == CombinedLine(Fields(eventName, dataLines), line)
  {
    var eventIndex := IndexOf(line, "event:");
    var dataIndex := IndexOf(line, "data:");
    assert eventIndex >= 0 && dataIndex >= 0;
    eventName' := Some(Trim(Slice(line, eventIndex + 6, dataIndex)));
    dataLines' := dataLines + [Trim(Slice(line, dataIndex + 5, |line|))];
  }

  /**
   * The body of decodeEvent's loop: one line read into the name and the
   * data lines, the three branches tried in the source's order. The second
   * branch takes every line holding both fields, whatever their order.
   */
  method ReadLine(eventName: Option<string>, dataLines: seq<string>, line: string)
    returns (eventName': Option<string>, dataLines': seq<string>)
    ensures Fields(eventName', dataLines') == LineStepAsWritten(Fields(eventName, dataLines), line)
  {
    eventName', dataLines' := eventName, dataLines;
    if line == "" {
      return;
    }
    if StartsWith(line, "event:") && Contains(line, "data:") {
      eventName', dataLines' := ReadLeadingEventLine(eventName, dataLines, line);
      return;
    }
    if Contains(line, "event:") && Contains(line, "data:") {
      var eventIndex := IndexOf(line, "event:");
      if eventIndex != -1 {
        eventName', dataLines' := ReadCombinedLine(eventName, dataLines, line);
      }
      return;
    }
    if StartsWith(line, "event:") {
      eventName' := Some(Trim(Slice(line, 6, |line|)));
    } else if StartsWith(line, "data:") {
      dataLines' := dataLines + [Trim(Slice(line, 5, |line|))];
    }
  }

  /**
   * decodeEvent: the block is split into lines at "\n" or "\r\n", and each
   * non-empty line updates the event name or appends a data line.
   */
  method DecodeEvent(raw: string) returns (d: Decoded)
    ensures d == DecodeBlockAsWritten(raw)
  {
    var lines := SplitLines(raw);
    var eventName: Option<string> := None;
    var dataLines: seq<string> := [];
    for n := 0 to |lines|
      invariant Fields(eventName, dataLines) == Fold(lines[..n], LineStepAsWritten)
    {
      FoldSnoc(lines, n, LineStepAsWritten);
      eventName, dataLines := ReadLine(eventName, dataLines, lines[n]);
    }
    assert lines[..|lines|] == lines;
    d := Decoded(eventName, if |dataLines| > 0 then Some(Join(dataLines, "\n")) else None);
  }


  /** A line that is not one of the two combined forms: it does not hold both "event:" and "data:". */
  predicate IsOrdinary(line: string) {
    !(Contains(line, "event:") && Contains(line, "data:"))
  }

  /** The trimmed remainders of the lines that start with "data:", in order. */
  function DataValues(lines: seq<string>): seq<string> {
    if lines == [] then []
    else
      var line := lines[|lines| - 1];
      DataValues(lines[..|lines| - 1]) + (if StartsWith(line, "data:") then [Trim(line[5..])] else [])
  }

  /** A line opening with "data:" does not open with "event:". */
  lemma DataLineIsNotEventLine(line: string)
    requires StartsWith(line, "data:")
    ensures !StartsWith(line, "event:")
  {
    assert line[..5][0] == 'd';
  }

  /** A line opening with "event:" names the event; one opening with "data:" does not. */
  lemma OrdinaryLineFields(f: Fields, line: string)
    requires IsOrdinary(line)
    ensures var g := LineStep(f, line);
      && g.event == (if StartsWith(line, "event:") then Some(Trim(line[6..])) else f.event)
      && g.dataLines == f.dataLines + (if StartsWith(line, "data:") then [Trim(line[5..])] else [])
  {
    if StartsWith(line, "event:") {
      SliceToEnd(line, 6);
    }
    if StartsWith(line, "data:") {
      SliceToEnd(line, 5);
      assert line[..5] == "data:";
      DataLineIsNotEventLine(line);
    }
  }

  /** Of a block of ordinary lines, data lines contribute their trimmed remainders, in order; empty lines and other lines contribute nothing. */
  lemma {:induction false} OrdinaryData(lines: seq<string>)
    requires forall k :: 0 <= k < |lines| ==> IsOrdinary(lines[k])
    ensures Fold(lines, LineStep).dataLines == DataValues(lines)
  {
    if lines != [] {
      var init := lines[..|lines| - 1];
      OrdinaryData(init);
      OrdinaryLineFields(Fold(init, LineStep), lines[|lines| - 1]);
    }
  }

  /** Of a block of ordinary lines, there is no name exactly when no line opens with "event:". */
  lemma {:induction false} OrdinaryEventAbsent(lines: seq<string>)
    requires forall k :: 0 <= k < |lines| ==> IsOrdinary(lines[k])
    ensures Fold(lines, LineStep).event == None <==> forall k :: 0 <= k < |lines| ==> !StartsWith(lines[k], "event:")
  {
    if lines != [] {
      var init := lines[..|lines| - 1];
      var last := lines[|lines| - 1];
      assert forall k :: 0 <= k < |init| ==> init[k] == lines[k];
      OrdinaryEventAbsent(init);
      OrdinaryLineFields(Fold(init, LineStep), last);
      if !StartsWith(last, "event:") {
        assert (forall k :: 0 <= k < |lines| ==> !StartsWith(lines[k], "event:"))
          <==> (forall k :: 0 <= k < |init| ==> !StartsWith(init[k], "event:"));
      }
    }
  }

  /** Of a block of ordinary lines, the name is read from the last line that opens with "event:". */
  lemma {:induction false} OrdinaryEventLast(lines: seq<string>)
    requires forall k :: 0 <= k < |lines| ==> IsOrdinary(lines[k])
    ensures forall k :: 0 <= k < |lines| ==>
      (StartsWith(lines[k], "event:") && forall m :: k < m < |lines| ==> !StartsWith(lines[m], "event:")) ==>
      Fold(lines, LineStep).event == Some(Trim(lines[k][6..]))
  {
    if lines != [] {
      var init := lines[..|lines| - 1];
      var last := lines[|lines| - 1];
      assert forall k :: 0 <= k < |init| ==> init[k] == lines[k];
      OrdinaryEventLast(init);
      OrdinaryLineFields(Fold(init, LineStep), last);
      forall k | 0 <= k < |init| && StartsWith(lines[k], "event:") && forall m :: k < m < |lines| ==> !StartsWith(lines[m], "event:")
        ensures Fold(lines, LineStep).event == Some(Trim(lines[k][6..]))
      {
        assert !StartsWith(lines[|lines| - 1], "event:");
        assert forall m :: k < m < |init| ==> !StartsWith(init[m], "event:");
      }
    }
  }

  /**
   * Of a block of ordinary lines, the event is named by the last line that
   * opens with "event:": a later one overrides an earlier one, and there is
   * no name when no line opens with it.
   */
  lemma OrdinaryEvent(lines: seq<string>)
    requires forall k :: 0 <= k < |lines| ==> IsOrdinary(lines[k])
    ensures var name := Fold(lines, LineStep).event;
      && (name == None <==> forall k :: 0 <= k < |lines| ==> !StartsWith(lines[k], "event:"))
      && forall k :: 0 <= k < |lines| ==>
           (StartsWith(lines[k], "event:") && forall m :: k < m < |lines| ==> !StartsWith(lines[m], "event:")) ==>
           name == Some(Trim(lines[k][6..]))
  {
    OrdinaryEventAbsent(lines);
    OrdinaryEventLast(lines);
  }

  /**
   * decodeEvent on a block of ordinary lines, as written and as meant
   * alike: the data lines joined by "\n", or no data when there are none.
   */
  lemma OrdinaryBlock(raw: string)
    requires forall k :: 0 <= k < |SplitLines(raw)| ==> IsOrdinary(SplitLines(raw)[k])
    ensures DecodeBlockAsWritten(raw) == DecodeBlock(raw)
    ensures var values := DataValues(SplitLines(raw));
      DecodeBlock(raw).data == if values == [] then None else Some(Join(values, "\n"))
  {
    OrdinaryData(SplitLines(raw));
    DecodeAgrees(raw);
  }

  /** "data:" cannot start inside the "event:" a line opens with. */
  lemma NoDataInEventMarker(line: string, i: nat)
    requires StartsWith(line, "event:") && OccursAt(line, "data:", i)
    ensures 6 <= i
  {
    assert line[i] == 'd' by {
      assert line[i..i + 5][0] == line[i];
    }
    assert line[..6] == "event:";
    forall k | 0 <= k < 6 ensures line[k] != 'd' {
      assert line[k] == line[..6][k];
    }
  }

  /**
   * A line opening with "event:" that holds "data:": the name is the
   * trimmed text before the first "data:", the data the trimmed text
   * between the first and the second "data:" (or the end).
   */
  lemma LeadingEventFields(f: Fields, line: string)
    requires StartsWith(line, "event:") && Contains(line, "data:")
    ensures var i := IndexOf(line, "data:");
      var j := IndexOfFrom(line, "data:", i + 5);
      && 6 <= i
      && LineStep(f, line) == Fields(Some(Trim(line[6..i])),
           f.dataLines + [Trim(if j == -1 then line[i + 5..] else line[i + 5..j])])
  {
    var i := IndexOf(line, "data:");
    SplitFirstTwo(line, "data:");
    IndexOfFound(line, "data:");
    NoDataInEventMarker(line, i);
    var head := Split(line, "data:")[0];
    SliceToEnd(head, 6);
    assert head[6..] == line[6..i];
  }

  /** A line opening with "data:" adds its trimmed remainder and leaves the event name as it was, whatever it mentions. */
  lemma DataLineKeepsEvent(f: Fields, line: string)
    requires StartsWith(line, "data:")
    ensures LineStep(f, line) == Fields(f.event, f.dataLines + [Trim(line[5..])])
  {
    assert line[..5] == "data:";
    assert OccursAt(line, "data:", 0);
    assert IndexOf(line, "data:") == 0;
    SliceToEnd(line, 5);
    DataLineIsNotEventLine(line);
  }

  /** As written, a line opening with "data:" whose text mentions "event:" blanks out the event name. */
  lemma AsWrittenBlanksEvent(f: Fields, line: string)
    requires StartsWith(line, "data:") && Contains(line, "event:")
    ensures LineStepAsWritten(f, line) == Fields(Some(""), f.dataLines + [Trim(line[5..])])
  {
    assert line[..5] == "data:";
    assert OccursAt(line, "data:", 0);
    assert IndexOf(line, "data:") == 0;
    SliceToEnd(line, 5);
    DataLineIsNotEventLine(line);
  }

  /** A line holding both fields, "data:" first. */
  predicate DataBeforeEvent(line: string) {
    Contains(line, "event:") && Contains(line, "data:") && IndexOf(line, "data:") < IndexOf(line, "event:")
  }

  /** The two readings differ only on lines holding "data:" before "event:". */
  lemma AsWrittenAgrees(f: Fields, line: string)
    requires !DataBeforeEvent(line)
    ensures LineStepAsWritten(f, line) == LineStep(f, line)
  {
    if Contains(line, "event:") && Contains(line, "data:") {
      var e := IndexOf(line, "event:");
      var d := IndexOf(line, "data:");
      IndexOfFound(line, "event:");
      IndexOfFound(line, "data:");
      assert line[e] == 'e' by {
        assert line[e..e + 6][0] == line[e];
      }
      assert line[d] == 'd' by {
        assert line[d..d + 5][0] == line[d];
      }
    }
  }

  /** On lines none of which holds "data:" before "event:", the source's fold is the corrected one. */
  lemma {:induction false} FoldsAgree(lines: seq<string>)
    requires forall k :: 0 <= k < |lines| ==> !DataBeforeEvent(lines[k])
    ensures Fold(lines, LineStepAsWritten) == Fold(lines, LineStep)
  {
    if lines != [] {
      var init := lines[..|lines| - 1];
      assert forall k :: 0 <= k < |init| ==> init[k] == lines[k];
      FoldsAgree(init);
      AsWrittenAgrees(Fold(init, LineStep), lines[|lines| - 1]);
    }
  }

  /** decodeEvent as written and as meant give the same result on a block with no line holding "data:" before "event:". */
  lemma DecodeAgrees(raw: string)
    requires forall k :: 0 <= k < |SplitLines(raw)| ==> !DataBeforeEvent(SplitLines(raw)[k])
    ensures DecodeBlockAsWritten(raw) == DecodeBlock(raw)
  {
    FoldsAgree(SplitLines(raw));
  }

  /**
   * A block whose data line mentions "event:" after "data:": as written the
   * name read before it is replaced by "", as meant it is kept.
   */
  lemma DataMentioningEvent(first: string, line: string)
    requires StartsWith(line, "data:") && Contains(line, "event:")
    ensures Fold([first, line], LineStepAsWritten).event == Some("")
    ensures Fold([first, line], LineStep).event == Fold([first], LineStep).event
  {
    assert [first, line][..1] == [first];
    AsWrittenBlanksEvent(Fold([first], LineStepAsWritten), line);
    DataLineKeepsEvent(Fold([first], LineStep), line);
  }
}
