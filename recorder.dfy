/** The recording loop of `main`: the header is written once, the first timestamp is
    taken, then every frame read produces one row that goes to the file and, as the
    same text, to the console. The frames and the clock readings are inputs; the loop
    is run over a finite sequence of them. */
module Recorder {
  import opened CTypes
  import opened Clock
  import opened Text
  import opened Csv

  /** One pass of the loop: the frame `read` left in `frame`, and the clock reading
      taken right after it. */
  datatype Reception = Reception(frame: CanFrame, clock: Timespec)

  /** The timestamp printed for a reception: microseconds since `firstTimestamp`. */
  function Stamp(first: U64, rx: Reception): (r: U64)
  {
    Elapsed(GetMicrosecond(rx.clock), first)
  }

  /** The rows for the receptions, in reception order. */
  function RowList(first: U64, rxs: seq<Reception>): (r: seq<string>)
  {
    seq(|rxs|, i requires 0 <= i < |rxs| => Row(Stamp(first, rxs[i]), rxs[i].frame))
  }

  /** The text the loop emits for the receptions, to each of its two outputs. */
  function Rows(first: U64, rxs: seq<Reception>): (r: string)
  {
    Concat(RowList(first, rxs))
  }

  /** The whole output file after the receptions. */
  function FileText(first: U64, rxs: seq<Reception>): (r: string)
  {
    HEAD_ROW + Rows(first, rxs)
  }

  /** Lines 96-114 of `main`: the header goes to the file once, `firstTimestamp` is read
      from the clock once, then the loop runs. */
  method Record(firstClock: Timespec, rxs: seq<Reception>) returns (file: string, console: string)
    ensures file == FileText(GetMicrosecond(firstClock), rxs)
    ensures console == Rows(GetMicrosecond(firstClock), rxs)
    ensures file == HEAD_ROW + console
  {
    file := HEAD_ROW;
    var firstTimestamp := GetMicrosecond(firstClock);
    file, console := RecordLoop(file, firstTimestamp, rxs);
  }

  /** The loop of lines 100-114 over the receptions: each one appends its row to the
      file as it stands and the same row to the console. */
  method RecordLoop(file0: string, firstTimestamp: U64, rxs: seq<Reception>)
    returns (file: string, console: string)
    ensures console == Rows(firstTimestamp, rxs)
    ensures file == file0 + console
  {
    file := file0;
    console := "";
    var i := 0;
    while i < |rxs|
      invariant 0 <= i <= |rxs|
      invariant console == Rows(firstTimestamp, rxs[..i])
      invariant file == file0 + console
    {
      var line := Row(Stamp(firstTimestamp, rxs[i]), rxs[i].frame);
      RowsSnoc(firstTimestamp, rxs, i);
      AppendAssoc(file0, console, line);
      file := file + line;
      console := console + line;
      i := i + 1;
    }
    assert rxs[..i] == rxs;
  }

  /** One more reception adds its row at the end. */
  lemma RowsSnoc(first: U64, rxs: seq<Reception>, i: nat)
    requires i < |rxs|
    ensures Rows(first, rxs[..i + 1]) == Rows(first, rxs[..i]) + Row(Stamp(first, rxs[i]), rxs[i].frame)
  {
    var pre := RowList(first, rxs[..i]);
    var row := Row(Stamp(first, rxs[i]), rxs[i].frame);
    assert RowList(first, rxs[..i + 1]) == pre + [row];
    ConcatSnoc(pre, row);
  }

  /** The text split at its line feeds. */
  function Lines(s: string): (r: seq<string>)
  {
    Split(s, '\n')
  }

  /** After k receptions the file is k + 1 lines: the header first, then the k rows in
      reception order, each ended by a line feed, with nothing after the last one. */
  lemma FileLines(first: U64, rxs: seq<Reception>)
    ensures var lines := Lines(FileText(first, rxs));
      |lines| == |rxs| + 2 &&
      lines[0] + "\n" == HEAD_ROW &&
      (forall i :: 0 <= i < |rxs| ==> lines[i + 1] + "\n" == Row(Stamp(first, rxs[i]), rxs[i].frame)) &&
      lines[|rxs| + 1] == []
  {
    var all := [HEAD_ROW] + RowList(first, rxs);
    assert Concat(all) == FileText(first, rxs);
    HeaderIsOneLine();
    forall i | 0 <= i < |all|
      ensures |all[i]| >= 1 && all[i][|all[i]| - 1] == '\n' && '\n' !in all[i][..|all[i]| - 1]
    {
      if i > 0 {
        var rx := rxs[i - 1];
        assert all[i] == Row(Stamp(first, rx), rx.frame);
        RowIsOneLine(Stamp(first, rx), rx.frame);
      }
    }
    SplitLines(all, '\n');
    var lines := Split(FileText(first, rxs), '\n');
    forall i | 0 <= i < |rxs| ensures lines[i + 1] + "\n" == Row(Stamp(first, rxs[i]), rxs[i].frame) {
      assert all[i + 1] == Row(Stamp(first, rxs[i]), rxs[i].frame);
    }
  }

  /** `line`, once its line feed is restored, reads back as the eleven fields printed
      for `f` with timestamp `timestamp`. */
  predicate ReadsBackAs(line: string, timestamp: U64, f: CanFrame)
  {
    var p := ParseRow(line + "\n");
    p.Some? && |p.value| == FIELD_COUNT && p.value[0] == timestamp &&
    p.value[1] == f.canId && p.value[2] == f.canDlc &&
    forall j :: 0 <= j < PAYLOAD_SIZE ==> p.value[3 + j] == f.data[j]
  }

  /** Line i + 1 of the file after `rxs` is not the header line and reads back as the
      fields printed for reception i. */
  predicate LineRecords(first: U64, rxs: seq<Reception>, i: int)
    requires 0 <= i < |rxs|
  {
    var lines := Lines(FileText(first, rxs));
    |lines| == |rxs| + 2 && lines[i + 1] != lines[0] &&
    ReadsBackAs(lines[i + 1], Stamp(first, rxs[i]), rxs[i].frame)
  }

  /** Every data line of the file reads back as the eleven fields of its frame, the first
      being the microseconds since `firstTimestamp`; and no data line repeats the header,
      so the header occurs exactly once, on the first line. */
  lemma FileRowsReadBack(first: U64, rxs: seq<Reception>)
    ensures forall i :: 0 <= i < |rxs| ==> LineRecords(first, rxs, i)
  {
    forall i | 0 <= i < |rxs| ensures LineRecords(first, rxs, i) {
      DataLineReadsBack(first, rxs, i);
    }
  }

  lemma DataLineReadsBack(first: U64, rxs: seq<Reception>, i: nat)
    requires i < |rxs|
    ensures LineRecords(first, rxs, i)
  {
    FileLines(first, rxs);
    var lines := Lines(FileText(first, rxs));
    var timestamp, f := Stamp(first, rxs[i]), rxs[i].frame;
    assert lines[i + 1] + "\n" == Row(timestamp, f);
    assert lines[0] + "\n" == HEAD_ROW;
    RowRoundTrip(timestamp, f);
    RowIsOneLine(timestamp, f);
    HeaderIsOneLine();
    assert (lines[i + 1] + "\n")[0] != 'T';
  }

  /** Whenever the clock has not gone behind the first reading, a row's timestamp is the
      plain difference of the two `getMicrosecond` values. */
  lemma StampIsDifference(first: U64, rx: Reception)
    requires first <= GetMicrosecond(rx.clock)
    ensures Stamp(first, rx) == GetMicrosecond(rx.clock) - first
  {
    ElapsedExact(GetMicrosecond(rx.clock), first);
  }
}
