/** The CSV output of the recorder: the fixed header row `headRow` and the data row
    produced by `printFormat`, eleven `%u` fields separated by commas and ended by
    CRLF. A reader of that format, `ParseRow`, reads the rows back:
    `RowRoundTrip` proves that every row reads back as its eleven fields. */
module Csv {
  import opened CTypes
  import opened Text

  /** The column titles of the header row. */
  const HEAD_COLUMNS: seq<string> :=
    ["Timestamp (μs)", "CAN ID", "Data Size (byte)", "1", "2", "3", "4", "5", "6", "7", "8"]
  const CRLF: string := "\r\n"
  /** `headRow` without its terminating NUL, the text written by
      `write(targetFile, headRow, sizeof(headRow) - 1)`:
      "Timestamp (μs),CAN ID,Data Size (byte),1,2,3,4,5,6,7,8\r\n". */
  const HEAD_ROW: string := "Timestamp (μs),CAN ID," + "Data Size (byte)," + "1,2,3,4,5,6,7,8\r\n"
  /** The number of conversions in `printFormat`. */
  const FIELD_COUNT: int := 11
  const PAYLOAD_SIZE: int := 8

  /** The eight payload bytes of `struct can_frame`; all of them are printed whatever
      `can_dlc` says. */
  type Payload = s: seq<U8> | |s| == PAYLOAD_SIZE witness [0, 0, 0, 0, 0, 0, 0, 0]

  /** The members of `struct can_frame` that the recorder prints. `canId` is printed
      raw: flag bits are not decoded and the identifier is not masked. */
  datatype CanFrame = CanFrame(canId: U32, canDlc: U8, data: Payload)

  /** The eleven values printed for one frame, in `printFormat` order. */
  function Fields(timestamp: U64, f: CanFrame): (r: seq<nat>)
  {
    [timestamp as nat, f.canId as nat, f.canDlc as nat] + seq(PAYLOAD_SIZE, i requires 0 <= i < PAYLOAD_SIZE => f.data[i] as nat)
  }

  /** The `%u` numerals of the values, in order; each is a well-formed numeral. */
  function Numerals(xs: seq<nat>): (r: seq<string>)
    ensures AllNumerals(r)
  {
    seq(|xs|, i requires 0 <= i < |xs| => Decimal(xs[i]))
  }

  /** The text `printFormat` produces for one frame, written both to the file and to
      the console. */
  function Row(timestamp: U64, f: CanFrame): (r: string)
  {
    Join(Numerals(Fields(timestamp, f)), ',') + CRLF
  }

  predicate AllNumerals(parts: seq<string>)
  {
    forall i :: 0 <= i < |parts| ==> IsNumeral(parts[i])
  }

  /** Reads one CSV line of unsigned decimal fields ended by CRLF; None when the line is
      not of that form. */
  function ParseRow(line: string): (r: Option<seq<nat>>)
  {
    if |line| < 2 || line[|line| - 2..] != CRLF then None
    else
      var parts := Split(line[..|line| - 2], ',');
      if AllNumerals(parts) then Some(seq(|parts|, i requires 0 <= i < |parts| => ValueOf(parts[i])))
      else None
  }

  /** A data row reads back as exactly eleven unsigned decimal fields: the timestamp, the
      raw `can_id`, `can_dlc` and the eight payload bytes, in this order. */
  lemma RowRoundTrip(timestamp: U64, f: CanFrame)
    ensures ParseRow(Row(timestamp, f)).Some?
    ensures var v := ParseRow(Row(timestamp, f)).value;
      |v| == FIELD_COUNT && v[0] == timestamp && v[1] == f.canId && v[2] == f.canDlc &&
      forall i :: 0 <= i < PAYLOAD_SIZE ==> v[3 + i] == f.data[i]
  {
    var xs := Fields(timestamp, f);
    var parts := Numerals(xs);
    var body := Join(parts, ',');
    var line := Row(timestamp, f);
    assert forall i :: 0 <= i < |parts| ==> ',' !in parts[i] by {
      forall i | 0 <= i < |parts| ensures ',' !in parts[i] {
        assert IsNumeral(parts[i]);
      }
    }
    SplitJoin(parts, ',');
    assert line[..|line| - 2] == body;
    assert line[|line| - 2..] == CRLF;
    var v := ParseRow(line).value;
    forall i | 0 <= i < |parts| ensures v[i] == xs[i] {
      DecimalRoundTrip(xs[i]);
    }
  }

  /** A data row is a single line: it ends in CRLF and holds no other CR or LF, so its
      characters are digits and commas before the terminator. */
  lemma RowIsOneLine(timestamp: U64, f: CanFrame)
    ensures var r := Row(timestamp, f);
      |r| >= 3 && r[|r| - 2..] == CRLF &&
      forall i :: 0 <= i < |r| - 2 ==> IsDigit(r[i]) || r[i] == ','
  {
    var parts := Numerals(Fields(timestamp, f));
    JoinChars(parts);
  }

  /** Every character of a join of numerals is a digit or a comma. */
  lemma {:induction false} JoinChars(parts: seq<string>)
    requires |parts| >= 1 && AllNumerals(parts)
    ensures |Join(parts, ',')| >= 1
    ensures forall i :: 0 <= i < |Join(parts, ',')| ==> IsDigit(Join(parts, ',')[i]) || Join(parts, ',')[i] == ','
    decreases |parts|
  {
    if |parts| > 1 {
      JoinChars(parts[1..]);
      var j := Join(parts, ',');
      assert j == parts[0] + [','] + Join(parts[1..], ',');
      forall i | 0 <= i < |j| ensures IsDigit(j[i]) || j[i] == ',' {
        if i < |parts[0]| {
          assert j[i] == parts[0][i];
        } else if i > |parts[0]| {
          assert j[i] == Join(parts[1..], ',')[i - |parts[0]| - 1];
        }
      }
    }
  }

  /** The header names one column per data field: its text before CRLF splits at the
      commas into the eleven column titles. */
  lemma HeaderColumns()
    ensures |HEAD_ROW| >= 2 && HEAD_ROW[|HEAD_ROW| - 2..] == CRLF
    ensures Split(HEAD_ROW[..|HEAD_ROW| - 2], ',') == HEAD_COLUMNS
    ensures |HEAD_COLUMNS| == FIELD_COUNT
  {
    var body := HeaderJoin();
    assert HEAD_ROW[..|HEAD_ROW| - 2] == body;
    ColumnsFree(',');
    SplitJoin(HEAD_COLUMNS, ',');
  }

  /** The header is a single line that starts with a letter: it ends in CRLF and holds
      no other line feed. */
  lemma HeaderIsOneLine()
    ensures |HEAD_ROW| >= 3 && HEAD_ROW[|HEAD_ROW| - 2..] == CRLF && HEAD_ROW[0] == 'T'
    ensures '\n' !in HEAD_ROW[..|HEAD_ROW| - 1]
  {
    var body := HeaderJoin();
    ColumnsFree('\n');
    JoinFree(HEAD_COLUMNS, ',', '\n');
    assert HEAD_ROW[..|HEAD_ROW| - 1] == body + "\r";
  }

  /** The header text is the column titles joined by commas, then CRLF. */
  lemma HeaderJoin() returns (body: string)
    ensures body == Join(HEAD_COLUMNS, ',') && HEAD_ROW == body + CRLF && body[0] == 'T'
  {
    var c := HEAD_COLUMNS;
    var digits := DigitColumnsJoin();
    FirstColumnsJoin(digits);
    body := Join(c, ',');
    assert HEAD_ROW == body + CRLF by {
      assert "1,2,3,4,5,6,7,8\r\n" == digits + CRLF;
    }
  }

  lemma FirstColumnsJoin(digits: string)
    requires digits == Join(HEAD_COLUMNS[3..], ',')
    ensures Join(HEAD_COLUMNS, ',') == "Timestamp (μs),CAN ID," + "Data Size (byte)," + digits
  {
    var c := HEAD_COLUMNS;
    assert Join(c, ',') == c[0] + [','] + (c[1] + [','] + (c[2] + [','] + digits));
    LeadingTitles();
    assert c[2] + [','] == "Data Size (byte),";
  }

  lemma LeadingTitles()
    ensures HEAD_COLUMNS[0] + [','] + HEAD_COLUMNS[1] + [','] == "Timestamp (μs),CAN ID,"
  {
    assert "Timestamp (μs)" + [','] == "Timestamp (μs),";
    assert "CAN ID" + [','] == "CAN ID,";
  }

  lemma DigitColumnsJoin() returns (digits: string)
    ensures digits == Join(HEAD_COLUMNS[3..], ',') && digits == "1,2,3,4,5,6,7,8"
  {
    var c := HEAD_COLUMNS;
    assert Join(c[10..], ',') == "8";
    assert Join(c[9..], ',') == "7,8";
    assert Join(c[8..], ',') == "6,7,8";
    assert Join(c[7..], ',') == "5,6,7,8";
    assert Join(c[6..], ',') == "4,5,6,7,8";
    assert Join(c[5..], ',') == "3,4,5,6,7,8";
    assert Join(c[4..], ',') == "2,3,4,5,6,7,8";
    digits := Join(c[3..], ',');
  }

  /** No column title holds a comma or a line feed. */
  lemma ColumnsFree(c: char)
    requires c == ',' || c == '\n'
    ensures forall i :: 0 <= i < |HEAD_COLUMNS| ==> c !in HEAD_COLUMNS[i]
  {
    forall i | 0 <= i < |HEAD_COLUMNS| ensures c !in HEAD_COLUMNS[i] {
      if i == 0 {
        assert c !in "Timestamp (μs)";
      } else if i == 2 {
        assert c !in "Data Size (byte)";
      }
    }
  }
}
