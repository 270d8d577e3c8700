/**
 * Reading the data values out of event-stream text (`_sse_data_values` in agent_ingress.py).
 * Main result: reading is a homomorphism over text whose first part ends with a blank line.
 */
module SseValues {
  import opened Common
  import opened Splitting

  /** The characters `str.lstrip()` removes. */
  predicate IsSpace(c: char)
  {
    var p := c as int;
    || 9 <= p <= 13 || 0x1C <= p <= 0x20 || p == 0x85 || p == 0xA0 || p == 0x1680
    || 0x2000 <= p <= 0x200A || p == 0x2028 || p == 0x2029 || p == 0x202F || p == 0x205F || p == 0x3000
  }

  function LStrip(s: string): (r: string)
    ensures r != "" ==> !IsSpace(r[0])
  {
    if s != "" && IsSpace(s[0]) then LStrip(s[1..]) else s
  }

  /** `text.replace("\r\n", "\n")`. */
  function Normalize(text: string): string
  {
    if text == "" then ""
    else if |text| >= 2 && text[0] == '\r' && text[1] == '\n' then "\n" + Normalize(text[2..])
    else [text[0]] + Normalize(text[1..])
  }

  function Join(lines: seq<string>): string
  {
    if lines == [] then ""
    else if |lines| == 1 then lines[0]
    else lines[0] + "\n" + Join(lines[1..])
  }

  predicate IsData(line: string)
  {
    "data:" <= line
  }

  /** The event a blank line (or the end of the text) dispatches: nothing when no data line is pending. */
  function Dispatch(pending: seq<string>): seq<string>
  {
    if pending == [] then [] else [Join(pending)]
  }

  function Collect(lines: seq<string>, pending: seq<string>): seq<string>
  {
    if lines == [] then Dispatch(pending)
    else if lines[0] == "" then Dispatch(pending) + Collect(lines[1..], [])
    else if IsData(lines[0]) then Collect(lines[1..], pending + [LStrip(lines[0][5..])])
    else Collect(lines[1..], pending)
  }

  function DataValues(text: string): seq<string>
  {
    Collect(SplitOn(Normalize(text), '\n'), [])
  }

  /** `_sse_data_values`, line by line. */
  method SseDataValues(text: string) returns (values: seq<string>)
    ensures values == DataValues(text)
  {
    values := [];
    var dataLines: seq<string> := [];
    var lines := SplitOn(Normalize(text), '\n');
    for i := 0 to |lines|
      invariant values + Collect(lines[i..], dataLines) == DataValues(text)
    {
      var line := lines[i];
      assert lines[i..][1..] == lines[i + 1..];
      if line == "" {
        if dataLines != [] {
          values := values + [Join(dataLines)];
          dataLines := [];
        }
        continue;
      }
      if IsData(line) {
        dataLines := dataLines + [LStrip(line[5..])];
      }
    }
    if dataLines != [] {
      values := values + [Join(dataLines)];
    }
  }

  /** Text after which a frame ends. */
  predicate EndsWithBlankLine(text: string)
  {
    || (|text| >= 2 && text[|text| - 2..] == "\n\n")
    || (|text| >= 4 && text[|text| - 4..] == "\r\n\r\n")
  }

  predicate StartsWithCrLf(text: string)
  {
    |text| >= 2 && text[0] == '\r' && text[1] == '\n'
  }

  lemma NormalizeStep(text: string)
    requires text != ""
    ensures StartsWithCrLf(text) ==> Normalize(text) == "\n" + Normalize(text[2..])
    ensures !StartsWithCrLf(text) ==> Normalize(text) == [text[0]] + Normalize(text[1..])
  {}

  lemma DropTwo(a: string, b: string)
    requires StartsWithCrLf(a)
    ensures StartsWithCrLf(a + b) && (a + b)[2..] == a[2..] + b
    ensures a[2..] != "" ==> a[2..][|a[2..]| - 1] == a[|a| - 1]
  {}

  lemma DropOne(a: string, b: string)
    requires a != "" && !StartsWithCrLf(a) && (a[|a| - 1] != '\r' || b == "" || b[0] != '\n')
    ensures !StartsWithCrLf(a + b) && a + b != "" && (a + b)[0] == a[0] && (a + b)[1..] == a[1..] + b
    ensures a[1..] != "" ==> a[1..][|a[1..]| - 1] == a[|a| - 1]
  {}

  lemma {:induction false} NormalizeAppend(a: string, b: string)
    requires a == "" || a[|a| - 1] != '\r' || b == "" || b[0] != '\n'
    ensures Normalize(a + b) == Normalize(a) + Normalize(b)
    decreases |a|
  {
    if a == "" {
      NothingAdded(b);
      NothingAdded(Normalize(b));
    } else {
      hide *;
      NormalizeStep(a);
      if StartsWithCrLf(a) {
        DropTwo(a, b);
        NormalizeStep(a + b);
        CrLfLength(a);
        NormalizeAppend(a[2..], b);
        Assoc("\n", Normalize(a[2..]), Normalize(b));
      } else {
        DropOne(a, b);
        NormalizeStep(a + b);
        NormalizeAppend(a[1..], b);
        Assoc([a[0]], Normalize(a[1..]), Normalize(b));
      }
    }
  }

  lemma CrLfLength(a: string)
    requires StartsWithCrLf(a)
    ensures |a| >= 2
  {}

  lemma {:induction false} NormalizeKeepsFinalNewline(a: string)
    requires a != "" && a[|a| - 1] == '\n'
    ensures Normalize(a) != "" && Normalize(a)[|Normalize(a)| - 1] == '\n'
    decreases |a|
  {
    if |a| >= 2 && a[0] == '\r' && a[1] == '\n' {
      if |a| > 2 { NormalizeKeepsFinalNewline(a[2..]); }
    } else if |a| > 1 {
      NormalizeKeepsFinalNewline(a[1..]);
    }
  }

  lemma {:induction false} NormalizePlain(a: string)
    requires '\r' !in a
    ensures Normalize(a) == a
  {
    if a != "" {
      NormalizePlain(a[1..]);
    }
  }

  /** Normalised, a frame ends with a blank line of its own. */
  lemma NormalizedBlankLine(text: string) returns (body: string)
    requires EndsWithBlankLine(text)
    ensures Normalize(text) == body + "\n" + "\n"
  {
    var last := if text[|text| - 2] == '\r' then 2 else 1;
    var front, back := text[..|text| - last], text[|text| - last..];
    assert text == front + back;
    assert back == if last == 2 then "\r\n" else "\n";
    assert front != "" && front[|front| - 1] == '\n';
    NormalizeAppend(front, back);
    OneNewline();
    NormalizeKeepsFinalNewline(front);
    hide *;
    body := Normalize(front)[..|Normalize(front)| - 1];
    assert Normalize(front) == body + "\n";
  }

  lemma OneNewline()
    ensures Normalize("\r\n") == "\n" && Normalize("\n") == "\n"
  {
    assert "\r\n"[2..] == "" && "\n"[1..] == "";
  }

  lemma {:induction false} CollectAtBlankLine(front: seq<string>, back: seq<string>, pending: seq<string>)
    ensures Collect(front + [""] + back, pending) == Collect(front + [""], pending) + Collect(back, [])
    decreases |front|
  {
    var whole := front + [""] + back;
    if front == [] {
      assert whole[1..] == back && (front + [""])[1..] == [];
    } else {
      assert whole[1..] == front[1..] + [""] + back;
      assert (front + [""])[1..] == front[1..] + [""];
      var line := front[0];
      var next := if line == "" then [] else if IsData(line) then pending + [LStrip(line[5..])] else pending;
      CollectAtBlankLine(front[1..], back, next);
    }
  }

  /** Reading a complete frame and then the rest is reading both together. */
  lemma ValuesAppend(frame: string, more: string)
    requires EndsWithBlankLine(frame)
    ensures DataValues(frame + more) == DataValues(frame) + DataValues(more)
  {
    var body := NormalizedBlankLine(frame);
    FrameEndsInNewline(frame);
    NormalizeAppend(frame, more);
    hide *;
    var rest := Normalize(more);
    SplitTerminated(body, "");
    SplitTerminated(body, rest);
    SplitNothing('\n');
    NothingAdded(body + "\n" + "\n");
    CollectAtBlankLine(SplitOn(body, '\n'), [""], []);
    CollectAtBlankLine(SplitOn(body, '\n'), SplitOn(rest, '\n'), []);
    ValuesOfLines(frame);
    ValuesOfLines(more);
    ValuesOfLines(frame + more);
    NoLineLeft();
    NothingAdded(Collect(SplitOn(body, '\n') + [""], []));
  }

  lemma FrameEndsInNewline(frame: string)
    requires EndsWithBlankLine(frame)
    ensures frame != "" && frame[|frame| - 1] == '\n'
  {}

  lemma ValuesOfLines(text: string)
    ensures DataValues(text) == Collect(SplitOn(Normalize(text), '\n'), [])
  {}

  lemma NoLineLeft()
    ensures Collect([""], []) == []
  {
    assert [""][1..] == [];
  }

  /** Lines up to a blank one, the blank one, and the lines after it. */
  lemma SplitTerminated(body: string, rest: string)
    ensures SplitOn(body + "\n" + "\n" + rest, '\n') == SplitOn(body, '\n') + [""] + SplitOn(rest, '\n')
  {
    hide *;
    SplitNothing('\n');
    Assoc(body + "\n", "\n", rest);
    SplitAppend(body, "\n" + rest, '\n');
    NothingAdded("\n" + rest);
    NothingAdded("\n");
    SplitAppend("", rest, '\n');
    Assoc(SplitOn(body, '\n'), [""], SplitOn(rest, '\n'));
  }

  /** What the gateway writes for one event. */
  function DataFrame(value: string): (text: string)
    ensures EndsWithBlankLine(text)
  {
    "data: " + value + "\n\n"
  }

  /** The text of one event reads back as exactly that event. */
  lemma DataFrameReadsBack(value: string)
    requires '\r' !in value && '\n' !in value && value != "" && !IsSpace(value[0])
    ensures DataValues(DataFrame(value)) == [value]
  {
    var line := "data: " + value;
    var text := DataFrame(value);
    NormalizePlain(text);
    assert text == line + "\n" + ("" + "\n" + "");
    SplitAppend(line, "" + "\n" + "", '\n');
    SplitAppend("", "", '\n');
    SplitPlain(line, '\n');
    assert SplitOn(text, '\n') == [line, "", ""];
    assert line[5..] == " " + value && LStrip(line[5..]) == LStrip(value) == value;
    assert [line, "", ""][1..] == ["", ""] && ["", ""][1..] == [""] && [""][1..] == [] && [] + [value] == [value];
    assert Collect([""], []) == [];
    assert Collect(["", ""], [value]) == Dispatch([value]) + Collect([""], []);
  }

  // A whole event, line by line.

  /** Only blanks at the front go, and all of them. */
  lemma {:induction false} LStripExactly(s: string)
    ensures var r := LStrip(s);
            && |r| <= |s| && r == s[|s| - |r|..] && (r != "" ==> !IsSpace(r[0]))
            && forall i :: 0 <= i < |s| - |r| ==> IsSpace(s[i])
  {
    hide IsSpace;
    if s != "" && IsSpace(s[0]) {
      LStripExactly(s[1..]);
      var r := LStrip(s);
      assert forall i :: 0 < i < |s| - |r| ==> s[i] == s[1..][i - 1];
    }
  }

  /** The data of each line: what follows `data:` and the blanks after it, or nothing. */
  function DataPer(lines: seq<string>): (per: seq<seq<string>>)
    ensures |per| == |lines|
    ensures forall i :: 0 <= i < |lines| ==> per[i] == if IsData(lines[i]) then [LStrip(lines[i][5..])] else []
  {
    seq(|lines|, i requires 0 <= i < |lines| => if IsData(lines[i]) then [LStrip(lines[i][5..])] else [])
  }

  function DataLines(lines: seq<string>): seq<string>
  {
    Flatten(DataPer(lines))
  }

  /** Lines with their ends, and a blank line. */
  function BlockText(lines: seq<string>): string
  {
    if lines == [] then "\n" else lines[0] + "\n" + BlockText(lines[1..])
  }

  predicate PlainLine(line: string)
  {
    line != "" && '\n' !in line && '\r' !in line
  }

  lemma DataLinesStep(lines: seq<string>)
    requires lines != []
    ensures DataLines(lines) == (if IsData(lines[0]) then [LStrip(lines[0][5..])] else []) + DataLines(lines[1..])
  {
    hide LStrip, IsData;
    assert DataPer(lines)[1..] == DataPer(lines[1..]);
  }

  lemma CollectStep(lines: seq<string>, pending: seq<string>)
    requires lines != []
    ensures Collect(lines, pending) ==
            if lines[0] == "" then Dispatch(pending) + Collect(lines[1..], [])
            else if IsData(lines[0]) then Collect(lines[1..], pending + [LStrip(lines[0][5..])])
            else Collect(lines[1..], pending)
  {
    hide LStrip, Dispatch;
  }

  lemma FirstLine(lines: seq<string>, back: seq<string>)
    requires lines != [] && forall line <- lines :: line != ""
    ensures lines[0] != "" && forall line <- lines[1..] :: line != ""
    ensures var whole := lines + [""] + back;
            whole != [] && whole[0] == lines[0] && whole[1..] == lines[1..] + [""] + back
  {
    assert lines == [lines[0]] + lines[1..] && lines[0] in lines;
    forall line <- lines[1..] ensures line != "" {
      assert line in [lines[0]] + lines[1..];
    }
  }

  lemma NoLine(back: seq<string>)
    ensures var whole := [] + [""] + back; whole != [] && whole[0] == "" && whole[1..] == back
    ensures DataLines([]) == []
  {
    assert DataPer([]) == [];
  }

  lemma {:induction false} CollectBlock(lines: seq<string>, back: seq<string>, pending: seq<string>)
    requires forall line <- lines :: line != ""
    ensures Collect(lines + [""] + back, pending) == Dispatch(pending + DataLines(lines)) + Collect(back, [])
    decreases |lines|
  {
    hide *;
    CollectStep(lines + [""] + back, pending);
    if lines == [] {
      NoLine(back);
      NothingAdded(pending);
    } else {
      FirstLine(lines, back);
      DataLinesStep(lines);
      if IsData(lines[0]) {
        DataIsLong(lines[0]);
        var own := [LStrip(lines[0][5..])];
        CollectBlock(lines[1..], back, pending + own);
        Assoc(pending, own, DataLines(lines[1..]));
      } else {
        CollectBlock(lines[1..], back, pending);
        NothingAdded(DataLines(lines[1..]));
      }
    }
  }

  lemma DataIsLong(line: string)
    ensures IsData(line) ==> |line| >= 5
  {}

  lemma {:induction false} BlockSplits(lines: seq<string>)
    requires forall line <- lines :: PlainLine(line)
    ensures SplitOn(BlockText(lines), '\n') == lines + [""] + [""]
    ensures '\r' !in BlockText(lines)
  {
    if lines == [] {
      SplitNothing('\n');
      SplitAppend("", "", '\n');
      assert "\n" == "" + ['\n'] + "";
    } else {
      assert lines == [lines[0]] + lines[1..] && PlainLine(lines[0]);
      BlockSplits(lines[1..]);
      SplitPlain(lines[0], '\n');
      SplitAppend(lines[0], BlockText(lines[1..]), '\n');
      assert [lines[0]] + (lines[1..] + [""] + [""]) == lines + [""] + [""];
    }
  }

  lemma {:induction false} BlockEnds(lines: seq<string>)
    requires lines != []
    ensures EndsWithBlankLine(BlockText(lines))
  {
    var text := BlockText(lines);
    if |lines| == 1 {
      assert text == lines[0] + "\n" + "\n";
    } else {
      BlockEnds(lines[1..]);
      var front := lines[0] + "\n";
      var later := BlockText(lines[1..]);
      BlockPlainEnd(lines[1..]);
      assert text[|text| - 2..] == later[|later| - 2..];
    }
  }

  lemma {:induction false} BlockPlainEnd(lines: seq<string>)
    requires lines != []
    ensures |BlockText(lines)| >= 2 && BlockText(lines)[|BlockText(lines)| - 2..] == "\n\n"
  {
    var text := BlockText(lines);
    if |lines| == 1 {
      assert text == lines[0] + "\n" + "\n";
    } else {
      BlockPlainEnd(lines[1..]);
      var later := BlockText(lines[1..]);
      assert text[|text| - 2..] == later[|later| - 2..];
    }
  }

  lemma {:induction false} JoinSplits(lines: seq<string>)
    requires lines != [] && forall line <- lines :: '\n' !in line
    ensures SplitOn(Join(lines), '\n') == lines
  {
    SplitPlain(lines[0], '\n');
    if |lines| > 1 {
      JoinSplits(lines[1..]);
      SplitAppend(lines[0], Join(lines[1..]), '\n');
      assert [lines[0]] + lines[1..] == lines;
    } else {
      assert lines == [lines[0]];
    }
  }

  lemma {:induction false} DataLinesPlain(lines: seq<string>)
    requires forall line <- lines :: PlainLine(line)
    ensures forall line <- DataLines(lines) :: '\n' !in line
  {
    hide LStrip, DataLines, IsSpace;
    if lines == [] {
      NoLine([]);
    } else {
      assert lines == [lines[0]] + lines[1..] && PlainLine(lines[0]);
      DataLinesStep(lines);
      DataLinesPlain(lines[1..]);
      if IsData(lines[0]) { StrippedPlain(lines[0]); }
    }
  }

  lemma StrippedPlain(line: string)
    requires IsData(line) && '\n' !in line
    ensures '\n' !in LStrip(line[5..])
  {
    LStripExactly(line[5..]);
    hide LStrip, IsSpace;
  }

  /**
   * An event of any lines, in front of any text, reads as one value whose lines are the data of its data lines in
   * order; an event without data lines reads as none.
   */
  lemma EventReadsBack(lines: seq<string>, rest: string)
    requires lines != [] && forall line <- lines :: PlainLine(line)
    ensures var values := DataValues(BlockText(lines) + rest);
            if DataLines(lines) == [] then values == DataValues(rest)
            else values != [] && SplitOn(values[0], '\n') == DataLines(lines) && values[1..] == DataValues(rest)
  {
    hide LStrip, IsData, DataValues, BlockText, SplitOn, Normalize, EndsWithBlankLine;
    var text, data := BlockText(lines), DataLines(lines);
    BlockSplits(lines);
    BlockEnds(lines);
    NormalizePlain(text);
    ValuesAppend(text, rest);
    ValuesOfLines(text);
    CollectBlock(lines, [""], []);
    NothingAdded(data);
    OneBlankCollects();
    if data != [] {
      DataLinesPlain(lines);
      JoinSplits(data);
    }
  }

  lemma OneBlankCollects()
    ensures Collect([""], []) == []
  {
    assert [""][1..] == [];
  }
}
