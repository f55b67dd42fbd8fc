// The laws of stamping: what is stamped is read back, nothing else changes, and a later
// stamp absorbs an earlier one.

module ManifestLaws {
  import opened Text
  import opened Manifest

  // As strconv.Quote writes a version: in double quotes, on one line.
  predicate IsQuoted(quoted: string) {
    |quoted| >= 2 && quoted[0] == '"' && quoted[|quoted| - 1] == '"' && '\n' !in quoted
  }

  predicate IsIndent(s: string) {
    forall i | 0 <= i < |s| :: s[i] == ' ' || s[i] == '\t'
  }

  predicate IsEnding(s: string) {
    s == "" || s == "\n" || s == "\r" || s == "\r\n"
  }

  lemma {:induction false} IndentIs(indent: string, rest: string)
    requires IsIndent(indent) && rest != "" && rest[0] != ' ' && rest[0] != '\t'
    ensures Indent(indent + rest) == |indent|
  {
    if indent == "" {
      assert indent + rest == rest;
    } else {
      assert (indent + rest)[1..] == indent[1..] + rest;
      IndentIs(indent[1..], rest);
    }
  }

  // A line with an ending comes apart again.
  lemma EndingComesOff(body: string, ending: string)
    requires IsEnding(ending) && body != "" && body[|body| - 1] != '\n' && body[|body| - 1] != '\r'
    ensures Body(body + ending) == body && Ending(body + ending) == ending
  {
    if ending == "\r\n" {
      assert Drop(body + ending, '\n') == body + "\r";
      assert Drop(body + "\r", '\r') == body;
    } else if ending == "\n" {
      assert Drop(body + ending, '\n') == body;
    } else if ending == "\r" {
      assert Drop(body + ending, '\r') == body;
    } else {
      assert body + ending == body;
    }
  }

  lemma StampedParts(line: string, quoted: string) returns (indent: string)
    requires IsQuoted(quoted)
    ensures IsIndent(indent) && indent == Body(line)[..Indent(Body(line))]
    ensures StampedLine(line, quoted) == indent + Assignment(quoted) + Ending(line)
    ensures Body(StampedLine(line, quoted)) == indent + Assignment(quoted)
    ensures Ending(StampedLine(line, quoted)) == Ending(line)
    ensures Indent(indent + Assignment(quoted)) == |indent|
  {
    var body, assignment := Body(line), Assignment(quoted);
    indent := body[..Indent(body)];
    assert StampedLine(line, quoted) == indent + assignment + Ending(line);
    EndingComesOff(indent + assignment, Ending(line));
    IndentIs(indent, assignment);
  }

  // Stamping a line twice is stamping it with the second version.
  lemma StampAbsorbs(line: string, first: string, second: string)
    requires IsQuoted(first) && IsQuoted(second)
    ensures StampedLine(StampedLine(line, first), second) == StampedLine(line, second)
  {
    var indent := StampedParts(line, first);
    var other := StampedParts(line, second);
    assert indent == other;
    assert (indent + Assignment(first))[..|indent|] == indent;
  }

  lemma BareOfStamped(line: string, quoted: string)
    requires IsQuoted(quoted)
    ensures Bare(StampedLine(line, quoted)) == Assignment(quoted)
  {
    var indent := StampedParts(line, quoted);
    var assignment := Assignment(quoted);
    assert indent + assignment + "" == indent + assignment;
    SpacesInIndent(indent);
    TrimPadded(indent, assignment, "");
  }

  lemma SpacesInIndent(indent: string)
    requires IsIndent(indent)
    ensures forall c | c in indent :: IsSpace(c)
  {
    forall c | c in indent ensures IsSpace(c) {
      var i :| 0 <= i < |indent| && indent[i] == c;
    }
  }

  lemma AssignmentCut(quoted: string)
    ensures CutAt(Assignment(quoted), "=") == Cut("version ", " " + quoted)
  {
    assert Assignment(quoted) == "version " + "=" + (" " + quoted);
    CutRecovers("version ", "=", " " + quoted);
  }

  lemma KeyTrims()
    ensures Trim("version ") == "version"
  {
    assert "" + "version" + " " == "version ";
    TrimPadded("", "version", " ");
  }

  lemma QuotedTrims(quoted: string)
    requires IsQuoted(quoted)
    ensures Trim(" " + quoted) == quoted
  {
    assert " " + quoted + "" == " " + quoted;
    TrimPadded(" ", quoted, "");
  }

  lemma AssignmentReads(quoted: string)
    requires IsQuoted(quoted)
    ensures CutAt(Assignment(quoted), "=") == Cut("version ", " " + quoted)
    ensures Key(Assignment(quoted)) == Some("version")
    ensures Trim(" " + quoted) == quoted
  {
    AssignmentCut(quoted);
    KeyTrims();
    QuotedTrims(quoted);
  }

  // A stamped line is a version assignment with the new version, and not a table header.
  lemma StampedReads(line: string, quoted: string)
    requires IsQuoted(quoted)
    ensures var stamped := StampedLine(line, quoted);
            && !IsHeader(stamped) && Ends(stamped)
            && Key(Bare(stamped)) == Some("version")
            && Trim(CutAt(Bare(stamped), "=").after) == quoted
  {
    BareOfStamped(line, quoted);
    AssignmentReads(quoted);
    assert Assignment(quoted)[0] == 'v';
  }

  lemma {:induction false} FirstStays(lines: seq<string>, after: seq<string>, p: string -> bool, from: nat)
    requires |after| == |lines| && from <= |lines|
    requires forall i | from <= i < |lines| && i <= First(lines, p, from) :: p(after[i]) == p(lines[i])
    ensures First(after, p, from) == First(lines, p, from)
    decreases |lines| - from
  {
    if from < First(lines, p, from) {
      FirstStays(lines, after, p, from + 1);
    }
  }

  // Stamping does not move the line to stamp.
  lemma TargetStays(lines: seq<string>, table: string, stamped: string)
    requires Target(lines, table).Ok? && !IsHeader(stamped) && Ends(stamped)
    ensures Target(lines[Target(lines, table).value := stamped], table) == Target(lines, table)
  {
    var after := lines[Target(lines, table).value := stamped];
    FirstStays(lines, after, (line: string) => Opens(line, table), 0);
    FirstStays(lines, after, Ends, FirstOpening(lines, table, 0) + 1);
  }

  lemma ReaderStep(lines: seq<string>, table: string, from: nat)
    requires from < |lines|
    ensures VersionFrom(lines, table, from, false) == VersionFrom(lines, table, from + 1, Opens(lines[from], table))
  {}

  // A reader gets to the first table, and in it to the first version assignment.
  lemma {:induction false} ReaderOpens(lines: seq<string>, table: string, from: nat, opening: nat)
    requires from <= opening < |lines| && Opens(lines[opening], table)
    requires forall i | from <= i < opening :: !Opens(lines[i], table)
    ensures VersionFrom(lines, table, from, false) == VersionFrom(lines, table, opening + 1, true)
    decreases opening - from
  {
    ReaderStep(lines, table, from);
    if from < opening {
      ReaderOpens(lines, table, from + 1, opening);
    }
  }

  lemma {:induction false} ReaderEnds(lines: seq<string>, table: string, from: nat)
    requires from <= |lines|
    ensures VersionFrom(lines, table, from, true) == VersionFrom(lines, table, FirstEnd(lines, from), true)
    decreases |lines| - from
  {
    if from < FirstEnd(lines, from) {
      ReaderEnds(lines, table, from + 1);
    }
  }

  // The version read from stamped lines is the one stamped.
  lemma StampedLinesRead(lines: seq<string>, table: string, quoted: string)
    requires IsQuoted(quoted) && Stamped(lines, table, quoted).Ok?
    ensures VersionFrom(Stamped(lines, table, quoted).value, table, 0, false) == Some(quoted)
  {
    var target := Target(lines, table).value;
    var after := Stamped(lines, table, quoted).value;
    StampedReads(lines[target], quoted);
    TargetStays(lines, table, after[target]);
    ReaderOpens(after, table, 0, FirstOpening(after, table, 0));
    ReaderEnds(after, table, FirstOpening(after, table, 0) + 1);
  }

  lemma StampKeepsTarget(lines: seq<string>, table: string, quoted: string)
    requires IsQuoted(quoted) && Target(lines, table).Ok?
    ensures var target := Target(lines, table).value;
            Target(lines[target := StampedLine(lines[target], quoted)], table) == Ok(target)
  {
    var target := Target(lines, table).value;
    StampedReads(lines[target], quoted);
    TargetStays(lines, table, StampedLine(lines[target], quoted));
  }

  lemma StampedTwice(lines: seq<string>, table: string, first: string, second: string)
    requires IsQuoted(first) && IsQuoted(second) && Stamped(lines, table, first).Ok?
    ensures Stamped(Stamped(lines, table, first).value, table, second) == Stamped(lines, table, second)
  {
    var target := Target(lines, table).value;
    StampKeepsTarget(lines, table, first);
    StampAbsorbs(lines[target], first, second);
    UpdateTwice(lines, target, StampedLine(lines[target], first), StampedLine(lines[target], second));
  }

  lemma UpdateTwice(lines: seq<string>, i: nat, first: string, second: string)
    requires i < |lines|
    ensures lines[i := first][i := second] == lines[i := second]
  {}

  // ----- Lines and text.

  // Lines as SplitAfter makes them: a newline at the end of each but the last, and nowhere else.
  predicate WellSplit(lines: seq<string>) {
    lines != [] && forall i | 0 <= i < |lines| :: Whole(lines[i], i < |lines| - 1)
  }

  predicate Whole(line: string, newline: bool) {
    EndsIn(line, '\n') == newline && forall k | 0 <= k < |line| - 1 :: line[k] != '\n'
  }

  lemma {:induction false} SplitIsWell(text: string)
    ensures WellSplit(SplitAfter(text))
  {
    if text != "" {
      SplitIsWell(text[1..]);
      var rest := SplitAfter(text[1..]);
      if text[0] != '\n' {
        var line := [text[0]] + rest[0];
        assert Whole(rest[0], 0 < |rest| - 1);
        assert forall k | 1 <= k < |line| :: line[k] == rest[0][k - 1];
      }
    }
  }

  lemma {:induction false} JoinOfSplit(text: string)
    ensures Join(SplitAfter(text)) == text
  {
    if text != "" {
      JoinOfSplit(text[1..]);
      var rest := SplitAfter(text[1..]);
      var lines := SplitAfter(text);
      assert lines[1..] == if text[0] == '\n' then rest else rest[1..];
      assert text == [text[0]] + text[1..];
    }
  }

  // Well split lines are the lines of their text.
  lemma {:induction false} SplitOfJoin(lines: seq<string>)
    requires WellSplit(lines)
    ensures SplitAfter(Join(lines)) == lines
    decreases |lines|, if lines == [] then 0 else |lines[0]|
  {
    var first := lines[0];
    assert Whole(first, 0 < |lines| - 1);
    if first == "" {
      assert lines == [""];
      assert Join(lines) == "";
    } else if first[0] == '\n' {
      assert first == "\n";
      assert Join(lines)[1..] == Join(lines[1..]);
      SplitOfJoin(lines[1..]);
    } else {
      var shorter := lines[0 := first[1..]];
      ShorterIsWell(lines);
      assert Join(lines) == [first[0]] + Join(shorter);
      SplitOfJoin(shorter);
      assert [first[0]] + shorter[0] == first && shorter[1..] == lines[1..];
    }
  }

  lemma ShorterIsWell(lines: seq<string>)
    requires WellSplit(lines) && lines[0] != "" && lines[0][0] != '\n'
    ensures WellSplit(lines[0 := lines[0][1..]])
  {
    var first, shorter := lines[0], lines[0 := lines[0][1..]];
    assert Whole(first, 0 < |lines| - 1);
    forall i | 0 <= i < |shorter| ensures Whole(shorter[i], i < |shorter| - 1) {
      if i > 0 {
        assert Whole(lines[i], i < |lines| - 1);
      }
    }
  }

  // The lines a reader splits are these without their newlines.
  lemma {:induction false} SplitDropsNewlines(text: string)
    ensures |Split(text)| == |SplitAfter(text)|
    ensures forall i | 0 <= i < |Split(text)| :: Split(text)[i] == Drop(SplitAfter(text)[i], '\n')
  {
    if text != "" {
      SplitDropsNewlines(text[1..]);
      var rest, cut := SplitAfter(text[1..]), Split(text[1..]);
      if text[0] != '\n' {
        DropInside(text[0], rest[0]);
      }
    }
  }

  lemma DropInside(c: char, line: string)
    requires c != '\n'
    ensures Drop([c] + line, '\n') == [c] + Drop(line, '\n')
  {}

  lemma {:induction false} VersionIgnoresNewlines(lines: seq<string>, cut: seq<string>, table: string, from: nat,
      inTable: bool)
    requires WellSplit(lines) && |cut| == |lines| && from <= |lines|
    requires forall i | 0 <= i < |lines| :: cut[i] == Drop(lines[i], '\n')
    ensures VersionFrom(cut, table, from, inTable) == VersionFrom(lines, table, from, inTable)
    decreases |lines| - from
  {
    if from < |lines| {
      assert Whole(lines[from], from < |lines| - 1);
      DropTwice(lines[from], from < |lines| - 1);
      assert Bare(cut[from]) == Bare(lines[from]);
      if IsHeader(lines[from]) {
        VersionIgnoresNewlines(lines, cut, table, from + 1, Bare(lines[from]) == table);
      } else {
        VersionIgnoresNewlines(lines, cut, table, from + 1, inTable);
      }
    }
  }

  lemma DropTwice(line: string, newline: bool)
    requires Whole(line, newline)
    ensures Drop(Drop(line, '\n'), '\n') == Drop(line, '\n')
    ensures Body(Drop(line, '\n')) == Body(line)
  {}

  lemma StampedLineWhole(line: string, quoted: string, newline: bool)
    requires IsQuoted(quoted) && Whole(line, newline)
    ensures Whole(StampedLine(line, quoted), newline)
  {
    var indent := StampedParts(line, quoted);
    var body := indent + Assignment(quoted);
    AssignmentOneLine(quoted);
    assert forall k | 0 <= k < |body| :: body[k] != '\n';
    assert StampedLine(line, quoted) == body + Ending(line);
  }

  lemma AssignmentOneLine(quoted: string)
    requires IsQuoted(quoted)
    ensures forall k | 0 <= k < |Assignment(quoted)| :: Assignment(quoted)[k] != '\n'
  {
    var key := "version = ";
    assert forall k | 0 <= k < |key| :: key[k] != '\n';
  }

  lemma StampedIsWell(lines: seq<string>, table: string, quoted: string)
    requires IsQuoted(quoted) && WellSplit(lines) && Stamped(lines, table, quoted).Ok?
    ensures WellSplit(Stamped(lines, table, quoted).value)
  {
    var target := Target(lines, table).value;
    var after := Stamped(lines, table, quoted).value;
    StampedLineWhole(lines[target], quoted, target < |lines| - 1);
    assert forall i | 0 <= i < |after| :: Whole(after[i], i < |after| - 1);
  }

  lemma StampedLinesAre(text: string, table: string, quoted: string, out: string) returns (target: nat)
    requires IsQuoted(quoted) && StampedText(text, table, quoted) == Ok(out)
    ensures target < |SplitAfter(text)| && Target(SplitAfter(text), table) == Ok(target)
    ensures SplitAfter(out) == SplitAfter(text)[target := StampedLine(SplitAfter(text)[target], quoted)]
    ensures Whole(SplitAfter(text)[target], target < |SplitAfter(text)| - 1)
  {
    var lines := SplitAfter(text);
    target := Target(lines, table).value;
    SplitIsWell(text);
    assert Whole(lines[target], target < |lines| - 1);
    StampedIsWell(lines, table, quoted);
    SplitOfJoin(Stamped(lines, table, quoted).value);
  }

  // ----- Which line is stamped, said of the lines themselves.

  // White space and the line ending aside: something in brackets,
  ghost predicate HeaderLine(line: string) {
    exists inside :: Bare(line) == "[" + inside + "]"
  }

  // or an assignment to version or version.workspace.
  ghost predicate VersionLine(line: string) {
    exists key, value :: Assigns(Bare(line), key, value) && (Trim(key) == "version" || Trim(key) == "version.workspace")
  }

  predicate Assigns(bare: string, key: string, value: string) {
    bare == key + "=" + value && '=' !in key
  }

  lemma HeaderIs(line: string)
    ensures IsHeader(line) <==> HeaderLine(line)
  {
    var bare := Bare(line);
    if IsHeader(line) {
      assert bare == "[" + bare[1..|bare| - 1] + "]";
    }
  }

  lemma VersionIs(line: string)
    ensures IsVersionAssignment(Bare(line)) <==> VersionLine(line)
  {
    AssignsVersion(Bare(line));
  }

  lemma AssignsVersion(bare: string)
    ensures IsVersionAssignment(bare)
            <==> exists key, value ::
                   Assigns(bare, key, value) && (Trim(key) == "version" || Trim(key) == "version.workspace")
  {
    if key, value :| Assigns(bare, key, value) && (Trim(key) == "version" || Trim(key) == "version.workspace") {
      CutRecovers(key, "=", value);
    }
    if IsVersionAssignment(bare) {
      var cut := CutAt(bare, "=");
      FindsFirst(bare, "=", 0);
      forall i | 0 <= i < |cut.before| ensures cut.before[i] != '=' {
        assert bare[i] == cut.before[i];
        assert !OccursAt(bare, "=", i);
        assert bare[i..i + 1] == [bare[i]];
      }
      assert Assigns(bare, cut.before, cut.after);
    }
  }

  ghost predicate TableLine(line: string, table: string) {
    HeaderLine(line) && Bare(line) == table
  }

  // The first version line of the first such table, before any other header.
  ghost predicate StampsAt(lines: seq<string>, table: string, opening: nat, target: nat) {
    && opening < target < |lines|
    && TableLine(lines[opening], table) && (forall k | 0 <= k < opening :: !TableLine(lines[k], table))
    && (forall k | opening < k < target :: !HeaderLine(lines[k]) && !VersionLine(lines[k]))
    && VersionLine(lines[target]) && !HeaderLine(lines[target])
  }

  lemma LinesAre(lines: seq<string>)
    ensures forall k | 0 <= k < |lines| :: IsHeader(lines[k]) <==> HeaderLine(lines[k])
    ensures forall k | 0 <= k < |lines| :: IsVersionAssignment(Bare(lines[k])) <==> VersionLine(lines[k])
  {
    forall k | 0 <= k < |lines|
      ensures IsHeader(lines[k]) <==> HeaderLine(lines[k])
      ensures IsVersionAssignment(Bare(lines[k])) <==> VersionLine(lines[k])
    {
      HeaderIs(lines[k]);
      VersionIs(lines[k]);
    }
  }

  lemma TargetStamps(lines: seq<string>, table: string, target: nat)
    requires Target(lines, table) == Ok(target)
    ensures exists opening :: StampsAt(lines, table, opening, target)
  {
    LinesAre(lines);
    var first := FirstOpening(lines, table, 0);
    assert target == FirstEnd(lines, first + 1) < |lines|;
    assert TableLine(lines[first], table) && forall k | 0 <= k < first :: !TableLine(lines[k], table);
    assert forall k | first < k < target :: !Ends(lines[k]);
    assert StampsAt(lines, table, first, target);
  }

  lemma StampsTarget(lines: seq<string>, table: string, opening: nat, target: nat)
    requires StampsAt(lines, table, opening, target)
    ensures Target(lines, table) == Ok(target)
  {
    LinesAre(lines);
    OpeningIs(lines, table, opening);
    EndIs(lines, opening + 1, target);
  }

  lemma OpeningIs(lines: seq<string>, table: string, opening: nat)
    requires opening < |lines| && Opens(lines[opening], table)
    requires forall k | 0 <= k < opening :: !Opens(lines[k], table)
    ensures FirstOpening(lines, table, 0) == opening
  {
    var first := FirstOpening(lines, table, 0);
    assert !(first < opening) && !(opening < first);
  }

  lemma EndIs(lines: seq<string>, from: nat, end: nat)
    requires from <= end < |lines| && Ends(lines[end])
    requires forall k | from <= k < end :: !Ends(lines[k])
    ensures FirstEnd(lines, from) == end
  {
    var first := FirstEnd(lines, from);
    assert !(first < end) && !(end < first);
  }

  // That line is the target; without the table there is none.
  lemma TargetIff(lines: seq<string>, table: string, target: nat)
    ensures Target(lines, table) == Ok(target) <==> exists opening :: StampsAt(lines, table, opening, target)
    ensures Target(lines, table) == Err(MissingTable) <==> forall k | 0 <= k < |lines| :: !TableLine(lines[k], table)
  {
    if Target(lines, table) == Ok(target) {
      TargetStamps(lines, table, target);
    }
    if opening :| StampsAt(lines, table, opening, target) {
      StampsTarget(lines, table, opening, target);
    }
    TableMissing(lines, table);
  }

  lemma TableMissing(lines: seq<string>, table: string)
    ensures Target(lines, table) == Err(MissingTable) <==> forall k | 0 <= k < |lines| :: !TableLine(lines[k], table)
  {
    LinesAre(lines);
    var first := FirstOpening(lines, table, 0);
    if first < |lines| {
      assert TableLine(lines[first], table);
    } else {
      assert forall k | 0 <= k < |lines| :: !Opens(lines[k], table);
    }
  }

  // A stamped file has the lines of the file, in order and byte for byte, but for one; and
  // that one keeps its indentation and its line ending around the new assignment.
  lemma OnlyOneLineChanges(text: string, table: string, quoted: string, out: string)
      returns (target: nat, indent: string, rest: string, ending: string)
    requires IsQuoted(quoted) && StampedText(text, table, quoted) == Ok(out)
    ensures target < |SplitAfter(text)| && Target(SplitAfter(text), table) == Ok(target)
    ensures SplitAfter(text)[target] == indent + rest + ending
    ensures SplitAfter(out) == SplitAfter(text)[target := indent + "version = " + quoted + ending]
    ensures IsIndent(indent) && (rest != "" ==> rest[0] != ' ' && rest[0] != '\t')
    ensures IsEnding(ending) && (rest != "" ==> rest[|rest| - 1] != '\n')
  {
    target := StampedLinesAre(text, table, quoted, out);
    indent, rest, ending := LineStamped(SplitAfter(text)[target], quoted, target < |SplitAfter(text)| - 1);
  }

  lemma LineStamped(line: string, quoted: string, newline: bool)
      returns (indent: string, rest: string, ending: string)
    requires IsQuoted(quoted) && Whole(line, newline)
    ensures line == indent + rest + ending && StampedLine(line, quoted) == indent + "version = " + quoted + ending
    ensures IsIndent(indent) && (rest != "" ==> rest[0] != ' ' && rest[0] != '\t')
    ensures IsEnding(ending) && (rest != "" ==> rest[|rest| - 1] != '\n')
  {
    var body := Body(line);
    indent := StampedParts(line, quoted);
    rest, ending := body[|indent|..], Ending(line);
    assert body == indent + rest;
    LineIsBodyAndEnding(line, newline);
    Regroup(indent, quoted, ending);
  }

  lemma Regroup(indent: string, quoted: string, ending: string)
    ensures indent + Assignment(quoted) + ending == indent + "version = " + quoted + ending
  {
    assert indent + ("version = " + quoted) == indent + "version = " + quoted;
  }

  lemma LineIsBodyAndEnding(line: string, newline: bool)
    requires Whole(line, newline)
    ensures line == Body(line) + Ending(line) && IsEnding(Ending(line))
    ensures forall k | 0 <= k < |Body(line)| :: Body(line)[k] != '\n'
  {
    var cut := Drop(line, '\n');
    assert forall k | 0 <= k < |cut| :: cut[k] == line[k] && cut[k] != '\n';
    assert line == cut + if EndsIn(line, '\n') then "\n" else "";
    assert cut == Body(line) + if EndsIn(cut, '\r') then "\r" else "";
  }

  lemma {:induction false} JoinConcat(a: seq<string>, b: seq<string>)
    ensures Join(a + b) == Join(a) + Join(b)
  {
    if a == [] {
      assert a + b == b;
    } else {
      assert (a + b)[1..] == a[1..] + b;
      JoinConcat(a[1..], b);
    }
  }

  // The text of some lines, around one of them.
  lemma JoinAround(lines: seq<string>, i: nat, line: string)
    requires i < |lines|
    ensures Join(lines[i := line]) == Join(lines[..i]) + line + Join(lines[i + 1..])
  {
    var before, after := lines[..i], lines[i + 1..];
    assert lines[i := line] == before + [line] + after;
    JoinConcat(before + [line], after);
    JoinConcat(before, [line]);
    assert [line][1..] == [];
  }

  // The text of the file itself: all before and after the line is as it was.
  lemma RestOfTextStays(text: string, table: string, quoted: string, out: string)
      returns (before: string, line: string, after: string)
    requires StampedText(text, table, quoted) == Ok(out)
    ensures text == before + line + after
    ensures out == before + StampedLine(line, quoted) + after
  {
    var lines := SplitAfter(text);
    var target := Target(lines, table).value;
    line := lines[target];
    before, after := Join(lines[..target]), Join(lines[target + 1..]);
    JoinOfSplit(text);
    JoinAround(lines, target, line);
    assert lines[target := line] == lines;
    JoinAround(lines, target, StampedLine(line, quoted));
  }

  // What is stamped is read back.
  lemma StampedTextReads(text: string, table: string, quoted: string, out: string)
    requires IsQuoted(quoted) && StampedText(text, table, quoted) == Ok(out)
    ensures VersionFrom(Split(out), table, 0, false) == Some(quoted)
  {
    var lines := SplitAfter(text);
    var target := StampedLinesAre(text, table, quoted, out);
    StampedLinesRead(lines, table, quoted);
    SplitIsWell(out);
    SplitDropsNewlines(out);
    VersionIgnoresNewlines(SplitAfter(out), Split(out), table, 0, false);
  }

  // Stamping one version and then another is stamping the other, and so is stamping again.
  lemma LaterStampAbsorbs(text: string, table: string, first: string, second: string, out: string)
    requires IsQuoted(first) && IsQuoted(second) && StampedText(text, table, first) == Ok(out)
    ensures StampedText(out, table, second) == StampedText(text, table, second)
    ensures StampedText(out, table, first) == Ok(out)
  {
    var target := StampedLinesAre(text, table, first, out);
    StampedTwice(SplitAfter(text), table, first, second);
    StampedTwice(SplitAfter(text), table, first, first);
  }

  // Stamping a file and reading the version back, as a build does with its base version:
  // whatever unquoting makes of the quoted version.
  method StampAndRead(text: string, table: string, quoted: string, unquote: string -> Option<string>)
      returns (result: Result<string, Error>, version: Option<string>)
    requires IsQuoted(quoted)
    ensures result == StampedText(text, table, quoted)
    ensures result.Ok? ==> version == unquote(quoted)
  {
    result := StampPackageVersionInTable(text, table, quoted);
    if result.Err? {
      return result, None;
    }
    StampedTextReads(text, table, quoted, result.value);
    version := ReadTomlPackageVersion(result.value, table, unquote);
  }
}
