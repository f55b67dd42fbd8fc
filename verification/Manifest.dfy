// Stamping the version of a TOML table, line by line, and reading it back
// (internal/codexcli/build_identity.go).

module Manifest {
  import opened Text

  // strings.SplitAfter(text, "\n"): every line but the last keeps its newline.
  function SplitAfter(text: string): (lines: seq<string>)
    ensures lines != []
  {
    if text == "" then [""]
    else
      var rest := SplitAfter(text[1..]);
      if text[0] == '\n' then ["\n"] + rest else [[text[0]] + rest[0]] + rest[1..]
  }

  // strings.Split(text, "\n").
  function Split(text: string): (lines: seq<string>)
    ensures lines != []
  {
    if text == "" then [""]
    else
      var rest := Split(text[1..]);
      if text[0] == '\n' then [""] + rest else [[text[0]] + rest[0]] + rest[1..]
  }

  // strings.Join(lines, "").
  function Join(lines: seq<string>): string {
    if lines == [] then "" else lines[0] + Join(lines[1..])
  }

  predicate EndsIn(line: string, c: char) {
    line != "" && line[|line| - 1] == c
  }

  // strings.TrimSuffix, of one character.
  function Drop(line: string, c: char): string {
    if EndsIn(line, c) then line[..|line| - 1] else line
  }

  // A line without its ending, if it still has one.
  function Body(line: string): string {
    Drop(Drop(line, '\n'), '\r')
  }

  // The same without the white space around it.
  function Bare(line: string): string {
    Trim(Body(line))
  }

  predicate IsHeader(line: string) {
    var bare := Bare(line);
    bare != "" && bare[0] == '[' && bare[|bare| - 1] == ']'
  }

  predicate Opens(line: string, table: string) {
    IsHeader(line) && Bare(line) == table
  }

  // The key of an assignment, if the line is one.
  function Key(bare: string): Option<string> {
    match CutAt(bare, "=")
    case Uncut => None
    case Cut(left, _) => Some(Trim(left))
  }

  // isTomlVersionAssignment.
  predicate IsVersionAssignment(bare: string) {
    Key(bare) == Some("version") || Key(bare) == Some("version.workspace")
  }

  // The first line from some position on that satisfies a predicate.
  function First(lines: seq<string>, p: string -> bool, from: nat): (at: nat)
    requires from <= |lines|
    ensures from <= at <= |lines| && (at < |lines| ==> p(lines[at]))
    ensures forall i | from <= i < at :: !p(lines[i])
    decreases |lines| - from
  {
    if from == |lines| || p(lines[from]) then from else First(lines, p, from + 1)
  }

  // The first that opens a table, and the first that ends the search in it.
  function FirstOpening(lines: seq<string>, table: string, from: nat): (at: nat)
    requires from <= |lines|
    ensures from <= at <= |lines| && (at < |lines| ==> Opens(lines[at], table))
    ensures forall i | from <= i < at :: !Opens(lines[i], table)
  {
    First(lines, (line: string) => Opens(line, table), from)
  }

  predicate Ends(line: string) {
    IsHeader(line) || IsVersionAssignment(Bare(line))
  }

  function FirstEnd(lines: seq<string>, from: nat): (at: nat)
    requires from <= |lines|
    ensures from <= at <= |lines| && (at < |lines| ==> Ends(lines[at]))
    ensures forall i | from <= i < at :: !Ends(lines[i])
  {
    First(lines, Ends, from)
  }

  datatype Error = MissingTable | MissingVersion

  // The line to stamp: the first version assignment of the first such table.
  function Target(lines: seq<string>, table: string): (target: Result<nat, Error>)
    ensures target.Ok? ==> target.value < |lines|
  {
    var opening := FirstOpening(lines, table, 0);
    if opening == |lines| then Err(MissingTable) else
      var end := FirstEnd(lines, opening + 1);
      if end == |lines| || IsHeader(lines[end]) then Err(MissingVersion) else Ok(end)
  }

  // Leading blanks and tabs, and the line ending.
  function Indent(line: string): (n: nat)
    ensures n <= |line| && (n < |line| ==> line[n] != ' ' && line[n] != '\t')
    ensures forall i | 0 <= i < n :: line[i] == ' ' || line[i] == '\t'
  {
    if line != "" && (line[0] == ' ' || line[0] == '\t') then 1 + Indent(line[1..]) else 0
  }

  function Ending(line: string): string {
    (if EndsIn(Drop(line, '\n'), '\r') then "\r" else "") + if EndsIn(line, '\n') then "\n" else ""
  }

  // The assignment a stamped line carries.
  function Assignment(quoted: string): string {
    "version = " + quoted
  }

  // stampedVersionLine; quoted is the quoted version.
  function StampedLine(line: string, quoted: string): string {
    var body := Body(line);
    body[..Indent(body)] + Assignment(quoted) + Ending(line)
  }

  function Stamped(lines: seq<string>, table: string, quoted: string): Result<seq<string>, Error> {
    var target := Target(lines, table);
    if target.Err? then Err(target.error)
    else Ok(lines[target.value := StampedLine(lines[target.value], quoted)])
  }

  function StampedText(text: string, table: string, quoted: string): Result<string, Error> {
    match Stamped(SplitAfter(text), table, quoted)
    case Ok(lines) => Ok(Join(lines))
    case Err(error) => Err(error)
  }

  // How far the search has got: the first table is still to come, or its version is.
  ghost predicate Searching(lines: seq<string>, table: string, index: nat, inTable: bool)
    requires index <= |lines|
  {
    var opening := FirstOpening(lines, table, 0);
    if inTable then opening < index && FirstEnd(lines, opening + 1) == FirstEnd(lines, index)
    else opening == FirstOpening(lines, table, index)
  }

  lemma SearchGoesOn(lines: seq<string>, table: string, index: nat, inTable: bool)
    requires index < |lines| && Searching(lines, table, index, inTable)
    ensures !inTable && IsHeader(lines[index]) ==> Searching(lines, table, index + 1, Bare(lines[index]) == table)
    ensures !IsHeader(lines[index]) && !(inTable && IsVersionAssignment(Bare(lines[index]))) ==>
              Searching(lines, table, index + 1, inTable)
    ensures inTable && IsHeader(lines[index]) ==> Target(lines, table) == Err(MissingVersion)
    ensures inTable && !IsHeader(lines[index]) && IsVersionAssignment(Bare(lines[index]))
            ==> Target(lines, table) == Ok(index)
  {}

  lemma SearchEnds(lines: seq<string>, table: string, inTable: bool)
    requires Searching(lines, table, |lines|, inTable)
    ensures Target(lines, table) == Err(if inTable then MissingVersion else MissingTable)
  {}

  // stampPackageVersionInTable, from the text of the file to its new text.
  method StampPackageVersionInTable(text: string, table: string, quoted: string) returns (result: Result<string, Error>)
    ensures result == StampedText(text, table, quoted)
  {
    var lines := SplitAfter(text);
    ghost var before := lines;
    var inTable, foundTable, stamped := false, false, false;
    for index := 0 to |lines|
      invariant !stamped && foundTable == inTable && lines == before
      invariant Searching(lines, table, index, inTable)
    {
      var line := lines[index];
      SearchGoesOn(lines, table, index, inTable);
      if IsHeader(line) {
        if inTable && !stamped {
          return Err(MissingVersion);
        }
        inTable := Bare(line) == table;
        if inTable {
          foundTable := true;
        }
        continue;
      }
      if !inTable || !IsVersionAssignment(Bare(line)) {
        continue;
      }
      lines := lines[index := StampedLine(line, quoted)];
      stamped := true;
      break;
    }
    if !stamped {
      SearchEnds(before, table, inTable);
    }
    if !foundTable {
      return Err(MissingTable);
    }
    if !stamped {
      return Err(MissingVersion);
    }
    return Ok(Join(lines));
  }

  // The text a reader takes for the version from some line on.
  function VersionFrom(lines: seq<string>, table: string, from: nat, inTable: bool): Option<string>
    requires from <= |lines|
    decreases |lines| - from
  {
    if from == |lines| then None
    else if IsHeader(lines[from]) then VersionFrom(lines, table, from + 1, Bare(lines[from]) == table)
    else if inTable && Key(Bare(lines[from])) == Some("version") then Some(Trim(CutAt(Bare(lines[from]), "=").after))
    else VersionFrom(lines, table, from + 1, inTable)
  }

  // readTomlPackageVersion; unquote is strconv.Unquote.
  method ReadTomlPackageVersion(text: string, table: string, unquote: string -> Option<string>)
      returns (version: Option<string>)
    ensures var found := VersionFrom(Split(text), table, 0, false);
            version == if found.None? then None else unquote(found.value)
  {
    var inTable := false;
    var lines := Split(text);
    for index := 0 to |lines|
      invariant VersionFrom(lines, table, 0, false) == VersionFrom(lines, table, index, inTable)
    {
      var line := lines[index];
      if IsHeader(line) {
        inTable := Bare(line) == table;
        continue;
      }
      if !inTable {
        continue;
      }
      var pieces := CutAt(Bare(line), "=");
      if pieces.Uncut? || Trim(pieces.before) != "version" {
        continue;
      }
      return unquote(Trim(pieces.after));
    }
    return None;
  }
}
