// Printing a launch policy and interpreting it: the whole file, any truncation of it, and
// the redirect port that is read back.

module PolicyRoundTrip {
  import opened InjectorPolicy

  // A token is read back from anything that follows its terminator, cut anywhere.
  lemma {:induction false} TokenCut(text: string, rest: string, n: nat)
    requires NUL !in text && n <= |text| + 1 + |rest|
    ensures var data := text + [NUL] + rest;
            FirstToken(data[..n]) == if n <= |text| then NoToken else Token(text, rest[..n - |text| - 1])
  {
    var data := text + [NUL] + rest;
    if n > 0 {
      assert data[..n][0] == data[0] && data[..n][1..] == data[1..n];
      if text == "" {
        assert data[1..n] == rest[..n - 1];
      } else {
        var tail := text[1..] + [NUL] + rest;
        assert data[1..] == tail && data[1..n] == tail[..n - 1];
        TokenCut(text[1..], rest, n - 1);
        assert [text[0]] + text[1..] == text;
      }
    }
  }

  predicate Clean(values: seq<string>) {
    forall i | 0 <= i < |values| :: NUL !in values[i]
  }

  lemma WireFirst(values: seq<string>, rest: string)
    requires values != []
    ensures Wire(values) + rest == values[0] + [NUL] + (Wire(values[1..]) + rest)
  {
    Reassociate(values[0] + [NUL], Wire(values[1..]), rest);
  }

  lemma Reassociate(a: string, b: string, c: string)
    ensures a + b + c == a + (b + c)
  {}

  // The fields of a record, then anything, cut anywhere: one field at a time.
  lemma FieldCut(values: seq<string>, rest: string, n: nat)
    requires values != [] && Clean(values) && n <= |Wire(values) + rest|
    ensures var data := (Wire(values) + rest)[..n];
            var more := Wire(values[1..]) + rest;
            if n <= |values[0]| then FirstToken(data) == NoToken
            else n - |values[0]| - 1 <= |more| && FirstToken(data) == Token(values[0], more[..n - |values[0]| - 1])
  {
    WireFirst(values, rest);
    TokenCut(values[0], Wire(values[1..]) + rest, n);
  }

  lemma {:induction false} WireLength(values: seq<string>)
    ensures |Wire(values)| >= |values|
  {
    if values != [] {
      WireLength(values[1..]);
    }
  }

  lemma KindOf(op: Op)
    ensures ParseRecordKind(Fields(op)[0]) == if op.Set? then SetRecord else if op.Unset? then UnsetRecord
            else AppendRecord
    ensures |Fields(op)| == if op.Set? then 3 else 2
    ensures NUL !in Fields(op)[0]
  {}

  // A record, then anything, cut anywhere: the record is read whole or not at all.
  lemma RecordCut(op: Op, rest: string, n: nat)
    requires Clean(Fields(op)) && n <= |Record(op) + rest|
    ensures var data := (Record(op) + rest)[..n];
            FirstRecord(data) == if n < |Record(op)| then NoRecord else Parsed(op, rest[..n - |Record(op)|])
  {
    KindOf(op);
    var fields := Fields(op);
    WireLength(fields[1..]);
    FieldCut(fields, rest, n);
    if n > |fields[0]| {
      FieldCut(fields[1..], rest, n - |fields[0]| - 1);
      FieldsAfterKind(op, fields, rest, n - |fields[0]| - 1);
    }
  }

  lemma FieldsAfterKind(op: Op, fields: seq<string>, rest: string, m: nat)
    requires fields == Fields(op) && Clean(fields) && m <= |Wire(fields[1..]) + rest|
    ensures var data := (Wire(fields[1..]) + rest)[..m];
            var first := FirstToken(data);
            if op.Set? then
              if m < |Wire(fields[1..])| then first.NoToken? || FirstToken(first.rest).NoToken?
              else
                && first.Token? && first.text == op.key
                && FirstToken(first.rest) == Token(op.value, rest[..m - |Wire(fields[1..])|])
            else
              first == if m < |Wire(fields[1..])| then NoToken
                       else Token(if op.Unset? then op.key else op.value, rest[..m - |Wire(fields[1..])|])
  {
    var values := fields[1..];
    FieldCut(values, rest, m);
    if op.Set? {
      assert values == [op.key, op.value] && values[1..] == [op.value];
      KeyAndValue(op.key, op.value, rest, m);
    } else {
      assert values == [if op.Unset? then op.key else op.value];
      OneField(values[0]);
    }
  }

  // Two fields, then anything, cut anywhere.
  lemma KeyAndValue(key: string, value: string, rest: string, m: nat)
    requires NUL !in key && NUL !in value && m <= |Wire([key, value]) + rest|
    ensures var first := FirstToken((Wire([key, value]) + rest)[..m]);
            if m < |Wire([key, value])| then first.NoToken? || FirstToken(first.rest).NoToken?
            else
              && first.Token? && first.text == key
              && FirstToken(first.rest) == Token(value, rest[..m - |Wire([key, value])|])
  {
    assert [key, value][1..] == [value];
    FieldCut([key, value], rest, m);
    OneField(value);
    if m > |key| {
      FieldCut([value], rest, m - |key| - 1);
    }
  }

  lemma OneField(value: string)
    ensures Wire([value]) == value + [NUL]
  {
    assert [value][1..] == [];
  }

  lemma {:induction false} PrintFirst(op: Op, ops: seq<Op>)
    ensures Print([op] + ops) == Record(op) + Print(ops)
  {
    if ops == [] {
      assert [op] + ops == [op] && [op][..0] == [];
    } else {
      var front, last := ops[..|ops| - 1], ops[|ops| - 1];
      PrintFirst(op, front);
      assert [op] + ops == ([op] + front) + [last];
      PrintAppend([op] + front, last);
      Reassociate(Record(op), Print(front), Record(last));
    }
  }

  lemma {:induction false} RunFirst(op: Op, ops: seq<Op>, state: State, canAppend: bool)
    ensures Run([op] + ops, state, canAppend) == Run(ops, Act(op, state, canAppend), canAppend)
  {
    if ops == [] {
      assert [op] + ops == [op] && [op][..0] == [];
    } else {
      RunFirst(op, ops[..|ops| - 1], state, canAppend);
      assert ([op] + ops)[..|[op] + ops| - 1] == [op] + ops[..|ops| - 1];
    }
  }

  predicate CleanOp(op: Op) {
    (op.Append? || NUL !in op.key) && (op.Unset? || NUL !in op.value)
  }

  predicate CleanOps(ops: seq<Op>) {
    forall i | 0 <= i < |ops| :: CleanOp(ops[i])
  }

  // How many of some records lie wholly within the first n characters of their text.
  function Whole(ops: seq<Op>, n: nat): (k: nat)
    ensures k <= |ops|
  {
    if ops == [] || n < |Record(ops[0])| then 0 else 1 + Whole(ops[1..], n - |Record(ops[0])|)
  }

  lemma PrintTake(ops: seq<Op>, k: nat)
    requires 0 < k <= |ops|
    ensures |Print(ops[..k])| == |Record(ops[0])| + |Print(ops[1..][..k - 1])|
  {
    assert ops[..k] == [ops[0]] + ops[1..][..k - 1];
    PrintFirst(ops[0], ops[1..][..k - 1]);
  }

  lemma {:induction false} WholeFits(ops: seq<Op>, n: nat)
    ensures |Print(ops[..Whole(ops, n)])| <= n
  {
    var k := Whole(ops, n);
    if k > 0 {
      PrintTake(ops, k);
      WholeFits(ops[1..], n - |Record(ops[0])|);
    }
  }

  lemma {:induction false} OneMoreDoesNotFit(ops: seq<Op>, n: nat)
    requires Whole(ops, n) < |ops|
    ensures n < |Print(ops[..Whole(ops, n) + 1])|
  {
    var k := Whole(ops, n);
    PrintTake(ops, k + 1);
    if k > 0 {
      OneMoreDoesNotFit(ops[1..], n - |Record(ops[0])|);
    }
  }

  // It is the largest number of records that fit.
  lemma WholeIsLargest(ops: seq<Op>, n: nat)
    ensures var k := Whole(ops, n);
            |Print(ops[..k])| <= n && (k < |ops| ==> n < |Print(ops[..k + 1])|)
  {
    WholeFits(ops, n);
    if Whole(ops, n) < |ops| {
      OneMoreDoesNotFit(ops, n);
    }
  }

  // The records a reader finds in some text before it stops.
  function Records(data: string): seq<Op>
    decreases |data|
  {
    var parsed := FirstRecord(data);
    if parsed.NoRecord? then [] else [parsed.op] + Records(parsed.rest)
  }

  // Interpreting any text carries out the records found in it.
  lemma {:induction false} InterpretIsRun(data: string, state: State, canAppend: bool)
    ensures Interpret(data, state, canAppend) == Run(Records(data), state, canAppend)
    decreases |data|
  {
    var parsed := FirstRecord(data);
    if parsed.Parsed? {
      InterpretIsRun(parsed.rest, Act(parsed.op, state, canAppend), canAppend);
      RunFirst(parsed.op, Records(parsed.rest), state, canAppend);
    }
  }

  // Of records without NUL, cut anywhere, the reader finds exactly those that are whole,
  lemma {:induction false} RecordsTruncated(ops: seq<Op>, n: nat)
    requires CleanOps(ops) && n <= |Print(ops)|
    ensures Records(Print(ops)[..n]) == ops[..Whole(ops, n)]
    decreases |ops|
  {
    if ops != [] {
      var op, rest, length := ops[0], ops[1..], |Record(ops[0])|;
      assert ops == [op] + rest;
      PrintFirst(op, rest);
      RecordsCut(op, Print(rest), n);
      WholeTake(ops, n);
      if n >= length {
        RecordsTruncated(rest, n - length);
      }
    }
  }

  lemma RecordsCut(op: Op, text: string, n: nat)
    requires CleanOp(op) && n <= |Record(op) + text|
    ensures Records((Record(op) + text)[..n])
            == if n < |Record(op)| then [] else [op] + Records(text[..n - |Record(op)|])
  {
    KindOf(op);
    RecordCut(op, text, n);
  }

  lemma WholeTake(ops: seq<Op>, n: nat)
    requires ops != []
    ensures ops[..Whole(ops, n)]
            == if n < |Record(ops[0])| then []
               else [ops[0]] + ops[1..][..Whole(ops[1..], n - |Record(ops[0])|)]
  {}

  // and carries them out, in order.
  lemma TruncatedPolicy(ops: seq<Op>, n: nat, state: State, canAppend: bool)
    requires CleanOps(ops) && n <= |Print(ops)|
    ensures Interpret(Print(ops)[..n], state, canAppend) == Run(ops[..Whole(ops, n)], state, canAppend)
  {
    RecordsTruncated(ops, n);
    InterpretIsRun(Print(ops)[..n], state, canAppend);
  }

  lemma {:induction false} AllWhole(ops: seq<Op>)
    ensures Whole(ops, |Print(ops)|) == |ops|
  {
    if ops != [] {
      assert ops == [ops[0]] + ops[1..];
      PrintFirst(ops[0], ops[1..]);
      AllWhole(ops[1..]);
    }
  }

  // ----- Any text at all.

  lemma {:induction false} TokenOfPrefix(part: string, data: string)
    requires part <= data && FirstToken(part).Token?
    ensures var token := FirstToken(data);
            token.Token? && token.text == FirstToken(part).text && FirstToken(part).rest <= token.rest
  {
    assert part[0] == data[0] && part[1..] <= data[1..];
    if part[0] != NUL {
      TokenOfPrefix(part[1..], data[1..]);
    }
  }

  lemma RecordOfPrefix(part: string, data: string)
    requires part <= data && FirstRecord(part).Parsed?
    ensures var parsed := FirstRecord(data);
            parsed.Parsed? && parsed.op == FirstRecord(part).op && FirstRecord(part).rest <= parsed.rest
  {
    TokenOfPrefix(part, data);
    var kind, whole := FirstToken(part), FirstToken(data);
    TokenOfPrefix(kind.rest, whole.rest);
    if ParseRecordKind(kind.text) == SetRecord {
      TokenOfPrefix(FirstToken(kind.rest).rest, FirstToken(whole.rest).rest);
    }
  }

  // A truncation of any text holds a prefix of the records of the whole.
  lemma {:induction false} RecordsOfPrefix(part: string, data: string)
    requires part <= data
    ensures Records(part) <= Records(data)
    decreases |part|
  {
    if FirstRecord(part).Parsed? {
      RecordOfPrefix(part, data);
      RecordsOfPrefix(FirstRecord(part).rest, FirstRecord(data).rest);
    }
  }

  lemma {:induction false} TokensClean(data: string)
    requires FirstToken(data).Token?
    ensures NUL !in FirstToken(data).text
  {
    if data[0] != NUL {
      TokensClean(data[1..]);
    }
  }

  lemma RecordClean(data: string)
    requires FirstRecord(data).Parsed?
    ensures CleanOp(FirstRecord(data).op)
  {
    var kind := FirstToken(data);
    var first := FirstToken(kind.rest);
    TokensClean(kind.rest);
    if ParseRecordKind(kind.text) == SetRecord {
      TokensClean(first.rest);
    }
  }

  lemma {:induction false} RecordsClean(data: string)
    ensures CleanOps(Records(data))
    decreases |data|
  {
    if FirstRecord(data).Parsed? {
      RecordClean(data);
      RecordsClean(FirstRecord(data).rest);
    }
  }

  lemma RecordRead(op: Op, rest: string)
    requires CleanOp(op)
    ensures FirstRecord(Record(op) + rest) == Parsed(op, rest)
  {
    KindOf(op);
    var data := Record(op) + rest;
    RecordCut(op, rest, |data|);
    assert data[..|data|] == data && rest[..|rest|] == rest;
  }

  lemma {:induction false} PrintedRecords(ops: seq<Op>)
    requires CleanOps(ops)
    ensures Records(Print(ops)) == ops
  {
    if ops != [] {
      assert ops == [ops[0]] + ops[1..];
      PrintFirst(ops[0], ops[1..]);
      RecordRead(ops[0], Print(ops[1..]));
      PrintedRecords(ops[1..]);
    }
  }

  // What is printed is what is found exactly when no field holds a NUL.
  lemma PrintedRecordsIff(ops: seq<Op>)
    ensures Records(Print(ops)) == ops <==> CleanOps(ops)
  {
    RecordsClean(Print(ops));
    if CleanOps(ops) {
      PrintedRecords(ops);
    }
  }

  // So it is for one record, and for the records of every truncation.
  lemma RecordReadIff(op: Op, rest: string)
    ensures FirstRecord(Record(op) + rest) == Parsed(op, rest) <==> CleanOp(op)
  {
    if CleanOp(op) {
      RecordRead(op, rest);
    } else if FirstRecord(Record(op) + rest).Parsed? {
      RecordClean(Record(op) + rest);
    }
  }

  lemma TruncatedRecordsIff(ops: seq<Op>)
    ensures (forall n | 0 <= n <= |Print(ops)| :: Records(Print(ops)[..n]) == ops[..Whole(ops, n)]) <==> CleanOps(ops)
  {
    if CleanOps(ops) {
      forall n | 0 <= n <= |Print(ops)| ensures Records(Print(ops)[..n]) == ops[..Whole(ops, n)] {
        RecordsTruncated(ops, n);
      }
    } else {
      var n := |Print(ops)|;
      AllWhole(ops);
      PrintedRecordsIff(ops);
      assert Print(ops)[..n] == Print(ops) && ops[..|ops|] == ops;
    }
  }

  // A value with a NUL is cut there, and the reader takes what follows for a new record.
  lemma NulCutsValue(key: string, before: string, after: string, rest: string)
    requires NUL !in key && NUL !in before
    ensures FirstRecord(Record(Set(key, before + [NUL] + after)) + rest)
            == Parsed(Set(key, before), after + [NUL] + rest)
  {
    var value := before + [NUL] + after;
    OneField(value);
    OneField(before);
    WireSet(key, value);
    WireSet(key, before);
    assert Record(Set(key, value)) + rest == Record(Set(key, before)) + (after + [NUL] + rest);
    RecordRead(Set(key, before), after + [NUL] + rest);
  }

  lemma WireSet(key: string, value: string)
    ensures Record(Set(key, value)) == "set" + [NUL] + (key + [NUL] + (value + [NUL]))
  {
    var values := Fields(Set(key, value));
    assert values[1..] == [key, value] && [key, value][1..] == [value];
    OneField(value);
    assert Wire([key, value]) == key + [NUL] + (value + [NUL]);
    Reassociate(key + [NUL], value, [NUL]);
    Reassociate(key, [NUL], value + [NUL]);
  }

  // The wire format: the word of the action and its fields, a NUL behind each.
  lemma RecordTexts(key: string, value: string)
    ensures Record(Set(key, value)) == "set" + [NUL] + (key + [NUL] + (value + [NUL]))
    ensures Record(Unset(key)) == "unset" + [NUL] + (key + [NUL])
    ensures Record(Append(value)) == "append-argv" + [NUL] + (value + [NUL])
  {
    WireSet(key, value);
    OneField(key);
    OneField(value);
    assert ["unset", key][1..] == [key] && ["append-argv", value][1..] == [value];
  }

  // What follows stops the reader unless it is the name of a kind.
  lemma UnknownKindStops(kind: string, rest: string)
    requires NUL !in kind && ParseRecordKind(kind) == Unknown
    ensures FirstRecord(kind + [NUL] + rest) == NoRecord
  {
    var data := kind + [NUL] + rest;
    TokenCut(kind, rest, |data|);
    assert data[..|data|] == data;
  }

  // So a policy with such a value in front of other records carries out only its first part.
  lemma NulStopsReader(key: string, before: string, after: string, ops: seq<Op>, state: State, canAppend: bool)
    requires NUL !in key && NUL !in before && NUL !in after && ParseRecordKind(after) == Unknown
    ensures Interpret(Print([Set(key, before + [NUL] + after)] + ops), state, canAppend)
            == Act(Set(key, before), state, canAppend)
  {
    var op := Set(key, before + [NUL] + after);
    PrintFirst(op, ops);
    NulCutsValue(key, before, after, Print(ops));
    UnknownKindStops(after, Print(ops));
  }
}
