// Which values of a launch policy arrive, NUL characters or not: exact conditions.

module PolicyArrival {
  import opened Numbers
  import opened Text
  import opened InjectorPolicy
  import opened PolicyRoundTrip
  import opened PolicyEffects

  // A text of which the reader leaves nothing: the records found in it print it.
  ghost predicate ReadsWhole(text: string) {
    Print(Records(text)) == text
  }

  predicate Untouched(ops: seq<Op>, key: string) {
    forall i | 0 <= i < |ops| :: !Touches(ops[i], key)
  }

  // ----- What the reader does not read.

  // What is left of some text where the reader stops.
  function Leftover(data: string): string
    decreases |data|
  {
    var parsed := FirstRecord(data);
    if parsed.NoRecord? then data else Leftover(parsed.rest)
  }

  lemma {:induction false} PrintConcat(a: seq<Op>, b: seq<Op>)
    ensures Print(a + b) == Print(a) + Print(b)
  {
    if b == [] {
      assert a + b == a;
    } else {
      var front, last := b[..|b| - 1], b[|b| - 1];
      PrintConcat(a, front);
      assert b == front + [last];
      PrintAfter(a, front, last);
      Reassociate(Print(a), Print(front), Record(last));
    }
  }

  lemma {:induction false} TokenIs(data: string)
    requires FirstToken(data).Token?
    ensures data == FirstToken(data).text + [NUL] + FirstToken(data).rest
  {
    if data[0] != NUL {
      TokenIs(data[1..]);
    }
  }

  lemma RecordIs(data: string)
    requires FirstRecord(data).Parsed?
    ensures data == Record(FirstRecord(data).op) + FirstRecord(data).rest
  {
    var kind := FirstToken(data);
    var first := FirstToken(kind.rest);
    TokenIs(data);
    TokenIs(kind.rest);
    if ParseRecordKind(kind.text) == SetRecord {
      var second := FirstToken(first.rest);
      TokenIs(first.rest);
      WireSet(first.text, second.text);
      Regrouped(first.text + [NUL], second.text + [NUL], second.rest);
      Regrouped(kind.text + [NUL], first.text + [NUL] + (second.text + [NUL]), second.rest);
    } else {
      OneField(first.text);
      assert [kind.text, first.text][1..] == [first.text];
      Regrouped(kind.text + [NUL], first.text + [NUL], first.rest);
    }
  }

  // Any text is the records found in it and then what is left.
  lemma {:induction false} TextIs(data: string)
    ensures data == Print(Records(data)) + Leftover(data)
    ensures FirstRecord(Leftover(data)).NoRecord?
    decreases |data|
  {
    var parsed := FirstRecord(data);
    if parsed.Parsed? {
      RecordIs(data);
      TextIs(parsed.rest);
      PrintFirst(parsed.op, Records(parsed.rest));
      Reassociate(Record(parsed.op), Print(Records(parsed.rest)), Leftover(parsed.rest));
    }
  }

  lemma RecordsRead(op: Op, rest: string)
    requires CleanOp(op)
    ensures Records(Record(op) + rest) == [op] + Records(rest)
  {
    RecordRead(op, rest);
  }

  lemma PrintOnFrom(ops: seq<Op>, text: string)
    requires ops != []
    ensures Print(ops) + text == Record(ops[0]) + (Print(ops[1..]) + text)
  {
    assert ops == [ops[0]] + ops[1..];
    PrintFirst(ops[0], ops[1..]);
    Reassociate(Record(ops[0]), Print(ops[1..]), text);
  }

  lemma FirstOfAll<T>(s: seq<T>, more: seq<T>)
    requires s != []
    ensures [s[0]] + (s[1..] + more) == s + more
  {}

  // Records that can be read are read whatever follows.
  lemma {:induction false} ReadOn(ops: seq<Op>, text: string)
    requires CleanOps(ops)
    ensures Records(Print(ops) + text) == ops + Records(text)
  {
    if ops == [] {
      assert Print(ops) + text == text;
    } else {
      var op, rest := ops[0], ops[1..];
      PrintOnFrom(ops, text);
      RecordsRead(op, Print(rest) + text);
      ReadOn(rest, text);
      FirstOfAll(ops, Records(text));
    }
  }

  // So more text is read from where the reader stopped.
  lemma MoreText(data: string, more: string)
    ensures Records(data + more) == Records(data) + Records(Leftover(data) + more)
  {
    TextIs(data);
    RecordsClean(data);
    Reassociate(Print(Records(data)), Leftover(data), more);
    ReadOn(Records(data), Leftover(data) + more);
  }

  // ----- What is left of printed records.

  predicate Ended(text: string) {
    text == "" || text[|text| - 1] == NUL
  }

  lemma {:induction false} PrintEnded(ops: seq<Op>)
    ensures Ended(Print(ops))
  {
    if ops != [] {
      WireEnded(Fields(ops[|ops| - 1]));
    }
  }

  lemma {:induction false} WireEnded(values: seq<string>)
    ensures Ended(Wire(values)) && (values != [] ==> Wire(values) != "")
  {
    if values != [] {
      WireEnded(values[1..]);
    }
  }

  lemma {:induction false} TokenOfEnded(text: string)
    requires text != "" && Ended(text)
    ensures FirstToken(text).Token? && Ended(FirstToken(text).rest)
  {
    if text[0] != NUL {
      TokenOfEnded(text[1..]);
    }
  }

  lemma TokenRead(text: string, rest: string)
    requires NUL !in text
    ensures FirstToken(text + [NUL] + rest) == Token(text, rest)
  {
    var data := text + [NUL] + rest;
    TokenCut(text, rest, |data|);
    assert data[..|data|] == data && rest[..|rest|] == rest;
  }

  // A record by its tokens.
  function ByTokens(kind: string, first: Token, second: Token): Parsed {
    if first.NoToken? then NoRecord else
      match ParseRecordKind(kind)
      case Unknown => NoRecord
      case UnsetRecord => Parsed(Unset(first.text), first.rest)
      case AppendRecord => Parsed(Append(first.text), first.rest)
      case SetRecord => if second.NoToken? then NoRecord else Parsed(Set(first.text, second.text), second.rest)
  }

  lemma RecordByTokens(data: string, kind: Token, first: Token, second: Token)
    requires FirstToken(data) == kind && kind.Token?
    requires FirstToken(kind.rest) == first && (first.Token? ==> FirstToken(first.rest) == second)
    ensures FirstRecord(data) == ByTokens(kind.text, first, second)
  {}

  // A record read from three tokens and more.
  lemma ThreeTokens(kind: string, one: string, two: string, more: string)
    requires NUL !in kind && NUL !in one && NUL !in two
    ensures FirstRecord(kind + [NUL] + (one + [NUL] + (two + [NUL] + more)))
            == ByTokens(kind, Token(one, two + [NUL] + more), Token(two, more))
  {
    var after := two + [NUL] + more;
    TokenRead(kind, one + [NUL] + after);
    TokenRead(one, after);
    TokenRead(two, more);
    RecordByTokens(kind + [NUL] + (one + [NUL] + after), Token(kind, one + [NUL] + after), Token(one, after),
                   Token(two, more));
  }

  // What is left: the name of a kind, or of the kind set and a field, or no kind and anything.
  lemma LeftoverIs(left: string)
    requires left != "" && Ended(left) && FirstRecord(left).NoRecord?
    ensures var kind := FirstToken(left);
            && kind.Token? && NUL !in kind.text && left == kind.text + [NUL] + kind.rest
            && (ParseRecordKind(kind.text) != Unknown && kind.rest != "" ==>
                  var field := FirstToken(kind.rest);
                  field.Token? && NUL !in field.text && kind.text == "set" && kind.rest == field.text + [NUL])
  {
    TokenOfEnded(left);
    TokenIs(left);
    TokensClean(left);
    var rest := FirstToken(left).rest;
    if rest != "" {
      TokenOfEnded(rest);
      TokenIs(rest);
      TokensClean(rest);
      if FirstToken(FirstToken(rest).rest).NoToken? {
        LastIsEmpty(FirstToken(rest).rest);
      }
    }
  }

  // The first record found when two tokens and more come after what was left.
  function Misread(left: string, first: string, second: string, more: string): Parsed {
    var kind := FirstToken(left);
    var after := second + [NUL] + more;
    if kind.NoToken? || ParseRecordKind(kind.text) == Unknown then NoRecord
    else if kind.rest == "" then ByTokens(kind.text, Token(first, after), Token(second, more))
    else
      var field := FirstToken(kind.rest);
      if field.NoToken? then NoRecord else Parsed(Set(field.text, first), after)
  }

  lemma LeftoverReads(left: string, first: string, second: string, more: string)
    requires left != "" && Ended(left) && FirstRecord(left).NoRecord?
    requires NUL !in first && NUL !in second
    ensures FirstRecord(left + (first + [NUL] + (second + [NUL] + more))) == Misread(left, first, second, more)
  {
    LeftoverIs(left);
    var kind := FirstToken(left);
    var after := second + [NUL] + more;
    var added := first + [NUL] + after;
    Reassociate(kind.text + [NUL], kind.rest, added);
    if ParseRecordKind(kind.text) == Unknown {
      UnknownKindStops(kind.text, kind.rest + added);
    } else if kind.rest == "" {
      assert kind.rest + added == added;
      ThreeTokens(kind.text, first, second, more);
    } else {
      ThreeTokens(kind.text, FirstToken(kind.rest).text, first, after);
    }
  }

  lemma LastIsEmpty(text: string)
    requires Ended(text) && FirstToken(text).NoToken?
    ensures text == ""
  {
    if text != "" {
      TokenOfEnded(text);
    }
  }

  // ----- A setting of a variable between other records.

  // A printed setting and what is behind it.
  function Setting(key: string, value: string, more: string): string {
    "set" + [NUL] + (key + [NUL] + (value + [NUL] + more))
  }

  lemma SettingPrinted(key: string, value: string, after: seq<Op>)
    ensures Print([Set(key, value)] + after) == Setting(key, value, Print(after))
  {
    PrintFirst(Set(key, value), after);
    WireSet(key, value);
    Reassociate("set" + [NUL], key + [NUL] + (value + [NUL]), Print(after));
    Reassociate(key + [NUL], value + [NUL], Print(after));
  }

  // Values that name no kind of record, nor the variable itself.
  predicate Plain(value: string, key: string) {
    NUL !in value && ParseRecordKind(value) == Unknown && value != key
  }

  // Records alike, for one variable: the same wherever they touch it.
  predicate Alike(a: seq<Op>, b: seq<Op>, key: string) {
    |a| == |b| && forall i | 0 <= i < |a| :: a[i] == b[i] || !(Touches(a[i], key) || Touches(b[i], key))
  }

  lemma {:induction false} AlikeLeavesSame(a: seq<Op>, b: seq<Op>, key: string, state: State, canAppend: bool)
    requires Alike(a, b, key)
    ensures Variable(Run(a, state, canAppend).env, key) == Variable(Run(b, state, canAppend).env, key)
    decreases |a|
  {
    if a != [] {
      var last := |a| - 1;
      AlikeLeavesSame(a[..last], b[..last], key, state, canAppend);
      ActsAlike(a[last], b[last], Run(a[..last], state, canAppend), Run(b[..last], state, canAppend), key, canAppend);
    }
  }

  lemma ActsAlike(op: Op, other: Op, state: State, otherState: State, key: string, canAppend: bool)
    requires op == other || !(Touches(op, key) || Touches(other, key))
    requires Variable(state.env, key) == Variable(otherState.env, key)
    ensures Variable(Act(op, state, canAppend).env, key) == Variable(Act(other, otherState, canAppend).env, key)
  {}

  lemma AlikeAfter(op: Op, other: Op, a: seq<Op>, b: seq<Op>, key: string)
    requires op == other || !(Touches(op, key) || Touches(other, key))
    requires Alike(a, b, key)
    ensures Alike([op] + a, [other] + b, key)
  {}

  lemma AlikeAppended(before: seq<Op>, a: seq<Op>, b: seq<Op>, key: string)
    requires Alike(a, b, key)
    ensures Alike(before + a, before + b, key)
  {}

  lemma PlainStops(value: string, key: string, more: string)
    requires Plain(value, key)
    ensures Records(value + [NUL] + more) == []
  {
    UnknownKindStops(value, more);
  }

  // The name of the variable taken for the kind of a record, and its value for a field.
  lemma KeyMisread(key: string, one: string, other: string, more: string)
    requires NUL !in key && Plain(one, key) && Plain(other, key)
    ensures Alike(Records(key + [NUL] + (one + [NUL] + more)), Records(key + [NUL] + (other + [NUL] + more)), key)
  {
    KeyAsKind(key, one, more);
    KeyAsKind(key, other, more);
    OfKindAlike(ParseRecordKind(key), one, other, more, key);
  }

  // One record of the kind that the name says, and the records after it.
  function OfKind(kind: RecordKind, field: string, more: string): seq<Op> {
    match kind
    case Unknown => []
    case UnsetRecord => [Unset(field)] + Records(more)
    case AppendRecord => [Append(field)] + Records(more)
    case SetRecord =>
      var token := FirstToken(more);
      if token.NoToken? then [] else [Set(field, token.text)] + Records(token.rest)
  }

  lemma KeyAsKind(key: string, value: string, more: string)
    requires NUL !in key && NUL !in value
    ensures Records(key + [NUL] + (value + [NUL] + more)) == OfKind(ParseRecordKind(key), value, more)
  {
    var data := key + [NUL] + (value + [NUL] + more);
    TokenRead(key, value + [NUL] + more);
    TokenRead(value, more);
    RecordByTokens(data, Token(key, value + [NUL] + more), Token(value, more), FirstToken(more));
  }

  lemma OfKindAlike(kind: RecordKind, one: string, other: string, more: string, key: string)
    requires one != key && other != key
    ensures Alike(OfKind(kind, one, more), OfKind(kind, other, more), key)
  {}

  // After something left over the reader does not take the setting for one.
  lemma SettingMisread(left: string, key: string, one: string, other: string, more: string)
    requires left != "" && Ended(left) && FirstRecord(left).NoRecord?
    requires NUL !in key && Plain(one, key) && Plain(other, key)
    ensures Alike(Records(left + Setting(key, one, more)), Records(left + Setting(key, other, more)), key)
  {
    LeftoverReads(left, "set", key, one + [NUL] + more);
    LeftoverReads(left, "set", key, other + [NUL] + more);
    var first, second := Misread(left, "set", key, one + [NUL] + more), Misread(left, "set", key, other + [NUL] + more);
    if first.Parsed? {
      if first.rest == one + [NUL] + more && second.rest == other + [NUL] + more {
        PlainStops(one, key, more);
        PlainStops(other, key, more);
      } else {
        KeyMisread(key, one, other, more);
      }
      AlikeAfter(first.op, second.op, Records(first.rest), Records(second.rest), key);
    }
  }

  // What is found in such records, printed.
  lemma SettingFound(before: seq<Op>, key: string, value: string, after: seq<Op>)
    ensures Records(Print(before + [Set(key, value)] + after))
            == Records(Print(before)) + Records(Leftover(Print(before)) + Setting(key, value, Print(after)))
  {
    assert before + [Set(key, value)] + after == before + ([Set(key, value)] + after);
    PrintConcat(before, [Set(key, value)] + after);
    SettingPrinted(key, value, after);
    MoreText(Print(before), Setting(key, value, Print(after)));
  }

  lemma Regrouped<T>(a: seq<T>, b: seq<T>, c: seq<T>)
    ensures a + (b + c) == a + b + c
  {}

  lemma OpRead(before: seq<Op>, op: Op, after: seq<Op>)
    requires CleanOp(op) && ReadsWhole(Print(before))
    ensures Records(Print(before + [op] + after)) == Records(Print(before)) + [op] + Records(Print(after))
  {
    var found, behind := Records(Print(before)), Print(after);
    assert before + [op] + after == before + ([op] + after);
    PrintConcat(before, [op] + after);
    PrintFirst(op, after);
    RecordsClean(Print(before));
    ReadOn(found, Record(op) + behind);
    RecordsRead(op, behind);
    Regrouped(found, [op], Records(behind));
  }

  // The value that one variable has in the end.
  function Left(ops: seq<Op>, key: string, state: State, canAppend: bool): Option<string> {
    Variable(Interpret(Print(ops), state, canAppend).env, key)
  }

  // What the reader must do with the records around a setting.
  ghost predicate Reaches(before: seq<Op>, key: string, after: seq<Op>) {
    && key != "" && '=' !in key && NUL !in key
    && ReadsWhole(Print(before)) && Untouched(Records(Print(after)), key)
  }

  // An action that is reached decides.
  lemma OpArrives(before: seq<Op>, op: Op, key: string, after: seq<Op>, state: State, canAppend: bool)
    requires !op.Append? && op.key == key && CleanOp(op) && Reaches(before, key, after)
    ensures Left(before + [op] + after, key, state, canAppend) == if op.Set? then Some(op.value) else None
  {
    OpRead(before, op, after);
    InterpretIsRun(Print(before + [op] + after), state, canAppend);
    LastDecides(Records(Print(before)), op, Records(Print(after)), state, canAppend);
  }

  lemma LastDecides(before: seq<Op>, op: Op, after: seq<Op>, state: State, canAppend: bool)
    requires !op.Append? && ValidName(op.key) && Untouched(after, op.key)
    ensures Variable(Run(before + [op] + after, state, canAppend).env, op.key)
            == if op.Set? then Some(op.value) else None
  {
    LastActionWins(before + [op] + after, |before|, op.key, state, canAppend);
  }

  // Otherwise the variable is left the same whatever the setting says.
  lemma SettingIgnored(before: seq<Op>, key: string, one: string, other: string, after: seq<Op>, state: State,
                       canAppend: bool)
    requires !Reaches(before, key, after) && Plain(one, key) && Plain(other, key)
    ensures Left(before + [Set(key, one)] + after, key, state, canAppend)
            == Left(before + [Set(key, other)] + after, key, state, canAppend)
  {
    var first, second := Print(before + [Set(key, one)] + after), Print(before + [Set(key, other)] + after);
    InterpretIsRun(first, state, canAppend);
    InterpretIsRun(second, state, canAppend);
    if NUL in key || !ValidName(key) {
      NotTouchedByFound(first, key);
      NotTouchedByFound(second, key);
      UntouchedStays(Records(first), key, state, canAppend);
      UntouchedStays(Records(second), key, state, canAppend);
    } else if !ReadsWhole(Print(before)) {
      var left := Leftover(Print(before));
      TextIs(Print(before));
      PrintEnded(before);
      SettingFound(before, key, one, after);
      SettingFound(before, key, other, after);
      SettingMisread(left, key, one, other, Print(after));
      AlikeAppended(Records(Print(before)), Records(left + Setting(key, one, Print(after))),
                    Records(left + Setting(key, other, Print(after))), key);
      AlikeLeavesSame(Records(first), Records(second), key, state, canAppend);
    } else {
      OpRead(before, Set(key, one), after);
      OpRead(before, Set(key, other), after);
      LaterDecides(Records(Print(before)) + [Set(key, one)], Records(Print(before)) + [Set(key, other)],
                   Records(Print(after)), key, state, canAppend);
    }
  }

  lemma NotTouchedByFound(text: string, key: string)
    requires NUL in key || !ValidName(key)
    ensures Untouched(Records(text), key)
  {
    RecordsClean(text);
  }

  lemma {:induction false} LaterDecides(a: seq<Op>, b: seq<Op>, later: seq<Op>, key: string, state: State,
                                        canAppend: bool)
    requires !Untouched(later, key)
    ensures Variable(Run(a + later, state, canAppend).env, key) == Variable(Run(b + later, state, canAppend).env, key)
  {
    var i := LastTouching(later, key);
    LastActionWins(a + later, |a| + i, key, state, canAppend);
    LastActionWins(b + later, |b| + i, key, state, canAppend);
  }

  lemma {:induction false} LastTouching(ops: seq<Op>, key: string) returns (i: nat)
    requires !Untouched(ops, key)
    ensures i < |ops| && Touches(ops[i], key) && forall j | i < j < |ops| :: !Touches(ops[j], key)
  {
    i := |ops| - 1;
    if !Touches(ops[i], key) {
      i := LastTouching(ops[..i], key);
    }
  }

  // Some values that no record and no variable is named by: zeros, one more than the key is long.
  function Zeros(n: nat): (s: string)
    ensures |s| == n && AllDigits(s)
  {
    seq(n, i => '0')
  }

  lemma DigitsPlain(digits: string, key: string)
    requires digits != "" && AllDigits(digits) && digits != key
    ensures Plain(digits, key)
  {
    assert IsDigit(digits[0]);
  }

  // Between any records: every value of a setting arrives exactly when the reader reaches it
  // and finds nothing behind it that touches the variable.
  lemma SettingArrivesIff(before: seq<Op>, key: string, after: seq<Op>, state: State, canAppend: bool)
    ensures (forall value | NUL !in value ::
               Left(before + [Set(key, value)] + after, key, state, canAppend) == Some(value))
            <==> Reaches(before, key, after)
  {
    if Reaches(before, key, after) {
      forall value | NUL !in value
        ensures Left(before + [Set(key, value)] + after, key, state, canAppend) == Some(value)
      {
        OpArrives(before, Set(key, value), key, after, state, canAppend);
      }
    } else {
      var one, other := Zeros(|key| + 1), Zeros(|key| + 2);
      DigitsPlain(one, key);
      DigitsPlain(other, key);
      SettingIgnored(before, key, one, other, after, state, canAppend);
      assert NUL !in one && NUL !in other && one != other;
    }
  }

  // ----- The environment actions of a policy.

  function WithValue(policy: Policy, i: nat, value: string): Policy
    requires i < |policy.environment|
  {
    policy.(environment := policy.environment[i := policy.environment[i].(value := value)])
  }

  lemma {:induction false} EnvOpsWithValue(actions: seq<EnvAction>, i: nat, action: EnvAction, op: Op)
    requires i < |actions| && EnvOps(actions).Ok? && EnvOp(action) == Ok(op)
    ensures |EnvOps(actions).value| == |actions|
    ensures EnvOps(actions[i := action]) == Ok(EnvOps(actions).value[i := op])
  {
    var last := |actions| - 1;
    var front, final := actions[..last], actions[last];
    EnvOpIs(actions, i);
    EnvOpIs(front, 0);
    var before := EnvOps(front).value;
    FrontAndLast(actions);
    PutInside(front, final, i, action);
    PutInside(before, EnvOp(final).value, i, op);
    if i < last {
      EnvOpsWithValue(front, i, action, op);
      EnvOpsMore(front[i := action], final);
    } else {
      EnvOpsMore(front, action);
    }
  }

  lemma EnvOpsMore(actions: seq<EnvAction>, action: EnvAction)
    requires EnvOps(actions).Ok? && EnvOp(action).Ok?
    ensures EnvOps(actions + [action]) == Ok(EnvOps(actions).value + [EnvOp(action).value])
  {
    assert (actions + [action])[..|actions|] == actions;
  }

  lemma FrontAndLast<T>(s: seq<T>)
    requires s != []
    ensures s[..|s| - 1] + [s[|s| - 1]] == s
  {}

  lemma PutInside<T>(front: seq<T>, last: T, i: nat, x: T)
    requires i <= |front|
    ensures (front + [last])[i := x] == if i < |front| then front[i := x] + [last] else front + [x]
    ensures var put := (front + [last])[i := x]; put[..|front|] == if i < |front| then front[i := x] else front
  {}

  lemma {:induction false} NamesWithValue(actions: seq<EnvAction>, i: nat, action: EnvAction, key: string)
    requires i < |actions| && action.key == actions[i].key
    ensures Names(actions[i := action], key) == Names(actions, key)
  {
    var last := |actions| - 1;
    var front := actions[..last];
    FrontAndLast(actions);
    PutInside(front, actions[last], i, action);
    if i < last {
      NamesWithValue(front, i, action, key);
    }
  }

  lemma OpsWithValue(policy: Policy, i: nat, value: string)
    requires Ops(policy).Ok? && i < |policy.environment| && Word(policy.environment[i].action) == "set"
    ensures i < |Ops(policy).value|
    ensures Ops(WithValue(policy, i, value))
            == Ok(Ops(policy).value[..i] + [Set(Trim(policy.environment[i].key), value)] + Ops(policy).value[i + 1..])
  {
    var actions := policy.environment;
    var action := actions[i].(value := value);
    var env, op := EnvOps(actions).value, Set(Trim(actions[i].key), value);
    EnvOpIs(actions, i);
    EnvOpsWithValue(actions, i, action, op);
    NamesWithValue(actions, i, action, REDIRECT_PORT_KEY);
    var redirect := RedirectOps(policy.proxyPort, Names(actions, REDIRECT_PORT_KEY));
    PutInFront(env, redirect, ArgOps(policy.arguments).value, i, op);
  }

  lemma PutInFront<T>(a: seq<T>, b: seq<T>, c: seq<T>, i: nat, x: T)
    requires i < |a|
    ensures a[i := x] + b + c == (a + b + c)[..i] + [x] + (a + b + c)[i + 1..]
  {}

  // The reader reaches an action of the policy, and finds nothing behind it on its variable.
  ghost predicate ActionReached(policy: Policy, i: nat)
    requires Ops(policy).Ok? && i < |policy.environment|
  {
    var ops := Ops(policy).value;
    i < |ops| && Reaches(ops[..i], Trim(policy.environment[i].key), ops[i + 1..])
  }

  // From the policy's own fields: such an action decides its variable,
  lemma PolicyTakesEffect(policy: Policy, i: nat, state: State, canAppend: bool)
    requires Ops(policy).Ok? && i < |policy.environment|
    requires CleanAction(policy.environment[i]) && ActionReached(policy, i)
    ensures var action := policy.environment[i];
            Left(Ops(policy).value, Trim(action.key), state, canAppend)
            == if Word(action.action) == "set" then Some(action.value) else None
  {
    OpOfAction(policy, i);
    ReachedOpArrives(Ops(policy).value, i, Trim(policy.environment[i].key), state, canAppend);
  }

  lemma ReachedOpArrives(ops: seq<Op>, i: nat, key: string, state: State, canAppend: bool)
    requires i < |ops| && !ops[i].Append? && ops[i].key == key && CleanOp(ops[i])
    requires Reaches(ops[..i], key, ops[i + 1..])
    ensures Left(ops, key, state, canAppend) == if ops[i].Set? then Some(ops[i].value) else None
  {
    CutAround(ops, i);
    OpArrives(ops[..i], ops[i], key, ops[i + 1..], state, canAppend);
  }

  lemma CutAround<T>(s: seq<T>, i: nat)
    requires i < |s|
    ensures s[..i] + [s[i]] + s[i + 1..] == s
  {}

  lemma OpOfAction(policy: Policy, i: nat)
    requires Ops(policy).Ok? && i < |policy.environment|
    ensures i < |Ops(policy).value|
    ensures var op, action := Ops(policy).value[i], policy.environment[i];
            && !op.Append? && op.key == Trim(action.key) && (CleanOp(op) <==> CleanAction(action))
            && (op.Set? <==> Word(action.action) == "set") && (op.Set? ==> op.value == action.value)
  {
    EnvOpIs(policy.environment, i);
    EnvOpClean(policy.environment[i], EnvOps(policy.environment).value[i]);
  }

  // and every value of a set action arrives in its variable exactly when it is reached.
  lemma ActionArrivesIff(policy: Policy, i: nat, state: State, canAppend: bool)
    requires Ops(policy).Ok? && i < |policy.environment| && Word(policy.environment[i].action) == "set"
    ensures (forall value | NUL !in value ::
               var changed := Ops(WithValue(policy, i, value));
               changed.Ok? && Left(changed.value, Trim(policy.environment[i].key), state, canAppend) == Some(value))
            <==> ActionReached(policy, i)
  {
    EnvOpIs(policy.environment, i);
    var ops, key := Ops(policy).value, Trim(policy.environment[i].key);
    forall value: string
      ensures Ops(WithValue(policy, i, value)) == Ok(ops[..i] + [Set(key, value)] + ops[i + 1..])
    {
      OpsWithValue(policy, i, value);
    }
    SettingArrivesIff(ops[..i], key, ops[i + 1..], state, canAppend);
  }

  // In a policy without NUL every last action on a variable is reached.
  lemma CleanActionReached(policy: Policy, i: nat)
    requires CleanPolicy(policy) && Ops(policy).Ok? && i < |policy.environment|
    requires ValidName(Trim(policy.environment[i].key))
    requires forall k | i < k < |policy.environment| ::
               Trim(policy.environment[k].key) != Trim(policy.environment[i].key)
    ensures ActionReached(policy, i)
  {
    var ops, key := Ops(policy).value, Trim(policy.environment[i].key);
    OpsClean(policy);
    OpOfAction(policy, i);
    TrimClean(policy.environment[i].key);
    forall j | i < j < |ops| ensures !Touches(ops[j], key) {
      LaterOpsElse(policy, i, j);
    }
    CleanReaches(ops, i, key);
  }

  lemma CleanReaches(ops: seq<Op>, i: nat, key: string)
    requires i < |ops| && CleanOps(ops) && ValidName(key) && NUL !in key
    requires forall j | i < j < |ops| :: !Touches(ops[j], key)
    ensures Reaches(ops[..i], key, ops[i + 1..])
  {
    PrintedRecords(ops[..i]);
    PrintedRecords(ops[i + 1..]);
  }

  // ----- The redirect port.

  function WithPort(policy: Policy, port: int): Policy {
    policy.(proxyPort := port)
  }

  // The port that the injector reads after interpreting a policy.
  function PortReadBack(policy: Policy, state: State, canAppend: bool): nat
    requires Ops(policy).Ok?
  {
    ReadRedirectPort(Interpret(Print(Ops(policy).value), state, canAppend).env)
  }

  // The reader reaches the port's record, and finds nothing behind it on its variable.
  ghost predicate PortReached(policy: Policy)
    requires Ops(policy).Ok?
  {
    && ReadsWhole(Print(EnvOps(policy.environment).value))
    && Untouched(Records(Print(ArgOps(policy.arguments).value)), REDIRECT_PORT_KEY)
  }

  lemma ReachedIs(policy: Policy)
    requires Ops(policy).Ok?
    ensures PortReached(policy)
            <==> Reaches(EnvOps(policy.environment).value, REDIRECT_PORT_KEY, ArgOps(policy.arguments).value)
  {
    RedirectKeyClean();
  }

  lemma PortReadBackIs(policy: Policy, port: nat, state: State, canAppend: bool)
    requires Ops(policy).Ok? && !Names(policy.environment, REDIRECT_PORT_KEY) && port > 0
    ensures var env, args := EnvOps(policy.environment).value, ArgOps(policy.arguments).value;
            var left := Left(env + [Set(REDIRECT_PORT_KEY, Decimal(port))] + args, REDIRECT_PORT_KEY, state, canAppend);
            PortReadBack(WithPort(policy, port), state, canAppend) == if left.None? then 0 else PortOf(left.value)
  {}

  // For every encodable policy without an action on the redirect variable, NUL characters or
  // not: all ports arrive exactly when the port's record is reached; and otherwise all ports
  // read back the same.
  lemma RedirectPortArrivesIff(policy: Policy, state: State, canAppend: bool)
    requires Ops(policy).Ok? && !Names(policy.environment, REDIRECT_PORT_KEY)
    ensures (forall port | 1 <= port <= 65535 :: PortReadBack(WithPort(policy, port), state, canAppend) == port)
            <==> PortReached(policy)
    ensures !PortReached(policy) ==> forall port, other | port > 0 && other > 0 ::
              PortReadBack(WithPort(policy, port), state, canAppend)
              == PortReadBack(WithPort(policy, other), state, canAppend)
  {
    if PortReached(policy) {
      forall port | 1 <= port <= 65535 ensures PortReadBack(WithPort(policy, port), state, canAppend) == port {
        PortArrives(policy, port, state, canAppend);
      }
    } else {
      forall port, other | port > 0 && other > 0
        ensures PortReadBack(WithPort(policy, port), state, canAppend)
                == PortReadBack(WithPort(policy, other), state, canAppend)
      {
        PortIgnored(policy, port, other, state, canAppend);
      }
      assert PortReadBack(WithPort(policy, 1), state, canAppend) == PortReadBack(WithPort(policy, 2), state, canAppend);
    }
  }

  lemma PortArrives(policy: Policy, port: nat, state: State, canAppend: bool)
    requires Ops(policy).Ok? && !Names(policy.environment, REDIRECT_PORT_KEY) && port > 0 && PortReached(policy)
    ensures PortReadBack(WithPort(policy, port), state, canAppend) == if port <= 65535 then port else 0
  {
    var env, args := EnvOps(policy.environment).value, ArgOps(policy.arguments).value;
    PortReadBackIs(policy, port, state, canAppend);
    ReachedIs(policy);
    DecimalPlain(port);
    OpArrives(env, Set(REDIRECT_PORT_KEY, Decimal(port)), REDIRECT_PORT_KEY, args, state, canAppend);
    PortOfDecimal(port);
  }

  lemma PortIgnored(policy: Policy, port: nat, other: nat, state: State, canAppend: bool)
    requires Ops(policy).Ok? && !Names(policy.environment, REDIRECT_PORT_KEY) && port > 0 && other > 0
    requires !PortReached(policy)
    ensures PortReadBack(WithPort(policy, port), state, canAppend)
            == PortReadBack(WithPort(policy, other), state, canAppend)
  {
    var env, args := EnvOps(policy.environment).value, ArgOps(policy.arguments).value;
    PortReadBackIs(policy, port, state, canAppend);
    PortReadBackIs(policy, other, state, canAppend);
    ReachedIs(policy);
    DecimalPlain(port);
    DecimalPlain(other);
    SettingIgnored(env, REDIRECT_PORT_KEY, Decimal(port), Decimal(other), args, state, canAppend);
  }

  lemma DecimalPlain(n: nat)
    ensures Plain(Decimal(n), REDIRECT_PORT_KEY)
  {
    assert !IsDigit(REDIRECT_PORT_KEY[0]);
    DigitsPlain(Decimal(n), REDIRECT_PORT_KEY);
  }

  // What is read back in every case: the proxy port if it is one, 0 if it is too large for
  // one, and without a proxy port what would have been read back anyway.
  lemma RedirectPortArrives(policy: Policy, state: State, canAppend: bool)
    requires Ops(policy).Ok? && !Names(policy.environment, REDIRECT_PORT_KEY) && PortReached(policy)
    requires policy.proxyPort < 1 ==> Untouched(Records(Print(EnvOps(policy.environment).value)), REDIRECT_PORT_KEY)
    ensures PortReadBack(policy, state, canAppend)
            == if policy.proxyPort < 1 then ReadRedirectPort(state.env)
               else if policy.proxyPort <= 65535 then policy.proxyPort
               else 0
  {
    if policy.proxyPort < 1 {
      NoPortTouchesNothing(policy, state, canAppend);
    } else {
      PortArrives(policy, policy.proxyPort, state, canAppend);
      assert WithPort(policy, policy.proxyPort) == policy;
    }
  }

  lemma NoPortTouchesNothing(policy: Policy, state: State, canAppend: bool)
    requires Ops(policy).Ok? && policy.proxyPort < 1 && PortReached(policy)
    requires Untouched(Records(Print(EnvOps(policy.environment).value)), REDIRECT_PORT_KEY)
    ensures Left(Ops(policy).value, REDIRECT_PORT_KEY, state, canAppend) == Variable(state.env, REDIRECT_PORT_KEY)
  {
    var env, args := EnvOps(policy.environment).value, ArgOps(policy.arguments).value;
    NothingBetween(env, args);
    ReadTogether(env, args);
    UntouchedLeft(env + args, REDIRECT_PORT_KEY, state, canAppend);
  }

  lemma NothingBetween<T>(a: seq<T>, b: seq<T>)
    ensures a + [] + b == a + b
  {}

  lemma ReadTogether(before: seq<Op>, after: seq<Op>)
    requires ReadsWhole(Print(before))
    ensures Records(Print(before + after)) == Records(Print(before)) + Records(Print(after))
  {
    PrintConcat(before, after);
    RecordsClean(Print(before));
    ReadOn(Records(Print(before)), Print(after));
  }

  lemma UntouchedLeft(ops: seq<Op>, key: string, state: State, canAppend: bool)
    requires Untouched(Records(Print(ops)), key)
    ensures Left(ops, key, state, canAppend) == Variable(state.env, key)
  {
    InterpretIsRun(Print(ops), state, canAppend);
    UntouchedStays(Records(Print(ops)), key, state, canAppend);
  }

  // A policy without NUL meets the conditions.
  lemma CleanPortReached(policy: Policy)
    requires CleanPolicy(policy) && Ops(policy).Ok? && !Names(policy.environment, REDIRECT_PORT_KEY)
    ensures PortReached(policy) && Untouched(Records(Print(EnvOps(policy.environment).value)), REDIRECT_PORT_KEY)
  {
    var env, args := EnvOps(policy.environment).value, ArgOps(policy.arguments).value;
    EnvOpsClean(policy.environment);
    ArgOpsClean(policy.arguments);
    PrintedRecords(env);
    PrintedRecords(args);
    RedirectAlone(policy.environment, REDIRECT_PORT_KEY, env);
    ArgOpIs(policy.arguments, 0);
    forall i | 0 <= i < |args| ensures !Touches(args[i], REDIRECT_PORT_KEY) {
      ArgOpIs(policy.arguments, i);
    }
  }

  // ----- The arguments.

  function Front(environment: seq<EnvAction>, proxyPort: int): seq<Op>
    requires EnvOps(environment).Ok?
  {
    EnvOps(environment).value + RedirectOps(proxyPort, Names(environment, REDIRECT_PORT_KEY))
  }

  // The argument list after interpreting a policy where appending is allowed.
  function ArgumentsLeft(policy: Policy, state: State): seq<string>
    requires Ops(policy).Ok?
  {
    Interpret(Print(Ops(policy).value), state, true).argv
  }

  // Where it is not, the list stays.
  lemma ArgumentsStay(policy: Policy, state: State)
    requires Ops(policy).Ok?
    ensures Interpret(Print(Ops(policy).value), state, false).argv == state.argv
  {
    InterpretIsRun(Print(Ops(policy).value), state, false);
    ArgumentsAppended(Records(Print(Ops(policy).value)), state, false);
  }

  predicate Appendable(arguments: seq<ArgAction>) {
    ArgOps(arguments).Ok? && forall i | 0 <= i < |arguments| :: NUL !in arguments[i].value
  }

  lemma ArgumentsLeftAre(policy: Policy, state: State)
    requires Ops(policy).Ok?
    ensures var text := Print(Front(policy.environment, policy.proxyPort));
            ArgumentsLeft(policy, state)
            == state.argv + Appended(Records(text))
               + Appended(Records(Leftover(text) + Print(ArgOps(policy.arguments).value)))
  {
    var front, args := Front(policy.environment, policy.proxyPort), ArgOps(policy.arguments).value;
    var text := Print(front);
    PrintConcat(front, args);
    MoreText(text, Print(args));
    InterpretIsRun(text + Print(args), state, true);
    ArgumentsAppended(Records(text + Print(args)), state, true);
    AppendedConcat(Records(text), Records(Leftover(text) + Print(args)));
    Regrouped(state.argv, Appended(Records(text)), Appended(Records(Leftover(text) + Print(args))));
  }

  // All argument lists without NUL arrive, and nothing else, exactly when what is printed
  // before them is read whole and nothing found in it appends.
  lemma ArgumentsArriveIff(environment: seq<EnvAction>, proxyPort: int, state: State)
    requires EnvOps(environment).Ok?
    ensures var text := Print(Front(environment, proxyPort));
            (forall arguments | Appendable(arguments) ::
               ArgumentsLeft(Policy(environment, arguments, proxyPort), state) == state.argv + Values(arguments))
            <==> ReadsWhole(text) && Appended(Records(text)) == []
  {
    var text := Print(Front(environment, proxyPort));
    TextIs(text);
    if ReadsWhole(text) && Appended(Records(text)) == [] {
      forall arguments | Appendable(arguments)
        ensures ArgumentsLeft(Policy(environment, arguments, proxyPort), state) == state.argv + Values(arguments)
      {
        ArgumentsArrive(environment, arguments, proxyPort, state);
      }
    } else {
      var arguments := ArgumentsFail(environment, proxyPort, state);
      assert Appendable(arguments);
    }
  }

  lemma ArgumentsArrive(environment: seq<EnvAction>, arguments: seq<ArgAction>, proxyPort: int, state: State)
    requires EnvOps(environment).Ok? && Appendable(arguments)
    requires ReadsWhole(Print(Front(environment, proxyPort)))
    requires Appended(Records(Print(Front(environment, proxyPort)))) == []
    ensures ArgumentsLeft(Policy(environment, arguments, proxyPort), state) == state.argv + Values(arguments)
  {
    var text := Print(Front(environment, proxyPort));
    ArgumentsLeftAre(Policy(environment, arguments, proxyPort), state);
    TextIs(text);
    ArgumentsRead(Leftover(text), arguments);
    Added(state.argv, Appended(Records(text)), Values(arguments), Values(arguments));
  }

  lemma Added<T>(s: seq<T>, first: seq<T>, second: seq<T>, values: seq<T>)
    ensures first == [] ==> (s + first + second == s + values <==> second == values)
    ensures first != [] && values == [] ==> s + first + second != s + values
  {
    if first == [] {
      assert (s + first + second)[|s|..] == second && (s + values)[|s|..] == values;
    } else {
      assert |s + first + second| > |s|;
    }
  }

  // Before the arguments of a policy without NUL nothing is appended.
  lemma CleanFrontRead(policy: Policy)
    requires CleanPolicy(policy) && Ops(policy).Ok?
    ensures var text := Print(Front(policy.environment, policy.proxyPort));
            ReadsWhole(text) && Appended(Records(text)) == []
  {
    var env := EnvOps(policy.environment).value;
    var redirect := RedirectOps(policy.proxyPort, Names(policy.environment, REDIRECT_PORT_KEY));
    EnvOpsClean(policy.environment);
    RedirectClean(policy.proxyPort, Names(policy.environment, REDIRECT_PORT_KEY));
    PrintedRecords(env + redirect);
    EnvAppendsNothing(policy.environment);
    NoneAppended(env);
    NoneAppended(redirect);
    AppendedConcat(env, redirect);
  }

  lemma ArgumentsRead(left: string, arguments: seq<ArgAction>)
    requires left == "" && Appendable(arguments)
    ensures Appended(Records(left + Print(ArgOps(arguments).value))) == Values(arguments)
  {
    var args := ArgOps(arguments).value;
    assert left + Print(args) == Print(args);
    ArgOpsClean(arguments);
    PrintedRecords(args);
    AllAppended(arguments);
  }

  lemma ArgumentsFail(environment: seq<EnvAction>, proxyPort: int, state: State) returns (arguments: seq<ArgAction>)
    requires EnvOps(environment).Ok?
    requires var text := Print(Front(environment, proxyPort));
             Leftover(text) != "" || Appended(Records(text)) != []
    ensures Appendable(arguments)
    ensures ArgumentsLeft(Policy(environment, arguments, proxyPort), state) != state.argv + Values(arguments)
  {
    if Appended(Records(Print(Front(environment, proxyPort)))) != [] {
      arguments := [];
      NoneFails(environment, arguments, proxyPort, state);
    } else {
      arguments := [ArgAction("append", "x")];
      OneArgument();
      OneFails(environment, arguments, proxyPort, state);
    }
  }

  // Something else is appended,
  lemma NoneFails(environment: seq<EnvAction>, arguments: seq<ArgAction>, proxyPort: int, state: State)
    requires EnvOps(environment).Ok? && arguments == []
    requires Appended(Records(Print(Front(environment, proxyPort)))) != []
    ensures ArgumentsLeft(Policy(environment, arguments, proxyPort), state) != state.argv + Values(arguments)
  {
    var text := Print(Front(environment, proxyPort));
    ArgumentsLeftAre(Policy(environment, arguments, proxyPort), state);
    Added(state.argv, Appended(Records(text)),
          Appended(Records(Leftover(text) + Print(ArgOps(arguments).value))), Values(arguments));
  }

  // or the argument is not.
  lemma OneFails(environment: seq<EnvAction>, arguments: seq<ArgAction>, proxyPort: int, state: State)
    requires EnvOps(environment).Ok? && ArgOps(arguments).Ok? && Values(arguments) == ["x"]
    requires Print(ArgOps(arguments).value) == "append-argv" + [NUL] + ("x" + [NUL] + "")
    requires var text := Print(Front(environment, proxyPort));
             Leftover(text) != "" && Appended(Records(text)) == []
    ensures ArgumentsLeft(Policy(environment, arguments, proxyPort), state) != state.argv + Values(arguments)
  {
    var text := Print(Front(environment, proxyPort));
    TextIs(text);
    PrintEnded(Front(environment, proxyPort));
    ArgumentMisread(Leftover(text));
    ArgumentsLeftAre(Policy(environment, arguments, proxyPort), state);
    Added(state.argv, Appended(Records(text)),
          Appended(Records(Leftover(text) + Print(ArgOps(arguments).value))), Values(arguments));
  }

  lemma LowerFixes(s: string)
    requires forall i | 0 <= i < |s| :: 'a' <= s[i] <= 'z'
    ensures Lower(s) == s
  {}

  lemma OneArgument()
    ensures var one := [ArgAction("append", "x")];
            && Appendable(one) && Values(one) == ["x"]
            && Print(ArgOps(one).value) == "append-argv" + [NUL] + ("x" + [NUL] + "")
  {
    var one := [ArgAction("append", "x")];
    TrimFixes("append");
    LowerFixes("append");
    assert ArgOp(one[0]) == Ok(Append("x"));
    assert one[..0] == [] && [] + [Append("x")] == [Append("x")];
    OneField("x");
    assert [Append("x")][..0] == [] && ["append-argv", "x"][1..] == ["x"];
  }

  lemma ArgumentMisread(left: string)
    requires left != "" && Ended(left) && FirstRecord(left).NoRecord?
    ensures Appended(Records(left + ("append-argv" + [NUL] + ("x" + [NUL] + "")))) != ["x"]
  {
    LeftoverReads(left, "append-argv", "x", "");
    var parsed := Misread(left, "append-argv", "x", "");
    if parsed.Parsed? {
      if parsed.rest != "" {
        assert parsed.rest == "x" + [NUL] + "";
        UnknownKindStops("x", "");
      }
      AppendedOnce(parsed.op);
    }
  }

  lemma AppendedOnce(op: Op)
    ensures Appended([op]) == if op.Append? then [op.value] else []
  {
    assert [op][..0] == [];
  }
}
