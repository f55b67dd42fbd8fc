// The launch policy, written in Go (internal/devsign/devsign.go) and read in C
// (injector/clyde_inject.c): NUL-terminated tokens, a record for each action.

module InjectorPolicy {
  import opened Numbers
  import opened Text

  datatype EnvAction = EnvAction(action: string, key: string, value: string)
  datatype ArgAction = ArgAction(action: string, value: string)
  datatype Policy = Policy(environment: seq<EnvAction>, arguments: seq<ArgAction>, proxyPort: int)

  const REDIRECT_PORT_KEY := "DVC_CLYDE_REDIRECT_PORT"
  const NUL: char := '\0'

  datatype Error =
    | EmptyKey
    | UnsupportedEnvAction(action: string)
    | EmptyAppendValue
    | UnsupportedArgAction(action: string)

  // One record of the wire format.
  datatype Op = Set(key: string, value: string) | Unset(key: string) | Append(value: string)

  // strings.ToLower, as far as the action words can tell.
  function Lower(s: string): string {
    seq(|s|, i requires 0 <= i < |s| => if 'A' <= s[i] <= 'Z' then s[i] + 'a' - 'A' else s[i])
  }

  function Word(action: string): string {
    Lower(Trim(action))
  }

  function EnvOp(a: EnvAction): Result<Op, Error> {
    var word, key := Word(a.action), Trim(a.key);
    if word != "set" && word != "unset" then Err(UnsupportedEnvAction(a.action))
    else if key == "" then Err(EmptyKey)
    else if word == "set" then Ok(Set(key, a.value))
    else Ok(Unset(key))
  }

  function ArgOp(a: ArgAction): Result<Op, Error> {
    if Word(a.action) != "append" then Err(UnsupportedArgAction(a.action))
    else if a.value == "" then Err(EmptyAppendValue)
    else Ok(Append(a.value))
  }

  // The records of some actions, or the first reason there are none.
  function EnvOps(actions: seq<EnvAction>): Result<seq<Op>, Error> {
    if actions == [] then Ok([]) else
      var before, last := EnvOps(actions[..|actions| - 1]), EnvOp(actions[|actions| - 1]);
      if before.Err? then before else if last.Err? then Err(last.error) else Ok(before.value + [last.value])
  }

  function ArgOps(actions: seq<ArgAction>): Result<seq<Op>, Error> {
    if actions == [] then Ok([]) else
      var before, last := ArgOps(actions[..|actions| - 1]), ArgOp(actions[|actions| - 1]);
      if before.Err? then before else if last.Err? then Err(last.error) else Ok(before.value + [last.value])
  }

  predicate Names(actions: seq<EnvAction>, key: string) {
    actions != [] && (Trim(actions[|actions| - 1].key) == key || Names(actions[..|actions| - 1], key))
  }

  // The record that carries the proxy port, unless some action names its variable.
  function RedirectOps(proxyPort: int, named: bool): seq<Op> {
    if proxyPort > 0 && !named then [Set(REDIRECT_PORT_KEY, Decimal(proxyPort))] else []
  }

  // What a policy says, in order: environment actions, the proxy port, argument actions.
  function Ops(policy: Policy): Result<seq<Op>, Error> {
    var env := EnvOps(policy.environment);
    if env.Err? then env else
      var args := ArgOps(policy.arguments);
      if args.Err? then args else
        var named := Names(policy.environment, REDIRECT_PORT_KEY);
        Ok(env.value + RedirectOps(policy.proxyPort, named) + args.value)
  }

  function Fields(op: Op): seq<string> {
    match op
    case Set(key, value) => ["set", key, value]
    case Unset(key) => ["unset", key]
    case Append(value) => ["append-argv", value]
  }

  // writePolicyRecord.
  function Wire(values: seq<string>): string {
    if values == [] then "" else values[0] + [NUL] + Wire(values[1..])
  }

  function Record(op: Op): string {
    Wire(Fields(op))
  }

  function Print(ops: seq<Op>): string {
    if ops == [] then "" else Print(ops[..|ops| - 1]) + Record(ops[|ops| - 1])
  }

  // The text of some records after others, or the reason there are none.
  function Encoded(before: seq<Op>, ops: Result<seq<Op>, Error>): Result<string, Error> {
    if ops.Err? then Err(ops.error) else Ok(Print(before + ops.value))
  }

  // EncodeInjectorPolicy.
  method Encode(policy: Policy) returns (result: Result<string, Error>)
    ensures result == Encoded([], Ops(policy))
  {
    var environment, hasRedirectPortAction := EncodeEnvironment(policy.environment, REDIRECT_PORT_KEY);
    if environment.Err? {
      return Err(environment.error);
    }
    ghost var written := EnvOps(policy.environment).value;
    assert [] + written == written;
    var buffer := EncodeRedirect(policy.proxyPort, hasRedirectPortAction, written, environment.value);
    ghost var before := written + RedirectOps(policy.proxyPort, hasRedirectPortAction);
    result := EncodeArguments(policy.arguments, before, buffer);
    assert result.Ok? ==> [] + (before + ArgOps(policy.arguments).value) == before + ArgOps(policy.arguments).value;
  }

  method EncodeRedirect(proxyPort: int, named: bool, ghost before: seq<Op>, start: string) returns (buffer: string)
    requires start == Print(before)
    ensures buffer == Print(before + RedirectOps(proxyPort, named))
  {
    buffer := start;
    if proxyPort > 0 && !named {
      var op := Set(REDIRECT_PORT_KEY, Decimal(proxyPort));
      PrintAppend(before, op);
      buffer := buffer + Record(op);
    } else {
      assert before + [] == before;
    }
  }

  // Its loop over the environment actions.
  method EncodeEnvironment(environment: seq<EnvAction>, redirectKey: string)
      returns (result: Result<string, Error>, hasRedirectPortAction: bool)
    ensures result == Encoded([], EnvOps(environment))
    ensures result.Ok? ==> hasRedirectPortAction == Names(environment, redirectKey)
  {
    var buffer := "";
    hasRedirectPortAction := false;
    for i := 0 to |environment|
      invariant EnvOps(environment[..i]).Ok? && buffer == Print(EnvOps(environment[..i]).value)
      invariant hasRedirectPortAction == Names(environment[..i], redirectKey)
    {
      EnvStep(environment, i);
      NamesStep(environment, redirectKey, i);
      var op := EnvOp(environment[i]);
      if op.Err? {
        return Err(op.error), hasRedirectPortAction;
      }
      if Trim(environment[i].key) == redirectKey {
        hasRedirectPortAction := true;
      }
      buffer := buffer + Record(op.value);
    }
    assert environment[..|environment|] == environment;
    assert [] + EnvOps(environment).value == EnvOps(environment).value;
    return Ok(buffer), hasRedirectPortAction;
  }

  // Its loop over the argument actions.
  method EncodeArguments(arguments: seq<ArgAction>, ghost before: seq<Op>, start: string)
      returns (result: Result<string, Error>)
    requires start == Print(before)
    ensures result == Encoded(before, ArgOps(arguments))
  {
    var buffer := start;
    assert before + [] == before;
    for i := 0 to |arguments|
      invariant ArgOps(arguments[..i]).Ok? && buffer == Print(before + ArgOps(arguments[..i]).value)
    {
      ArgStep(arguments, i, before);
      var op := ArgOp(arguments[i]);
      if op.Err? {
        return Err(op.error);
      }
      buffer := buffer + Record(op.value);
    }
    assert arguments[..|arguments|] == arguments;
    return Ok(buffer);
  }

  lemma PrintAppend(ops: seq<Op>, op: Op)
    ensures Print(ops + [op]) == Print(ops) + Record(op)
  {
    assert (ops + [op])[..|ops|] == ops;
  }

  lemma PrintAfter(before: seq<Op>, ops: seq<Op>, op: Op)
    ensures Print(before + (ops + [op])) == Print(before + ops) + Record(op)
  {
    assert before + (ops + [op]) == before + ops + [op];
    PrintAppend(before + ops, op);
  }

  // One more action.
  lemma EnvStep(actions: seq<EnvAction>, i: nat)
    requires i < |actions| && EnvOps(actions[..i]).Ok?
    ensures var op := EnvOp(actions[i]);
            if op.Err? then EnvOps(actions) == Err(op.error)
            else
              && EnvOps(actions[..i + 1]) == Ok(EnvOps(actions[..i]).value + [op.value])
              && Print(EnvOps(actions[..i + 1]).value) == Print(EnvOps(actions[..i]).value) + Record(op.value)
  {
    assert actions[..i + 1][..i] == actions[..i];
    var op := EnvOp(actions[i]);
    if op.Err? {
      EnvErrorStays(actions, i + 1);
    } else {
      PrintAppend(EnvOps(actions[..i]).value, op.value);
    }
  }

  lemma NamesStep(actions: seq<EnvAction>, key: string, i: nat)
    requires i < |actions|
    ensures Names(actions[..i + 1], key) <==> Names(actions[..i], key) || Trim(actions[i].key) == key
  {
    assert actions[..i + 1][..i] == actions[..i];
  }

  lemma ArgStep(actions: seq<ArgAction>, i: nat, before: seq<Op>)
    requires i < |actions| && ArgOps(actions[..i]).Ok?
    ensures var op := ArgOp(actions[i]);
            if op.Err? then ArgOps(actions) == Err(op.error)
            else
              && ArgOps(actions[..i + 1]) == Ok(ArgOps(actions[..i]).value + [op.value])
              && Print(before + ArgOps(actions[..i + 1]).value) == Print(before + ArgOps(actions[..i]).value)
                  + Record(op.value)
  {
    assert actions[..i + 1][..i] == actions[..i];
    var op := ArgOp(actions[i]);
    if op.Err? {
      ArgErrorStays(actions, i + 1);
    } else {
      PrintAfter(before, ArgOps(actions[..i]).value, op.value);
    }
  }

  lemma {:induction false} EnvErrorStays(actions: seq<EnvAction>, n: nat)
    requires n <= |actions| && EnvOps(actions[..n]).Err?
    ensures EnvOps(actions) == EnvOps(actions[..n])
    decreases |actions|
  {
    if n < |actions| {
      var shorter := actions[..|actions| - 1];
      assert shorter[..n] == actions[..n];
      EnvErrorStays(shorter, n);
    } else {
      assert actions[..n] == actions;
    }
  }

  lemma {:induction false} ArgErrorStays(actions: seq<ArgAction>, n: nat)
    requires n <= |actions| && ArgOps(actions[..n]).Err?
    ensures ArgOps(actions) == ArgOps(actions[..n])
    decreases |actions|
  {
    if n < |actions| {
      var shorter := actions[..|actions| - 1];
      assert shorter[..n] == actions[..n];
      ArgErrorStays(shorter, n);
    } else {
      assert actions[..n] == actions;
    }
  }

  // What a launched process has of the policy's concern.
  datatype State = State(env: map<string, string>, argv: seq<string>)

  // setenv and unsetenv refuse a name that is empty or contains '='.
  predicate ValidName(key: string) {
    key != "" && '=' !in key
  }

  function Act(op: Op, state: State, canAppend: bool): State {
    match op
    case Set(key, value) => if ValidName(key) then state.(env := state.env[key := value]) else state
    case Unset(key) => if ValidName(key) then state.(env := state.env - {key}) else state
    case Append(value) => if canAppend then state.(argv := state.argv + [value]) else state
  }

  // Carrying the actions out directly, in order.
  function Run(ops: seq<Op>, state: State, canAppend: bool): State {
    if ops == [] then state else Act(ops[|ops| - 1], Run(ops[..|ops| - 1], state, canAppend), canAppend)
  }

  // The first NUL-terminated token of some data, if any, and the data after it.
  datatype Token = NoToken | Token(text: string, rest: string)

  function FirstToken(data: string): (token: Token)
    ensures token.Token? ==> |token.rest| < |data|
  {
    if data == "" then NoToken
    else if data[0] == NUL then Token("", data[1..])
    else
      var next := FirstToken(data[1..]);
      if next.NoToken? then NoToken else Token([data[0]] + next.text, next.rest)
  }

  datatype RecordKind = Unknown | SetRecord | UnsetRecord | AppendRecord

  // parse_record_kind.
  function ParseRecordKind(value: string): RecordKind {
    if value == "set" then SetRecord
    else if value == "unset" then UnsetRecord
    else if value == "append-argv" then AppendRecord
    else Unknown
  }

  // Reading one record; NoRecord where the reader stops.
  datatype Parsed = NoRecord | Parsed(op: Op, rest: string)

  function FirstRecord(data: string): (parsed: Parsed)
    ensures parsed.Parsed? ==> |parsed.rest| < |data|
  {
    var kind := FirstToken(data);
    if kind.NoToken? then NoRecord else
      var first := FirstToken(kind.rest);
      if first.NoToken? then NoRecord else
        match ParseRecordKind(kind.text)
        case Unknown => NoRecord
        case UnsetRecord => Parsed(Unset(first.text), first.rest)
        case AppendRecord => Parsed(Append(first.text), first.rest)
        case SetRecord =>
          var second := FirstToken(first.rest);
          if second.NoToken? then NoRecord else Parsed(Set(first.text, second.text), second.rest)
  }

  // What interpreting some data does.
  function Interpret(data: string, state: State, canAppend: bool): State
    decreases |data|
  {
    var parsed := FirstRecord(data);
    if parsed.NoRecord? then state else Interpret(parsed.rest, Act(parsed.op, state, canAppend), canAppend)
  }

  // The reader of the C injector: an offset into the policy.
  class TokenReader {
    const data: string
    var offset: nat

    ghost predicate Valid()
      reads this
    {
      offset <= |data|
    }

    ghost function Rest(): string
      reads this
      requires Valid()
    {
      data[offset..]
    }

    constructor (data: string)
      ensures Valid() && this.data == data && Rest() == data
    {
      this.data := data;
      offset := 0;
    }

    // next_token.
    method NextToken() returns (token: Option<string>)
      requires Valid()
      modifies this
      ensures Valid()
      ensures match FirstToken(old(Rest()))
              case NoToken => token == None && Rest() == ""
              case Token(text, rest) => token == Some(text) && Rest() == rest
    {
      if offset >= |data| {
        return None;
      }
      var end := Find(data, [NUL], offset);
      FindsToken(data, offset);
      if end > |data| {
        offset := |data|;
        return None;
      }
      token := Some(data[offset..end]);
      offset := end + 1;
    }
  }

  // memchr finds the end of the first token.
  lemma {:induction false} FindsToken(data: string, offset: nat)
    requires offset <= |data|
    ensures var end := Find(data, [NUL], offset);
            FirstToken(data[offset..]) == if end > |data| then NoToken else Token(data[offset..end], data[end + 1..])
    decreases |data| - offset
  {
    if offset < |data| {
      var rest := data[offset..];
      assert rest[0] == data[offset] && rest[1..] == data[offset + 1..];
      assert OccursAt(data, [NUL], offset) <==> data[offset] == NUL by {
        assert data[offset..offset + 1] == [data[offset]];
      }
      FindsToken(data, offset + 1);
      var end := Find(data, [NUL], offset);
      if data[offset] != NUL && end <= |data| {
        assert [data[offset]] + data[offset + 1..end] == data[offset..end];
      }
    }
  }

  class Process {
    var env: map<string, string>
    var argv: seq<string>

    ghost function Now(): State
      reads this
    {
      State(env, argv)
    }

    // append_argv_value.
    method AppendArgv(value: string)
      modifies this`argv
      ensures argv == old(argv) + [value]
    {
      argv := argv + [value];
    }

    method Setenv(key: string, value: string)
      modifies this`env
      ensures env == if ValidName(key) then old(env)[key := value] else old(env)
    {
      if ValidName(key) {
        env := env[key := value];
      }
    }

    method Unsetenv(key: string)
      modifies this`env
      ensures env == if ValidName(key) then old(env) - {key} else old(env)
    {
      if ValidName(key) {
        env := env - {key};
      }
    }

    // apply_policy, once the policy has been read; can_append is settled before.
    method ApplyPolicy(data: string, canAppend: bool)
      modifies this
      ensures Now() == Interpret(data, old(Now()), canAppend)
    {
      var reader := new TokenReader(data);
      var more := true;
      while more
        invariant reader.Valid() && fresh(reader)
        invariant (if more then Interpret(reader.Rest(), Now(), canAppend) else Now())
                  == Interpret(data, old(Now()), canAppend)
        decreases more, |reader.Rest()|
      {
        more := ApplyRecord(reader, canAppend);
      }
    }

    // Its loop body: one record, or false where it stops.
    method ApplyRecord(reader: TokenReader, canAppend: bool) returns (more: bool)
      requires reader.Valid()
      modifies this, reader
      ensures reader.Valid()
      ensures match FirstRecord(old(reader.Rest()))
              case NoRecord => !more && Now() == old(Now())
              case Parsed(op, rest) => more && reader.Rest() == rest && Now() == Act(op, old(Now()), canAppend)
    {
      var kind := reader.NextToken();
      if kind.None? {
        return false;
      }
      match ParseRecordKind(kind.value)
      case SetRecord =>
        var key := reader.NextToken();
        var value := reader.NextToken();
        if key.None? || value.None? {
          return false;
        }
        Setenv(key.value, value.value);
        return true;
      case UnsetRecord =>
        var key := reader.NextToken();
        if key.None? {
          return false;
        }
        Unsetenv(key.value);
        return true;
      case AppendRecord =>
        var value := reader.NextToken();
        if value.None? {
          return false;
        }
        if canAppend {
          AppendArgv(value.value);
        }
        return true;
      case Unknown =>
        return false;
    }
  }
}
