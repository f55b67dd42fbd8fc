// What a launch policy does to the process that interprets it, and the redirect port the
// injector then reads (injector/clyde_inject.c).

module PolicyEffects {
  import opened Numbers
  import opened Text
  import opened InjectorPolicy
  import opened PolicyRoundTrip

  // A policy that NUL-terminated strings can carry: no NUL in a key or in a value that is written.
  predicate CleanAction(action: EnvAction) {
    NUL !in action.key && (Word(action.action) == "set" ==> NUL !in action.value)
  }

  ghost predicate CleanPolicy(policy: Policy) {
    && (forall i | 0 <= i < |policy.environment| :: CleanAction(policy.environment[i]))
    && (forall i | 0 <= i < |policy.arguments| :: NUL !in policy.arguments[i].value)
  }

  // The environment records are those of the actions, one each.
  lemma {:induction false} EnvOpIs(actions: seq<EnvAction>, i: nat)
    requires EnvOps(actions).Ok?
    ensures |EnvOps(actions).value| == |actions|
    ensures i < |actions| ==> EnvOp(actions[i]) == Ok(EnvOps(actions).value[i])
  {
    if actions != [] {
      var shorter := actions[..|actions| - 1];
      EnvOpIs(shorter, i);
      assert i < |shorter| ==> shorter[i] == actions[i];
    }
  }

  lemma {:induction false} ArgOpIs(actions: seq<ArgAction>, i: nat)
    requires ArgOps(actions).Ok?
    ensures |ArgOps(actions).value| == |actions|
    ensures i < |actions| ==> ArgOps(actions).value[i] == Append(actions[i].value)
  {
    if actions != [] {
      var shorter := actions[..|actions| - 1];
      ArgOpIs(shorter, i);
      assert i < |shorter| ==> shorter[i] == actions[i];
    }
  }

  // A text spells a word when each of its letters is the word's, in either case.
  predicate Spells(text: string, word: string, upper: string)
    requires |word| == |upper|
  {
    |text| == |word| && forall i | 0 <= i < |text| :: text[i] == word[i] || text[i] == upper[i]
  }

  lemma LowerSpells(s: string, word: string, upper: string)
    requires |word| == |upper|
    requires forall i | 0 <= i < |word| :: 'a' <= word[i] <= 'z' && upper[i] == word[i] - 'a' + 'A'
    ensures Lower(s) == word <==> Spells(s, word, upper)
  {
    var lower := Lower(s);
    if lower == word {
      assert forall i | 0 <= i < |s| :: lower[i] == word[i];
    }
  }

  predicate EncodableEnv(action: EnvAction) {
    && (Spells(Trim(action.action), "set", "SET") || Spells(Trim(action.action), "unset", "UNSET"))
    && Trim(action.key) != ""
  }

  predicate EncodableArg(action: ArgAction) {
    Spells(Trim(action.action), "append", "APPEND") && action.value != ""
  }

  lemma WordsAreSpelled(action: string)
    ensures Word(action) == "set" <==> Spells(Trim(action), "set", "SET")
    ensures Word(action) == "unset" <==> Spells(Trim(action), "unset", "UNSET")
    ensures Word(action) == "append" <==> Spells(Trim(action), "append", "APPEND")
  {
    LowerSpells(Trim(action), "set", "SET");
    LowerSpells(Trim(action), "unset", "UNSET");
    LowerSpells(Trim(action), "append", "APPEND");
  }

  lemma {:induction false} EnvOpsIff(actions: seq<EnvAction>)
    ensures EnvOps(actions).Ok? <==> forall i | 0 <= i < |actions| :: EnvOp(actions[i]).Ok?
  {
    if actions != [] {
      var front := actions[..|actions| - 1];
      EnvOpsIff(front);
      assert forall i | 0 <= i < |front| :: front[i] == actions[i];
    }
  }

  lemma {:induction false} ArgOpsIff(actions: seq<ArgAction>)
    ensures ArgOps(actions).Ok? <==> forall i | 0 <= i < |actions| :: ArgOp(actions[i]).Ok?
  {
    if actions != [] {
      var front := actions[..|actions| - 1];
      ArgOpsIff(front);
      assert forall i | 0 <= i < |front| :: front[i] == actions[i];
    }
  }

  lemma EnvEncodable(action: EnvAction)
    ensures EnvOp(action).Ok? <==> EncodableEnv(action)
  {
    WordsAreSpelled(action.action);
  }

  lemma ArgEncodable(action: ArgAction)
    ensures ArgOp(action).Ok? <==> EncodableArg(action)
  {
    WordsAreSpelled(action.action);
  }

  // A policy is encoded exactly when every action is known and has what it needs.
  lemma EncodableIff(policy: Policy)
    ensures Ops(policy).Ok?
            <==> (forall i | 0 <= i < |policy.environment| :: EncodableEnv(policy.environment[i]))
                 && forall i | 0 <= i < |policy.arguments| :: EncodableArg(policy.arguments[i])
  {
    EnvOpsIff(policy.environment);
    ArgOpsIff(policy.arguments);
    forall i | 0 <= i < |policy.environment|
      ensures EnvOp(policy.environment[i]).Ok? <==> EncodableEnv(policy.environment[i])
    {
      EnvEncodable(policy.environment[i]);
    }
    forall i | 0 <= i < |policy.arguments|
      ensures ArgOp(policy.arguments[i]).Ok? <==> EncodableArg(policy.arguments[i])
    {
      ArgEncodable(policy.arguments[i]);
    }
  }

  // What is reported of an action.
  predicate EnvErrorIs(action: EnvAction, error: Error) {
    if Spells(Trim(action.action), "set", "SET") || Spells(Trim(action.action), "unset", "UNSET")
    then Trim(action.key) == "" && error == EmptyKey
    else error == UnsupportedEnvAction(action.action)
  }

  predicate ArgErrorIs(action: ArgAction, error: Error) {
    if Spells(Trim(action.action), "append", "APPEND") then action.value == "" && error == EmptyAppendValue
    else error == UnsupportedArgAction(action.action)
  }

  ghost predicate FirstEnvError(actions: seq<EnvAction>, error: Error) {
    exists i | 0 <= i < |actions| :: EnvErrorIs(actions[i], error) && forall k | 0 <= k < i :: EncodableEnv(actions[k])
  }

  ghost predicate FirstArgError(actions: seq<ArgAction>, error: Error) {
    exists i | 0 <= i < |actions| :: ArgErrorIs(actions[i], error) && forall k | 0 <= k < i :: EncodableArg(actions[k])
  }

  // A policy that is not encoded is refused for its first bad action, the environment first.
  lemma RefusedForFirst(policy: Policy, error: Error)
    requires Ops(policy) == Err(error)
    ensures FirstEnvError(policy.environment, error)
            || ((forall i | 0 <= i < |policy.environment| :: EncodableEnv(policy.environment[i]))
                && FirstArgError(policy.arguments, error))
  {
    if EnvOps(policy.environment).Err? {
      EnvRefused(policy.environment, error);
    } else {
      AllEnvEncodable(policy.environment);
      ArgRefused(policy.arguments, error);
    }
  }

  lemma AllEnvEncodable(actions: seq<EnvAction>)
    requires EnvOps(actions).Ok?
    ensures forall i | 0 <= i < |actions| :: EncodableEnv(actions[i])
  {
    EnvOpsIff(actions);
    forall i | 0 <= i < |actions| ensures EncodableEnv(actions[i]) {
      EnvEncodable(actions[i]);
    }
  }

  lemma AllArgEncodable(actions: seq<ArgAction>)
    requires ArgOps(actions).Ok?
    ensures forall i | 0 <= i < |actions| :: EncodableArg(actions[i])
  {
    ArgOpsIff(actions);
    forall i | 0 <= i < |actions| ensures EncodableArg(actions[i]) {
      ArgEncodable(actions[i]);
    }
  }

  lemma OneEnvRefused(action: EnvAction, error: Error)
    requires EnvOp(action) == Err(error)
    ensures EnvErrorIs(action, error)
  {
    WordsAreSpelled(action.action);
  }

  lemma OneArgRefused(action: ArgAction, error: Error)
    requires ArgOp(action) == Err(error)
    ensures ArgErrorIs(action, error)
  {
    WordsAreSpelled(action.action);
  }

  lemma {:induction false} EnvRefused(actions: seq<EnvAction>, error: Error)
    requires EnvOps(actions) == Err(error)
    ensures FirstEnvError(actions, error)
  {
    var n := |actions| - 1;
    var front := actions[..n];
    if EnvOps(front).Err? {
      EnvRefused(front, error);
      var i :| 0 <= i < n && EnvErrorIs(front[i], error) && forall k | 0 <= k < i :: EncodableEnv(front[k]);
      assert front[i] == actions[i] && forall k | 0 <= k < i :: front[k] == actions[k];
    } else {
      AllEnvEncodable(front);
      OneEnvRefused(actions[n], error);
      assert forall k | 0 <= k < n :: front[k] == actions[k];
    }
  }

  lemma {:induction false} ArgRefused(actions: seq<ArgAction>, error: Error)
    requires ArgOps(actions) == Err(error)
    ensures FirstArgError(actions, error)
  {
    var n := |actions| - 1;
    var front := actions[..n];
    if ArgOps(front).Err? {
      ArgRefused(front, error);
      var i :| 0 <= i < n && ArgErrorIs(front[i], error) && forall k | 0 <= k < i :: EncodableArg(front[k]);
      assert front[i] == actions[i] && forall k | 0 <= k < i :: front[k] == actions[k];
    } else {
      AllArgEncodable(front);
      OneArgRefused(actions[n], error);
      assert forall k | 0 <= k < n :: front[k] == actions[k];
    }
  }

  // Trimming takes no NUL away.
  lemma TrimClean(s: string)
    ensures NUL in Trim(s) <==> NUL in s
  {
    var left := TrimLeft(s);
    var trimmed := TrimRight(left);
    TrimLeftIs(s);
    TrimRightIs(left);
    forall i | 0 <= i < |trimmed| ensures trimmed[i] in s {
      assert trimmed[i] == left[i] == s[|s| - |left| + i];
    }
    if NUL in s {
      var i :| 0 <= i < |s| && s[i] == NUL;
      assert !IsSpace(NUL);
      assert i >= |s| - |left| && s[i] == left[i - (|s| - |left|)];
      assert i - (|s| - |left|) < |trimmed|;
    }
  }

  lemma EnvOpClean(action: EnvAction, op: Op)
    requires EnvOp(action) == Ok(op)
    ensures CleanOp(op) <==> CleanAction(action)
  {
    TrimClean(action.key);
  }

  lemma RedirectClean(proxyPort: int, named: bool)
    ensures CleanOps(RedirectOps(proxyPort, named))
  {
    RedirectKeyClean();
  }

  lemma RedirectKeyClean()
    ensures NUL !in REDIRECT_PORT_KEY && ValidName(REDIRECT_PORT_KEY)
  {}

  lemma EnvOpsClean(actions: seq<EnvAction>)
    requires EnvOps(actions).Ok?
    ensures CleanOps(EnvOps(actions).value) <==> forall i | 0 <= i < |actions| :: CleanAction(actions[i])
  {
    var ops := EnvOps(actions).value;
    EnvOpIs(actions, 0);
    forall i | 0 <= i < |ops| ensures CleanOp(ops[i]) <==> CleanAction(actions[i]) {
      EnvOpIs(actions, i);
      EnvOpClean(actions[i], ops[i]);
    }
  }

  lemma ArgOpsClean(actions: seq<ArgAction>)
    requires ArgOps(actions).Ok?
    ensures CleanOps(ArgOps(actions).value) <==> forall i | 0 <= i < |actions| :: NUL !in actions[i].value
  {
    var ops := ArgOps(actions).value;
    ArgOpIs(actions, 0);
    forall i | 0 <= i < |ops| ensures CleanOp(ops[i]) <==> NUL !in actions[i].value {
      ArgOpIs(actions, i);
    }
  }

  lemma CleanConcat(a: seq<Op>, b: seq<Op>, c: seq<Op>)
    requires CleanOps(b)
    ensures CleanOps(a + b + c) <==> CleanOps(a) && CleanOps(c)
  {
    var all := a + b + c;
    if CleanOps(all) {
      forall i | 0 <= i < |a| ensures CleanOp(a[i]) {
        assert all[i] == a[i];
      }
      forall i | 0 <= i < |c| ensures CleanOp(c[i]) {
        assert all[|a| + |b| + i] == c[i];
      }
    }
  }

  lemma OpsClean(policy: Policy)
    requires Ops(policy).Ok?
    ensures CleanOps(Ops(policy).value) <==> CleanPolicy(policy)
  {
    var named := Names(policy.environment, REDIRECT_PORT_KEY);
    EnvOpsClean(policy.environment);
    ArgOpsClean(policy.arguments);
    RedirectClean(policy.proxyPort, named);
    CleanConcat(EnvOps(policy.environment).value, RedirectOps(policy.proxyPort, named), ArgOps(policy.arguments).value);
  }

  // The encoded policy, whole or truncated, against its actions: a truncation always carries
  // out a prefix of the records found in the whole; these are the policy's own exactly when it
  // is clean; and then the prefix is the records that are whole.
  lemma EncodedPolicyRuns(policy: Policy, n: nat, state: State, canAppend: bool)
    requires Ops(policy).Ok? && n <= |Print(Ops(policy).value)|
    ensures var ops := Ops(policy).value;
            var text := Print(ops);
            && Interpret(text[..n], state, canAppend) == Run(Records(text[..n]), state, canAppend)
            && Records(text[..n]) <= Records(text)
            && (Records(text) == ops <==> CleanPolicy(policy))
            && (CleanPolicy(policy) ==>
                  && Interpret(text, state, canAppend) == Run(ops, state, canAppend)
                  && Interpret(text[..n], state, canAppend) == Run(ops[..Whole(ops, n)], state, canAppend))
  {
    var ops := Ops(policy).value;
    var text := Print(ops);
    OpsClean(policy);
    InterpretIsRun(text[..n], state, canAppend);
    RecordsOfPrefix(text[..n], text);
    PrintedRecordsIff(ops);
    if CleanPolicy(policy) {
      InterpretIsRun(text, state, canAppend);
      TruncatedPolicy(ops, n, state, canAppend);
    }
  }

  predicate Touches(op: Op, key: string) {
    !op.Append? && op.key == key && ValidName(key)
  }

  // What one variable is, if anything.
  function Variable(env: map<string, string>, key: string): Option<string> {
    if key in env then Some(env[key]) else None
  }

  // The last action on a variable decides it,
  lemma {:induction false} LastActionWins(ops: seq<Op>, i: nat, key: string, state: State, canAppend: bool)
    requires i < |ops| && Touches(ops[i], key) && forall j | i < j < |ops| :: !Touches(ops[j], key)
    ensures Variable(Run(ops, state, canAppend).env, key) == if ops[i].Set? then Some(ops[i].value) else None
  {
    if i < |ops| - 1 {
      LastActionWins(ops[..|ops| - 1], i, key, state, canAppend);
    }
  }

  // and without one it stays.
  lemma {:induction false} UntouchedStays(ops: seq<Op>, key: string, state: State, canAppend: bool)
    requires forall i | 0 <= i < |ops| :: !Touches(ops[i], key)
    ensures Variable(Run(ops, state, canAppend).env, key) == Variable(state.env, key)
  {
    if ops != [] {
      UntouchedStays(ops[..|ops| - 1], key, state, canAppend);
    }
  }

  // The arguments are those there were and the appended ones, if appending is allowed.
  lemma {:induction false} ArgumentsAppended(ops: seq<Op>, state: State, canAppend: bool)
    ensures Run(ops, state, canAppend).argv == state.argv + if canAppend then Appended(ops) else []
  {
    if ops != [] {
      ArgumentsAppended(ops[..|ops| - 1], state, canAppend);
    }
  }

  function Appended(ops: seq<Op>): seq<string> {
    if ops == [] then [] else
      Appended(ops[..|ops| - 1]) + if ops[|ops| - 1].Append? then [ops[|ops| - 1].value] else []
  }

  // What is true of the whole list of records from some action on.
  lemma LaterOpsElse(policy: Policy, i: nat, j: nat)
    requires Ops(policy).Ok? && i < |policy.environment|
    requires forall k | i < k < |policy.environment| ::
             Trim(policy.environment[k].key) != Trim(policy.environment[i].key)
    requires i < j < |Ops(policy).value|
    ensures !Touches(Ops(policy).value[j], Trim(policy.environment[i].key))
  {
    var env, args := EnvOps(policy.environment).value, ArgOps(policy.arguments).value;
    var redirect := RedirectOps(policy.proxyPort, Names(policy.environment, REDIRECT_PORT_KEY));
    var ops := Ops(policy).value;
    EnvOpIs(policy.environment, j);
    if j < |env| {
      assert ops[j] == env[j];
    } else if j < |env| + |redirect| {
      assert ops[j] == redirect[0];
      NamedBy(policy.environment, i);
    } else {
      assert ops[j] == args[j - |env| - |redirect|];
      ArgOpIs(policy.arguments, j - |env| - |redirect|);
    }
  }

  lemma {:induction false} NamedBy(actions: seq<EnvAction>, i: nat)
    requires i < |actions|
    ensures Names(actions, Trim(actions[i].key))
  {
    if i < |actions| - 1 {
      NamedBy(actions[..|actions| - 1], i);
    }
  }

  lemma {:induction false} AppendedConcat(a: seq<Op>, b: seq<Op>)
    ensures Appended(a + b) == Appended(a) + Appended(b)
  {
    if b == [] {
      assert a + b == a;
    } else {
      assert (a + b)[..|a + b| - 1] == a + b[..|b| - 1];
      AppendedConcat(a, b[..|b| - 1]);
    }
  }

  lemma {:induction false} NoneAppended(ops: seq<Op>)
    requires forall i | 0 <= i < |ops| :: !ops[i].Append?
    ensures Appended(ops) == []
  {
    if ops != [] {
      NoneAppended(ops[..|ops| - 1]);
    }
  }

  function Values(actions: seq<ArgAction>): seq<string> {
    if actions == [] then [] else Values(actions[..|actions| - 1]) + [actions[|actions| - 1].value]
  }

  lemma {:induction false} AllAppended(actions: seq<ArgAction>)
    requires ArgOps(actions).Ok?
    ensures Appended(ArgOps(actions).value) == Values(actions)
  {
    if actions != [] {
      var front, last := actions[..|actions| - 1], Append(actions[|actions| - 1].value);
      AllAppended(front);
      var before := ArgOps(front).value;
      assert (before + [last])[..|before|] == before;
    }
  }

  lemma EnvAppendsNothing(actions: seq<EnvAction>)
    requires EnvOps(actions).Ok?
    ensures forall k | 0 <= k < |EnvOps(actions).value| :: !EnvOps(actions).value[k].Append?
  {
    var ops := EnvOps(actions).value;
    EnvOpIs(actions, 0);
    forall k | 0 <= k < |ops| ensures !ops[k].Append? {
      EnvOpIs(actions, k);
    }
  }

  // ----- The redirect port.

  // isspace, in the C locale.
  predicate IsCSpace(c: char) {
    c == ' ' || '\t' <= c <= '\r'
  }

  function SkipSpaces(s: string): (n: nat)
    ensures n <= |s| && (forall i | 0 <= i < n :: IsCSpace(s[i])) && (n < |s| ==> !IsCSpace(s[n]))
  {
    if s != "" && IsCSpace(s[0]) then 1 + SkipSpaces(s[1..]) else 0
  }

  function CountDigits(s: string): (n: nat)
    ensures n <= |s| && (forall i | 0 <= i < n :: IsDigit(s[i])) && (n < |s| ==> !IsDigit(s[n]))
  {
    if s != "" && IsDigit(s[0]) then 1 + CountDigits(s[1..]) else 0
  }

  // strtol in base 10: the clamped value, how much was read, and ERANGE.
  datatype Number = Number(value: int, consumed: nat, outOfRange: bool)

  function Strtol(s: string): Number {
    var start := NumberStart(s);
    var count := CountDigits(s[start..]);
    if count == 0 then Number(0, 0, false)
    else Clamped(Signed(start > 0 && s[start - 1] == '-', DigitsValue(s[start..][..count])), start + count)
  }

  // Past white space and at most one sign.
  function NumberStart(s: string): (start: nat)
    ensures start <= |s|
  {
    var spaces := SkipSpaces(s);
    if spaces < |s| && (s[spaces] == '+' || s[spaces] == '-') then spaces + 1 else spaces
  }

  function Signed(negative: bool, magnitude: nat): int {
    var value: int := magnitude;
    if negative then -value else value
  }

  function Clamped(value: int, consumed: nat): Number {
    if value > MAX_INT64 then Number(MAX_INT64, consumed, true)
    else if value < -MAX_INT64 - 1 then Number(-MAX_INT64 - 1, consumed, true)
    else Number(value, consumed, false)
  }

  // read_redirect_port.
  function ReadRedirectPort(env: map<string, string>): (port: nat)
    ensures port <= 65535
    ensures port > 0 ==> "DVC_CLYDE_REDIRECT_PORT" in env && Spelled(env["DVC_CLYDE_REDIRECT_PORT"], port)
  {
    if REDIRECT_PORT_KEY !in env then 0 else
      var port := PortOf(env[REDIRECT_PORT_KEY]);
      if port > 0 then
        PortOnlyOfSpelling(env[REDIRECT_PORT_KEY]);
        port
      else 0
  }

  function PortOf(value: string): (port: nat)
    ensures port <= 65535
  {
    if value == "" then 0 else
      var number := Strtol(value);
      if number.outOfRange || number.consumed == 0 || number.consumed != |value| then 0
      else if number.value < 1 || number.value > 65535 then 0
      else number.value
  }

  // White space, at most a plus sign, digits that make the port.
  ghost predicate SpellsPort(value: string, spaces: string, sign: string, digits: string, port: nat) {
    && value == spaces + sign + digits
    && (forall i | 0 <= i < |spaces| :: spaces[i] in " \t\n\U{B}\U{C}\r")
    && (sign == "" || sign == "+")
    && digits != "" && AllDigits(digits)
    && DigitsValue(digits) == port
  }

  ghost predicate Spelled(value: string, port: nat) {
    exists spaces, sign, digits :: SpellsPort(value, spaces, sign, digits, port)
  }

  lemma SpellingParts(value: string, spaces: string, sign: string, digits: string, port: nat)
    requires SpellsPort(value, spaces, sign, digits, port)
    ensures SkipSpaces(value) == |spaces|
    ensures value[|spaces| + |sign|..] == digits
    ensures if sign == "" then IsDigit(value[|spaces|]) else value[|spaces|] == '+'
  {
    assert value == spaces + (sign + digits);
    SpacesCount(spaces, sign + digits);
    assert value[|spaces|] == (sign + digits)[0];
  }

  // The reader accepts exactly the spellings of 1 to 65535.
  lemma PortOfSpelling(value: string, spaces: string, sign: string, digits: string, port: nat)
    requires SpellsPort(value, spaces, sign, digits, port)
    ensures PortOf(value) == if 1 <= port <= 65535 then port else 0
  {
    SpellingParts(value, spaces, sign, digits, port);
    DigitsCount(digits);
    assert digits[..|digits|] == digits && NumberStart(value) == |spaces| + |sign|;
    assert Strtol(value) == Clamped(Signed(false, port), |value|);
  }

  lemma PortOnlyOfSpelling(value: string)
    requires PortOf(value) > 0
    ensures Spelled(value, PortOf(value))
  {
    var n, start := SkipSpaces(value), NumberStart(value);
    WhollyRead(value, start);
    SpelledBy(value, n, start, PortOf(value));
  }

  lemma SpelledBy(value: string, n: nat, start: nat, port: nat)
    requires n <= start <= |value| && forall i | 0 <= i < n :: IsCSpace(value[i])
    requires start == n || (start == n + 1 && value[n] == '+')
    requires var digits := value[start..]; digits != "" && AllDigits(digits) && DigitsValue(digits) == port
    ensures Spelled(value, port)
  {
    CutInThree(value, n, start);
    if start > n {
      assert value[n..start] == "+";
    }
    assert SpellsPort(value, value[..n], value[n..start], value[start..], port);
  }

  // A port is read only from digits up to the end, without a minus sign.
  lemma WhollyRead(value: string, start: nat)
    requires PortOf(value) > 0 && start == NumberStart(value)
    ensures start > 0 ==> value[start - 1] != '-'
    ensures var digits := value[start..]; digits != "" && AllDigits(digits) && DigitsValue(digits) == PortOf(value)
  {
    var digits := value[start..];
    assert CountDigits(digits) == |digits|;
    assert digits[..|digits|] == digits;
  }

  lemma CutInThree(s: string, i: nat, j: nat)
    requires i <= j <= |s|
    ensures s == s[..i] + s[i..j] + s[j..]
  {}

  lemma {:induction false} SpacesCount(spaces: string, rest: string)
    requires forall i | 0 <= i < |spaces| :: IsCSpace(spaces[i])
    requires rest != "" && !IsCSpace(rest[0])
    ensures SkipSpaces(spaces + rest) == |spaces|
  {
    if spaces == "" {
      assert spaces + rest == rest;
    } else {
      assert (spaces + rest)[1..] == spaces[1..] + rest;
      SpacesCount(spaces[1..], rest);
    }
  }

  lemma {:induction false} DigitsCount(digits: string)
    requires AllDigits(digits)
    ensures CountDigits(digits) == |digits|
  {
    if digits != "" {
      DigitsCount(digits[1..]);
    }
  }

  lemma PortOfDecimal(n: nat)
    ensures PortOf(Decimal(n)) == if 1 <= n <= 65535 then n else 0
  {
    var digits := Decimal(n);
    DecimalValue(n);
    assert "" + "" + digits == digits;
    PortOfSpelling(digits, "", "", digits, n);
  }

  lemma RedirectAlone(actions: seq<EnvAction>, key: string, ops: seq<Op>)
    requires EnvOps(actions) == Ok(ops) && !Names(actions, key)
    ensures forall i | 0 <= i < |ops| :: !Touches(ops[i], key)
  {
    EnvOpIs(actions, 0);
    forall i | 0 <= i < |ops| ensures !Touches(ops[i], key) {
      EnvOpIs(actions, i);
      NotNamed(actions, key, i);
    }
  }

  lemma {:induction false} NotNamed(actions: seq<EnvAction>, key: string, i: nat)
    requires !Names(actions, key) && i < |actions|
    ensures Trim(actions[i].key) != key
  {
    if i < |actions| - 1 {
      NotNamed(actions[..|actions| - 1], key, i);
    }
  }

  // It does not arrive for every policy the encoder accepts. Setting a variable to x, NUL, y
  // prints a text in which the reader finds a record of kind y and stops before the port.
  function NulPolicy(proxyPort: int): Policy {
    Policy([EnvAction("set", "A", "x" + [NUL] + "y")], [], proxyPort)
  }

  lemma NulPolicyOps(proxyPort: int)
    ensures Ops(NulPolicy(proxyPort)) == Ok([Set("A", "x" + [NUL] + "y")] + RedirectOps(proxyPort, false))
    ensures !Names(NulPolicy(proxyPort).environment, REDIRECT_PORT_KEY)
  {
    var action := NulPolicy(proxyPort).environment[0];
    TrimFixes("set");
    TrimFixes("A");
    assert Lower("set") == "set";
    assert EnvOp(action) == Ok(Set("A", "x" + [NUL] + "y"));
    OneEnvOp(action, Set("A", "x" + [NUL] + "y"));
    OneName(action);
    var ops: seq<Op> := [Set("A", "x" + [NUL] + "y")] + RedirectOps(proxyPort, false);
    assert ops + [] == ops;
  }

  lemma OneEnvOp(action: EnvAction, op: Op)
    requires EnvOp(action) == Ok(op)
    ensures EnvOps([action]) == Ok([op])
  {
    assert [action][..0] == [] && [] + [op] == [op];
  }

  lemma OneName(action: EnvAction)
    requires Trim(action.key) == "A"
    ensures !Names([action], REDIRECT_PORT_KEY)
  {
    assert [action][..0] == [];
    assert |REDIRECT_PORT_KEY| > 1;
  }

  lemma NulHidesRedirectPort(proxyPort: int, state: State, canAppend: bool)
    requires 1 <= proxyPort <= 65535
    ensures Ops(NulPolicy(proxyPort)).Ok? && !Names(NulPolicy(proxyPort).environment, REDIRECT_PORT_KEY)
    ensures var after := Interpret(Print(Ops(NulPolicy(proxyPort)).value), state, canAppend);
            && Variable(after.env, "A") == Some("x")
            && ReadRedirectPort(after.env) == ReadRedirectPort(state.env)
  {
    NulPolicyOps(proxyPort);
    assert ParseRecordKind("y") == Unknown && NUL !in "A" && NUL !in "x" && NUL !in "y";
    NulStopsReader("A", "x", "y", RedirectOps(proxyPort, false), state, canAppend);
    assert |REDIRECT_PORT_KEY| > |"A"| && ValidName("A");
  }
}
