// What the Mach-O layout determines, and the team tokens counted outside code signatures
// (internal/computeruseext/macho_trust.go, internal/computeruseext/verification.go).

module TrustedTokens {
  import opened Bytes
  import opened Numbers
  import opened Text
  import opened TeamToken
  import opened TokenAlgebra
  import opened MachO

  // There is one walk of each length.
  lemma {:induction false} WalksAgree(commands: Commands, a: seq<nat>, b: seq<nat>, n: nat)
    requires commands.Valid() && commands.Walk(a) && commands.Walk(b) && n <= |a| && n <= |b|
    ensures a[..n] == b[..n]
    decreases n
  {
    if n > 0 {
      WalksAgree(commands, a, b, n - 1);
      var p, q := a[..n - 1], b[..n - 1];
      assert a[n - 1] == b[n - 1] by {
        if n > 1 {
          assert a[n - 2] == p[n - 2] && b[n - 2] == q[n - 2];
        }
      }
      assert a[..n] == p + [a[n - 1]] && b[..n] == q + [b[n - 1]];
    }
  }

  lemma NextInWalk(commands: Commands, walk: seq<nat>, n: nat)
    requires commands.Valid() && commands.Walk(walk) && n < |walk|
    ensures forall i | 0 <= i < n :: commands.Acceptable(walk[..n][i])
    ensures commands.NextAfter(walk[..n]) == walk[n]
  {
    var before := walk[..n];
    forall i | 0 <= i < n ensures commands.Acceptable(before[i]) {
      assert before[i] == walk[i];
    }
    if n > 0 {
      assert before[n - 1] == walk[n - 1];
    }
  }

  // A walk that stops at a fault does not extend to a longer one.
  lemma FaultStops(commands: Commands, a: seq<nat>, b: seq<nat>)
    requires commands.Valid() && commands.Walk(a) && commands.Walk(b) && |a| < |b|
    ensures commands.Acceptable(commands.NextAfter(a))
  {
    WalksAgree(commands, a, b, |a|);
    assert a[..|a|] == a;
    NextInWalk(commands, b, |a|);
    assert commands.Acceptable(b[|a|]);
  }

  lemma CommandsReadOneWay(commands: Commands, base: nat, r: Result<seq<Range>, Error>, s: Result<seq<Range>, Error>)
    requires commands.Valid() && commands.ReadsAs(base, r) && commands.ReadsAs(base, s)
    ensures r == s
  {
    var a: seq<nat> :| commands.WalksTo(base, a, r);
    var b: seq<nat> :| commands.WalksTo(base, b, s);
    if |a| < |b| {
      FaultStops(commands, a, b);
    } else if |b| < |a| {
      FaultStops(commands, b, a);
    } else {
      WalksAgree(commands, a, b, |a|);
      assert a[..|a|] == a && b[..|a|] == b;
    }
  }

  lemma ThinReadsOneWay(data: seq<Byte>, base: nat, r: Result<seq<Range>, Error>, s: Result<seq<Range>, Error>)
    requires ThinReadsAs(data, base, r) && ThinReadsAs(data, base, s)
    ensures r == s
  {
    var found := CommandsOf(data);
    if found.Ok? && found.value.Some? {
      CommandsReadOneWay(found.value.value, base, r, s);
    }
  }

  lemma {:induction false} PartsAgree(fat: Fat, a: seq<seq<Range>>, b: seq<seq<Range>>)
    requires fat.Valid() && fat.Parts(a) && fat.Parts(b)
    ensures forall i | 0 <= i < |a| && i < |b| :: a[i] == b[i]
  {
    forall i | 0 <= i < |a| && i < |b| ensures a[i] == b[i] {
      PartReadsOneWay(fat, i, a[i], Ok(b[i]));
    }
  }

  lemma PartReadsOneWay(fat: Fat, i: nat, part: seq<Range>, result: Result<seq<Range>, Error>)
    requires fat.Valid() && i < fat.Count() && fat.IsPart(i, part)
    requires ThinReadsAs(fat.Slice(i), fat.SliceOffset(i), result)
    ensures result == Ok(part)
  {
    ThinReadsOneWay(fat.Slice(i), fat.SliceOffset(i), Ok(part), result);
  }

  // A read does not stop at an architecture whose part can be read.
  lemma StopsAtFault(fat: Fat, a: seq<seq<Range>>, r: Result<seq<Range>, Error>, part: seq<Range>)
    requires fat.Valid() && |a| < fat.Count() && fat.IsPart(|a|, part)
    ensures !fat.PartsTo(a, r)
  {
    if fat.PartsTo(a, r) {
      PartReadsOneWay(fat, |a|, part, r);
    }
  }

  lemma FatReadsOneWay(fat: Fat, r: Result<seq<Range>, Error>, s: Result<seq<Range>, Error>)
    requires fat.Valid() && fat.ReadsAs(r) && fat.ReadsAs(s)
    ensures r == s
  {
    var a: seq<seq<Range>> :| fat.PartsTo(a, r);
    var b: seq<seq<Range>> :| fat.PartsTo(b, s);
    if |a| < |b| {
      assert fat.IsPart(|a|, b[|a|]);
      StopsAtFault(fat, a, r, b[|a|]);
    } else if |b| < |a| {
      assert fat.IsPart(|b|, a[|b|]);
      StopsAtFault(fat, b, s, a[|b|]);
    } else {
      PartsAgree(fat, a, b);
      assert a == b;
      SamePartsSameResult(fat, a, r, s);
    }
  }

  lemma SamePartsSameResult(fat: Fat, a: seq<seq<Range>>, r: Result<seq<Range>, Error>, s: Result<seq<Range>, Error>)
    requires fat.Valid() && fat.PartsTo(a, r) && fat.PartsTo(a, s)
    ensures r == s
  {
    if |a| < fat.Count() && fat.Inside(|a|) {
      ThinReadsOneWay(fat.Slice(|a|), fat.SliceOffset(|a|), r, s);
    }
  }

  // The layout of a file determines the ranges, or the error.
  lemma FileReadsOneWay(data: seq<Byte>, r: Result<seq<Range>, Error>, s: Result<seq<Range>, Error>)
    requires FileReadsAs(data, r) && FileReadsAs(data, s)
    ensures r == s
  {
    if |data| >= 4 {
      var fat := FatLayout(data);
      if fat.None? {
        ThinReadsOneWay(data, 0, r, s);
      } else if |data| >= 8 && fat.value.Valid() {
        FatReadsOneWay(fat.value, r, s);
      }
    }
  }

  ghost predicate Within(ranges: seq<Range>, low: nat, high: nat) {
    forall r | r in ranges :: low <= r.start <= r.end <= high
  }

  lemma {:induction false} SignaturesWithin(commands: Commands, base: nat, at: seq<nat>)
    requires commands.Valid() && commands.Walk(at)
    ensures Within(commands.Signatures(base, at), base, base + |commands.data|)
  {
    if at != [] {
      SignaturesWithin(commands, base, at[..|at| - 1]);
      assert commands.Acceptable(at[|at| - 1]);
    }
  }

  // Every range of a slice lies in that slice.
  lemma ThinRangesWithin(data: seq<Byte>, base: nat, ranges: seq<Range>)
    requires ThinReadsAs(data, base, Ok(ranges))
    ensures Within(ranges, base, base + |data|)
  {
    var found := CommandsOf(data);
    if found.Ok? && found.value.Some? {
      var commands := found.value.value;
      var at: seq<nat> :| commands.WalksTo(base, at, Ok(ranges));
      SignaturesWithin(commands, base, at);
    }
  }

  lemma {:induction false} FlattenWithin(parts: seq<seq<Range>>, low: nat, high: nat)
    requires forall i | 0 <= i < |parts| :: Within(parts[i], low, high)
    ensures Within(Flatten(parts), low, high)
  {
    if parts != [] {
      FlattenWithin(parts[..|parts| - 1], low, high);
      assert Within(parts[|parts| - 1], low, high);
    }
  }

  // Every range of a universal file lies in its own slice.
  lemma PartWithinSlice(fat: Fat, i: nat, part: seq<Range>)
    requires fat.Valid() && i < fat.Count() && fat.IsPart(i, part)
    ensures Within(part, fat.SliceOffset(i), fat.SliceOffset(i) + fat.SliceSize(i))
    ensures fat.SliceOffset(i) + fat.SliceSize(i) <= |fat.data|
  {
    ThinRangesWithin(fat.Slice(i), fat.SliceOffset(i), part);
  }

  // Every range of a file lies in the file.
  lemma FileRangesWithin(data: seq<Byte>, ranges: seq<Range>)
    requires FileReadsAs(data, Ok(ranges))
    ensures Within(ranges, 0, |data|)
  {
    if |data| >= 4 {
      var layout := FatLayout(data);
      if layout.None? {
        ThinRangesWithin(data, 0, ranges);
      } else {
        FatRangesWithin(layout.value, ranges);
      }
    }
  }

  lemma FatRangesWithin(fat: Fat, ranges: seq<Range>)
    requires FatReadsAs(fat, Ok(ranges))
    ensures Within(ranges, 0, |fat.data|)
  {
    var parts: seq<seq<Range>> :| fat.PartsTo(parts, Ok(ranges));
    forall i | 0 <= i < |parts| ensures Within(parts[i], 0, |fat.data|) {
      assert fat.IsPart(i, parts[i]);
      PartWithinSlice(fat, i, parts[i]);
    }
    FlattenWithin(parts, 0, |fat.data|);
  }

  // rangeOverlapsAny.
  predicate OverlapsAny(start: nat, end: nat, ranges: seq<Range>) {
    exists i | 0 <= i < |ranges| :: start < ranges[i].end && end > ranges[i].start
  }

  method RangeOverlapsAny(start: nat, end: nat, ranges: seq<Range>) returns (overlaps: bool)
    ensures overlaps == OverlapsAny(start, end, ranges)
  {
    for i := 0 to |ranges|
      invariant forall k | 0 <= k < i :: !(start < ranges[k].end && end > ranges[k].start)
    {
      if start < ranges[i].end && end > ranges[i].start {
        return true;
      }
    }
    return false;
  }

  predicate Holds(range: Range, b: nat) {
    range.start <= b < range.end
  }

  // In bytes: a range shares a byte with some span of the file, or is empty and lies inside it.
  ghost predicate Shares(start: nat, end: nat, range: Range) {
    || (exists b: nat :: start <= b < end && Holds(range, b))
    || (range.start == range.end && start < range.start < end)
  }

  lemma OverlapIsShared(start: nat, end: nat, ranges: seq<Range>)
    requires start < end && forall r | r in ranges :: r.start <= r.end
    ensures OverlapsAny(start, end, ranges) <==> exists r :: r in ranges && Shares(start, end, r)
  {
    forall r | r in ranges ensures Shares(start, end, r) <==> start < r.end && end > r.start {
      if start < r.end && end > r.start && r.start < r.end {
        var b := if r.start < start then start else r.start;
        assert start <= b < end && Holds(r, b);
      }
    }
    if i :| 0 <= i < |ranges| && start < ranges[i].end && end > ranges[i].start {
      assert ranges[i] in ranges && Shares(start, end, ranges[i]);
    }
  }

  // An ID stands alone at some position, and no byte of it is in a range.
  ghost predicate StandsClear(data: seq<Byte>, id: seq<Byte>, ranges: seq<Range>, p: nat) {
    Standalone(data, id, p) && !exists r :: r in ranges && Shares(p, p + |id|, r)
  }

  ghost predicate ClearSomewhere(data: seq<Byte>, id: seq<Byte>, ranges: seq<Range>) {
    exists p: nat :: StandsClear(data, id, ranges, p)
  }

  lemma TrustedIsClear(data: seq<Byte>, id: seq<Byte>, ranges: seq<Range>)
    requires ValidTeamID(id) && forall r | r in ranges :: r.start <= r.end
    ensures forall p: nat :: p in Trusted(data, id, ranges) <==> StandsClear(data, id, ranges, p)
    ensures Trusted(data, id, ranges) != {} <==> ClearSomewhere(data, id, ranges)
  {
    forall p: nat ensures p in Trusted(data, id, ranges) <==> StandsClear(data, id, ranges, p) {
      OverlapIsShared(p, p + |id|, ranges);
    }
    if Trusted(data, id, ranges) != {} {
      var p :| p in Trusted(data, id, ranges);
      assert StandsClear(data, id, ranges, p);
    }
  }

  // Where a team ID stands alone and touches no range.
  ghost function TrustedFrom(data: seq<Byte>, id: seq<Byte>, ranges: seq<Range>, from: nat): set<nat> {
    Outside(PositionsFrom(data, id, from), |id|, ranges)
  }

  ghost function Trusted(data: seq<Byte>, id: seq<Byte>, ranges: seq<Range>): set<nat> {
    Outside(Positions(data, id), |id|, ranges)
  }

  function Counts(data: seq<Byte>, token: seq<Byte>, ranges: seq<Range>): nat -> bool {
    (at: nat) => HasBoundary(data, at, at + |token|) && !OverlapsAny(at, at + |token|, ranges)
  }

  lemma {:induction false} ScanFindsTrusted(data: seq<Byte>, id: seq<Byte>, ranges: seq<Range>, from: nat)
    requires ValidTeamID(id) && from <= |data|
    ensures GreedyCount(data, id, from, Counts(data, id, ranges)) == |TrustedFrom(data, id, ranges, from)|
    decreases |data| - from
  {
    var at := Find(data, id, from);
    FindsFirst(data, id, from);
    if at > |data| {
      assert TrustedFrom(data, id, ranges, from) == {};
    } else {
      ScanFindsTrusted(data, id, ranges, at + TEAM_ID_LENGTH);
      SplitTrusted(data, id, ranges, from, at);
    }
  }

  // The greedy count is the number of standalone positions outside the ranges.
  lemma ScanFindsAllTrusted(data: seq<Byte>, id: seq<Byte>, ranges: seq<Range>)
    requires ValidTeamID(id)
    ensures GreedyCount(data, id, 0, Counts(data, id, ranges)) == |Trusted(data, id, ranges)|
  {
    ScanFindsTrusted(data, id, ranges, 0);
    assert TrustedFrom(data, id, ranges, 0) == Trusted(data, id, ranges);
  }

  lemma SplitTrusted(data: seq<Byte>, id: seq<Byte>, ranges: seq<Range>, from: nat, at: nat)
    requires ValidTeamID(id) && from <= at && OccursAt(data, id, at)
    requires forall i | from <= i < at :: !OccursAt(data, id, i)
    ensures |TrustedFrom(data, id, ranges, from)|
            == |TrustedFrom(data, id, ranges, at + TEAM_ID_LENGTH)| + if Counts(data, id, ranges)(at) then 1 else 0
  {
    PositionsSplit(data, id, from, at);
    OneMoreOutside(PositionsFrom(data, id, from), PositionsFrom(data, id, at + TEAM_ID_LENGTH), at,
                   HasBoundary(data, at, at + TEAM_ID_LENGTH), |id|, ranges);
  }

  // Of some positions, those whose window touches no range; then one position more.
  ghost function Outside(positions: set<nat>, length: nat, ranges: seq<Range>): set<nat> {
    set p | p in positions && !OverlapsAny(p, p + length, ranges)
  }

  lemma OneMoreOutside(positions: set<nat>, later: set<nat>, at: nat, more: bool, length: nat, ranges: seq<Range>)
    requires positions == later + (if more then {at} else {}) && at !in later
    ensures |Outside(positions, length, ranges)|
            == |Outside(later, length, ranges)| + if more && !OverlapsAny(at, at + length, ranges) then 1 else 0
  {
    var outside := Outside(later, length, ranges);
    if more && !OverlapsAny(at, at + length, ranges) {
      assert Outside(positions, length, ranges) == outside + {at};
    } else {
      assert Outside(positions, length, ranges) == outside;
    }
  }

  lemma PositionsSplit(data: seq<Byte>, id: seq<Byte>, from: nat, at: nat)
    requires ValidTeamID(id) && from <= at && OccursAt(data, id, at)
    requires forall i | from <= i < at :: !OccursAt(data, id, i)
    ensures PositionsFrom(data, id, from)
            == PositionsFrom(data, id, at + TEAM_ID_LENGTH)
               + if HasBoundary(data, at, at + TEAM_ID_LENGTH) then {at} else {}
    ensures at !in PositionsFrom(data, id, at + TEAM_ID_LENGTH)
  {
    SkippingIsSafe(data, id, at);
  }

  lemma {:induction false} TrustedAtMostPlain(data: seq<Byte>, token: seq<Byte>, ranges: seq<Range>, from: nat)
    requires token != [] && from <= |data|
    ensures GreedyCount(data, token, from, Counts(data, token, ranges))
            <= GreedyCount(data, token, from, StandsAlone(data, token))
    decreases |data| - from
  {
    var at := Find(data, token, from);
    if at <= |data| {
      TrustedAtMostPlain(data, token, ranges, at + |token|);
    }
  }

  // countTrustedTeamTokens, which never returns on an empty team ID.
  method CountTrustedTeamTokens(data: seq<Byte>, teamID: seq<Byte>)
      returns (result: Result<nat, Error>, ghost ranges: Result<seq<Range>, Error>)
    requires |data| < TWO_TO_THE_63 && teamID != []
    ensures FileReadsAs(data, ranges)
    ensures result.Err? <==> ranges.Err?
    ensures result.Err? ==> ranges == Err(result.error)
    ensures result.Ok? ==>
              && result.value == GreedyCount(data, teamID, 0, Counts(data, teamID, ranges.value))
              && result.value <= GreedyCount(data, teamID, 0, StandsAlone(data, teamID))
              && (ValidTeamID(teamID) ==>
                    && result.value == |Trusted(data, teamID, ranges.value)|
                    && forall p: nat :: p in Trusted(data, teamID, ranges.value)
                                        <==> StandsClear(data, teamID, ranges.value, p))
  {
    var found := ReadCodeSignatureRanges(data);
    ranges := found;
    if found.Err? {
      return Err(found.error), found;
    }
    var count := CountOutside(data, teamID, found.value);
    TrustedAtMostPlain(data, teamID, found.value, 0);
    if ValidTeamID(teamID) {
      ScanFindsAllTrusted(data, teamID, found.value);
      FileRangesWithin(data, found.value);
      TrustedIsClear(data, teamID, found.value);
    }
    return Ok(count), found;
  }

  // Its loop, once the ranges are known.
  method CountOutside(data: seq<Byte>, token: seq<Byte>, ranges: seq<Range>) returns (count: nat)
    requires token != []
    ensures count == GreedyCount(data, token, 0, Counts(data, token, ranges))
  {
    count := 0;
    var offset: nat := 0;
    ghost var counts := Counts(data, token, ranges);
    ghost var total := GreedyCount(data, token, 0, counts);
    while true
      invariant offset <= |data|
      invariant count + GreedyCount(data, token, offset, counts) == total
      decreases |data| - offset
    {
      var start, counted := NextOutside(data, token, ranges, offset);
      if start > |data| {
        break;
      }
      if counted {
        count := count + 1;
      }
      offset := start + |token|;
    }
  }

  // Its body: the next match, and whether it counts.
  method NextOutside(data: seq<Byte>, token: seq<Byte>, ranges: seq<Range>, offset: nat)
      returns (start: nat, counted: bool)
    requires token != [] && offset <= |data|
    ensures start <= |data| ==> offset <= start && start + |token| <= |data|
    ensures GreedyCount(data, token, offset, Counts(data, token, ranges))
            == if start > |data| then 0
               else (if counted then 1 else 0) + GreedyCount(data, token, start + |token|, Counts(data, token, ranges))
  {
    start := Find(data, token, offset);
    GreedyStep(data, token, offset, start, Counts(data, token, ranges));
    if start > |data| {
      return start, false;
    }
    var end := start + |token|;
    var overlaps := RangeOverlapsAny(start, end, ranges);
    return start, HasBoundary(data, start, end) && !overlaps;
  }

  datatype Verdict = Unreadable(error: Error) | StillTrustsUpstream | LacksLocal | Verified

  // What verification does with one helper binary.
  method VerifyTrustedTeam(data: seq<Byte>, upstreamID: seq<Byte>, localID: seq<Byte>) returns (verdict: Verdict)
    requires |data| < TWO_TO_THE_63 && upstreamID != [] && localID != []
    ensures verdict.Unreadable? ==> FileReadsAs(data, Err(verdict.error))
    ensures !verdict.Unreadable? ==> exists ranges :: FileReadsAs(data, Ok(ranges))
    ensures ValidTeamID(upstreamID) && ValidTeamID(localID) ==>
              forall ranges | FileReadsAs(data, Ok(ranges)) ::
                verdict == if ClearSomewhere(data, upstreamID, ranges) then StillTrustsUpstream
                           else if ClearSomewhere(data, localID, ranges) then Verified
                           else LacksLocal
  {
    var upstreamCount, ranges := CountTrustedTeamTokens(data, upstreamID);
    forall other | FileReadsAs(data, other) ensures other == ranges {
      FileReadsOneWay(data, other, ranges);
    }
    if upstreamCount.Err? {
      return Unreadable(upstreamCount.error);
    }
    FileRangesWithin(data, ranges.value);
    if ValidTeamID(upstreamID) && ValidTeamID(localID) {
      TrustedIsClear(data, upstreamID, ranges.value);
      TrustedIsClear(data, localID, ranges.value);
    }
    if upstreamCount.value > 0 {
      return StillTrustsUpstream;
    }
    var localCount, again := CountTrustedTeamTokens(data, localID);
    assert again == ranges;
    return if localCount.value == 0 then LacksLocal else Verified;
  }

  // A rewritten binary never fails verification for trusting the upstream team; if it can be
  // read, it passes exactly when an ID, old or new, stood alone outside its code signatures.
  method PatchThenVerify(data: seq<Byte>, oldID: seq<Byte>, newID: seq<Byte>)
      returns (patched: RewriteResult, verdict: Verdict)
    requires |data| < TWO_TO_THE_63 && ValidTeamID(oldID) && ValidTeamID(newID) && oldID != newID
    ensures patched.Rewritten? && verdict != StillTrustsUpstream
    ensures verdict.Unreadable? ==> FileReadsAs(patched.out, Err(verdict.error))
    ensures forall ranges | FileReadsAs(patched.out, Ok(ranges)) ::
              verdict == if ClearSomewhere(data, oldID, ranges) || ClearSomewhere(data, newID, ranges) then Verified
                         else LacksLocal
  {
    patched := ReplaceStandaloneTeamID(data, oldID, newID);
    verdict := VerifyTrustedTeam(patched.out, oldID, newID);
    forall ranges | FileReadsAs(patched.out, Ok(ranges))
      ensures !ClearSomewhere(patched.out, oldID, ranges)
      ensures ClearSomewhere(patched.out, newID, ranges)
              <==> ClearSomewhere(data, oldID, ranges) || ClearSomewhere(data, newID, ranges)
    {
      FileRangesWithin(patched.out, ranges);
      RewriteMovesTrusted(data, patched.out, oldID, newID, ranges);
      ClearOfTrusted(data, patched.out, oldID, newID, ranges);
    }
    if !verdict.Unreadable? {
      ghost var ranges :| FileReadsAs(patched.out, Ok(ranges));
    }
  }

  lemma ClearOfTrusted(data: seq<Byte>, out: seq<Byte>, oldID: seq<Byte>, newID: seq<Byte>, ranges: seq<Range>)
    requires ValidTeamID(oldID) && ValidTeamID(newID) && forall r | r in ranges :: r.start <= r.end
    ensures ClearSomewhere(out, oldID, ranges) <==> Trusted(out, oldID, ranges) != {}
    ensures ClearSomewhere(out, newID, ranges) <==> Trusted(out, newID, ranges) != {}
    ensures ClearSomewhere(data, oldID, ranges) || ClearSomewhere(data, newID, ranges)
            <==> Trusted(data, oldID, ranges) + Trusted(data, newID, ranges) != {}
  {
    TrustedIsClear(out, oldID, ranges);
    TrustedIsClear(out, newID, ranges);
    TrustedIsClear(data, oldID, ranges);
    TrustedIsClear(data, newID, ranges);
  }

  lemma RewriteMovesTrusted(data: seq<Byte>, out: seq<Byte>, oldID: seq<Byte>, newID: seq<Byte>, ranges: seq<Range>)
    requires ValidTeamID(oldID) && ValidTeamID(newID) && oldID != newID && IsRewrite(data, out, oldID, newID)
    ensures Trusted(out, oldID, ranges) == {}
    ensures Trusted(out, newID, ranges) == Trusted(data, oldID, ranges) + Trusted(data, newID, ranges)
  {
    RewriteMovesPositions(data, out, oldID, newID);
  }
}
