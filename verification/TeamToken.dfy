// Rewriting a team ID in a binary (internal/computeruseext/computer_use.go): a greedy scan
// that skips past every match and checks boundaries in the buffer it is rewriting.

module Bytes {
  newtype Byte = x: int | 0 <= x < 256
}

module TeamToken {
  import opened Bytes
  import opened Text

  predicate IsAlphanumeric(b: Byte) {
    65 <= b <= 90 || 97 <= b <= 122 || 48 <= b <= 57
  }

  // Alphanumeric, '.', '_' or '-'.
  predicate IsTokenByte(b: Byte) {
    IsAlphanumeric(b) || b == 46 || b == 95 || b == 45
  }

  const TEAM_ID_LENGTH: nat := 10

  // validateTeamID.
  predicate ValidTeamID(id: seq<Byte>) {
    |id| == TEAM_ID_LENGTH && forall i | 0 <= i < |id| :: IsAlphanumeric(id[i])
  }

  const UPPER := "ABCDEFGHIJKLMNOPQRSTUVWXYZ"
  const LOWER := "abcdefghijklmnopqrstuvwxyz"
  const DIGITS := "0123456789"

  lemma UpperAre(b: Byte)
    ensures b as int as char in UPPER <==> 65 <= b <= 90
  {
    if 65 <= b <= 90 {
      assert UPPER[b as int - 65] == b as int as char;
    }
  }

  lemma LowerAre(b: Byte)
    ensures b as int as char in LOWER <==> 97 <= b <= 122
  {
    if 97 <= b <= 122 {
      assert LOWER[b as int - 97] == b as int as char;
    }
  }

  // The bytes of a team ID and the token bytes, written out.
  lemma TokenBytesAre(b: Byte)
    ensures var c := b as int as char;
            && (IsAlphanumeric(b) <==> c in UPPER || c in LOWER || c in DIGITS)
            && (IsTokenByte(b) <==> c in UPPER || c in LOWER || c in DIGITS || c in "._-")
  {
    UpperAre(b);
    LowerAre(b);
    if 48 <= b <= 57 {
      assert DIGITS[b as int - 48] == b as int as char;
    }
  }

  lemma TeamIDIs(id: seq<Byte>)
    ensures ValidTeamID(id)
            <==> && |id| == 10
                 && forall i | 0 <= i < |id| ::
                   var c := id[i] as int as char;
                   c in UPPER || c in LOWER || c in DIGITS
  {
    forall i | 0 <= i < |id|
      ensures IsAlphanumeric(id[i])
              <==> var c := id[i] as int as char; c in UPPER || c in LOWER || c in DIGITS
    {
      TokenBytesAre(id[i]);
    }
  }

  // hasStandaloneTokenBoundary.
  predicate HasBoundary(data: seq<Byte>, start: nat, end: nat) {
    && (0 < start <= |data| ==> !IsTokenByte(data[start - 1]))
    && (end < |data| ==> !IsTokenByte(data[end]))
  }

  predicate Standalone(data: seq<Byte>, id: seq<Byte>, p: nat) {
    OccursAt(data, id, p) && HasBoundary(data, p, p + |id|)
  }

  // All standalone positions, whatever a scan does.
  ghost function Positions(data: seq<Byte>, id: seq<Byte>): set<nat> {
    set p: nat | p <= |data| && Standalone(data, id, p)
  }

  // A maximal run of token bytes, as long as a team ID.
  predicate MaximalRun(data: seq<Byte>, p: nat) {
    && p + TEAM_ID_LENGTH <= |data|
    && (forall i | p <= i < p + TEAM_ID_LENGTH :: IsTokenByte(data[i]))
    && HasBoundary(data, p, p + TEAM_ID_LENGTH)
  }

  // A team ID stands alone exactly where a maximal run of its length spells it.
  lemma StandaloneIsMaximalRun(data: seq<Byte>, id: seq<Byte>, p: nat)
    requires ValidTeamID(id)
    ensures Standalone(data, id, p) <==> MaximalRun(data, p) && data[p..p + TEAM_ID_LENGTH] == id
  {
    if OccursAt(data, id, p) {
      forall i | p <= i < p + TEAM_ID_LENGTH ensures IsTokenByte(data[i]) {
        assert data[i] == data[p..p + TEAM_ID_LENGTH][i - p];
      }
    }
  }

  // Maximal runs do not overlap.
  lemma RunsAreDisjoint(data: seq<Byte>, p: nat, q: nat)
    requires MaximalRun(data, p) && MaximalRun(data, q) && p < q
    ensures p + TEAM_ID_LENGTH < q
  {
    assert IsTokenByte(data[p + TEAM_ID_LENGTH - 1]);
  }

  // Of the matches that a greedy scan stops at, from an offset on, how many satisfy a predicate.
  function GreedyCount(data: seq<Byte>, token: seq<Byte>, from: nat, p: nat -> bool): nat
    requires token != [] && from <= |data|
    decreases |data| - from
  {
    var at := Find(data, token, from);
    if at > |data| then 0 else (if p(at) then 1 else 0) + GreedyCount(data, token, at + |token|, p)
  }

  lemma GreedyStep(data: seq<Byte>, token: seq<Byte>, from: nat, at: nat, p: nat -> bool)
    requires token != [] && from <= |data| && at == Find(data, token, from)
    ensures at > |data| ==> GreedyCount(data, token, from, p) == 0
    ensures at <= |data| ==>
              GreedyCount(data, token, from, p) == (if p(at) then 1 else 0) + GreedyCount(data, token, at + |token|, p)
  {}

  function StandsAlone(data: seq<Byte>, token: seq<Byte>): nat -> bool {
    (at: nat) => HasBoundary(data, at, at + |token|)
  }

  // For a team ID the scan misses nothing: it stops at every standalone position, once.
  lemma {:induction false} ScanMissesNothing(data: seq<Byte>, id: seq<Byte>, from: nat)
    requires ValidTeamID(id) && from <= |data|
    ensures GreedyCount(data, id, from, StandsAlone(data, id)) == |PositionsFrom(data, id, from)|
    decreases |data| - from
  {
    var at := Find(data, id, from);
    FindsFirst(data, id, from);
    if at > |data| {
      assert PositionsFrom(data, id, from) == {};
    } else {
      ScanMissesNothing(data, id, at + TEAM_ID_LENGTH);
      SplitAtMatch(data, id, from, at);
    }
  }

  // The greedy count is the number of standalone positions.
  lemma ScanFindsAll(data: seq<Byte>, id: seq<Byte>)
    requires ValidTeamID(id)
    ensures GreedyCount(data, id, 0, StandsAlone(data, id)) == |Positions(data, id)|
  {
    ScanMissesNothing(data, id, 0);
    assert PositionsFrom(data, id, 0) == Positions(data, id);
  }

  ghost function PositionsFrom(data: seq<Byte>, id: seq<Byte>, from: nat): set<nat> {
    set p: nat | from <= p <= |data| && Standalone(data, id, p)
  }

  // No standalone position straddles the end of a match.
  lemma SkippingIsSafe(data: seq<Byte>, id: seq<Byte>, at: nat)
    requires ValidTeamID(id) && OccursAt(data, id, at)
    ensures forall p: nat | Standalone(data, id, p) :: p >= at + TEAM_ID_LENGTH || p <= at
    ensures forall p: nat | Standalone(data, id, p) && p < at :: p + TEAM_ID_LENGTH <= at
  {
    forall k | at <= k < at + TEAM_ID_LENGTH ensures IsTokenByte(data[k]) {
      assert data[k] == data[at..at + TEAM_ID_LENGTH][k - at];
    }
  }

  lemma SplitAtMatch(data: seq<Byte>, id: seq<Byte>, from: nat, at: nat)
    requires ValidTeamID(id) && from <= at && OccursAt(data, id, at)
    requires forall i | from <= i < at :: !OccursAt(data, id, i)
    ensures |PositionsFrom(data, id, from)|
            == |PositionsFrom(data, id, at + TEAM_ID_LENGTH)|
               + if HasBoundary(data, at, at + TEAM_ID_LENGTH) then 1 else 0
  {
    SkippingIsSafe(data, id, at);
    var later := PositionsFrom(data, id, at + TEAM_ID_LENGTH);
    if Standalone(data, id, at) {
      assert PositionsFrom(data, id, from) == later + {at};
    } else {
      assert PositionsFrom(data, id, from) == later;
    }
  }

  // countStandaloneToken, which never returns on an empty token.
  method CountStandaloneToken(data: seq<Byte>, token: seq<Byte>) returns (count: nat)
    requires token != []
    ensures count == GreedyCount(data, token, 0, StandsAlone(data, token))
    ensures ValidTeamID(token) ==> count == |Positions(data, token)|
  {
    count := CountMatches(data, token);
    if ValidTeamID(token) {
      ScanFindsAll(data, token);
    }
  }

  // Its loop.
  method CountMatches(data: seq<Byte>, token: seq<Byte>) returns (count: nat)
    requires token != []
    ensures count == GreedyCount(data, token, 0, StandsAlone(data, token))
  {
    count := 0;
    var offset: nat := 0;
    ghost var alone := StandsAlone(data, token);
    ghost var total := GreedyCount(data, token, 0, alone);
    while true
      invariant offset <= |data|
      invariant count + GreedyCount(data, token, offset, alone) == total
      decreases |data| - offset
    {
      var start, counted := NextAlone(data, token, offset);
      if start > |data| {
        break;
      }
      if counted {
        count := count + 1;
      }
      offset := start + |token|;
    }
  }

  // Its body: the next match, and whether it stands alone.
  method NextAlone(data: seq<Byte>, token: seq<Byte>, offset: nat) returns (start: nat, counted: bool)
    requires token != [] && offset <= |data|
    ensures start <= |data| ==> offset <= start && start + |token| <= |data|
    ensures GreedyCount(data, token, offset, StandsAlone(data, token))
            == if start > |data| then 0
               else (if counted then 1 else 0) + GreedyCount(data, token, start + |token|, StandsAlone(data, token))
  {
    start := Find(data, token, offset);
    GreedyStep(data, token, offset, start, StandsAlone(data, token));
    return start, start <= |data| && HasBoundary(data, start, start + |token|);
  }

  // What a rewrite means: the new ID at every standalone old ID, every other byte as it was.
  ghost predicate IsRewrite(data: seq<Byte>, out: seq<Byte>, oldID: seq<Byte>, newID: seq<Byte>) {
    && |out| == |data|
    && (forall p: nat | Standalone(data, oldID, p) :: OccursAt(out, newID, p))
    && (forall i | 0 <= i < |data| && !Covered(data, oldID, i) :: out[i] == data[i])
  }

  ghost predicate Covered(data: seq<Byte>, id: seq<Byte>, i: nat) {
    exists p: nat :: Standalone(data, id, p) && p <= i < p + |id|
  }

  datatype RewriteResult =
    | InvalidTeamID
    | Rewritten(out: seq<Byte>, replacements: nat, alreadyPatched: bool)

  // Go's copy(buffer[start:], bytes).
  method CopyInto(buffer: array<Byte>, start: nat, bytes: seq<Byte>)
    requires start + |bytes| <= buffer.Length
    modifies buffer
    ensures buffer[..] == old(buffer[..start]) + bytes + old(buffer[start + |bytes|..])
  {
    forall i | 0 <= i < |bytes| {
      buffer[start + i] := bytes[i];
    }
  }

  // replaceStandaloneTeamID.
  method ReplaceStandaloneTeamID(data: seq<Byte>, oldID: seq<Byte>, newID: seq<Byte>) returns (result: RewriteResult)
    ensures result.InvalidTeamID? <==> !ValidTeamID(oldID) || !ValidTeamID(newID)
    ensures result.Rewritten? ==>
              && IsRewrite(data, result.out, oldID, newID)
              && result.replacements == |Positions(data, oldID)|
              && (result.alreadyPatched <==> result.replacements == 0 && Positions(result.out, newID) != {})
  {
    if !ValidTeamID(oldID) || !ValidTeamID(newID) {
      return InvalidTeamID;
    }
    var out := new Byte[|data|](i requires 0 <= i < |data| => data[i]);
    assert out[..] == data;
    var replacements := RewriteInPlace(out, oldID, newID);
    var patched := CountStandaloneToken(out[..], newID);
    var alreadyPatched := replacements == 0 && patched > 0;
    return Rewritten(out[..], replacements, alreadyPatched);
  }

  // Its loop, over the buffer it has copied.
  method RewriteInPlace(out: array<Byte>, oldID: seq<Byte>, newID: seq<Byte>) returns (replacements: nat)
    requires ValidTeamID(oldID) && ValidTeamID(newID)
    modifies out
    ensures IsRewrite(old(out[..]), out[..], oldID, newID)
    ensures replacements == |Positions(old(out[..]), oldID)|
  {
    ghost var data := out[..];
    replacements := 0;
    var offset: nat := 0;
    assert PositionsFrom(data, oldID, 0) == Positions(data, oldID);
    while true
      invariant RewrittenUpTo(data, out[..], oldID, newID, offset)
      invariant replacements + |PositionsFrom(data, oldID, offset)| == |Positions(data, oldID)|
      decreases |data| - offset
    {
      var start := Find(out[..], oldID, offset);
      if start > out.Length {
        RewriteEnds(data, out[..], oldID, newID, offset);
        break;
      }
      var end := start + |oldID|;
      RewriteStep(data, out[..], oldID, newID, offset, start);
      if HasBoundary(out[..], start, end) {
        CopyInto(out, start, newID);
        replacements := replacements + 1;
      }
      offset := end;
    }
  }

  // The buffer when the scan has reached an offset: rewritten before it, untouched from it
  // on, token bytes where there were token bytes, and no standalone ID across the offset.
  ghost predicate RewrittenUpTo(data: seq<Byte>, out: seq<Byte>, oldID: seq<Byte>, newID: seq<Byte>, offset: nat) {
    && offset <= |data| == |out|
    && (forall i | offset <= i < |data| :: out[i] == data[i])
    && (forall i | 0 <= i < |data| :: IsTokenByte(out[i]) == IsTokenByte(data[i]))
    && (forall p: nat | Standalone(data, oldID, p) :: p >= offset || (p + |oldID| <= offset && OccursAt(out, newID, p)))
    && (forall i | 0 <= i < offset && !Covered(data, oldID, i) :: out[i] == data[i])
  }

  // One match, replaced or skipped.
  // One iteration, on sequences: what it does to the buffer and to the positions that are left.
  lemma RewriteStep(data: seq<Byte>, out: seq<Byte>, oldID: seq<Byte>, newID: seq<Byte>, offset: nat, start: nat)
    requires ValidTeamID(oldID) && ValidTeamID(newID)
    requires RewrittenUpTo(data, out, oldID, newID, offset)
    requires start == Find(out, oldID, offset) && start <= |out|
    ensures offset <= start && start + TEAM_ID_LENGTH <= |out|
    ensures |PositionsFrom(data, oldID, offset)|
            == |PositionsFrom(data, oldID, start + TEAM_ID_LENGTH)|
               + if HasBoundary(out, start, start + TEAM_ID_LENGTH) then 1 else 0
    ensures RewrittenUpTo(data,
                          if HasBoundary(out, start, start + TEAM_ID_LENGTH)
                              then out[..start] + newID + out[start + TEAM_ID_LENGTH..] else out,
                          oldID, newID, start + TEAM_ID_LENGTH)
  {
    FindsFirst(out, oldID, offset);
    SameMatches(data, out, oldID, offset);
    SplitAtMatch(data, oldID, offset, start);
    StepKeepsRewrite(data, out, oldID, newID, offset, start);
  }

  lemma StepKeepsRewrite(data: seq<Byte>, out: seq<Byte>, oldID: seq<Byte>, newID: seq<Byte>, offset: nat, start: nat)
    requires ValidTeamID(oldID) && ValidTeamID(newID)
    requires RewrittenUpTo(data, out, oldID, newID, offset)
    requires start >= offset && OccursAt(data, oldID, start)
    requires forall i | offset <= i < start :: !OccursAt(data, oldID, i)
    ensures HasBoundary(out, start, start + TEAM_ID_LENGTH) == HasBoundary(data, start, start + TEAM_ID_LENGTH)
    ensures RewrittenUpTo(data,
                          if HasBoundary(data, start, start + TEAM_ID_LENGTH)
                              then out[..start] + newID + out[start + TEAM_ID_LENGTH..] else out,
                          oldID, newID, start + TEAM_ID_LENGTH)
  {
    if HasBoundary(data, start, start + TEAM_ID_LENGTH) {
      ReplaceKeepsRewrite(data, out, oldID, newID, offset, start);
    } else {
      SkipKeepsRewrite(data, out, oldID, newID, offset, start);
    }
  }

  lemma SkipKeepsRewrite(data: seq<Byte>, out: seq<Byte>, oldID: seq<Byte>, newID: seq<Byte>, offset: nat, start: nat)
    requires ValidTeamID(oldID) && ValidTeamID(newID)
    requires RewrittenUpTo(data, out, oldID, newID, offset)
    requires start >= offset && OccursAt(data, oldID, start) && !Standalone(data, oldID, start)
    requires forall i | offset <= i < start :: !OccursAt(data, oldID, i)
    ensures RewrittenUpTo(data, out, oldID, newID, start + TEAM_ID_LENGTH)
  {
    SkippingIsSafe(data, oldID, start);
  }

  lemma ReplaceKeepsRewrite(data: seq<Byte>, out: seq<Byte>, oldID: seq<Byte>, newID: seq<Byte>, offset: nat,
      start: nat)
    requires ValidTeamID(oldID) && ValidTeamID(newID)
    requires RewrittenUpTo(data, out, oldID, newID, offset)
    requires start >= offset && Standalone(data, oldID, start)
    requires forall i | offset <= i < start :: !OccursAt(data, oldID, i)
    ensures RewrittenUpTo(data, out[..start] + newID + out[start + TEAM_ID_LENGTH..],
                          oldID, newID, start + TEAM_ID_LENGTH)
  {
    var end := start + TEAM_ID_LENGTH;
    var next := out[..start] + newID + out[end..];
    assert |next| == |data| && forall i | end <= i < |data| :: next[i] == data[i];
    ReplaceKeepsMask(data, out, oldID, newID, start);
    ReplaceReachesAll(data, out, oldID, newID, offset, start);
    ReplaceTouchesOnly(data, out, oldID, newID, offset, start);
  }

  lemma ReplaceTouchesOnly(data: seq<Byte>, out: seq<Byte>, oldID: seq<Byte>, newID: seq<Byte>, offset: nat, start: nat)
    requires |oldID| == |newID| == TEAM_ID_LENGTH && |out| == |data| && offset <= start
             && Standalone(data, oldID, start)
    requires forall i | offset <= i < |data| :: out[i] == data[i]
    requires forall i | 0 <= i < offset && !Covered(data, oldID, i) :: out[i] == data[i]
    ensures var next := out[..start] + newID + out[start + TEAM_ID_LENGTH..];
            forall i | 0 <= i < start + TEAM_ID_LENGTH && !Covered(data, oldID, i) :: next[i] == data[i]
  {
    forall i | start <= i < start + TEAM_ID_LENGTH ensures Covered(data, oldID, i) {}
  }

  lemma ReplaceKeepsMask(data: seq<Byte>, out: seq<Byte>, oldID: seq<Byte>, newID: seq<Byte>, start: nat)
    requires ValidTeamID(oldID) && ValidTeamID(newID) && |out| == |data| && OccursAt(data, oldID, start)
    requires forall i | 0 <= i < |data| :: IsTokenByte(out[i]) == IsTokenByte(data[i])
    ensures var next := out[..start] + newID + out[start + TEAM_ID_LENGTH..];
            forall i | 0 <= i < |data| :: IsTokenByte(next[i]) == IsTokenByte(data[i])
  {
    var end := start + TEAM_ID_LENGTH;
    var next := out[..start] + newID + out[end..];
    forall i | 0 <= i < |data| ensures IsTokenByte(next[i]) == IsTokenByte(data[i]) {
      if start <= i < end {
        assert data[i] == data[start..end][i - start] && next[i] == newID[i - start];
      } else {
        assert next[i] == out[i];
      }
    }
  }

  lemma ReplaceReachesAll(data: seq<Byte>, out: seq<Byte>, oldID: seq<Byte>, newID: seq<Byte>, offset: nat, start: nat)
    requires ValidTeamID(oldID) && ValidTeamID(newID)
    requires RewrittenUpTo(data, out, oldID, newID, offset)
    requires start >= offset && OccursAt(data, oldID, start)
    requires forall i | offset <= i < start :: !OccursAt(data, oldID, i)
    ensures var next := out[..start] + newID + out[start + TEAM_ID_LENGTH..];
            forall p: nat | Standalone(data, oldID, p) ::
              p >= start + TEAM_ID_LENGTH || (p + TEAM_ID_LENGTH <= start + TEAM_ID_LENGTH && OccursAt(next, newID, p))
  {
    SkippingIsSafe(data, oldID, start);
    var end := start + TEAM_ID_LENGTH;
    var next := out[..start] + newID + out[end..];
    forall p: nat | Standalone(data, oldID, p) && p < end
        ensures p + TEAM_ID_LENGTH <= end && OccursAt(next, newID, p) {
      if p == start {
        assert next[start..end] == newID;
      } else {
        assert p + TEAM_ID_LENGTH <= start && OccursAt(out, newID, p);
        assert next[p..p + TEAM_ID_LENGTH] == out[p..p + TEAM_ID_LENGTH];
      }
    }
  }

  lemma RewriteEnds(data: seq<Byte>, out: seq<Byte>, oldID: seq<Byte>, newID: seq<Byte>, offset: nat)
    requires RewrittenUpTo(data, out, oldID, newID, offset) && Find(out, oldID, offset) > |out|
    ensures IsRewrite(data, out, oldID, newID) && |PositionsFrom(data, oldID, offset)| == 0
  {
    FindsFirst(out, oldID, offset);
    SameMatches(data, out, oldID, offset);
    assert PositionsFrom(data, oldID, offset) == {};
  }

  lemma SameMatches(data: seq<Byte>, out: seq<Byte>, id: seq<Byte>, offset: nat)
    requires |data| == |out| && offset <= |data| && forall i | offset <= i < |data| :: out[i] == data[i]
    ensures forall i: nat | i >= offset :: OccursAt(out, id, i) == OccursAt(data, id, i)
  {
    forall i: nat | i >= offset ensures OccursAt(out, id, i) == OccursAt(data, id, i) {
      if i + |id| <= |data| {
        assert out[i..i + |id|] == data[i..i + |id|];
      }
    }
  }
}
