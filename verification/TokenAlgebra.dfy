// The algebra of the team-ID rewrite: what it leaves to count, doing it twice, undoing it.

module TokenAlgebra {
  import opened Bytes
  import opened Text
  import opened TeamToken

  // A rewrite keeps token bytes and other bytes where they were, so it keeps maximal runs.
  lemma RewriteKeepsMask(data: seq<Byte>, out: seq<Byte>, oldID: seq<Byte>, newID: seq<Byte>)
    requires ValidTeamID(oldID) && ValidTeamID(newID) && IsRewrite(data, out, oldID, newID)
    ensures forall i | 0 <= i < |data| :: IsTokenByte(out[i]) == IsTokenByte(data[i])
    ensures forall p: nat :: MaximalRun(out, p) == MaximalRun(data, p)
  {
    forall i | 0 <= i < |data| ensures IsTokenByte(out[i]) == IsTokenByte(data[i]) {
      if Covered(data, oldID, i) {
        var p: nat :| Standalone(data, oldID, p) && p <= i < p + |oldID|;
        assert data[i] == data[p..p + TEAM_ID_LENGTH][i - p] && out[i] == out[p..p + TEAM_ID_LENGTH][i - p];
      }
    }
  }

  // On a maximal run a rewrite replaces the whole ID or nothing.
  lemma RewriteOfRun(data: seq<Byte>, out: seq<Byte>, oldID: seq<Byte>, newID: seq<Byte>, p: nat)
    requires ValidTeamID(oldID) && ValidTeamID(newID) && IsRewrite(data, out, oldID, newID) && MaximalRun(data, p)
    ensures var run := data[p..p + TEAM_ID_LENGTH];
            out[p..p + TEAM_ID_LENGTH] == if run == oldID then newID else run
  {
    var run := data[p..p + TEAM_ID_LENGTH];
    StandaloneIsMaximalRun(data, oldID, p);
    if run != oldID {
      forall i | p <= i < p + TEAM_ID_LENGTH ensures out[i] == data[i] {
        if Covered(data, oldID, i) {
          var q: nat :| Standalone(data, oldID, q) && q <= i < q + |oldID|;
          StandaloneIsMaximalRun(data, oldID, q);
          if p < q { RunsAreDisjoint(data, p, q); } else if q < p { RunsAreDisjoint(data, q, p); }
        }
      }
      assert out[p..p + TEAM_ID_LENGTH] == run;
    }
  }

  // After a rewrite no old ID stands alone, and the new ID stands alone where it did and
  // where the old one did.
  lemma RewriteMovesPositions(data: seq<Byte>, out: seq<Byte>, oldID: seq<Byte>, newID: seq<Byte>)
    requires ValidTeamID(oldID) && ValidTeamID(newID) && oldID != newID && IsRewrite(data, out, oldID, newID)
    ensures Positions(out, oldID) == {}
    ensures Positions(out, newID) == Positions(data, newID) + Positions(data, oldID)
    ensures Positions(data, newID) !! Positions(data, oldID)
    ensures |Positions(out, newID)| == |Positions(data, newID)| + |Positions(data, oldID)|
  {
    RewriteKeepsMask(data, out, oldID, newID);
    forall p: nat
      ensures !Standalone(out, oldID, p)
      ensures Standalone(out, newID, p) <==> Standalone(data, newID, p) || Standalone(data, oldID, p)
      ensures !(Standalone(data, newID, p) && Standalone(data, oldID, p))
    {
      StandaloneIsMaximalRun(out, oldID, p);
      StandaloneIsMaximalRun(out, newID, p);
      StandaloneIsMaximalRun(data, oldID, p);
      StandaloneIsMaximalRun(data, newID, p);
      if MaximalRun(data, p) {
        RewriteOfRun(data, out, oldID, newID, p);
      }
    }
    assert Positions(out, newID) == Positions(data, newID) + Positions(data, oldID);
  }

  // The meaning of a rewrite determines it.
  lemma RewriteUnique(data: seq<Byte>, out: seq<Byte>, other: seq<Byte>, oldID: seq<Byte>, newID: seq<Byte>)
    requires |oldID| == |newID|
    requires IsRewrite(data, out, oldID, newID) && IsRewrite(data, other, oldID, newID)
    ensures out == other
  {
    forall i | 0 <= i < |data| ensures out[i] == other[i] {
      if Covered(data, oldID, i) {
        var p: nat :| Standalone(data, oldID, p) && p <= i < p + |oldID|;
        assert out[i] == out[p..p + |newID|][i - p] && other[i] == other[p..p + |newID|][i - p];
      }
    }
  }

  // Rewriting again changes nothing.
  lemma RewriteAgain(data: seq<Byte>, out: seq<Byte>, again: seq<Byte>, oldID: seq<Byte>, newID: seq<Byte>)
    requires ValidTeamID(oldID) && ValidTeamID(newID) && oldID != newID
    requires IsRewrite(data, out, oldID, newID) && IsRewrite(out, again, oldID, newID)
    ensures again == out
  {
    RewriteMovesPositions(data, out, oldID, newID);
    NowhereStandalone(out, oldID);
    assert forall i | 0 <= i < |out| :: !Covered(out, oldID, i);
  }

  lemma NowhereStandalone(data: seq<Byte>, id: seq<Byte>)
    requires Positions(data, id) == {}
    ensures forall p: nat :: !Standalone(data, id, p)
  {
    forall p: nat ensures !Standalone(data, id, p) {
      assert p !in Positions(data, id);
    }
  }

  // Rewriting back restores the input exactly when no new ID stood alone in it.
  lemma RewriteBack(data: seq<Byte>, out: seq<Byte>, back: seq<Byte>, oldID: seq<Byte>, newID: seq<Byte>)
    requires ValidTeamID(oldID) && ValidTeamID(newID) && oldID != newID
    requires IsRewrite(data, out, oldID, newID) && IsRewrite(out, back, newID, oldID)
    ensures back == data <==> Positions(data, newID) == {}
  {
    RewriteMovesPositions(data, out, oldID, newID);
    RewriteMovesPositions(out, back, newID, oldID);
    if Positions(data, newID) == {} {
      assert Positions(out, newID) == Positions(data, oldID);
      forall i | 0 <= i < |data| ensures back[i] == data[i] {
        BackAt(data, out, back, oldID, newID, i);
      }
    }
  }

  lemma BackAt(data: seq<Byte>, out: seq<Byte>, back: seq<Byte>, oldID: seq<Byte>, newID: seq<Byte>, i: nat)
    requires ValidTeamID(oldID) && ValidTeamID(newID)
    requires IsRewrite(data, out, oldID, newID) && IsRewrite(out, back, newID, oldID)
    requires Positions(out, newID) == Positions(data, oldID) && i < |data|
    ensures back[i] == data[i]
  {
    SamePositionsCover(data, out, oldID, newID, i);
    if Covered(data, oldID, i) {
      var p: nat :| Standalone(data, oldID, p) && p <= i < p + |oldID|;
      assert p in Positions(data, oldID) && p in Positions(out, newID);
      WindowsAgree(data, back, oldID, p, i);
    }
  }

  lemma WindowsAgree(data: seq<Byte>, back: seq<Byte>, id: seq<Byte>, p: nat, i: nat)
    requires OccursAt(data, id, p) && OccursAt(back, id, p) && p <= i < p + |id|
    ensures back[i] == data[i]
  {
    assert data[i] == data[p..p + |id|][i - p] && back[i] == back[p..p + |id|][i - p];
  }

  lemma SamePositionsCover(data: seq<Byte>, out: seq<Byte>, oldID: seq<Byte>, newID: seq<Byte>, i: nat)
    requires |oldID| == |newID| && Positions(out, newID) == Positions(data, oldID)
    ensures Covered(data, oldID, i) <==> Covered(out, newID, i)
  {
    if Covered(data, oldID, i) {
      var p: nat :| Standalone(data, oldID, p) && p <= i < p + |oldID|;
      assert p in Positions(data, oldID) && p in Positions(out, newID);
    }
    if Covered(out, newID, i) {
      var p: nat :| Standalone(out, newID, p) && p <= i < p + |newID|;
      assert p in Positions(out, newID) && p in Positions(data, oldID);
    }
  }

  // What the code reports over two runs: the second replaces nothing and says "already
  // patched" exactly when some new ID is there; the counts add up.
  method PatchTwice(data: seq<Byte>, oldID: seq<Byte>, newID: seq<Byte>)
      returns (first: RewriteResult, second: RewriteResult)
    requires ValidTeamID(oldID) && ValidTeamID(newID) && oldID != newID
    ensures first.Rewritten? && second.Rewritten?
    ensures second.out == first.out && second.replacements == 0
    ensures second.alreadyPatched <==> |Positions(data, newID)| + first.replacements > 0
    ensures |Positions(second.out, newID)| == |Positions(data, newID)| + first.replacements
  {
    first := ReplaceStandaloneTeamID(data, oldID, newID);
    second := ReplaceStandaloneTeamID(first.out, oldID, newID);
    RewriteMovesPositions(data, first.out, oldID, newID);
    RewriteAgain(data, first.out, second.out, oldID, newID);
  }
}
