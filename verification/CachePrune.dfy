// Pruning a Cargo artifact directory (internal/codexcli/build_identity.go): the newest hash
// variants of each crate stay, the others go.

module CachePrune {
  import opened Text

  datatype Artifact = Artifact(base: string, hash: string)

  predicate IsHex(c: char) {
    '0' <= c <= '9' || 'a' <= c <= 'f' || 'A' <= c <= 'F'
  }

  function HexRun(s: string): (n: nat)
    ensures n <= |s| && (forall i | 0 <= i < n :: IsHex(s[i])) && (n < |s| ==> !IsHex(s[n]))
  {
    if s != "" && IsHex(s[0]) then 1 + HexRun(s[1..]) else 0
  }

  // A dash at a position, at least eight hexadecimal digits, and then a dot or the end.
  predicate HashAt(name: string, dash: nat) {
    dash < |name| && name[dash] == '-' &&
    var run := HexRun(name[dash + 1..]);
    run >= 8 && (dash + 1 + run == |name| || name[dash + 1 + run] == '.')
  }

  // The last such dash before a position.
  function LastDash(name: string, before: nat): (dash: Option<nat>)
    requires before <= |name|
    ensures dash.Some? ==> dash.value < before && HashAt(name, dash.value)
    ensures forall i | (if dash.Some? then dash.value + 1 else 0) <= i < before :: !HashAt(name, i)
  {
    if before == 0 then None
    else if HashAt(name, before - 1) then Some(before - 1)
    else LastDash(name, before - 1)
  }

  // parseCargoArtifactName: the pattern's dots match no newline, and its prefix is greedy.
  function ParseName(name: string): Option<Artifact> {
    if '\n' in name then None else
      var dash := LastDash(name, |name|);
      if dash.None? then None else
        var hash := name[dash.value + 1..];
        Some(Artifact(name[..dash.value], hash[..HexRun(hash)]))
  }

  const HEX_DIGITS := "0123456789abcdefABCDEF"

  lemma HexDigits(c: char)
    ensures IsHex(c) <==> c in HEX_DIGITS
  {
    if IsHex(c) {
      var i := if c <= '9' then c as int - '0' as int else if c >= 'a' then c as int - 'a' as int + 10
               else c as int - 'A' as int + 16;
      assert HEX_DIGITS[i] == c;
    }
  }

  lemma HexAll(hash: string)
    ensures (forall i | 0 <= i < |hash| :: IsHex(hash[i])) <==> forall i | 0 <= i < |hash| :: hash[i] in HEX_DIGITS
  {
    forall i | 0 <= i < |hash| ensures IsHex(hash[i]) <==> hash[i] in HEX_DIGITS {
      HexDigits(hash[i]);
    }
  }

  // A name splits as the pattern says, with the longest prefix.
  ghost predicate Splits(name: string, artifact: Artifact, rest: string) {
    && name == artifact.base + "-" + artifact.hash + rest
    && |artifact.hash| >= 8 && (forall i | 0 <= i < |artifact.hash| :: artifact.hash[i] in HEX_DIGITS)
    && (rest == "" || rest[0] == '.')
    && '\n' !in name
  }

  lemma HexRunIs(hash: string, rest: string)
    requires forall i | 0 <= i < |hash| :: IsHex(hash[i])
    requires rest == "" || !IsHex(rest[0])
    ensures HexRun(hash + rest) == |hash|
  {
    var s := hash + rest;
    assert forall i | 0 <= i < |hash| :: IsHex(s[i]);
    assert rest != "" ==> !IsHex(s[|hash|]);
  }

  lemma SplitHasDash(name: string, artifact: Artifact, rest: string)
    requires Splits(name, artifact, rest)
    ensures HashAt(name, |artifact.base|)
    ensures name[..|artifact.base|] == artifact.base
    ensures name[|artifact.base| + 1..] == artifact.hash + rest
  {
    assert name[|artifact.base| + 1..] == artifact.hash + rest;
    HexAll(artifact.hash);
    HexDigits(if rest == "" then '.' else rest[0]);
    HexRunIs(artifact.hash, rest);
  }

  // A name parses as the split with the longest base, if it splits at all.
  lemma ParseIsLongestSplit(name: string, artifact: Artifact, rest: string)
    requires Splits(name, artifact, rest)
    ensures ParseName(name).Some? && |ParseName(name).value.base| >= |artifact.base|
    ensures |ParseName(name).value.base| == |artifact.base| ==> ParseName(name).value == artifact
  {
    SplitHasDash(name, artifact, rest);
    HexAll(artifact.hash);
    HexRunIs(artifact.hash, rest);
  }

  lemma ParsedSplits(name: string)
    requires ParseName(name).Some?
    ensures exists rest :: Splits(name, ParseName(name).value, rest)
  {
    var artifact := ParseName(name).value;
    var rest := name[|artifact.base| + 1 + |artifact.hash|..];
    assert name == artifact.base + "-" + artifact.hash + rest;
    HexAll(artifact.hash);
    assert Splits(name, artifact, rest);
  }

  // An entry of the directory and its modification time, if it can be had.
  datatype Entry = Entry(name: string, modTime: Option<int>)

  datatype Variant = Variant(paths: seq<string>, modTime: int)

  type Groups = map<string, map<string, Variant>>

  predicate IsArtifact(entry: Entry) {
    entry.modTime.Some? && ParseName(entry.name).Some?
  }

  // What one entry adds.
  function AddEntry(groups: Groups, entry: Entry): Groups {
    if !IsArtifact(entry) then groups else
      var artifact := ParseName(entry.name).value;
      var byHash := if artifact.base in groups then groups[artifact.base] else map[];
      var variant := if artifact.hash in byHash then byHash[artifact.hash] else Variant([], ZERO_TIME);
      groups[artifact.base := byHash[artifact.hash := Extended(variant, entry.name, entry.modTime.value)]]
  }

  // time.Time{}.
  const ZERO_TIME: int := 0

  function Extended(variant: Variant, name: string, modTime: int): Variant {
    Variant(variant.paths + [name], if modTime > variant.modTime then modTime else variant.modTime)
  }

  function Grouped(entries: seq<Entry>): Groups {
    if entries == [] then map[] else AddEntry(Grouped(entries[..|entries| - 1]), entries[|entries| - 1])
  }

  predicate Has(groups: Groups, artifact: Artifact) {
    artifact.base in groups && artifact.hash in groups[artifact.base]
  }

  // Which entries are an artifact's files.
  predicate IsFile(entry: Entry, artifact: Artifact) {
    IsArtifact(entry) && ParseName(entry.name).value == artifact
  }

  // The newest of an artifact's files.
  function Newest(entries: seq<Entry>, artifact: Artifact): int {
    if entries == [] then ZERO_TIME else
      var before, last := Newest(entries[..|entries| - 1], artifact), entries[|entries| - 1];
      if IsFile(last, artifact) && last.modTime.value > before then last.modTime.value else before
  }

  function FilesOf(entries: seq<Entry>, artifact: Artifact): seq<string> {
    if entries == [] then [] else
      FilesOf(entries[..|entries| - 1], artifact)
      + if IsFile(entries[|entries| - 1], artifact) then [entries[|entries| - 1].name] else []
  }

  // The groups hold each artifact that has a file, with its files and their newest time.
  lemma {:induction false} GroupedIs(entries: seq<Entry>, artifact: Artifact)
    ensures Has(Grouped(entries), artifact) <==> FilesOf(entries, artifact) != []
    ensures Has(Grouped(entries), artifact) ==>
              Grouped(entries)[artifact.base][artifact.hash]
                  == Variant(FilesOf(entries, artifact), Newest(entries, artifact))
    ensures !Has(Grouped(entries), artifact) ==> Newest(entries, artifact) == ZERO_TIME
  {
    if entries != [] {
      GroupedIs(entries[..|entries| - 1], artifact);
    }
  }

  lemma {:induction false} FilesAre(entries: seq<Entry>, artifact: Artifact, name: string)
    ensures name in FilesOf(entries, artifact)
            <==> exists i | 0 <= i < |entries| :: IsFile(entries[i], artifact) && entries[i].name == name
  {
    if entries != [] {
      var shorter := entries[..|entries| - 1];
      FilesAre(shorter, artifact, name);
      assert forall i | 0 <= i < |shorter| :: shorter[i] == entries[i];
    }
  }

  // The newest file is one of the files, and none is newer.
  lemma {:induction false} NewestIs(entries: seq<Entry>, artifact: Artifact)
    ensures forall i | 0 <= i < |entries| && IsFile(entries[i], artifact) ::
            entries[i].modTime.value <= Newest(entries, artifact)
    ensures Newest(entries, artifact) == ZERO_TIME
            || exists i | 0 <= i < |entries| ::
                IsFile(entries[i], artifact) && entries[i].modTime.value == Newest(entries, artifact)
  {
    if entries != [] {
      var shorter := entries[..|entries| - 1];
      NewestIs(shorter, artifact);
      assert forall i | 0 <= i < |shorter| :: shorter[i] == entries[i];
    }
  }

  // ----- Pruning.

  predicate SortedNewestFirst(byHash: map<string, Variant>, order: seq<string>) {
    && (forall i | 0 <= i < |order| :: order[i] in byHash)
    && forall i, j | 0 <= i < j < |order| :: byHash[order[i]].modTime >= byHash[order[j]].modTime
  }

  lemma NewestExists(byHash: map<string, Variant>, rest: set<string>) returns (newest: string)
    requires rest != {} && rest <= byHash.Keys
    ensures newest in rest && forall h | h in rest :: byHash[h].modTime <= byHash[newest].modTime
  {
    var first :| first in rest;
    newest := first;
    var others := rest - {first};
    if others != {} {
      var other := NewestExists(byHash, others);
      newest := if byHash[other].modTime > byHash[first].modTime then other else first;
    }
    forall h | h in rest ensures byHash[h].modTime <= byHash[newest].modTime {
      assert h == first || h in others;
    }
  }

  predicate Distinct(order: seq<string>) {
    forall i, j | 0 <= i < j < |order| :: order[i] != order[j]
  }

  lemma AppendDistinct(order: seq<string>, h: string)
    requires Distinct(order) && h !in order
    ensures Distinct(order + [h])
  {}

  // What sort.Slice leaves of a map's values: some order, newest first.
  method SortNewestFirst(byHash: map<string, Variant>) returns (order: seq<string>)
    ensures SortedNewestFirst(byHash, order)
    ensures Distinct(order) && forall h :: h in order <==> h in byHash
  {
    order := [];
    var rest := byHash.Keys;
    while rest != {}
      invariant rest <= byHash.Keys && forall h :: h in order <==> h in byHash.Keys - rest
      invariant Distinct(order)
      invariant SortedNewestFirst(byHash, order)
      invariant forall i, h | 0 <= i < |order| && h in rest :: byHash[order[i]].modTime >= byHash[h].modTime
      decreases |rest|
    {
      ghost var newest := NewestExists(byHash, rest);
      var h :| h in rest && forall g | g in rest :: byHash[g].modTime <= byHash[h].modTime;
      AppendDistinct(order, h);
      order := order + [h];
      rest := rest - {h};
    }
  }

  lemma {:induction false} SetOfDistinct(order: seq<string>)
    requires Distinct(order)
    ensures |set h | h in order| == |order|
  {
    if order != [] {
      var front, last := order[..|order| - 1], order[|order| - 1];
      SetOfDistinct(front);
      assert (set h | h in order) == (set h | h in front) + {last};
      assert last !in front;
    }
  }

  // The kept hashes of a crate: as many as there should be, and none older than one that goes.
  ghost predicate Keeps(byHash: map<string, Variant>, keep: nat, kept: set<string>) {
    && kept <= byHash.Keys
    && |kept| == (if |byHash| <= keep then |byHash| else keep)
    && forall h, g | h in kept && g in byHash.Keys - kept :: byHash[h].modTime >= byHash[g].modTime
  }

  class Directory {
    // What it listed, and what is there now.
    const entries: seq<Entry>
    var present: set<string>

    constructor (entries: seq<Entry>)
      ensures this.entries == entries && present == set e | e in entries :: e.name
    {
      this.entries := entries;
      present := set e | e in entries :: e.name;
    }

    // The grouping loop of pruneCargoArtifactDir.
    method Group() returns (groups: Groups)
      ensures groups == Grouped(entries)
    {
      groups := map[];
      for i := 0 to |entries|
        invariant groups == Grouped(entries[..i])
      {
        assert entries[..i + 1][..i] == entries[..i];
        groups := Add(groups, entries[i]);
      }
      assert entries[..|entries|] == entries;
    }

    // Its body: one entry.
    static method Add(groups: Groups, entry: Entry) returns (added: Groups)
      ensures added == AddEntry(groups, entry)
    {
      var artifact := ParseName(entry.name);
      if artifact.None? || entry.modTime.None? {
        return groups;
      }
      var base, hash := artifact.value.base, artifact.value.hash;
      var byHash := if base in groups then groups[base] else map[];
      var variant := if hash in byHash then byHash[hash] else Variant([], ZERO_TIME);
      variant := Extended(variant, entry.name, entry.modTime.value);
      return groups[base := byHash[hash := variant]];
    }

    // os.RemoveAll of each path of a variant; the paths in stuck cannot be removed.
    method RemovePaths(paths: seq<string>, stuck: set<string>) returns (failed: bool)
      modifies this
      ensures present == old(present) - ((set p | p in paths) - stuck)
      ensures failed <==> exists p :: p in paths && p in stuck
    {
      failed := false;
      for i := 0 to |paths|
        invariant present == old(present) - ((set p | p in paths[..i]) - stuck)
        invariant failed <==> exists p :: p in paths[..i] && p in stuck
      {
        if paths[i] in stuck {
          failed := true;
        } else {
          present := present - {paths[i]};
        }
      }
      assert paths[..|paths|] == paths;
    }

    // removeStaleVariants: how many variants went entirely.
    method RemoveStaleVariants(byHash: map<string, Variant>, keep: nat, stuck: set<string>)
        returns (removed: nat, ghost kept: set<string>)
      requires |byHash| > keep
      modifies this
      ensures Keeps(byHash, keep, kept)
      ensures forall p :: p in present <==> p in old(present) && (p in stuck || !Stale(byHash, kept, p))
      ensures removed == |Gone(byHash, kept, stuck)|
    {
      var order := SortNewestFirst(byHash);
      SetOfDistinct(order);
      assert (set h | h in order) == byHash.Keys;
      KeptIsNewest(byHash, order, keep);
      kept := set h | h in order[..keep];
      removed := RemoveVariants(byHash, order[keep..], stuck);
      assert forall p :: StaleBy(byHash, order[keep..], p) <==> Stale(byHash, kept, p);
      assert ClearedIn(byHash, order[keep..], stuck) == Gone(byHash, kept, stuck);
    }

    // Its loop over the variants after the newest.
    method RemoveVariants(byHash: map<string, Variant>, hashes: seq<string>, stuck: set<string>) returns (removed: nat)
      requires Distinct(hashes) && forall h | h in hashes :: h in byHash
      modifies this
      ensures forall p :: p in present <==> p in old(present) && (p in stuck || !StaleBy(byHash, hashes, p))
      ensures removed == |ClearedIn(byHash, hashes, stuck)|
    {
      removed := 0;
      for i := 0 to |hashes|
        invariant forall p :: p in present <==> p in old(present) && (p in stuck || !StaleBy(byHash, hashes[..i], p))
        invariant removed == |ClearedIn(byHash, hashes[..i], stuck)|
      {
        var failed := RemovePaths(byHash[hashes[i]].paths, stuck);
        StaleByOneMore(byHash, hashes, i);
        ClearedOneMore(byHash, hashes, i, stuck);
        if !failed {
          removed := removed + 1;
        }
      }
      assert hashes[..|hashes|] == hashes;
    }

    // The loop body of pruneCargoArtifactDir: one crate.
    method PruneCrate(byHash: map<string, Variant>, keep: nat, stuck: set<string>)
        returns (removed: nat, ghost kept: set<string>)
      modifies this
      ensures Keeps(byHash, keep, kept)
      ensures forall p :: p in present <==> p in old(present) && (p in stuck || !Stale(byHash, kept, p))
      ensures removed == |Gone(byHash, kept, stuck)|
    {
      if |byHash| <= keep {
        assert Gone(byHash, byHash.Keys, stuck) == {};
        return 0, byHash.Keys;
      }
      removed, kept := RemoveStaleVariants(byHash, keep, stuck);
    }

    // pruneCargoArtifactDir.
    method Prune(keep: nat, stuck: set<string>) returns (removed: nat, ghost kept: map<string, set<string>>)
      modifies this
      ensures kept.Keys == Grouped(entries).Keys
      ensures Pruned(Grouped(entries), old(present), keep, stuck, kept, present, removed)
    {
      var groups := Group();
      removed, kept := PruneCrates(groups, keep, stuck);
    }

    // Its loop over the crates.
    method PruneCrates(groups: Groups, keep: nat, stuck: set<string>)
        returns (removed: nat, ghost kept: map<string, set<string>>)
      modifies this
      ensures kept.Keys == groups.Keys
      ensures Pruned(groups, old(present), keep, stuck, kept, present, removed)
    {
      removed := 0;
      kept := map[];
      NonePruned(groups, present, keep, stuck, kept);
      var rest := groups.Keys;
      while rest != {}
        invariant rest <= groups.Keys && kept.Keys == groups.Keys - rest
        invariant Pruned(groups, old(present), keep, stuck, kept, present, removed)
        decreases |rest|
      {
        var base :| base in rest;
        rest := rest - {base};
        removed, kept := PruneNext(groups, base, keep, stuck, old(present), kept, removed);
      }
    }

    // Its body: one more crate.
    method PruneNext(groups: Groups, base: string, keep: nat, stuck: set<string>, ghost start: set<string>,
                     ghost kept: map<string, set<string>>, removed: nat)
        returns (total: nat, ghost more: map<string, set<string>>)
      requires base in groups && base !in kept
      requires Pruned(groups, start, keep, stuck, kept, present, removed)
      modifies this
      ensures more.Keys == kept.Keys + {base}
      ensures Pruned(groups, start, keep, stuck, more, present, total)
    {
      ghost var before := present;
      var n, hashes := PruneCrate(groups[base], keep, stuck);
      CrateMore(groups, start, keep, stuck, kept, before, removed, base, hashes, present, n);
      return removed + n, kept[base := hashes];
    }
  }

  ghost predicate StaleBy(byHash: map<string, Variant>, hashes: seq<string>, path: string) {
    exists h :: h in hashes && h in byHash && path in byHash[h].paths
  }

  ghost predicate Stale(byHash: map<string, Variant>, kept: set<string>, path: string) {
    exists h :: h in byHash && h !in kept && path in byHash[h].paths
  }

  ghost predicate Condemned(groups: Groups, kept: map<string, set<string>>, path: string) {
    exists b :: b in kept && b in groups && Stale(groups[b], kept[b], path)
  }

  // What pruning some crates leaves of a directory, and how many variants went entirely.
  ghost predicate Pruned(groups: Groups, start: set<string>, keep: nat, stuck: set<string>,
                         kept: map<string, set<string>>, present: set<string>, removed: nat) {
    && kept.Keys <= groups.Keys
    && (forall b | b in kept :: Keeps(groups[b], keep, kept[b]))
    && (forall p :: p in present <==> p in start && (p in stuck || !Condemned(groups, kept, p)))
    && removed == |AllGone(groups, kept, stuck)|
  }

  lemma NonePruned(groups: Groups, start: set<string>, keep: nat, stuck: set<string>, kept: map<string, set<string>>)
    requires kept == map[]
    ensures Pruned(groups, start, keep, stuck, kept, start, 0)
  {
    assert AllGone(groups, kept, stuck) == {};
  }

  lemma CrateMore(groups: Groups, start: set<string>, keep: nat, stuck: set<string>, kept: map<string, set<string>>,
                  present: set<string>, removed: nat, base: string, hashes: set<string>, now: set<string>, n: nat)
    requires Pruned(groups, start, keep, stuck, kept, present, removed) && base in groups && base !in kept
    requires Keeps(groups[base], keep, hashes) && n == |Gone(groups[base], hashes, stuck)|
    requires forall p :: p in now <==> p in present && (p in stuck || !Stale(groups[base], hashes, p))
    ensures Pruned(groups, start, keep, stuck, kept[base := hashes], now, removed + n)
  {
    CondemnedOneMore(groups, kept, base, hashes);
    GoneOneMore(groups, kept, base, hashes, stuck);
  }

  lemma CondemnedOneMore(groups: Groups, kept: map<string, set<string>>, base: string, hashes: set<string>)
    requires base in groups && base !in kept
    ensures forall p ::
              Condemned(groups, kept[base := hashes], p)
              <==> Condemned(groups, kept, p) || Stale(groups[base], hashes, p)
  {
    forall p
      ensures Condemned(groups, kept[base := hashes], p)
              <==> Condemned(groups, kept, p) || Stale(groups[base], hashes, p)
    {
      var more := kept[base := hashes];
      if b :| b in kept && b in groups && Stale(groups[b], kept[b], p) {
        assert b in more && more[b] == kept[b];
      }
      if Stale(groups[base], hashes, p) {
        assert base in more && more[base] == hashes;
      }
    }
  }

  lemma StaleByOneMore(byHash: map<string, Variant>, hashes: seq<string>, i: nat)
    requires i < |hashes| && hashes[i] in byHash
    ensures forall p ::
              StaleBy(byHash, hashes[..i + 1], p) <==> StaleBy(byHash, hashes[..i], p) || p in byHash[hashes[i]].paths
    ensures forall p | p in byHash[hashes[i]].paths :: StaleBy(byHash, hashes, p)
  {
    var before := hashes[..i];
    assert hashes[..i + 1] == before + [hashes[i]];
    assert forall h :: h in before + [hashes[i]] <==> h in before || h == hashes[i];
  }

  lemma KeptIsNewest(byHash: map<string, Variant>, order: seq<string>, keep: nat)
    requires SortedNewestFirst(byHash, order) && keep <= |order|
    requires Distinct(order) && forall h :: h in order <==> h in byHash
    ensures |order| == |byHash|
    ensures Keeps(byHash, keep, set h | h in order[..keep])
    ensures forall h :: h in order[keep..] <==> h in byHash && h !in order[..keep]
  {
    SetOfDistinct(order);
    assert (set h | h in order) == byHash.Keys;
    SetOfDistinct(order[..keep]);
    DistinctParts(order, keep);
    forall h, g | h in order[..keep] && g in order[keep..] ensures byHash[h].modTime >= byHash[g].modTime {
      EarlierIsNewer(byHash, order, keep, h, g);
    }
  }

  lemma DistinctParts(order: seq<string>, keep: nat)
    requires Distinct(order) && keep <= |order|
    ensures forall h :: h in order[keep..] <==> h in order && h !in order[..keep]
  {
    assert order == order[..keep] + order[keep..];
    assert forall i, j | 0 <= i < keep <= j < |order| :: order[i] != order[j];
  }

  lemma EarlierIsNewer(byHash: map<string, Variant>, order: seq<string>, keep: nat, h: string, g: string)
    requires SortedNewestFirst(byHash, order) && keep <= |order|
    requires h in order[..keep] && g in order[keep..]
    ensures byHash[h].modTime >= byHash[g].modTime
  {
    var i :| 0 <= i < keep && order[..keep][i] == h;
    var j :| 0 <= j < |order| - keep && order[keep..][j] == g;
    assert order[i] == h && order[keep + j] == g;
  }

  // ----- How many go.

  // None of a variant's paths is stuck.
  predicate Cleared(variant: Variant, stuck: set<string>) {
    forall p | p in variant.paths :: p !in stuck
  }

  ghost function ClearedIn(byHash: map<string, Variant>, hashes: seq<string>, stuck: set<string>): set<string> {
    set h | h in hashes && h in byHash && Cleared(byHash[h], stuck)
  }

  lemma ClearedOneMore(byHash: map<string, Variant>, hashes: seq<string>, i: nat, stuck: set<string>)
    requires i < |hashes| && Distinct(hashes) && hashes[i] in byHash
    ensures |ClearedIn(byHash, hashes[..i + 1], stuck)|
            == |ClearedIn(byHash, hashes[..i], stuck)| + if Cleared(byHash[hashes[i]], stuck) then 1 else 0
  {
    var before, last := ClearedIn(byHash, hashes[..i], stuck), hashes[i];
    assert hashes[..i + 1] == hashes[..i] + [last];
    assert last !in hashes[..i];
    assert ClearedIn(byHash, hashes[..i + 1], stuck)
           == if Cleared(byHash[last], stuck) then before + {last} else before;
  }

  // The hashes of a crate that go entirely,
  ghost function Gone(byHash: map<string, Variant>, kept: set<string>, stuck: set<string>): set<string> {
    set h | h in byHash && h !in kept && Cleared(byHash[h], stuck)
  }

  // and those of all crates pruned so far.
  ghost function AllGone(groups: Groups, kept: map<string, set<string>>, stuck: set<string>): set<Artifact> {
    set b, h | b in kept && b in groups && h in groups[b] && h !in kept[b] && Cleared(groups[b][h], stuck) ::
      Artifact(b, h)
  }

  lemma {:induction false} AsManyArtifacts(base: string, hashes: set<string>)
    ensures |set h | h in hashes :: Artifact(base, h)| == |hashes|
  {
    var all := set h | h in hashes :: Artifact(base, h);
    if hashes == {} {
      assert all == {};
    } else {
      var one :| one in hashes;
      AsManyArtifacts(base, hashes - {one});
      assert all == (set h | h in hashes - {one} :: Artifact(base, h)) + {Artifact(base, one)};
    }
  }

  lemma GoneOneMore(groups: Groups, kept: map<string, set<string>>, base: string, hashes: set<string>,
                    stuck: set<string>)
    requires base in groups && base !in kept
    ensures |AllGone(groups, kept[base := hashes], stuck)|
            == |AllGone(groups, kept, stuck)| + |Gone(groups[base], hashes, stuck)|
  {
    var gone := Gone(groups[base], hashes, stuck);
    var more := set h | h in gone :: Artifact(base, h);
    AsManyArtifacts(base, gone);
    AllGoneSplits(groups, kept, base, hashes, stuck);
    assert more !! AllGone(groups, kept, stuck);
  }

  lemma AllGoneSplits(groups: Groups, kept: map<string, set<string>>, base: string, hashes: set<string>,
                      stuck: set<string>)
    requires base in groups && base !in kept
    ensures AllGone(groups, kept[base := hashes], stuck)
            == AllGone(groups, kept, stuck) + set h | h in Gone(groups[base], hashes, stuck) :: Artifact(base, h)
  {
    var more := kept[base := hashes];
    forall a
      ensures a in AllGone(groups, more, stuck)
              <==> a in AllGone(groups, kept, stuck)
                   || a in set h | h in Gone(groups[base], hashes, stuck) :: Artifact(base, h)
    {
      assert a.base != base ==> (a.base in more <==> a.base in kept);
    }
  }

  // The same of a directory's entries: the variants with files that are not kept and have no
  // file that is stuck.
  ghost predicate GoesEntirely(entries: seq<Entry>, kept: map<string, set<string>>, stuck: set<string>, a: Artifact) {
    && IsVariant(entries, a) && a.base in kept && a.hash !in kept[a.base]
    && forall i | 0 <= i < |entries| && IsFile(entries[i], a) :: entries[i].name !in stuck
  }

  lemma AllGoneAre(entries: seq<Entry>, kept: map<string, set<string>>, stuck: set<string>, a: Artifact)
    requires kept.Keys == Grouped(entries).Keys
    ensures a in AllGone(Grouped(entries), kept, stuck) <==> GoesEntirely(entries, kept, stuck, a)
  {
    VariantsAre(entries, a);
    GroupedIs(entries, a);
    if Has(Grouped(entries), a) {
      var variant := Grouped(entries)[a.base][a.hash];
      forall p ensures p in variant.paths <==> exists i | 0 <= i < |entries| ::
                                                 IsFile(entries[i], a) && entries[i].name == p
      {
        FilesAre(entries, a, p);
      }
      assert Cleared(variant, stuck)
             <==> forall i | 0 <= i < |entries| && IsFile(entries[i], a) :: entries[i].name !in stuck;
    }
  }

  // The path of a file condemns it exactly when its name parses to an artifact of its crate
  // whose hash is not kept: names that are not artifacts, and entries whose time cannot be
  // had, are never condemned.
  lemma CondemnedAre(entries: seq<Entry>, kept: map<string, set<string>>, path: string)
    requires kept.Keys == Grouped(entries).Keys
    ensures Condemned(Grouped(entries), kept, path)
            <==> exists i | 0 <= i < |entries| :: entries[i].name == path && IsArtifact(entries[i]) && Goes(kept, path)
  {
    var groups := Grouped(entries);
    if Condemned(groups, kept, path) {
      var b :| b in kept && b in groups && Stale(groups[b], kept[b], path);
      var h :| h in groups[b] && h !in kept[b] && path in groups[b][h].paths;
      GroupedIs(entries, Artifact(b, h));
      FilesAre(entries, Artifact(b, h), path);
    }
    if i :| 0 <= i < |entries| && entries[i].name == path && IsArtifact(entries[i]) && Goes(kept, path) {
      var artifact := ParseName(path).value;
      GroupedIs(entries, artifact);
      FilesAre(entries, artifact, path);
      assert Stale(groups[artifact.base], kept[artifact.base], path);
    }
  }

  ghost predicate Goes(kept: map<string, set<string>>, path: string) {
    match ParseName(path)
    case None => false
    case Some(artifact) => artifact.base in kept && artifact.hash !in kept[artifact.base]
  }

  // The hash variants of a crate that have files.
  ghost predicate IsVariant(entries: seq<Entry>, artifact: Artifact) {
    exists i | 0 <= i < |entries| :: IsFile(entries[i], artifact)
  }

  lemma VariantsAre(entries: seq<Entry>, artifact: Artifact)
    ensures Has(Grouped(entries), artifact) <==> IsVariant(entries, artifact)
  {
    GroupedIs(entries, artifact);
    var files := FilesOf(entries, artifact);
    if files != [] {
      FilesAre(entries, artifact, files[0]);
    }
    if i :| 0 <= i < |entries| && IsFile(entries[i], artifact) {
      FilesAre(entries, artifact, entries[i].name);
    }
  }

  // Pruning a directory, said of its entries: each crate keeps as many hash variants as it
  // should, with all their files, and they are at least as new as those that went; a path is
  // gone exactly when it is a file of a variant that is not kept and could be removed.
  method PruneDirectory(dir: Directory, keep: nat, stuck: set<string>)
      returns (removed: nat, ghost kept: map<string, set<string>>)
    modifies dir
    ensures kept.Keys == Grouped(dir.entries).Keys
    ensures forall base, hash ::
              IsVariant(dir.entries, Artifact(base, hash)) <==> base in kept && hash in Grouped(dir.entries)[base]
    ensures forall base | base in kept :: kept[base] <= Grouped(dir.entries)[base].Keys
    ensures forall base | base in kept ::
              |kept[base]| == if |Grouped(dir.entries)[base]| <= keep then |Grouped(dir.entries)[base]| else keep
    ensures forall base, h, g |
              base in kept && h in kept[base] && g in Grouped(dir.entries)[base] && g !in kept[base] ::
              Newest(dir.entries, Artifact(base, h)) >= Newest(dir.entries, Artifact(base, g))
    ensures forall p :: p in dir.present <==>
              && p in old(dir.present)
              && (p in stuck || !exists i | 0 <= i < |dir.entries| ::
                  dir.entries[i].name == p && IsArtifact(dir.entries[i]) && Goes(kept, p))
    ensures exists gone: set<Artifact> ::
              removed == |gone| && forall a :: a in gone <==> GoesEntirely(dir.entries, kept, stuck, a)
  {
    ghost var entries := dir.entries;
    removed, kept := dir.Prune(keep, stuck);
    ghost var gone := AllGone(Grouped(entries), kept, stuck);
    forall a ensures a in gone <==> GoesEntirely(entries, kept, stuck, a) {
      AllGoneAre(entries, kept, stuck, a);
    }
    forall p ensures Condemned(Grouped(entries), kept, p)
                     <==> exists i | 0 <= i < |entries| ::
                         entries[i].name == p && IsArtifact(entries[i]) && Goes(kept, p)
    {
      CondemnedAre(entries, kept, p);
    }
    forall base, hash ensures IsVariant(entries, Artifact(base, hash))
        <==> base in kept && hash in Grouped(entries)[base] {
      VariantsAre(entries, Artifact(base, hash));
    }
    forall base, h, g | base in kept && h in kept[base] && g in Grouped(entries)[base] && g !in kept[base]
      ensures Newest(entries, Artifact(base, h)) >= Newest(entries, Artifact(base, g))
    {
      assert Keeps(Grouped(entries)[base], keep, kept[base]);
      GroupedIs(entries, Artifact(base, h));
      GroupedIs(entries, Artifact(base, g));
    }
  }
}
