// The order of version directories (internal/claudetee/claudetee.go).

module VersionOrder {
  import opened Numbers
  import opened StringOrder

  datatype Part = Number(number: int) | Text(text: string)

  // Go's int, which wraps around.
  function Wrap(n: int): (wrapped: int)
    ensures -TWO_TO_THE_63 <= wrapped < TWO_TO_THE_63
    ensures wrapped == n - TWO_TO_THE_64 * Turns(n)
  {
    (n + TWO_TO_THE_63) % TWO_TO_THE_64 - TWO_TO_THE_63
  }

  // How often a number has wrapped.
  function Turns(n: int): int {
    (n + TWO_TO_THE_63) / TWO_TO_THE_64
  }

  lemma WrapStep(n: int, d: int)
    ensures Wrap(Wrap(n) * 10 + d) == Wrap(n * 10 + d)
  {
    var k, m := Turns(n), n * 10 + d;
    assert Wrap(n) * 10 + d == m - TWO_TO_THE_64 * (10 * k);
    WrapOnce(m, 10 * k);
  }

  lemma WrapOnce(m: int, k: int)
    ensures Wrap(m - TWO_TO_THE_64 * k) == Wrap(m)
  {}

  // parseUint: None for anything but digits.
  method ParseUint(s: string) returns (ok: bool, n: int)
    ensures ok <==> s != "" && AllDigits(s)
    ensures ok ==> n == Wrap(DigitsValue(s))
  {
    if s == "" {
      return false, 0;
    }
    n := 0;
    for i := 0 to |s|
      invariant AllDigits(s[..i]) && n == Wrap(DigitsValue(s[..i]))
    {
      if s[i] < '0' || s[i] > '9' {
        return false, 0;
      }
      assert s[..i + 1][..i] == s[..i];
      WrapStep(DigitsValue(s[..i]), DigitValue(s[i]));
      n := Wrap(n * 10 + DigitValue(s[i]));
    }
    assert s[..|s|] == s;
    return true, n;
  }

  // It is the number that is spelled exactly when an int can hold that number.
  lemma ParseIsExact(s: string)
    requires AllDigits(s)
    ensures Wrap(DigitsValue(s)) == DigitsValue(s) <==> DigitsValue(s) <= MAX_INT64
  {
    assert DigitsValue(s) <= MAX_INT64 ==> Turns(DigitsValue(s)) == 0;
  }

  predicate IsSeparator(c: char) {
    c == '.' || c == '-' || c == '+'
  }

  function PartOf(segment: string): Part {
    if segment != "" && AllDigits(segment) then Number(Wrap(DigitsValue(segment))) else Text(segment)
  }

  // The segments before the last separator, without the empty ones, and the one after it.
  function Flushed(parts: seq<Part>, segment: string): seq<Part> {
    if segment == "" then parts else parts + [PartOf(segment)]
  }

  function LastSegment(s: string): string {
    if s == "" || IsSeparator(s[|s| - 1]) then "" else LastSegment(s[..|s| - 1]) + [s[|s| - 1]]
  }

  function EarlierParts(s: string): seq<Part>
    decreases |s|, 0
  {
    if s == "" then []
    else if IsSeparator(s[|s| - 1]) then Parts(s[..|s| - 1])
    else EarlierParts(s[..|s| - 1])
  }

  function Parts(s: string): seq<Part>
    decreases |s|, 1
  {
    Flushed(EarlierParts(s), LastSegment(s))
  }

  // splitVersion.
  method SplitVersion(s: string) returns (parts: seq<Part>)
    ensures parts == Parts(s)
  {
    parts := [];
    var currentPart := "";
    for i := 0 to |s|
      invariant parts == EarlierParts(s[..i]) && currentPart == LastSegment(s[..i])
    {
      assert s[..i + 1][..i] == s[..i];
      if IsSeparator(s[i]) {
        parts := Flush(parts, currentPart);
        currentPart := "";
      } else {
        currentPart := currentPart + [s[i]];
      }
    }
    assert s[..|s|] == s;
    parts := Flush(parts, currentPart);
  }

  method Flush(parts: seq<Part>, value: string) returns (flushed: seq<Part>)
    ensures flushed == Flushed(parts, value)
  {
    if value == "" {
      return parts;
    }
    var ok, n := ParseUint(value);
    return parts + [if ok then Number(n) else Text(value)];
  }

  function ComparePart(p: Part, q: Part): (sign: int)
    ensures -1 <= sign <= 1
  {
    match (p, q)
    case (Number(m), Number(n)) => if m == n then 0 else if m < n then -1 else 1
    case (Number(_), Text(_)) => -1
    case (Text(_), Number(_)) => 1
    case (Text(s), Text(t)) => if s == t then 0 else if TextLess(s, t) then -1 else 1
  }

  function CompareParts(a: seq<Part>, b: seq<Part>): (sign: int)
    ensures -1 <= sign <= 1
  {
    if a == [] && b == [] then 0
    else if a == [] then -1
    else if b == [] then 1
    else if ComparePart(a[0], b[0]) != 0 then ComparePart(a[0], b[0])
    else CompareParts(a[1..], b[1..])
  }

  function Compare(a: string, b: string): int {
    CompareParts(Parts(a), Parts(b))
  }

  // compareVersions.
  method CompareVersions(a: string, b: string) returns (sign: int)
    ensures sign == Compare(a, b)
  {
    var first := SplitVersion(a);
    var second := SplitVersion(b);
    var i := 0;
    while i < |first| && i < |second|
      invariant i <= |first| && i <= |second|
      invariant CompareParts(first, second) == CompareParts(first[i..], second[i..])
    {
      var p, q := first[i], second[i];
      assert first[i..][1..] == first[i + 1..] && second[i..][1..] == second[i + 1..];
      if p.Number? && q.Number? {
        if p.number != q.number {
          return if p.number < q.number then -1 else 1;
        }
      } else if p.Number? {
        return -1;
      } else if q.Number? {
        return 1;
      } else if p.text != q.text {
        return if TextLess(p.text, q.text) then -1 else 1;
      }
      i := i + 1;
    }
    if |first| != |second| {
      return if |first| < |second| then -1 else 1;
    }
    return 0;
  }

  // ----- What the parts of a version are.

  predicate IsSegment(s: string) {
    forall i | 0 <= i < |s| :: s[i] != '.' && s[i] != '-' && s[i] != '+'
  }

  // A segment without separators is one part, unless it is empty;
  lemma {:induction false} SegmentIsOnePart(s: string)
    requires IsSegment(s)
    ensures EarlierParts(s) == [] && LastSegment(s) == s
    ensures Parts(s) == if s == "" then [] else [PartOf(s)]
  {
    if s != "" {
      SegmentIsOnePart(s[..|s| - 1]);
      assert s == s[..|s| - 1] + [s[|s| - 1]];
    }
  }

  lemma {:induction false} SplitAtSeparator(a: string, separator: char, b: string)
    requires IsSeparator(separator)
    ensures EarlierParts(a + [separator] + b) == Parts(a) + EarlierParts(b)
    ensures LastSegment(a + [separator] + b) == LastSegment(b)
  {
    var s := a + [separator] + b;
    if b == "" {
      assert s[..|s| - 1] == a;
    } else {
      var front := b[..|b| - 1];
      assert s[..|s| - 1] == a + [separator] + front && s[|s| - 1] == b[|b| - 1];
      SplitAtSeparator(a, separator, front);
      if IsSeparator(b[|b| - 1]) {
        FlushLater(Parts(a), EarlierParts(front), LastSegment(front));
      }
    }
  }

  lemma FlushLater(before: seq<Part>, parts: seq<Part>, segment: string)
    ensures Flushed(before + parts, segment) == before + Flushed(parts, segment)
  {}

  // and a separator parts what is before it from what is after it.
  lemma PartsConcat(a: string, separator: char, b: string)
    requires separator == '.' || separator == '-' || separator == '+'
    ensures Parts(a + [separator] + b) == Parts(a) + Parts(b)
  {
    SplitAtSeparator(a, separator, b);
    FlushLater(Parts(a), EarlierParts(b), LastSegment(b));
  }

  // ----- A total preorder.

  lemma PartOrder(p: Part, q: Part, r: Part)
    ensures ComparePart(p, q) == -ComparePart(q, p)
    ensures ComparePart(p, q) == 0 <==> p == q
    ensures ComparePart(p, q) <= 0 && ComparePart(q, r) <= 0 ==> ComparePart(p, r) <= 0
  {
    if p.Text? && q.Text? {
      TextOrder(p.text, q.text, if r.Text? then r.text else "");
    }
  }

  lemma {:induction false} PartsAntisymmetric(a: seq<Part>, b: seq<Part>)
    ensures CompareParts(a, b) == -CompareParts(b, a)
    ensures CompareParts(a, b) == 0 <==> a == b
  {
    if a != [] && b != [] {
      PartOrder(a[0], b[0], b[0]);
      PartsAntisymmetric(a[1..], b[1..]);
      assert a == [a[0]] + a[1..] && b == [b[0]] + b[1..];
    }
  }

  lemma {:induction false} PartsTransitive(a: seq<Part>, b: seq<Part>, c: seq<Part>)
    requires CompareParts(a, b) <= 0 && CompareParts(b, c) <= 0
    ensures CompareParts(a, c) <= 0
  {
    if a != [] && b != [] && c != [] {
      PartOrder(a[0], b[0], c[0]);
      PartOrder(b[0], c[0], a[0]);
      PartOrder(a[0], c[0], b[0]);
      if ComparePart(a[0], b[0]) == 0 && ComparePart(b[0], c[0]) == 0 {
        PartsTransitive(a[1..], b[1..], c[1..]);
      }
    }
  }

  // The comparison is antisymmetric in sign, transitive, and 0 exactly for the same parts.
  lemma VersionsPreordered(a: string, b: string, c: string)
    ensures Compare(a, b) == -Compare(b, a)
    ensures Compare(a, b) <= 0 && Compare(b, c) <= 0 ==> Compare(a, c) <= 0
    ensures Compare(a, b) == 0 <==> Parts(a) == Parts(b)
  {
    PartsAntisymmetric(Parts(a), Parts(b));
    if Compare(a, b) <= 0 && Compare(b, c) <= 0 {
      PartsTransitive(Parts(a), Parts(b), Parts(c));
    }
  }

  // A part that sorts before another: a lesser number, any number before any text, a lesser text.
  predicate Before(p: Part, q: Part) {
    if p.Number? then q.Number? ==> p.number < q.number else q.Text? && TextLess(p.text, q.text)
  }

  // How many parts two versions have in common before they differ or one ends.
  ghost predicate CommonTo(a: seq<Part>, b: seq<Part>, k: nat) {
    k <= |a| && k <= |b| && a[..k] == b[..k] && (k < |a| && k < |b| ==> a[k] != b[k])
  }

  lemma {:induction false} CompareAt(a: seq<Part>, b: seq<Part>, k: nat)
    requires CommonTo(a, b, k)
    ensures CompareParts(a, b)
            == if k < |a| && k < |b| then if Before(a[k], b[k]) then -1 else 1
               else if k < |b| then -1 else if k < |a| then 1 else 0
  {
    if k > 0 {
      assert a[0] == a[..k][0] == b[..k][0] == b[0];
      assert a[1..][..k - 1] == a[..k][1..] && b[1..][..k - 1] == b[..k][1..];
      PartOrder(a[0], b[0], b[0]);
      CompareAt(a[1..], b[1..], k - 1);
    } else if a != [] && b != [] {
      BeforeOrder(a[0], b[0]);
    }
  }

  lemma BeforeOrder(p: Part, q: Part)
    requires p != q
    ensures ComparePart(p, q) == if Before(p, q) then -1 else 1
  {
    PartOrder(p, q, q);
  }

  // The first part in which two versions differ decides, and a version that runs on after the
  // parts of another is the greater.
  lemma FirstDifferenceDecides(a: string, b: string, k: nat)
    requires CommonTo(Parts(a), Parts(b), k)
    ensures var (p, q) := (Parts(a), Parts(b));
            && (k == |p| && k < |q| ==> Compare(a, b) == -1)
            && (k == |q| && k < |p| ==> Compare(a, b) == 1)
            && (k < |p| && k < |q| && p[k].Number? && q[k].Number? ==>
                  (Compare(a, b) == -1 <==> p[k].number < q[k].number))
            && (k < |p| && k < |q| && p[k].Number? && q[k].Text? ==> Compare(a, b) == -1)
            && (k < |p| && k < |q| && p[k].Text? && q[k].Number? ==> Compare(a, b) == 1)
            && (k < |p| && k < |q| && p[k].Text? && q[k].Text? ==>
                  (Compare(a, b) == -1 <==> TextLess(p[k].text, q[k].text)))
  {
    CompareAt(Parts(a), Parts(b), k);
  }

  // ----- The directory chosen.

  datatype DirEntry = DirEntry(name: string, isDir: bool)

  predicate IsCandidate(entry: DirEntry) {
    entry.isDir && entry.name != "" && entry.name[0] != '.'
  }

  function Candidates(entries: seq<DirEntry>): seq<string> {
    if entries == [] then [] else
      Candidates(entries[..|entries| - 1])
      + if IsCandidate(entries[|entries| - 1]) then [entries[|entries| - 1].name] else []
  }

  // The loop of listVersionDirs.
  method CollectCandidates(entries: seq<DirEntry>) returns (dirs: seq<string>)
    ensures dirs == Candidates(entries)
    ensures forall d :: d in dirs <==>
              d != "" && d[0] != '.' && exists i | 0 <= i < |entries| :: entries[i].isDir && entries[i].name == d
  {
    dirs := [];
    for i := 0 to |entries|
      invariant dirs == Candidates(entries[..i])
      invariant forall d :: d in dirs <==>
                  d != "" && d[0] != '.' && exists k | 0 <= k < i :: entries[k].isDir && entries[k].name == d
    {
      assert entries[..i + 1][..i] == entries[..i];
      var entry := entries[i];
      if !entry.isDir {
        continue;
      }
      if entry.name == "" || entry.name[0] == '.' {
        continue;
      }
      dirs := dirs + [entry.name];
    }
    assert entries[..|entries|] == entries;
  }

  // What sort.Slice leaves: the same names, no one less than the one before it.
  ghost predicate IsListing(entries: seq<DirEntry>, dirs: seq<string>) {
    && multiset(dirs) == multiset(Candidates(entries))
    && forall i | 0 <= i < |dirs| - 1 :: Compare(dirs[i + 1], dirs[i]) >= 0
  }

  lemma {:induction false} LaterIsGreater(dirs: seq<string>, i: nat, j: nat)
    requires forall k | 0 <= k < |dirs| - 1 :: Compare(dirs[k + 1], dirs[k]) >= 0
    requires i <= j < |dirs|
    ensures Compare(dirs[i], dirs[j]) <= 0
    decreases j - i
  {
    if i == j {
      VersionsPreordered(dirs[i], dirs[j], dirs[j]);
    } else {
      LaterIsGreater(dirs, i, j - 1);
      assert Compare(dirs[j - 1 + 1], dirs[j - 1]) >= 0;
      VersionsPreordered(dirs[j - 1], dirs[j], dirs[j]);
      VersionsPreordered(dirs[i], dirs[j - 1], dirs[j]);
    }
  }

  lemma SameNames(entries: seq<DirEntry>, dirs: seq<string>, d: string)
    requires IsListing(entries, dirs)
    ensures d in Candidates(entries) <==> d in dirs
  {
    assert d in Candidates(entries) <==> d in multiset(Candidates(entries));
    assert d in dirs <==> d in multiset(dirs);
  }

  lemma LastIsGreatest(dirs: seq<string>, d: string)
    requires forall k | 0 <= k < |dirs| - 1 :: Compare(dirs[k + 1], dirs[k]) >= 0
    requires d in dirs
    ensures Compare(d, dirs[|dirs| - 1]) <= 0
  {
    var i :| 0 <= i < |dirs| && dirs[i] == d;
    LaterIsGreater(dirs, i, |dirs| - 1);
  }

  // However the listing is sorted, the directory path resolution takes, the last, is one of
  // the candidates and no candidate is greater; any other greatest one has the same parts.
  lemma ChosenIsGreatest(entries: seq<DirEntry>, dirs: seq<string>, d: string)
    requires IsListing(entries, dirs) && d in Candidates(entries)
    ensures dirs != [] && dirs[|dirs| - 1] in Candidates(entries)
    ensures Compare(d, dirs[|dirs| - 1]) <= 0
    ensures Compare(d, dirs[|dirs| - 1]) == 0 <==> Parts(d) == Parts(dirs[|dirs| - 1])
  {
    SameNames(entries, dirs, d);
    var chosen := dirs[|dirs| - 1];
    SameNames(entries, dirs, chosen);
    LastIsGreatest(dirs, d);
    VersionsPreordered(d, chosen, d);
  }

  // ----- Numeric order.

  function Sign(n: int): int {
    if n < 0 then -1 else if n > 0 then 1 else 0
  }

  // That two numeric components compare as their numbers do.
  predicate Numerically(s: string, t: string)
    requires s != "" && t != "" && AllDigits(s) && AllDigits(t)
  {
    ComparePart(PartOf(s), PartOf(t)) == Sign(DigitsValue(s) - DigitsValue(t))
  }

  // A numeric component compares numerically with every one that fits an int exactly when it
  // fits an int itself.
  lemma ComparesNumericallyIff(s: string)
    requires s != "" && AllDigits(s)
    ensures (forall t: string | t != "" && AllDigits(t) && DigitsValue(t) <= MAX_INT64 :: Numerically(s, t))
            <==> DigitsValue(s) <= MAX_INT64
  {
    ParseIsExact(s);
    if DigitsValue(s) <= MAX_INT64 {
      forall t: string | t != "" && AllDigits(t) && DigitsValue(t) <= MAX_INT64 ensures Numerically(s, t) {
        ParseIsExact(t);
      }
    } else {
      var largest := Spelled(MAX_INT64);
      LargestBeatsHuge(s, largest);
    }
  }

  lemma Spelled(n: nat) returns (digits: string)
    ensures digits != "" && AllDigits(digits) && DigitsValue(digits) == n
  {
    digits := Decimal(n);
    DecimalValue(n);
  }

  // No wrapped number is greater than the largest int.
  lemma LargestBeatsHuge(s: string, largest: string)
    requires s != "" && AllDigits(s) && DigitsValue(s) > MAX_INT64
    requires largest != "" && AllDigits(largest) && DigitsValue(largest) == MAX_INT64
    ensures !Numerically(s, largest)
  {
    ParseIsExact(largest);
  }

  // Versions they do not: 2^64 + n is the same version as n, and a lesser one than n + 1.
  lemma HugeVersionIsSmall(n: nat)
    requires n < MAX_INT64
    ensures Compare(Decimal(TWO_TO_THE_64 + n), Decimal(n)) == 0
    ensures Compare(Decimal(TWO_TO_THE_64 + n), Decimal(n + 1)) == -1
  {
    var huge := TWO_TO_THE_64 + n;
    assert Wrap(huge) == n && Wrap(n) == n && Wrap(n + 1) == n + 1;
    CompareNumbers(huge, n);
    CompareNumbers(huge, n + 1);
  }

  // Versions that are one number compare as these numbers, wrapped.
  lemma CompareNumbers(m: nat, n: nat)
    ensures Compare(Decimal(m), Decimal(n)) == Sign(Wrap(m) - Wrap(n))
  {
    DigitsAreOnePart(Decimal(m));
    DigitsAreOnePart(Decimal(n));
    DecimalValue(m);
    DecimalValue(n);
    OnePart(Number(Wrap(m)), Number(Wrap(n)));
  }

  lemma OnePart(p: Part, q: Part)
    ensures CompareParts([p], [q]) == ComparePart(p, q)
  {
    assert [p][1..] == [] && [q][1..] == [];
  }

  lemma DigitsAreOnePart(s: string)
    requires s != "" && AllDigits(s)
    ensures Parts(s) == [PartOf(s)]
  {
    SegmentIsOnePart(s);
  }
}
