// The package version of a build (internal/codexcli/build_identity.go): printing it,
// validating it, and reading its parts back.

module BuildIdentity {
  import opened Numbers
  import opened Text

  datatype Identity = Identity(
    baseVersion: string, packageVersion: string, treeStamp: string, head: string, tree: string, buildHash: string)

  // shortTreeIdentifier.
  function ShortTree(tree: string): (short: string)
    ensures short <= tree && |short| <= 12 && (|short| < 12 ==> short == tree)
  {
    if |tree| >= 12 then tree[..12] else tree
  }

  function Print(base: string, head: string, treeStamp: string, buildHash: string): string {
    base + "-main." + (head + "+tree." + (treeStamp + ".build." + buildHash))
  }

  // newBuildIdentity; the build hash, a digest of these and of the build's target, mode,
  // variant and command, is given.
  function NewBuildIdentity(base: string, head: string, tree: string, buildHash: string): Identity {
    Identity(base, Print(base, head, ShortTree(tree), buildHash), ShortTree(tree), head, tree, buildHash)
  }

  // strings.Split(value, ".").
  function SplitDots(value: string): (parts: seq<string>)
    ensures parts != []
  {
    if value == "" then [""]
    else
      var rest := SplitDots(value[1..]);
      if value[0] == '.' then [""] + rest else [[value[0]] + rest[0]] + rest[1..]
  }

  // parseVersionPart: digits that make an int.
  predicate IsVersionPart(part: string) {
    part != "" && AllDigits(part) && DigitsValue(part) <= MAX_INT64
  }

  // isStableSemverCore.
  predicate IsStableCore(value: string) {
    var parts := SplitDots(value);
    |parts| == 3 && IsVersionPart(parts[0]) && IsVersionPart(parts[1]) && IsVersionPart(parts[2])
  }

  // The length of a character in UTF-8.
  function CharBytes(c: char): (bytes: nat)
    ensures 1 <= bytes <= 4 && c as int < [0x80, 0x800, 0x1_0000, 0x11_0000][bytes - 1]
    ensures bytes > 1 ==> c as int >= [0x80, 0x800, 0x1_0000][bytes - 2]
  {
    if c < 0x80 as char then 1 else if c < 0x800 as char then 2 else if c < 0x1_0000 as char then 3 else 4
  }

  // len, which counts bytes.
  function Bytes(value: string): nat {
    if value == "" then 0 else CharBytes(value[0]) + Bytes(value[1..])
  }

  predicate IsAscii(value: string) {
    forall i | 0 <= i < |value| :: value[i] < 0x80 as char
  }

  lemma {:induction false} AsciiBytes(value: string)
    requires IsAscii(value)
    ensures Bytes(value) == |value|
  {
    if value != "" {
      AsciiBytes(value[1..]);
    }
  }

  // isLowerHex. It takes every decimal digit of Unicode; wide says which characters beyond
  // ASCII these are.
  predicate IsLowerHex(c: char, wide: char -> bool) {
    IsDigit(c) || 'a' <= c <= 'f' || (c >= 0x80 as char && wide(c))
  }

  // isHexIdentifier, of the length used throughout.
  predicate IsHex12(value: string, wide: char -> bool) {
    Bytes(value) == 12 && forall i | 0 <= i < |value| :: IsLowerHex(value[i], wide)
  }

  const HEX_DIGITS := "0123456789abcdef"

  // The same with the digits written out.
  predicate TwelveHex(value: string, wide: char -> bool) {
    && Bytes(value) == 12
    && forall i | 0 <= i < |value| :: value[i] in HEX_DIGITS || (value[i] > '\U{7F}' && wide(value[i]))
  }

  lemma HexDigits(c: char, wide: char -> bool)
    ensures IsLowerHex(c, wide) <==> c in HEX_DIGITS || (c > '\U{7F}' && wide(c))
  {
    if IsDigit(c) {
      assert HEX_DIGITS[c as int - '0' as int] == c;
    } else if 'a' <= c <= 'f' {
      assert HEX_DIGITS[c as int - 'a' as int + 10] == c;
    }
  }

  lemma HexIs(value: string, wide: char -> bool)
    ensures IsHex12(value, wide) <==> TwelveHex(value, wide)
  {
    forall i | 0 <= i < |value|
      ensures IsLowerHex(value[i], wide) <==> value[i] in HEX_DIGITS || (value[i] > '\U{7F}' && wide(value[i]))
    {
      HexDigits(value[i], wide);
    }
  }

  datatype Problem =
    | MissingPrerelease | InvalidBase | MissingTree | InvalidHead | MissingBuildHash | InvalidTree | InvalidBuildHash

  // validateStampedPackageVersion: the first problem.
  function Validate(version: string, wide: char -> bool): Option<Problem> {
    match CutAt(version, "-main.")
    case Uncut => Some(MissingPrerelease)
    case Cut(base, rest) =>
      if !IsStableCore(base) then Some(InvalidBase) else ValidateRest(rest, wide)
  }

  function ValidateRest(rest: string, wide: char -> bool): Option<Problem> {
    match CutAt(rest, "+tree.")
    case Uncut => Some(MissingTree)
    case Cut(head, metadata) =>
      if !IsHex12(head, wide) then Some(InvalidHead) else ValidateMetadata(metadata, wide)
  }

  function ValidateMetadata(metadata: string, wide: char -> bool): Option<Problem> {
    match CutAt(metadata, ".build.")
    case Uncut => Some(MissingBuildHash)
    case Cut(tree, buildHash) =>
      if !IsHex12(tree, wide) then Some(InvalidTree)
      else if !IsHex12(buildHash, wide) then Some(InvalidBuildHash)
      else None
  }

  // ----- The grammar.

  predicate WellFormed(base: string, head: string, treeStamp: string, buildHash: string, wide: char -> bool) {
    IsStableCore(base) && IsHex12(head, wide) && IsHex12(treeStamp, wide) && IsHex12(buildHash, wide)
  }

  // Parts have only the characters of the whole.
  lemma {:induction false} DotsAndDigits(value: string)
    requires forall i | 0 <= i < |SplitDots(value)| :: AllDigits(SplitDots(value)[i])
    ensures forall i | 0 <= i < |value| :: value[i] == '.' || IsDigit(value[i])
  {
    if value != "" {
      var rest, parts := SplitDots(value[1..]), SplitDots(value);
      if value[0] == '.' {
        assert forall i | 0 <= i < |rest| :: rest[i] == parts[i + 1];
      } else {
        assert parts[0] == [value[0]] + rest[0] && IsDigit(parts[0][0]);
        assert forall i | 0 <= i < |rest[0]| :: rest[0][i] == parts[0][i + 1];
        assert forall i | 1 <= i < |rest| :: rest[i] == parts[i];
      }
      DotsAndDigits(value[1..]);
    }
  }

  lemma CoreCharacters(base: string)
    requires IsStableCore(base)
    ensures '-' !in base && '+' !in base
  {
    DotsAndDigits(base);
  }

  // The cuts recover what was printed.
  lemma CutsRecover(base: string, head: string, treeStamp: string, buildHash: string, wide: char -> bool)
    requires WellFormed(base, head, treeStamp, buildHash, wide)
    ensures var metadata := treeStamp + ".build." + buildHash;
            && CutAt(Print(base, head, treeStamp, buildHash), "-main.") == Cut(base, head + "+tree." + metadata)
            && CutAt(head + "+tree." + metadata, "+tree.") == Cut(head, metadata)
            && CutAt(metadata, ".build.") == Cut(treeStamp, buildHash)
  {
    CoreCharacters(base);
    CutRecovers(base, "-main.", head + "+tree." + (treeStamp + ".build." + buildHash));
    CutRecovers(head, "+tree.", treeStamp + ".build." + buildHash);
    CutRecovers(treeStamp, ".build.", buildHash);
  }

  ghost predicate Printed(version: string, base: string, head: string, treeStamp: string, buildHash: string,
                          wide: char -> bool) {
    WellFormed(base, head, treeStamp, buildHash, wide) && version == Print(base, head, treeStamp, buildHash)
  }

  // The validator accepts exactly the versions that can be printed from well-formed parts,
  // whatever digits there are beyond ASCII.
  lemma ValidIffPrinted(version: string, wide: char -> bool)
    ensures Validate(version, wide).None?
            <==> exists base, head, treeStamp, buildHash :: Printed(version, base, head, treeStamp, buildHash, wide)
  {
    if Validate(version, wide).None? {
      var outer := CutAt(version, "-main.");
      var inner := CutAt(outer.after, "+tree.");
      var last := CutAt(inner.after, ".build.");
      assert Printed(version, outer.before, inner.before, last.before, last.after, wide);
    }
    if base, head, treeStamp, buildHash :| Printed(version, base, head, treeStamp, buildHash, wide) {
      CutsRecover(base, head, treeStamp, buildHash, wide);
    }
  }

  // And each from one choice of parts.
  lemma PrintIsInjective(version: string, b1: string, h1: string, t1: string, x1: string,
                         b2: string, h2: string, t2: string, x2: string, wide: char -> bool)
    requires Printed(version, b1, h1, t1, x1, wide) && Printed(version, b2, h2, t2, x2, wide)
    ensures b1 == b2 && h1 == h2 && t1 == t2 && x1 == x2
  {
    CutsRecover(b1, h1, t1, x1, wide);
    CutsRecover(b2, h2, t2, x2, wide);
  }

  ghost predicate Sound(base: string, head: string, tree: string, buildHash: string, wide: char -> bool) {
    WellFormed(base, head, ShortTree(tree), buildHash, wide)
  }

  // Every sound identity prints to a version that is accepted; identities with one package
  // version, the key under which a release is reused, agree in the four parts it names.
  lemma PackageVersionIsKey(base: string, head: string, tree: string, buildHash: string,
                            otherBase: string, otherHead: string, otherTree: string, otherHash: string,
                            wide: char -> bool)
    requires Sound(base, head, tree, buildHash, wide) && Sound(otherBase, otherHead, otherTree, otherHash, wide)
    ensures var identity := NewBuildIdentity(base, head, tree, buildHash);
            var other := NewBuildIdentity(otherBase, otherHead, otherTree, otherHash);
            && Validate(identity.packageVersion, wide).None?
            && (identity.packageVersion == other.packageVersion
                <==> && base == otherBase && head == otherHead
                     && identity.treeStamp == other.treeStamp && buildHash == otherHash)
  {
    var version := NewBuildIdentity(base, head, tree, buildHash).packageVersion;
    assert Printed(version, base, head, ShortTree(tree), buildHash, wide);
    ValidIffPrinted(version, wide);
    if version == NewBuildIdentity(otherBase, otherHead, otherTree, otherHash).packageVersion {
      PrintIsInjective(version, base, head, ShortTree(tree), buildHash,
                       otherBase, otherHead, ShortTree(otherTree), otherHash, wide);
    }
  }

  // ----- Semantic versions, by items 2, 9 and 10 of Semantic Versioning 2.0.0.

  predicate IsIdentifier(part: string) {
    && part != ""
    && forall i | 0 <= i < |part| ::
         IsDigit(part[i]) || 'a' <= part[i] <= 'z' || 'A' <= part[i] <= 'Z' || part[i] == '-'
  }

  predicate LeadingZero(part: string) {
    |part| > 1 && AllDigits(part) && part[0] == '0'
  }

  predicate IsCore(core: string) {
    var parts := SplitDots(core);
    |parts| == 3 && forall i | 0 <= i < 3 :: parts[i] != "" && AllDigits(parts[i]) && !LeadingZero(parts[i])
  }

  predicate IsPrerelease(value: string) {
    var parts := SplitDots(value);
    forall i | 0 <= i < |parts| :: IsIdentifier(parts[i]) && !LeadingZero(parts[i])
  }

  predicate IsMetadata(value: string) {
    var parts := SplitDots(value);
    forall i | 0 <= i < |parts| :: IsIdentifier(parts[i])
  }

  predicate IsRelease(value: string) {
    match CutAt(value, "-")
    case Uncut => IsCore(value)
    case Cut(core, prerelease) => IsCore(core) && IsPrerelease(prerelease)
  }

  predicate IsSemVer(version: string) {
    match CutAt(version, "+")
    case Uncut => IsRelease(version)
    case Cut(release, metadata) => IsRelease(release) && IsMetadata(metadata)
  }

  lemma {:induction false} SplitFirst(part: string, rest: string)
    requires '.' !in part
    ensures SplitDots(part) == [part]
    ensures SplitDots(part + "." + rest) == [part] + SplitDots(rest)
  {
    if part != "" {
      SplitFirst(part[1..], rest);
      assert (part + "." + rest)[1..] == part[1..] + "." + rest;
      assert [part[0]] + part[1..] == part;
    } else {
      assert ("." + rest)[1..] == rest;
    }
  }

  lemma HexHasNoSeparator(value: string, wide: char -> bool)
    requires IsHex12(value, wide)
    ensures '.' !in value && '+' !in value && '-' !in value && value != ""
    ensures IsIdentifier(value) <==> IsAscii(value)
    ensures IsAscii(value) ==> |value| == 12
  {
    if IsAscii(value) {
      AsciiBytes(value);
    }
  }

  lemma PrereleaseIff(head: string, wide: char -> bool)
    requires IsHex12(head, wide)
    ensures IsPrerelease("main." + head) <==> IsAscii(head) && !LeadingZero(head)
  {
    HexHasNoSeparator(head, wide);
    SplitFirst("main", head);
    SplitFirst(head, "");
    assert "main." + head == "main" + "." + head;
    var parts := SplitDots("main." + head);
    assert parts == ["main", head] && parts[0] == "main" && parts[1] == head;
    assert IsIdentifier("main") && !LeadingZero("main");
  }

  lemma FourParts(a: string, b: string, c: string, d: string)
    requires '.' !in a && '.' !in b && '.' !in c && '.' !in d
    ensures SplitDots(a + "." + (b + "." + (c + "." + d))) == [a, b, c, d]
  {
    SplitFirst(a, b + "." + (c + "." + d));
    SplitFirst(b, c + "." + d);
    SplitFirst(c, d);
    SplitFirst(d, "");
  }

  lemma MetadataText(treeStamp: string, buildHash: string)
    ensures "tree." + (treeStamp + ".build." + buildHash)
            == "tree" + "." + (treeStamp + "." + ("build" + "." + buildHash))
  {
    assert ".build." + buildHash == "." + ("build" + "." + buildHash);
    assert treeStamp + ".build." + buildHash == treeStamp + (".build." + buildHash);
  }

  lemma MetadataParts(treeStamp: string, buildHash: string)
    requires '.' !in treeStamp && '.' !in buildHash
    ensures SplitDots("tree." + (treeStamp + ".build." + buildHash)) == ["tree", treeStamp, "build", buildHash]
  {
    MetadataText(treeStamp, buildHash);
    FourParts("tree", treeStamp, "build", buildHash);
  }

  lemma MetadataIff(treeStamp: string, buildHash: string, wide: char -> bool)
    requires IsHex12(treeStamp, wide) && IsHex12(buildHash, wide)
    ensures IsMetadata("tree." + (treeStamp + ".build." + buildHash)) <==> IsAscii(treeStamp) && IsAscii(buildHash)
  {
    HexHasNoSeparator(treeStamp, wide);
    HexHasNoSeparator(buildHash, wide);
    MetadataParts(treeStamp, buildHash);
    var parts := SplitDots("tree." + (treeStamp + ".build." + buildHash));
    assert parts[0] == "tree" && parts[1] == treeStamp && parts[2] == "build" && parts[3] == buildHash;
    assert IsIdentifier("tree") && IsIdentifier("build");
  }

  lemma VersionCuts(base: string, head: string, treeStamp: string, buildHash: string, wide: char -> bool)
    requires WellFormed(base, head, treeStamp, buildHash, wide)
    ensures CutAt(Print(base, head, treeStamp, buildHash), "+")
            == Cut(base + "-main." + head, "tree." + (treeStamp + ".build." + buildHash))
    ensures CutAt(base + "-main." + head, "-") == Cut(base, "main." + head)
  {
    CoreCharacters(base);
    HexHasNoSeparator(head, wide);
    var release, metadata := base + "-main." + head, treeStamp + ".build." + buildHash;
    Regrouped(base, head, metadata);
    CutRecovers(release, "+", "tree." + metadata);
    CutRecovers(base, "-", "main." + head);
  }

  lemma Regrouped(base: string, head: string, metadata: string)
    ensures base + "-main." + (head + "+tree." + metadata) == base + "-main." + head + "+" + ("tree." + metadata)
    ensures base + "-main." + head == base + "-" + ("main." + head)
  {}

  // No part but the number nought itself starts with one.
  predicate NoLeadingZeros(base: string) {
    forall i | 0 <= i < |SplitDots(base)| :: "0" <= SplitDots(base)[i] ==> SplitDots(base)[i] == "0"
  }

  lemma CoreIff(base: string)
    requires IsStableCore(base)
    ensures IsCore(base) <==> NoLeadingZeros(base)
  {
    var parts := SplitDots(base);
    forall i | 0 <= i < 3 ensures LeadingZero(parts[i]) <==> "0" <= parts[i] && parts[i] != "0" {
      if |parts[i]| == 1 && parts[i][0] == '0' {
        assert parts[i] == "0";
      }
    }
  }

  // An accepted version is a semantic version exactly when its base has no leading zeros, it
  // is all ASCII, and its head is not digits alone that start with a zero.
  lemma AcceptedIsSemVerIff(base: string, head: string, treeStamp: string, buildHash: string, wide: char -> bool)
    requires WellFormed(base, head, treeStamp, buildHash, wide)
    ensures IsSemVer(Print(base, head, treeStamp, buildHash))
            <==> && NoLeadingZeros(base)
                 && IsAscii(head) && IsAscii(treeStamp) && IsAscii(buildHash)
                 && !(AllDigits(head) && head[0] == '0')
  {
    CoreIff(base);
    VersionCuts(base, head, treeStamp, buildHash, wide);
    PrereleaseIff(head, wide);
    MetadataIff(treeStamp, buildHash, wide);
    HexHasNoSeparator(head, wide);
  }

  // A head of digits that start with a zero is accepted, and its versions are not semantic.
  lemma NumericHeadIsAccepted(base: string, treeStamp: string, buildHash: string, wide: char -> bool)
    requires IsStableCore(base) && IsHex12(treeStamp, wide) && IsHex12(buildHash, wide)
    ensures var version := Print(base, "012345678901", treeStamp, buildHash);
            Validate(version, wide).None? && !IsSemVer(version)
  {
    var head := "012345678901";
    DigitsAreHex(head, wide);
    assert Printed(Print(base, head, treeStamp, buildHash), base, head, treeStamp, buildHash, wide);
    ValidIffPrinted(Print(base, head, treeStamp, buildHash), wide);
    AcceptedIsSemVerIff(base, head, treeStamp, buildHash, wide);
  }

  lemma DigitsAreHex(digits: string, wide: char -> bool)
    requires |digits| == 12 && AllDigits(digits)
    ensures IsHex12(digits, wide)
  {
    AsciiBytes(digits);
  }

  // ----- The base versions that builds use.

  // rustVersion.String.
  function RustVersion(major: nat, minor: nat, patch: nat): string {
    Decimal(major) + "." + (Decimal(minor) + "." + Decimal(patch))
  }

  // A release's version is a base a build can have, and its parts come back.
  lemma RustVersionIsCore(major: nat, minor: nat, patch: nat)
    requires major <= MAX_INT64 && minor <= MAX_INT64 && patch <= MAX_INT64
    ensures IsStableCore(RustVersion(major, minor, patch))
    ensures var parts := SplitDots(RustVersion(major, minor, patch));
            && parts == [Decimal(major), Decimal(minor), Decimal(patch)]
            && DigitsValue(parts[0]) == major && DigitsValue(parts[1]) == minor && DigitsValue(parts[2]) == patch
  {
    SplitFirst(Decimal(major), Decimal(minor) + "." + Decimal(patch));
    SplitFirst(Decimal(minor), Decimal(patch));
    SplitFirst(Decimal(patch), "");
    DecimalValue(major);
    DecimalValue(minor);
    DecimalValue(patch);
  }
}
