// The Mach-O reader that finds code signatures (internal/computeruseext/macho_trust.go), and
// the team tokens counted outside them. The methods add in uint64 as the reader does; what
// they must return is stated without arithmetic limits.

module MachO {
  import opened Bytes
  import opened Numbers
  import opened Text

  datatype Order = LittleEndian | BigEndian

  const MACHO_MAGIC_32: nat := 0xfeedface
  const MACHO_MAGIC_64: nat := 0xfeedfacf
  const FAT_MAGIC_32: nat := 0xcafebabe
  const FAT_MAGIC_64: nat := 0xcafebabf
  const LC_CODE_SIGNATURE: nat := 0x1d

  const TWO_TO_THE_32: nat := 0x1_0000_0000

  // binary.ByteOrder.Uint32 and Uint64, at a position.
  function Uint32(order: Order, data: seq<Byte>, at: nat): (value: nat)
    requires at + 4 <= |data|
    ensures value < TWO_TO_THE_32
  {
    var a, b, c, d := data[at] as int, data[at + 1] as int, data[at + 2] as int, data[at + 3] as int;
    if order == BigEndian then ((a * 256 + b) * 256 + c) * 256 + d else ((d * 256 + c) * 256 + b) * 256 + a
  }

  function Uint64(order: Order, data: seq<Byte>, at: nat): (value: nat)
    requires at + 8 <= |data|
    ensures value < TWO_TO_THE_64
  {
    var first, second := Uint32(order, data, at), Uint32(order, data, at + 4);
    if order == BigEndian then first * TWO_TO_THE_32 + second else second * TWO_TO_THE_32 + first
  }

  // Go's uint64 addition.
  function Add64(a: nat, b: nat): (sum: nat)
    requires a < TWO_TO_THE_64 && b < TWO_TO_THE_64
    ensures a + b < TWO_TO_THE_64 ==> sum == a + b
    ensures sum < a <==> a + b >= TWO_TO_THE_64
    ensures sum < TWO_TO_THE_64
  {
    (a + b) % TWO_TO_THE_64
  }

  datatype Range = Range(start: nat, end: nat)

  datatype Error =
    | FatHeaderTruncated
    | ArchitectureTableTruncated
    | ArchitectureOutOfBounds(index: nat)
    | HeaderTruncated
    | CommandsOutOfBounds
    | CommandTruncated(index: nat)
    | CommandSizeInvalid(index: nat)
    | SignatureCommandTruncated
    | SignatureOutOfBounds
    | OffsetExceedsInt(value: nat)

  // computerUseByteIndex: the text of a uint64 read as an int.
  function ByteIndex(value: nat): Result<nat, Error> {
    if value < TWO_TO_THE_63 then Ok(value) else Err(OffsetExceedsInt(value))
  }

  datatype Format = Format(order: Order, is64: bool) {
    function HeaderSize(): nat {
      if is64 then 32 else 28
    }
  }

  // thinMachOFormat.
  function ThinFormat(data: seq<Byte>): Option<Format>
    requires |data| >= 4
  {
    if Uint32(LittleEndian, data, 0) == MACHO_MAGIC_32 then Some(Format(LittleEndian, false))
    else if Uint32(LittleEndian, data, 0) == MACHO_MAGIC_64 then Some(Format(LittleEndian, true))
    else if Uint32(BigEndian, data, 0) == MACHO_MAGIC_32 then Some(Format(BigEndian, false))
    else if Uint32(BigEndian, data, 0) == MACHO_MAGIC_64 then Some(Format(BigEndian, true))
    else None
  }

  // The load commands of an image: from start, before end, count of them.
  datatype Commands = Commands(data: seq<Byte>, order: Order, start: nat, end: nat, count: nat) {
    predicate Valid() {
      start <= end <= |data|
    }

    function Word(at: nat): (word: nat)
      requires at + 4 <= |data|
      ensures word < TWO_TO_THE_32
    {
      Uint32(order, data, at)
    }

    predicate IsSignature(at: nat)
      requires at + 4 <= |data|
    {
      Word(at) == LC_CODE_SIGNATURE
    }

    predicate Fits(at: nat)
      requires Valid()
    {
      at + 8 <= end && 8 <= Word(at + 4) && at + Word(at + 4) <= end
    }

    predicate Acceptable(at: nat)
      requires Valid()
    {
      Fits(at) && (IsSignature(at) ==> 16 <= Word(at + 4) && Word(at + 8) + Word(at + 12) <= |data|)
    }

    // Why command number index, at a position, is not acceptable.
    function Fault(at: nat, index: nat): (fault: Option<Error>)
      requires Valid()
      ensures fault.None? <==> Acceptable(at)
    {
      if at + 8 > end then Some(CommandTruncated(index))
      else if !Fits(at) then Some(CommandSizeInvalid(index))
      else if IsSignature(at) && Word(at + 4) < 16 then Some(SignatureCommandTruncated)
      else if IsSignature(at) && Word(at + 8) + Word(at + 12) > |data| then Some(SignatureOutOfBounds)
      else None
    }

    // Acceptable commands laid end to end.
    ghost predicate Walk(at: seq<nat>)
      requires Valid()
    {
      && (forall i | 0 <= i < |at| :: Acceptable(at[i]))
      && (forall i | 0 <= i < |at| :: at[i] == if i == 0 then start else at[i - 1] + Word(at[i - 1] + 4))
    }

    // Where the command after a walk begins.
    function NextAfter(at: seq<nat>): nat
      requires Valid() && forall i | 0 <= i < |at| :: Acceptable(at[i])
    {
      if at == [] then start else
        var last := at[|at| - 1];
        assert Acceptable(last);
        last + Word(last + 4)
    }

    function SignatureAt(base: nat, at: nat): Range
      requires Valid() && Acceptable(at) && IsSignature(at)
    {
      Range(base + Word(at + 8), base + Word(at + 8) + Word(at + 12))
    }

    // The signature ranges of a walk, relative to base.
    function Signatures(base: nat, at: seq<nat>): seq<Range>
      requires Valid() && forall i | 0 <= i < |at| :: Acceptable(at[i])
    {
      if at == [] then [] else
        var last := at[|at| - 1];
        assert Acceptable(last);
        Signatures(base, at[..|at| - 1]) + if IsSignature(last) then [SignatureAt(base, last)] else []
    }

    // What a reader of these commands must return.
    ghost predicate ReadsAs(base: nat, result: Result<seq<Range>, Error>)
      requires Valid()
    {
      exists at: seq<nat> :: WalksTo(base, at, result)
    }

    ghost predicate WalksTo(base: nat, at: seq<nat>, result: Result<seq<Range>, Error>)
      requires Valid()
    {
      && |at| <= count
      && Walk(at)
      && if result.Ok? then |at| == count && result.value == Signatures(base, at)
         else |at| < count && Fault(NextAfter(at), |at|) == Some(result.error)
    }

    lemma ExtendWalk(at: seq<nat>)
      requires Valid() && Walk(at) && Acceptable(NextAfter(at))
      ensures var next := NextAfter(at); Walk(at + [next]) && NextAfter(at + [next]) == next + Word(next + 4)
    {
      var next := NextAfter(at);
      var longer := at + [next];
      forall i | 0 <= i < |longer|
        ensures Acceptable(longer[i])
        ensures longer[i] == if i == 0 then start else longer[i - 1] + Word(longer[i - 1] + 4)
      {
        if i < |at| {
          assert longer[i] == at[i] && Acceptable(at[i]);
        }
        if i > 0 {
          assert longer[i - 1] == at[i - 1] && Acceptable(at[i - 1]);
        }
      }
    }

    lemma ExtendSignatures(base: nat, at: seq<nat>, next: nat)
      requires Valid() && (forall i | 0 <= i < |at| :: Acceptable(at[i])) && Acceptable(next)
      ensures forall i | 0 <= i < |at + [next]| :: Acceptable((at + [next])[i])
      ensures Signatures(base, at + [next])
              == Signatures(base, at) + if IsSignature(next) then [SignatureAt(base, next)] else []
    {
      var longer := at + [next];
      assert longer[..|longer| - 1] == at && longer[|longer| - 1] == next;
    }
  }

  // Where the load commands of a slice are, or why they cannot be read; None if it is not Mach-O.
  function CommandsOf(data: seq<Byte>): (found: Result<Option<Commands>, Error>)
    ensures found.Ok? && found.value.Some? ==> found.value.value.Valid()
  {
    if |data| < 4 then Ok(None) else
      match ThinFormat(data)
      case None => Ok(None)
      case Some(format) =>
        var header := format.HeaderSize();
        if |data| < header then Err(HeaderTruncated)
        else if header + Uint32(format.order, data, 20) > |data| then Err(CommandsOutOfBounds)
        else
          var end := header + Uint32(format.order, data, 20);
          Ok(Some(Commands(data, format.order, header, end, Uint32(format.order, data, 16))))
  }

  // What readThinMachOCodeSignatureRanges must return for a slice at a base offset.
  ghost predicate ThinReadsAs(data: seq<Byte>, base: nat, result: Result<seq<Range>, Error>) {
    match CommandsOf(data)
    case Err(error) => result == Err(error)
    case Ok(None) => result == Ok([])
    case Ok(Some(commands)) => commands.ReadsAs(base, result)
  }

  // The slices of a universal file.
  datatype Fat = Fat(data: seq<Byte>, order: Order, is64: bool) {
    function EntrySize(): nat {
      if is64 then 32 else 20
    }

    function Count(): (count: nat)
      requires |data| >= 8
      ensures count < TWO_TO_THE_32
    {
      Uint32(order, data, 4)
    }

    predicate Valid() {
      |data| >= 8 && 8 + Count() * EntrySize() <= |data|
    }

    function Entry(i: nat): (at: nat)
      requires Valid() && i < Count()
      ensures at + EntrySize() <= |data|
    {
      8 + i * EntrySize()
    }

    function SliceOffset(i: nat): (offset: nat)
      requires Valid() && i < Count()
      ensures offset < TWO_TO_THE_64
    {
      if is64 then Uint64(order, data, Entry(i) + 8) else Uint32(order, data, Entry(i) + 8)
    }

    function SliceSize(i: nat): (size: nat)
      requires Valid() && i < Count()
      ensures size < TWO_TO_THE_64
    {
      if is64 then Uint64(order, data, Entry(i) + 16) else Uint32(order, data, Entry(i) + 12)
    }

    predicate Inside(i: nat)
      requires Valid() && i < Count()
    {
      SliceOffset(i) + SliceSize(i) <= |data|
    }

    function Slice(i: nat): seq<Byte>
      requires Valid() && i < Count() && Inside(i)
    {
      data[SliceOffset(i)..SliceOffset(i) + SliceSize(i)]
    }

    ghost predicate IsPart(i: nat, part: seq<Range>)
      requires Valid() && i < Count()
    {
      Inside(i) && ThinReadsAs(Slice(i), SliceOffset(i), Ok(part))
    }

    // The ranges of the first slices, slice by slice.
    ghost predicate Parts(parts: seq<seq<Range>>)
      requires Valid()
    {
      && |parts| <= Count()
      && forall i | 0 <= i < |parts| :: IsPart(i, parts[i])
    }

    ghost predicate ReadsAs(result: Result<seq<Range>, Error>)
      requires Valid()
    {
      exists parts: seq<seq<Range>> :: PartsTo(parts, result)
    }

    ghost predicate PartsTo(parts: seq<seq<Range>>, result: Result<seq<Range>, Error>)
      requires Valid()
    {
      && Parts(parts)
      && if result.Ok? then |parts| == Count() && result.value == Flatten(parts)
         else
           |parts| < Count() && StopsAt(|parts|, result)
    }

    // Reading stops at an architecture, with its error.
    ghost predicate StopsAt(i: nat, result: Result<seq<Range>, Error>)
      requires Valid() && i < Count()
    {
      && result.Err?
      && if Inside(i) then ThinReadsAs(Slice(i), SliceOffset(i), result)
         else result.error == ArchitectureOutOfBounds(i)
    }

    lemma ExtendParts(parts: seq<seq<Range>>, part: seq<Range>)
      requires Valid() && Parts(parts) && |parts| < Count()
      requires IsPart(|parts|, part)
      ensures Parts(parts + [part])
    {
      var longer := parts + [part];
      forall i | 0 <= i < |longer| ensures IsPart(i, longer[i]) {
        if i < |parts| {
          assert longer[i] == parts[i];
        }
      }
    }
  }

  function Flatten(parts: seq<seq<Range>>): seq<Range> {
    if parts == [] then [] else Flatten(parts[..|parts| - 1]) + parts[|parts| - 1]
  }

  lemma FlattenAppend(parts: seq<seq<Range>>, part: seq<Range>)
    ensures Flatten(parts + [part]) == Flatten(parts) + part
  {
    assert (parts + [part])[..|parts|] == parts;
  }

  // Which universal layout, if any, a file claims by its first four bytes.
  function FatLayout(data: seq<Byte>): Option<Fat>
    requires |data| >= 4
  {
    if Uint32(BigEndian, data, 0) == FAT_MAGIC_32 then Some(Fat(data, BigEndian, false))
    else if Uint32(LittleEndian, data, 0) == FAT_MAGIC_32 then Some(Fat(data, LittleEndian, false))
    else if Uint32(BigEndian, data, 0) == FAT_MAGIC_64 then Some(Fat(data, BigEndian, true))
    else if Uint32(LittleEndian, data, 0) == FAT_MAGIC_64 then Some(Fat(data, LittleEndian, true))
    else None
  }

  // What readMachOCodeSignatureRanges must return.
  ghost predicate FileReadsAs(data: seq<Byte>, result: Result<seq<Range>, Error>) {
    if |data| < 4 then result == Ok([]) else
      match FatLayout(data)
      case None => ThinReadsAs(data, 0, result)
      case Some(fat) => FatReadsAs(fat, result)
  }

  ghost predicate FatReadsAs(fat: Fat, result: Result<seq<Range>, Error>) {
    if |fat.data| < 8 then result == Err(FatHeaderTruncated)
    else if !fat.Valid() then result == Err(ArchitectureTableTruncated)
    else fat.ReadsAs(result)
  }

  // readThinMachOCodeSignatureRanges. A Go slice is shorter than 2^63.
  method ReadThin(data: seq<Byte>, base: nat) returns (result: Result<seq<Range>, Error>)
    requires |data| < TWO_TO_THE_63
    ensures ThinReadsAs(data, base, result)
  {
    if |data| < 4 {
      return Ok([]);
    }
    var found := ThinFormat(data);
    if found.None? {
      return Ok([]);
    }
    var format := found.value;
    var order, headerSize := format.order, format.HeaderSize();
    if |data| < headerSize {
      return Err(HeaderTruncated);
    }
    var commandCount := Uint32(order, data, 16);
    var commandsEnd := Add64(headerSize, Uint32(order, data, 20));
    if commandsEnd > |data| {
      return Err(CommandsOutOfBounds);
    }
    result := ReadCommands(Commands(data, order, headerSize, commandsEnd, commandCount), base);
  }

  // Its loop over the load commands.
  method ReadCommands(commands: Commands, base: nat) returns (result: Result<seq<Range>, Error>)
    requires |commands.data| < TWO_TO_THE_63 && commands.Valid()
    ensures commands.ReadsAs(base, result)
  {
    var commandOffset := commands.start;
    var ranges := [];
    ghost var walk: seq<nat> := [];
    for commandIndex := 0 to commands.count
      invariant |walk| == commandIndex && commands.Walk(walk)
      invariant commandOffset == commands.NextAfter(walk) <= commands.end
      invariant ranges == commands.Signatures(base, walk)
    {
      var found := ReadCommand(commands, base, commandOffset, commandIndex);
      if found.Err? {
        assert commands.WalksTo(base, walk, Err(found.error));
        return Err(found.error);
      }
      commands.ExtendWalk(walk);
      commands.ExtendSignatures(base, walk, commandOffset);
      walk := walk + [commandOffset];
      ranges := ranges + found.value;
      commandOffset := Add64(commandOffset, commands.Word(commandOffset + 4));
    }
    assert commands.WalksTo(base, walk, Ok(ranges));
    return Ok(ranges);
  }

  // Its body: the command at an offset, and the range it adds if it is a code signature.
  method ReadCommand(commands: Commands, base: nat, commandOffset: nat, index: nat)
      returns (found: Result<seq<Range>, Error>)
    requires |commands.data| < TWO_TO_THE_63 && commands.Valid() && commandOffset <= commands.end
    ensures found.Err? ==> commands.Fault(commandOffset, index) == Some(found.error)
    ensures found.Ok? ==>
              && commands.Acceptable(commandOffset)
              && found.value == if commands.IsSignature(commandOffset)
                  then [commands.SignatureAt(base, commandOffset)] else []
  {
    if Add64(commandOffset, 8) > commands.end {
      return Err(CommandTruncated(index));
    }
    var command := commands.Word(commandOffset);
    var commandSize := commands.Word(commandOffset + 4);
    if commandSize < 8 || Add64(commandOffset, commandSize) > commands.end {
      return Err(CommandSizeInvalid(index));
    }
    if command != LC_CODE_SIGNATURE {
      return Ok([]);
    }
    if commandSize < 16 {
      return Err(SignatureCommandTruncated);
    }
    var signatureOffset := commands.Word(commandOffset + 8);
    var signatureSize := commands.Word(commandOffset + 12);
    var signatureEnd := Add64(signatureOffset, signatureSize);
    if signatureEnd < signatureOffset || signatureEnd > |commands.data| {
      return Err(SignatureOutOfBounds);
    }
    // Inside the data, both ends fit an int: the reader's conversions cannot fail.
    assert ByteIndex(signatureOffset).Ok? && ByteIndex(signatureEnd).Ok?;
    return Ok([Range(base + ByteIndex(signatureOffset).value, base + ByteIndex(signatureEnd).value)]);
  }

  // readFatMachOCodeSignatureRanges.
  method ReadFat(fat: Fat) returns (result: Result<seq<Range>, Error>)
    requires |fat.data| < TWO_TO_THE_63
    ensures FatReadsAs(fat, result)
  {
    var data := fat.data;
    if |data| < 8 {
      return Err(FatHeaderTruncated);
    }
    var architectureCount := fat.Count();
    var headerEnd := Add64(8, architectureCount * fat.EntrySize());
    if headerEnd > |data| {
      return Err(ArchitectureTableTruncated);
    }
    result := ReadSlices(fat);
  }

  // Its loop over the architectures.
  method ReadSlices(fat: Fat) returns (result: Result<seq<Range>, Error>)
    requires |fat.data| < TWO_TO_THE_63 && fat.Valid()
    ensures fat.ReadsAs(result)
  {
    var ranges := [];
    ghost var parts: seq<seq<Range>> := [];
    for architectureIndex := 0 to fat.Count()
      invariant |parts| == architectureIndex && fat.Parts(parts)
      invariant ranges == Flatten(parts)
    {
      var sliceRanges := ReadSlice(fat, architectureIndex);
      if sliceRanges.Err? {
        assert fat.PartsTo(parts, sliceRanges);
        return sliceRanges;
      }
      ranges := ranges + sliceRanges.value;
      fat.ExtendParts(parts, sliceRanges.value);
      FlattenAppend(parts, sliceRanges.value);
      parts := parts + [sliceRanges.value];
    }
    assert fat.PartsTo(parts, Ok(ranges));
    return Ok(ranges);
  }

  // Its body: one architecture.
  method ReadSlice(fat: Fat, i: nat) returns (sliceRanges: Result<seq<Range>, Error>)
    requires |fat.data| < TWO_TO_THE_63 && fat.Valid() && i < fat.Count()
    ensures sliceRanges.Ok? ==> fat.IsPart(i, sliceRanges.value)
    ensures sliceRanges.Err? ==> fat.StopsAt(i, sliceRanges)
  {
    var sliceOffset, sliceSize := fat.SliceOffset(i), fat.SliceSize(i);
    var sliceEnd := Add64(sliceOffset, sliceSize);
    if sliceEnd < sliceOffset || sliceEnd > |fat.data| {
      return Err(ArchitectureOutOfBounds(i));
    }
    // Inside the data, the offset fits an int: the reader's conversion cannot fail.
    assert ByteIndex(sliceOffset).Ok?;
    var slice := fat.data[sliceOffset..sliceEnd];
    sliceRanges := ReadThin(slice, ByteIndex(sliceOffset).value);
    SliceRead(fat, i, slice, sliceRanges);
  }

  lemma SliceRead(fat: Fat, i: nat, slice: seq<Byte>, result: Result<seq<Range>, Error>)
    requires fat.Valid() && i < fat.Count() && fat.Inside(i) && slice == fat.Slice(i)
    requires ThinReadsAs(slice, fat.SliceOffset(i), result)
    ensures if result.Ok? then fat.IsPart(i, result.value) else fat.StopsAt(i, result)
  {}

  // readMachOCodeSignatureRanges: it always returns, without an index out of bounds, what the
  // layout says.
  method ReadCodeSignatureRanges(data: seq<Byte>) returns (result: Result<seq<Range>, Error>)
    requires |data| < TWO_TO_THE_63
    ensures FileReadsAs(data, result)
  {
    if |data| < 4 {
      return Ok([]);
    }
    var fat := FatLayout(data);
    if fat.Some? {
      result := ReadFat(fat.value);
    } else {
      result := ReadThin(data, 0);
    }
  }
}
