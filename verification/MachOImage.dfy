// Mach-O images as a linker lays them out (<mach-o/loader.h>, <mach-o/fat.h>), and that the
// reader finds in them exactly the code signatures they were written with.

module MachOImage {
  import opened Bytes
  import opened Numbers
  import opened MachO
  import opened Text

  // Four bytes of a number.
  function Word32(order: Order, n: nat): (bytes: seq<Byte>)
    requires n < TWO_TO_THE_32
    ensures |bytes| == 4
  {
    var high := n / 0x100;
    var higher := high / 0x100;
    var a, b, c, d := (higher / 0x100) as Byte, (higher % 0x100) as Byte, (high % 0x100) as Byte, (n % 0x100) as Byte;
    if order == BigEndian then [a, b, c, d] else [d, c, b, a]
  }

  lemma WordAt(order: Order, data: seq<Byte>, at: nat, n: nat)
    requires n < TWO_TO_THE_32 && at + 4 <= |data| && data[at..at + 4] == Word32(order, n)
    ensures Uint32(order, data, at) == n
  {
    var word := data[at..at + 4];
    assert data[at] == word[0] && data[at + 1] == word[1] && data[at + 2] == word[2] && data[at + 3] == word[3];
  }

  // A load command: of a code signature, or of some other kind with some content.
  datatype Command = CodeSignature(offset: nat, size: nat) | Other(kind: nat, content: seq<Byte>)

  predicate Writable(command: Command) {
    match command
    case CodeSignature(offset, size) => offset < TWO_TO_THE_32 && size < TWO_TO_THE_32
    case Other(kind, content) => kind != 0x1d && kind < TWO_TO_THE_32 && 8 + |content| < TWO_TO_THE_32
  }

  type LoadCommand = command: Command | Writable(command) witness CodeSignature(0, 0)

  function WriteCommand(order: Order, command: LoadCommand): (bytes: seq<Byte>)
    ensures |bytes| >= 8
  {
    match command
    case CodeSignature(offset, size) =>
      Word32(order, 0x1d) + Word32(order, 16) + Word32(order, offset) + Word32(order, size)
    case Other(kind, content) =>
      Word32(order, kind) + Word32(order, 8 + |content|) + content
  }

  // The commands in bytes, one each, and laid end to end.
  function Pieces(order: Order, commands: seq<LoadCommand>): (pieces: seq<seq<Byte>>)
    ensures |pieces| == |commands|
  {
    seq(|commands|, i requires 0 <= i < |commands| => WriteCommand(order, commands[i]))
  }

  function Joined(pieces: seq<seq<Byte>>): seq<Byte> {
    if pieces == [] then [] else Joined(pieces[..|pieces| - 1]) + pieces[|pieces| - 1]
  }

  function WriteCommands(order: Order, commands: seq<LoadCommand>): seq<Byte> {
    Joined(Pieces(order, commands))
  }

  // The signatures that some commands declare, in a slice at some place in a file.
  function Declared(commands: seq<LoadCommand>, base: nat): seq<Range> {
    if commands == [] then [] else
      var before, last := Declared(commands[..|commands| - 1], base), commands[|commands| - 1];
      if last.CodeSignature? then before + [Range(base + last.offset, base + last.offset + last.size)] else before
  }

  // The magic number, processor and file type, the number and the size of the load commands,
  // flags, the commands, and everything else.
  datatype Image = Image(order: Order, is64: bool, kind: seq<Byte>, flags: seq<Byte>, commands: seq<LoadCommand>,
                         rest: seq<Byte>)

  predicate Countable(image: Image) {
    |image.commands| < TWO_TO_THE_32 && |WriteCommands(image.order, image.commands)| < TWO_TO_THE_32
  }

  ghost predicate WellFormed(image: Image) {
    && |image.kind| == 12 && |image.flags| == (if image.is64 then 8 else 4)
    && Countable(image)
    && InBounds(image.commands, |Write(image)|)
  }

  // Every signature lies in the slice.
  predicate InBounds(commands: seq<LoadCommand>, length: nat) {
    forall i | 0 <= i < |commands| :: commands[i].CodeSignature? ==> commands[i].offset + commands[i].size <= length
  }

  function Write(image: Image): (data: seq<Byte>)
    requires Countable(image)
  {
    var commands := WriteCommands(image.order, image.commands);
    Header(image.order, image.is64, image.kind, |image.commands|, |commands|, image.flags) + commands + image.rest
  }

  function Header(order: Order, is64: bool, kind: seq<Byte>, count: nat, size: nat, flags: seq<Byte>): seq<Byte>
    requires count < TWO_TO_THE_32 && size < TWO_TO_THE_32
  {
    Word32(order, if is64 then 0xfeedfacf else 0xfeedface) + kind + Word32(order, count) + Word32(order, size) + flags
  }

  // ----- What is read of a command that was written.

  lemma CommandReads(order: Order, data: seq<Byte>, at: nat, command: LoadCommand)
    requires at + |WriteCommand(order, command)| <= |data|
    requires data[at..at + |WriteCommand(order, command)|] == WriteCommand(order, command)
    ensures Uint32(order, data, at) == if command.CodeSignature? then 0x1d else command.kind
    ensures Uint32(order, data, at + 4) == |WriteCommand(order, command)|
    ensures command.CodeSignature? ==>
              && |WriteCommand(order, command)| == 16
              && Uint32(order, data, at + 8) == command.offset && Uint32(order, data, at + 12) == command.size
  {
    var bytes := WriteCommand(order, command);
    match command
    case CodeSignature(offset, size) =>
      SignatureWords(order, offset, size);
      SubWord(order, data, bytes, at, 0, 0x1d);
      SubWord(order, data, bytes, at, 4, 16);
      SubWord(order, data, bytes, at, 8, offset);
      SubWord(order, data, bytes, at, 12, size);
    case Other(kind, content) =>
      assert bytes[0..4] == Word32(order, kind) && bytes[4..8] == Word32(order, 8 + |content|);
      SubWord(order, data, bytes, at, 0, kind);
      SubWord(order, data, bytes, at, 4, 8 + |content|);
  }

  lemma SignatureWords(order: Order, offset: nat, size: nat)
    requires offset < TWO_TO_THE_32 && size < TWO_TO_THE_32
    ensures var bytes := WriteCommand(order, CodeSignature(offset, size));
            && |bytes| == 16 && bytes[0..4] == Word32(order, 0x1d) && bytes[4..8] == Word32(order, 16)
            && bytes[8..12] == Word32(order, offset) && bytes[12..16] == Word32(order, size)
  {
    FourParts(Word32(order, 0x1d), Word32(order, 16), Word32(order, offset), Word32(order, size));
  }

  lemma FourParts(a: seq<Byte>, b: seq<Byte>, c: seq<Byte>, d: seq<Byte>)
    requires |a| == 4 && |b| == 4 && |c| == 4 && |d| == 4
    ensures var all := a + b + c + d; all[0..4] == a && all[4..8] == b && all[8..12] == c && all[12..16] == d
  {}

  lemma SubWord(order: Order, data: seq<Byte>, bytes: seq<Byte>, at: nat, k: nat, n: nat)
    requires at + |bytes| <= |data| && data[at..at + |bytes|] == bytes && k + 4 <= |bytes|
    requires n < TWO_TO_THE_32 && bytes[k..k + 4] == Word32(order, n)
    ensures Uint32(order, data, at + k) == n
  {
    SliceInside(data, bytes, at, k, k + 4);
    WordAt(order, data, at + k, n);
  }

  lemma SliceInside(data: seq<Byte>, bytes: seq<Byte>, at: nat, i: nat, j: nat)
    requires at + |bytes| <= |data| && data[at..at + |bytes|] == bytes && i <= j <= |bytes|
    ensures data[at + i..at + j] == bytes[i..j]
  {
    forall k | i <= k < j ensures data[at + k] == bytes[k] {
      assert data[at..at + |bytes|][k] == bytes[k];
    }
  }

  lemma JoinedMore(pieces: seq<seq<Byte>>, n: nat)
    requires n < |pieces|
    ensures Joined(pieces[..n + 1]) == Joined(pieces[..n]) + pieces[n]
  {
    assert pieces[..n + 1][..n] == pieces[..n];
  }

  lemma {:induction false} JoinedStart(pieces: seq<seq<Byte>>, n: nat)
    requires n <= |pieces|
    ensures Joined(pieces[..n]) <= Joined(pieces)
    decreases |pieces| - n
  {
    if n == |pieces| {
      assert pieces[..n] == pieces;
    } else {
      JoinedMore(pieces, n);
      JoinedStart(pieces, n + 1);
    }
  }

  // Where one of some pieces is found.
  lemma PieceAt(pieces: seq<seq<Byte>>, data: seq<Byte>, start: nat, n: nat, at: nat)
    requires n < |pieces| && start + |Joined(pieces)| <= |data|
    requires data[start..start + |Joined(pieces)|] == Joined(pieces)
    requires at == start + |Joined(pieces[..n])|
    ensures at + |pieces[n]| <= start + |Joined(pieces)| && data[at..at + |pieces[n]|] == pieces[n]
    ensures at + |pieces[n]| == start + |Joined(pieces[..n + 1])|
  {
    JoinedMore(pieces, n);
    JoinedStart(pieces, n + 1);
    BytesBehind(Joined(pieces[..n]), pieces[n], Joined(pieces), data, start);
  }

  lemma BytesBehind(before: seq<Byte>, bytes: seq<Byte>, all: seq<Byte>, data: seq<Byte>, start: nat)
    requires before + bytes <= all && start + |all| <= |data| && data[start..start + |all|] == all
    ensures data[start + |before|..start + |before| + |bytes|] == bytes
  {
    PrefixSlice(before, bytes, all);
    SliceInside(data, all, start, |before|, |before| + |bytes|);
  }

  lemma PrefixSlice(a: seq<Byte>, b: seq<Byte>, all: seq<Byte>)
    requires a + b <= all
    ensures all[|a|..|a| + |b|] == b
  {
    assert (a + b)[|a|..] == b;
  }

  lemma {:induction false} DeclaredMore(commands: seq<LoadCommand>, n: nat, base: nat)
    requires n < |commands|
    ensures var (before, last) := (Declared(commands[..n], base), commands[n]);
            Declared(commands[..n + 1], base)
            == before + if last.CodeSignature? then [Range(base + last.offset, base + last.offset + last.size)] else []
  {
    assert commands[..n + 1][..n] == commands[..n];
  }

  // ----- The walk over the commands of an image.

  // Where a reader finds some commands in bytes, one piece each.
  ghost predicate Laid(order: Order, commands: seq<LoadCommand>, pieces: seq<seq<Byte>>, found: Commands) {
    && found.Valid() && found.order == order && found.count == |commands| == |pieces|
    && found.end == found.start + |Joined(pieces)|
    && found.data[found.start..found.start + |Joined(pieces)|] == Joined(pieces)
    && InBounds(commands, |found.data|)
  }

  ghost predicate Written(order: Order, commands: seq<LoadCommand>, pieces: seq<seq<Byte>>) {
    |pieces| == |commands| && forall i | 0 <= i < |commands| :: pieces[i] == WriteCommand(order, commands[i])
  }

  // One of them.
  predicate Found(command: LoadCommand, bytes: seq<Byte>, found: Commands, at: nat) {
    && found.Valid() && at + |bytes| <= found.end && found.data[at..at + |bytes|] == bytes
    && (command.CodeSignature? ==> command.offset + command.size <= |found.data|)
  }

  lemma PieceFound(commands: seq<LoadCommand>, pieces: seq<seq<Byte>>, found: Commands, n: nat, at: nat)
    requires Laid(found.order, commands, pieces, found) && n < |commands| && at == found.start + |Joined(pieces[..n])|
    ensures Found(commands[n], pieces[n], found, at)
    ensures at + |pieces[n]| == found.start + |Joined(pieces[..n + 1])|
  {
    PieceAt(pieces, found.data, found.start, n, at);
  }

  // What a reader makes of it.
  predicate ReadAs(command: LoadCommand, size: nat, found: Commands, base: nat, at: nat) {
    && found.Valid() && found.Acceptable(at) && found.Word(at + 4) == size
    && (found.IsSignature(at) <==> command.CodeSignature?)
    && (command.CodeSignature? ==>
          found.SignatureAt(base, at) == Range(base + command.offset, base + command.offset + command.size))
  }

  lemma CommandAt(command: LoadCommand, bytes: seq<Byte>, found: Commands, base: nat, at: nat)
    requires Found(command, bytes, found, at) && bytes == WriteCommand(found.order, command)
    ensures ReadAs(command, |bytes|, found, base, at)
  {
    CommandReads(found.order, found.data, at, command);
  }

  lemma WalkMore(command: LoadCommand, size: nat, found: Commands, base: nat, walk: seq<nat>, next: nat)
    requires ReadAs(command, size, found, base, next) && found.Walk(walk) && next == found.NextAfter(walk)
    ensures found.Walk(walk + [next]) && found.NextAfter(walk + [next]) == next + size
    ensures found.Signatures(base, walk + [next])
            == found.Signatures(base, walk)
               + if command.CodeSignature? then [Range(base + command.offset, base + command.offset + command.size)]
                 else []
  {
    found.ExtendWalk(walk);
    found.ExtendSignatures(base, walk, next);
  }

  // A walk over the first n of them.
  ghost predicate Walked(commands: seq<LoadCommand>, pieces: seq<seq<Byte>>, found: Commands, base: nat, n: nat,
                         walk: seq<nat>)
    requires found.Valid() && n <= |commands| && n <= |pieces|
  {
    && |walk| == n && found.Walk(walk)
    && found.NextAfter(walk) == found.start + |Joined(pieces[..n])|
    && found.Signatures(base, walk) == Declared(commands[..n], base)
  }

  lemma WalkStep(commands: seq<LoadCommand>, pieces: seq<seq<Byte>>, found: Commands, base: nat, n: nat,
                 walk: seq<nat>, next: nat)
    requires found.Valid() && n < |commands| && n < |pieces| && Walked(commands, pieces, found, base, n, walk)
    requires next == found.NextAfter(walk) && ReadAs(commands[n], |pieces[n]|, found, base, next)
    ensures Walked(commands, pieces, found, base, n + 1, walk + [next])
  {
    WalkMore(commands[n], |pieces[n]|, found, base, walk, next);
    JoinedMore(pieces, n);
    DeclaredMore(commands, n, base);
  }

  lemma {:induction false} WalkOf(commands: seq<LoadCommand>, pieces: seq<seq<Byte>>, found: Commands, base: nat,
                                  n: nat)
      returns (walk: seq<nat>)
    requires Laid(found.order, commands, pieces, found) && Written(found.order, commands, pieces) && n <= |commands|
    ensures Walked(commands, pieces, found, base, n, walk)
  {
    if n == 0 {
      walk := [];
    } else {
      var before := WalkOf(commands, pieces, found, base, n - 1);
      var next := found.NextAfter(before);
      PieceFound(commands, pieces, found, n - 1, next);
      CommandAt(commands[n - 1], pieces[n - 1], found, base, next);
      WalkStep(commands, pieces, found, base, n - 1, before, next);
      walk := before + [next];
    }
  }

  // ----- The image.

  lemma HeaderReads(order: Order, is64: bool, kind: seq<Byte>, count: nat, size: nat, flags: seq<Byte>,
                    data: seq<Byte>)
    requires count < TWO_TO_THE_32 && size < TWO_TO_THE_32
    requires |kind| == 12 && |flags| == (if is64 then 8 else 4)
    requires Header(order, is64, kind, count, size, flags) <= data
    ensures |data| >= if is64 then 32 else 28
    ensures ThinFormat(data) == Some(Format(order, is64))
    ensures Uint32(order, data, 16) == count && Uint32(order, data, 20) == size
  {
    var magic := if is64 then 0xfeedfacf else 0xfeedface;
    var header := Header(order, is64, kind, count, size, flags);
    assert header[0..4] == Word32(order, magic) && header[16..20] == Word32(order, count)
           && header[20..24] == Word32(order, size);
    SliceInside(data, header, 0, 0, 4);
    SliceInside(data, header, 0, 16, 20);
    SliceInside(data, header, 0, 20, 24);
    WordAt(order, data, 16, count);
    WordAt(order, data, 20, size);
    MagicTellsOrder(order, is64, data);
  }

  // A number's last byte.
  function Then(n: nat, last: Byte): (m: nat)
    ensures m / 0x100 == n && m % 0x100 == last as int
  {
    n * 0x100 + last as int
  }

  // A word's bytes, the most significant first.
  lemma WordBytes(data: seq<Byte>, digits: seq<Byte>, order: Order)
    requires |data| >= 4 && |digits| == 4
    requires data[0..4] == Word32(order, Then(Then(Then(digits[0] as int, digits[1]), digits[2]), digits[3]))
    ensures forall k | 0 <= k < 4 :: data[k] == if order == BigEndian then digits[k] else digits[3 - k]
  {
    var word := data[0..4];
    assert data[0] == word[0] && data[1] == word[1] && data[2] == word[2] && data[3] == word[3];
  }

  lemma MagicTellsOrder(order: Order, is64: bool, data: seq<Byte>)
    requires |data| >= 4 && data[0..4] == Word32(order, if is64 then 0xfeedfacf else 0xfeedface)
    ensures ThinFormat(data) == Some(Format(order, is64))
  {
    WordAt(order, data, 0, if is64 then 0xfeedfacf else 0xfeedface);
    WordBytes(data, if is64 then [0xfe, 0xed, 0xfa, 0xcf] else [0xfe, 0xed, 0xfa, 0xce], order);
  }

  // The reader finds in a written image the code signatures its commands declare, in order.
  lemma ImageReads(image: Image, base: nat)
    requires WellFormed(image)
    ensures ThinReadsAs(Write(image), base, Ok(Declared(image.commands, base)))
  {
    var data, bytes := Write(image), WriteCommands(image.order, image.commands);
    var header := Header(image.order, image.is64, image.kind, |image.commands|, |bytes|, image.flags);
    HeaderReads(image.order, image.is64, image.kind, |image.commands|, |bytes|, image.flags, data);
    assert data[|header|..|header| + |bytes|] == bytes;
    var found := Commands(data, image.order, |header|, |header| + |bytes|, |image.commands|);
    CommandsFound(image.commands, Pieces(image.order, image.commands), found, base);
    ReadFromHeader(data, base, Format(image.order, image.is64), found, Ok(Declared(image.commands, base)));
  }

  lemma ReadFromHeader(data: seq<Byte>, base: nat, format: Format, found: Commands,
                       result: Result<seq<Range>, Error>)
    requires |data| >= 28 && ThinFormat(data) == Some(format) && format.HeaderSize() <= found.end <= |data|
    requires found == Commands(data, format.order, format.HeaderSize(), found.end, Uint32(format.order, data, 16))
    requires found.end == format.HeaderSize() + Uint32(format.order, data, 20)
    requires found.ReadsAs(base, result)
    ensures ThinReadsAs(data, base, result)
  {}

  lemma CommandsFound(commands: seq<LoadCommand>, pieces: seq<seq<Byte>>, found: Commands, base: nat)
    requires Laid(found.order, commands, pieces, found) && Written(found.order, commands, pieces)
    ensures found.ReadsAs(base, Ok(Declared(commands, base)))
  {
    var walk := WalkOf(commands, pieces, found, base, |commands|);
    assert commands[..|commands|] == commands;
    assert found.WalksTo(base, walk, Ok(Declared(commands, base)));
  }

  // ----- Universal files.

  // A number of a universal file's table: four bytes or eight.
  function WordOf(order: Order, is64: bool, n: nat): (bytes: seq<Byte>)
    requires n < if is64 then TWO_TO_THE_64 else TWO_TO_THE_32
    ensures |bytes| == if is64 then 8 else 4
  {
    if !is64 then Word32(order, n)
    else if order == BigEndian then Word32(order, n / TWO_TO_THE_32) + Word32(order, n % TWO_TO_THE_32)
    else Word32(order, n % TWO_TO_THE_32) + Word32(order, n / TWO_TO_THE_32)
  }

  lemma Word64At(order: Order, data: seq<Byte>, at: nat, n: nat)
    requires n < TWO_TO_THE_64 && at + 8 <= |data| && data[at..at + 8] == WordOf(order, true, n)
    ensures Uint64(order, data, at) == n
  {
    var word := WordOf(order, true, n);
    var first, second := if order == BigEndian then n / TWO_TO_THE_32 else n % TWO_TO_THE_32,
                         if order == BigEndian then n % TWO_TO_THE_32 else n / TWO_TO_THE_32;
    assert word[0..4] == Word32(order, first) && word[4..8] == Word32(order, second);
    SubWord(order, data, word, at, 0, first);
    SubWord(order, data, word, at, 4, second);
  }

  // One architecture: its processor, where its slice is, and its alignment.
  datatype Architecture = Architecture(kind: seq<Byte>, offset: nat, size: nat, align: seq<Byte>)

  predicate Describable(is64: bool, a: Architecture) {
    && |a.kind| == 8 && |a.align| == (if is64 then 8 else 4)
    && a.offset < (if is64 then TWO_TO_THE_64 else TWO_TO_THE_32)
    && a.size < (if is64 then TWO_TO_THE_64 else TWO_TO_THE_32)
  }

  function WriteEntry(order: Order, is64: bool, a: Architecture): (bytes: seq<Byte>)
    requires Describable(is64, a)
    ensures |bytes| == if is64 then 32 else 20
  {
    a.kind + WordOf(order, is64, a.offset) + WordOf(order, is64, a.size) + a.align
  }

  // A file that starts with a table of some architectures, one piece each.
  ghost predicate HasTable(data: seq<Byte>, order: Order, is64: bool, architectures: seq<Architecture>,
                           pieces: seq<seq<Byte>>) {
    && |architectures| == |pieces| < TWO_TO_THE_32
    && (forall i | 0 <= i < |architectures| ::
          Describable(is64, architectures[i]) && pieces[i] == WriteEntry(order, is64, architectures[i]))
    && 8 + |Joined(pieces)| <= |data|
    && data[0..4] == Word32(order, if is64 then 0xcafebabf else 0xcafebabe)
    && data[4..8] == Word32(order, |architectures|)
    && data[8..8 + |Joined(pieces)|] == Joined(pieces)
  }

  lemma {:induction false} JoinedLength(pieces: seq<seq<Byte>>, is64: bool)
    requires forall i | 0 <= i < |pieces| :: |pieces[i]| == if is64 then 32 else 20
    ensures |Joined(pieces)| == if is64 then |pieces| * 32 else |pieces| * 20
  {
    if pieces != [] {
      JoinedLength(pieces[..|pieces| - 1], is64);
    }
  }

  // An entry says where the slice of an architecture is.
  predicate EntrySays(order: Order, is64: bool, data: seq<Byte>, at: nat, a: Architecture) {
    && at + (if is64 then 32 else 20) <= |data|
    && a.offset == (if is64 then Uint64(order, data, at + 8) else Uint32(order, data, at + 8))
    && a.size == (if is64 then Uint64(order, data, at + 16) else Uint32(order, data, at + 12))
  }

  lemma EntryReads(order: Order, is64: bool, data: seq<Byte>, at: nat, a: Architecture, bytes: seq<Byte>)
    requires Describable(is64, a) && bytes == WriteEntry(order, is64, a)
    requires at + |bytes| <= |data| && data[at..at + |bytes|] == bytes
    ensures EntrySays(order, is64, data, at, a)
  {
    if is64 {
      assert bytes[8..16] == WordOf(order, true, a.offset) && bytes[16..24] == WordOf(order, true, a.size);
      SliceInside(data, bytes, at, 8, 16);
      SliceInside(data, bytes, at, 16, 24);
      Word64At(order, data, at + 8, a.offset);
      Word64At(order, data, at + 16, a.size);
    } else {
      assert bytes[8..12] == Word32(order, a.offset) && bytes[12..16] == Word32(order, a.size);
      SubWord(order, data, bytes, at, 8, a.offset);
      SubWord(order, data, bytes, at, 12, a.size);
    }
  }

  // The reader finds the table,
  lemma TableReads(data: seq<Byte>, order: Order, is64: bool, architectures: seq<Architecture>,
                   pieces: seq<seq<Byte>>)
    requires HasTable(data, order, is64, architectures, pieces)
    ensures FatLayout(data) == Some(Fat(data, order, is64))
    ensures Fat(data, order, is64).Valid() && Fat(data, order, is64).Count() == |architectures|
  {
    WordAt(order, data, 4, |architectures|);
    FatMagicTellsOrder(order, is64, data);
    TablePieces(data, order, is64, architectures, pieces);
    JoinedLength(pieces, is64);
  }

  lemma FatMagicTellsOrder(order: Order, is64: bool, data: seq<Byte>)
    requires |data| >= 4 && data[0..4] == Word32(order, if is64 then 0xcafebabf else 0xcafebabe)
    ensures FatLayout(data) == Some(Fat(data, order, is64))
  {
    WordAt(order, data, 0, if is64 then 0xcafebabf else 0xcafebabe);
    WordBytes(data, if is64 then [0xca, 0xfe, 0xba, 0xbf] else [0xca, 0xfe, 0xba, 0xbe], order);
  }

  // and each slice where it says it is.
  lemma SliceReads(data: seq<Byte>, order: Order, is64: bool, architectures: seq<Architecture>,
                   pieces: seq<seq<Byte>>, i: nat)
    requires HasTable(data, order, is64, architectures, pieces) && i < |architectures|
    ensures var fat := Fat(data, order, is64);
            && fat.Valid() && i < fat.Count()
            && fat.SliceOffset(i) == architectures[i].offset && fat.SliceSize(i) == architectures[i].size
  {
    var fat, at := Fat(data, order, is64), if is64 then 8 + i * 32 else 8 + i * 20;
    TableReads(data, order, is64, architectures, pieces);
    TableEntryReads(data, order, is64, architectures, pieces, i, at);
    SliceWords(fat, i, at, architectures[i]);
  }

  lemma SliceWords(fat: Fat, i: nat, at: nat, a: Architecture)
    requires fat.Valid() && i < fat.Count()
    requires at == if fat.is64 then 8 + i * 32 else 8 + i * 20
    requires EntrySays(fat.order, fat.is64, fat.data, at, a)
    ensures fat.SliceOffset(i) == a.offset && fat.SliceSize(i) == a.size
  {
    assert fat.Entry(i) == at;
  }

  lemma TableEntryReads(data: seq<Byte>, order: Order, is64: bool, architectures: seq<Architecture>,
                        pieces: seq<seq<Byte>>, i: nat, at: nat)
    requires HasTable(data, order, is64, architectures, pieces) && i < |architectures|
    requires at == if is64 then 8 + i * 32 else 8 + i * 20
    ensures EntrySays(order, is64, data, at, architectures[i])
  {
    TablePieces(data, order, is64, architectures, pieces);
    PieceOfTable(data, is64, pieces, i, at);
    EntryReads(order, is64, data, at, architectures[i], pieces[i]);
  }

  lemma TablePieces(data: seq<Byte>, order: Order, is64: bool, architectures: seq<Architecture>,
                    pieces: seq<seq<Byte>>)
    requires HasTable(data, order, is64, architectures, pieces)
    ensures forall k | 0 <= k < |pieces| :: |pieces[k]| == if is64 then 32 else 20
  {}

  lemma PieceOfTable(data: seq<Byte>, is64: bool, pieces: seq<seq<Byte>>, i: nat, at: nat)
    requires forall k | 0 <= k < |pieces| :: |pieces[k]| == if is64 then 32 else 20
    requires i < |pieces| && at == if is64 then 8 + i * 32 else 8 + i * 20
    requires 8 + |Joined(pieces)| <= |data| && data[8..8 + |Joined(pieces)|] == Joined(pieces)
    ensures at + |pieces[i]| <= |data| && data[at..at + |pieces[i]|] == pieces[i]
  {
    JoinedLength(pieces[..i], is64);
    PieceAt(pieces, data, 8, i, at);
  }

  // What one slice of a file reads as.
  ghost predicate SliceReadsAs(data: seq<Byte>, a: Architecture, part: seq<Range>) {
    a.offset + a.size <= |data| && ThinReadsAs(data[a.offset..a.offset + a.size], a.offset, Ok(part))
  }

  lemma PartReads(fat: Fat, i: nat, a: Architecture, part: seq<Range>)
    requires fat.Valid() && i < fat.Count() && fat.SliceOffset(i) == a.offset && fat.SliceSize(i) == a.size
    requires SliceReadsAs(fat.data, a, part)
    ensures fat.IsPart(i, part)
  {}

  // So a file whose slices lie in it and read each in their own way reads as their ranges,
  // slice after slice.
  lemma FatFileReads(data: seq<Byte>, order: Order, is64: bool, architectures: seq<Architecture>,
                     pieces: seq<seq<Byte>>, parts: seq<seq<Range>>)
    requires HasTable(data, order, is64, architectures, pieces) && |parts| == |architectures|
    requires forall i | 0 <= i < |parts| :: SliceReadsAs(data, architectures[i], parts[i])
    ensures FileReadsAs(data, Ok(Flatten(parts)))
  {
    var fat := Fat(data, order, is64);
    TableReads(data, order, is64, architectures, pieces);
    forall i | 0 <= i < |parts| ensures fat.IsPart(i, parts[i]) {
      SliceReads(data, order, is64, architectures, pieces, i);
      PartReads(fat, i, architectures[i], parts[i]);
    }
    PartsRead(fat, parts);
  }

  lemma PartsRead(fat: Fat, parts: seq<seq<Range>>)
    requires fat.Valid() && |parts| == fat.Count() && forall i | 0 <= i < |parts| :: fat.IsPart(i, parts[i])
    ensures fat.ReadsAs(Ok(Flatten(parts)))
  {
    assert fat.PartsTo(parts, Ok(Flatten(parts)));
  }
}
