/**
 The cpio archive of src/kernel/initrd/initrd_parser.c, in the New ASCII Format of cpio(5).
 Memory is a sequence of bytes indexed by address; 0 is the address of nothing.
 */
module Initrd {
  import opened Bits
  import opened Converters
  import opened Slices
  import opened Strings

  const HEADER_SIZE: nat := 110
  const FILESIZE: nat := 54
  const NAMESIZE: nat := 94

  type u32 = x: nat | x < U32

  /** `inode`: ino, mode, uid, gid, nlink, mtime; `device`: the four device numbers. */
  datatype File = File(name: seq<byte>, data: seq<byte>, inode: seq<u32>, device: seq<u32>, check: u32, upper: bool)
  {
    /** What the format can hold. */
    predicate Valid() {
      |inode| == 6 && |device| == 4 && 0 !in name && |name| + 1 < U32 && |data| < U32
    }
  }

  function Magic(): (r: seq<byte>)
    ensures r == [0x30, 0x37, 0x30, 0x37, 0x30, 0x31]
  {
    Ascii("070701")
  }

  function TrailerName(): (r: seq<byte>)
    ensures r == [0x54, 0x52, 0x41, 0x49, 0x4C, 0x45, 0x52, 0x21, 0x21, 0x21]
  {
    var s := "TRAILER!!!";
    assert forall i :: 0 <= i < |s| ==> 0 < (s[i] as int) < 256;
    Ascii(s)
  }

  // The printer.

  function Fields(xs: seq<u32>, upper: bool): (r: seq<byte>)
    ensures |r| == 8 * |xs|
  {
    if xs == [] then [] else Hex(xs[0], 8, upper) + Fields(xs[1..], upper)
  }

  /** The header and what is before and between the two sizes in it. */
  function Header(f: File): (r: seq<byte>)
    requires f.Valid()
    ensures |r| == HEADER_SIZE
  {
    Magic() + Fields(f.inode, f.upper) + Hex(|f.data|, 8, f.upper) + Fields(f.device, f.upper)
    + Hex(|f.name| + 1, 8, f.upper) + Hex(f.check, 8, f.upper)
  }

  function Entry(f: File): (r: seq<byte>)
    requires f.Valid()
    ensures |r| == DataOffset(f) + AlignUp(|f.data|)
  {
    Padded(Header(f) + f.name + [0]) + Padded(f.data)
  }

  function DataOffset(f: File): (r: nat)
    ensures r % 4 == 0
  {
    AlignUp(HEADER_SIZE + |f.name| + 1)
  }

  predicate ValidFiles(files: seq<File>) {
    forall f <- files :: f.Valid() && f.name != TrailerName()
  }

  function Archive(files: seq<File>, trailer: File): seq<byte>
    requires ValidFiles(files) && trailer.Valid()
  {
    if files == [] then Entry(trailer) else Entry(files[0]) + Archive(files[1..], trailer)
  }

  // Where the printer puts the files.

  /** Memory has the archive of these files at `start`. */
  predicate Loaded(mem: seq<byte>, start: nat, files: seq<File>, trailer: File) {
    && |mem| <= WORD && start % 4 == 0
    && ValidFiles(files) && trailer.Valid() && trailer.name == TrailerName()
    && Within(mem, start, Archive(files, trailer))
  }

  /** The address of file `k` of the archive at `start`; the trailer is the file after the last. */
  function AddrOf(start: nat, files: seq<File>, k: nat): (r: nat)
    requires ValidFiles(files) && k <= |files|
    ensures r >= start
    decreases k
  {
    if k == 0 then start else AddrOf(start + |Entry(files[0])|, files[1..], k - 1)
  }

  // The parser.

  predicate HasMagic(mem: seq<byte>, addr: nat) {
    Within(mem, addr, Magic())
  }

  /** The data of the file at `addr`; addresses wrap at 64 bits. */
  function DataAddr(mem: seq<byte>, addr: nat): nat
    requires addr + HEADER_SIZE <= |mem|
  {
    AlignUp(addr + HEADER_SIZE + HexAt(mem, addr + NAMESIZE)) % WORD
  }

  function NextHeader(mem: seq<byte>, addr: nat): nat
    requires addr + HEADER_SIZE <= |mem|
  {
    AlignUp(DataAddr(mem, addr) + HexAt(mem, addr + FILESIZE)) % WORD
  }

  function NameAt(mem: seq<byte>, addr: nat): seq<byte>
    requires addr + HEADER_SIZE <= |mem|
  {
    Text(mem, addr + HEADER_SIZE, HexAt(mem, addr + NAMESIZE))
  }

  /** The name is that of the trailer, as far as the announced size of the name goes. */
  predicate IsTrailer(mem: seq<byte>, addr: nat)
    requires addr + HEADER_SIZE <= |mem|
  {
    NameAt(mem, addr) == Text(TrailerName() + [0], 0, HexAt(mem, addr + NAMESIZE))
  }

  /** Memory can be read as a header and, if it is one, as the name it announces. */
  predicate ReadableHeader(mem: seq<byte>, addr: nat) {
    && addr + HEADER_SIZE <= |mem| <= WORD
    && (HasMagic(mem, addr) ==> Readable(mem, addr + HEADER_SIZE, HexAt(mem, addr + NAMESIZE)))
  }

  /** `initrd_check_magic` */
  method CheckMagic(mem: seq<byte>, addr: nat) returns (ok: bool)
    requires addr + HEADER_SIZE <= |mem|
    ensures ok <==> HasMagic(mem, addr)
  {
    var magic := Magic();
    MagicHasNoNul();
    ok := Streqln(mem, addr, magic, 0, 6);
    TextSplit(magic, 0, 6, 6);
    assert magic[0..6] == magic && Text(magic, 6, 0) == [];
    if HasMagic(mem, addr) {
      TextSplit(mem, addr, 6, 6);
    } else if ok {
      TextIsPrefix(mem, addr, 6);
    }
  }

  lemma MagicHasNoNul()
    ensures 0 !in Magic()
  {
    var s := "070701";
    assert forall i :: 0 <= i < |s| ==> 0 < (s[i] as int) < 256;
  }

  lemma {:induction false} TextIsPrefix(mem: seq<byte>, at: nat, n: nat)
    requires at <= |mem|
    ensures Within(mem, at, Text(mem, at, n))
    decreases n
  {
    if !(n == 0 || at >= |mem| || mem[at] == 0) {
      TextIsPrefix(mem, at + 1, n - 1);
      var t := Text(mem, at + 1, n - 1);
      assert mem[at..at + 1 + |t|] == [mem[at]] + mem[at + 1..at + 1 + |t|];
    }
  }

  /** `initrd_get_filepath` */
  method GetFilepath(mem: seq<byte>, addr: nat) returns (name: nat, size: nat)
    requires addr + HEADER_SIZE <= |mem|
    ensures !HasMagic(mem, addr) ==> name == 0
    ensures HasMagic(mem, addr) ==> name == addr + HEADER_SIZE && size == HexAt(mem, addr + NAMESIZE)
  {
    name, size := 0, 0;
    var ok := CheckMagic(mem, addr);
    if !ok { return; }
    size := Xtoi32(mem, addr + NAMESIZE);
    name := addr + HEADER_SIZE;
  }

  /** `initrd_get_filedata` */
  method GetFiledata(mem: seq<byte>, addr: nat) returns (data: nat, size: nat)
    requires addr + HEADER_SIZE <= |mem|
    ensures !HasMagic(mem, addr) ==> data == 0 && size == 0
    ensures HasMagic(mem, addr) ==> data == DataAddr(mem, addr) && size == HexAt(mem, addr + FILESIZE)
  {
    data, size := 0, 0;
    var ok := CheckMagic(mem, addr);
    if !ok { return; }
    var nameSize := Xtoi32(mem, addr + NAMESIZE);
    data := AlignUp(addr + HEADER_SIZE + nameSize) % WORD;
    size := Xtoi32(mem, addr + FILESIZE);
  }

  /** The file after the one at `addr`, or 0 when a trailer or no header follows. */
  function Next(mem: seq<byte>, addr: nat): nat
    requires addr + HEADER_SIZE <= |mem|
    requires HasMagic(mem, addr) ==> NextHeader(mem, addr) + HEADER_SIZE <= |mem|
  {
    if !HasMagic(mem, addr) then 0
    else
      var next := NextHeader(mem, addr);
      if HasMagic(mem, next) && !IsTrailer(mem, next) then next else 0
  }

  /** `initrd_get_next_file_addr` */
  method GetNextFileAddr(mem: seq<byte>, addr: nat) returns (r: nat)
    requires addr + HEADER_SIZE <= |mem|
    requires HasMagic(mem, addr) ==> ReadableHeader(mem, NextHeader(mem, addr))
    ensures r == Next(mem, addr)
  {
    var ok := CheckMagic(mem, addr);
    if !ok { return 0; }
    var pathSize := Xtoi32(mem, addr + NAMESIZE);
    var fileSize := Xtoi32(mem, addr + FILESIZE);
    var nextAddr := AlignUp(addr + HEADER_SIZE + pathSize) % WORD;
    nextAddr := AlignUp(nextAddr + fileSize) % WORD;
    var nextName, nextPathSize := GetFilepath(mem, nextAddr);
    if nextName == 0 { return 0; }
    var trailer := TrailerName() + [0];
    assert trailer[10] == 0;
    var last := Streqln(mem, nextName, trailer, 0, nextPathSize);
    if last { return 0; }
    return nextAddr;
  }

  // The parser on what the printer wrote.

  /** The header of entry `f` of the archive at `addr`, its name and its data. */
  predicate EntryAt(mem: seq<byte>, addr: nat, f: File)
    requires f.Valid()
  {
    && addr % 4 == 0 && addr + |Entry(f)| <= |mem| <= WORD
    && HasMagic(mem, addr)
    && HexAt(mem, addr + NAMESIZE) == |f.name| + 1
    && HexAt(mem, addr + FILESIZE) == |f.data|
    && Within(mem, addr + HEADER_SIZE, f.name + [0])
    && Within(mem, addr + DataOffset(f), f.data)
  }

  lemma HexHeld(mem: seq<byte>, at: nat, x: u32, upper: bool)
    requires Within(mem, at, Hex(x, 8, upper))
    ensures HexAt(mem, at) == x
  {
    Pow16Eight();
    HexRoundTrip(x, 8, upper);
  }

  /** The parts of a header that the parser reads. */
  lemma HeaderParts(f: File)
    requires f.Valid()
    ensures Within(Header(f), 0, Magic())
    ensures Within(Header(f), FILESIZE, Hex(|f.data|, 8, f.upper))
    ensures Within(Header(f), NAMESIZE, Hex(|f.name| + 1, 8, f.upper))
  {
    hide Hex, Fields, Magic;
    var inode, device, check := Fields(f.inode, f.upper), Fields(f.device, f.upper), Hex(f.check, 8, f.upper);
    var filesize, namesize := Hex(|f.data|, 8, f.upper), Hex(|f.name| + 1, 8, f.upper);
    Middle([], Magic(), inode + filesize + device + namesize + check, Header(f));
    Middle(Magic() + inode, filesize, device + namesize + check, Header(f));
    Middle(Magic() + inode + filesize + device, namesize, check, Header(f));
  }

  /** Where the name and the data are in an entry. */
  lemma EntryParts(f: File)
    requires f.Valid()
    ensures Within(Entry(f), 0, Header(f))
    ensures Within(Entry(f), HEADER_SIZE, f.name + [0])
    ensures Within(Entry(f), DataOffset(f), f.data)
  {
    hide Header, Padding, AlignUp;
    var h, name := Header(f), f.name + [0];
    assert h + f.name + [0] == h + name;
    var n := AlignUp(|h + name|);
    var pad, rest := Padding(n - |h + name|), Padding(AlignUp(|f.data|) - |f.data|);
    EntrySplit(h, name, pad, f.data, rest);
  }

  lemma EntrySplit(h: seq<byte>, name: seq<byte>, pad: seq<byte>, data: seq<byte>, rest: seq<byte>)
    ensures var s := (h + name + pad) + (data + rest);
      Within(s, 0, h) && Within(s, |h|, name) && Within(s, |h + name + pad|, data)
  {
  }

  lemma EntryHeld(mem: seq<byte>, addr: nat, f: File)
    requires f.Valid() && addr % 4 == 0 && |mem| <= WORD && Within(mem, addr, Entry(f))
    ensures EntryAt(mem, addr, f)
  {
    hide Entry, Header, Hex, HexAt, Magic;
    EntryParts(f);
    HeaderParts(f);
    WithinWithin(mem, addr, Entry(f), 0, Header(f));
    WithinWithin(mem, addr, Entry(f), HEADER_SIZE, f.name + [0]);
    WithinWithin(mem, addr, Entry(f), DataOffset(f), f.data);
    WithinWithin(mem, addr, Header(f), 0, Magic());
    WithinWithin(mem, addr, Header(f), FILESIZE, Hex(|f.data|, 8, f.upper));
    WithinWithin(mem, addr, Header(f), NAMESIZE, Hex(|f.name| + 1, 8, f.upper));
    HexHeld(mem, addr + FILESIZE, |f.data|, f.upper);
    HexHeld(mem, addr + NAMESIZE, |f.name| + 1, f.upper);
  }

  /** Entry `k` of a loaded archive: a file, or the trailer. */
  function EntryFile(files: seq<File>, trailer: File, k: nat): (f: File)
    requires k <= |files| && ValidFiles(files) && trailer.Valid()
    ensures f.Valid()
  {
    if k < |files| then files[k] else trailer
  }

  /** Every file, and the trailer, is where the printer put it, one after another. */
  lemma {:induction false} ArchiveEntry(mem: seq<byte>, start: nat, files: seq<File>, trailer: File, k: nat)
    requires Loaded(mem, start, files, trailer) && k <= |files|
    ensures EntryAt(mem, AddrOf(start, files, k), EntryFile(files, trailer, k))
    ensures k < |files| ==> AddrOf(start, files, k + 1) == AddrOf(start, files, k) + |Entry(files[k])|
    decreases k
  {
    hide EntryAt, Entry, Within, Archive;
    ArchiveParts(mem, start, files, trailer);
    if files == [] {
      EntryHeld(mem, start, trailer);
    } else if k == 0 {
      EntryHeld(mem, start, files[0]);
      assert AddrOf(start + |Entry(files[0])|, files[1..], 0) == start + |Entry(files[0])|;
    } else {
      ArchiveEntry(mem, start + |Entry(files[0])|, files[1..], trailer, k - 1);
    }
  }

  lemma FirstEntry(files: seq<File>, trailer: File)
    requires ValidFiles(files) && trailer.Valid() && files != []
    ensures files[0].Valid() && ValidFiles(files[1..])
    ensures Archive(files, trailer) == Entry(files[0]) + Archive(files[1..], trailer)
  {
    hide Entry;
  }

  lemma {:induction false} ArchiveParts(mem: seq<byte>, start: nat, files: seq<File>, trailer: File)
    requires Loaded(mem, start, files, trailer)
    ensures Within(mem, start, Entry(if files == [] then trailer else files[0]))
    ensures files != [] ==> Loaded(mem, start + |Entry(files[0])|, files[1..], trailer)
  {
    hide Entry, Within, ValidFiles;
    if files == [] {
      assert Archive(files, trailer) == Entry(trailer);
    } else {
      FirstEntry(files, trailer);
      var a, e, rest := Archive(files, trailer), Entry(files[0]), Archive(files[1..], trailer);
      Middle([], e, rest, a);
      Middle(e, rest, [], a);
      WithinWithin(mem, start, a, 0, e);
      WithinWithin(mem, start, a, |e|, rest);
      EntryMultiple(files[0]);
    }
  }

  lemma EntryMultiple(f: File)
    requires f.Valid()
    ensures |Entry(f)| % 4 == 0
  {
    hide Entry, AlignUp;
  }

  /** The parser's view of the memory at `addr`: file `f`, and `next` after it. */
  predicate ParsedAs(mem: seq<byte>, addr: nat, f: File, next: nat) {
    && addr + HEADER_SIZE <= |mem| && HasMagic(mem, addr)
    && HexAt(mem, addr + NAMESIZE) == |f.name| + 1 && Within(mem, addr + HEADER_SIZE, f.name + [0])
    && HexAt(mem, addr + FILESIZE) == |f.data| && Within(mem, DataAddr(mem, addr), f.data)
    && NextHeader(mem, addr) == next && ReadableHeader(mem, next)
  }

  lemma EntryAligned(addr: nat, f: File)
    requires f.Valid() && addr % 4 == 0
    ensures AlignUp(addr + HEADER_SIZE + (|f.name| + 1)) == addr + DataOffset(f)
    ensures AlignUp(addr + DataOffset(f) + |f.data|) == addr + |Entry(f)|
  {
    hide Entry, AlignUp;
    AlignShift(addr, HEADER_SIZE + (|f.name| + 1));
    AlignShift(addr + DataOffset(f), |f.data|);
  }

  lemma EntryAddresses(mem: seq<byte>, addr: nat, f: File)
    requires f.Valid() && EntryAt(mem, addr, f) && addr + |Entry(f)| < WORD
    ensures DataAddr(mem, addr) == addr + DataOffset(f)
    ensures NextHeader(mem, addr) == addr + |Entry(f)|
  {
    hide HexAt, HasMagic, Within, AlignUp, Entry;
    EntryAligned(addr, f);
  }

  lemma NameHeld(mem: seq<byte>, addr: nat, f: File)
    requires f.Valid() && EntryAt(mem, addr, f)
    ensures NameAt(mem, addr) == f.name
    ensures IsTrailer(mem, addr) <==> f.name == TrailerName()
    ensures ReadableHeader(mem, addr)
  {
    hide HexAt, Hex, Entry, TrailerName, Text, HasMagic;
    var at := addr + HEADER_SIZE;
    WithinSnoc(mem, at, f.name, 0);
    TextTerminated(mem, at, |f.name| + 1, f.name);
    TrailerText(f.name);
  }

  lemma TrailerText(name: seq<byte>)
    ensures Text(TrailerName() + [0], 0, |name| + 1) == name <==> name == TrailerName()
  {
    hide TrailerName, Text;
    SameString(TrailerName() + [0], 0, name);
    assert (TrailerName() + [0])[..10] == TrailerName();
    TextTerminated(TrailerName() + [0], 0, 11, TrailerName());
  }

  /** Two entries in a row: the parser reads the first and steps to the second unless that is the trailer. */
  lemma EntryParsed(mem: seq<byte>, addr: nat, f: File, g: File)
    requires f.Valid() && g.Valid() && EntryAt(mem, addr, f) && EntryAt(mem, addr + |Entry(f)|, g)
    ensures ParsedAs(mem, addr, f, addr + |Entry(f)|)
    ensures NameAt(mem, addr) == f.name
    ensures Next(mem, addr) == if g.name == TrailerName() then 0 else addr + |Entry(f)|
  {
    hide HexAt, TrailerName, Magic, IsTrailer, Text, Entry, AlignUp, Within, HasMagic, DataAddr, NextHeader;
    NameHeld(mem, addr, f);
    EntryAddresses(mem, addr, f);
    NameHeld(mem, addr + |Entry(f)|, g);
  }

  /**
   The walk: at the address of file `k` the parser finds the name and the data of file `k`, and steps
   to the address of file `k + 1`, or stops after the last file.
   */
  lemma WalkStep(mem: seq<byte>, start: nat, files: seq<File>, trailer: File, k: nat)
    requires Loaded(mem, start, files, trailer) && k < |files|
    ensures ParsedAs(mem, AddrOf(start, files, k), files[k], AddrOf(start, files, k + 1))
    ensures NameAt(mem, AddrOf(start, files, k)) == files[k].name
    ensures Next(mem, AddrOf(start, files, k)) == if k + 1 < |files| then AddrOf(start, files, k + 1) else 0
  {
    hide HexAt, TrailerName, Magic, Archive, AddrOf, Text, Entry, EntryAt, Next, Within, ParsedAs;
    ArchiveEntry(mem, start, files, trailer, k);
    ArchiveEntry(mem, start, files, trailer, k + 1);
    EntryParsed(mem, AddrOf(start, files, k), files[k], EntryFile(files, trailer, k + 1));
  }

  /** Memory has no further header at `addr`. */
  predicate NothingFollows(mem: seq<byte>, addr: nat) {
    ReadableHeader(mem, addr) && !HasMagic(mem, addr)
  }

  /** A loaded archive; after one of no files no other archive follows. */
  predicate Complete(mem: seq<byte>, start: nat, files: seq<File>, trailer: File) {
    && Loaded(mem, start, files, trailer)
    && (files == [] ==> NothingFollows(mem, start + |Entry(trailer)|))
  }

  /**
   An archive of no files is not seen to be empty: the parser finds the trailer as a file, with its name and
   its data, and nothing after it.
   */
  lemma EmptyArchive(mem: seq<byte>, start: nat, trailer: File)
    requires Complete(mem, start, [], trailer)
    ensures ParsedAs(mem, start, trailer, start + |Entry(trailer)|)
    ensures NameAt(mem, start) == TrailerName() && Next(mem, start) == 0
  {
    hide HexAt, TrailerName, Magic, IsTrailer, Text, Entry, AlignUp, Within, HasMagic, DataAddr, NextHeader, Archive;
    ArchiveEntry(mem, start, [], trailer, 0);
    NameHeld(mem, start, trailer);
    EntryAddresses(mem, start, trailer);
  }

  /** The files that the parser sees: those of the archive, and the trailer exactly if there are none. */
  function Seen(files: seq<File>, trailer: File): (r: seq<File>)
    ensures r == files <==> files != []
    ensures |r| > 0
  {
    if files == [] then [trailer] else files
  }

  /** Where the parser sees them. */
  function SeenAddr(start: nat, files: seq<File>, k: nat): (r: nat)
    requires ValidFiles(files) && (files != [] ==> k <= |files|)
    ensures r >= start
  {
    if files == [] then start else AddrOf(start, files, k)
  }

  function SeenEnd(start: nat, files: seq<File>, trailer: File, k: nat): nat
    requires ValidFiles(files) && trailer.Valid() && (files != [] ==> k < |files|)
  {
    if files == [] then start + |Entry(trailer)| else AddrOf(start, files, k + 1)
  }

  /** One step of the walk over what the parser sees. */
  lemma SeenStep(mem: seq<byte>, start: nat, files: seq<File>, trailer: File, k: nat)
    requires Complete(mem, start, files, trailer) && k < |Seen(files, trailer)|
    ensures ValidFiles(files) && trailer.Valid()
    ensures ParsedAs(mem, SeenAddr(start, files, k), Seen(files, trailer)[k], SeenEnd(start, files, trailer, k))
    ensures NameAt(mem, SeenAddr(start, files, k)) == Seen(files, trailer)[k].name
    ensures Next(mem, SeenAddr(start, files, k)) ==
      if k + 1 < |Seen(files, trailer)| then SeenAddr(start, files, k + 1) else 0
  {
    hide TrailerName, Archive, AddrOf, Entry, Next, ParsedAs, HexAt, Text, NothingFollows;
    if files == [] { EmptyArchive(mem, start, trailer); } else { WalkStep(mem, start, files, trailer, k); }
  }

  lemma ParsedFacts(mem: seq<byte>, addr: nat, f: File, next: nat)
    requires ParsedAs(mem, addr, f, next)
    ensures addr + HEADER_SIZE + |f.name| + 1 <= |mem| && HasMagic(mem, addr)
    ensures HexAt(mem, addr + NAMESIZE) == |f.name| + 1 && HexAt(mem, addr + FILESIZE) == |f.data|
    ensures mem[addr + HEADER_SIZE..addr + HEADER_SIZE + |f.name| + 1] == f.name + [0]
    ensures Within(mem, DataAddr(mem, addr), f.data)
    ensures NextHeader(mem, addr) == next && ReadableHeader(mem, next)
  {
    hide HexAt, Magic;
  }

  /** `addr` is that of the first of the files with this name that the parser sees. */
  ghost predicate FirstNamed(files: seq<File>, trailer: File, start: nat, name: seq<byte>, addr: nat) {
    ValidFiles(files) &&
    exists k :: 0 <= k < |Seen(files, trailer)| && Seen(files, trailer)[k].name == name &&
      addr == SeenAddr(start, files, k)
      && forall f <- Seen(files, trailer)[..k] :: f.name != name
  }

  lemma Found(files: seq<File>, trailer: File, start: nat, name: seq<byte>, k: nat)
    requires ValidFiles(files) && k < |Seen(files, trailer)| && Seen(files, trailer)[k].name == name
    requires forall f <- Seen(files, trailer)[..k] :: f.name != name
    ensures FirstNamed(files, trailer, start, name, SeenAddr(start, files, k))
  {
  }

  /** In an archive of no files, a lookup can find the trailer, at the start, and nothing else. */
  lemma EmptyLookup(trailer: File, start: nat, name: seq<byte>, addr: nat)
    ensures FirstNamed([], trailer, start, name, addr) <==> name == trailer.name && addr == start
  {
    if name == trailer.name { Found([], trailer, start, name, 0); }
  }

  /** `initrd_get_file_addr`: the first file of that whole name, or 0. */
  method GetFileAddr(mem: seq<byte>, start: nat, path: seq<byte>, ghost files: seq<File>, ghost trailer: File)
    returns (addr: nat)
    requires 0 < start && start + HEADER_SIZE <= |mem|
    requires Terminated(path, 0)
    requires HasMagic(mem, start) ==> Complete(mem, start, files, trailer)
    ensures !HasMagic(mem, start) ==> addr == 0
    ensures HasMagic(mem, start) && addr == 0 ==> forall f <- Seen(files, trailer) :: f.name != Str(path, 0)
    ensures addr != 0 ==> HasMagic(mem, start) && FirstNamed(files, trailer, start, Str(path, 0), addr)
  {
    hide Complete, ParsedAs, Str, Text, HexAt, Next, HasMagic, ReadableHeader, NextHeader, DataAddr, AddrOf, FirstNamed;
    hide SeenAddr, SeenEnd, Seen;
    var ok := CheckMagic(mem, start);
    if !ok { return 0; }
    addr := start;
    FirstFile(mem, start, files, trailer);
    ghost var seen, k := Seen(files, trailer), 0;
    while addr != 0
      invariant k <= |seen| && ValidFiles(files) && (files != [] ==> |seen| == |files|)
      invariant addr == if k < |seen| then SeenAddr(start, files, k) else 0
      invariant forall f <- seen[..k] :: f.name != Str(path, 0)
      decreases |seen| - k
    {
      SeenStep(mem, start, files, trailer, k);
      ParsedFacts(mem, addr, seen[k], SeenEnd(start, files, trailer, k));
      var name, size := GetFilepath(mem, addr);
      var found := Streqln(path, 0, mem, name, size);
      SameString(path, 0, seen[k].name);
      if found {
        Found(files, trailer, start, Str(path, 0), k);
        return;
      }
      addr := GetNextFileAddr(mem, addr);
      k := k + 1;
    }
  }

  lemma FirstFile(mem: seq<byte>, start: nat, files: seq<File>, trailer: File)
    requires Complete(mem, start, files, trailer)
    ensures ValidFiles(files) && SeenAddr(start, files, 0) == start
  {
  }

  /** A file as the walk reports it: the path with its NUL, and the data. */
  datatype Listed = Listed(path: seq<byte>, data: seq<byte>)

  /** The first `n` files as the walk is to report them. */
  function Listing(files: seq<File>, n: nat): (r: seq<Listed>)
    requires n <= |files|
    ensures |r| == n
  {
    if n == 0 then [] else Listing(files, n - 1) + [Listed(files[n - 1].name + [0], files[n - 1].data)]
  }

  /** Path and data of the file at `addr`, as `command_ls` and `command_cat` read them. */
  method Read(mem: seq<byte>, addr: nat, ghost f: File, ghost next: nat) returns (r: Listed)
    requires ParsedAs(mem, addr, f, next)
    ensures r == Listed(f.name + [0], f.data)
  {
    hide ParsedAs, HexAt, HasMagic, ReadableHeader, NextHeader, DataAddr;
    ParsedFacts(mem, addr, f, next);
    var name, nameSize := GetFilepath(mem, addr);
    var data, dataSize := GetFiledata(mem, addr);
    r := Listed(mem[name..name + nameSize], mem[data..data + dataSize]);
  }

  /** The walk of `command_ls` and `command_cat` over the archive: every file, in order, and no other. */
  method List(mem: seq<byte>, start: nat, ghost files: seq<File>, ghost trailer: File) returns (listed: seq<Listed>)
    requires 0 < start && start + HEADER_SIZE <= |mem|
    requires HasMagic(mem, start) ==> Complete(mem, start, files, trailer)
    ensures listed == if HasMagic(mem, start) then Listing(Seen(files, trailer), |Seen(files, trailer)|) else []
  {
    hide Complete, ParsedAs, HexAt, Next, HasMagic, ReadableHeader, NextHeader, DataAddr, NameAt, AddrOf, ValidFiles;
    hide SeenAddr, SeenEnd, Seen;
    listed := [];
    var ok := CheckMagic(mem, start);
    if !ok { return; }
    var addr := start;
    FirstFile(mem, start, files, trailer);
    ghost var seen := Seen(files, trailer);
    while addr != 0
      invariant |listed| <= |seen| && ValidFiles(files) && (files != [] ==> |seen| == |files|)
      invariant addr == if |listed| < |seen| then SeenAddr(start, files, |listed|) else 0
      invariant listed == Listing(seen, |listed|)
      decreases |seen| - |listed|
    {
      ghost var k := |listed|;
      SeenStep(mem, start, files, trailer, k);
      ParsedFacts(mem, addr, seen[k], SeenEnd(start, files, trailer, k));
      var read := Read(mem, addr, seen[k], SeenEnd(start, files, trailer, k));
      listed := listed + [read];
      addr := GetNextFileAddr(mem, addr);
    }
  }
}
