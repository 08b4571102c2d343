/**
  A stored ZIP archive: the bytes a writer lays out, and a reader that starts at the end.

  The reader follows sections 4.3.16, 4.3.12 and 4.3.7 of PKWARE's APPNOTE.TXT: the end record
  gives the central directory, whose entries give each local header and the data after it.
*/
module ZipFormat {
  import opened Checksum
  import opened LittleEndian
  import opened Wrappers

  datatype File = File(name: seq<Byte>, bytes: seq<Byte>)

  // ---- layout ----

  function LocalHead(crc: nat, size: nat, nameSize: nat): (r: seq<Byte>)
    ensures |r| == 30
  {
    Little(0x04034b50, 4) + Little(20, 2) + Little(0x800, 2) + Little(0, 2) + Little(0, 2) + Little(0x21, 2)
    + Little(crc, 4) + Little(size, 4) + Little(size, 4) + Little(nameSize, 2) + Little(0, 2)
  }

  function CentralHead(crc: nat, size: nat, nameSize: nat, offset: nat): (r: seq<Byte>)
    ensures |r| == 46
  {
    Little(0x02014b50, 4) + Little(20, 2) + Little(20, 2) + Little(0x800, 2) + Little(0, 2) + Little(0, 2) + Little(0x21, 2)
    + Little(crc, 4) + Little(size, 4) + Little(size, 4) + Little(nameSize, 2) + Little(0, 2) + Little(0, 2) + Little(0, 2)
    + Little(0, 2) + Little(0, 4) + Little(offset, 4)
  }

  function End(count: nat, size: nat, offset: nat): (r: seq<Byte>)
    ensures |r| == 22
  {
    Little(0x06054b50, 4) + Little(0, 2) + Little(0, 2) + Little(count, 2) + Little(count, 2) + Little(size, 4)
    + Little(offset, 4) + Little(0, 2)
  }

  function Local(f: File): seq<Byte> {
    LocalHead(CrcOf(f.bytes), |f.bytes|, |f.name|) + f.name + f.bytes
  }

  function Central(f: File, offset: nat): seq<Byte> {
    CentralHead(CrcOf(f.bytes), |f.bytes|, |f.name|, offset) + f.name
  }

  function Locals(files: seq<File>): seq<Byte> {
    if files == [] then [] else Locals(files[..|files| - 1]) + Local(files[|files| - 1])
  }

  function Centrals(files: seq<File>): seq<Byte> {
    if files == [] then []
    else
      var front := files[..|files| - 1];
      Centrals(front) + Central(files[|files| - 1], |Locals(front)|)
  }

  function Archive(files: seq<File>): seq<Byte> {
    Locals(files) + Centrals(files) + End(|files|, |Centrals(files)|, |Locals(files)|)
  }

  /** What the writer reserves before it starts. */
  function Capacity(files: seq<File>): nat {
    if files == [] then 22
    else Capacity(files[..|files| - 1]) + 76 + 2 * |files[|files| - 1].name| + |files[|files| - 1].bytes|
  }

  lemma {:induction false} PartsCapacity(files: seq<File>)
    ensures |Locals(files)| + |Centrals(files)| + 22 == Capacity(files)
  {
    hide LocalHead, CentralHead, CrcOf;
    if files != [] { PartsCapacity(files[..|files| - 1]); }
  }

  /** The reservation is exact. */
  lemma {:induction false} CapacityExact(files: seq<File>)
    ensures |Archive(files)| == Capacity(files)
  {
    PartsCapacity(files);
  }

  // ---- reading ----

  function Word(b: seq<Byte>, at: nat, size: nat): nat
    requires at + size <= |b|
  {
    Value(b[at..at + size])
  }

  /** A local header and its data, as its directory entry announced them. */
  function ReadLocal(b: seq<Byte>, at: nat, name: seq<Byte>, crc: nat, size: nat): Option<File> {
    if at + 30 > |b| || Word(b, at, 4) != 0x04034b50 || Word(b, at + 8, 2) != 0 then None
    else
      var nameSize, extra := Word(b, at + 26, 2), Word(b, at + 28, 2);
      var start := at + 30 + nameSize + extra;
      if start + size > |b| || b[at + 30..at + 30 + nameSize] != name then None
      else if Word(b, at + 14, 4) != crc || Word(b, at + 18, 4) != size || Word(b, at + 22, 4) != size then None
      else if CrcOf(b[start..start + size]) != crc then None
      else Some(File(name, b[start..start + size]))
  }

  /** A directory entry and what it leads to, with the place after the entry. */
  function ReadEntry(b: seq<Byte>, at: nat): Option<(File, nat)> {
    if at + 46 > |b| || Word(b, at, 4) != 0x02014b50 || Word(b, at + 10, 2) != 0 then None
    else
      var nameSize := Word(b, at + 28, 2);
      if at + 46 + nameSize > |b| || Word(b, at + 20, 4) != Word(b, at + 24, 4) then None
      else
        var name := b[at + 46..at + 46 + nameSize];
        match ReadLocal(b, Word(b, at + 42, 4), name, Word(b, at + 16, 4), Word(b, at + 20, 4))
        case None => None
        case Some(file) => Some((file, at + 46 + nameSize + Word(b, at + 30, 2) + Word(b, at + 32, 2)))
  }

  /** The directory's entries from `at` on, up to where it must end. */
  function ReadCentral(b: seq<Byte>, at: nat, count: nat, end: nat): Option<seq<File>>
    decreases count
  {
    if count == 0 then (if at == end then Some([]) else None)
    else
      match ReadEntry(b, at)
      case None => None
      case Some((file, next)) =>
        match ReadCentral(b, next, count - 1, end)
        case None => None
        case Some(others) => Some([file] + others)
  }

  function Read(b: seq<Byte>): Option<seq<File>> {
    if |b| < 22 then None
    else
      var e := |b| - 22;
      if Word(b, e, 4) != 0x06054b50 || Word(b, e + 4, 2) != 0 || Word(b, e + 6, 2) != 0 || Word(b, e + 20, 2) != 0 then None
      else if Word(b, e + 8, 2) != Word(b, e + 10, 2) then None
      else
        var offset, size := Word(b, e + 16, 4), Word(b, e + 12, 4);
        if offset + size != e then None else ReadCentral(b, offset, Word(b, e + 10, 2), e)
  }

  // ---- where things lie ----

  ghost predicate Holds(b: seq<Byte>, at: nat, s: seq<Byte>) {
    at + |s| <= |b| && b[at..at + |s|] == s
  }

  lemma HoldsParts(b: seq<Byte>, at: nat, s: seq<Byte>, t: seq<Byte>)
    requires Holds(b, at, s + t)
    ensures Holds(b, at, s) && Holds(b, at + |s|, t)
  {
    var whole := b[at..at + |s| + |t|];
    assert whole[..|s|] == s && whole[|s|..] == t;
    assert b[at..at + |s|] == whole[..|s|] && b[at + |s|..at + |s| + |t|] == whole[|s|..];
  }

  /** The last field of a record, and the record before it. */
  lemma LastField(b: seq<Byte>, at: nat, front: seq<Byte>, value: nat, size: nat)
    requires Holds(b, at, front + Little(value, size)) && value < Range(size)
    ensures Holds(b, at, front) && Word(b, at + |front|, size) == value
  {
    HoldsParts(b, at, front, Little(value, size));
    ValueOfLittle(value, size);
  }

  lemma LocalHeadFields(b: seq<Byte>, at: nat, crc: nat, size: nat, nameSize: nat)
    requires Holds(b, at, LocalHead(crc, size, nameSize))
    requires crc < 0x1_0000_0000 && size < 0x1_0000_0000 && nameSize < 0x1_0000
    ensures at + 30 <= |b| && Word(b, at, 4) == 0x04034b50 && Word(b, at + 8, 2) == 0
    ensures Word(b, at + 4, 2) == 20 && Word(b, at + 6, 2) == 0x800 && Word(b, at + 10, 2) == 0 && Word(b, at + 12, 2) == 0x21
    ensures Word(b, at + 14, 4) == crc && Word(b, at + 18, 4) == size == Word(b, at + 22, 4)
    ensures Word(b, at + 26, 2) == nameSize && Word(b, at + 28, 2) == 0
  {
    hide Little, Word, Holds;
    Ranges();
    var h1 := Little(0x04034b50, 4);
    var h3 := h1 + Little(20, 2) + Little(0x800, 2);
    var h6 := h3 + Little(0, 2) + Little(0, 2) + Little(0x21, 2);
    var h8 := h6 + Little(crc, 4) + Little(size, 4);
    var h10 := h8 + Little(size, 4) + Little(nameSize, 2);
    LastField(b, at, h10, 0, 2);
    LastField(b, at, h8 + Little(size, 4), nameSize, 2);
    LastField(b, at, h8, size, 4);
    LastField(b, at, h6 + Little(crc, 4), size, 4);
    LastField(b, at, h6, crc, 4);
    LastField(b, at, h3 + Little(0, 2) + Little(0, 2), 0x21, 2);
    LastField(b, at, h3 + Little(0, 2), 0, 2);
    LastField(b, at, h3, 0, 2);
    LastField(b, at, h1 + Little(20, 2), 0x800, 2);
    LastField(b, at, h1, 20, 2);
    assert [] + h1 == h1;
    LastField(b, at, [], 0x04034b50, 4);
    InRange(b, at, LocalHead(crc, size, nameSize));
  }

  lemma InRange(b: seq<Byte>, at: nat, s: seq<Byte>)
    requires Holds(b, at, s)
    ensures at + |s| <= |b|
  {
  }

  lemma CentralHeadFields(b: seq<Byte>, at: nat, crc: nat, size: nat, nameSize: nat, offset: nat)
    requires Holds(b, at, CentralHead(crc, size, nameSize, offset))
    requires crc < 0x1_0000_0000 && size < 0x1_0000_0000 && nameSize < 0x1_0000 && offset < 0x1_0000_0000
    ensures at + 46 <= |b| && Word(b, at, 4) == 0x02014b50 && Word(b, at + 10, 2) == 0
    ensures Word(b, at + 16, 4) == crc && Word(b, at + 20, 4) == size == Word(b, at + 24, 4)
    ensures Word(b, at + 4, 2) == 20 == Word(b, at + 6, 2) && Word(b, at + 8, 2) == 0x800
    ensures Word(b, at + 12, 2) == 0 && Word(b, at + 14, 2) == 0x21
    ensures Word(b, at + 28, 2) == nameSize && Word(b, at + 30, 2) == 0 == Word(b, at + 32, 2)
    ensures Word(b, at + 34, 2) == 0 == Word(b, at + 36, 2) && Word(b, at + 38, 4) == 0 && Word(b, at + 42, 4) == offset
  {
    hide Little, Word, Holds;
    Ranges();
    var h1 := Little(0x02014b50, 4);
    var h4 := h1 + Little(20, 2) + Little(20, 2) + Little(0x800, 2);
    var h7 := h4 + Little(0, 2) + Little(0, 2) + Little(0x21, 2);
    var h10 := h7 + Little(crc, 4) + Little(size, 4) + Little(size, 4);
    var h13 := h10 + Little(nameSize, 2) + Little(0, 2) + Little(0, 2);
    var h16 := h13 + Little(0, 2) + Little(0, 2) + Little(0, 4);
    InRange(b, at, CentralHead(crc, size, nameSize, offset));
    LastField(b, at, h16, offset, 4);
    LastField(b, at, h13 + Little(0, 2) + Little(0, 2), 0, 4);
    LastField(b, at, h13 + Little(0, 2), 0, 2);
    LastField(b, at, h13, 0, 2);
    CentralHeadFront(b, at, crc, size, nameSize);
  }

  /** The fields up to the comment's length. */
  lemma CentralHeadFront(b: seq<Byte>, at: nat, crc: nat, size: nat, nameSize: nat)
    requires crc < 0x1_0000_0000 && size < 0x1_0000_0000 && nameSize < 0x1_0000
    requires Holds(b, at, Little(0x02014b50, 4) + Little(20, 2) + Little(20, 2) + Little(0x800, 2) + Little(0, 2)
                          + Little(0, 2) + Little(0x21, 2) + Little(crc, 4) + Little(size, 4) + Little(size, 4)
                          + Little(nameSize, 2) + Little(0, 2) + Little(0, 2))
    ensures at + 34 <= |b| && Word(b, at, 4) == 0x02014b50 && Word(b, at + 10, 2) == 0
    ensures Word(b, at + 16, 4) == crc && Word(b, at + 20, 4) == size == Word(b, at + 24, 4)
    ensures Word(b, at + 4, 2) == 20 == Word(b, at + 6, 2) && Word(b, at + 8, 2) == 0x800
    ensures Word(b, at + 12, 2) == 0 && Word(b, at + 14, 2) == 0x21
    ensures Word(b, at + 28, 2) == nameSize && Word(b, at + 30, 2) == 0 == Word(b, at + 32, 2)
  {
    hide Little, Word, Holds;
    Ranges();
    var h1 := Little(0x02014b50, 4);
    var h4 := h1 + Little(20, 2) + Little(20, 2) + Little(0x800, 2);
    var h7 := h4 + Little(0, 2) + Little(0, 2) + Little(0x21, 2);
    var h10 := h7 + Little(crc, 4) + Little(size, 4) + Little(size, 4);
    InRange(b, at, h10 + Little(nameSize, 2) + Little(0, 2) + Little(0, 2));
    LastField(b, at, h10 + Little(nameSize, 2) + Little(0, 2), 0, 2);
    LastField(b, at, h10 + Little(nameSize, 2), 0, 2);
    LastField(b, at, h10, nameSize, 2);
    LastField(b, at, h7 + Little(crc, 4) + Little(size, 4), size, 4);
    LastField(b, at, h7 + Little(crc, 4), size, 4);
    LastField(b, at, h7, crc, 4);
    LastField(b, at, h4 + Little(0, 2) + Little(0, 2), 0x21, 2);
    LastField(b, at, h4 + Little(0, 2), 0, 2);
    LastField(b, at, h4, 0, 2);
    LastField(b, at, h1 + Little(20, 2) + Little(20, 2), 0x800, 2);
    LastField(b, at, h1 + Little(20, 2), 20, 2);
    LastField(b, at, h1, 20, 2);
    assert [] + h1 == h1;
    LastField(b, at, [], 0x02014b50, 4);
  }

  lemma EndFields(b: seq<Byte>, at: nat, count: nat, size: nat, offset: nat)
    requires Holds(b, at, End(count, size, offset))
    requires count < 0x1_0000 && size < 0x1_0000_0000 && offset < 0x1_0000_0000
    ensures at + 22 <= |b| && Word(b, at, 4) == 0x06054b50 && Word(b, at + 4, 2) == 0 == Word(b, at + 6, 2)
    ensures Word(b, at + 8, 2) == count == Word(b, at + 10, 2)
    ensures Word(b, at + 12, 4) == size && Word(b, at + 16, 4) == offset && Word(b, at + 20, 2) == 0
  {
    hide Little, Word, Holds;
    Ranges();
    var h1 := Little(0x06054b50, 4);
    var h3 := h1 + Little(0, 2) + Little(0, 2);
    var h5 := h3 + Little(count, 2) + Little(count, 2);
    InRange(b, at, End(count, size, offset));
    LastField(b, at, h5 + Little(size, 4) + Little(offset, 4), 0, 2);
    LastField(b, at, h5 + Little(size, 4), offset, 4);
    LastField(b, at, h5, size, 4);
    LastField(b, at, h3 + Little(count, 2), count, 2);
    LastField(b, at, h3, count, 2);
    LastField(b, at, h1 + Little(0, 2), 0, 2);
    LastField(b, at, h1, 0, 2);
    assert [] + h1 == h1;
    LastField(b, at, [], 0x06054b50, 4);
  }

  // ---- the reader finds what the writer laid out ----

  /** The limits of the format's 16-bit and 32-bit fields. */
  predicate WithinLimits(files: seq<File>) {
    && |files| < 0x1_0000 && |Locals(files)| < 0x1_0000_0000 && |Centrals(files)| < 0x1_0000_0000
    && forall i :: 0 <= i < |files| ==> |files[i].name| < 0x1_0000
  }

  lemma LocalFound(b: seq<Byte>, at: nat, f: File)
    requires Holds(b, at, Local(f)) && |f.name| < 0x1_0000 && |f.bytes| < 0x1_0000_0000
    ensures ReadLocal(b, at, f.name, CrcOf(f.bytes), |f.bytes|) == Some(f)
  {
    hide LocalHead, CrcOf, Word;
    var head := LocalHead(CrcOf(f.bytes), |f.bytes|, |f.name|);
    HoldsParts(b, at, head + f.name, f.bytes);
    HoldsParts(b, at, head, f.name);
    CrcBound(f.bytes);
    LocalHeadFields(b, at, CrcOf(f.bytes), |f.bytes|, |f.name|);
  }

  lemma EntryFound(b: seq<Byte>, at: nat, f: File, offset: nat)
    requires Holds(b, at, Central(f, offset)) && Holds(b, offset, Local(f))
    requires |f.name| < 0x1_0000 && |f.bytes| < 0x1_0000_0000 && offset < 0x1_0000_0000
    ensures ReadEntry(b, at) == Some((f, at + |Central(f, offset)|))
  {
    hide CentralHead, CrcOf, Word, ReadLocal, Local;
    HoldsParts(b, at, CentralHead(CrcOf(f.bytes), |f.bytes|, |f.name|, offset), f.name);
    CrcBound(f.bytes);
    CentralHeadFields(b, at, CrcOf(f.bytes), |f.bytes|, |f.name|, offset);
    LocalFound(b, offset, f);
  }

  /** Each local part lies after those of the files before it, likewise each directory entry. */
  lemma {:induction false} PartsHeld(b: seq<Byte>, at: nat, files: seq<File>, i: nat)
    requires i < |files|
    ensures Holds(b, at, Locals(files)) ==> Holds(b, at + |Locals(files[..i])|, Local(files[i]))
    ensures Holds(b, at, Centrals(files)) ==>
              && Holds(b, at + |Centrals(files[..i])|, Central(files[i], |Locals(files[..i])|))
              && |Centrals(files[..i + 1])| == |Centrals(files[..i])| + |Central(files[i], |Locals(files[..i])|)|
  {
    hide Local, Central, Holds;
    var n := |files| - 1;
    var front, last := files[..n], files[n];
    if Holds(b, at, Locals(files)) { HoldsParts(b, at, Locals(front), Local(last)); }
    if Holds(b, at, Centrals(files)) { HoldsParts(b, at, Centrals(front), Central(last, |Locals(front)|)); }
    assert files[..i + 1][..i] == files[..i];
    if i < n {
      PartsHeld(b, at, front, i);
      assert front[..i] == files[..i];
    }
  }

  lemma {:induction false} EntriesFound(b: seq<Byte>, files: seq<File>, i: nat)
    requires WithinLimits(files) && b == Archive(files) && i <= |files|
    ensures ReadCentral(b, |Locals(files)| + |Centrals(files[..i])|, |files| - i, |Locals(files)| + |Centrals(files)|)
            == Some(files[i..])
    decreases |files| - i
  {
    hide Locals, Centrals, Central, Local, ReadEntry, End;
    var start := |Locals(files)|;
    if i == |files| {
      assert files[..i] == files;
    } else {
      EntriesFound(b, files, i + 1);
      ArchiveParts(files);
      PartsHeld(b, 0, files, i);
      PartsHeld(b, start, files, i);
      PartBounds(files, i);
      EntryFound(b, start + |Centrals(files[..i])|, files[i], |Locals(files[..i])|);
      assert [files[i]] + files[i + 1..] == files[i..];
    }
  }

  lemma ArchiveParts(files: seq<File>)
    ensures var b := Archive(files);
            && Holds(b, 0, Locals(files)) && Holds(b, |Locals(files)|, Centrals(files))
            && Holds(b, |b| - 22, End(|files|, |Centrals(files)|, |Locals(files)|))
  {
    hide Locals, Centrals, End;
  }

  lemma PartBounds(files: seq<File>, i: nat)
    requires i < |files|
    ensures |Locals(files[..i])| + |files[i].bytes| <= |Locals(files)|
  {
    hide Locals, LocalHead, CrcOf;
    PartsHeld(Locals(files), 0, files, i);
  }

  lemma WordIsNumber(b: seq<Byte>, at: nat, size: nat)
    requires at + size <= |b| && (size == 2 || size == 4)
    ensures Word(b, at, size) == Number(b, at, size)
  {
    LowestFirst(0, b[at..at + size]);
  }

  /** Byte for byte: file `i` has a local header, its name and its bytes at `at`, and an entry at
      `entry` that points there; the end record counts the entries and points to the first one. */
  ghost predicate LaidOut(b: seq<Byte>, f: File, at: nat, entry: nat) {
    && at + 30 + |f.name| + |f.bytes| <= |b| && entry + 46 + |f.name| <= |b|
    && b[at..at + 4] == [0x50, 0x4b, 3, 4] && b[entry..entry + 4] == [0x50, 0x4b, 1, 2]
    && Number(b, at + 4, 2) == 20 && Number(b, at + 6, 2) == 0x800 && Number(b, at + 8, 2) == 0
    && Number(b, at + 10, 2) == 0 && Number(b, at + 12, 2) == 0x21 && Number(b, at + 14, 4) == CrcOf(f.bytes)
    && Number(b, at + 18, 4) == |f.bytes| == Number(b, at + 22, 4) && Number(b, at + 26, 2) == |f.name| && Number(b, at + 28, 2) == 0
    && b[at + 30..at + 30 + |f.name|] == f.name && b[at + 30 + |f.name|..at + 30 + |f.name| + |f.bytes|] == f.bytes
    && Number(b, entry + 4, 2) == 20 == Number(b, entry + 6, 2) && Number(b, entry + 8, 2) == 0x800 && Number(b, entry + 10, 2) == 0
    && Number(b, entry + 12, 2) == 0 && Number(b, entry + 14, 2) == 0x21 && Number(b, entry + 16, 4) == CrcOf(f.bytes)
    && Number(b, entry + 20, 4) == |f.bytes| == Number(b, entry + 24, 4) && Number(b, entry + 28, 2) == |f.name|
    && Number(b, entry + 30, 2) == Number(b, entry + 32, 2) == Number(b, entry + 34, 2) == Number(b, entry + 36, 2) == 0
    && Number(b, entry + 38, 4) == 0 && Number(b, entry + 42, 4) == at && b[entry + 46..entry + 46 + |f.name|] == f.name
  }

  lemma LocalLaidOut(b: seq<Byte>, at: nat, f: File)
    requires Holds(b, at, Local(f)) && |f.name| < 0x1_0000 && |f.bytes| < 0x1_0000_0000
    ensures at + 30 + |f.name| + |f.bytes| <= |b| && b[at..at + 4] == [0x50, 0x4b, 3, 4]
    ensures Number(b, at + 4, 2) == 20 && Number(b, at + 6, 2) == 0x800 && Number(b, at + 8, 2) == 0
    ensures Number(b, at + 10, 2) == 0 && Number(b, at + 12, 2) == 0x21 && Number(b, at + 14, 4) == CrcOf(f.bytes)
    ensures Number(b, at + 18, 4) == |f.bytes| == Number(b, at + 22, 4) && Number(b, at + 26, 2) == |f.name| && Number(b, at + 28, 2) == 0
    ensures b[at + 30..at + 30 + |f.name|] == f.name && b[at + 30 + |f.name|..at + 30 + |f.name| + |f.bytes|] == f.bytes
  {
    hide LocalHead, CrcOf, Word;
    var head := LocalHead(CrcOf(f.bytes), |f.bytes|, |f.name|);
    HoldsParts(b, at, head + f.name, f.bytes);
    HoldsParts(b, at, head, f.name);
    CrcBound(f.bytes);
    LocalHeadFields(b, at, CrcOf(f.bytes), |f.bytes|, |f.name|);
    LocalNumbers(b, at);
    Signature(b, at);
  }

  lemma LocalNumbers(b: seq<Byte>, at: nat)
    requires at + 30 <= |b|
    ensures Word(b, at + 4, 2) == Number(b, at + 4, 2) && Word(b, at + 6, 2) == Number(b, at + 6, 2)
    ensures Word(b, at + 8, 2) == Number(b, at + 8, 2) && Word(b, at + 10, 2) == Number(b, at + 10, 2)
    ensures Word(b, at + 12, 2) == Number(b, at + 12, 2) && Word(b, at + 14, 4) == Number(b, at + 14, 4)
    ensures Word(b, at + 18, 4) == Number(b, at + 18, 4) && Word(b, at + 22, 4) == Number(b, at + 22, 4)
    ensures Word(b, at + 26, 2) == Number(b, at + 26, 2) && Word(b, at + 28, 2) == Number(b, at + 28, 2)
  {
    hide Word, Number;
    WordIsNumber(b, at + 4, 2);
    WordIsNumber(b, at + 6, 2);
    WordIsNumber(b, at + 8, 2);
    WordIsNumber(b, at + 10, 2);
    WordIsNumber(b, at + 12, 2);
    WordIsNumber(b, at + 14, 4);
    WordIsNumber(b, at + 18, 4);
    WordIsNumber(b, at + 22, 4);
    WordIsNumber(b, at + 26, 2);
    WordIsNumber(b, at + 28, 2);
  }

  /** A signature's bytes. */
  lemma Signature(b: seq<Byte>, at: nat)
    requires at + 4 <= |b|
    ensures Word(b, at, 4) == 0x04034b50 ==> b[at..at + 4] == [0x50, 0x4b, 3, 4]
    ensures Word(b, at, 4) == 0x02014b50 ==> b[at..at + 4] == [0x50, 0x4b, 1, 2]
    ensures Word(b, at, 4) == 0x06054b50 ==> b[at..at + 4] == [0x50, 0x4b, 5, 6]
  {
    LittleOfValue(b[at..at + 4]);
    LowestFirst(Word(b, at, 4), []);
  }

  lemma CentralLaidOut(b: seq<Byte>, entry: nat, f: File, at: nat)
    requires Holds(b, entry, Central(f, at)) && |f.name| < 0x1_0000 && |f.bytes| < 0x1_0000_0000 && at < 0x1_0000_0000
    ensures entry + 46 + |f.name| <= |b| && b[entry..entry + 4] == [0x50, 0x4b, 1, 2]
    ensures Number(b, entry + 4, 2) == 20 == Number(b, entry + 6, 2) && Number(b, entry + 8, 2) == 0x800 && Number(b, entry + 10, 2) == 0
    ensures Number(b, entry + 12, 2) == 0 && Number(b, entry + 14, 2) == 0x21 && Number(b, entry + 16, 4) == CrcOf(f.bytes)
    ensures Number(b, entry + 20, 4) == |f.bytes| == Number(b, entry + 24, 4) && Number(b, entry + 28, 2) == |f.name|
    ensures Number(b, entry + 30, 2) == Number(b, entry + 32, 2) == Number(b, entry + 34, 2) == Number(b, entry + 36, 2) == 0
    ensures Number(b, entry + 38, 4) == 0 && Number(b, entry + 42, 4) == at && b[entry + 46..entry + 46 + |f.name|] == f.name
  {
    hide CentralHead, CrcOf, Word;
    HoldsParts(b, entry, CentralHead(CrcOf(f.bytes), |f.bytes|, |f.name|, at), f.name);
    CrcBound(f.bytes);
    CentralHeadFields(b, entry, CrcOf(f.bytes), |f.bytes|, |f.name|, at);
    CentralNumbers(b, entry);
    Signature(b, entry);
  }

  lemma CentralNumbers(b: seq<Byte>, at: nat)
    requires at + 46 <= |b|
    ensures Word(b, at + 4, 2) == Number(b, at + 4, 2) && Word(b, at + 6, 2) == Number(b, at + 6, 2)
    ensures Word(b, at + 8, 2) == Number(b, at + 8, 2) && Word(b, at + 10, 2) == Number(b, at + 10, 2)
    ensures Word(b, at + 12, 2) == Number(b, at + 12, 2) && Word(b, at + 14, 2) == Number(b, at + 14, 2)
    ensures Word(b, at + 16, 4) == Number(b, at + 16, 4) && Word(b, at + 20, 4) == Number(b, at + 20, 4)
    ensures Word(b, at + 24, 4) == Number(b, at + 24, 4) && Word(b, at + 28, 2) == Number(b, at + 28, 2)
    ensures Word(b, at + 30, 2) == Number(b, at + 30, 2) && Word(b, at + 32, 2) == Number(b, at + 32, 2)
    ensures Word(b, at + 34, 2) == Number(b, at + 34, 2) && Word(b, at + 36, 2) == Number(b, at + 36, 2)
    ensures Word(b, at + 38, 4) == Number(b, at + 38, 4) && Word(b, at + 42, 4) == Number(b, at + 42, 4)
  {
    hide Word, Number;
    WordIsNumber(b, at + 4, 2);
    WordIsNumber(b, at + 6, 2);
    WordIsNumber(b, at + 8, 2);
    WordIsNumber(b, at + 10, 2);
    WordIsNumber(b, at + 12, 2);
    WordIsNumber(b, at + 14, 2);
    WordIsNumber(b, at + 16, 4);
    WordIsNumber(b, at + 20, 4);
    WordIsNumber(b, at + 24, 4);
    WordIsNumber(b, at + 28, 2);
    WordIsNumber(b, at + 30, 2);
    WordIsNumber(b, at + 32, 2);
    WordIsNumber(b, at + 34, 2);
    WordIsNumber(b, at + 36, 2);
    WordIsNumber(b, at + 38, 4);
    WordIsNumber(b, at + 42, 4);
  }

  /** Where file `i` and its entry begin, counted in bytes. */
  function LocalStart(files: seq<File>, i: nat): nat
    requires i <= |files|
  {
    if i == 0 then 0 else LocalStart(files, i - 1) + 30 + |files[i - 1].name| + |files[i - 1].bytes|
  }

  function EntryStart(files: seq<File>, i: nat): nat
    requires i <= |files|
  {
    if i == 0 then LocalStart(files, |files|) else EntryStart(files, i - 1) + 46 + |files[i - 1].name|
  }

  lemma {:induction false} StartsAt(files: seq<File>, i: nat)
    requires i <= |files|
    ensures LocalStart(files, i) == |Locals(files[..i])|
    ensures EntryStart(files, i) == LocalStart(files, |files|) + |Centrals(files[..i])|
  {
    hide LocalHead, CentralHead, CrcOf;
    if i > 0 {
      StartsAt(files, i - 1);
      assert files[..i][..i - 1] == files[..i - 1];
    }
  }

  /** Every file of an archive, byte for byte, within the format's limits. */
  lemma FileLaidOut(files: seq<File>, i: nat)
    requires WithinLimits(files) && i < |files|
    ensures LaidOut(Archive(files), files[i], LocalStart(files, i), EntryStart(files, i))
  {
    hide Locals, Centrals, End, Word, Number, Local, Central, CrcOf, LocalStart, EntryStart, Holds, Archive;
    var b := Archive(files);
    StartsAt(files, i);
    StartsAt(files, |files|);
    assert files[..|files|] == files;
    ArchiveParts(files);
    PartsHeld(b, 0, files, i);
    PartsHeld(b, |Locals(files)|, files, i);
    PartBounds(files, i);
    LocalLaidOut(b, LocalStart(files, i), files[i]);
    CentralLaidOut(b, EntryStart(files, i), files[i], LocalStart(files, i));
  }

  /** And its end record. */
  lemma EndLaidOut(files: seq<File>)
    requires WithinLimits(files)
    ensures var b, e := Archive(files), EntryStart(files, |files|);
            && |b| == e + 22 && b[e..e + 4] == [0x50, 0x4b, 5, 6]
            && Number(b, e + 4, 2) == 0 == Number(b, e + 6, 2) && Number(b, e + 8, 2) == |files| == Number(b, e + 10, 2)
            && Number(b, e + 12, 4) == e - LocalStart(files, |files|) && Number(b, e + 16, 4) == LocalStart(files, |files|)
            && Number(b, e + 20, 2) == 0
  {
    hide Locals, Centrals, End, Word, Number, LocalStart, EntryStart;
    var b := Archive(files);
    StartsAt(files, |files|);
    assert files[..|files|] == files;
    ArchiveParts(files);
    EndFields(b, |b| - 22, |files|, |Centrals(files)|, |Locals(files)|);
    EndNumbers(b, |b| - 22);
    Signature(b, |b| - 22);
  }

  lemma EndNumbers(b: seq<Byte>, at: nat)
    requires at + 22 <= |b|
    ensures Word(b, at + 4, 2) == Number(b, at + 4, 2) && Word(b, at + 6, 2) == Number(b, at + 6, 2)
    ensures Word(b, at + 8, 2) == Number(b, at + 8, 2) && Word(b, at + 10, 2) == Number(b, at + 10, 2)
    ensures Word(b, at + 12, 4) == Number(b, at + 12, 4) && Word(b, at + 16, 4) == Number(b, at + 16, 4)
    ensures Word(b, at + 20, 2) == Number(b, at + 20, 2)
  {
    hide Word, Number;
    WordIsNumber(b, at + 4, 2);
    WordIsNumber(b, at + 6, 2);
    WordIsNumber(b, at + 8, 2);
    WordIsNumber(b, at + 10, 2);
    WordIsNumber(b, at + 12, 4);
    WordIsNumber(b, at + 16, 4);
    WordIsNumber(b, at + 20, 2);
  }

  /** Within the format's limits, reading gives back every name and every byte in order. */
  lemma ReadArchive(files: seq<File>)
    ensures WithinLimits(files) ==> Read(Archive(files)) == Some(files)
  {
    hide Locals, Centrals, ReadCentral, End, Word;
    if WithinLimits(files) {
      var b := Archive(files);
      ArchiveParts(files);
      EndFields(b, |b| - 22, |files|, |Centrals(files)|, |Locals(files)|);
      EntriesFound(b, files, 0);
      NothingBefore(files);
    }
  }

  lemma NothingBefore(files: seq<File>)
    ensures |Centrals(files[..0])| == 0
  {
  }
}
