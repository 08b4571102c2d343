/**
  The diagnostic report's archive writer: it notes each entry's checksum and offset while it
  appends the local parts, then repeats them in the directory.
*/
module ZipWriter {
  import opened Checksum
  import opened LittleEndian
  import opened ZipFormat
  import opened Wrappers

  /** A conversion to 32 bits. */
  function Cast(n: nat): (r: nat)
    ensures r < 0x1_0000_0000
  {
    n % 0x1_0000_0000
  }

  datatype Entry = Entry(name: seq<Byte>, bytes: seq<Byte>, crc: nat, offset: nat)

  function FileOf(e: Entry): File { File(e.name, e.bytes) }

  function FilesOf(es: seq<Entry>): (files: seq<File>)
    ensures |files| == |es| && forall i :: 0 <= i < |es| ==> files[i] == FileOf(es[i])
  {
    seq(|es|, i requires 0 <= i < |es| => FileOf(es[i]))
  }

  /** The noted fields are those the directory needs. */
  ghost predicate Noted(e: Entry, files: seq<File>, i: nat)
    requires i < |files|
  {
    FileOf(e) == files[i] && e.crc == CrcOf(e.bytes) && e.offset == Cast(|Locals(files[..i])|)
  }

  /** The low bytes do not see what lies above them. */
  lemma {:induction false} LowBytes(n: nat, k: nat, size: nat)
    ensures Range(size) * k >= 0
    ensures Little(n + Range(size) * k, size) == Little(n, size)
  {
    var r := Range(size);
    if size == 0 {
      Grouped(1, 0, k);
    } else {
      var above := Range(size - 1) * k;
      LowBytes(n / 256, k, size - 1);
      Grouped(256, Range(size - 1), k);
      LowByte(n, above);
    }
  }

  lemma Grouped(a: nat, b: nat, c: nat)
    ensures a * b * c == a * (b * c) >= 0
  {
  }

  lemma LowByte(n: nat, above: nat)
    ensures (n + 256 * above) / 256 == n / 256 + above && (n + 256 * above) % 256 == n % 256
  {
  }

  /** So a conversion to 32 bits changes nothing that is written. */
  lemma LittleOfCast(n: nat)
    ensures Little(Cast(n), 4) == Little(n, 4) && Little(Cast(n), 2) == Little(n, 2)
  {
    hide Little;
    Ranges();
    var above := n / 0x1_0000_0000;
    LowBytes(Cast(n), above, 4);
    LowBytes(Cast(n), 0x1_0000 * above, 2);
    assert n == Cast(n) + 0x1_0000_0000 * above;
  }

  method Word(out: seq<Byte>, value: nat, size: nat) returns (longer: seq<Byte>)
    ensures longer == out + Little(value, size)
  {
    longer := out;
    var rest := value;
    for i := 0 to size
      invariant longer + Little(rest, size - i) == out + Little(value, size)
    {
      ghost var tail := Little(rest / 256, size - i - 1);
      assert longer + Little(rest, size - i) == longer + [rest % 256] + tail;
      longer, rest := longer + [rest % 256], rest / 256;
    }
    assert longer + [] == longer;
  }

  method AppendLocal(out: seq<Byte>, f: Entry) returns (longer: seq<Byte>)
    requires f.crc == CrcOf(f.bytes)
    ensures longer == out + Local(FileOf(f))
  {
    hide CrcOf, Little;
    LittleOfCast(|f.bytes|);
    LittleOfCast(|f.name|);
    var head := Word([], 0x04034b50, 4);
    assert head == Little(0x04034b50, 4);
    head := Word(head, 20, 2);
    head := Word(head, 0x800, 2);
    head := Word(head, 0, 2);
    head := Word(head, 0, 2);
    head := Word(head, 0x21, 2);
    head := Word(head, f.crc, 4);
    head := Word(head, Cast(|f.bytes|), 4);
    head := Word(head, Cast(|f.bytes|), 4);
    head := Word(head, Cast(|f.name|), 2);
    head := Word(head, 0, 2);
    longer := out + (head + f.name + f.bytes);
  }

  method AppendCentral(out: seq<Byte>, f: Entry, ghost files: seq<File>, ghost i: nat) returns (longer: seq<Byte>)
    requires i < |files| && Noted(f, files, i)
    ensures longer == out + Central(files[i], |Locals(files[..i])|)
  {
    hide CrcOf, Little, Locals;
    LittleOfCast(|f.bytes|);
    LittleOfCast(|f.name|);
    LittleOfCast(|Locals(files[..i])|);
    var head := Word([], 0x02014b50, 4);
    assert head == Little(0x02014b50, 4);
    head := Word(head, 20, 2);
    head := Word(head, 20, 2);
    head := Word(head, 0x800, 2);
    head := Word(head, 0, 2);
    head := Word(head, 0, 2);
    head := Word(head, 0x21, 2);
    head := Word(head, f.crc, 4);
    head := Word(head, Cast(|f.bytes|), 4);
    head := Word(head, Cast(|f.bytes|), 4);
    head := Word(head, Cast(|f.name|), 2);
    head := Word(head, 0, 2);
    head := Word(head, 0, 2);
    head := Word(head, 0, 2);
    head := Word(head, 0, 2);
    head := Word(head, 0, 4);
    head := Word(head, f.offset, 4);
    longer := out + (head + f.name);
  }

  /** The length of the directory, as a difference of two 32-bit numbers. */
  lemma DirectoryLength(locals: nat, centrals: nat)
    ensures Little(Cast(Cast(locals + centrals) + 0x1_0000_0000 - Cast(locals)), 4) == Little(centrals, 4)
  {
    hide Little;
    LittleOfCast(centrals);
    CastSum(locals, centrals);
  }

  lemma CastSum(a: nat, b: nat)
    ensures Cast(a + b) == if Cast(a) + Cast(b) < 0x1_0000_0000 then Cast(a) + Cast(b) else Cast(a) + Cast(b) - 0x1_0000_0000
  {
    var q := a / 0x1_0000_0000 + b / 0x1_0000_0000;
    assert a + b == 0x1_0000_0000 * q + Cast(a) + Cast(b);
  }

  method AppendEnd(out: seq<Byte>, count: nat, size: nat, offset: nat) returns (longer: seq<Byte>)
    ensures longer == out + End(count, size, offset)
  {
    hide Little;
    LittleOfCast(count);
    var end := Word([], 0x06054b50, 4);
    assert end == Little(0x06054b50, 4);
    end := Word(end, 0, 2);
    end := Word(end, 0, 2);
    end := Word(end, Cast(count), 2);
    end := Word(end, Cast(count), 2);
    end := Word(end, size, 4);
    end := Word(end, offset, 4);
    end := Word(end, 0, 2);
    longer := out + end;
  }

  /** One entry: its checksum and place are noted, and its local part is appended. */
  method AppendEntry(out: seq<Byte>, f: Entry, ghost files: seq<File>, ghost i: nat) returns (longer: seq<Byte>, noted: Entry)
    requires i < |files| && FileOf(f) == files[i] && out == Locals(files[..i])
    ensures FileOf(noted) == files[i] && Noted(noted, files, i) && longer == Locals(files[..i + 1])
  {
    hide Locals, Local, CrcOf, Cast;
    var crc := Crc(f.bytes);
    noted := f.(offset := Cast(|out|), crc := crc);
    longer := AppendLocal(out, noted);
    NextLocal(files, i);
  }

  method AppendLocals(es: array<Entry>) returns (out: seq<Byte>)
    modifies es
    ensures FilesOf(es[..]) == old(FilesOf(es[..])) && out == Locals(FilesOf(es[..]))
    ensures forall i :: 0 <= i < es.Length ==> Noted(es[i], FilesOf(es[..]), i)
  {
    hide Locals, Local, Noted;
    ghost var files := FilesOf(es[..]);
    out := [];
    NoLocals(files);
    for i := 0 to es.Length
      invariant out == Locals(files[..i])
      invariant forall k :: 0 <= k < es.Length ==> FileOf(es[k]) == files[k]
      invariant forall k :: 0 <= k < i ==> Noted(es[k], files, k)
    {
      var noted;
      out, noted := AppendEntry(out, es[i], files, i);
      es[i] := noted;
    }
    assert files[..|files|] == files;
    assert FilesOf(es[..]) == files;
  }

  lemma NoLocals(files: seq<File>)
    ensures Locals(files[..0]) == [] == Centrals(files[..0])
  {
  }

  lemma NextLocal(files: seq<File>, i: nat)
    requires i < |files|
    ensures Locals(files[..i + 1]) == Locals(files[..i]) + Local(files[i])
    ensures Centrals(files[..i + 1]) == Centrals(files[..i]) + Central(files[i], |Locals(files[..i])|)
  {
    hide Local, Central;
    assert files[..i + 1][..i] == files[..i];
  }

  /** The archive of the given files, whatever their sizes; every entry's fields are noted. */
  method Zip(es: array<Entry>) returns (out: seq<Byte>)
    modifies es
    ensures FilesOf(es[..]) == old(FilesOf(es[..]))
    ensures forall i :: 0 <= i < es.Length ==> es[i].name == old(es[i].name) && es[i].bytes == old(es[i].bytes)
    ensures forall i :: 0 <= i < es.Length ==> Noted(es[i], FilesOf(es[..]), i)
    ensures out == Archive(FilesOf(es[..])) && |out| == Capacity(FilesOf(es[..]))
  {
    hide Locals, Centrals, Local, Central, CrcOf, Noted, Cast, Little;
    out := AppendLocals(es);
    ghost var files, locals := FilesOf(es[..]), out;
    var central := Cast(|out|);
    NoLocals(files);
    for i := 0 to es.Length
      modifies {}
      invariant out == locals + Centrals(files[..i])
    {
      ghost var before := out;
      out := AppendCentral(out, es[i], files, i);
      NextLocal(files, i);
    }
    assert files[..|files|] == files;
    DirectoryLength(|locals|, |Centrals(files)|);
    LittleOfCast(|locals|);
    CapacityExact(files);
    var size := Cast(Cast(|out|) + 0x1_0000_0000 - central);
    assert forall i :: 0 <= i < es.Length ==> FilesOf(es[..])[i] == FileOf(es[i]) && old(FilesOf(es[..]))[i] == old(FileOf(es[i]));
    out := AppendEnd(out, es.Length, size, central);
  }

  lemma EntriesAre(es: seq<Entry>)
    ensures |FilesOf(es)| == |es|
    ensures forall i :: 0 <= i < |es| ==> FilesOf(es)[i].name == es[i].name && FilesOf(es)[i].bytes == es[i].bytes
  {
  }

  /** What is zipped within the format's limits is read back name by name and byte by byte. */
  method ZippedAndRead(es: array<Entry>) returns (out: seq<Byte>, read: Option<seq<File>>)
    modifies es
    ensures WithinLimits(old(FilesOf(es[..]))) ==>
              && read.Some? && |read.value| == es.Length
              && forall i :: 0 <= i < es.Length ==> read.value[i].name == old(es[i].name) && read.value[i].bytes == old(es[i].bytes)
  {
    hide *;
    EntriesAre(es[..]);
    ghost var files := FilesOf(es[..]);
    out := Zip(es);
    read := Read(out);
    ReadArchive(files);
  }
}
