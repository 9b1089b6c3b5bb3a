/**
 Partition and whole-LUN reads, programs and erases of an EDL session
 (crates/ltbox-device/src/edl.rs), over LUNs that hold bytes. The Firehose
 primitives may refuse any request; a refused or interrupted write may leave
 anything in the sectors it names and nothing outside them.
 */
module EdlStorage {
  import opened Wrappers
  import opened Arithmetic
  import opened Text

  const SECTOR: int := 4096
  const MAX_GPT_METADATA_SECTORS: int := 2048
  const GPT_READ_TAIL_MARGIN: int := 2

  datatype Header = Header(firstUsable: nat, backup: nat)

  datatype Entry = Entry(name: string, start: nat, end: nat)

  /** The GPT parser: the header in one sector, the entries in the metadata sectors. */
  datatype GptParser = GptParser(header: seq<Byte> -> Option<Header>, table: seq<Byte> -> Option<seq<Entry>>)

  datatype EdlError =
    | Transport
    | BadGpt
    | ImplausibleGpt(firstUsable: nat)
    | PartitionNotFound(name: string)
    | InvertedRange(start: nat, end: nat)
    | Oversized(sectors: nat, span: nat)
    | Io

  // ---- Bytes on a LUN -----------------------------------------------------------

  /** Sectors needed for a file: `len.div_ceil(sector_size)`. */
  function SectorsOf(len: nat): nat {
    (len + SECTOR - 1) / SECTOR
  }

  /** The bytes sent for a file: zero-filled to a whole sector. */
  function Padded(file: seq<Byte>): (p: seq<Byte>)
    ensures |p| == SectorsOf(|file|) * SECTOR && p[..|file|] == file
    ensures |file| % SECTOR == 0 ==> p == file
  {
    file + seq(SectorsOf(|file|) * SECTOR - |file|, i => 0)
  }

  function Overwrite(disk: seq<Byte>, at: nat, data: seq<Byte>): seq<Byte>
    requires at + |data| <= |disk|
  {
    disk[..at] + data + disk[at + |data|..]
  }

  function Slice(disk: seq<Byte>, start: nat, count: nat): seq<Byte>
    requires (start + count) * SECTOR <= |disk|
  {
    disk[start * SECTOR..(start + count) * SECTOR]
  }

  /** Outside `count` sectors from `start` nothing differs. */
  ghost predicate SpanOnly(before: seq<Byte>, after: seq<Byte>, start: nat, count: nat) {
    |before| == |after|
    && forall i :: 0 <= i < |before| && !(start * SECTOR <= i < (start + count) * SECTOR) ==> after[i] == before[i]
  }

  /**
   The image stands at byte `at`, what is left of its last sector is zero, and
   no other byte differs.
   */
  ghost predicate ImageWritten(before: seq<Byte>, after: seq<Byte>, at: nat, image: seq<Byte>) {
    var end := at + |image| + (SECTOR - |image| % SECTOR) % SECTOR;
    && |after| == |before| && end <= |before|
    && after[at..at + |image|] == image
    && (forall i :: at + |image| <= i < end ==> after[i] == 0)
    && (forall i :: 0 <= i < |before| && !(at <= i < end) ==> after[i] == before[i])
  }

  /** The bytes of the range are all there and blank. */
  ghost predicate Blank(disk: seq<Byte>, from: nat, to: nat, blank: Byte) {
    to <= |disk| && forall i :: from <= i < to ==> disk[i] == blank
  }

  // ---- Looking a partition up ------------------------------------------------------

  /** Sectors read for the entry array: the metadata and a margin behind it. */
  function GptReadLength(firstUsable: nat): nat {
    if firstUsable + GPT_READ_TAIL_MARGIN < MAX_GPT_METADATA_SECTORS then firstUsable + GPT_READ_TAIL_MARGIN
    else MAX_GPT_METADATA_SECTORS
  }

  function ReadHeader(gpt: GptParser, disk: seq<Byte>): Result<Header, EdlError> {
    if |disk| < 2 * SECTOR then Err(Transport)
    else
      var h := gpt.header(Slice(disk, 1, 1));
      if h.None? then Err(BadGpt) else Ok(h.value)
  }

  function FirstNamed(entries: seq<Entry>, name: string): Option<Entry> {
    if entries == [] then None
    else if entries[0].name == name then Some(entries[0])
    else FirstNamed(entries[1..], name)
  }

  /** `find_partition` on a LUN every sector of which can be read. */
  function FindPartition(gpt: GptParser, disk: seq<Byte>, name: string): Result<Entry, EdlError> {
    var h := ReadHeader(gpt, disk);
    if h.Err? then Err(h.error)
    else if h.value.firstUsable == 0 || h.value.firstUsable > MAX_GPT_METADATA_SECTORS then
      Err(ImplausibleGpt(h.value.firstUsable))
    else
      var n := GptReadLength(h.value.firstUsable);
      if n * SECTOR > |disk| then Err(Transport)
      else
        var t := gpt.table(Slice(disk, 0, n));
        if t.None? then Err(BadGpt)
        else
          var e := FirstNamed(t.value, name);
          if e.None? then Err(PartitionNotFound(name)) else Ok(e.value)
  }

  /** `partition_span_sectors`: the inclusive sector count, at the width of a 64-bit word. */
  function SpanSectors(start: nat, end: nat): Result<nat, EdlError> {
    if end < start then Err(InvertedRange(start, end)) else Ok((end - start + 1) % (U64_MAX + 1))
  }

  /** The count is the number of sectors exactly unless the entry spans all 2^64 of them. */
  lemma SpanSectorsExact(start: nat, end: nat)
    requires start <= end <= U64_MAX
    ensures SpanSectors(start, end) == Ok(end - start + 1) <==> end - start < U64_MAX
  {
  }

  // ---- A LUN whose partitions are disjoint and behind the GPT -----------------------

  ghost predicate EntryFits(e: Entry, firstUsable: nat, size: nat) {
    firstUsable <= e.start <= e.end <= U64_MAX - 1 && (e.end + 1) * SECTOR <= size
  }

  ghost predicate Disjoint(e: Entry, f: Entry) {
    e.end < f.start || f.end < e.start
  }

  /**
   A slot that holds a partition, by the rule of the source's own scan: it has a name and
   its range is not inverted. The other slots of a table are placeholders, usually blank.
   */
  predicate Used(e: Entry) {
    e.name != "" && e.start <= e.end
  }

  /** Whatever the margin behind this LUN's metadata sectors holds, the table read is the same. */
  ghost predicate ParsesMetadataOnly(gpt: GptParser, disk: seq<Byte>, firstUsable: nat)
    requires firstUsable <= GptReadLength(firstUsable) && GptReadLength(firstUsable) * SECTOR <= |disk|
  {
    var n := GptReadLength(firstUsable);
    forall c: seq<Byte> ::
      |c| == n * SECTOR && c[..firstUsable * SECTOR] == disk[..firstUsable * SECTOR] ==>
        gpt.table(c) == gpt.table(Slice(disk, 0, n))
  }

  /** The used slots are behind the GPT, inside the LUN and disjoint; the others may hold anything. */
  ghost predicate Layout(gpt: GptParser, disk: seq<Byte>, h: Header, entries: seq<Entry>) {
    && ReadHeader(gpt, disk) == Ok(h)
    && 2 <= h.firstUsable <= MAX_GPT_METADATA_SECTORS
    && GptReadLength(h.firstUsable) * SECTOR <= |disk|
    && gpt.table(Slice(disk, 0, GptReadLength(h.firstUsable))) == Some(entries)
    && ParsesMetadataOnly(gpt, disk, h.firstUsable)
    && (forall i :: 0 <= i < |entries| && Used(entries[i]) ==> EntryFits(entries[i], h.firstUsable, |disk|))
    && (forall i, j :: 0 <= i < j < |entries| && Used(entries[i]) && Used(entries[j]) ==> Disjoint(entries[i], entries[j]))
  }

  /** A lookup of the name cannot end at a placeholder that only lacks a name. */
  predicate Proper(entries: seq<Entry>, name: string) {
    name != "" || forall e :: e in entries ==> e.name != ""
  }

  function Contents(disk: seq<Byte>, e: Entry): seq<Byte>
    requires e.start <= e.end && (e.end + 1) * SECTOR <= |disk|
  {
    Slice(disk, e.start, e.end + 1 - e.start)
  }

  lemma {:induction false} FirstNamedIsEntry(entries: seq<Entry>, name: string)
    requires FirstNamed(entries, name).Some?
    ensures FirstNamed(entries, name).value in entries && FirstNamed(entries, name).value.name == name
  {
    if entries[0].name != name {
      FirstNamedIsEntry(entries[1..], name);
    }
  }

  /** The slot at `i` has the name and no earlier slot has. */
  ghost predicate FirstAt(entries: seq<Entry>, name: string, i: int) {
    0 <= i < |entries| && entries[i].name == name && forall j :: 0 <= j < i ==> entries[j].name != name
  }

  ghost predicate IsFirstNamed(entries: seq<Entry>, name: string, e: Entry) {
    exists i :: FirstAt(entries, name, i) && entries[i] == e
  }

  ghost predicate NoneNamed(entries: seq<Entry>, name: string) {
    forall i :: 0 <= i < |entries| ==> entries[i].name != name
  }

  lemma {:induction false} FirstNamedIsFirst(entries: seq<Entry>, name: string)
    ensures FirstNamed(entries, name).None? <==> NoneNamed(entries, name)
    ensures forall e :: FirstNamed(entries, name) == Some(e) <==> IsFirstNamed(entries, name, e)
  {
    if entries != [] && entries[0].name != name {
      var rest := entries[1..];
      FirstNamedIsFirst(rest, name);
      assert entries == [entries[0]] + rest;
      forall i | FirstAt(rest, name, i) ensures FirstAt(entries, name, i + 1) && entries[i + 1] == rest[i] {
      }
      forall i | FirstAt(entries, name, i) ensures i > 0 && FirstAt(rest, name, i - 1) && rest[i - 1] == entries[i] {
      }
    } else if entries != [] {
      assert FirstAt(entries, name, 0);
      assert forall i :: FirstAt(entries, name, i) ==> i == 0;
    }
  }

  /**
   The header stands in sector 1 and says where the usable sectors begin; the table is
   read from the sectors before that and two more, never more than 2048 of them.
   */
  ghost predicate TableRead(gpt: GptParser, disk: seq<Byte>, entries: seq<Entry>) {
    && |disk| >= 8192 && gpt.header(disk[4096..8192]).Some?
    && var first := gpt.header(disk[4096..8192]).value.firstUsable;
      && 1 <= first <= 2048
      && var n := if first <= 2046 then first + 2 else 2048;
        n * 4096 <= |disk| && gpt.table(disk[..n * 4096]) == Some(entries)
  }

  /** A lookup finds the first slot of the name in the table read, and fails only without a table or a slot. */
  lemma FindPartitionExactly(gpt: GptParser, disk: seq<Byte>, name: string, e: Entry)
    ensures FindPartition(gpt, disk, name) == Ok(e) <==>
      exists t :: TableRead(gpt, disk, t) && IsFirstNamed(t, name, e)
    ensures FindPartition(gpt, disk, name) == Err(PartitionNotFound(name)) <==>
      exists t :: TableRead(gpt, disk, t) && NoneNamed(t, name)
    ensures |disk| >= 8192 && gpt.header(disk[4096..8192]).None? ==> FindPartition(gpt, disk, name) == Err(BadGpt)
    ensures |disk| >= 8192 && gpt.header(disk[4096..8192]).Some? ==>
      var first := gpt.header(disk[4096..8192]).value.firstUsable;
      first == 0 || first > 2048 <==> FindPartition(gpt, disk, name) == Err(ImplausibleGpt(first))
  {
    TableReadExactly(gpt, disk, name);
    if |disk| >= 8192 {
      HeaderErrors(gpt, disk, name);
    }
    hide FindPartition, TableRead, FirstNamed, IsFirstNamed, NoneNamed;
    if t: seq<Entry> :| TableRead(gpt, disk, t) {
      FirstNamedIsFirst(t, name);
      TableIsOne(gpt, disk, t);
    }
  }

  lemma HeaderErrors(gpt: GptParser, disk: seq<Byte>, name: string)
    requires |disk| >= 8192
    ensures gpt.header(disk[4096..8192]).None? ==> FindPartition(gpt, disk, name) == Err(BadGpt)
    ensures gpt.header(disk[4096..8192]).Some? ==>
      var first := gpt.header(disk[4096..8192]).value.firstUsable;
      first == 0 || first > 2048 <==> FindPartition(gpt, disk, name) == Err(ImplausibleGpt(first))
  {
    hide FirstNamed;
    assert Slice(disk, 1, 1) == disk[4096..8192];
  }

  lemma TableIsOne(gpt: GptParser, disk: seq<Byte>, t: seq<Entry>)
    requires TableRead(gpt, disk, t)
    ensures forall u :: TableRead(gpt, disk, u) ==> u == t
  {
  }

  lemma TableReadExactly(gpt: GptParser, disk: seq<Byte>, name: string)
    ensures forall t :: TableRead(gpt, disk, t) ==>
      FindPartition(gpt, disk, name) ==
        (if FirstNamed(t, name).None? then Err(PartitionNotFound(name)) else Ok(FirstNamed(t, name).value))
    ensures (FindPartition(gpt, disk, name).Ok? || FindPartition(gpt, disk, name).error == PartitionNotFound(name)) ==>
      exists t :: TableRead(gpt, disk, t)
  {
    hide FirstNamed;
    if |disk| >= 2 * SECTOR {
      assert Slice(disk, 1, 1) == disk[4096..8192];
      var h := gpt.header(disk[4096..8192]);
      if h.Some? && 1 <= h.value.firstUsable <= 2048 {
        var n := GptReadLength(h.value.firstUsable);
        if n * SECTOR <= |disk| {
          assert Slice(disk, 0, n) == disk[..n * 4096];
          var table := gpt.table(disk[..n * 4096]);
          assert table.Some? ==> TableRead(gpt, disk, table.value);
        }
      }
    }
  }

  lemma LookupInTable(gpt: GptParser, disk: seq<Byte>, h: Header, entries: seq<Entry>, name: string)
    requires Layout(gpt, disk, h, entries)
    ensures var e := FirstNamed(entries, name);
      FindPartition(gpt, disk, name) == if e.None? then Err(PartitionNotFound(name)) else Ok(e.value)
  {
    hide FirstNamed, ParsesMetadataOnly, Slice;
  }

  /** On a sound layout a lookup by a proper name ends at a used slot of that name, unless the range is inverted. */
  lemma FoundFits(gpt: GptParser, disk: seq<Byte>, h: Header, entries: seq<Entry>, name: string)
    requires Layout(gpt, disk, h, entries) && Proper(entries, name) && FindPartition(gpt, disk, name).Ok?
    ensures var e := FindPartition(gpt, disk, name).value;
      && e in entries && e.name == name
      && (e.start <= e.end ==>
            && Used(e) && EntryFits(e, h.firstUsable, |disk|)
            && SpanSectors(e.start, e.end) == Ok(e.end - e.start + 1))
  {
    LookupInTable(gpt, disk, h, entries, name);
    hide FindPartition, ReadHeader, ParsesMetadataOnly, Slice;
    FirstNamedIsEntry(entries, name);
  }

  lemma UsedFits(gpt: GptParser, disk: seq<Byte>, h: Header, entries: seq<Entry>)
    requires Layout(gpt, disk, h, entries)
    ensures forall e :: e in entries && Used(e) ==> EntryFits(e, h.firstUsable, |disk|)
  {
    hide ReadHeader, ParsesMetadataOnly;
  }

  /** A change behind the GPT leaves the partition table as it was. */
  lemma LayoutKept(gpt: GptParser, disk: seq<Byte>, after: seq<Byte>, h: Header, entries: seq<Entry>,
                   start: nat, count: nat)
    requires Layout(gpt, disk, h, entries)
    requires start >= h.firstUsable && SpanOnly(disk, after, start, count)
    ensures Layout(gpt, after, h, entries)
  {
    assert Slice(after, 1, 1) == Slice(disk, 1, 1);
    var n, m := GptReadLength(h.firstUsable), h.firstUsable * SECTOR;
    var b, c := Slice(disk, 0, n), Slice(after, 0, n);
    assert after[..m] == disk[..m] == b[..m] == c[..m];
    assert gpt.table(c) == gpt.table(b);
  }

  /** A change inside one partition leaves every other partition as it was. */
  lemma OtherContentsKept(disk: seq<Byte>, after: seq<Byte>, e: Entry, other: Entry, firstUsable: nat)
    requires EntryFits(e, firstUsable, |disk|) && EntryFits(other, firstUsable, |disk|) && Disjoint(e, other)
    requires SpanOnly(disk, after, e.start, e.end + 1 - e.start)
    ensures Contents(after, other) == Contents(disk, other)
  {
  }

  // ---- Runs of by-name operations ------------------------------------------------------

  /** What a by-name flash or erase, successful or not, may do to its LUN. */
  ghost predicate NamedStep(gpt: GptParser, before: seq<Byte>, after: seq<Byte>, name: string) {
    after == before
    || (FindPartition(gpt, before, name).Ok?
        && var e := FindPartition(gpt, before, name).value;
          e.start <= e.end && SpanOnly(before, after, e.start, e.end + 1 - e.start))
  }

  ghost predicate NamedRun(gpt: GptParser, disks: seq<seq<Byte>>, names: seq<string>) {
    |disks| == |names| + 1
    && forall i :: 0 <= i < |names| ==> NamedStep(gpt, disks[i], disks[i + 1], names[i])
  }

  /** Every step keeps the layout and every partition but the one it names. */
  lemma NamedStepKeeps(gpt: GptParser, before: seq<Byte>, after: seq<Byte>, name: string,
                       h: Header, entries: seq<Entry>)
    requires Layout(gpt, before, h, entries) && Proper(entries, name) && NamedStep(gpt, before, after, name)
    ensures Layout(gpt, after, h, entries) && |after| == |before|
    ensures FindPartition(gpt, before, name).Err? ==> after == before
    ensures forall e :: e in entries && Used(e) && FindPartition(gpt, before, name) != Ok(e) ==>
      Contents(after, e) == Contents(before, e)
    ensures forall e :: e in entries && Used(e) && e.name != name ==> Contents(after, e) == Contents(before, e)
  {
    UsedFits(gpt, before, h, entries);
    if after != before {
      FoundFits(gpt, before, h, entries, name);
      var f := FindPartition(gpt, before, name).value;
      LayoutKept(gpt, before, after, h, entries, f.start, f.end + 1 - f.start);
      forall e | e in entries && Used(e) && e != f ensures Contents(after, e) == Contents(before, e) {
        EntriesDisjoint(entries, e, f);
        OtherContentsKept(before, after, f, e, h.firstUsable);
      }
    }
  }

  lemma EntriesDisjoint(entries: seq<Entry>, e: Entry, f: Entry)
    requires e in entries && f in entries && e != f && Used(e) && Used(f)
    requires forall i, j :: 0 <= i < j < |entries| && Used(entries[i]) && Used(entries[j]) ==> Disjoint(entries[i], entries[j])
    ensures Disjoint(e, f)
  {
    var i :| 0 <= i < |entries| && entries[i] == e;
    var j :| 0 <= j < |entries| && entries[j] == f;
    assert i < j ==> Disjoint(entries[i], entries[j]);
    assert j < i ==> Disjoint(entries[j], entries[i]);
  }

  lemma {:induction false} NamedRunKeeps(gpt: GptParser, disks: seq<seq<Byte>>, names: seq<string>,
                                         h: Header, entries: seq<Entry>)
    requires NamedRun(gpt, disks, names) && Layout(gpt, disks[0], h, entries)
    requires forall n :: n in names ==> Proper(entries, n)
    ensures Layout(gpt, disks[|names|], h, entries) && |disks[|names|]| == |disks[0]|
    ensures forall e :: e in entries && Used(e) && (forall n :: n in names ==> n != e.name) ==>
      Contents(disks[|names|], e) == Contents(disks[0], e)
    decreases |names|
  {
    UsedFits(gpt, disks[0], h, entries);
    if names != [] {
      var k := |names| - 1;
      assert NamedRun(gpt, disks[..k + 1], names[..k]);
      assert NamedStep(gpt, disks[k], disks[k + 1], names[k]) && names[k] in names;
      assert forall n :: n in names[..k] ==> n in names;
      hide Layout, NamedStep, NamedRun, FindPartition, Slice, Proper;
      NamedRunKeeps(gpt, disks[..k + 1], names[..k], h, entries);
      NamedStepKeeps(gpt, disks[k], disks[k + 1], names[k], h, entries);
      forall e | e in entries && Used(e) && (forall n :: n in names ==> n != e.name)
        ensures Contents(disks[k + 1], e) == Contents(disks[0], e)
      {
        assert forall n :: n in names[..k] ==> n in names;
      }
    }
  }

  // ---- Successful writes, as functions of the LUN -----------------------------------------

  /** Programming an image at a known place: refused when it is longer than the partition. */
  function FlashAt(disk: seq<Byte>, start: nat, partitionSectors: nat, image: seq<Byte>): Result<seq<Byte>, EdlError> {
    var n := SectorsOf(|image|);
    if n > partitionSectors then Err(Oversized(n, partitionSectors))
    else if (start + n) * SECTOR > |disk| then Err(Transport)
    else Ok(Overwrite(disk, start * SECTOR, Padded(image)))
  }

  /** Programming an image into the partition the GPT names. */
  function FlashByName(gpt: GptParser, disk: seq<Byte>, name: string, image: seq<Byte>): Result<seq<Byte>, EdlError> {
    var e := FindPartition(gpt, disk, name);
    if e.Err? then Err(e.error)
    else
      var span := SpanSectors(e.value.start, e.value.end);
      if span.Err? then Err(span.error) else FlashAt(disk, e.value.start, span.value, image)
  }

  /**
   A flash at a known place is accepted exactly when the image is no longer than the
   span and fits the LUN with its last sector filled up, and then the image is written.
   */
  lemma FlashAtWrites(disk: seq<Byte>, start: nat, partitionSectors: nat, image: seq<Byte>)
    ensures |image| > partitionSectors * SECTOR <==>
      FlashAt(disk, start, partitionSectors, image) == Err(Oversized(SectorsOf(|image|), partitionSectors))
    ensures FlashAt(disk, start, partitionSectors, image).Ok? <==>
      && |image| <= partitionSectors * SECTOR
      && start * SECTOR + |image| + (SECTOR - |image| % SECTOR) % SECTOR <= |disk|
    ensures FlashAt(disk, start, partitionSectors, image).Ok? ==>
      ImageWritten(disk, FlashAt(disk, start, partitionSectors, image).value, start * SECTOR, image)
  {
    SectorsFill(|image|);
    if FlashAt(disk, start, partitionSectors, image).Ok? {
      OverwriteWrites(disk, start, image);
    }
  }

  lemma SectorsFill(len: nat)
    ensures SectorsOf(len) * SECTOR == len + (SECTOR - len % SECTOR) % SECTOR
    ensures forall n: nat :: SectorsOf(len) > n <==> len > n * SECTOR
  {
  }

  lemma OverwriteWrites(disk: seq<Byte>, start: nat, image: seq<Byte>)
    requires (start + SectorsOf(|image|)) * SECTOR <= |disk|
    ensures ImageWritten(disk, Overwrite(disk, start * SECTOR, Padded(image)), start * SECTOR, image)
  {
    SectorsFill(|image|);
    var at, after := start * SECTOR, Overwrite(disk, start * SECTOR, Padded(image));
    assert after[at..at + |Padded(image)|] == Padded(image);
    assert after[at..at + |image|] == Padded(image)[..|image|];
  }

  function Blanked(disk: seq<Byte>, start: nat, count: nat, blank: Byte): seq<Byte>
    requires (start + count) * SECTOR <= |disk|
  {
    Overwrite(disk, start * SECTOR, seq(count * SECTOR, i => blank))
  }

  /** Erasing every sector of the partition the GPT names. */
  function EraseByName(gpt: GptParser, disk: seq<Byte>, name: string, blank: Byte): Result<seq<Byte>, EdlError> {
    var e := FindPartition(gpt, disk, name);
    if e.Err? then Err(e.error)
    else
      var span := SpanSectors(e.value.start, e.value.end);
      if span.Err? then Err(span.error)
      else if (e.value.start + span.value) * SECTOR > |disk| then Err(Transport)
      else Ok(Blanked(disk, e.value.start, span.value, blank))
  }

  /** On a sound layout an erase blanks every sector of its partition and nothing else. */
  lemma EraseBlanksThePartition(gpt: GptParser, disk: seq<Byte>, h: Header, entries: seq<Entry>, p: Entry, blank: Byte)
    requires Layout(gpt, disk, h, entries) && FindPartition(gpt, disk, p.name) == Ok(p) && Used(p)
    ensures EntryFits(p, h.firstUsable, |disk|) && EraseByName(gpt, disk, p.name, blank).Ok?
    ensures var d := EraseByName(gpt, disk, p.name, blank).value;
      && Layout(gpt, d, h, entries)
      && (forall b :: b in Contents(d, p) ==> b == blank)
      && (forall e :: e in entries && Used(e) && e != p ==> Contents(d, e) == Contents(disk, e))
  {
    FoundFits(gpt, disk, h, entries, p.name);
    UsedFits(gpt, disk, h, entries);
    var d := EraseByName(gpt, disk, p.name, blank).value;
    assert Contents(d, p) == seq((p.end + 1 - p.start) * SECTOR, i => blank);
    ChangeWithin(gpt, disk, d, p, h, entries);
  }

  // ---- The empty name ---------------------------------------------------------------------

  /** No by-name flash or erase of the name, successful or not, can change a metadata sector. */
  ghost predicate KeepsMetadata(gpt: GptParser, disk: seq<Byte>, firstUsable: nat, name: string) {
    forall after :: NamedStep(gpt, disk, after, name) ==>
      |after| == |disk| && forall i :: 0 <= i < firstUsable * SECTOR && i < |disk| ==> after[i] == disk[i]
  }

  /**
   A by-name step keeps the metadata exactly when the name is not empty, or no slot lacks
   a name, or the first such slot starts behind the metadata or is inverted. The lookup
   does not skip placeholders, and a blank one starts at sector 0.
   */
  lemma MetadataKeptExactly(gpt: GptParser, disk: seq<Byte>, h: Header, entries: seq<Entry>, name: string)
    requires Layout(gpt, disk, h, entries)
    ensures KeepsMetadata(gpt, disk, h.firstUsable, name) <==>
      var slot := FirstNamed(entries, "");
      name != "" || slot.None? || slot.value.start > slot.value.end || slot.value.start >= h.firstUsable
  {
    LookupInTable(gpt, disk, h, entries, name);
    if name != "" && FindPartition(gpt, disk, name).Ok? {
      FoundFits(gpt, disk, h, entries, name);
    }
    hide FindPartition, Layout;
    var slot := FirstNamed(entries, name);
    if slot.Some? && slot.value.start <= slot.value.end && slot.value.start < h.firstUsable {
      var at := slot.value.start * SECTOR;
      assert h.firstUsable * SECTOR <= |disk| by { MetadataFits(gpt, disk, h, entries); }
      var after := disk[at := disk[at] + 1];
      assert NamedStep(gpt, disk, after, name) && after[at] != disk[at];
    }
  }

  lemma MetadataFits(gpt: GptParser, disk: seq<Byte>, h: Header, entries: seq<Entry>)
    requires Layout(gpt, disk, h, entries)
    ensures h.firstUsable * SECTOR <= GptReadLength(h.firstUsable) * SECTOR <= |disk|
  {
  }

  /** With a blank placeholder in the table, erasing the empty name blanks sector 0. */
  lemma EmptyNameErasesSectorZero(gpt: GptParser, disk: seq<Byte>, h: Header, entries: seq<Entry>, blank: Byte)
    requires Layout(gpt, disk, h, entries) && FirstNamed(entries, "") == Some(Entry("", 0, 0))
    ensures |disk| >= SECTOR && EraseByName(gpt, disk, "", blank) == Ok(Blanked(disk, 0, 1, blank))
  {
    LookupInTable(gpt, disk, h, entries, "");
    MetadataFits(gpt, disk, h, entries);
    hide FindPartition, Layout;
  }

  /** A table as it is made: one partition, and a slot not used yet. */
  function FreshTable(): GptParser {
    GptParser(_ => Some(Header(4, 9)), _ => Some([Entry("boot", 4, 5), Entry("", 0, 0)]))
  }

  /** Such a table is a sound layout, by name its partition is erased alone, and the empty name erases sector 0. */
  lemma FreshTableIsSound(disk: seq<Byte>, blank: Byte)
    requires |disk| == 10 * SECTOR && disk[0] != blank
    ensures var gpt, boot := FreshTable(), Entry("boot", 4, 5);
      && Layout(gpt, disk, Header(4, 9), [boot, Entry("", 0, 0)])
      && FindPartition(gpt, disk, "boot") == Ok(boot) && Used(boot)
      && EraseByName(gpt, disk, "boot", blank) == Ok(Blanked(disk, 4, 2, blank))
      && EraseByName(gpt, disk, "", blank) == Ok(Blanked(disk, 0, 1, blank))
      && Blanked(disk, 0, 1, blank)[0] != disk[0]
  {
    var gpt, h, entries := FreshTable(), Header(4, 9), [Entry("boot", 4, 5), Entry("", 0, 0)];
    FreshTableLayout(disk);
    assert FirstNamed(entries, "boot") == Some(Entry("boot", 4, 5)) && FirstNamed(entries, "") == Some(Entry("", 0, 0));
    LookupInTable(gpt, disk, h, entries, "boot");
    EmptyNameErasesSectorZero(gpt, disk, h, entries, blank);
    hide FindPartition, Layout, FreshTable, FirstNamed;
  }

  lemma FreshTableLayout(disk: seq<Byte>)
    requires |disk| == 10 * SECTOR
    ensures Layout(FreshTable(), disk, Header(4, 9), [Entry("boot", 4, 5), Entry("", 0, 0)])
  {
    hide Slice;
  }

  /** `backup_lba + 1`, checked. */
  function LunSectors(gpt: GptParser, disk: seq<Byte>): Result<nat, EdlError> {
    var h := ReadHeader(gpt, disk);
    if h.Err? then Err(h.error)
    else if h.value.backup + 1 > U64_MAX then Err(BadGpt)
    else Ok(h.value.backup + 1)
  }

  /** The header of sector 1 gives the place of its backup, the last sector of the LUN. */
  ghost predicate LunEnds(gpt: GptParser, disk: seq<Byte>, backup: nat) {
    && |disk| >= 8192 && gpt.header(disk[4096..8192]).Some?
    && backup == gpt.header(disk[4096..8192]).value.backup
    && backup < 0xFFFF_FFFF_FFFF_FFFF
  }

  lemma LunSectorsExactly(gpt: GptParser, disk: seq<Byte>)
    ensures forall n :: LunSectors(gpt, disk) == Ok(n) <==> n > 0 && LunEnds(gpt, disk, n - 1)
  {
    if |disk| >= 2 * SECTOR {
      assert Slice(disk, 1, 1) == disk[4096..8192];
    }
  }

  function FlashLun(gpt: GptParser, disk: seq<Byte>, image: seq<Byte>): Result<seq<Byte>, EdlError> {
    var capacity := LunSectors(gpt, disk);
    if capacity.Err? then Err(capacity.error) else FlashAt(disk, 0, capacity.value, image)
  }

  lemma OverwriteIsSpanOnly(disk: seq<Byte>, start: nat, image: seq<Byte>)
    requires (start + SectorsOf(|image|)) * SECTOR <= |disk|
    ensures SpanOnly(disk, Overwrite(disk, start * SECTOR, Padded(image)), start, SectorsOf(|image|))
    ensures Slice(Overwrite(disk, start * SECTOR, Padded(image)), start, SectorsOf(|image|)) == Padded(image)
  {
  }

  lemma SpanWidens(before: seq<Byte>, after: seq<Byte>, start: nat, count: nat, wider: nat)
    requires SpanOnly(before, after, start, count) && count <= wider
    ensures SpanOnly(before, after, start, wider)
  {
  }

  /** A whole partition image is never too long for its own partition. */
  lemma FlashOwnContents(gpt: GptParser, disk: seq<Byte>, h: Header, entries: seq<Entry>, p: Entry, image: seq<Byte>)
    requires Layout(gpt, disk, h, entries) && FindPartition(gpt, disk, p.name) == Ok(p) && Used(p)
    requires |image| == (p.end + 1 - p.start) * SECTOR
    ensures FlashByName(gpt, disk, p.name, image).Ok?
    ensures var d := FlashByName(gpt, disk, p.name, image).value;
      && SpanOnly(disk, d, p.start, p.end + 1 - p.start) && Contents(d, p) == image
  {
    FoundFits(gpt, disk, h, entries, p.name);
    assert SectorsOf(|image|) == p.end + 1 - p.start;
    OverwriteIsSpanOnly(disk, p.start, image);
  }

  /**
   On a sound layout a by-name flash accepts exactly the images that fit the partition.
   The partition then begins with the image, the bytes behind its last sector are the
   old ones, and the table and every other partition are unchanged.
   */
  lemma FlashFillsPartition(gpt: GptParser, disk: seq<Byte>, h: Header, entries: seq<Entry>, p: Entry, image: seq<Byte>)
    requires Layout(gpt, disk, h, entries) && FindPartition(gpt, disk, p.name) == Ok(p) && Used(p)
    ensures EntryFits(p, h.firstUsable, |disk|)
    ensures FlashByName(gpt, disk, p.name, image).Ok? <==> |image| <= (p.end + 1 - p.start) * SECTOR
    ensures FlashByName(gpt, disk, p.name, image).Ok? ==>
      var d := FlashByName(gpt, disk, p.name, image).value;
      && ImageWritten(disk, d, p.start * SECTOR, image) && Layout(gpt, d, h, entries)
      && image <= Contents(d, p)
      && forall e :: e in entries && Used(e) && e != p ==> Contents(d, e) == Contents(disk, e)
  {
    FoundFits(gpt, disk, h, entries, p.name);
    UsedFits(gpt, disk, h, entries);
    var span := p.end + 1 - p.start;
    FlashAtWrites(disk, p.start, span, image);
    SectorsFill(|image|);
    hide FindPartition, Layout, FlashAt, SectorsOf, ImageWritten, Contents, EntryFits, SpanOnly;
    var r := FlashByName(gpt, disk, p.name, image);
    assert r == FlashAt(disk, p.start, span, image);
    if r.Ok? {
      WrittenFills(gpt, disk, r.value, h, entries, p, image);
    }
  }

  lemma WrittenFills(gpt: GptParser, disk: seq<Byte>, after: seq<Byte>, h: Header, entries: seq<Entry>, p: Entry, image: seq<Byte>)
    requires Layout(gpt, disk, h, entries) && FindPartition(gpt, disk, p.name) == Ok(p) && Used(p)
    requires EntryFits(p, h.firstUsable, |disk|) && |image| <= (p.end + 1 - p.start) * SECTOR
    requires ImageWritten(disk, after, p.start * SECTOR, image)
    ensures |after| == |disk| && Layout(gpt, after, h, entries) && image <= Contents(after, p)
    ensures forall e :: e in entries && Used(e) ==> EntryFits(e, h.firstUsable, |disk|)
    ensures forall e :: e in entries && Used(e) && e != p ==> Contents(after, e) == Contents(disk, e)
  {
    UsedFits(gpt, disk, h, entries);
    hide FindPartition, Layout, SpanOnly;
    WrittenIsSpanOnly(disk, after, p.start, p.end + 1 - p.start, image);
    ChangeWithin(gpt, disk, after, p, h, entries);
    assert Contents(after, p)[..|image|] == after[p.start * SECTOR..p.start * SECTOR + |image|];
  }

  lemma WrittenIsSpanOnly(before: seq<Byte>, after: seq<Byte>, start: nat, count: nat, image: seq<Byte>)
    requires ImageWritten(before, after, start * SECTOR, image) && |image| <= count * SECTOR
    ensures SpanOnly(before, after, start, count)
  {
    SectorsFill(|image|);
  }

  lemma SameTableSameEntry(gpt: GptParser, disk: seq<Byte>, other: seq<Byte>, h: Header, entries: seq<Entry>, name: string)
    requires Layout(gpt, disk, h, entries) && Layout(gpt, other, h, entries)
    ensures FindPartition(gpt, disk, name) == FindPartition(gpt, other, name)
    ensures LunSectors(gpt, disk) == LunSectors(gpt, other)
  {
  }

  /**
   Dump a partition, run any sequence of by-name flashes and erases, successful
   or not, and flash the dump back: the partition holds its old sectors again,
   and the last flash changed nothing else.
   */
  lemma DumpRunFlashRestores(gpt: GptParser, disks: seq<seq<Byte>>, names: seq<string>,
                             h: Header, entries: seq<Entry>, p: Entry)
    requires NamedRun(gpt, disks, names) && Layout(gpt, disks[0], h, entries)
    requires forall n :: n in names ==> Proper(entries, n)
    requires FindPartition(gpt, disks[0], p.name) == Ok(p) && Used(p)
    ensures p in entries && EntryFits(p, h.firstUsable, |disks[0]|)
    ensures var last := disks[|names|];
      var r := FlashByName(gpt, last, p.name, Contents(disks[0], p));
      && r.Ok? && Layout(gpt, r.value, h, entries)
      && Contents(r.value, p) == Contents(disks[0], p)
      && forall e :: e in entries && Used(e) && e != p ==> Contents(r.value, e) == Contents(last, e)
  {
    var last := disks[|names|];
    FoundFits(gpt, disks[0], h, entries, p.name);
    UsedFits(gpt, disks[0], h, entries);
    var dump := Contents(disks[0], p);
    NamedRunKeeps(gpt, disks, names, h, entries);
    SameTableSameEntry(gpt, disks[0], last, h, entries, p.name);
    hide NamedRun, FindPartition, FlashByName, SpanOnly, Layout;
    FlashOwnContents(gpt, last, h, entries, p, dump);
    var d := FlashByName(gpt, last, p.name, dump).value;
    ChangeWithin(gpt, last, d, p, h, entries);
  }

  lemma ChangeWithin(gpt: GptParser, before: seq<Byte>, after: seq<Byte>, p: Entry, h: Header, entries: seq<Entry>)
    requires Layout(gpt, before, h, entries) && FindPartition(gpt, before, p.name) == Ok(p) && Used(p)
    requires SpanOnly(before, after, p.start, p.end + 1 - p.start)
    ensures Layout(gpt, after, h, entries)
    ensures forall e :: e in entries && Used(e) && e != p ==> Contents(after, e) == Contents(before, e)
  {
    UsedFits(gpt, before, h, entries);
    hide FindPartition, SpanOnly;
    NamedStepKeeps(gpt, before, after, p.name, h, entries);
  }

  /**
   Dump a whole LUN, run any sequence of by-name flashes and erases, and flash
   the dump back: every sector the GPT accounts for is as it was.
   */
  lemma LunDumpRunFlashRestores(gpt: GptParser, disks: seq<seq<Byte>>, names: seq<string>,
                                h: Header, entries: seq<Entry>)
    requires NamedRun(gpt, disks, names) && Layout(gpt, disks[0], h, entries)
    requires forall n :: n in names ==> Proper(entries, n)
    requires LunSectors(gpt, disks[0]).Ok? && LunSectors(gpt, disks[0]).value * SECTOR <= |disks[0]|
    ensures var size := LunSectors(gpt, disks[0]).value * SECTOR;
      var r := FlashLun(gpt, disks[|names|], disks[0][..size]);
      && r.Ok? && r.value[..size] == disks[0][..size] && r.value[size..] == disks[|names|][size..]
      && (size == |disks[0]| ==> r.value == disks[0])
  {
    NamedRunKeeps(gpt, disks, names, h, entries);
    SameTableSameEntry(gpt, disks[0], disks[|names|], h, entries, "");
    hide NamedRun, Layout, LunSectors, ReadHeader;
    var size := LunSectors(gpt, disks[0]).value * SECTOR;
    var dump := disks[0][..size];
    assert SectorsOf(|dump|) == LunSectors(gpt, disks[0]).value;
    assert Padded(dump) == dump;
  }

  /** Flashing with the geometry of a scan is flashing by name. */
  lemma ScannedGeometryIsByName(gpt: GptParser, disk: seq<Byte>, e: Entry, image: seq<Byte>)
    requires FindPartition(gpt, disk, e.name) == Ok(e) && e.start <= e.end < e.start + U64_MAX
    ensures FlashAt(disk, e.start, e.end + 1 - e.start, image) == FlashByName(gpt, disk, e.name, image)
  {
    hide FlashAt, FindPartition;
  }

  // ---- A batch of images (crates/ltbox-device/src/edl/partition_flash.rs) ------------------------

  datatype Request = Request(name: string, image: Option<seq<Byte>>, lun: nat)

  /** What the preflight accepts: a known target and a nonempty image that fits it. */
  predicate Flashable(gpt: GptParser, luns: map<nat, seq<Byte>>, q: Request) {
    && q.lun in luns && q.image.Some? && q.image.value != []
    && var e := FindPartition(gpt, luns[q.lun], q.name);
      && e.Ok? && SpanSectors(e.value.start, e.value.end).Ok?
      && SectorsOf(|q.image.value|) <= SpanSectors(e.value.start, e.value.end).value
  }

  /** No image file, an empty one, an unknown or inverted target, or an image longer than its partition. */
  ghost predicate Unusable(gpt: GptParser, luns: map<nat, seq<Byte>>, q: Request) {
    || q.image.None? || q.image.value == []
    || q.lun !in luns || FindPartition(gpt, luns[q.lun], q.name).Err?
    || var e := FindPartition(gpt, luns[q.lun], q.name).value;
      e.end < e.start || |q.image.value| > (e.end + 1 - e.start) * SECTOR
  }

  lemma UnusableIsNotFlashable(gpt: GptParser, luns: map<nat, seq<Byte>>, q: Request)
    ensures Unusable(gpt, luns, q) ==> !Flashable(gpt, luns, q)
    ensures !Unusable(gpt, luns, q) && FindPartition(gpt, luns[q.lun], q.name).value.end < U64_MAX ==>
      Flashable(gpt, luns, q)
  {
    if q.image.Some? {
      SectorsFill(|q.image.value|);
    }
    hide FindPartition, SectorsOf;
  }

  predicate AllFlashable(gpt: GptParser, luns: map<nat, seq<Byte>>, requests: seq<Request>) {
    forall i :: 0 <= i < |requests| ==> Flashable(gpt, luns, requests[i])
  }

  function Start(gpt: GptParser, luns: map<nat, seq<Byte>>, q: Request): nat
    requires Flashable(gpt, luns, q)
  {
    FindPartition(gpt, luns[q.lun], q.name).value.start
  }

  /** The LUNs once the first `k` images are written at the places the original GPT gave. */
  function Programmed(gpt: GptParser, luns: map<nat, seq<Byte>>, requests: seq<Request>, k: nat): Option<map<nat, seq<Byte>>>
    requires k <= |requests| && AllFlashable(gpt, luns, requests)
  {
    if k == 0 then Some(luns)
    else
      var before := Programmed(gpt, luns, requests, k - 1);
      var q := requests[k - 1];
      var start := Start(gpt, luns, q);
      if before.None? || q.lun !in before.value
        || (start + SectorsOf(|q.image.value|)) * SECTOR > |before.value[q.lun]| then None
      else
        Some(before.value[q.lun := Overwrite(before.value[q.lun], start * SECTOR, Padded(q.image.value))])
  }

  lemma ProgrammedStarts(gpt: GptParser, luns: map<nat, seq<Byte>>, requests: seq<Request>)
    requires AllFlashable(gpt, luns, requests)
    ensures Programmed(gpt, luns, requests, 0) == Some(luns)
  {
  }

  lemma ProgrammedNext(gpt: GptParser, luns: map<nat, seq<Byte>>, requests: seq<Request>, k: nat,
                       before: map<nat, seq<Byte>>)
    requires k < |requests| && AllFlashable(gpt, luns, requests)
    requires Flashable(gpt, luns, requests[k])
    requires Programmed(gpt, luns, requests, k) == Some(before)
    requires requests[k].lun in before
    requires (Start(gpt, luns, requests[k]) + SectorsOf(|requests[k].image.value|)) * SECTOR <= |before[requests[k].lun]|
    ensures var q := requests[k];
      Programmed(gpt, luns, requests, k + 1) ==
        Some(before[q.lun := Overwrite(before[q.lun], Start(gpt, luns, q) * SECTOR, Padded(q.image.value))])
  {
  }

  /** The partition table of each LUN. */
  type Tables = map<nat, (Header, seq<Entry>)>

  ghost predicate Laid(gpt: GptParser, luns: map<nat, seq<Byte>>, tables: Tables) {
    forall l :: l in luns ==> l in tables && Layout(gpt, luns[l], tables[l].0, tables[l].1)
  }

  /** The request names its target properly in the table of its LUN. */
  predicate ProperTarget(tables: Tables, q: Request) {
    q.lun in tables && Proper(tables[q.lun].1, q.name)
  }

  /** The partition the request names begins with its image. */
  ghost predicate Placed(gpt: GptParser, luns: map<nat, seq<Byte>>, after: map<nat, seq<Byte>>, q: Request)
    requires Flashable(gpt, luns, q)
  {
    var e := FindPartition(gpt, luns[q.lun], q.name).value;
    && q.lun in after && e.start <= e.end && (e.end + 1) * SECTOR <= |after[q.lun]|
    && Padded(q.image.value) <= Contents(after[q.lun], e)
  }

  predicate SameTarget(q: Request, r: Request) {
    q.lun == r.lun && q.name == r.name
  }

  /** Every partition of another name is inside both disks and the same on them. */
  ghost predicate OthersSame(before: seq<Byte>, after: seq<Byte>, entries: seq<Entry>, name: string) {
    |before| == |after|
    && forall e :: e in entries && Used(e) && e.name != name ==>
         e.start <= e.end && (e.end + 1) * SECTOR <= |before| && Contents(after, e) == Contents(before, e)
  }

  lemma PlacedOnDisk(gpt: GptParser, disk: seq<Byte>, h: Header, entries: seq<Entry>, p: Entry, image: seq<Byte>)
    requires Layout(gpt, disk, h, entries) && FindPartition(gpt, disk, p.name) == Ok(p) && Used(p)
    requires SectorsOf(|image|) <= p.end + 1 - p.start
    ensures EntryFits(p, h.firstUsable, |disk|)
    ensures var after := Overwrite(disk, p.start * SECTOR, Padded(image));
      && Layout(gpt, after, h, entries) && OthersSame(disk, after, entries, p.name)
      && Padded(image) <= Contents(after, p)
  {
    FoundFits(gpt, disk, h, entries, p.name);
    UsedFits(gpt, disk, h, entries);
    var n := SectorsOf(|image|);
    OverwriteIsSpanOnly(disk, p.start, image);
    var after := Overwrite(disk, p.start * SECTOR, Padded(image));
    hide FindPartition, Layout, Overwrite, Padded, SectorsOf;
    SpanWidens(disk, after, p.start, n, p.end + 1 - p.start);
    ChangeWithin(gpt, disk, after, p, h, entries);
    assert Contents(after, p)[..n * SECTOR] == Slice(after, p.start, n);
  }

  /** The target of a request is found alike on every disk with the same table. */
  lemma TargetIsSame(gpt: GptParser, luns: map<nat, seq<Byte>>, before: map<nat, seq<Byte>>, tables: Tables, q: Request)
    requires Flashable(gpt, luns, q) && Laid(gpt, luns, tables) && Laid(gpt, before, tables) && q.lun in before
    requires ProperTarget(tables, q)
    ensures var p := FindPartition(gpt, luns[q.lun], q.name).value;
      && p.name == q.name && p in tables[q.lun].1 && Used(p)
      && (p.end + 1) * SECTOR <= |luns[q.lun]|
      && FindPartition(gpt, before[q.lun], q.name) == Ok(p)
      && SectorsOf(|q.image.value|) <= p.end + 1 - p.start
  {
    var h, entries := tables[q.lun].0, tables[q.lun].1;
    SameTableSameEntry(gpt, luns[q.lun], before[q.lun], h, entries, q.name);
    FoundFits(gpt, luns[q.lun], h, entries, q.name);
    hide FindPartition, Layout;
  }

  /** One image of a batch is placed; the tables and every partition of another target stay. */
  lemma OneIsPlaced(gpt: GptParser, luns: map<nat, seq<Byte>>, before: map<nat, seq<Byte>>, tables: Tables, q: Request)
    requires Flashable(gpt, luns, q) && Laid(gpt, luns, tables) && Laid(gpt, before, tables) && q.lun in before
    requires ProperTarget(tables, q)
    ensures (Start(gpt, luns, q) + SectorsOf(|q.image.value|)) * SECTOR <= |before[q.lun]|
    ensures
      var disk := Overwrite(before[q.lun], Start(gpt, luns, q) * SECTOR, Padded(q.image.value));
      var after := before[q.lun := disk];
      Laid(gpt, after, tables) && Placed(gpt, luns, after, q) && OthersSame(before[q.lun], disk, tables[q.lun].1, q.name)
  {
    TargetIsSame(gpt, luns, before, tables, q);
    var p := FindPartition(gpt, luns[q.lun], q.name).value;
    assert Layout(gpt, before[q.lun], tables[q.lun].0, tables[q.lun].1);
    assert Start(gpt, luns, q) == p.start;
    hide FindPartition, Layout, Overwrite, Padded, SectorsOf, OthersSame, Contents, Flashable, Start, Laid;
    PlacedOnDisk(gpt, before[q.lun], tables[q.lun].0, tables[q.lun].1, p, q.image.value);
    LaidWith(gpt, before, tables, q.lun, Overwrite(before[q.lun], p.start * SECTOR, Padded(q.image.value)));
  }

  lemma LaidWith(gpt: GptParser, luns: map<nat, seq<Byte>>, tables: Tables, lun: nat, disk: seq<Byte>)
    requires Laid(gpt, luns, tables) && lun in tables && Layout(gpt, disk, tables[lun].0, tables[lun].1)
    ensures Laid(gpt, luns[lun := disk], tables)
  {
    hide Layout;
  }

  /** An image already placed stays placed while another target is written. */
  lemma StaysPlaced(gpt: GptParser, luns: map<nat, seq<Byte>>, before: map<nat, seq<Byte>>, after: map<nat, seq<Byte>>,
                    tables: Tables, r: Request, q: Request)
    requires Flashable(gpt, luns, r) && Laid(gpt, luns, tables) && q.lun in before && q.lun in tables && q.lun in after
    requires ProperTarget(tables, r) && !SameTarget(q, r) && Placed(gpt, luns, before, r) && r.lun in after
    requires q.lun != r.lun ==> after[r.lun] == before[r.lun]
    requires OthersSame(before[q.lun], after[q.lun], tables[q.lun].1, q.name)
    ensures Placed(gpt, luns, after, r)
  {
    TargetIsSame(gpt, luns, luns, tables, r);
    hide FindPartition, Layout, Padded, SectorsOf, Contents;
  }

  predicate NotNamed(requests: seq<Request>, lun: nat, name: string) {
    forall i :: 0 <= i < |requests| ==> !(requests[i].lun == lun && requests[i].name == name)
  }

  /** The partitions of one name are inside both disks and the same on them. */
  ghost predicate OneSame(before: seq<Byte>, after: seq<Byte>, entries: seq<Entry>, name: string) {
    |before| == |after|
    && forall e :: e in entries && Used(e) && e.name == name ==>
         e.start <= e.end && (e.end + 1) * SECTOR <= |before| && Contents(after, e) == Contents(before, e)
  }

  /** The first `k` images are in place. */
  ghost predicate PlacedUpTo(gpt: GptParser, luns: map<nat, seq<Byte>>, after: map<nat, seq<Byte>>,
                             requests: seq<Request>, k: nat) {
    k <= |requests| && forall i :: 0 <= i < k ==> Flashable(gpt, luns, requests[i]) && Placed(gpt, luns, after, requests[i])
  }

  /** Every partition the first `k` requests do not name is as it was. */
  ghost predicate UnnamedSame(luns: map<nat, seq<Byte>>, after: map<nat, seq<Byte>>, tables: Tables,
                              requests: seq<Request>, k: nat) {
    && k <= |requests| && after.Keys == luns.Keys && luns.Keys <= tables.Keys
    && forall l, name :: l in luns && NotNamed(requests[..k], l, name) ==> OneSame(luns[l], after[l], tables[l].1, name)
  }

  /**
   A batch with one request for each of its targets can be programmed to the end on sound
   layouts, and then every image is in place, the tables are as they were, and every
   partition no request names is unchanged.
   */
  lemma {:induction false} BatchPlacesAll(gpt: GptParser, luns: map<nat, seq<Byte>>, tables: Tables,
                                          requests: seq<Request>, k: nat)
    requires k <= |requests| && AllFlashable(gpt, luns, requests) && Laid(gpt, luns, tables)
    requires forall i, j :: 0 <= i < j < |requests| ==> !SameTarget(requests[i], requests[j])
    requires forall i :: 0 <= i < |requests| ==> ProperTarget(tables, requests[i])
    ensures Programmed(gpt, luns, requests, k).Some?
    ensures var after := Programmed(gpt, luns, requests, k).value;
      Laid(gpt, after, tables) && PlacedUpTo(gpt, luns, after, requests, k) && UnnamedSame(luns, after, tables, requests, k)
  {
    hide *;
    if k == 0 {
      NothingPlaced(gpt, luns, tables, requests);
    } else {
      BatchPlacesAll(gpt, luns, tables, requests, k - 1);
      BatchStep(gpt, luns, Programmed(gpt, luns, requests, k - 1).value, tables, requests, k - 1);
    }
  }

  lemma NothingPlaced(gpt: GptParser, luns: map<nat, seq<Byte>>, tables: Tables, requests: seq<Request>)
    requires AllFlashable(gpt, luns, requests) && Laid(gpt, luns, tables)
    ensures Programmed(gpt, luns, requests, 0) == Some(luns)
    ensures PlacedUpTo(gpt, luns, luns, requests, 0) && UnnamedSame(luns, luns, tables, requests, 0)
  {
    hide FindPartition, Layout, Contents, OneSame, AllFlashable;
    forall l, name | l in luns ensures OneSame(luns[l], luns[l], tables[l].1, name) {
      AlreadySame(gpt, luns[l], tables[l].0, tables[l].1, name);
    }
  }

  lemma BatchStep(gpt: GptParser, luns: map<nat, seq<Byte>>, before: map<nat, seq<Byte>>, tables: Tables,
                  requests: seq<Request>, k: nat)
    requires k < |requests| && AllFlashable(gpt, luns, requests) && Laid(gpt, luns, tables) && Laid(gpt, before, tables)
    requires forall i :: 0 <= i < k ==> !SameTarget(requests[i], requests[k])
    requires forall i :: 0 <= i < |requests| ==> ProperTarget(tables, requests[i])
    requires Programmed(gpt, luns, requests, k) == Some(before)
    requires PlacedUpTo(gpt, luns, before, requests, k) && UnnamedSame(luns, before, tables, requests, k)
    ensures Programmed(gpt, luns, requests, k + 1).Some?
    ensures var after := Programmed(gpt, luns, requests, k + 1).value;
      && Laid(gpt, after, tables) && PlacedUpTo(gpt, luns, after, requests, k + 1)
      && UnnamedSame(luns, after, tables, requests, k + 1)
  {
    hide *;
    TargetIsThere(gpt, luns, before, tables, requests, k);
    var after := WriteTarget(gpt, luns, before, tables, requests, k);
    OthersStayPlaced(gpt, luns, before, after, tables, requests, k);
    UnnamedStay(luns, before, after, tables, requests, k);
  }

  lemma WriteTarget(gpt: GptParser, luns: map<nat, seq<Byte>>, before: map<nat, seq<Byte>>, tables: Tables,
                    requests: seq<Request>, k: nat) returns (after: map<nat, seq<Byte>>)
    requires k < |requests| && AllFlashable(gpt, luns, requests) && Flashable(gpt, luns, requests[k])
    requires ProperTarget(tables, requests[k])
    requires Laid(gpt, luns, tables) && Laid(gpt, before, tables)
    requires Programmed(gpt, luns, requests, k) == Some(before)
    requires requests[k].lun in before && requests[k].lun in tables
    ensures Programmed(gpt, luns, requests, k + 1) == Some(after) && Laid(gpt, after, tables)
    ensures Placed(gpt, luns, after, requests[k])
    ensures after.Keys == before.Keys && forall l :: l in before && l != requests[k].lun ==> after[l] == before[l]
    ensures OthersSame(before[requests[k].lun], after[requests[k].lun], tables[requests[k].lun].1, requests[k].name)
  {
    hide Overwrite, Padded, SectorsOf, Placed, OthersSame, Laid, Programmed, FindPartition, AllFlashable, Start;
    var q := requests[k];
    OneIsPlaced(gpt, luns, before, tables, q);
    ProgrammedNext(gpt, luns, requests, k, before);
    after := before[q.lun := Overwrite(before[q.lun], Start(gpt, luns, q) * SECTOR, Padded(q.image.value))];
  }

  lemma TargetIsThere(gpt: GptParser, luns: map<nat, seq<Byte>>, before: map<nat, seq<Byte>>, tables: Tables,
                      requests: seq<Request>, k: nat)
    requires k < |requests| && AllFlashable(gpt, luns, requests) && UnnamedSame(luns, before, tables, requests, k)
    ensures Flashable(gpt, luns, requests[k])
    ensures requests[k].lun in luns && requests[k].lun in before && requests[k].lun in tables
  {
    hide OneSame, FindPartition;
  }

  lemma OthersStayPlaced(gpt: GptParser, luns: map<nat, seq<Byte>>, before: map<nat, seq<Byte>>,
                         after: map<nat, seq<Byte>>, tables: Tables, requests: seq<Request>, k: nat)
    requires k < |requests| && Laid(gpt, luns, tables) && requests[k].lun in tables && requests[k].lun in before
    requires forall i :: 0 <= i < k ==> !SameTarget(requests[i], requests[k])
    requires forall i :: 0 <= i < |requests| ==> ProperTarget(tables, requests[i])
    requires PlacedUpTo(gpt, luns, before, requests, k)
    requires after.Keys == before.Keys && forall l :: l in before && l != requests[k].lun ==> after[l] == before[l]
    requires OthersSame(before[requests[k].lun], after[requests[k].lun], tables[requests[k].lun].1, requests[k].name)
    requires Flashable(gpt, luns, requests[k]) && Placed(gpt, luns, after, requests[k])
    ensures PlacedUpTo(gpt, luns, after, requests, k + 1)
  {
    hide Flashable, Placed, OthersSame, Laid, SameTarget, ProperTarget;
    forall i | 0 <= i < k ensures Placed(gpt, luns, after, requests[i]) {
      SymmetricTarget(requests[i], requests[k]);
      assert Placed(gpt, luns, before, requests[i]);
      PlacedIsThere(gpt, luns, before, requests[i]);
      StaysPlaced(gpt, luns, before, after, tables, requests[i], requests[k]);
    }
  }

  lemma UnnamedStay(luns: map<nat, seq<Byte>>, before: map<nat, seq<Byte>>, after: map<nat, seq<Byte>>, tables: Tables,
                    requests: seq<Request>, k: nat)
    requires k < |requests| && after.Keys == before.Keys && requests[k].lun in luns
    requires UnnamedSame(luns, before, tables, requests, k)
    requires requests[k].lun in before && requests[k].lun in tables
    requires forall l :: l in before && l != requests[k].lun ==> after[l] == before[l]
    requires OthersSame(before[requests[k].lun], after[requests[k].lun], tables[requests[k].lun].1, requests[k].name)
    ensures UnnamedSame(luns, after, tables, requests, k + 1)
  {
    hide OneSame, OthersSame;
    var q := requests[k];
    forall l, name | l in luns && NotNamed(requests[..k + 1], l, name) ensures OneSame(luns[l], after[l], tables[l].1, name) {
      assert requests[..k + 1][k] == q;
      assert NotNamed(requests[..k], l, name) by {
        assert forall i :: 0 <= i < k ==> requests[..k][i] == requests[..k + 1][i];
      }
      if l == q.lun {
        StaysSame(luns[l], before[l], after[l], tables[l].1, name, q.name);
      }
    }
  }

  lemma AlreadySame(gpt: GptParser, disk: seq<Byte>, h: Header, entries: seq<Entry>, name: string)
    requires Layout(gpt, disk, h, entries)
    ensures OneSame(disk, disk, entries, name)
  {
    hide ReadHeader, ParsesMetadataOnly;
  }

  lemma StaysSame(first: seq<Byte>, before: seq<Byte>, after: seq<Byte>, entries: seq<Entry>, name: string, other: string)
    requires OneSame(first, before, entries, name) && OthersSame(before, after, entries, other) && name != other
    ensures OneSame(first, after, entries, name)
  {
    hide Contents;
  }

  lemma SymmetricTarget(q: Request, r: Request)
    ensures SameTarget(q, r) <==> SameTarget(r, q)
  {
  }

  lemma PlacedIsThere(gpt: GptParser, luns: map<nat, seq<Byte>>, after: map<nat, seq<Byte>>, q: Request)
    requires Flashable(gpt, luns, q) && Placed(gpt, luns, after, q)
    ensures q.lun in after && q.lun in luns
  {
  }

  // ---- The session ------------------------------------------------------------------------------

  class EdlSession {
    const gpt: GptParser
    /** What the storage reads back for an erased byte. */
    const blank: Byte
    var luns: map<nat, seq<Byte>>

    constructor (gpt: GptParser, blank: Byte, luns: map<nat, seq<Byte>>)
      ensures this.gpt == gpt && this.blank == blank && this.luns == luns
    {
      this.gpt := gpt;
      this.blank := blank;
      this.luns := luns;
    }

    /** Only the named sectors of the named LUN may differ. */
    static ghost predicate WriteOnly(before: map<nat, seq<Byte>>, after: map<nat, seq<Byte>>, lun: nat, start: nat, count: nat) {
      && after.Keys == before.Keys
      && (forall l :: l in before && l != lun ==> after[l] == before[l])
      && (lun in before ==> SpanOnly(before[lun], after[lun], start, count))
    }

    method FirehoseRead(lun: nat, start: nat, count: nat) returns (r: Result<seq<Byte>, EdlError>)
      ensures r.Ok? ==> lun in luns && (start + count) * SECTOR <= |luns[lun]| && r.value == Slice(luns[lun], start, count)
      ensures r.Err? ==> r.error == Transport
    {
      var refused: bool := *;
      if refused || lun !in luns || (start + count) * SECTOR > |luns[lun]| {
        return Err(Transport);
      }
      return Ok(Slice(luns[lun], start, count));
    }

    method FirehoseProgram(lun: nat, start: nat, file: seq<Byte>) returns (r: Result<(), EdlError>)
      modifies this
      ensures r.Ok? ==>
        && lun in old(luns) && (start + SectorsOf(|file|)) * SECTOR <= |old(luns)[lun]|
        && luns == old(luns)[lun := Overwrite(old(luns)[lun], start * SECTOR, Padded(file))]
      ensures r.Err? ==> r.error == Transport
      ensures lun !in old(luns) || (start + SectorsOf(|file|)) * SECTOR > |old(luns)[lun]| ==>
        r.Err? && luns == old(luns)
      ensures WriteOnly(old(luns), luns, lun, start, SectorsOf(|file|))
    {
      if lun !in luns || (start + SectorsOf(|file|)) * SECTOR > |luns[lun]| {
        return Err(Transport);
      }
      var disk := luns[lun];
      OverwriteIsSpanOnly(disk, start, file);
      var refused: bool := *;
      if refused {
        var wreck := Garble(disk, start, SectorsOf(|file|));
        luns := luns[lun := wreck];
        return Err(Transport);
      }
      luns := luns[lun := Overwrite(disk, start * SECTOR, Padded(file))];
      return Ok(());
    }

    method FirehoseErase(lun: nat, start: nat, count: nat) returns (r: Result<(), EdlError>)
      modifies this
      ensures r.Ok? ==>
        && lun in old(luns) && (start + count) * SECTOR <= |old(luns)[lun]|
        && luns == old(luns)[lun := Blanked(old(luns)[lun], start, count, blank)]
      ensures r.Err? ==> r.error == Transport
      ensures WriteOnly(old(luns), luns, lun, start, count)
    {
      if lun !in luns || (start + count) * SECTOR > |luns[lun]| {
        return Err(Transport);
      }
      var refused: bool := *;
      if refused {
        var wreck := Garble(luns[lun], start, count);
        luns := luns[lun := wreck];
        return Err(Transport);
      }
      luns := luns[lun := Blanked(luns[lun], start, count, blank)];
      return Ok(());
    }

    /** A disk that agrees with the given one outside the span; any such disk may come out. */
    static method Garble(disk: seq<Byte>, start: nat, count: nat) returns (wreck: seq<Byte>)
      requires (start + count) * SECTOR <= |disk|
      ensures SpanOnly(disk, wreck, start, count)
    {
      var noise: seq<Byte> := *;
      wreck := if |noise| == count * SECTOR then Overwrite(disk, start * SECTOR, noise) else disk;
    }

    method FindPartitionByName(name: string, lun: nat) returns (r: Result<Entry, EdlError>)
      ensures r.Ok? || r.error != Transport ==> lun in luns && r == FindPartition(gpt, luns[lun], name)
    {
      var probe := FirehoseRead(lun, 1, 1);
      if probe.Err? {
        return Err(probe.error);
      }
      var h := gpt.header(probe.value);
      if h.None? {
        return Err(BadGpt);
      }
      var first := h.value.firstUsable;
      if first == 0 || first > MAX_GPT_METADATA_SECTORS {
        return Err(ImplausibleGpt(first));
      }
      var metadata := FirehoseRead(lun, 0, GptReadLength(first));
      if metadata.Err? {
        return Err(metadata.error);
      }
      var table := gpt.table(metadata.value);
      if table.None? {
        return Err(BadGpt);
      }
      var e := FirstNamed(table.value, name);
      return if e.None? then Err(PartitionNotFound(name)) else Ok(e.value);
    }

    /** `dump_partition`: the bytes of the partition the GPT names. */
    method DumpPartition(name: string, lun: nat) returns (r: Result<seq<Byte>, EdlError>)
      ensures r.Ok? ==>
        && lun in luns && FindPartition(gpt, luns[lun], name).Ok?
        && var e := FindPartition(gpt, luns[lun], name).value;
            && e.start <= e.end && (e.end + 1) * SECTOR <= |luns[lun]|
            && r.value == luns[lun][e.start * SECTOR..(e.end + 1) * SECTOR] == Contents(luns[lun], e)
    {
      var e := FindPartitionByName(name, lun);
      if e.Err? {
        return Err(e.error);
      }
      if e.value.end < e.value.start || e.value.end - e.value.start + 1 > U64_MAX {
        return Err(InvertedRange(e.value.start, e.value.end));
      }
      r := FirehoseRead(lun, e.value.start, e.value.end - e.value.start + 1);
    }

    /** `flash_partition_at`: the caller supplies the place and the span. */
    method FlashPartitionAt(image: Option<seq<Byte>>, lun: nat, start: nat, partitionSectors: nat)
      returns (r: Result<(), EdlError>)
      modifies this
      ensures r.Ok? ==>
        && image.Some? && lun in old(luns)
        && FlashAt(old(luns)[lun], start, partitionSectors, image.value).Ok?
        && luns == old(luns)[lun := FlashAt(old(luns)[lun], start, partitionSectors, image.value).value]
        && ImageWritten(old(luns)[lun], luns[lun], start * SECTOR, image.value)
      ensures r.Err? && r.error != Transport ==> luns == old(luns)
      ensures image.None? ==> r == Err(Io)
      ensures image.Some? && |image.value| > partitionSectors * SECTOR ==>
        r == Err(Oversized(SectorsOf(|image.value|), partitionSectors)) && luns == old(luns)
      ensures WriteOnly(old(luns), luns, lun, start, partitionSectors)
    {
      if image.None? {
        return Err(Io);
      }
      var n := SectorsOf(|image.value|);
      SectorsFill(|image.value|);
      if n > partitionSectors {
        return Err(Oversized(n, partitionSectors));
      }
      r := FirehoseProgram(lun, start, image.value);
      if lun in old(luns) {
        FlashAtWrites(old(luns)[lun], start, partitionSectors, image.value);
        SpanWidens(old(luns)[lun], luns[lun], start, n, partitionSectors);
      }
    }

    /** `flash_partition`: the GPT supplies the place and the span. */
    method FlashPartition(name: string, image: Option<seq<Byte>>, lun: nat) returns (r: Result<(), EdlError>)
      modifies this
      ensures r.Ok? ==>
        && image.Some? && lun in old(luns)
        && FlashByName(gpt, old(luns)[lun], name, image.value).Ok?
        && luns == old(luns)[lun := FlashByName(gpt, old(luns)[lun], name, image.value).value]
        && FindPartition(gpt, old(luns)[lun], name).Ok?
        && var e := FindPartition(gpt, old(luns)[lun], name).value;
          && e.start <= e.end && |image.value| <= (e.end + 1 - e.start) * SECTOR
          && ImageWritten(old(luns)[lun], luns[lun], e.start * SECTOR, image.value)
      ensures r.Err? && r.error != Transport ==> luns == old(luns)
      ensures image.Some? && lun in old(luns) && FindPartition(gpt, old(luns)[lun], name).Ok? ==>
        var e := FindPartition(gpt, old(luns)[lun], name).value;
        e.end < e.start || |image.value| > (e.end + 1 - e.start) * SECTOR ==> r.Err? && luns == old(luns)
      ensures image.Some? && lun in old(luns) && FlashByName(gpt, old(luns)[lun], name, image.value).Err? ==>
        r.Err? && luns == old(luns)
      ensures luns.Keys == old(luns).Keys && forall l :: l in luns && l != lun ==> luns[l] == old(luns)[l]
      ensures lun in luns ==> NamedStep(gpt, old(luns)[lun], luns[lun], name)
    {
      var e := FindPartitionByName(name, lun);
      if e.Err? {
        return Err(e.error);
      }
      var span := SpanSectors(e.value.start, e.value.end);
      if span.Err? {
        return Err(span.error);
      }
      if image.None? {
        return Err(Io);
      }
      var n := SectorsOf(|image.value|);
      SectorsFill(|image.value|);
      if n > span.value {
        return Err(Oversized(n, span.value));
      }
      FlashAtWrites(luns[lun], e.value.start, span.value, image.value);
      r := FirehoseProgram(lun, e.value.start, image.value);
      SpanWidens(old(luns)[lun], luns[lun], e.value.start, n, e.value.end + 1 - e.value.start);
    }

    /** `erase_partition_by_name`. */
    method ErasePartition(name: string, lun: nat) returns (r: Result<(), EdlError>)
      modifies this
      ensures r.Err? && r.error != Transport ==> luns == old(luns)
      ensures r.Ok? ==>
        && lun in old(luns) && EraseByName(gpt, old(luns)[lun], name, blank).Ok?
        && luns == old(luns)[lun := EraseByName(gpt, old(luns)[lun], name, blank).value]
        && FindPartition(gpt, old(luns)[lun], name).Ok?
        && var e := FindPartition(gpt, old(luns)[lun], name).value;
          e.start <= e.end && (e.end < U64_MAX ==> Blank(luns[lun], e.start * SECTOR, (e.end + 1) * SECTOR, blank))
      ensures luns.Keys == old(luns).Keys && forall l :: l in luns && l != lun ==> luns[l] == old(luns)[l]
      ensures lun in luns ==> NamedStep(gpt, old(luns)[lun], luns[lun], name)
    {
      var e := FindPartitionByName(name, lun);
      if e.Err? {
        return Err(e.error);
      }
      var span := SpanSectors(e.value.start, e.value.end);
      if span.Err? {
        return Err(span.error);
      }
      r := FirehoseErase(lun, e.value.start, span.value);
      if lun in old(luns) {
        SpanWidens(old(luns)[lun], luns[lun], e.value.start, span.value, e.value.end + 1 - e.value.start);
      }
    }

    method PhysicalLunSectorCount(lun: nat) returns (r: Result<nat, EdlError>)
      ensures r.Ok? || r.error != Transport ==> lun in luns && r == LunSectors(gpt, luns[lun])
      ensures r.Ok? ==> r.value > 0 && LunEnds(gpt, luns[lun], r.value - 1)
    {
      var probe := FirehoseRead(lun, 1, 1);
      if probe.Err? {
        return Err(probe.error);
      }
      LunSectorsExactly(gpt, luns[lun]);
      var h := gpt.header(probe.value);
      if h.None? || h.value.backup + 1 > U64_MAX {
        return Err(BadGpt);
      }
      return Ok(h.value.backup + 1);
    }

    /** `dump_physical_storage`: every sector the GPT accounts for. */
    method DumpPhysicalStorage(lun: nat) returns (r: Result<seq<Byte>, EdlError>)
      ensures r.Ok? ==>
        && lun in luns && LunSectors(gpt, luns[lun]).Ok?
        && LunSectors(gpt, luns[lun]).value * SECTOR <= |luns[lun]|
        && r.value == luns[lun][..LunSectors(gpt, luns[lun]).value * SECTOR]
        && exists backup: nat :: LunEnds(gpt, luns[lun], backup) && |r.value| == (backup + 1) * SECTOR
    {
      var total := PhysicalLunSectorCount(lun);
      if total.Err? {
        return Err(total.error);
      }
      r := FirehoseRead(lun, 0, total.value);
    }

    /** `flash_physical_storage`: refused when the image is longer than the LUN. */
    method FlashPhysicalStorage(lun: nat, image: Option<seq<Byte>>) returns (r: Result<(), EdlError>)
      modifies this
      ensures r.Ok? ==>
        && image.Some? && lun in old(luns) && FlashLun(gpt, old(luns)[lun], image.value).Ok?
        && luns == old(luns)[lun := FlashLun(gpt, old(luns)[lun], image.value).value]
        && ImageWritten(old(luns)[lun], luns[lun], 0, image.value)
        && exists backup: nat :: LunEnds(gpt, old(luns)[lun], backup) && |image.value| <= (backup + 1) * SECTOR
      ensures r.Err? && r.error != Transport ==> luns == old(luns)
      ensures image.Some? && lun in old(luns) && FlashLun(gpt, old(luns)[lun], image.value).Err? ==>
        r.Err? && luns == old(luns)
      ensures image.Some? && lun in old(luns) ==>
        forall backup: nat :: LunEnds(gpt, old(luns)[lun], backup) && |image.value| > (backup + 1) * SECTOR ==>
          r.Err? && luns == old(luns)
      ensures luns.Keys == old(luns).Keys && forall l :: l in luns && l != lun ==> luns[l] == old(luns)[l]
    {
      if image.None? {
        return Err(Io);
      }
      var capacity := PhysicalLunSectorCount(lun);
      if capacity.Err? {
        return Err(capacity.error);
      }
      var n := SectorsOf(|image.value|);
      SectorsFill(|image.value|);
      if n > capacity.value {
        return Err(Oversized(n, capacity.value));
      }
      FlashAtWrites(luns[lun], 0, capacity.value, image.value);
      r := FirehoseProgram(lun, 0, image.value);
    }

    /** The first `k` images are written and at most the sectors of the next one are touched. */
    ghost predicate StoppedAt(before: map<nat, seq<Byte>>, after: map<nat, seq<Byte>>, requests: seq<Request>, k: nat)
      requires k < |requests| && AllFlashable(gpt, before, requests)
    {
      && Programmed(gpt, before, requests, k).Some?
      && WriteOnly(Programmed(gpt, before, requests, k).value, after, requests[k].lun,
                   Start(gpt, before, requests[k]), SectorsOf(|requests[k].image.value|))
    }

    /** The preflight of a batch: every target resolved and every image measured, nothing written. */
    method ResolveBatch(requests: seq<Request>) returns (r: Result<seq<nat>, EdlError>)
      ensures r.Ok? ==>
        && AllFlashable(gpt, luns, requests) && |r.value| == |requests|
        && forall j :: 0 <= j < |requests| ==> r.value[j] == Start(gpt, luns, requests[j])
    {
      var starts: seq<nat> := [];
      for i := 0 to |requests|
        invariant |starts| == i
        invariant forall j :: 0 <= j < i ==> Flashable(gpt, luns, requests[j])
        invariant forall j :: 0 <= j < i ==> starts[j] == Start(gpt, luns, requests[j])
      {
        var q := requests[i];
        var e := FindPartitionByName(q.name, q.lun);
        if e.Err? {
          return Err(e.error);
        }
        var span := SpanSectors(e.value.start, e.value.end);
        if span.Err? {
          return Err(span.error);
        }
        if q.image.None? || q.image.value == [] {
          return Err(Io);
        }
        if SectorsOf(|q.image.value|) > span.value {
          return Err(Oversized(SectorsOf(|q.image.value|), span.value));
        }
        starts := starts + [e.value.start];
      }
      return Ok(starts);
    }

    /** The program commands of a batch, in order, each where the original GPT put its target. */
    method ProgramBatch(requests: seq<Request>, starts: seq<nat>) returns (r: Result<(), EdlError>)
      requires AllFlashable(gpt, luns, requests) && |starts| == |requests|
      requires forall j :: 0 <= j < |requests| ==>
        Flashable(gpt, luns, requests[j]) && starts[j] == Start(gpt, luns, requests[j])
      modifies this
      ensures r.Ok? ==> Programmed(gpt, old(luns), requests, |requests|) == Some(luns)
      ensures r.Err? ==> exists k :: 0 <= k < |requests| && StoppedAt(old(luns), luns, requests, k)
    {
      ghost var original := luns;
      ProgrammedStarts(gpt, luns, requests);
      assert forall i :: 0 <= i < |requests| ==> Flashable(gpt, luns, requests[i]) && requests[i].image.Some?;
      hide AllFlashable, Flashable, Start, Overwrite, Padded, SectorsOf, WriteOnly, Programmed;
      for i := 0 to |requests|
        invariant Programmed(gpt, original, requests, i) == Some(luns)
      {
        ghost var before := luns;
        r := FirehoseProgram(requests[i].lun, starts[i], requests[i].image.value);
        if r.Err? {
          assert StoppedAt(original, luns, requests, i);
          return;
        }
        ProgrammedNext(gpt, original, requests, i, before);
      }
      return Ok(());
    }

    /**
     `flash_partition_batch`: every target is resolved and every image checked
     before the first program command, so an unusable request writes nothing;
     a transport failure later stops at the image it happened on.
     */
    method FlashPartitionBatch(requests: seq<Request>) returns (r: Result<(), EdlError>)
      modifies this
      ensures !AllFlashable(gpt, old(luns), requests) ==> r.Err? && luns == old(luns)
      ensures forall q :: q in requests && Unusable(gpt, old(luns), q) ==> r.Err? && luns == old(luns)
      ensures r.Ok? ==>
        && AllFlashable(gpt, old(luns), requests)
        && Programmed(gpt, old(luns), requests, |requests|) == Some(luns)
      ensures r.Err? && luns != old(luns) ==>
        && AllFlashable(gpt, old(luns), requests)
        && exists k :: 0 <= k < |requests| && StoppedAt(old(luns), luns, requests, k)
    {
      if q :| q in requests && Unusable(gpt, luns, q) {
        UnusableIsNotFlashable(gpt, luns, q);
        assert !AllFlashable(gpt, luns, requests);
      }
      var starts := ResolveBatch(requests);
      if starts.Err? {
        return Err(starts.error);
      }
      r := ProgramBatch(requests, starts.value);
    }
  }
}
