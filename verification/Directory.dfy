/** filesys/directory.c: a file of 20-byte entries, which may cross sector
    boundaries, refines a finite map from names to sectors.  Names are C strings:
    bytes that are not 0. */
module Directory {
  import opened Wrappers
  import opened Sectors

  const NAME_MAX: nat := 14

  type Name = seq<Byte>

  ghost predicate NoNul(name: Name) {
    forall i :: 0 <= i < |name| ==> name[i] != 0
  }

  // -------------------------------------------------------------------- entries

  /** A C string at the start of some bytes. */
  function CStr(b: seq<Byte>): Name {
    if b == [] || b[0] == 0 then [] else [b[0]] + CStr(b[1..])
  }

  /** The fields of a `struct dir_entry`: four bytes of sector number, fifteen of
      name, one of in_use. */
  function SectorOf(e: seq<Byte>): nat
    requires |e| == 20
  {
    e[0] as nat + 0x100 * e[1] as nat + 0x1_0000 * e[2] as nat + 0x100_0000 * e[3] as nat
  }

  function NameOf(e: seq<Byte>): Name
    requires |e| == 20
  {
    CStr(e[4..19])
  }

  predicate InUse(e: seq<Byte>)
    requires |e| == 20
  {
    e[19] != 0
  }

  /** A 32-bit number as bytes. */
  function Word(x: nat): (b: seq<Byte>)
    requires x < 0x1_0000_0000
    ensures |b| == 4
  {
    [(x % 0x100) as Byte, (x / 0x100 % 0x100) as Byte, (x / 0x1_0000 % 0x100) as Byte, (x / 0x100_0000) as Byte]
  }

  /** What dir_add writes: the sector, the name as strlcpy leaves it over the old
      bytes, and in_use. */
  function Filled(e: seq<Byte>, name: Name, sector: nat): (r: seq<Byte>)
    requires |e| == 20 && |name| <= NAME_MAX && sector < 0x1_0000_0000
    ensures |r| == 20
  {
    Word(sector) + name + [0] + e[5 + |name|..19] + [1]
  }

  /** What dir_remove writes. */
  function Erased(e: seq<Byte>): (r: seq<Byte>)
    requires |e| == 20
    ensures |r| == 20
  {
    e[..19] + [0]
  }

  lemma {:induction false} CStrReads(name: Name, rest: seq<Byte>)
    requires NoNul(name)
    ensures CStr(name + [0] + rest) == name
  {
    if name != [] {
      CStrReads(name[1..], rest);
      assert (name + [0] + rest)[1..] == name[1..] + [0] + rest;
    }
  }

  lemma WordReads(x: nat)
    requires x < 0x1_0000_0000
    ensures var b := Word(x); x == b[0] as nat + 0x100 * b[1] as nat + 0x1_0000 * b[2] as nat + 0x100_0000 * b[3] as nat
  {
  }

  /** Reading back what was written. */
  lemma FilledReads(e: seq<Byte>, name: Name, sector: nat)
    requires |e| == 20 && |name| <= NAME_MAX && sector < 0x1_0000_0000 && NoNul(name)
    ensures var r := Filled(e, name, sector); SectorOf(r) == sector && NameOf(r) == name && InUse(r)
  {
    var r := Filled(e, name, sector);
    WordReads(sector);
    assert r[4..19] == name + [0] + e[5 + |name|..19];
    CStrReads(name, e[5 + |name|..19]);
  }

  lemma ErasedReads(e: seq<Byte>)
    requires |e| == 20
    ensures !InUse(Erased(e)) && SectorOf(Erased(e)) == SectorOf(e) && NameOf(Erased(e)) == NameOf(e)
  {
    assert Erased(e)[4..19] == e[4..19];
  }

  // ------------------------------------------------------- a directory's contents

  function Slots(data: seq<Byte>): nat {
    |data| / 20
  }

  function Slot(data: seq<Byte>, k: nat): (e: seq<Byte>)
    requires k < Slots(data)
    ensures |e| == 20
  {
    data[20 * k..20 * k + 20]
  }

  /** Slot `k` is an entry for `name`. */
  predicate Is(data: seq<Byte>, k: nat, name: Name) {
    k < Slots(data) && InUse(Slot(data, k)) && NameOf(Slot(data, k)) == name
  }

  /** In-use entries have different names. */
  ghost predicate Unique(data: seq<Byte>) {
    forall j: nat, k: nat, name :: Is(data, j, name) && Is(data, k, name) ==> j == k
  }

  ghost predicate Listed(data: seq<Byte>, name: Name) {
    exists k: nat :: Is(data, k, name)
  }

  /** The directory as a map from names to sectors. */
  ghost function Entries(data: seq<Byte>): imap<Name, nat> {
    imap name | Listed(data, name) :: var k: nat :| Is(data, k, name); SectorOf(Slot(data, k))
  }

  lemma EntryOf(data: seq<Byte>, k: nat, name: Name)
    requires Unique(data) && Is(data, k, name)
    ensures name in Entries(data) && Entries(data)[name] == SectorOf(Slot(data, k))
  {
  }

  /** Replacing slot `k`. */
  function Replaced(data: seq<Byte>, k: nat, e: seq<Byte>): (d: seq<Byte>)
    requires k < Slots(data) && |e| == 20
    ensures |d| == |data|
  {
    data[..20 * k] + e + data[20 * k + 20..]
  }

  lemma ReplacedSlot(data: seq<Byte>, k: nat, e: seq<Byte>, j: nat)
    requires k < Slots(data) && |e| == 20 && j < Slots(data)
    ensures Slot(Replaced(data, k, e), j) == if j == k then e else Slot(data, j)
  {
    var d := Replaced(data, k, e);
    assert d[20 * k..20 * k + 20] == e;
    if j < k {
      assert d[20 * j..20 * j + 20] == data[20 * j..20 * j + 20];
    } else if j > k {
      assert d[20 * j..20 * j + 20] == data[20 * j..20 * j + 20];
    }
  }

  /** What replacing slot `k` does to the entries. */
  lemma ReplacedIs(data: seq<Byte>, k: nat, e: seq<Byte>)
    requires k < Slots(data) && |e| == 20
    ensures forall j: nat, name :: Is(Replaced(data, k, e), j, name) <==>
              if j == k then InUse(e) && NameOf(e) == name else Is(data, j, name)
  {
    forall j: nat, name
      ensures Is(Replaced(data, k, e), j, name) <==> if j == k then InUse(e) && NameOf(e) == name else Is(data, j, name)
    {
      if j < Slots(data) { ReplacedSlot(data, k, e, j); }
    }
  }

  /** An entry in another slot stays. */
  lemma KeptEntry(data: seq<Byte>, k: nat, e: seq<Byte>, j: nat, name: Name)
    requires Unique(data) && k < Slots(data) && |e| == 20 && Unique(Replaced(data, k, e)) && Is(data, j, name) && j != k
    ensures Listed(Replaced(data, k, e), name) && Listed(data, name)
            && Entries(Replaced(data, k, e))[name] == Entries(data)[name]
  {
    ReplacedSlot(data, k, e, j);
    assert Is(Replaced(data, k, e), j, name);
    EntryOf(Replaced(data, k, e), j, name);
    EntryOf(data, j, name);
  }

  /** The names left after slot `k` is erased. */
  lemma RemovedNames(data: seq<Byte>, k: nat, e: seq<Byte>, name: Name, n: Name)
    requires Unique(data) && Is(data, k, name) && |e| == 20 && !InUse(e)
    ensures Listed(Replaced(data, k, e), n) <==> Listed(data, n) && n != name
  {
    ReplacedIs(data, k, e);
    if j: nat :| Is(data, j, n) && n != name { assert Is(Replaced(data, k, e), j, n); }
  }

  lemma RemovedUnique(data: seq<Byte>, k: nat, e: seq<Byte>)
    requires Unique(data) && k < Slots(data) && |e| == 20 && !InUse(e)
    ensures Unique(Replaced(data, k, e))
  {
    ReplacedIs(data, k, e);
  }

  lemma RemovedEntry(data: seq<Byte>, k: nat, e: seq<Byte>, name: Name, n: Name)
    requires Unique(data) && Is(data, k, name) && |e| == 20 && !InUse(e) && Unique(Replaced(data, k, e))
    ensures n in Entries(Replaced(data, k, e)) <==> n in Entries(data) && n != name
    ensures n in Entries(Replaced(data, k, e)) ==> Entries(Replaced(data, k, e))[n] == Entries(data)[n]
  {
    RemovedNames(data, k, e, name, n);
    if j: nat :| Is(data, j, n) && n != name { KeptEntry(data, k, e, j, n); }
  }

  lemma Minus(a: imap<Name, nat>, b: imap<Name, nat>, name: Name)
    requires forall n :: n in a <==> n in b && n != name
    requires forall n :: n in a ==> a[n] == b[n]
    ensures a == b - {name}
  {
  }

  /** dir_remove erases exactly the name. */
  lemma RemoveEntry(data: seq<Byte>, k: nat, e: seq<Byte>, name: Name)
    requires Unique(data) && Is(data, k, name) && |e| == 20 && !InUse(e)
    ensures Unique(Replaced(data, k, e)) && Entries(Replaced(data, k, e)) == Entries(data) - {name}
  {
    RemovedUnique(data, k, e);
    var a, b := Entries(Replaced(data, k, e)), Entries(data);
    forall n
      ensures (n in a <==> n in b && n != name) && (n in a ==> a[n] == b[n])
    {
      RemovedEntry(data, k, e, name, n);
    }
    Minus(a, b, name);
  }

  // ------------------------------------------------------------------- the code

  /** A directory's bytes on disk. */
  function Bytes(s: seq<Block>, f: Inode): seq<Byte> {
    Slice(s, f.start, 0, f.length)
  }

  lemma SlotBytes(s: seq<Block>, f: Inode, k: nat)
    requires 20 * k + 20 <= f.length
    ensures k < Slots(Bytes(s, f)) && Slice(s, f.start, 20 * k, 20) == Slot(Bytes(s, f), k)
  {
  }

  /** A directory that can be read and written. */
  ghost predicate Ready(disk: Disk, f: Inode)
    reads disk, disk.sectors
  {
    Formatted(disk.sectors[..]) && OnDisk(disk.sectors[..], f) && f.denyWriteCnt == 0
      && Unique(Bytes(disk.sectors[..], f))
  }

  /** Reading entry `k`; false at the end of the file, and without memory for the bounce
      buffer. */
  method ReadSlot(disk: Disk, f: Inode, k: nat, memory: bool) returns (ok: bool, e: seq<Byte>)
    requires Formatted(disk.sectors[..]) && OnDisk(disk.sectors[..], f)
    ensures ok <==> memory && k < Slots(Bytes(disk.sectors[..], f))
    ensures ok ==> e == Slot(Bytes(disk.sectors[..], f), k)
    ensures |e| == 20
  {
    var buffer := new Byte[20];
    var n := ReadAt(disk, f, buffer, 20, 20 * k, memory);
    ok, e := n == 20, buffer[..];
    if ok { SlotBytes(disk.sectors[..], f, k); }
  }

  /** Whether each entry's read gets its bounce buffer. */
  type Memory = nat -> bool

  ghost predicate Always(memory: Memory) {
    forall k :: memory(k)
  }

  /** The name's entry and those before it can be read. */
  ghost predicate Seen(data: seq<Byte>, name: Name, memory: Memory) {
    exists k: nat :: Is(data, k, name) && forall j: nat :: j <= k ==> memory(j)
  }

  /** lookup: the slot of the name's entry, and the entry. */
  method Lookup(disk: Disk, f: Inode, name: Name, memory: Memory) returns (r: Option<nat>, e: seq<Byte>)
    requires Formatted(disk.sectors[..]) && OnDisk(disk.sectors[..], f)
    ensures |e| == 20 && (r.Some? <==> Seen(Bytes(disk.sectors[..], f), name, memory))
    ensures r.Some? ==> Is(Bytes(disk.sectors[..], f), r.value, name) && e == Slot(Bytes(disk.sectors[..], f), r.value)
    ensures r.None? && Always(memory) ==> !Listed(Bytes(disk.sectors[..], f), name)
  {
    var k := 0;
    while true
      invariant k <= Slots(Bytes(disk.sectors[..], f))
      invariant forall j: nat :: j < k ==> memory(j) && !Is(Bytes(disk.sectors[..], f), j, name)
      decreases Slots(Bytes(disk.sectors[..], f)) - k
    {
      var ok, read := ReadSlot(disk, f, k, memory(k));
      e := read;
      if !ok { return None, e; }
      if InUse(e) && NameOf(e) == name {
        assert Is(Bytes(disk.sectors[..], f), k, name) && forall j: nat :: j <= k ==> memory(j);
        return Some(k), e;
      }
      k := k + 1;
    }
  }

  ghost predicate HasRoom(data: seq<Byte>) {
    exists k: nat :: k < Slots(data) && !InUse(Slot(data, k))
  }

  /** Where dir_add's scan stops: at the first slot from `k` on that is free or cannot be read,
      or at the end. */
  function Stop(data: seq<Byte>, memory: Memory, k: nat): (stop: nat)
    requires k <= Slots(data)
    ensures k <= stop <= Slots(data)
    decreases Slots(data) - k
  {
    if k < Slots(data) && memory(k) && InUse(Slot(data, k)) then Stop(data, memory, k + 1) else k
  }

  /** With memory the scan finds a free slot if there is one. */
  lemma {:induction false} StopFree(data: seq<Byte>, memory: Memory, k: nat)
    requires k <= Slots(data) && Always(memory)
    ensures var stop := Stop(data, memory, k);
            && (stop < Slots(data) ==> !InUse(Slot(data, stop)))
            && (stop == Slots(data) ==> forall j: nat :: k <= j < Slots(data) ==> InUse(Slot(data, j)))
    decreases Slots(data) - k
  {
    if k < Slots(data) && InUse(Slot(data, k)) { StopFree(data, memory, k + 1); }
  }

  /** dir_add's scan, and the bytes that were read last. */
  method FindFree(disk: Disk, f: Inode, memory: Memory) returns (k: nat, e: seq<Byte>)
    requires Formatted(disk.sectors[..]) && OnDisk(disk.sectors[..], f)
    ensures |e| == 20 && k == Stop(Bytes(disk.sectors[..], f), memory, 0)
  {
    k := 0;
    while true
      invariant k <= Slots(Bytes(disk.sectors[..], f))
      invariant Stop(Bytes(disk.sectors[..], f), memory, k) == Stop(Bytes(disk.sectors[..], f), memory, 0)
      decreases Slots(Bytes(disk.sectors[..], f)) - k
    {
      var ok, read := ReadSlot(disk, f, k, memory(k));
      e := read;
      if !ok || !InUse(e) { return; }
      k := k + 1;
    }
  }

  /** Writing entry `k`, or past the last whole entry. */
  method WriteSlot(disk: Disk, f: Inode, k: nat, e: seq<Byte>, memory: bool) returns (ok: bool)
    requires Formatted(disk.sectors[..]) && OnDisk(disk.sectors[..], f) && f.denyWriteCnt == 0 && |e| == 20
    requires k <= Slots(Bytes(disk.sectors[..], f))
    modifies disk.sectors
    ensures Formatted(disk.sectors[..]) && OnlyExtent(old(disk.sectors[..]), disk.sectors[..], f)
    ensures ok <==> memory && k < Slots(old(Bytes(disk.sectors[..], f)))
    ensures ok ==> Bytes(disk.sectors[..], f) == Replaced(old(Bytes(disk.sectors[..], f)), k, e)
    ensures !ok ==> SameSlots(old(Bytes(disk.sectors[..], f)), Bytes(disk.sectors[..], f))
  {
    ghost var s := disk.sectors[..];
    var n := WriteAt(disk, f, e, 20, 20 * k, memory);
    ok := n == 20;
    WroteSlot(s, disk.sectors[..], f, k, n, e, memory);
  }

  ghost predicate SameSlots(data: seq<Byte>, d: seq<Byte>) {
    |d| == |data| && forall k: nat :: k < Slots(data) ==> Slot(d, k) == Slot(data, k)
  }

  lemma WroteBytes(s: seq<Block>, t: seq<Block>, f: Inode, lo: nat, hi: nat, e: seq<Byte>)
    requires lo <= hi <= f.length && hi - lo <= |e| && Written(s, t, f.start, lo, hi, e)
    ensures Bytes(t, f) == Bytes(s, f)[..lo] + e[..hi - lo] + Bytes(s, f)[hi..]
  {
    WrittenSlice(s, t, f.start, lo, hi, e, f.length);
    assert Slice(s, f.start, 0, lo) == Bytes(s, f)[..lo];
    assert Slice(s, f.start, hi, f.length - hi) == Bytes(s, f)[hi..];
  }

  /** Bytes after the last whole slot do not matter. */
  lemma TailOnly(data: seq<Byte>, d: seq<Byte>, lo: nat)
    requires |d| == |data| && 20 * Slots(data) <= lo <= |data| && d[..lo] == data[..lo]
    ensures SameSlots(data, d)
  {
    forall j: nat | j < Slots(data)
      ensures Slot(d, j) == Slot(data, j)
    {
      assert d[20 * j..20 * j + 20] == d[..lo][20 * j..20 * j + 20];
      assert data[20 * j..20 * j + 20] == data[..lo][20 * j..20 * j + 20];
    }
  }

  lemma WroteSlot(s: seq<Block>, t: seq<Block>, f: Inode, k: nat, n: nat, e: seq<Byte>, memory: bool)
    requires Formatted(s) && Formatted(t) && |e| == 20 && k <= Slots(Bytes(s, f))
             && n == if memory then Available(f.length, 20, 20 * k) else 0
    requires Written(s, t, f.start, 20 * k, 20 * k + n, e)
    ensures OnlyExtent(s, t, f)
    ensures n == 20 <==> memory && k < Slots(Bytes(s, f))
    ensures n == 20 ==> Bytes(t, f) == Replaced(Bytes(s, f), k, e)
    ensures n != 20 ==> SameSlots(Bytes(s, f), Bytes(t, f))
  {
    WroteExtent(s, t, f, 20 * k, 20 * k + n, e);
    WroteBytes(s, t, f, 20 * k, 20 * k + n, e);
    if n == 20 {
      assert e[..20] == e;
    } else if memory {
      TailOnly(Bytes(s, f), Bytes(t, f), 20 * k);
    } else {
      assert Bytes(t, f) == Bytes(s, f);
    }
  }

  lemma SameEntries(data: seq<Byte>, d: seq<Byte>)
    requires SameSlots(data, d) && Unique(data)
    ensures Unique(d) && Entries(d) == Entries(data)
  {
    forall k: nat, name ensures Is(d, k, name) <==> Is(data, k, name) {}
    forall name
      ensures Listed(d, name) <==> Listed(data, name)
      ensures Listed(d, name) ==> Entries(d)[name] == Entries(data)[name]
    {
      if k: nat :| Is(data, k, name) {
        EntryOf(data, k, name);
        EntryOf(d, k, name);
      }
    }
  }

  /** What dir_add may write in place of slot `k`: the entry there, if it could not be read, is
      lost, and the names stay different exactly when no other slot has the name. */
  lemma PutEntry(data: seq<Byte>, k: nat, e: seq<Byte>, name: Name, sector: nat)
    requires Unique(data) && k < Slots(data) && |e| == 20 && InUse(e) && NameOf(e) == name && SectorOf(e) == sector
    ensures var d := Replaced(data, k, e);
            && (Unique(d) <==> forall j: nat :: Is(data, j, name) ==> j == k)
            && (Unique(d) ==> Entries(d) == Without(data, k)[name := sector])
  {
    var d := Replaced(data, k, e);
    PutUnique(data, k, e, name);
    if Unique(d) {
      ReplacedIs(data, k, e);
      ReplacedSlot(data, k, e, k);
      EntryOf(d, k, name);
      forall n | n != name
        ensures n in Entries(d) <==> n in Without(data, k)
        ensures n in Entries(d) ==> Entries(d)[n] == Without(data, k)[n]
      {
        PutOther(data, k, e, name, n);
      }
      SameMap(Entries(d), Without(data, k), name, sector);
    }
  }

  lemma SameMap(a: imap<Name, nat>, b: imap<Name, nat>, name: Name, sector: nat)
    requires name in a && a[name] == sector
    requires forall n :: n != name ==> (n in a <==> n in b) && (n in a ==> a[n] == b[n])
    ensures a == b[name := sector]
  {
  }

  /** The entries but that of slot `k`. */
  ghost function Without(data: seq<Byte>, k: nat): imap<Name, nat>
    requires k < Slots(data)
  {
    if InUse(Slot(data, k)) then Entries(data) - {NameOf(Slot(data, k))} else Entries(data)
  }

  lemma PutUnique(data: seq<Byte>, k: nat, e: seq<Byte>, name: Name)
    requires Unique(data) && k < Slots(data) && |e| == 20 && InUse(e) && NameOf(e) == name
    ensures Unique(Replaced(data, k, e)) <==> forall j: nat :: Is(data, j, name) ==> j == k
  {
    var d := Replaced(data, k, e);
    ReplacedIs(data, k, e);
    assert Is(d, k, name);
    if j: nat :| Is(data, j, name) && j != k { assert Is(d, j, name); }
  }

  lemma PutOther(data: seq<Byte>, k: nat, e: seq<Byte>, name: Name, n: Name)
    requires Unique(data) && k < Slots(data) && |e| == 20 && InUse(e) && NameOf(e) == name
    requires Unique(Replaced(data, k, e)) && n != name
    ensures n in Entries(Replaced(data, k, e)) <==> n in Without(data, k)
    ensures n in Without(data, k) ==> Entries(Replaced(data, k, e))[n] == Without(data, k)[n]
  {
    ReplacedIs(data, k, e);
    if j: nat :| Is(data, j, n) && j != k {
      KeptEntry(data, k, e, j, n);
      assert InUse(Slot(data, k)) ==> Is(data, k, NameOf(Slot(data, k)));
    }
  }

  /** dir_add.  Its scan takes a slot it cannot read for the end of the file: the entry there is
      overwritten, and a name that lookup could not see may then be there twice. */
  method Add(disk: Disk, f: Inode, name: Name, sector: nat, looks: Memory, scans: Memory, memory: bool)
    returns (ok: bool)
    requires Ready(disk, f) && NoNul(name) && sector < 0x1_0000_0000
    modifies disk.sectors
    ensures Formatted(disk.sectors[..]) && OnlyExtent(old(disk.sectors[..]), disk.sectors[..], f)
    ensures var data, d := old(Bytes(disk.sectors[..], f)), Bytes(disk.sectors[..], f);
            var k := Stop(data, scans, 0);
            && (ok <==> 0 < |name| <= NAME_MAX && !Seen(data, name, looks) && memory && k < Slots(data))
            && (Unique(d) <==> (ok ==> forall j: nat :: Is(data, j, name) ==> j == k))
            && (Unique(d) ==> Entries(d) == if ok then Without(data, k)[name := sector] else Entries(data))
    ensures var data := old(Bytes(disk.sectors[..], f));
            Always(looks) && Always(scans) && memory ==>
              && Ready(disk, f)
              && (ok <==> 0 < |name| <= NAME_MAX && !Listed(data, name) && HasRoom(data))
              && Entries(Bytes(disk.sectors[..], f)) == if ok then Entries(data)[name := sector] else Entries(data)
  {
    ghost var data := Bytes(disk.sectors[..], f);
    ok := AddSlot(disk, f, name, sector, looks, scans, memory);
    if Always(looks) && Always(scans) && memory { AddSure(data, name, looks, scans); }
  }

  method AddSlot(disk: Disk, f: Inode, name: Name, sector: nat, looks: Memory, scans: Memory, memory: bool)
    returns (ok: bool)
    requires Ready(disk, f) && NoNul(name) && sector < 0x1_0000_0000
    modifies disk.sectors
    ensures Formatted(disk.sectors[..]) && OnlyExtent(old(disk.sectors[..]), disk.sectors[..], f)
    ensures var data, d := old(Bytes(disk.sectors[..], f)), Bytes(disk.sectors[..], f);
            var k := Stop(data, scans, 0);
            && (ok <==> 0 < |name| <= NAME_MAX && !Seen(data, name, looks) && memory && k < Slots(data))
            && (Unique(d) <==> (ok ==> forall j: nat :: Is(data, j, name) ==> j == k))
            && (Unique(d) ==> Entries(d) == if ok then Without(data, k)[name := sector] else Entries(data))
  {
    if name == [] || |name| > NAME_MAX { return false; }
    var found, _ := Lookup(disk, f, name, looks);
    if found.Some? { return false; }
    var k, e := FindFree(disk, f, scans);
    FilledReads(e, name, sector);
    ghost var data := Bytes(disk.sectors[..], f);
    ok := WriteSlot(disk, f, k, Filled(e, name, sector), memory);
    if ok {
      PutEntry(data, k, Filled(e, name, sector), name, sector);
    } else {
      SameEntries(data, Bytes(disk.sectors[..], f));
    }
  }

  /** With memory dir_add does what it promises. */
  lemma AddSure(data: seq<Byte>, name: Name, looks: Memory, scans: Memory)
    requires Always(looks) && Always(scans)
    ensures Seen(data, name, looks) <==> Listed(data, name)
    ensures var k := Stop(data, scans, 0);
            && (k < Slots(data) <==> HasRoom(data))
            && (k < Slots(data) ==> Without(data, k) == Entries(data))
  {
    StopFree(data, scans, 0);
    if k: nat :| Is(data, k, name) { assert Is(data, k, name) && forall j: nat :: j <= k ==> looks(j); }
  }

  /** A name that lookup cannot see, for want of one bounce buffer, is added a second time. */
  method AddedTwice(disk: Disk, f: Inode, name: Name, sector: nat) returns (ok: bool)
    requires Ready(disk, f) && NoNul(name) && 0 < |name| <= NAME_MAX && sector < 0x1_0000_0000
    requires var data := Bytes(disk.sectors[..], f); Is(data, 1, name) && !InUse(Slot(data, 0))
    modifies disk.sectors
    ensures ok && !Unique(Bytes(disk.sectors[..], f))
  {
    ghost var data := Bytes(disk.sectors[..], f);
    var looks: Memory := k => k != 1;
    assert forall k: nat :: Is(data, k, name) ==> k == 1 && !looks(1);
    ok := Add(disk, f, name, sector, looks, _ => true, true);
  }

  /** dir_remove's erasure of the entry that lookup found. */
  method Erase(disk: Disk, f: Inode, name: Name, k: nat, e: seq<Byte>, memory: bool) returns (ok: bool)
    requires Ready(disk, f) && Is(Bytes(disk.sectors[..], f), k, name) && e == Slot(Bytes(disk.sectors[..], f), k)
    modifies disk.sectors
    ensures Ready(disk, f) && OnlyExtent(old(disk.sectors[..]), disk.sectors[..], f) && ok == memory
    ensures var entries := Entries(old(Bytes(disk.sectors[..], f)));
            Entries(Bytes(disk.sectors[..], f)) == if ok then entries - {name} else entries
  {
    ghost var data := Bytes(disk.sectors[..], f);
    ErasedReads(e);
    ok := WriteSlot(disk, f, k, Erased(e), memory);
    if ok {
      RemoveEntry(data, k, Erased(e), name);
    } else {
      SameEntries(data, Bytes(disk.sectors[..], f));
    }
  }

  // ------------------------------------------------------------------- listing

  /** The names in use from slot `k` on. */
  function NamesFrom(data: seq<Byte>, k: nat): seq<Name>
    decreases Slots(data) - k
  {
    if k >= Slots(data) then []
    else if InUse(Slot(data, k)) then [NameOf(Slot(data, k))] + NamesFrom(data, k + 1)
    else NamesFrom(data, k + 1)
  }

  lemma {:induction false} InNamesFrom(data: seq<Byte>, k: nat, name: Name)
    ensures name in NamesFrom(data, k) <==> exists j: nat :: k <= j && Is(data, j, name)
    decreases Slots(data) - k
  {
    if k < Slots(data) {
      InNamesFrom(data, k + 1, name);
      if name in NamesFrom(data, k + 1) {
        var j: nat :| k + 1 <= j && Is(data, j, name);
        assert k <= j && Is(data, j, name);
      }
      assert Is(data, k, name) ==> exists j: nat :: k <= j && Is(data, j, name);
    }
  }

  /** Listing a directory gives every name in use, once. */
  lemma {:induction false} ListsOnce(data: seq<Byte>, k: nat)
    requires Unique(data)
    ensures forall i, j :: 0 <= i < j < |NamesFrom(data, k)| ==> NamesFrom(data, k)[i] != NamesFrom(data, k)[j]
    decreases Slots(data) - k
  {
    if k < Slots(data) {
      ListsOnce(data, k + 1);
      if InUse(Slot(data, k)) {
        var name := NameOf(Slot(data, k));
        InNamesFrom(data, k + 1, name);
        assert Is(data, k, name) && name !in NamesFrom(data, k + 1);
      }
    }
  }

  lemma ListsAll(data: seq<Byte>, name: Name)
    ensures name in NamesFrom(data, 0) <==> Listed(data, name)
  {
    InNamesFrom(data, 0, name);
  }

  /** The number of slots in use from slot `k` on. */
  lemma {:induction false} InUseFrom(data: seq<Byte>, k: nat)
    requires k <= Slots(data)
    ensures |NamesFrom(data, k)| <= Slots(data) - k
    ensures |NamesFrom(data, k)| < Slots(data) - k <==> exists j: nat :: k <= j < Slots(data) && !InUse(Slot(data, j))
    decreases Slots(data) - k
  {
    if k < Slots(data) {
      InUseFrom(data, k + 1);
      if j: nat :| k <= j < Slots(data) && !InUse(Slot(data, j)) {
        assert j == k || k + 1 <= j < Slots(data);
      }
    }
  }

  /** The directory's entries are these names. */
  ghost predicate Holds(data: seq<Byte>, names: map<Name, nat>) {
    && Unique(data) && (forall n :: n in names <==> Listed(data, n))
    && forall n :: n in names ==> n in Entries(data) && names[n] == Entries(data)[n]
  }

  /** A directory has room for another entry exactly when it has fewer names than slots. */
  lemma RoomExactly(data: seq<Byte>, names: map<Name, nat>)
    requires Holds(data, names)
    ensures |names| <= Slots(data) && (HasRoom(data) <==> |names| < Slots(data))
  {
    var list := NamesFrom(data, 0);
    ListsOnce(data, 0);
    InUseFrom(data, 0);
    forall n ensures n in names <==> n in list { ListsAll(data, n); }
    assert names.Keys == set n | n in list;
    CountNoDup(list);
    assert |names| == |names.Keys| == |list|;
    assert HasRoom(data) <==> exists j: nat :: 0 <= j < Slots(data) && !InUse(Slot(data, j));
  }

  lemma {:induction false} CountNoDup(list: seq<Name>)
    requires forall i, j :: 0 <= i < j < |list| ==> list[i] != list[j]
    ensures |set n | n in list| == |list|
  {
    if list != [] {
      CountNoDup(list[1..]);
      assert (set n | n in list) == {list[0]} + (set n | n in list[1..]);
    }
  }

  /** What dir_add does to the names. */
  lemma HoldsAdded(data: seq<Byte>, d: seq<Byte>, names: map<Name, nat>, name: Name, s: nat)
    requires Holds(data, names) && Unique(d) && Entries(d) == Entries(data)[name := s]
    ensures Holds(d, names[name := s])
  {
    forall n
      ensures (n in names[name := s] <==> Listed(d, n)) && (n in Entries(d) <==> Listed(d, n))
    {
      assert n in Entries(d) <==> n in Entries(data) || n == name;
    }
  }

  lemma HoldsRemoved(data: seq<Byte>, d: seq<Byte>, names: map<Name, nat>, name: Name)
    requires Holds(data, names) && Unique(d) && Entries(d) == Entries(data) - {name}
    ensures Holds(d, names - {name})
  {
    forall n ensures Listed(d, n) <==> Listed(data, n) && n != name {
      assert n in Entries(d) <==> n in Entries(data) && n != name;
    }
  }

  /** A directory of zero bytes is empty. */
  lemma HoldsNothing(data: seq<Byte>)
    requires forall i :: 0 <= i < |data| ==> data[i] == 0
    ensures Holds(data, map[])
  {
    forall k: nat, name ensures !Is(data, k, name) {}
  }

  /** From `pos` up to `k` there are only free slots, and they can be read. */
  ghost predicate Skipped(data: seq<Byte>, memory: Memory, pos: nat, k: nat) {
    pos <= k && forall j: nat :: pos <= j < k ==> memory(j) && j < Slots(data) && !InUse(Slot(data, j))
  }

  lemma {:induction false} SkippedNames(data: seq<Byte>, memory: Memory, pos: nat, k: nat)
    requires Skipped(data, memory, pos, k)
    ensures NamesFrom(data, pos) == NamesFrom(data, k)
    decreases k - pos
  {
    if pos < k { SkippedNames(data, memory, pos + 1, k); }
  }

  /** dir_readdir: the next entry in use, and the position past it; none at the end, and at an
      entry that cannot be read. */
  method ReadDir(disk: Disk, f: Inode, pos: nat, memory: Memory) returns (r: Option<Name>, next: nat)
    requires Formatted(disk.sectors[..]) && OnDisk(disk.sectors[..], f)
    ensures var data := Bytes(disk.sectors[..], f);
            if r.Some? then next > 0 && Skipped(data, memory, pos, next - 1) && memory(next - 1)
                            && Is(data, next - 1, r.value)
            else Skipped(data, memory, pos, next) && (!memory(next) || next >= Slots(data))
  {
    next := pos;
    while true
      invariant Skipped(Bytes(disk.sectors[..], f), memory, pos, next)
      decreases Slots(Bytes(disk.sectors[..], f)) - next
    {
      var ok, e := ReadSlot(disk, f, next, memory(next));
      if !ok { return None, next; }
      next := next + 1;
      if InUse(e) { return Some(NameOf(e)), next; }
    }
  }

  /** With memory, dir_readdir returns the first of the names that are left, and leaves the
      rest. */
  lemma ReadDirNames(data: seq<Byte>, memory: Memory, pos: nat, next: nat, r: Option<Name>)
    requires Always(memory)
    requires r.Some? ==> next > 0 && Skipped(data, memory, pos, next - 1) && Is(data, next - 1, r.value)
    requires r.None? ==> Skipped(data, memory, pos, next) && next >= Slots(data)
    ensures var names := NamesFrom(data, pos);
            if names == [] then r == None else r == Some(names[0]) && NamesFrom(data, next) == names[1..]
  {
    SkippedNames(data, memory, pos, if r.Some? then next - 1 else next);
  }
}
