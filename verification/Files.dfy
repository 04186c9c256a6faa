/** filesys/filesys.c, inode.c, file.c and free-map.c on one disk.  Over every run of
    format, create, open, reopen, write, remove, close and the deny-write calls, sectors
    are owned as `Ownership` says, the root directory's bytes on the disk are the names
    of the files, and no operation on one file changes a byte of another. */
module Files {
  import opened Wrappers
  import opened Bitmaps
  import opened Sectors
  import opened Directory
  import opened Ownership

  const ENTRIES: nat := 16         // the slots do_format gives the root directory

  // ---------------------------------------------------------------- the free map

  /** The first run of `cnt` free sectors at `i` or after, if there is one. */
  ghost function FirstRun(used: seq<bool>, cnt: nat, i: nat): Option<nat>
    decreases |used| - i
  {
    if i + cnt > |used| then None
    else if AllAre(used, i, cnt, false) then Some(i)
    else FirstRun(used, cnt, i + 1)
  }

  lemma {:induction false} FirstRunIs(used: seq<bool>, cnt: nat, i: nat, r: Option<nat>)
    requires r.Some? ==> i <= r.value && AllAre(used, r.value, cnt, false)
                         && forall j: nat :: i <= j < r.value ==> !AllAre(used, j, cnt, false)
    requires r.None? ==> forall j: nat :: i <= j ==> !AllAre(used, j, cnt, false)
    ensures FirstRun(used, cnt, i) == r
    decreases |used| - i
  {
    if i + cnt <= |used| && !AllAre(used, i, cnt, false) {
      FirstRunIs(used, cnt, i + 1, r);
    }
  }

  lemma {:induction false} FirstRunFree(used: seq<bool>, cnt: nat, i: nat)
    requires FirstRun(used, cnt, i).Some?
    ensures AllAre(used, FirstRun(used, cnt, i).value, cnt, false)
    decreases |used| - i
  {
    if !AllAre(used, i, cnt, false) { FirstRunFree(used, cnt, i + 1); }
  }

  /** The free map marks exactly the sectors before `a`. */
  ghost predicate MarksUpTo(used: seq<bool>, a: nat) {
    a <= |used| && forall k :: 0 <= k < |used| ==> (used[k] <==> k < a)
  }

  lemma FirstAfter(used: seq<bool>, a: nat, cnt: nat)
    requires MarksUpTo(used, a) && cnt > 0
    ensures FirstRun(used, cnt, 0) == if a + cnt <= |used| then Some(a) else None
    ensures a + cnt <= |used| ==> MarksUpTo(SetRange(used, a, cnt, true), a + cnt)
  {
    var r := if a + cnt <= |used| then Some(a) else None;
    forall j: nat | AllAre(used, j, cnt, false) ensures j >= a { assert !used[j]; }
    FirstRunIs(used, cnt, 0, r);
  }

  /** Whether a free map of `words` words can be written back: without memory for a
      bounce buffer, only if it fills its sectors. */
  predicate Writes(words: nat, memory: bool) {
    memory || words % 64 == 0
  }

  /** These bytes are a free map: reading them gives the bits. */
  ghost predicate Imaged(data: seq<Byte>, used: seq<bool>) {
    exists ws: seq<nat> {:trigger Image(ws)} :: Packs(ws, used) && Image(ws) == data
  }

  /** The file with this header is a free map. */
  ghost predicate Filed(s: seq<Block>, h: Header, used: seq<bool>) {
    forall z: nat {:trigger Look(OfDisk, z)} :: Look(OfDisk, z) ==> Imaged(Slice(s, h.start, 0, h.length), used)
  }

  // ------------------------------------------------------------------- the disk

  function InodeOf(o: Open): Inode {
    Inode(o.header.start, o.header.length, o.denyCnt)
  }

  /** The data of some inodes are as they were. */
  ghost predicate SparesNow(s: seq<Block>, t: seq<Block>, headers: Headers, who: set<nat>) {
    forall u, j: nat :: u in who && u in headers && headers[u].Has(j) && j < |s| && j < |t| ==> t[j] == s[j]
  }

  /** `SparesNow`, for proofs that only hand it on. */
  ghost predicate Spares(s: seq<Block>, t: seq<Block>, headers: Headers, who: set<nat>) {
    |t| == |s| && forall z: nat {:trigger Look(OfSpared, z)} :: Look(OfSpared, z) ==> SparesNow(s, t, headers, who)
  }

  lemma SparesSelf(s: seq<Block>, headers: Headers, who: set<nat>)
    ensures Spares(s, s, headers, who)
  {
  }

  lemma SparesBoth(s: seq<Block>, t: seq<Block>, r: seq<Block>, headers: Headers, a: set<nat>, b: set<nat>, c: set<nat>)
    requires Spares(s, t, headers, a) && Spares(t, r, headers, b) && c <= a && c <= b
    ensures Spares(s, r, headers, c)
  {
    assert Look(OfSpared, 0);
  }

  lemma SparesFewer(s: seq<Block>, t: seq<Block>, headers: Headers, headers': Headers, a: set<nat>, b: set<nat>)
    requires Spares(s, t, headers, a) && b <= a && forall u :: u in b ==>
               u in headers && u in headers' && headers'[u] == headers[u]
    ensures Spares(s, t, headers', b)
  {
    assert Look(OfSpared, 0);
  }

  /** Writing to one live inode spares the others. */
  lemma WriteSpares(s: seq<Block>, t: seq<Block>, f: Inode, used: seq<bool>, headers: Headers, names: Names,
                    opens: Opens,
                    files: Table, extra: multiset<nat>, v: nat)
    requires Ok(used, headers, names, opens, files, extra) && v in Live(names, opens)
    requires f.start == headers[v].start && f.length == headers[v].length && OnlyExtent(s, t, f)
    ensures Spares(s, t, headers, Live(names, opens) - {v})
  {
    forall u, j: nat | u in Live(names, opens) - {v} && u in headers && headers[u].Has(j) && j < |s|
      ensures t[j] == s[j]
    {
      LiveApart(used, headers, names, opens, files, extra, u, v);
      assert Owns(u, headers[u], j);
    }
  }

  lemma SliceSame(s: seq<Block>, t: seq<Block>, h: Header)
    requires |t| == |s| && h.start + h.Sectors() <= |s| && forall j: nat :: h.Has(j) ==> t[j] == s[j]
    ensures Slice(t, h.start, 0, h.length) == Slice(s, h.start, 0, h.length)
  {
    forall i | 0 <= i < h.length
      ensures Slice(t, h.start, 0, h.length)[i] == Slice(s, h.start, 0, h.length)[i]
    {
      assert h.Has(h.start + i / 512);
    }
  }

  /** The disk has the root directory and room for the free map. */
  ghost predicate StoredNow(s: seq<Block>, n: nat, headers: Headers, names: Names) {
    && Formatted(s) && |s| == n < 0x1_0000_0000 && FREE_MAP in headers && ROOT in headers
    && headers[FREE_MAP].length == 8 * WordsFor(n) && headers[ROOT].length == 20 * ENTRIES
    && headers[ROOT].start + headers[ROOT].Sectors() <= n
    && Holds(Slice(s, headers[ROOT].start, 0, 20 * ENTRIES), names)
  }

  /** `StoredNow`, for proofs that only hand it on. */
  ghost predicate Stored(s: seq<Block>, n: nat, headers: Headers, names: Names) {
    forall z: nat {:trigger Look(OfDisk, z)} :: Look(OfDisk, z) ==> StoredNow(s, n, headers, names)
  }

  /** Slot `k` of the directory with this header is the entry `e` for a name. */
  ghost predicate Entered(s: seq<Block>, h: Header, k: nat, e: seq<Byte>, name: Name) {
    && |e| == 20
    && forall z: nat {:trigger Look(OfDisk, z)} :: Look(OfDisk, z) ==>
         var data := Slice(s, h.start, 0, h.length); Is(data, k, name) && e == Slot(data, k)
  }

  lemma StoredShape(s: seq<Block>, n: nat, headers: Headers, names: Names)
    requires Stored(s, n, headers, names)
    ensures Formatted(s) && |s| == n < 0x1_0000_0000
  {
    assert Look(OfDisk, 0);
  }

  lemma StoredSpared(s: seq<Block>, t: seq<Block>, n: nat, headers: Headers, names: Names, who: set<nat>)
    requires Stored(s, n, headers, names) && Formatted(t) && Spares(s, t, headers, who) && ROOT in who
    ensures Stored(t, n, headers, names)
  {
    assert Look(OfDisk, 0) && Look(OfSpared, 0);
    SliceSame(s, t, headers[ROOT]);
  }

  lemma FiledSpared(s: seq<Block>, t: seq<Block>, headers: Headers, used: seq<bool>, v: nat, who: set<nat>)
    requires v in who && v in headers && headers[v].start + headers[v].Sectors() <= |s| && Spares(s, t, headers, who)
    ensures Filed(s, headers[v], used) ==> Filed(t, headers[v], used)
  {
    assert Look(OfDisk, 0) && Look(OfSpared, 0);
    SliceSame(s, t, headers[v]);
  }

  lemma SliceSpared(s: seq<Block>, t: seq<Block>, headers: Headers, v: nat, who: set<nat>)
    requires v in who && v in headers && headers[v].start + headers[v].Sectors() <= |s| && Spares(s, t, headers, who)
    ensures Slice(t, headers[v].start, 0, headers[v].length) == Slice(s, headers[v].start, 0, headers[v].length)
  {
    assert Look(OfSpared, 0);
    SliceSame(s, t, headers[v]);
  }

  lemma StoredHeader(s: seq<Block>, n: nat, headers: Headers, names: Names, v: nat, h: Header)
    requires Stored(s, n, headers, names) && v > 1
    ensures Stored(s, n, headers[v := h], names)
  {
    assert Look(OfDisk, 0);
  }

  // --------------------------------------------------------- what a caller can see

  /** Which of an operation's allocations succeed: those of inode_open and dir_open for
      the root directory, of inode_open and file_open for a file, of inode_create, and
      the bounce buffers of its writes of the free map. */
  datatype World = World(rootInode: bool, rootDir: bool, inode: bool, file: bool, header: bool, bounce: nat -> bool)

  predicate RootOpens(opens: Opens, world: World) {
    (ROOT in opens || world.rootInode) && world.rootDir
  }

  /** The sector a new inode gets, if there is one: the first free one. */
  ghost function NewSector(used: seq<bool>): nat {
    var s := FirstRun(used, 1, 0);
    if s.Some? then s.value else 0
  }

  /** Where the data of a new inode go, if there is room: the first run after that. */
  ghost function NewData(used: seq<bool>, length: nat): Option<nat> {
    var s := NewSector(used);
    if s < |used| then FirstRun(used[s := true], SectorsFor(length), 0) else None
  }

  ghost function NewHeader(used: seq<bool>, length: nat): Header {
    var start := NewData(used, length);
    Header(if start.Some? then start.value else 0, length)
  }

  /** The header's sector and the data sectors can be found and taken. */
  ghost predicate Creates(used: seq<bool>, words: nat, length: nat, world: World) {
    && Writes(words, world.bounce(0)) && world.header && Writes(words, world.bounce(1))
    && FirstRun(used, 1, 0).Some? && NewData(used, length).Some?
  }

  /** The free map with the data sectors of an inode marked. */
  function MarkAll(used: seq<bool>, h: Header): (r: seq<bool>)
    ensures |r| == |used|
  {
    if h.start + h.Sectors() <= |used| then SetRange(used, h.start, h.Sectors(), true) else used
  }

  /** No live inode has a data sector of this one, so no close will release it. */
  ghost predicate NobodyHas(headers: Headers, names: Names, opens: Opens, h: Header) {
    forall t, k: nat :: t in Live(names, opens) && h.Has(k) ==> t in headers && !Owns(t, headers[t], k)
  }

  /** The root directory takes the name: dir_add succeeds. */
  predicate Accepts(names: Names, name: Name) {
    0 < |name| <= NAME_MAX && name !in names && |names| < ENTRIES
  }

  // ------------------------------------------------------------------- the code

  class FileSystem {
    const disk: Disk
    const freeMap: Bitmap
    var headers: Headers       // what the sectors of inodes hold
    ghost var names: Names     // the entries of the root directory
    var list: seq<Open>        // open_inodes
    ghost var opens: Opens     // the same, by sector
    var files: Table           // the open files, by number
    var nextId: nat
    var mapOpen: bool          // free_map_file is not null

    ghost predicate Valid()
      reads this, freeMap, freeMap.words, disk.sectors
    {
      Sound(multiset{FREE_MAP})
    }

    /** The free map is in order. */
    ghost predicate MapOk()
      reads freeMap, freeMap.words
    {
      && |freeMap.bits| == freeMap.bitCnt && freeMap.words.Length == WordsFor(freeMap.bitCnt)
      && forall z: nat {:trigger Look(OfFreeMap, z)} :: Look(OfFreeMap, z) ==> freeMap.Valid()
    }

    /** The rules of `Ownership`, with openers besides the files, on this disk. */
    ghost predicate Sound(extra: multiset<nat>)
      reads this, freeMap, freeMap.words, disk.sectors
    {
      && MapOk() && mapOpen && FREE_MAP in extra
      && Ok(freeMap.bits, headers, names, opens, files, extra) && Lists(list, opens) && Numbered(files, nextId)
      && Stored(disk.sectors[..], |freeMap.bits|, headers, names)
    }

    /** filesys_init up to free_map_init: the sectors of the free map's inode and of the
        root directory's are marked. */
    constructor (disk: Disk)
      requires Formatted(disk.sectors[..]) && 2 <= disk.sectors.Length < 0x1_0000_0000
      ensures this.disk == disk && fresh(freeMap) && fresh(freeMap.words) && MapOk() && Unformatted()
    {
      var m := new Bitmap(disk.sectors.Length);
      m.Mark(FREE_MAP);
      m.Mark(ROOT);
      this.disk, freeMap := disk, m;
      headers, names, list, opens, files, nextId, mapOpen := map[], map[], [], map[], map[], 0, false;
    }

    ghost predicate Unformatted()
      reads this, freeMap
    {
      && |freeMap.bits| == disk.sectors.Length && MarksUpTo(freeMap.bits, 2) && headers == map[] && names == map[]
      && list == [] && opens == map[] && files == map[] && !mapOpen
    }

    // ------------------------------------------------------------- open_inodes

    /** inode_open's scan. */
    method Find(s: nat) returns (k: nat)
      requires Lists(list, opens)
      ensures k <= |list| && (k < |list| <==> s in opens)
      ensures k < |list| ==> list[k].sector == s && list[k] == opens[s]
    {
      assert Look(OfOpens, 0);
      k := 0;
      while k < |list| && list[k].sector != s
        invariant k <= |list| && forall i :: 0 <= i < k ==> list[i].sector != s
      {
        k := k + 1;
      }
    }

    /** list_push_front */
    method PushFront(x: Open)
      requires Lists(list, opens) && x.sector !in opens
      modifies `list, `opens
      ensures Lists(list, opens) && list == [x] + old(list) && opens == old(opens)[x.sector := x]
    {
      ListsPush(list, opens, x);
      list, opens := [x] + list, opens[x.sector := x];
    }

    /** Updating an inode in place. */
    method Put(k: nat, x: Open)
      requires Lists(list, opens) && k < |list| && list[k].sector == x.sector
      modifies `list, `opens
      ensures Lists(list, opens) && list == old(list)[k := x] && opens == old(opens)[x.sector := x]
      ensures var same := x.sector in old(opens) && x.header == old(opens)[x.sector].header;
              var kept := same && old(Synced()) ==> Synced(); kept
    {
      ListsPut(list, opens, k, x);
      list, opens := list[k := x], opens[x.sector := x];
    }

    /** list_remove */
    method Drop(k: nat)
      requires Lists(list, opens) && k < |list|
      modifies `list, `opens
      ensures Lists(list, opens)
      ensures list == old(list)[..k] + old(list)[k + 1..] && opens == old(opens) - {old(list)[k].sector}
    {
      ListsDrop(list, opens, k);
      opens := opens - {list[k].sector};
      list := list[..k] + list[k + 1..];
    }

    // ------------------------------------------------------------- the free map

    /** free_map_file can be written. */
    ghost predicate MapReady()
      reads this, freeMap, freeMap.words, disk.sectors
    {
      && Lists(list, opens) && FREE_MAP in opens && opens[FREE_MAP].denyCnt == 0
      && opens[FREE_MAP].header.length == 8 * freeMap.words.Length && Formatted(disk.sectors[..])
      && disk.sectors.Length == |freeMap.bits| && Marked(freeMap.bits, FREE_MAP, opens[FREE_MAP].header)
    }

    /** The free map's file is the free map. */
    ghost predicate Synced()
      reads `opens, freeMap, disk.sectors
    {
      FREE_MAP in opens && Filed(disk.sectors[..], opens[FREE_MAP].header, freeMap.bits)
    }

    lemma MapIsReady(extra: multiset<nat>)
      requires Sound(extra)
      ensures MapReady() && FREE_MAP in headers && opens[FREE_MAP].header == headers[FREE_MAP]
    {
      ExtraIsOpen(freeMap.bits, headers, names, opens, files, extra, FREE_MAP);
      LiveMarked(freeMap.bits, headers, names, opens, files, extra, FREE_MAP);
      assert Look(OfDisk, 0);
    }

    /** bitmap_write to free_map_file. */
    method WriteBack(memory: bool) returns (ok: bool)
      requires MapOk() && MapReady()
      modifies disk.sectors
      ensures MapReady() && OnlyExtent(old(disk.sectors[..]), disk.sectors[..], InodeOf(opens[FREE_MAP]))
      ensures ok <==> Writes(freeMap.words.Length, memory)
      ensures ok ==> Synced()
    {
      assert Look(OfFreeMap, 0);
      var k := Find(FREE_MAP);
      ok := freeMap.WriteFile(disk, InodeOf(list[k]), memory);
    }

    /** free_map_allocate: the first run of free sectors, unless the map cannot be
        written back. */
    method Allocate(cnt: nat, memory: bool) returns (start: Option<nat>)
      requires MapOk() && (mapOpen ==> MapReady())
      modifies freeMap, freeMap.words, disk.sectors
      ensures MapOk() && (mapOpen ==> MapReady())
      ensures start == if mapOpen && !Writes(freeMap.words.Length, memory) then None
              else FirstRun(old(freeMap.bits), cnt, 0)
      ensures start.Some? ==> AllAre(old(freeMap.bits), start.value, cnt, false)
      ensures freeMap.bits == if start.Some? then SetRange(old(freeMap.bits), start.value, cnt, true)
              else old(freeMap.bits)
      ensures mapOpen ==> OnlyExtent(old(disk.sectors[..]), disk.sectors[..], InodeOf(opens[FREE_MAP]))
      ensures !mapOpen ==> disk.sectors[..] == old(disk.sectors[..])
      ensures mapOpen && start.Some? ==> Synced()
      ensures start.None? && Writes(freeMap.words.Length, memory) ==> disk.sectors[..] == old(disk.sectors[..])
    {
      assert Look(OfFreeMap, 0);
      start := freeMap.ScanAndFlip(0, cnt, false);
      FirstRunIs(old(freeMap.bits), cnt, 0, start);
      if start.Some? && mapOpen {
        var ok := WriteBack(memory);
        if !ok {
          freeMap.SetMultiple(start.value, cnt, false);
          assert freeMap.bits == old(freeMap.bits);
          start := None;
        }
      }
    }

    /** free_map_release */
    method Release(start: nat, cnt: nat, memory: bool)
      requires MapOk() && MapReady() && AllAre(freeMap.bits, start, cnt, true)
      requires forall k: nat :: Owns(FREE_MAP, opens[FREE_MAP].header, k) ==> !(start <= k < start + cnt)
      modifies freeMap, freeMap.words, disk.sectors
      ensures MapOk() && MapReady() && freeMap.bits == SetRange(old(freeMap.bits), start, cnt, false)
      ensures OnlyExtent(old(disk.sectors[..]), disk.sectors[..], InodeOf(opens[FREE_MAP]))
      ensures Writes(freeMap.words.Length, memory) ==> Synced()
    {
      assert Look(OfFreeMap, 0);
      freeMap.SetMultiple(start, cnt, false);
      var _ := WriteBack(memory);
    }

    /** Sectors outside the free map's file and a new file are as they were. */
    ghost predicate OnlyNew(s: seq<Block>, t: seq<Block>, h: Header)
      reads this
    {
      && |t| == |s|
      && forall j: nat :: j < |s| && !h.Has(j) && !(mapOpen && FREE_MAP in opens && opens[FREE_MAP].header.Has(j)) ==>
        t[j] == s[j]
    }

    /** inode_create */
    method CreateInode(s: nat, length: nat, header: bool, memory: bool) returns (ok: bool)
      requires MapOk() && Formatted(disk.sectors[..]) && disk.sectors.Length == |freeMap.bits|
               && (mapOpen ==> MapReady())
      modifies `headers, freeMap, freeMap.words, disk.sectors
      ensures MapOk() && Formatted(disk.sectors[..]) && (mapOpen ==> MapReady())
              && |freeMap.bits| == |old(freeMap.bits)|
      ensures ok <==> header && (mapOpen ==> Writes(freeMap.words.Length, memory))
                      && FirstRun(old(freeMap.bits), SectorsFor(length), 0).Some?
      ensures ok ==> s in headers
                     && headers == old(headers)[s := Header(FirstRun(old(freeMap.bits), SectorsFor(length),
                                                                     0).value, length)]
      ensures ok ==> Took(old(freeMap.bits), freeMap.bits, headers[s])
                     && Slice(disk.sectors[..], headers[s].start, 0, length) == Zeros(length)
      ensures !ok ==> freeMap.bits == old(freeMap.bits) && headers == old(headers)
      ensures OnlyNew(old(disk.sectors[..]), disk.sectors[..], if ok then headers[s] else Header(0, 0))
      ensures ok && mapOpen ==> Synced()
      ensures !ok && Writes(freeMap.words.Length, memory) ==> disk.sectors[..] == old(disk.sectors[..])
    {
      if !header { return false; }
      var start := Allocate(SectorsFor(length), memory);
      if start.None? { return false; }
      var h := Header(start.value, length);
      headers := headers[s := h];
      ghost var mid := disk.sectors[..];
      ZeroFill(disk, h.start, h.Sectors());
      if mapOpen { ZeroSpares(mid, disk.sectors[..], old(freeMap.bits), h, opens[FREE_MAP].header, freeMap.bits); }
      ok := true;
    }

    // --------------------------------------------------------------- formatting

    /** The free map's inode is open, as free_map_create and free_map_open leave it. */
    ghost predicate MapOpened()
      reads this, freeMap, freeMap.words, disk.sectors
    {
      && MapOk() && mapOpen && MapReady() && FREE_MAP in headers
      && list == [Open(FREE_MAP, headers[FREE_MAP], 1, 0, false)]
      && opens == map[FREE_MAP := Open(FREE_MAP, headers[FREE_MAP], 1, 0, false)]
      && headers[FREE_MAP] == Header(2, 8 * WordsFor(|freeMap.bits|)) && names == map[] && files == map[]
    }

    /** file_open (inode_open (FREE_MAP_SECTOR)) with nothing open. */
    method OpenMap(inode: bool, file: bool) returns (ok: bool)
      requires list == [] && opens == map[] && FREE_MAP in headers
      modifies `list, `opens, `mapOpen
      ensures ok <==> inode && file
      ensures ok ==> mapOpen && Lists(list, opens) && list == [Open(FREE_MAP, headers[FREE_MAP], 1, 0, false)]
      ensures ok ==> opens == map[FREE_MAP := Open(FREE_MAP, headers[FREE_MAP], 1, 0, false)]
    {
      ok := inode && file;
      if ok {
        PushFront(Open(FREE_MAP, headers[FREE_MAP], 1, 0, false));
        mapOpen := true;
      }
    }

    /** free_map_create's inode_create, for a file of `m` sectors. */
    method PlaceMap(memory: bool, ghost m: nat) returns (ok: bool)
      requires MapOk() && Unformatted() && Formatted(disk.sectors[..]) && m == SectorsFor(8 * freeMap.words.Length) > 0
      modifies `headers, freeMap, freeMap.words, disk.sectors
      ensures ok <==> memory && 2 + m <= |old(freeMap.bits)|
      ensures ok ==> MapOk() && |freeMap.bits| == |old(freeMap.bits)| && MarksUpTo(freeMap.bits, 2 + m)
      ensures ok ==> Formatted(disk.sectors[..]) && headers == map[FREE_MAP := Header(2, 8 * freeMap.words.Length)]
    {
      FirstAfter(freeMap.bits, 2, m);
      ok := CreateInode(FREE_MAP, 8 * freeMap.words.Length, memory, false);
    }

    /** free_map_create */
    method CreateMap(memory: nat -> bool, ghost m: nat) returns (ok: bool)
      requires MapOk() && Unformatted() && Formatted(disk.sectors[..]) && m == SectorsFor(8 * freeMap.words.Length) > 0
      modifies this, freeMap, freeMap.words, disk.sectors
      ensures ok <==> memory(0) && memory(1) && memory(2) && Writes(freeMap.words.Length, memory(3))
                      && 2 + m <= |old(freeMap.bits)|
      ensures ok ==> MapOpened() && |freeMap.bits| == |old(freeMap.bits)| && MarksUpTo(freeMap.bits, 2 + m)
      ensures ok ==> headers == map[FREE_MAP := headers[FREE_MAP]]
    {
      ok := PlaceMap(memory(0), m);
      if ok { ok := OpenMap(memory(1), memory(2)); }
      if ok { ok := WriteBack(memory(3)); }
    }

    /** dir_create of the root directory, in sector `a`. */
    method CreateRoot(memory: nat -> bool, ghost a: nat) returns (ok: bool)
      requires MapOpened() && MarksUpTo(freeMap.bits, a) && headers == map[FREE_MAP := headers[FREE_MAP]]
      modifies `headers, freeMap, freeMap.words, disk.sectors
      ensures ok <==> memory(4) && Writes(freeMap.words.Length, memory(5)) && a + 1 <= |old(freeMap.bits)|
      ensures ok ==> MapOpened() && |freeMap.bits| == |old(freeMap.bits)| && MarksUpTo(freeMap.bits, a + 1)
      ensures ok ==> headers == map[FREE_MAP := old(headers)[FREE_MAP], ROOT := Header(a, 20 * ENTRIES)] && Synced()
                     && Slice(disk.sectors[..], headers[ROOT].start, 0, 20 * ENTRIES) == Zeros(20 * ENTRIES)
    {
      FirstAfter(freeMap.bits, a, 1);
      assert SectorsFor(20 * ENTRIES) == 1;
      ok := CreateInode(ROOT, 20 * ENTRIES, memory(4), memory(5));
    }

    /** bitmap_read from free_map_file. */
    method ReadMap(memory: bool) returns (ok: bool)
      requires MapOpened() && Synced()
      modifies freeMap, freeMap.words
      ensures ok <==> Writes(freeMap.words.Length, memory)
      ensures ok ==> MapOk() && freeMap.bits == old(freeMap.bits)
    {
      assert Look(OfDisk, 0) && Look(OfFreeMap, 0);
      ghost var ws: seq<nat> :| Packs(ws, freeMap.bits)
                                && Image(ws) == Slice(disk.sectors[..], opens[FREE_MAP].header.start, 0,
                                                      opens[FREE_MAP].header.length);
      ok := freeMap.ReadFile(disk, InodeOf(list[0]), memory, ws, freeMap.bits);
    }

    /** free_map_close and free_map_open: the free map is read back as it was. */
    method ReopenMap(memory: nat -> bool) returns (ok: bool)
      requires MapOpened() && Synced()
      modifies `list, `opens, `mapOpen, freeMap, freeMap.words
      ensures ok <==> memory(6) && memory(7) && Writes(freeMap.words.Length, memory(8))
      ensures ok ==> MapOpened() && Synced() && freeMap.bits == old(freeMap.bits)
    {
      var k := Find(FREE_MAP);
      Drop(k);
      ok := OpenMap(memory(6), memory(7));
      if ok { ok := ReadMap(memory(8)); }
    }

    /** filesys_init's do_format and free_map_open; anything but `ok` is a panic.  It
        succeeds exactly when memory allows and the disk has room for the free map and
        the root directory, and leaves them disjoint and marked. */
    method Format(memory: nat -> bool) returns (ok: bool)
      requires MapOk() && Unformatted() && Formatted(disk.sectors[..]) && 2 <= |freeMap.bits| < 0x1_0000_0000
      modifies this, freeMap, freeMap.words, disk.sectors
      ensures var n := |old(freeMap.bits)|;
              ok <==> FormatMemory(freeMap.words.Length, memory) && 3 + MapSectors(n) <= n
      ensures ok ==> Valid() && Synced() && names == map[] && files == map[] && headers == Layout(|freeMap.bits|)
      ensures ok ==> |freeMap.bits| == |old(freeMap.bits)| && MarksUpTo(freeMap.bits, 3 + MapSectors(|freeMap.bits|))
    {
      ghost var m := MapSectors(|freeMap.bits|);
      ok := CreateMap(memory, m);
      if ok { ok := CreateRoot(memory, 2 + m); }
      if ok { ok := ReopenMap(memory); }
      if ok {
        nextId := 0;
        FormattedOk(freeMap.bits, headers, opens);
        HoldsNothing(Slice(disk.sectors[..], headers[ROOT].start, 0, 20 * ENTRIES));
      }
    }

    // ------------------------------------------------------------------- inodes

    /** inode_open: an element of the list for this sector is opened once more, and only
        if there is none does a new one go to the front. */
    method OpenInode(s: nat, memory: bool, ghost extra: multiset<nat>) returns (ok: bool)
      requires Sound(extra) && s in Live(names, opens)
      modifies `list, `opens
      ensures ok <==> s in old(opens) || memory
      ensures ok ==> s in headers && opens == Opened(old(opens), headers, s)
                     && Live(names, opens) == Live(names, old(opens))
      ensures ok && s !in old(opens) ==> list == [opens[s]] + old(list)
      ensures ok && s in old(opens) ==> |list| == |old(list)|
      ensures !ok ==> opens == old(opens) && list == old(list)
      ensures var sound := Sound(if ok then extra + multiset{s} else extra); sound
    {
      OpenOkAll(freeMap.bits, headers, names, opens, files, extra, s);
      var k := Find(s);
      if k < |list| {
        Put(k, list[k].(openCnt := list[k].openCnt + 1));
        ok := true;
      } else if memory {
        PushFront(Open(s, headers[s], 1, 0, false));
        ok := true;
      } else {
        ok := false;
      }
    }

    /** The free map's inode owns no sector of another. */
    ghost predicate NotOfMap(s: nat, h: Header)
      reads `opens
    {
      FREE_MAP in opens && Apart(FREE_MAP, opens[FREE_MAP].header, s, h)
    }

    /** free_map_release of an inode's header and data. */
    method ReleaseInode(s: nat, h: Header, memory0: bool, memory1: bool)
      requires MapOk() && MapReady() && Marked(freeMap.bits, s, h) && !h.Has(s) && NotOfMap(s, h)
      modifies freeMap, freeMap.words, disk.sectors
      ensures MapOk() && MapReady() && |freeMap.bits| == |old(freeMap.bits)|
      ensures forall k: nat :: k < |freeMap.bits| ==> freeMap.bits[k] == (old(freeMap.bits)[k] && !Owns(s, h, k))
      ensures OnlyExtent(old(disk.sectors[..]), disk.sectors[..], InodeOf(opens[FREE_MAP]))
      ensures Writes(freeMap.words.Length, memory1) ==> Synced()
    {
      assert Owns(s, h, s);
      assert forall k: nat :: h.Has(k) ==> Owns(s, h, k);
      Release(s, 1, memory0);
      Release(h.start, h.Sectors(), memory1);
    }

    /** The last inode_close: the inode leaves the list and, if it was removed, its
        sectors are released. */
    method CloseLast(k: nat, memory0: bool, memory1: bool, ghost extra: multiset<nat>)
      requires Sound(extra) && k < |list| && list[k].sector in extra && list[k].openCnt == 1
               && list[k].sector != FREE_MAP
      modifies `list, `opens, freeMap, freeMap.words, disk.sectors
      ensures var s := old(list)[k].sector;
              && s in old(opens) && old(opens)[s] == old(list)[k] && s in headers && opens == Closed(old(opens), s)
              && Freed(old(freeMap.bits), freeMap.bits, s, headers[s], old(list)[k].removed)
      ensures Spares(old(disk.sectors[..]), disk.sectors[..], headers, Live(names, old(opens)) - {FREE_MAP})
      ensures old(Synced()) && Writes(freeMap.words.Length, memory1) ==> Synced()
      ensures !old(list)[k].removed ==> disk.sectors[..] == old(disk.sectors[..])
      ensures var sound := Sound(extra - multiset{old(list)[k].sector}); sound
    {
      var x := list[k];
      ghost var was, bits, sectors := opens, freeMap.bits, disk.sectors[..];
      InList(list, opens, k);
      ExtraIsOpen(bits, headers, names, was, files, extra, x.sector);
      CloseOkAll(bits, headers, names, was, files, extra, x.sector);
      MapIsReady(extra);
      Drop(k);
      if x.removed {
        LiveMarked(bits, headers, names, was, files, extra, x.sector);
        LiveApart(bits, headers, names, was, files, extra, FREE_MAP, x.sector);
        ReleaseInode(x.sector, x.header, memory0, memory1);
        LastClose(bits, freeMap.bits, headers, names, was, files, extra, x.sector);
        WriteSpares(sectors, disk.sectors[..], InodeOf(opens[FREE_MAP]), bits, headers, names, was, files, extra,
                    FREE_MAP);
        StoredSpared(sectors, disk.sectors[..], |bits|, headers, names, Live(names, was) - {FREE_MAP});
      }
    }

    /** inode_close: the last close of a removed inode, and only that, releases its
        sectors. */
    method CloseInode(s: nat, memory0: bool, memory1: bool, ghost extra: multiset<nat>)
      requires Sound(extra) && s in extra && FREE_MAP in extra - multiset{s}
      modifies `list, `opens, freeMap, freeMap.words, disk.sectors
      ensures s in old(opens) && s in headers && opens == Closed(old(opens), s)
      ensures Freed(old(freeMap.bits), freeMap.bits, s, headers[s], old(opens)[s].openCnt == 1 && old(opens)[s].removed)
      ensures Spares(old(disk.sectors[..]), disk.sectors[..], headers, Live(names, old(opens)) - {FREE_MAP})
      ensures old(Synced()) && Writes(freeMap.words.Length, memory1) ==> Synced()
      ensures !old(opens)[s].removed ==> disk.sectors[..] == old(disk.sectors[..])
      ensures var sound := Sound(extra - multiset{s}); sound
    {
      ExtraIsOpen(freeMap.bits, headers, names, opens, files, extra, s);
      CloseOkAll(freeMap.bits, headers, names, opens, files, extra, s);
      var k := Find(s);
      if list[k].openCnt == 1 {
        CloseLast(k, memory0, memory1, extra);
      } else {
        Put(k, list[k].(openCnt := list[k].openCnt - 1));
      }
    }

    // -------------------------------------------------------- the root directory

    /** dir_open_root */
    method OpenRoot(world: World) returns (ok: bool)
      requires Valid()
      modifies `list, `opens, freeMap, freeMap.words, disk.sectors
      ensures ok <==> RootOpens(old(opens), world)
      ensures freeMap.bits == old(freeMap.bits) && disk.sectors[..] == old(disk.sectors[..])
              && (old(Synced()) ==> Synced())
      ensures ROOT in headers && opens == if ok then Opened(old(opens), headers, ROOT) else old(opens)
      ensures Live(names, opens) == Live(names, old(opens))
      ensures var sound := Sound(if ok then multiset{FREE_MAP} + multiset{ROOT} else multiset{FREE_MAP}); sound
    {
      ghost var extra := multiset{FREE_MAP};
      OpenThenClose(freeMap.bits, headers, names, opens, files, extra, ROOT);
      ok := OpenInode(ROOT, world.rootInode, extra);
      if ok && !world.rootDir {
        ExtraIsOpen(freeMap.bits, headers, names, opens, files, extra + multiset{ROOT}, ROOT);
        CloseInode(ROOT, true, true, extra + multiset{ROOT});
        assert extra + multiset{ROOT} - multiset{ROOT} == extra;
        ok := false;
      }
    }

    /** The root directory can be read and written, and holds the names. */
    lemma RootReady(extra: multiset<nat>)
      requires Sound(extra) && ROOT in extra
      ensures ROOT in opens && opens[ROOT].header == headers[ROOT] && Ready(disk, InodeOf(opens[ROOT]))
      ensures Holds(Bytes(disk.sectors[..], InodeOf(opens[ROOT])), names)
              && Slots(Bytes(disk.sectors[..], InodeOf(opens[ROOT]))) == ENTRIES
    {
      ExtraIsOpen(freeMap.bits, headers, names, opens, files, extra, ROOT);
      assert Look(OfDisk, 0);
    }

    /** lookup in the root directory: the name's slot, entry and sector. */
    method LookupName(name: Name, ghost extra: multiset<nat>) returns (r: Option<nat>, e: seq<Byte>, s: nat)
      requires Sound(extra) && ROOT in extra
      ensures r.Some? <==> name in names
      ensures r.Some? ==>
                ROOT in headers && Entered(disk.sectors[..], headers[ROOT], r.value, e, name) && s == names[name]
    {
      RootReady(extra);
      var k := Find(ROOT);
      r, e := Lookup(disk, InodeOf(list[k]), name, _ => true);
      s := SectorOf(e);
      if r.Some? { EntryOf(Bytes(disk.sectors[..], InodeOf(opens[ROOT])), r.value, name); }
    }

    /** dir_close of the root directory, whose sectors are never released. */
    method CloseRoot(ghost extra: multiset<nat>)
      requires Sound(extra) && ROOT in extra
      modifies `list, `opens, freeMap, freeMap.words, disk.sectors
      ensures ROOT in old(opens) && opens == Closed(old(opens), ROOT) && Live(names, opens) == Live(names, old(opens))
      ensures freeMap.bits == old(freeMap.bits) && disk.sectors[..] == old(disk.sectors[..])
              && (old(Synced()) ==> Synced())
      ensures var sound := Sound(extra - multiset{ROOT}); sound
    {
      RootStays(names, opens);
      ExtraIsOpen(freeMap.bits, headers, names, opens, files, extra, ROOT);
      CloseInode(ROOT, true, true, extra);
    }

    // -------------------------------------------------------------------- files

    /** file_open on an inode that is open for the caller: a file, or nothing and
        the inode closed. */
    method FileOpen(s: nat, memory: bool, world: World) returns (f: Option<nat>)
      requires Sound(multiset{FREE_MAP} + multiset{s}) && s > 1
      modifies `files, `nextId, `list, `opens, freeMap, freeMap.words, disk.sectors
      ensures f.None? <==> !memory
      ensures f.Some? ==>
                f.value !in old(files) && files == old(files)[f.value := File(s, false)] && opens == old(opens)
      ensures f.Some? ==> freeMap.bits == old(freeMap.bits) && disk.sectors[..] == old(disk.sectors[..])
      ensures f.None? ==> files == old(files) && s in old(opens) && opens == Closed(old(opens), s)
      ensures f.None? ==>
                s in headers && Freed(old(freeMap.bits), freeMap.bits, s, headers[s], old(opens)[s].openCnt == 1
                                      && old(opens)[s].removed)
      ensures Spares(old(disk.sectors[..]), disk.sectors[..], headers, Live(names, old(opens)) - {FREE_MAP})
      ensures old(Synced()) && Writes(freeMap.words.Length, world.bounce(1)) ==> Synced()
      ensures var sound := Valid(); sound
    {
      ghost var extra := multiset{FREE_MAP} + multiset{s};
      assert extra - multiset{s} == multiset{FREE_MAP};
      if memory {
        AdoptOkAll(freeMap.bits, headers, names, opens, files, extra, s, nextId);
        f := Some(nextId);
        files, nextId := files[nextId := File(s, false)], nextId + 1;
      } else {
        CloseInode(s, world.bounce(0), world.bounce(1), extra);
        f := None;
      }
    }

    /** The list of open inodes: no two elements are for one sector, each counts the files
        on it (and free_map_file) and the files that deny writing, and none is missing. */
    lemma OpenListSays()
      requires Valid()
      ensures forall i, j :: 0 <= i < j < |list| ==> list[i].sector != list[j].sector
      ensures forall i :: 0 <= i < |list| ==>
                && list[i].openCnt == |Openers(files, list[i].sector)| + (if list[i].sector == FREE_MAP then 1 else 0)
                && list[i].denyCnt == |Deniers(files, list[i].sector)|
      ensures forall f :: f in files ==> exists i :: 0 <= i < |list| && list[i].sector == files[f].sector
    {
      ListCounts(freeMap.bits, headers, names, opens, files, multiset{FREE_MAP}, list);
    }

    /** dir_lookup: the inode of a name, opened. */
    method LookupOpen(name: Name, memory: bool) returns (s: Option<nat>)
      requires Sound(multiset{FREE_MAP} + multiset{ROOT})
      modifies `list, `opens
      ensures s == if name in names && (names[name] in old(opens) || memory) then Some(names[name]) else None
      ensures s.Some? ==> s.value > 1 && s.value in headers && opens == Opened(old(opens), headers, s.value)
      ensures s.None? ==> opens == old(opens)
      ensures Live(names, opens) == Live(names, old(opens)) && (old(Synced()) ==> Synced())
      ensures var sound := Sound(if s.Some? then multiset{FREE_MAP} + multiset{ROOT} + multiset{s.value}
                                 else multiset{FREE_MAP} + multiset{ROOT}); sound
    {
      ghost var extra := multiset{FREE_MAP} + multiset{ROOT};
      var found, _, sector := LookupName(name, extra);
      if found.None? { return None; }
      NamedLive(freeMap.bits, headers, names, opens, files, extra, name);
      var ok := OpenInode(sector, memory, extra);
      s := if ok then Some(sector) else None;
    }

    /** filesys_open up to dir_close. */
    method LookupFile(name: Name, world: World) returns (s: Option<nat>)
      requires Valid()
      modifies `list, `opens, freeMap, freeMap.words, disk.sectors
      ensures s == if RootOpens(old(opens), world) && name in names && (names[name] in old(opens) || world.inode)
                   then Some(names[name]) else None
      ensures s.Some? ==> s.value > 1 && s.value in opens && !opens[s.value].removed
      ensures freeMap.bits == old(freeMap.bits) && disk.sectors[..] == old(disk.sectors[..])
      ensures Live(names, opens) == Live(names, old(opens)) && (old(Synced()) ==> Synced())
      ensures var sound := Sound(if s.Some? then multiset{FREE_MAP} + multiset{s.value} else multiset{FREE_MAP}); sound
    {
      NamedNotRoot(freeMap.bits, headers, names, opens, files, multiset{FREE_MAP}, name);
      var root := OpenRoot(world);
      if !root { return None; }
      s := LookupOpen(name, world.inode);
      ghost var extra := multiset{FREE_MAP} + multiset{ROOT};
      if s.None? {
        CloseRoot(extra);
        assert extra - multiset{ROOT} == multiset{FREE_MAP};
      } else {
        CloseRoot(extra + multiset{s.value});
        assert extra + multiset{s.value} - multiset{ROOT} == multiset{FREE_MAP} + multiset{s.value};
        NotRemoved(freeMap.bits, headers, names, opens, files, multiset{FREE_MAP} + multiset{s.value}, name);
      }
    }

    /** filesys_open */
    method OpenFile(name: Name, world: World) returns (f: Option<nat>)
      requires Valid()
      modifies `files, `nextId, `list, `opens, freeMap, freeMap.words, disk.sectors
      ensures f.Some? <==>
                RootOpens(old(opens), world) && name in names && (names[name] in old(opens) || world.inode)
                  && world.file
      ensures f.Some? ==> f.value !in old(files) && files == old(files)[f.value := File(names[name], false)]
      ensures f.None? ==> files == old(files)
      ensures freeMap.bits == old(freeMap.bits)
      ensures Spares(old(disk.sectors[..]), disk.sectors[..], headers, Live(names, old(opens)) - {FREE_MAP})
      ensures old(Synced()) && Writes(freeMap.words.Length, world.bounce(1)) ==> Synced()
      ensures var sound := Valid(); sound
    {
      var s := LookupFile(name, world);
      if s.None? {
        SparesSelf(disk.sectors[..], headers, Live(names, opens) - {FREE_MAP});
        return None;
      }
      f := FileOpen(s.value, world.file, world);
    }

    /** file_reopen */
    method ReopenFile(g: nat, memory: bool, world: World) returns (f: Option<nat>)
      requires Valid() && g in files
      modifies `files, `nextId, `list, `opens, freeMap, freeMap.words, disk.sectors
      ensures f.Some? <==> memory
      ensures f.Some? ==> f.value !in old(files) && files == old(files)[f.value := File(old(files)[g].sector, false)]
      ensures f.None? ==> files == old(files) && opens == old(opens)
      ensures freeMap.bits == old(freeMap.bits)
              && Spares(old(disk.sectors[..]), disk.sectors[..], headers, Live(names, old(opens)) - {FREE_MAP})
      ensures old(Synced()) && Writes(freeMap.words.Length, world.bounce(1)) ==> Synced()
      ensures var sound := Valid(); sound
    {
      ghost var extra := multiset{FREE_MAP};
      var s := files[g].sector;
      FileIsOpen(freeMap.bits, headers, names, opens, files, extra, g);
      OpenThenClose(freeMap.bits, headers, names, opens, files, extra, s);
      OpenCounts(freeMap.bits, headers, names, opens, files, extra, s);
      var ok := OpenInode(s, true, extra);
      f := FileOpen(s, memory, world);
    }

    /** file_deny_write; the source's assertion holds. */
    method DenyWrite(f: nat)
      requires Valid() && f in files
      modifies `list, `opens, `files
      ensures files == old(files)[f := File(old(files)[f].sector, true)]
      ensures Live(names, opens) == Live(names, old(opens)) && (old(Synced()) ==> Synced())
      ensures var sound := Valid(); sound
    {
      if !files[f].deny {
        DenyOkAll(freeMap.bits, headers, names, opens, files, multiset{FREE_MAP}, f, true, nextId);
        var k := Find(files[f].sector);
        Put(k, list[k].(denyCnt := Recount(list[k].denyCnt, true)));
        assert list[k].denyCnt <= list[k].openCnt;
        files := files[f := File(files[f].sector, true)];
      }
    }

    /** file_allow_write; the source's assertions hold. */
    method AllowWrite(f: nat)
      requires Valid() && f in files
      modifies `list, `opens, `files
      ensures files == old(files)[f := File(old(files)[f].sector, false)]
      ensures Live(names, opens) == Live(names, old(opens)) && (old(Synced()) ==> Synced())
      ensures var sound := Valid(); sound
    {
      if files[f].deny {
        DenyOkAll(freeMap.bits, headers, names, opens, files, multiset{FREE_MAP}, f, false, nextId);
        var k := Find(files[f].sector);
        assert 0 < list[k].denyCnt <= list[k].openCnt;
        Put(k, list[k].(denyCnt := Recount(list[k].denyCnt, false)));
        files := files[f := File(files[f].sector, false)];
      }
    }

    /** file_close: the sectors of a file that has lost its name are free again exactly
        when no other file is open on it. */
    method CloseFile(f: nat, world: World)
      requires Valid() && f in files
      modifies `files, `list, `opens, freeMap, freeMap.words, disk.sectors
      ensures files == old(files) - {f}
      ensures var s := old(files)[f].sector;
              s in headers && Freed(old(freeMap.bits), freeMap.bits, s, headers[s], s !in names.Values
                                    && Openers(files, s) == {})
      ensures Spares(old(disk.sectors[..]), disk.sectors[..], headers, Live(names, old(opens)) - {FREE_MAP})
      ensures old(Synced()) && Writes(freeMap.words.Length, world.bounce(1)) ==> Synced()
      ensures var sound := Valid(); sound
    {
      ghost var extra := multiset{FREE_MAP};
      AllowWrite(f);
      var s := files[f].sector;
      FileIsOpen(freeMap.bits, headers, names, opens, files, extra, f);
      DisownOkAll(freeMap.bits, headers, names, opens, files, extra, f, nextId);
      files := files - {f};
      OpenCounts(freeMap.bits, headers, names, opens, files, extra + multiset{s}, s);
      CloseInode(s, world.bounce(0), world.bounce(1), extra + multiset{s});
      assert extra + multiset{s} - multiset{s} == extra;
      assert |Openers(files, s)| == 0 <==> Openers(files, s) == {};
      assert old(files)[f := File(old(files)[f].sector, false)] - {f} == old(files) - {f};
    }

    /** file_write_at: nothing is written while a file on the inode denies it, and no
        other inode's data change. */
    method WriteFile(f: nat, buffer: seq<Byte>, size: int, offset: nat, memory: bool) returns (n: nat)
      requires Valid() && f in files && size <= |buffer|
      modifies disk.sectors
      ensures var s := files[f].sector;
              && s in opens && n <= Available(opens[s].header.length, size, offset)
              && (Deniers(files, s) != {} ==> n == 0)
              && (Deniers(files, s) == {} && memory ==> n == Available(opens[s].header.length, size, offset))
              && Written(old(disk.sectors[..]), disk.sectors[..], opens[s].header.start, offset, offset + n, buffer)
              && Spares(old(disk.sectors[..]), disk.sectors[..], headers, Live(names, opens) - {s})
      ensures old(Synced()) ==> Synced()
      ensures var sound := Valid(); sound
    {
      ghost var extra, was := multiset{FREE_MAP}, disk.sectors[..];
      ghost var s := files[f].sector;
      FileIsOpen(freeMap.bits, headers, names, opens, files, extra, f);
      OpenCounts(freeMap.bits, headers, names, opens, files, extra, s);
      LiveMarked(freeMap.bits, headers, names, opens, files, extra, s);
      StoredShape(was, |freeMap.bits|, headers, names);
      var k := Find(files[f].sector);
      n := WriteAt(disk, InodeOf(list[k]), buffer, size, offset, memory);
      WroteExtent(was, disk.sectors[..], InodeOf(opens[s]), offset, offset + n, buffer);
      WriteSpares(was, disk.sectors[..], InodeOf(opens[s]), freeMap.bits, headers, names, opens, files, extra, s);
      StoredSpared(was, disk.sectors[..], |freeMap.bits|, headers, names, Live(names, opens) - {s});
      SyncedSpared(was, Live(names, opens) - {s}, extra);
    }

    /** dir_remove's erasure. */
    method EraseEntry(name: Name, k: nat, e: seq<Byte>, ghost extra: multiset<nat>)
      requires Sound(extra) && ROOT in extra && ROOT in headers && Entered(disk.sectors[..], headers[ROOT], k, e, name)
      modifies disk.sectors
      ensures Stored(disk.sectors[..], |freeMap.bits|, headers, names - {name})
      ensures Spares(old(disk.sectors[..]), disk.sectors[..], headers, Live(names, opens) - {ROOT})
    {
      ghost var was := disk.sectors[..];
      RootReady(extra);
      var j := Find(ROOT);
      assert Look(OfDisk, 0);
      var _ := Erase(disk, InodeOf(list[j]), name, k, e, true);
      WriteSpares(was, disk.sectors[..], InodeOf(opens[ROOT]), freeMap.bits, headers, names, opens, files, extra, ROOT);
      HoldsRemoved(Bytes(was, InodeOf(opens[ROOT])), Bytes(disk.sectors[..], InodeOf(opens[ROOT])), names, name);
    }

    /** Writes that spare the free map's file leave it a free map. */
    lemma SyncedSpared(was: seq<Block>, who: set<nat>, extra: multiset<nat>)
      requires var sound := Sound(extra); sound
      requires Spares(was, disk.sectors[..], headers, who) && FREE_MAP in who
      ensures FREE_MAP in opens && (Filed(was, opens[FREE_MAP].header, freeMap.bits) ==> Synced())
    {
      MapIsReady(extra);
      FiledSpared(was, disk.sectors[..], headers, freeMap.bits, FREE_MAP, who);
    }

    /** inode_remove */
    method RemoveInode(s: nat)
      requires Lists(list, opens) && s in opens && opens[s].sector == s
      modifies `list, `opens
      ensures Lists(list, opens) && opens == old(opens)[s := old(opens)[s].(removed := true)]
    {
      var i := Find(s);
      Put(i, list[i].(removed := true));
    }

    /** dir_remove's erasure, and inode_remove. */
    method EraseName(name: Name, k: nat, e: seq<Byte>, s: nat, ghost extra: multiset<nat>)
      requires Sound(extra) && ROOT in extra && name in names && s == names[name] && s in opens
      requires ROOT in headers && Entered(disk.sectors[..], headers[ROOT], k, e, name)
      modifies `names, `list, `opens, disk.sectors
      ensures names == old(names) - {name} && opens == old(opens)[s := old(opens)[s].(removed := true)]
      ensures Live(names, opens) == Live(old(names), old(opens))
      ensures Spares(old(disk.sectors[..]), disk.sectors[..], headers, Live(old(names), old(opens)) - {ROOT})
      ensures old(Synced()) ==> Synced()
      ensures var sound := Sound(extra); sound
    {
      ghost var was, live := disk.sectors[..], Live(names, opens);
      RemoveOkAll(freeMap.bits, headers, names, opens, files, extra, name);
      OpenCounts(freeMap.bits, headers, names, opens, files, extra, s);
      EraseEntry(name, k, e, extra);
      names := names - {name};
      RemoveInode(s);
      SyncedSpared(was, live - {ROOT}, extra);
    }

    /** dir_remove once the entry is found and its inode is open. */
    method Unlink(name: Name, k: nat, e: seq<Byte>, s: nat, world: World, ghost extra: multiset<nat>)
      requires Sound(extra + multiset{s}) && ROOT in extra && FREE_MAP in extra && name in names
               && s == names[name] && s in opens
      requires ROOT in headers && Entered(disk.sectors[..], headers[ROOT], k, e, name)
      modifies `names, `list, `opens, freeMap, freeMap.words, disk.sectors
      ensures names == old(names) - {name} && s in headers
      ensures Freed(old(freeMap.bits), freeMap.bits, s, headers[s], old(opens)[s].openCnt == 1)
      ensures Live(names, opens) <= Live(old(names), old(opens))
      ensures Spares(old(disk.sectors[..]), disk.sectors[..], headers, Live(old(names), old(opens)) - {FREE_MAP, ROOT})
      ensures old(Synced()) && Writes(freeMap.words.Length, world.bounce(1)) ==> Synced()
      ensures var sound := Sound(extra); sound
    {
      ghost var was, live := disk.sectors[..], Live(names, opens);
      EraseName(name, k, e, s, extra + multiset{s});
      ghost var mid := disk.sectors[..];
      CloseInode(s, world.bounce(0), world.bounce(1), extra + multiset{s});
      assert extra + multiset{s} - multiset{s} == extra;
      SparesBoth(was, mid, disk.sectors[..], headers, live - {ROOT}, live - {FREE_MAP}, live - {FREE_MAP, ROOT});
    }

    /** dir_remove, with the root directory open. */
    method RemoveName(name: Name, world: World) returns (ok: bool)
      requires Sound(multiset{FREE_MAP} + multiset{ROOT})
      modifies `names, `list, `opens, freeMap, freeMap.words, disk.sectors
      ensures ok <==> name in old(names) && (old(names)[name] in old(opens) || world.inode)
      ensures names == if ok then old(names) - {name} else old(names)
      ensures !ok ==> freeMap.bits == old(freeMap.bits)
      ensures ok ==> var s := old(names)[name];
                     s in headers && Freed(old(freeMap.bits), freeMap.bits, s, headers[s], s !in old(opens))
      ensures Live(names, opens) <= Live(old(names), old(opens))
      ensures Spares(old(disk.sectors[..]), disk.sectors[..], headers, Live(old(names), old(opens)) - {FREE_MAP, ROOT})
      ensures old(Synced()) && Writes(freeMap.words.Length, world.bounce(1)) ==> Synced()
      ensures var sound := Sound(multiset{FREE_MAP} + multiset{ROOT}); sound
    {
      ghost var extra := multiset{FREE_MAP} + multiset{ROOT};
      SparesSelf(disk.sectors[..], headers, Live(names, opens) - {FREE_MAP, ROOT});
      var found, e, s := LookupName(name, extra);
      if found.None? { return false; }
      NamedLive(freeMap.bits, headers, names, opens, files, extra, name);
      if s in opens { OpenCounts(freeMap.bits, headers, names, opens, files, extra, s); }
      ok := OpenInode(s, world.inode, extra);
      if ok { Unlink(name, found.value, e, s, world, extra); }
    }

    /** filesys_remove: the sectors are free again at once exactly when no file is open
        on the inode. */
    method RemoveFile(name: Name, world: World) returns (ok: bool)
      requires Valid()
      modifies `names, `list, `opens, freeMap, freeMap.words, disk.sectors
      ensures ok <==> RootOpens(old(opens), world) && name in old(names)
                      && (old(names)[name] in old(opens) || world.inode)
      ensures names == if ok then old(names) - {name} else old(names)
      ensures !ok ==> freeMap.bits == old(freeMap.bits)
      ensures ok ==> var s := old(names)[name];
                     s in headers && Freed(old(freeMap.bits), freeMap.bits, s, headers[s], s !in old(opens))
      ensures Spares(old(disk.sectors[..]), disk.sectors[..], headers, Live(old(names), old(opens)) - {FREE_MAP, ROOT})
      ensures old(Synced()) && Writes(freeMap.words.Length, world.bounce(1)) ==> Synced()
      ensures var sound := Valid(); sound
    {
      NamedNotRoot(freeMap.bits, headers, names, opens, files, multiset{FREE_MAP}, name);
      ok := OpenRoot(world);
      if !ok { return; }
      ok := RemoveName(name, world);
      CloseRoot(multiset{FREE_MAP} + multiset{ROOT});
      assert multiset{FREE_MAP} + multiset{ROOT} - multiset{ROOT} == multiset{FREE_MAP};
    }

    // ----------------------------------------------------------------- creation

    /** free_map_allocate of a sector for a new inode. */
    method TakeHeader(memory: bool, ghost extra: multiset<nat>) returns (s: Option<nat>)
      requires Sound(extra)
      modifies freeMap, freeMap.words, disk.sectors
      ensures s == if Writes(freeMap.words.Length, memory) then FirstRun(old(freeMap.bits), 1, 0) else None
      ensures s.None? ==> freeMap.bits == old(freeMap.bits)
      ensures s.Some? ==> 1 < s.value < |old(freeMap.bits)| && !old(freeMap.bits)[s.value]
                          && freeMap.bits == old(freeMap.bits)[s.value := true]
                          && Unowned(freeMap.bits, headers, names, opens, s.value, Header(0, 0))
      ensures Spares(old(disk.sectors[..]), disk.sectors[..], headers, Live(names, opens) - {FREE_MAP})
      ensures old(Synced()) && Writes(freeMap.words.Length, memory) ==> Synced()
      ensures var sound := Sound(extra); sound
    {
      ghost var was, bits := disk.sectors[..], freeMap.bits;
      MapIsReady(extra);
      s := Allocate(1, memory);
      WriteSpares(was, disk.sectors[..], InodeOf(opens[FREE_MAP]), bits, headers, names, opens, files, extra, FREE_MAP);
      StoredSpared(was, disk.sectors[..], |bits|, headers, names, Live(names, opens) - {FREE_MAP});
      if s.Some? {
        FreshHeader(bits, headers, names, opens, files, extra, s.value);
        assert SetRange(bits, s.value, 1, true) == bits[s.value := true];
      }
    }

    /** inode_create in a sector just taken. */
    method TakeData(s: nat, length: nat, header: bool, memory: bool, ghost extra: multiset<nat>) returns (ok: bool)
      requires Sound(extra) && Unowned(freeMap.bits, headers, names, opens, s, Header(0, 0))
      modifies `headers, freeMap, freeMap.words, disk.sectors
      ensures ok <==> header && Writes(freeMap.words.Length, memory)
                      && FirstRun(old(freeMap.bits), SectorsFor(length), 0).Some?
      ensures ok ==> headers == old(headers)[s := Header(FirstRun(old(freeMap.bits), SectorsFor(length), 0).value,
                                                         length)]
                     && Took(old(freeMap.bits), freeMap.bits, headers[s])
                     && Unowned(freeMap.bits, headers, names, opens, s, headers[s])
                     && Slice(disk.sectors[..], headers[s].start, 0, length) == Zeros(length)
      ensures !ok ==> headers == old(headers) && freeMap.bits == old(freeMap.bits)
      ensures Spares(old(disk.sectors[..]), disk.sectors[..], old(headers), Live(names, opens) - {FREE_MAP})
      ensures old(Synced()) && Writes(freeMap.words.Length, memory) ==> Synced()
      ensures var sound := Sound(extra); sound
    {
      ghost var was, bits, hs := disk.sectors[..], freeMap.bits, headers;
      MapIsReady(extra);
      StoredShape(was, |bits|, headers, names);
      ok := CreateInode(s, length, header, memory);
      NewSpares(was, disk.sectors[..], bits, hs, names, opens, files, extra, if ok then headers[s] else Header(0, 0));
      StoredSpared(was, disk.sectors[..], |bits|, hs, names, Live(names, opens) - {FREE_MAP});
      if ok {
        FreshInode(bits, hs, names, opens, files, extra, s, headers[s]);
        StoredHeader(disk.sectors[..], |bits|, hs, names, s, headers[s]);
      }
    }

    /** dir_add to the root directory: it takes any new name of 1 to 14 bytes as long as
        it has fewer than 16. */
    method AddName(name: Name, s: nat, ghost extra: multiset<nat>) returns (ok: bool)
      requires Sound(extra) && ROOT in extra && NoNul(name) && s in headers
               && Unowned(freeMap.bits, headers, names, opens, s, headers[s])
      modifies `names, disk.sectors
      ensures ok <==> Accepts(old(names), name)
      ensures names == if ok then old(names)[name := s] else old(names)
      ensures Spares(old(disk.sectors[..]), disk.sectors[..], headers, Live(old(names), opens) + {s} - {ROOT})
      ensures var h := headers[s];
              Slice(disk.sectors[..], h.start, 0, h.length) == Slice(old(disk.sectors[..]), h.start, 0, h.length)
      ensures old(Synced()) ==> Synced()
      ensures var sound := Sound(extra); sound
    {
      ghost var was, who := disk.sectors[..], Live(names, opens) + {s} - {ROOT};
      StoredShape(was, |freeMap.bits|, headers, names);
      ok := AddEntry(name, s, extra);
      SliceSpared(was, disk.sectors[..], headers, s, who);
      if ok {
        CreateOkAll(freeMap.bits, headers, names, opens, files, extra, name, s, headers[s]);
        names := names[name := s];
      }
      SyncedSpared(was, who, extra);
    }

    method AddEntry(name: Name, s: nat, ghost extra: multiset<nat>) returns (ok: bool)
      requires Sound(extra) && ROOT in extra && NoNul(name) && s in headers
               && Unowned(freeMap.bits, headers, names, opens, s, headers[s])
      modifies disk.sectors
      ensures ok <==> Accepts(names, name)
      ensures Stored(disk.sectors[..], |freeMap.bits|, headers, if ok then names[name := s] else names)
      ensures Spares(old(disk.sectors[..]), disk.sectors[..], headers, Live(names, opens) + {s} - {ROOT})
    {
      RootReady(extra);
      ghost var was, f := disk.sectors[..], InodeOf(opens[ROOT]);
      RoomExactly(Bytes(was, f), names);
      assert Owns(s, headers[s], s);
      assert Look(OfDisk, 0);
      var k := Find(ROOT);
      ok := Add(disk, InodeOf(list[k]), name, s, _ => true, _ => true, true);
      RootSpares(was, disk.sectors[..], f, freeMap.bits, headers, names, opens, files, extra, s);
      if ok {
        HoldsAdded(Bytes(was, f), Bytes(disk.sectors[..], f), names, name, s);
      } else {
        HoldsSame(Bytes(was, f), Bytes(disk.sectors[..], f), names);
      }
    }

    /** free_map_release of the sector of an inode that was not created. */
    method GiveBack(s: nat, h: Header, memory: bool, ghost extra: multiset<nat>)
      requires Sound(extra) && Unowned(freeMap.bits, headers, names, opens, s, h)
      modifies freeMap, freeMap.words, disk.sectors
      ensures s < |old(freeMap.bits)| && freeMap.bits == old(freeMap.bits)[s := false]
      ensures NobodyHas(headers, names, opens, h)
      ensures Spares(old(disk.sectors[..]), disk.sectors[..], headers, Live(names, opens) - {FREE_MAP})
      ensures Writes(freeMap.words.Length, memory) ==> Synced()
      ensures var sound := Sound(extra); sound
    {
      ghost var was, bits := disk.sectors[..], freeMap.bits;
      MapIsReady(extra);
      FailedCreate(bits, headers, names, opens, files, extra, s, h);
      assert Owns(s, h, s) && FREE_MAP in Live(names, opens);
      Release(s, 1, memory);
      assert SetRange(bits, s, 1, false) == bits[s := false];
      WriteSpares(was, disk.sectors[..], InodeOf(opens[FREE_MAP]), bits, headers, names, opens, files, extra, FREE_MAP);
      StoredSpared(was, disk.sectors[..], |bits|, headers, names, Live(names, opens) - {FREE_MAP});
    }

    /** free_map_allocate for the header and inode_create: sectors for a new inode, or
        nothing taken. */
    method TakeInode(length: nat, world: World, ghost extra: multiset<nat>) returns (s: Option<nat>)
      requires Sound(extra)
      modifies `headers, freeMap, freeMap.words, disk.sectors
      ensures s == if Creates(old(freeMap.bits), freeMap.words.Length, length, world)
                   then Some(NewSector(old(freeMap.bits))) else None
      ensures s.Some? ==> NewInode(old(freeMap.bits), freeMap.bits, old(headers), headers, s.value, length)
                          && Unowned(freeMap.bits, headers, names, opens, s.value, headers[s.value])
                          && Slice(disk.sectors[..], headers[s.value].start, 0, length) == Zeros(length)
      ensures s.None? ==> freeMap.bits == old(freeMap.bits) && headers == old(headers)
      ensures Spares(old(disk.sectors[..]), disk.sectors[..], old(headers), Live(names, opens) - {FREE_MAP})
      ensures old(Synced()) && (forall i :: Writes(freeMap.words.Length, world.bounce(i))) ==> Synced()
      ensures var sound := Sound(extra); sound
    {
      ghost var was, bits, others, hs := disk.sectors[..], freeMap.bits, Live(names, opens) - {FREE_MAP}, headers;
      s := TakeHeader(world.bounce(0), extra);
      if s.None? { return; }
      BackAgain(bits, s.value);
      ghost var mid := disk.sectors[..];
      var ok := TakeData(s.value, length, world.header, world.bounce(1), extra);
      SparesBoth(was, mid, disk.sectors[..], hs, others, others, others);
      if !ok {
        mid := disk.sectors[..];
        GiveBack(s.value, Header(0, 0), world.bounce(2), extra);
        SparesBoth(was, mid, disk.sectors[..], hs, others, others, others);
        s := None;
      }
    }

    /** filesys_create with the root directory open. */
    method CreateIn(name: Name, length: nat, world: World) returns (ok: bool)
      requires Sound(multiset{FREE_MAP} + multiset{ROOT}) && NoNul(name)
      modifies `names, `headers, freeMap, freeMap.words, disk.sectors
      ensures ok <==> Creates(old(freeMap.bits), freeMap.words.Length, length, world) && Accepts(old(names), name)
      ensures var s := NewSector(old(freeMap.bits));
              if ok then
                && names == old(names)[name := s] && s !in Live(old(names), opens)
                && NewInode(old(freeMap.bits), freeMap.bits, old(headers), headers, s, length)
                && Slice(disk.sectors[..], headers[s].start, 0, length) == Zeros(length)
              else
                && names == old(names)
                && if Creates(old(freeMap.bits), freeMap.words.Length, length, world) then
                     && freeMap.bits == MarkAll(old(freeMap.bits), NewHeader(old(freeMap.bits), length))
                     && NobodyHas(headers, names, opens, NewHeader(old(freeMap.bits), length))
                   else
                     freeMap.bits == old(freeMap.bits)
      ensures Spares(old(disk.sectors[..]), disk.sectors[..], old(headers), Live(old(names), opens) - {FREE_MAP, ROOT})
      ensures old(Synced()) && (forall i :: Writes(freeMap.words.Length, world.bounce(i))) ==> Synced()
      ensures var sound := Sound(multiset{FREE_MAP} + multiset{ROOT}); sound
    {
      ghost var extra := multiset{FREE_MAP} + multiset{ROOT};
      ghost var was, bits, live, hs := disk.sectors[..], freeMap.bits, Live(names, opens), headers;
      var s := TakeInode(length, world, extra);
      SparesFewer(was, disk.sectors[..], hs, hs, live - {FREE_MAP}, live - {FREE_MAP, ROOT});
      if s.None? { return false; }
      ok := NameInode(name, s.value, world, extra, was, hs, live);
      if !ok { Refused(bits, s.value, headers[s.value]); }
    }

    /** filesys_create once it has an inode: its name, or its header's sector back. */
    method NameInode(name: Name, s: nat, world: World, ghost extra: multiset<nat>, ghost was: seq<Block>,
                     ghost hs: Headers, ghost live: set<nat>)
      returns (ok: bool)
      requires Sound(extra) && ROOT in extra && NoNul(name) && s in headers
      requires Unowned(freeMap.bits, headers, names, opens, s, headers[s])
      requires headers == hs[s := headers[s]] && live == Live(names, opens) && s !in live && live <= hs.Keys
      requires Spares(was, disk.sectors[..], hs, live - {FREE_MAP, ROOT})
      modifies `names, freeMap, freeMap.words, disk.sectors
      ensures ok <==> Accepts(old(names), name)
      ensures ok ==> var h := headers[s];
                     && names == old(names)[name := s] && freeMap.bits == old(freeMap.bits)
                     && Slice(disk.sectors[..], h.start, 0, h.length) ==
                          Slice(old(disk.sectors[..]), h.start, 0, h.length)
      ensures !ok ==> names == old(names) && s < |old(freeMap.bits)| && freeMap.bits == old(freeMap.bits)[s := false]
                      && NobodyHas(headers, names, opens, headers[s])
      ensures Spares(was, disk.sectors[..], hs, live - {FREE_MAP, ROOT})
      ensures old(Synced()) && Writes(freeMap.words.Length, world.bounce(2)) ==> Synced()
      ensures var sound := Sound(extra); sound
    {
      ghost var mid := disk.sectors[..];
      ok := AddName(name, s, extra);
      AddedSpares(was, mid, disk.sectors[..], hs, headers, s, live);
      if !ok {
        mid := disk.sectors[..];
        GiveBack(s, headers[s], world.bounce(2), extra);
        AddedSpares(was, mid, disk.sectors[..], hs, headers, s, live);
      }
    }

    /** filesys_create.  It succeeds exactly when the root directory opens, there is room
        for the inode, and the directory takes the name.  If only the last fails, the
        inode's data sectors stay marked, and nobody owns them. */
    method CreateFile(name: Name, length: nat, world: World) returns (ok: bool)
      requires Valid() && NoNul(name)
      modifies this, freeMap, freeMap.words, disk.sectors
      ensures ok <==> RootOpens(old(opens), world) && Creates(old(freeMap.bits), freeMap.words.Length, length, world)
                      && Accepts(old(names), name)
      ensures ok ==> var s := NewSector(old(freeMap.bits));
                     && names == old(names)[name := s] && s !in Live(old(names), opens)
                     && NewInode(old(freeMap.bits), freeMap.bits, old(headers), headers, s, length)
                     && Slice(disk.sectors[..], headers[s].start, 0, length) == Zeros(length)
      ensures !ok ==> names == old(names)
      ensures !ok ==> (freeMap.bits != old(freeMap.bits) <==>
                         && RootOpens(old(opens), world)
                         && Creates(old(freeMap.bits), freeMap.words.Length, length, world)
                         && SectorsFor(length) > 0)
      ensures !ok && freeMap.bits != old(freeMap.bits) ==>
                && freeMap.bits == MarkAll(old(freeMap.bits), NewHeader(old(freeMap.bits), length))
                && NobodyHas(headers, names, opens, NewHeader(old(freeMap.bits), length))
      ensures files == old(files) && opens == old(opens)
      ensures Spares(old(disk.sectors[..]), disk.sectors[..], old(headers), Live(old(names), opens) - {FREE_MAP, ROOT})
      ensures old(Synced()) && (forall i :: Writes(freeMap.words.Length, world.bounce(i))) ==> Synced()
      ensures var sound := Valid(); sound
    {
      OpenThenClose(freeMap.bits, headers, names, opens, files, multiset{FREE_MAP}, ROOT);
      LeakCounts(freeMap.bits, length);
      ok := OpenRoot(world);
      if !ok {
        SparesSelf(disk.sectors[..], headers, Live(names, opens) - {FREE_MAP, ROOT});
        return;
      }
      ok := CreateIn(name, length, world);
      CloseRoot(multiset{FREE_MAP} + multiset{ROOT});
      assert multiset{FREE_MAP} + multiset{ROOT} - multiset{ROOT} == multiset{FREE_MAP};
    }
  }

  /** A run of free sectors has been marked. */
  ghost predicate Took(before: seq<bool>, after: seq<bool>, h: Header) {
    AllAre(before, h.start, h.Sectors(), false) && after == SetRange(before, h.start, h.Sectors(), true)
  }

  /** Zeroing sectors that were free does not touch an inode whose sectors were not. */
  lemma ZeroSpares(s: seq<Block>, t: seq<Block>, used: seq<bool>, h: Header, g: Header, bits: seq<bool>)
    requires |t| == |s| == |used| && AllAre(used, h.start, h.Sectors(), false) && Marked(used, FREE_MAP, g)
    requires forall j :: 0 <= j < |s| && !h.Has(j) ==> t[j] == s[j]
    ensures Filed(s, g, bits) ==> Filed(t, g, bits)
  {
    assert Look(OfDisk, 0);
    forall j: nat | g.Has(j) ensures !h.Has(j) && j < |s| { assert Owns(FREE_MAP, g, j); }
    SliceSame(s, t, g);
  }

  /** The sectors of the free map's file. */
  function MapSectors(n: nat): nat {
    SectorsFor(8 * WordsFor(n))
  }

  /** Where do_format puts the free map and the root directory. */
  function Layout(n: nat): Headers {
    map[FREE_MAP := Header(2, 8 * WordsFor(n)), ROOT := Header(2 + MapSectors(n), 20 * ENTRIES)]
  }

  /** The allocations that formatting needs. */
  predicate FormatMemory(words: nat, memory: nat -> bool) {
    && memory(0) && memory(1) && memory(2) && Writes(words, memory(3)) && memory(4) && Writes(words, memory(5))
    && memory(6) && memory(7) && Writes(words, memory(8))
  }

  lemma FormattedOk(used: seq<bool>, headers: Headers, opens: Opens)
    requires |used| >= 2 && MarksUpTo(used, 3 + MapSectors(|used|)) && headers == Layout(|used|)
    requires opens == map[FREE_MAP := Open(FREE_MAP, headers[FREE_MAP], 1, 0, false)]
    ensures Ok(used, headers, map[], opens, map[], multiset{FREE_MAP})
  {
    var names: Names, files: Table := map[], map[];
    assert Live(names, opens) == {FREE_MAP, ROOT};
    assert Openers(files, FREE_MAP) == {} && Deniers(files, FREE_MAP) == {};
    assert OpensOk(opens, headers, names, files, multiset{FREE_MAP});
    TwoRegions(used, headers, headers[FREE_MAP], headers[ROOT], MapSectors(|used|));
  }

  lemma TwoRegions(used: seq<bool>, headers: Headers, g: Header, h: Header, m: nat)
    requires headers == map[FREE_MAP := g, ROOT := h] && MarksUpTo(used, 3 + m)
    requires g.start == 2 && g.Sectors() == m && h.start == 2 + m && h.Sectors() == 1
    ensures RegionsOk(used, headers, {FREE_MAP, ROOT})
  {
    assert Marked(used, FREE_MAP, g) && Marked(used, ROOT, h);
    assert Apart(FREE_MAP, g, ROOT, h);
  }

  /** An inode's sectors, and no others, are free again, or nothing has changed. */
  ghost predicate Freed(before: seq<bool>, after: seq<bool>, s: nat, h: Header, last: bool) {
    |after| == |before| && forall k: nat :: k < |before| ==> after[k] == (before[k] && !(last && Owns(s, h, k)))
  }

  lemma InList(list: seq<Open>, opens: Opens, k: nat)
    requires Lists(list, opens) && k < |list|
    ensures list[k].sector in opens && opens[list[k].sector] == list[k]
  {
    assert Look(OfOpens, 0);
  }

  lemma OpenThenClose(used: seq<bool>, headers: Headers, names: Names, opens: Opens, files: Table,
                      extra: multiset<nat>, s: nat)
    requires Ok(used, headers, names, opens, files, extra) && s in Live(names, opens)
    ensures s in headers && Closed(Opened(opens, headers, s), s) == opens
  {
    assert Look(OfOwners, 0);
    if s in opens { assert OpenOk(opens[s], s, names, files, extra); }
    Reclosed(opens, headers, s);
  }

  lemma Reclosed(opens: Opens, headers: Headers, s: nat)
    requires s in headers && (s in opens ==> opens[s].openCnt > 0)
    ensures Closed(Opened(opens, headers, s), s) == opens
  {
    if s in opens { assert opens[s := opens[s]] == opens; }
  }

  lemma NamedLive(used: seq<bool>, headers: Headers, names: Names, opens: Opens, files: Table,
                  extra: multiset<nat>, name: Name)
    requires Ok(used, headers, names, opens, files, extra) && name in names
    ensures names[name] > 1 && names[name] in Live(names, opens)
  {
    assert Look(OfOwners, 0);
  }

  lemma NamedNotRoot(used: seq<bool>, headers: Headers, names: Names, opens: Opens, files: Table,
                     extra: multiset<nat>, name: Name)
    requires Ok(used, headers, names, opens, files, extra)
    ensures name in names ==> names[name] > 1
  {
    assert Look(OfOwners, 0);
  }

  /** An inode with a name is not removed. */
  lemma NotRemoved(used: seq<bool>, headers: Headers, names: Names, opens: Opens, files: Table,
                   extra: multiset<nat>, name: Name)
    requires Ok(used, headers, names, opens, files, extra) && name in names && names[name] in opens
    ensures !opens[names[name]].removed
  {
    assert Look(OfOwners, 0);
    assert OpenOk(opens[names[name]], names[name], names, files, extra) && names[name] in names.Values;
  }

  /** What an open inode's fields say. */
  lemma OpenCounts(used: seq<bool>, headers: Headers, names: Names, opens: Opens, files: Table,
                   extra: multiset<nat>, s: nat)
    requires Ok(used, headers, names, opens, files, extra) && s in opens
    ensures s in headers && opens[s].header == headers[s] && OpenOk(opens[s], s, names, files, extra)
  {
    assert Look(OfOwners, 0);
  }

  lemma HoldsSame(data: seq<Byte>, d: seq<Byte>, names: Names)
    requires Holds(data, names) && Unique(d) && Entries(d) == Entries(data)
    ensures Holds(d, names)
  {
    forall n ensures Listed(d, n) <==> Listed(data, n) { assert n in Entries(d) <==> n in Entries(data); }
  }

  /** Writing the free map and a new file spares every live inode but the free map's. */
  lemma NewSpares(s: seq<Block>, t: seq<Block>, used: seq<bool>, headers: Headers, names: Names, opens: Opens,
                  files: Table, extra: multiset<nat>, h: Header)
    requires Ok(used, headers, names, opens, files, extra) && AllAre(used, h.start, h.Sectors(), false) && |t| == |s|
    requires forall j: nat :: j < |s| && !h.Has(j) && !headers[FREE_MAP].Has(j) ==> t[j] == s[j]
    ensures Spares(s, t, headers, Live(names, opens) - {FREE_MAP})
  {
    assert Look(OfOwners, 0);
    FreshApart(used, headers, Live(names, opens), h.start, h.Sectors());
    forall u, j: nat | u in Live(names, opens) - {FREE_MAP} && u in headers && headers[u].Has(j) && j < |s|
      ensures t[j] == s[j]
    {
      LiveApart(used, headers, names, opens, files, extra, u, FREE_MAP);
      assert Owns(u, headers[u], j);
    }
  }

  /** Writing the root directory spares every other live inode, and one about to be. */
  lemma RootSpares(s: seq<Block>, t: seq<Block>, f: Inode, used: seq<bool>, headers: Headers, names: Names,
                   opens: Opens,
                   files: Table, extra: multiset<nat>, v: nat)
    requires Ok(used, headers, names, opens, files, extra) && v in headers
             && Unowned(used, headers, names, opens, v, headers[v])
    requires f.start == headers[ROOT].start && f.length == headers[ROOT].length && OnlyExtent(s, t, f)
    ensures Spares(s, t, headers, Live(names, opens) + {v} - {ROOT})
  {
    WriteSpares(s, t, f, used, headers, names, opens, files, extra, ROOT);
    assert Look(OfSpared, 0);
    forall j: nat | headers[v].Has(j) && j < |s|
      ensures t[j] == s[j]
    {
      assert ROOT in Live(names, opens) && Owns(v, headers[v], j);
    }
  }

  /** A new inode in its sector, with the data sectors after the header's. */
  ghost predicate NewInode(before: seq<bool>, after: seq<bool>, headers: Headers, headers': Headers, s: nat,
                           length: nat) {
    && 1 < s < |before| && !before[s] && headers' == headers[s := NewHeader(before, length)]
    && Took(before[s := true], after, NewHeader(before, length))
  }

  lemma BackAgain(used: seq<bool>, s: nat)
    requires s < |used| && !used[s]
    ensures used[s := true][s := false] == used
  {
  }

  /** What is left of a new inode when its header's sector is given back. */
  lemma Refused(used: seq<bool>, s: nat, h: Header)
    requires s < |used| && !used[s] && AllAre(used[s := true], h.start, h.Sectors(), false)
    ensures SetRange(used[s := true], h.start, h.Sectors(), true)[s := false] == MarkAll(used, h)
  {
    assert used[s := true][s];
  }

  /** Marking data sectors changes the free map exactly when there are any. */
  lemma LeakCounts(used: seq<bool>, length: nat)
    ensures FirstRun(used, 1, 0).Some? && NewData(used, length).Some? ==>
              (MarkAll(used, NewHeader(used, length)) != used <==> SectorsFor(length) > 0)
  {
    if FirstRun(used, 1, 0).Some? && NewData(used, length).Some? {
      var s, h := NewSector(used), NewHeader(used, length);
      FirstRunFree(used, 1, 0);
      FirstRunFree(used[s := true], SectorsFor(length), 0);
      if SectorsFor(length) > 0 {
        assert !used[s := true][h.start];
        assert MarkAll(used, h)[h.start];
      }
    }
  }

  lemma AddedSpares(s: seq<Block>, t: seq<Block>, r: seq<Block>, headers: Headers, headers': Headers, v: nat,
                    live: set<nat>)
    requires Spares(s, t, headers, live - {FREE_MAP, ROOT}) && v !in live && live <= headers.Keys
    requires v in headers' && headers' == headers[v := headers'[v]]
    requires Spares(t, r, headers', live + {v} - {ROOT}) || Spares(t, r, headers', live - {FREE_MAP})
    ensures Spares(s, r, headers, live - {FREE_MAP, ROOT})
  {
    assert Look(OfSpared, 0);
    forall u, j: nat | u in live - {FREE_MAP, ROOT} && u in headers && headers[u].Has(j) && j < |s|
      ensures r[j] == s[j]
    {
      assert headers'[u] == headers[u] && headers'[u].Has(j);
    }
  }

  /** The free map of a disk of six sectors after formatting, and what a file of one byte
      would take of it. */
  lemma SixSectors(used: seq<bool>, world: World)
    requires |used| == 6 && MarksUpTo(used, 4) && world.header && world.bounce(0) && world.bounce(1)
    ensures Creates(used, 1, 1, world) && NewHeader(used, 1) == Header(5, 1)
    ensures MarkAll(used, Header(5, 1)) == [true, true, true, true, false, true]
  {
    FirstAfter(used, 4, 1);
    assert used[4 := true] == SetRange(used, 4, 1, true);
    FirstAfter(used[4 := true], 5, 1);
    var r := MarkAll(used, Header(5, 1));
    assert r == [r[0], r[1], r[2], r[3], r[4], r[5]];
  }

  /** A run that loses a sector: a file whose name is too long is not created, its data
      sector stays marked, and no inode has it. */
  method LoseSector() returns (fs: FileSystem)
    ensures fs.Valid() && fs.names == map[] && fs.files == map[]
    ensures fs.freeMap.bits == [true, true, true, true, false, true]
    ensures forall t :: t in Live(fs.names, fs.opens) ==> t in fs.headers && !Owns(t, fs.headers[t], 5)
  {
    var disk := new Disk(6);
    fs := new FileSystem(disk);
    var formatted := fs.Format(_ => true);
    var world := World(true, true, true, true, true, _ => true);
    SixSectors(fs.freeMap.bits, world);
    var name: Name := seq(15, _ => 0x61);
    var ok := fs.CreateFile(name, 1, world);
    assert Header(5, 1).Has(5);
  }
}
