/** Who owns which disk sectors, and what the counts of open inodes mean: the rules that
    filesys/filesys.c, inode.c, file.c and free-map.c keep together.  The sectors of named
    files, of removed files that are still open, of the free map and of the root directory
    are disjoint and marked used. */
module Ownership {
  import opened Wrappers
  import opened Bitmaps
  import opened Sectors
  import opened Directory

  const FREE_MAP: nat := 0         // FREE_MAP_SECTOR
  const ROOT: nat := 1             // ROOT_DIR_SECTOR

  /** What an inode's sector holds: where the data are. */
  datatype Header = Header(start: nat, length: nat) {
    function Sectors(): nat {
      SectorsFor(length)
    }

    predicate Has(k: nat) {
      start <= k < start + Sectors()
    }
  }

  /** A `struct inode`, an element of open_inodes. */
  datatype Open = Open(sector: nat, header: Header, openCnt: nat, denyCnt: nat, removed: bool)

  /** A `struct file`. */
  datatype File = File(sector: nat, deny: bool)

  type Headers = map<nat, Header>
  type Opens = map<nat, Open>
  type Names = map<Name, nat>
  type Table = map<nat, File>

  // -------------------------------------------------------------------- regions

  /** Sector `k` is the header `s` or one of its data sectors. */
  predicate Owns(s: nat, h: Header, k: nat) {
    k == s || h.Has(k)
  }

  ghost predicate Marked(used: seq<bool>, s: nat, h: Header) {
    h.start + h.Sectors() <= |used| && forall k: nat :: Owns(s, h, k) ==> k < |used| && used[k]
  }

  ghost predicate Apart(s: nat, h: Header, t: nat, g: Header) {
    forall k: nat :: !(Owns(s, h, k) && Owns(t, g, k))
  }

  /** The live inodes have headers, all their sectors are marked, and no sector is
      shared between two or used twice by one. */
  ghost predicate RegionsOk(used: seq<bool>, headers: Headers, live: set<nat>) {
    && (forall s :: s in live ==> s in headers && Marked(used, s, headers[s]) && !headers[s].Has(s))
    && (forall s, t :: s in live && t in live && s != t ==> Apart(s, headers[s], t, headers[t]))
  }

  // -------------------------------------------------------------------- openers

  function Openers(files: Table, s: nat): set<nat> {
    set f | f in files && files[f].sector == s
  }

  function Deniers(files: Table, s: nat): set<nat> {
    set f | f in files && files[f].sector == s && files[f].deny
  }

  /** An open inode's counts match the files, plus the openers that are no files (`extra`):
      free_map_file, and the root directory or an inode that an operation has open. */
  predicate OpenOk(o: Open, s: nat, names: Names, files: Table, extra: multiset<nat>) {
    && o.sector == s && o.openCnt == |Openers(files, s)| + extra[s] && o.openCnt > 0
    && o.denyCnt == |Deniers(files, s)|
    && (o.removed <==> s > 1 && s !in names.Values)
  }

  ghost predicate EachOk(opens: Opens, headers: Headers, names: Names, files: Table, extra: multiset<nat>) {
    forall s :: s in opens ==>
      s in headers && opens[s].header == headers[s] && OpenOk(opens[s], s, names, files, extra)
  }

  ghost predicate FilesOpen(opens: Opens, files: Table) {
    forall f :: f in files ==> files[f].sector in opens && files[f].sector > 1
  }

  ghost predicate OpensOk(opens: Opens, headers: Headers, names: Names, files: Table, extra: multiset<nat>) {
    EachOk(opens, headers, names, files, extra) && FilesOpen(opens, files) && forall s :: s in extra ==> s in opens
  }

  ghost predicate NamesOk(names: Names) {
    && (forall a, b :: a in names && b in names && names[a] == names[b] ==> a == b)
    && (forall a :: a in names ==> names[a] > 1)
  }

  /** The inodes whose sectors are spoken for. */
  function Live(names: Names, opens: Opens): set<nat> {
    {FREE_MAP, ROOT} + names.Values + opens.Keys
  }

  ghost predicate Ok(used: seq<bool>, headers: Headers, names: Names, opens: Opens, files: Table,
                     extra: multiset<nat>) {
    && Live(names, opens) <= headers.Keys
    && forall z: nat {:trigger Look(OfOwners, z)} :: Look(OfOwners, z) ==>
         NamesOk(names) && RegionsOk(used, headers, Live(names, opens)) && OpensOk(opens, headers, names, files, extra)
  }

  lemma Parts(used: seq<bool>, headers: Headers, names: Names, opens: Opens, files: Table, extra: multiset<nat>)
    requires Ok(used, headers, names, opens, files, extra)
    ensures var ok := NamesOk(names) && RegionsOk(used, headers, Live(names, opens))
                      && OpensOk(opens, headers, names, files, extra); ok
  {
    assert Look(OfOwners, 0);
  }

  lemma Together(used: seq<bool>, headers: Headers, names: Names, opens: Opens, files: Table, extra: multiset<nat>)
    requires Live(names, opens) <= headers.Keys
    requires var ok := NamesOk(names) && RegionsOk(used, headers, Live(names, opens))
                       && OpensOk(opens, headers, names, files, extra); ok
    ensures Ok(used, headers, names, opens, files, extra)
  {
  }

  // ------------------------------------------------------- sectors come and go

  /** Fresh sectors belong to nobody. */
  lemma FreshApart(used: seq<bool>, headers: Headers, live: set<nat>, start: nat, n: nat)
    requires RegionsOk(used, headers, live) && AllAre(used, start, n, false)
    ensures forall t, k: nat :: t in live && start <= k < start + n ==> !Owns(t, headers[t], k)
  {
    forall t, k: nat | t in live && start <= k < start + n
      ensures !Owns(t, headers[t], k)
    {
      assert Marked(used, t, headers[t]);
    }
  }

  /** Marking sectors takes none away. */
  lemma MarkMore(used: seq<bool>, headers: Headers, live: set<nat>, start: nat, n: nat)
    requires RegionsOk(used, headers, live) && start + n <= |used|
    ensures RegionsOk(SetRange(used, start, n, true), headers, live)
  {
    forall s | s in live
      ensures Marked(SetRange(used, start, n, true), s, headers[s])
    {
      assert Marked(used, s, headers[s]);
    }
  }

  /** A new inode in fresh sectors. */
  lemma Claim(used: seq<bool>, headers: Headers, live: set<nat>, s: nat, h: Header)
    requires RegionsOk(used, headers, live) && s !in live && Marked(used, s, h) && !h.Has(s)
    requires forall t, k: nat :: t in live && Owns(s, h, k) ==> !Owns(t, headers[t], k)
    ensures RegionsOk(used, headers[s := h], live + {s})
  {
    var headers' := headers[s := h];
    forall t, u | t in live + {s} && u in live + {s} && t != u
      ensures Apart(t, headers'[t], u, headers'[u])
    {
      if t != s && u != s { assert Apart(t, headers[t], u, headers[u]); }
    }
  }

  /** Releasing an inode's sectors leaves the others'. */
  lemma Unclaim(used: seq<bool>, used': seq<bool>, headers: Headers, live: set<nat>, s: nat)
    requires s in live && |used'| == |used| && s in headers
    requires var ok := RegionsOk(used, headers, live); ok
    requires forall k: nat :: k < |used| ==> used'[k] == (used[k] && !Owns(s, headers[s], k))
    ensures var ok := RegionsOk(used', headers, live - {s}); ok
  {
    forall t | t in live - {s}
      ensures Marked(used', t, headers[t])
    {
      assert Apart(s, headers[s], t, headers[t]) && Marked(used, t, headers[t]);
    }
  }

  lemma Fewer(used: seq<bool>, headers: Headers, live: set<nat>, live': set<nat>)
    requires live' <= live
    requires var ok := RegionsOk(used, headers, live); ok
    ensures var ok := RegionsOk(used, headers, live'); ok
  {
  }

  // ---------------------------------------------------------------- openers change

  /** inode_open, or inode_reopen by its first half. */
  function Opened(opens: Opens, headers: Headers, s: nat): Opens
    requires s in headers
  {
    if s in opens then opens[s := opens[s].(openCnt := opens[s].openCnt + 1)]
    else opens[s := Open(s, headers[s], 1, 0, false)]
  }

  lemma OpenKeeps(opens: Opens, headers: Headers, names: Names, files: Table, extra: multiset<nat>, s: nat)
    requires s in headers && (s in opens || s <= 1 || s in names.Values)
    requires var ok := OpensOk(opens, headers, names, files, extra); ok
    ensures var ok := OpensOk(Opened(opens, headers, s), headers, names, files, extra + multiset{s}); ok
  {
    var opens', extra' := Opened(opens, headers, s), extra + multiset{s};
    assert var each := EachOk(opens', headers, names, files, extra'); each by {
      if s !in opens { NobodyOn(opens, files, s); }
      forall t | t in opens'
        ensures t in headers && opens'[t].header == headers[t] && OpenOk(opens'[t], t, names, files, extra')
      {
        OpenOne(opens, headers, names, files, extra, s, t);
      }
    }
    assert var open := FilesOpen(opens', files); open;
  }

  lemma NobodyOn(opens: Opens, files: Table, s: nat)
    requires FilesOpen(opens, files) && s !in opens
    ensures Openers(files, s) == {} && Deniers(files, s) == {}
  {
  }

  lemma OpenOne(opens: Opens, headers: Headers, names: Names, files: Table, extra: multiset<nat>, s: nat, t: nat)
    requires s in headers && t in Opened(opens, headers, s)
    requires if t in opens then OpenOk(opens[t], t, names, files, extra)
             else Openers(files, s) == {} && Deniers(files, s) == {} && s !in extra && (s <= 1 || s in names.Values)
    ensures OpenOk(Opened(opens, headers, s)[t], t, names, files, extra + multiset{s})
  {
  }

  /** file_open takes over the inode it is given. */
  lemma AdoptKeeps(opens: Opens, headers: Headers, names: Names, files: Table, extra: multiset<nat>, s: nat, id: nat)
    requires OpensOk(opens, headers, names, files, extra) && s in extra && s > 1 && id !in files
    ensures OpensOk(opens, headers, names, files[id := File(s, false)], extra - multiset{s})
  {
    var files' := files[id := File(s, false)];
    forall t | t in opens
      ensures OpenOk(opens[t], t, names, files', extra - multiset{s})
    {
      assert OpenOk(opens[t], t, names, files, extra);
      AdoptCount(files, s, id, t);
    }
  }

  lemma AdoptCount(files: Table, s: nat, id: nat, t: nat)
    requires id !in files
    ensures |Openers(files[id := File(s, false)], t)| == |Openers(files, t)| + if t == s then 1 else 0
    ensures Deniers(files[id := File(s, false)], t) == Deniers(files, t)
  {
    var files' := files[id := File(s, false)];
    if t == s {
      assert Openers(files', t) == Openers(files, t) + {id};
    } else {
      assert Openers(files', t) == Openers(files, t);
    }
  }

  /** file_close gives up the file; its inode is still to be closed. */
  lemma DisownKeeps(opens: Opens, headers: Headers, names: Names, files: Table, extra: multiset<nat>, id: nat)
    requires OpensOk(opens, headers, names, files, extra) && id in files && !files[id].deny
    ensures OpensOk(opens, headers, names, files - {id}, extra + multiset{files[id].sector})
  {
    var files', s := files - {id}, files[id].sector;
    forall t | t in opens
      ensures OpenOk(opens[t], t, names, files', extra + multiset{s})
    {
      assert OpenOk(opens[t], t, names, files, extra);
      DisownCount(files, id, t);
    }
  }

  lemma DisownCount(files: Table, id: nat, t: nat)
    requires id in files && !files[id].deny
    ensures |Openers(files - {id}, t)| == |Openers(files, t)| - if t == files[id].sector then 1 else 0
    ensures Deniers(files - {id}, t) == Deniers(files, t)
  {
    if t == files[id].sector {
      assert id in Openers(files, t);
      assert Openers(files - {id}, t) == Openers(files, t) - {id};
    } else {
      assert Openers(files - {id}, t) == Openers(files, t);
    }
  }

  /** inode_close. */
  function Closed(opens: Opens, s: nat): Opens
    requires s in opens
  {
    if opens[s].openCnt <= 1 then opens - {s} else opens[s := opens[s].(openCnt := opens[s].openCnt - 1)]
  }

  lemma CloseKeeps(opens: Opens, headers: Headers, names: Names, files: Table, extra: multiset<nat>, s: nat)
    requires s in extra
    requires var ok := OpensOk(opens, headers, names, files, extra); ok
    ensures var ok := s in opens && OpensOk(Closed(opens, s), headers, names, files, extra - multiset{s}); ok
  {
    CloseEach(opens, headers, names, files, extra, s);
    CloseFiles(opens, headers, names, files, extra, s);
    forall t | t in extra - multiset{s}
      ensures t in Closed(opens, s)
    {
      CloseExtra(opens, names, files, extra, s, t);
    }
  }

  lemma CloseEach(opens: Opens, headers: Headers, names: Names, files: Table, extra: multiset<nat>, s: nat)
    requires s in extra && s in opens
    requires var each := EachOk(opens, headers, names, files, extra); each
    ensures var each := EachOk(Closed(opens, s), headers, names, files, extra - multiset{s}); each
  {
    forall t | t in Closed(opens, s)
      ensures t in headers && Closed(opens, s)[t].header == headers[t]
              && OpenOk(Closed(opens, s)[t], t, names, files, extra - multiset{s})
    {
      CloseOpen(opens, names, files, extra, s, t);
    }
  }

  lemma CloseFiles(opens: Opens, headers: Headers, names: Names, files: Table, extra: multiset<nat>, s: nat)
    requires s in extra && s in opens
    requires var each := EachOk(opens, headers, names, files, extra) && FilesOpen(opens, files); each
    ensures var open := FilesOpen(Closed(opens, s), files); open
  {
    forall f | f in files
      ensures files[f].sector in Closed(opens, s) && files[f].sector > 1
    {
      CloseFile(opens, names, files, extra, s, f);
    }
  }

  lemma CloseOpen(opens: Opens, names: Names, files: Table, extra: multiset<nat>, s: nat, t: nat)
    requires s in opens && s in extra && t in Closed(opens, s) && OpenOk(opens[t], t, names, files, extra)
    ensures OpenOk(Closed(opens, s)[t], t, names, files, extra - multiset{s})
  {
  }

  lemma CloseFile(opens: Opens, names: Names, files: Table, extra: multiset<nat>, s: nat, f: nat)
    requires s in opens && s in extra && OpenOk(opens[s], s, names, files, extra)
    requires f in files && files[f].sector in opens
    ensures files[f].sector in Closed(opens, s)
  {
    assert files[f].sector == s ==> f in Openers(files, s);
  }

  lemma CloseExtra(opens: Opens, names: Names, files: Table, extra: multiset<nat>, s: nat, t: nat)
    requires s in opens && OpenOk(opens[s], s, names, files, extra) && t in extra - multiset{s} && t in opens
    ensures t in Closed(opens, s)
  {
  }

  /** A number of deniers with one more, or one less. */
  function Recount(n: nat, deny: bool): nat {
    if deny then n + 1 else if n > 0 then n - 1 else 0
  }

  /** An open inode with another number of deniers. */
  function Denied(opens: Opens, s: nat, deny: bool): Opens
    requires s in opens
  {
    opens[s := opens[s].(denyCnt := Recount(opens[s].denyCnt, deny))]
  }

  /** file_deny_write and file_allow_write. */
  lemma DenyKeeps(opens: Opens, headers: Headers, names: Names, files: Table, extra: multiset<nat>, id: nat, deny: bool)
    requires id in files && files[id].deny != deny
    requires var ok := OpensOk(opens, headers, names, files, extra); ok
    ensures var s := files[id].sector;
            && s in opens && (deny ==> opens[s].denyCnt < opens[s].openCnt)
            && (!deny ==> 0 < opens[s].denyCnt <= opens[s].openCnt)
            && var ok := OpensOk(Denied(opens, s, deny), headers, names, files[id := File(s, deny)], extra); ok
  {
    var s := files[id].sector;
    var files', opens' := files[id := File(s, deny)], Denied(opens, s, deny);
    assert OpenOk(opens[s], s, names, files, extra);
    DenyCount(files, id, deny);
    assert var each := EachOk(opens', headers, names, files', extra); each by {
      forall t | t in opens'
        ensures t in headers && opens'[t].header == headers[t] && OpenOk(opens'[t], t, names, files', extra)
      {
        assert OpenOk(opens[t], t, names, files, extra);
        DenyOpen(opens[t], names, files, extra, id, deny, t);
      }
    }
    assert var open := FilesOpen(opens', files'); open;
  }

  lemma DenyOpen(o: Open, names: Names, files: Table, extra: multiset<nat>, id: nat, deny: bool, t: nat)
    requires OpenOk(o, t, names, files, extra) && id in files && files[id].deny != deny
    ensures var s := files[id].sector;
            var o' := if t != s then o else o.(denyCnt := Recount(o.denyCnt, deny));
            OpenOk(o', t, names, files[id := File(s, deny)], extra)
  {
    DenyCount(files, id, deny);
    DenyOthers(files, id, deny, t);
  }

  lemma DenyOthers(files: Table, id: nat, deny: bool, t: nat)
    requires id in files
    ensures Openers(files[id := File(files[id].sector, deny)], t) == Openers(files, t)
    ensures t != files[id].sector ==> Deniers(files[id := File(files[id].sector, deny)], t) == Deniers(files, t)
  {
  }

  lemma DenyCount(files: Table, id: nat, deny: bool)
    requires id in files && files[id].deny != deny
    ensures var s := files[id].sector;
            && (deny ==> |Deniers(files, s)| < |Openers(files, s)|)
            && (!deny ==> 0 < |Deniers(files, s)| <= |Openers(files, s)|)
            && |Deniers(files[id := File(s, deny)], s)| == |Deniers(files, s)| + if deny then 1 else -1
  {
    var s := files[id].sector;
    var files' := files[id := File(s, deny)];
    if deny {
      assert Deniers(files', s) == Deniers(files, s) + {id};
      Smaller(Deniers(files, s), Openers(files, s), id);
    } else {
      assert Deniers(files', s) == Deniers(files, s) - {id};
      assert id in Deniers(files, s);
      AtMost(Deniers(files, s), Openers(files, s));
    }
  }

  lemma Smaller<X>(a: set<X>, b: set<X>, x: X)
    requires a <= b && x in b && x !in a
    ensures |a| < |b|
  {
    assert |b - a| > 0 by { assert x in b - a; }
    assert b == a + (b - a);
  }

  lemma AtMost<X>(a: set<X>, b: set<X>)
    requires a <= b
    ensures |a| <= |b|
  {
    assert b == a + (b - a);
  }

  /** dir_remove's inode_remove: the name goes and the inode, which is open, is
      marked. */
  lemma RemoveKeeps(opens: Opens, headers: Headers, names: Names, files: Table, extra: multiset<nat>, name: Name)
    requires name in names && names[name] in opens
    requires var ok := OpensOk(opens, headers, names, files, extra) && NamesOk(names); ok
    ensures var opens' := opens[names[name] := opens[names[name]].(removed := true)];
            var ok := OpensOk(opens', headers, names - {name}, files, extra); ok
  {
    var s, names' := names[name], names - {name};
    var opens' := opens[s := opens[s].(removed := true)];
    assert s !in names'.Values;
    forall t | t in opens'
      ensures OpenOk(opens'[t], t, names', files, extra)
    {
      assert OpenOk(opens[t], t, names, files, extra);
      if t != s {
        if t in names.Values {
          var n :| n in names && names[n] == t;
          assert n in names' && names'[n] == t;
        }
      }
    }
  }

  /** filesys_create's dir_add. */
  lemma AddKeeps(opens: Opens, headers: Headers, names: Names, files: Table, extra: multiset<nat>, name: Name, s: nat)
    requires OpensOk(opens, headers, names, files, extra) && NamesOk(names) && name !in names
    requires s !in opens && s !in names.Values && s > 1
    ensures OpensOk(opens, headers, names[name := s], files, extra) && NamesOk(names[name := s])
    ensures names[name := s].Values == names.Values + {s}
  {
    var names' := names[name := s];
    assert names'[name] == s;
    forall n | n in names ensures names'[n] == names[n] && n in names' {}
    forall t | t in opens
      ensures OpenOk(opens[t], t, names', files, extra)
    {
      assert OpenOk(opens[t], t, names, files, extra);
      if t in names.Values {
        var n :| n in names && names[n] == t;
        assert n in names' && names'[n] == t;
      }
    }
  }

  // ---------------------------------------------------------- whole operations

  lemma LiveOpened(names: Names, opens: Opens, headers: Headers, s: nat)
    requires s in headers && s in Live(names, opens)
    ensures Live(names, Opened(opens, headers, s)) == Live(names, opens)
  {
  }

  lemma LiveClosed(names: Names, opens: Opens, s: nat)
    requires s in opens && opens[s].openCnt == 1 && s > 1 && s !in names.Values
    ensures Live(names, Closed(opens, s)) == Live(names, opens) - {s}
  {
  }

  /** The root directory is live, open or not. */
  lemma RootStays(names: Names, opens: Opens)
    ensures ROOT in opens ==> Live(names, Closed(opens, ROOT)) == Live(names, opens)
  {
  }

  /** inode_open of a live inode. */
  lemma OpenOkAll(used: seq<bool>, headers: Headers, names: Names, opens: Opens, files: Table,
                  extra: multiset<nat>, s: nat)
    requires Ok(used, headers, names, opens, files, extra) && s in Live(names, opens)
    ensures s in headers && Ok(used, headers, names, Opened(opens, headers, s), files, extra + multiset{s})
    ensures Live(names, Opened(opens, headers, s)) == Live(names, opens)
  {
    LiveOpened(names, opens, headers, s);
    Parts(used, headers, names, opens, files, extra);
    OpenKeeps(opens, headers, names, files, extra, s);
    Together(used, headers, names, Opened(opens, headers, s), files, extra + multiset{s});
  }

  /** inode_close that is not the last, or of an inode that was not removed. */
  lemma CloseOkAll(used: seq<bool>, headers: Headers, names: Names, opens: Opens, files: Table,
                   extra: multiset<nat>, s: nat)
    requires Ok(used, headers, names, opens, files, extra) && s in extra
    ensures s in opens && Ok(used, headers, names, Closed(opens, s), files, extra - multiset{s})
    ensures Live(names, Closed(opens, s)) <= Live(names, opens)
  {
    Parts(used, headers, names, opens, files, extra);
    CloseKeeps(opens, headers, names, files, extra, s);
    Fewer(used, headers, Live(names, opens), Live(names, Closed(opens, s)));
    Together(used, headers, names, Closed(opens, s), files, extra - multiset{s});
  }

  /** The last inode_close of a removed inode releases its sectors, which nobody
      else has. */
  lemma LastClose(used: seq<bool>, used': seq<bool>, headers: Headers, names: Names, opens: Opens, files: Table,
                  extra: multiset<nat>, s: nat)
    requires Ok(used, headers, names, opens, files, extra) && s in extra && |used'| == |used|
    requires s in opens && opens[s].openCnt == 1 && opens[s].removed && s in headers
    requires forall k: nat :: k < |used| ==> used'[k] == (used[k] && !Owns(s, headers[s], k))
    ensures s !in Live(names, Closed(opens, s))
            && Ok(used', headers, names, Closed(opens, s), files, extra - multiset{s})
  {
    Parts(used, headers, names, opens, files, extra);
    assert OpenOk(opens[s], s, names, files, extra);
    CloseKeeps(opens, headers, names, files, extra, s);
    Unclaim(used, used', headers, Live(names, opens), s);
    LiveClosed(names, opens, s);
    Together(used', headers, names, Closed(opens, s), files, extra - multiset{s});
  }

  lemma FileIsOpen(used: seq<bool>, headers: Headers, names: Names, opens: Opens, files: Table,
                   extra: multiset<nat>, f: nat)
    requires Ok(used, headers, names, opens, files, extra) && f in files
    ensures files[f].sector in opens && files[f].sector > 1
  {
    assert Look(OfOwners, 0);
  }

  /** An opener has its inode open; an inode that no file can be on has no deniers. */
  lemma ExtraIsOpen(used: seq<bool>, headers: Headers, names: Names, opens: Opens, files: Table,
                    extra: multiset<nat>, s: nat)
    requires Ok(used, headers, names, opens, files, extra) && s in extra
    ensures s in opens && s in headers && opens[s].sector == s && opens[s].header == headers[s]
    ensures opens[s].openCnt >= extra[s] && (s <= 1 ==> opens[s].denyCnt == 0 && !opens[s].removed)
  {
    assert Look(OfOwners, 0);
    assert OpenOk(opens[s], s, names, files, extra);
    if s <= 1 { assert Deniers(files, s) == {}; }
  }

  /** A live inode's sectors are marked, and its header is not among its data. */
  lemma LiveMarked(used: seq<bool>, headers: Headers, names: Names, opens: Opens, files: Table,
                   extra: multiset<nat>, s: nat)
    requires Ok(used, headers, names, opens, files, extra) && s in Live(names, opens)
    ensures s in headers && Marked(used, s, headers[s]) && !headers[s].Has(s)
  {
    assert Look(OfOwners, 0);
  }

  lemma LiveApart(used: seq<bool>, headers: Headers, names: Names, opens: Opens, files: Table,
                  extra: multiset<nat>, s: nat, t: nat)
    requires Ok(used, headers, names, opens, files, extra) && s in Live(names, opens) && t in Live(names, opens)
             && s != t
    ensures Apart(s, headers[s], t, headers[t])
  {
    assert Look(OfOwners, 0);
  }

  /** dir_remove's erasure and inode_remove. */
  lemma RemoveOkAll(used: seq<bool>, headers: Headers, names: Names, opens: Opens, files: Table,
                    extra: multiset<nat>, name: Name)
    requires Ok(used, headers, names, opens, files, extra) && name in names && names[name] in opens
    ensures var opens' := opens[names[name] := opens[names[name]].(removed := true)];
            Ok(used, headers, names - {name}, opens', files, extra)
              && Live(names - {name}, opens') == Live(names, opens)
  {
    Parts(used, headers, names, opens, files, extra);
    var s, names' := names[name], names - {name};
    var opens' := opens[s := opens[s].(removed := true)];
    RemoveKeeps(opens, headers, names, files, extra, name);
    RemovedValues(names, name);
    assert opens'.Keys == opens.Keys;
    assert Live(names', opens') == Live(names, opens);
    Together(used, headers, names', opens', files, extra);
  }

  lemma RemovedValues(names: Names, name: Name)
    requires name in names
    ensures (names - {name}).Values <= names.Values <= (names - {name}).Values + {names[name]}
    ensures NamesOk(names) ==> NamesOk(names - {name})
  {
    forall t | t in (names - {name}).Values
      ensures t in names.Values
    {
      var n :| n in names - {name} && (names - {name})[n] == t;
      assert names[n] == t;
    }
    forall t | t in names.Values && t != names[name]
      ensures t in (names - {name}).Values
    {
      var n :| n in names && names[n] == t;
      assert (names - {name})[n] == t;
    }
  }

  /** The files' numbers are all below the next one. */
  ghost predicate Numbered(files: Table, next: nat) {
    forall f :: f in files ==> f < next
  }

  lemma AdoptOkAll(used: seq<bool>, headers: Headers, names: Names, opens: Opens, files: Table,
                   extra: multiset<nat>, s: nat, id: nat)
    requires Ok(used, headers, names, opens, files, extra) && s in extra && s > 1 && Numbered(files, id)
    ensures id !in files && Numbered(files[id := File(s, false)], id + 1)
    ensures Ok(used, headers, names, opens, files[id := File(s, false)], extra - multiset{s})
  {
    assert Look(OfOwners, 0);
    AdoptKeeps(opens, headers, names, files, extra, s, id);
  }

  lemma DisownOkAll(used: seq<bool>, headers: Headers, names: Names, opens: Opens, files: Table, extra: multiset<nat>,
                    id: nat, next: nat)
    requires Ok(used, headers, names, opens, files, extra) && id in files && !files[id].deny && Numbered(files, next)
    ensures Ok(used, headers, names, opens, files - {id}, extra + multiset{files[id].sector})
            && Numbered(files - {id}, next)
  {
    assert Look(OfOwners, 0);
    DisownKeeps(opens, headers, names, files, extra, id);
  }

  lemma DenyOkAll(used: seq<bool>, headers: Headers, names: Names, opens: Opens, files: Table, extra: multiset<nat>,
                  id: nat, deny: bool, next: nat)
    requires Ok(used, headers, names, opens, files, extra) && id in files && files[id].deny != deny
             && Numbered(files, next)
    ensures var s := files[id].sector;
            && s in opens && (deny ==> opens[s].denyCnt < opens[s].openCnt)
            && (!deny ==> 0 < opens[s].denyCnt <= opens[s].openCnt)
            && Ok(used, headers, names, Denied(opens, s, deny), files[id := File(s, deny)], extra)
            && Live(names, Denied(opens, s, deny)) == Live(names, opens)
    ensures Numbered(files[id := File(files[id].sector, deny)], next)
  {
    Parts(used, headers, names, opens, files, extra);
    var s := files[id].sector;
    DenyKeeps(opens, headers, names, files, extra, id, deny);
    assert Denied(opens, s, deny).Keys == opens.Keys;
    Together(used, headers, names, Denied(opens, s, deny), files[id := File(s, deny)], extra);
  }

  // ------------------------------------------------------------------- creation

  /** Sectors taken and owned by nobody hurt nobody. */
  lemma LeakOk(used: seq<bool>, headers: Headers, names: Names, opens: Opens, files: Table, extra: multiset<nat>,
               start: nat, n: nat)
    requires Ok(used, headers, names, opens, files, extra) && start + n <= |used|
    ensures Ok(SetRange(used, start, n, true), headers, names, opens, files, extra)
  {
    assert Look(OfOwners, 0);
    MarkMore(used, headers, Live(names, opens), start, n);
  }

  lemma HeaderRegions(used: seq<bool>, headers: Headers, live: set<nat>, s: nat, h: Header)
    requires RegionsOk(used, headers, live) && s !in live
    ensures RegionsOk(used, headers[s := h], live)
  {
    var headers' := headers[s := h];
    forall t, u | t in live && u in live && t != u
      ensures Apart(t, headers'[t], u, headers'[u])
    {
      assert Apart(t, headers[t], u, headers[u]);
    }
  }

  lemma HeaderOpens(opens: Opens, headers: Headers, names: Names, files: Table, extra: multiset<nat>, s: nat, h: Header)
    requires OpensOk(opens, headers, names, files, extra) && s !in opens
    ensures OpensOk(opens, headers[s := h], names, files, extra)
  {
  }

  /** A header written to a sector nobody has. */
  lemma HeaderOk(used: seq<bool>, headers: Headers, names: Names, opens: Opens, files: Table, extra: multiset<nat>,
                 s: nat, h: Header)
    requires Ok(used, headers, names, opens, files, extra) && s !in Live(names, opens)
    ensures Ok(used, headers[s := h], names, opens, files, extra)
  {
    assert Look(OfOwners, 0);
    HeaderRegions(used, headers, Live(names, opens), s, h);
    HeaderOpens(opens, headers, names, files, extra, s, h);
  }

  /** Sectors marked for an inode that nobody knows yet. */
  ghost predicate Unowned(used: seq<bool>, headers: Headers, names: Names, opens: Opens, s: nat, h: Header) {
    && Live(names, opens) <= headers.Keys && s !in Live(names, opens) && Marked(used, s, h) && !h.Has(s)
    && forall t, k: nat :: t in Live(names, opens) && Owns(s, h, k) ==> !Owns(t, headers[t], k)
  }

  /** A header sector just taken is nobody's. */
  lemma FreshHeader(used: seq<bool>, headers: Headers, names: Names, opens: Opens, files: Table,
                    extra: multiset<nat>, s: nat)
    requires Ok(used, headers, names, opens, files, extra) && AllAre(used, s, 1, false)
    ensures s > 1 && Unowned(SetRange(used, s, 1, true), headers, names, opens, s, Header(0, 0))
    ensures Ok(SetRange(used, s, 1, true), headers, names, opens, files, extra)
  {
    assert Look(OfOwners, 0);
    LeakOk(used, headers, names, opens, files, extra, s, 1);
    FreshApart(used, headers, Live(names, opens), s, 1);
    if s in Live(names, opens) { assert Owns(s, headers[s], s); }
  }

  /** Nor are data sectors just taken after it. */
  lemma FreshInode(used: seq<bool>, headers: Headers, names: Names, opens: Opens, files: Table,
                   extra: multiset<nat>, s: nat, h: Header)
    requires Ok(used, headers, names, opens, files, extra) && AllAre(used, h.start, h.Sectors(), false)
    requires Unowned(used, headers, names, opens, s, Header(0, 0))
    ensures var used' := SetRange(used, h.start, h.Sectors(), true);
            Ok(used', headers[s := h], names, opens, files, extra)
              && Unowned(used', headers[s := h], names, opens, s, h)
  {
    assert Look(OfOwners, 0);
    var used' := SetRange(used, h.start, h.Sectors(), true);
    LeakOk(used, headers, names, opens, files, extra, h.start, h.Sectors());
    HeaderOk(used', headers, names, opens, files, extra, s, h);
    FreshApart(used, headers, Live(names, opens), h.start, h.Sectors());
    assert Owns(s, Header(0, 0), s);
  }

  /** A successful creation. */
  lemma CreateOkAll(used: seq<bool>, headers: Headers, names: Names, opens: Opens, files: Table, extra: multiset<nat>,
                    name: Name, s: nat, h: Header)
    requires Ok(used, headers, names, opens, files, extra) && name !in names
             && Unowned(used, headers, names, opens, s, h)
    requires s in headers && headers[s] == h
    ensures Ok(used, headers, names[name := s], opens, files, extra)
            && Live(names[name := s], opens) == Live(names, opens) + {s}
  {
    assert Look(OfOwners, 0);
    assert headers[s := h] == headers;
    Claim(used, headers, Live(names, opens), s, h);
    AddKeeps(opens, headers, names, files, extra, name, s);
    assert Live(names[name := s], opens) == Live(names, opens) + {s};
  }

  /** Giving back a header's sector. */
  lemma FailedCreate(used: seq<bool>, headers: Headers, names: Names, opens: Opens, files: Table,
                     extra: multiset<nat>, s: nat, h: Header)
    requires Ok(used, headers, names, opens, files, extra) && Unowned(used, headers, names, opens, s, h)
    ensures s < |used| && Ok(SetRange(used, s, 1, false), headers, names, opens, files, extra)
    ensures forall t, k: nat :: t in Live(names, opens) && h.Has(k) ==> !Owns(t, headers[t], k)
  {
    assert Look(OfOwners, 0);
    assert Owns(s, h, s);
    forall t, k: nat | t in Live(names, opens) && h.Has(k)
      ensures !Owns(t, headers[t], k)
    {
      assert Owns(s, h, k);
    }
    forall t | t in Live(names, opens)
      ensures Marked(SetRange(used, s, 1, false), t, headers[t])
    {
      assert Marked(used, t, headers[t]);
    }
  }

  // ------------------------------------------------------------ the list of inodes

  /** The list of open inodes has one element per sector, and `opens` looks them up. */
  ghost predicate OnePerSector(list: seq<Open>, opens: Opens) {
    && (forall i, j :: 0 <= i < j < |list| ==> list[i].sector != list[j].sector)
    && (forall i :: 0 <= i < |list| ==> list[i].sector in opens && opens[list[i].sector] == list[i])
    && (forall s :: s in opens ==> exists i :: 0 <= i < |list| && list[i].sector == s)
  }

  /** `OnePerSector`, for proofs that only hand it on. */
  ghost predicate Lists(list: seq<Open>, opens: Opens) {
    forall z: nat {:trigger Look(OfOpens, z)} :: Look(OfOpens, z) ==> OnePerSector(list, opens)
  }

  lemma ListsPush(list: seq<Open>, opens: Opens, x: Open)
    requires Lists(list, opens) && x.sector !in opens
    ensures Lists([x] + list, opens[x.sector := x])
  {
    assert Look(OfOpens, 0);
    var list', opens' := [x] + list, opens[x.sector := x];
    forall s | s in opens'
      ensures exists i :: 0 <= i < |list'| && list'[i].sector == s
    {
      if s == x.sector {
        assert list'[0].sector == s;
      } else {
        var i :| 0 <= i < |list| && list[i].sector == s;
        assert list'[i + 1].sector == s;
      }
    }
  }

  lemma ListsPut(list: seq<Open>, opens: Opens, k: nat, x: Open)
    requires Lists(list, opens) && k < |list| && x.sector == list[k].sector
    ensures Lists(list[k := x], opens[x.sector := x])
  {
    assert Look(OfOpens, 0);
    var list', opens' := list[k := x], opens[x.sector := x];
    forall s | s in opens'
      ensures exists i :: 0 <= i < |list'| && list'[i].sector == s
    {
      if s == x.sector {
        assert list'[k].sector == s;
      } else {
        var i :| 0 <= i < |list| && list[i].sector == s;
        assert list'[i].sector == s;
      }
    }
  }

  lemma ListsDrop(list: seq<Open>, opens: Opens, k: nat)
    requires Lists(list, opens) && k < |list|
    ensures Lists(list[..k] + list[k + 1..], opens - {list[k].sector})
  {
    assert Look(OfOpens, 0);
    var list', opens' := list[..k] + list[k + 1..], opens - {list[k].sector};
    assert forall i :: 0 <= i < |list'| ==> list'[i] == list[if i < k then i else i + 1];
    forall s | s in opens'
      ensures exists i :: 0 <= i < |list'| && list'[i].sector == s
    {
      var i :| 0 <= i < |list| && list[i].sector == s;
      assert list'[if i < k then i else i - 1].sector == s;
    }
  }

  /** What the elements of the list of open inodes say: no two are for one sector, each
      counts the files on it and the other openers, and its deniers. */
  lemma ListCounts(used: seq<bool>, headers: Headers, names: Names, opens: Opens, files: Table,
                   extra: multiset<nat>, list: seq<Open>)
    requires Ok(used, headers, names, opens, files, extra) && Lists(list, opens)
    ensures forall i, j :: 0 <= i < j < |list| ==> list[i].sector != list[j].sector
    ensures forall i :: 0 <= i < |list| ==> OpenOk(list[i], list[i].sector, names, files, extra)
    ensures forall f :: f in files ==> exists i :: 0 <= i < |list| && list[i].sector == files[f].sector
  {
    assert Look(OfOwners, 0) && Look(OfOpens, 0);
  }
}
