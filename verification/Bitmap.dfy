/** lib/kernel/bitmap.c: bits packed into 64-bit words refine a sequence of
    booleans. */
module Bitmaps {
  import opened Wrappers
  import opened Bits
  import opened Sectors

  /** elem_cnt */
  function WordsFor(n: nat): nat {
    (n + 63) / 64
  }

  /** The words stand for the bits. */
  ghost predicate Packs(words: seq<nat>, bits: seq<bool>) {
    && |words| == WordsFor(|bits|) && (forall i :: 0 <= i < |words| ==> words[i] < Pow2(64))
    && forall k :: 0 <= k < |bits| ==> bits[k] == Bit(words[k / 64], k % 64)
  }

  /** All of a range of bits have a value. */
  ghost predicate AllAre(bits: seq<bool>, start: nat, cnt: nat, value: bool) {
    start + cnt <= |bits| && forall k :: start <= k < start + cnt ==> bits[k] == value
  }

  /** A range of bits set to a value. */
  function SetRange(bits: seq<bool>, start: nat, cnt: nat, value: bool): (r: seq<bool>)
    requires start + cnt <= |bits|
    ensures |r| == |bits| && forall k :: 0 <= k < |r| ==> r[k] == if start <= k < start + cnt then value else bits[k]
  {
    bits[..start] + seq(cnt, _ => value) + bits[start + cnt..]
  }

  /** Changing one word by one bit changes that bit. */
  lemma OneBit(words: seq<nat>, bits: seq<bool>, k: nat, w: nat, value: bool)
    requires Packs(words, bits) && k < |bits| && w < Pow2(64)
    requires forall j: nat :: j < 64 ==> Bit(w, j) == if j == k % 64 then value else Bit(words[k / 64], j)
    ensures Packs(words[k / 64 := w], bits[k := value])
  {
  }

  class Bitmap {
    const bitCnt: nat
    const words: array<nat>
    ghost var bits: seq<bool>

    ghost predicate Valid()
      reads this, words
    {
      |bits| == bitCnt && Packs(words[..], bits)
    }

    /** bitmap_create */
    constructor (n: nat)
      ensures Valid() && bitCnt == n && AllAre(bits, 0, n, false) && fresh(words)
    {
      bitCnt := n;
      words := new nat[WordsFor(n)](_ => 0);
      bits := seq(n, _ => false);
      new;
      forall k ensures !Bit(0, k) { ZeroBit(k); }
    }

    /** bitmap_mark: or with the bit's mask. */
    method Mark(k: nat)
      requires Valid() && k < bitCnt
      modifies this`bits, words
      ensures Valid() && bits == old(bits)[k := true]
    {
      var w := Or(words[k / 64], Pow2(k % 64));
      Masked(words[k / 64], k % 64);
      OneBit(words[..], bits, k, w, true);
      ghost var before := words[..];
      words[k / 64] := w;
      assert words[..] == before[k / 64 := w];
      bits := bits[k := true];
    }

    /** bitmap_reset: and with the mask's complement. */
    method Reset(k: nat)
      requires Valid() && k < bitCnt
      modifies this`bits, words
      ensures Valid() && bits == old(bits)[k := false]
    {
      var w := AndNot(words[k / 64], Pow2(k % 64));
      Masked(words[k / 64], k % 64);
      OneBit(words[..], bits, k, w, false);
      ghost var before := words[..];
      words[k / 64] := w;
      assert words[..] == before[k / 64 := w];
      bits := bits[k := false];
    }

    /** bitmap_flip: exclusive or with the mask. */
    method Flip(k: nat)
      requires Valid() && k < bitCnt
      modifies this`bits, words
      ensures Valid() && bits == old(bits)[k := !old(bits)[k]]
    {
      var w := Xor(words[k / 64], Pow2(k % 64));
      Masked(words[k / 64], k % 64);
      OneBit(words[..], bits, k, w, !bits[k]);
      ghost var before := words[..];
      words[k / 64] := w;
      assert words[..] == before[k / 64 := w];
      bits := bits[k := !bits[k]];
    }

    /** bitmap_test */
    method Test(k: nat) returns (value: bool)
      requires Valid() && k < bitCnt
      ensures value == bits[k]
    {
      MaskTest(words[k / 64], k % 64);
      value := And(words[k / 64], Pow2(k % 64)) != 0;
    }

    /** bitmap_set_multiple */
    method SetMultiple(start: nat, cnt: nat, value: bool)
      requires Valid() && start + cnt <= bitCnt
      modifies this`bits, words
      ensures Valid() && bits == SetRange(old(bits), start, cnt, value)
    {
      var i := 0;
      while i < cnt
        invariant i <= cnt && Valid() && bits == SetRange(old(bits), start, i, value)
      {
        if value { Mark(start + i); } else { Reset(start + i); }
        i := i + 1;
      }
    }

    /** bitmap_contains */
    method Contains(start: nat, cnt: nat, value: bool) returns (found: bool)
      requires Valid() && start + cnt <= bitCnt
      ensures found <==> !AllAre(bits, start, cnt, !value)
    {
      var i := 0;
      while i < cnt
        invariant i <= cnt && forall k :: start <= k < start + i ==> bits[k] != value
      {
        var bit := Test(start + i);
        if bit == value { return true; }
        i := i + 1;
      }
      found := false;
    }

    /** bitmap_scan: the least index of a run, or none. */
    method Scan(start: nat, cnt: nat, value: bool) returns (r: Option<nat>)
      requires Valid() && start <= bitCnt
      ensures r.Some? ==>
                start <= r.value && AllAre(bits, r.value, cnt, value) && forall i: nat :: start <= i < r.value ==>
                    !AllAre(bits, i, cnt, value)
      ensures r.None? ==> forall i: nat :: start <= i ==> !AllAre(bits, i, cnt, value)
      ensures cnt == 0 ==> r == Some(start)
    {
      assert cnt == 0 ==> AllAre(bits, start, cnt, value);
      if cnt <= bitCnt {
        var i := start;
        while i <= bitCnt - cnt
          invariant start <= i && forall j: nat :: start <= j < i ==> !AllAre(bits, j, cnt, value)
        {
          var other := Contains(i, cnt, !value);
          if !other { return Some(i); }
          i := i + 1;
        }
      }
      r := None;
    }

    /** bitmap_scan_and_flip */
    method ScanAndFlip(start: nat, cnt: nat, value: bool) returns (r: Option<nat>)
      requires Valid() && start <= bitCnt
      modifies this`bits, words
      ensures Valid()
      ensures r.Some? ==>
                start <= r.value && AllAre(old(bits), r.value, cnt, value)
                  && (forall i: nat :: start <= i < r.value ==> !AllAre(old(bits), i, cnt, value))
                          && bits == SetRange(old(bits), r.value, cnt, !value)
      ensures r.None? ==> (forall i: nat :: start <= i ==> !AllAre(old(bits), i, cnt, value))
                          && bits == old(bits) && words[..] == old(words[..])
      ensures cnt == 0 ==> r == Some(start)
    {
      r := Scan(start, cnt, value);
      if r.Some? { SetMultiple(r.value, cnt, !value); }
    }

    /** bitmap_write: the words' bytes at the start of a file. */
    method WriteFile(disk: Disk, f: Inode, memory: bool) returns (ok: bool)
      requires Formatted(disk.sectors[..]) && OnDisk(disk.sectors[..], f)
      modifies disk.sectors
      ensures Formatted(disk.sectors[..]) && OnlyExtent(old(disk.sectors[..]), disk.sectors[..], f)
      ensures f.denyWriteCnt == 0 && 8 * words.Length <= f.length ==> (ok <==> memory || words.Length % 64 == 0)
      ensures ok ==> 8 * words.Length <= f.length
                     && Slice(disk.sectors[..], f.start, 0, 8 * words.Length) == Image(words[..])
    {
      WholeWords(words.Length);
      ok := WriteImage(disk, f, Image(words[..]), memory);
    }

    /** bitmap_read: the words from a file, with the unused bits of the last one
        masked off. */
    method ReadFile(disk: Disk, f: Inode, memory: bool, ghost ws: seq<nat>, ghost bs: seq<bool>) returns (ok: bool)
      requires Valid() && Formatted(disk.sectors[..]) && OnDisk(disk.sectors[..], f)
      requires Packs(ws, bs) && |bs| == bitCnt && 8 * words.Length <= f.length
      requires Slice(disk.sectors[..], f.start, 0, 8 * words.Length) == Image(ws)
      modifies this`bits, words
      ensures ok <==> memory || words.Length % 64 == 0
      ensures ok ==> Valid() && bits == bs
    {
      if bitCnt == 0 { bits := bs; return true; }
      ok := ReadWords(disk, f, words, memory, ws);
      var last := words.Length - 1;
      var w := And(words[last], LastMask(bitCnt));
      words[last] := w;
      if ok {
        LastMasked(ws, bs);
        assert words[..] == ws[last := w];
        bits := bs;
      }
    }
  }

  method WriteImage(disk: Disk, f: Inode, image: seq<Byte>, memory: bool) returns (ok: bool)
    requires Formatted(disk.sectors[..]) && OnDisk(disk.sectors[..], f)
    modifies disk.sectors
    ensures Formatted(disk.sectors[..]) && OnlyExtent(old(disk.sectors[..]), disk.sectors[..], f)
    ensures f.denyWriteCnt == 0 && |image| <= f.length ==> (ok <==> memory || Whole(|image|) == |image|)
    ensures ok ==> |image| <= f.length && Slice(disk.sectors[..], f.start, 0, |image|) == image
  {
    ghost var s := disk.sectors[..];
    var n := WriteAt(disk, f, image, |image|, 0, memory);
    ok := n == |image|;
    WroteExtent(s, disk.sectors[..], f, 0, n, image);
    if ok {
      WrittenRead(s, disk.sectors[..], f.start, 0, n, image);
      assert image[..n] == image;
    }
  }

  /** Which numbers of words are whole sectors. */
  lemma WholeWords(n: nat)
    ensures Whole(8 * n) == 8 * n <==> n % 64 == 0
  {
    assert 8 * n == 512 * (n / 64) + 8 * (n % 64);
  }

  method ReadWords(disk: Disk, f: Inode, words: array<nat>, memory: bool, ghost ws: seq<nat>) returns (ok: bool)
    requires Formatted(disk.sectors[..]) && OnDisk(disk.sectors[..], f) && 8 * words.Length <= f.length
    requires |ws| == words.Length && (forall j :: 0 <= j < |ws| ==> ws[j] < Pow2(64))
    requires Slice(disk.sectors[..], f.start, 0, 8 * words.Length) == Image(ws)
    modifies words
    ensures (ok <==> memory || words.Length % 64 == 0) && (ok ==> words[..] == ws)
  {
    var size := 8 * words.Length;
    WholeWords(words.Length);
    var buffer := new Byte[size](_ => 0);
    var n := ReadAt(disk, f, buffer, size, 0, memory);
    ok := n == size;
    Unpack(buffer[..], words);
    if ok {
      assert buffer[..] == buffer[..n] == Image(ws);
      AllWords(ws, words[..]);
    }
  }

  /** The words of some bytes. */
  method Unpack(bytes: seq<Byte>, words: array<nat>)
    requires |bytes| == 8 * words.Length
    modifies words
    ensures forall j :: 0 <= j < words.Length ==> words[..][j] == WordAt(bytes, j)
  {
    var i := 0;
    while i < words.Length
      invariant i <= words.Length && forall j :: 0 <= j < i ==> words[..][j] == WordAt(bytes, j)
    {
      words[i] := WordAt(bytes, i);
      i := i + 1;
    }
  }

  function WordAt(bytes: seq<Byte>, i: nat): nat
    requires 8 * i + 8 <= |bytes|
  {
    Value(bytes[8 * i..8 * i + 8])
  }

  lemma AllWords(ws: seq<nat>, words: seq<nat>)
    requires |words| == |ws| && (forall j :: 0 <= j < |ws| ==> ws[j] < Pow2(64))
    requires forall j :: 0 <= j < |ws| ==> words[j] == WordAt(Image(ws), j)
    ensures words == ws
  {
    forall j | 0 <= j < |ws| ensures words[j] == ws[j] { ImageWord(ws, j); }
  }

  // ------------------------------------------------------------------ on disk

  /** A word as `n` bytes, lowest first, and back. */
  function LittleEndian(w: nat, n: nat): (b: seq<Byte>)
    ensures |b| == n
    decreases n
  {
    if n == 0 then [] else [(w % 256) as Byte] + LittleEndian(w / 256, n - 1)
  }

  function Value(b: seq<Byte>): nat {
    if b == [] then 0 else b[0] as nat + 256 * Value(b[1..])
  }

  lemma {:induction false} ValueOf(w: nat, n: nat)
    requires w < Pow2(8 * n)
    ensures Value(LittleEndian(w, n)) == w
    decreases n
  {
    if n > 0 {
      Pow2Add(8, 8 * (n - 1));
      assert Pow2(8) == 256;
      ValueOf(w / 256, n - 1);
    }
  }

  /** The bytes of the words. */
  function Image(words: seq<nat>): (b: seq<Byte>)
    ensures |b| == 8 * |words|
  {
    if words == [] then [] else LittleEndian(words[0], 8) + Image(words[1..])
  }

  lemma SliceOfConcat<T>(a: seq<T>, c: seq<T>, x: nat, y: nat)
    requires x <= y <= |c|
    ensures (a + c)[|a| + x..|a| + y] == c[x..y]
  {
  }

  lemma {:induction false} ImageWord(words: seq<nat>, i: nat)
    requires i < |words| && forall j :: 0 <= j < |words| ==> words[j] < Pow2(64)
    ensures Value(Image(words)[8 * i..8 * i + 8]) == words[i]
  {
    var a, c := LittleEndian(words[0], 8), Image(words[1..]);
    if i == 0 {
      SliceOfFirst(a, c);
      ValueOf(words[0], 8);
    } else {
      var x := 8 * (i - 1);
      ImageWord(words[1..], i - 1);
      SliceOfConcat(a, c, x, x + 8);
    }
  }

  lemma SliceOfFirst<T>(a: seq<T>, c: seq<T>)
    ensures (a + c)[0..|a|] == a
  {
  }

  /** last_mask */
  function LastMask(n: nat): nat {
    if n % 64 != 0 then Pow2(n % 64) - 1 else Pow2(64) - 1
  }

  lemma MaskedWord(w: nat, m: nat)
    requires w < Pow2(64) && 0 < m <= 64
    ensures And(w, Pow2(m) - 1) < Pow2(64) && forall k: nat :: k < m ==> Bit(And(w, Pow2(m) - 1), k) == Bit(w, k)
  {
    AndMask(w, m);
    if m < 64 { Pow2Less(m, 64); }
    forall k: nat | k < m ensures Bit(And(w, Pow2(m) - 1), k) == Bit(w, k) { LowBits(w, m, k); }
  }

  /** How many bits of the last word are used. */
  lemma LastWord(n: nat, k: nat)
    requires k < n && k / 64 == WordsFor(n) - 1
    ensures k % 64 < if n % 64 != 0 then n % 64 else 64
  {
  }

  /** Masking off unused bits changes no bit that is used. */
  lemma LastMasked(ws: seq<nat>, bs: seq<bool>)
    requires Packs(ws, bs) && bs != []
    ensures Packs(ws[|ws| - 1 := And(ws[|ws| - 1], LastMask(|bs|))], bs)
  {
    var last, m := |ws| - 1, if |bs| % 64 != 0 then |bs| % 64 else 64;
    var v := And(ws[last], LastMask(|bs|));
    MaskedWord(ws[last], m);
    forall k | 0 <= k < |bs|
      ensures bs[k] == Bit(ws[last := v][k / 64], k % 64)
    {
      if k / 64 == last { LastWord(|bs|, k); }
    }
  }

  /** What or, and-not and exclusive or with a one-bit mask do. */
  lemma Masked(w: nat, k: nat)
    requires w < Pow2(64) && k < 64
    ensures Or(w, Pow2(k)) < Pow2(64) && AndNot(w, Pow2(k)) < Pow2(64) && Xor(w, Pow2(k)) < Pow2(64)
    ensures forall j: nat :: j < 64 ==> Bit(Or(w, Pow2(k)), j) == if j == k then true else Bit(w, j)
    ensures forall j: nat :: j < 64 ==> Bit(AndNot(w, Pow2(k)), j) == if j == k then false else Bit(w, j)
    ensures forall j: nat :: j < 64 ==> Bit(Xor(w, Pow2(k)), j) == if j == k then !Bit(w, j) else Bit(w, j)
  {
    Pow2Less(k, 64);
    WordOps(w, Pow2(k), 64);
    forall j: nat | j < 64
      ensures Bit(Or(w, Pow2(k)), j) == if j == k then true else Bit(w, j)
      ensures Bit(AndNot(w, Pow2(k)), j) == if j == k then false else Bit(w, j)
      ensures Bit(Xor(w, Pow2(k)), j) == if j == k then !Bit(w, j) else Bit(w, j)
    {
      BitsOf(w, Pow2(k), j);
      Pow2Bit(k, j);
    }
  }
}
