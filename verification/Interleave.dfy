/**
 * Namespaces formatted with extended logical blocks carry each block's metadata right behind its data. A write
 * interleaves the two, a read separates them again; both start at the same offset into a page.
 */
module Interleave {
  import opened Arithmetic
  import opened Sequences

  type Byte = bv8

  /** The i-th piece of width w. */
  function Piece(s: seq<Byte>, i: nat, w: nat): seq<Byte>
    requires Ends(i, w) <= |s|
  {
    Below(i, w);
    s[i * w..Ends(i, w)]
  }

  function Ends(i: nat, w: nat): (e: nat)
    ensures e == i * w + w
  {
    Below(i, w);
    i * w + w
  }

  lemma Below(i: nat, w: nat)
    ensures i * w >= 0 && (i + 1) * w == i * w + w
  {
  }

  lemma Within(i: nat, n: nat, w: nat)
    requires i < n
    ensures 0 <= i * w <= i * w + w <= n * w
  {
    var d := n - i - 1;
    assert n * w == (d + i + 1) * w == d * w + i * w + w;
  }

  /** n blocks, each followed by its metadata. */
  function Interleaved(data: seq<Byte>, meta: seq<Byte>, n: nat, lba: nat, ms: nat): (r: seq<Byte>)
    requires n * lba <= |data| && n * ms <= |meta|
    ensures |r| == n * (lba + ms)
  {
    if n == 0 then []
    else
      Below(n - 1, lba);
      Below(n - 1, ms);
      Below(n - 1, lba + ms);
      Interleaved(data, meta, n - 1, lba, ms) + Piece(data, n - 1, lba) + Piece(meta, n - 1, ms)
  }

  /** Of n units of width w each, the parts from `at` on of length len, joined. */
  function Picked(b: seq<Byte>, n: nat, w: nat, at: nat, len: nat): (r: seq<Byte>)
    requires n * w <= |b| && at + len <= w
    ensures |r| == n * len
  {
    if n == 0 then []
    else
      Below(n - 1, w);
      Below(n - 1, len);
      Picked(b, n - 1, w, at, len) + Piece(b, n - 1, w)[at..at + len]
  }

  lemma {:induction false} PickedPrefix(b: seq<Byte>, c: seq<Byte>, n: nat, w: nat, at: nat, len: nat)
    requires n * w <= |b| && n * w <= |c| && at + len <= w && b[..n * w] == c[..n * w]
    ensures Picked(b, n, w, at, len) == Picked(c, n, w, at, len)
  {
    if n > 0 {
      Below(n - 1, w);
      assert b[..(n - 1) * w] == b[..n * w][..(n - 1) * w] == c[..(n - 1) * w];
      PickedPrefix(b, c, n - 1, w, at, len);
      assert Piece(b, n - 1, w) == b[..n * w][(n - 1) * w..] == Piece(c, n - 1, w);
    }
  }

  /** The pieces of a sequence, joined, are its beginning. */
  lemma PiecesJoin(s: seq<Byte>, i: nat, w: nat)
    requires Ends(i, w) <= |s|
    ensures 0 <= i * w <= |s| && s[..i * w] + Piece(s, i, w) == s[..Ends(i, w)]
  {
    Below(i, w);
  }

  lemma LastPiece(r: seq<Byte>, d: seq<Byte>, m: seq<Byte>, i: nat, lba: nat, ms: nat)
    requires |r| == i * (lba + ms) && |d| == lba && |m| == ms
    ensures |r + d + m| == Ends(i, lba + ms)
    ensures Piece(r + d + m, i, lba + ms)[..lba] == d && Piece(r + d + m, i, lba + ms)[lba..lba + ms] == m
  {
    assert Piece(r + d + m, i, lba + ms) == d + m;
  }

  /** Separating one unit more. */
  lemma {:induction false} PickLast(r: seq<Byte>, d: seq<Byte>, m: seq<Byte>, i: nat, lba: nat, ms: nat)
    requires |r| == i * (lba + ms) && |d| == lba && |m| == ms
    ensures |r + d + m| == (i + 1) * (lba + ms)
    ensures Picked(r + d + m, i + 1, lba + ms, 0, lba) == Picked(r, i, lba + ms, 0, lba) + d
    ensures Picked(r + d + m, i + 1, lba + ms, lba, ms) == Picked(r, i, lba + ms, lba, ms) + m
  {
    var b := r + d + m;
    Below(i, lba + ms);
    LastPiece(r, d, m, i, lba, ms);
    PickedPrefix(b, r, i, lba + ms, 0, lba);
    PickedPrefix(b, r, i, lba + ms, lba, ms);
  }

  /** Separating what was interleaved gives back the data and the metadata. */
  lemma {:induction false} RoundTrip(data: seq<Byte>, meta: seq<Byte>, n: nat, lba: nat, ms: nat)
    requires n * lba <= |data| && n * ms <= |meta|
    ensures var b := Interleaved(data, meta, n, lba, ms);
            && Picked(b, n, lba + ms, 0, lba) == data[..n * lba]
            && Picked(b, n, lba + ms, lba, ms) == meta[..n * ms]
  {
    if n > 0 {
      var i := n - 1;
      Below(i, lba);
      Below(i, ms);
      Below(i, lba + ms);
      RoundTrip(data, meta, i, lba, ms);
      PickLast(Interleaved(data, meta, i, lba, ms), Piece(data, i, lba), Piece(meta, i, ms), i, lba, ms);
      PiecesJoin(data, i, lba);
      PiecesJoin(meta, i, ms);
    }
  }

  // ----- the buffer -----

  /** ALIGN_UP. */
  function AlignUp(x: nat, page: nat): (r: nat)
    requires page > 0
    ensures x <= r < x + page && r % page == 0
  {
    RoundUp(x, page);
    (x + page - 1) / page * page
  }

  lemma RoundUp(x: nat, page: nat)
    requires page > 0
    ensures var r := (x + page - 1) / page * page; x <= r < x + page && r % page == 0
  {
    var y := x + page - 1;
    var q, m := y / page, y % page;
    assert y == page * q + m;
    ExactQuotient(page, page * q, q);
  }

  /** The length unvmed_pgmap gives a buffer for `size` bytes that are to start at an offset into a page. */
  function Allocated(size: nat, page: nat, offset: int): (len: nat)
    requires offset < page && page > 0
    ensures len >= size + page - offset
  {
    AlignUp(size + (page - offset), page)
  }

  /** Both copies of block i stay inside a buffer of the given length. */
  predicate CopyInside(len: nat, offset: int, i: nat, lba: nat, ms: nat) {
    var at := offset + i * (lba + ms);
    0 <= at && at + lba <= len && at + lba + ms <= len
  }

  ghost predicate CopiesInside(len: nat, offset: int, n: nat, lba: nat, ms: nat) {
    forall i: nat :: i < n ==> CopyInside(len, offset, i, lba, ms)
  }

  /** The check of the source, an offset below the page size, is not enough; this is. */
  predicate Fits(size: nat, page: nat, offset: int)
    requires offset < page && page > 0
  {
    0 <= offset && offset + size <= Allocated(size, page, offset)
  }

  /** Every copy is in bounds if and only if offset and size together fit what was allocated. */
  lemma InBoundsIff(n: nat, lba: nat, ms: nat, page: nat, offset: int)
    requires n > 0 && page > 0 && offset < page
    ensures CopiesInside(Allocated(n * (lba + ms), page, offset), offset, n, lba, ms) <==>
        Fits(n * (lba + ms), page, offset)
  {
    var w := lba + ms;
    var len := Allocated(n * w, page, offset);
    Below(n - 1, w);
    if Fits(n * w, page, offset) {
      forall i: nat | i < n ensures CopyInside(len, offset, i, lba, ms) {
        Within(i, n, w);
      }
    }
    if CopiesInside(len, offset, n, lba, ms) {
      assert CopyInside(len, offset, 0, lba, ms) && CopyInside(len, offset, n - 1, lba, ms);
    }
  }

  /** Offsets in the first half of a page always fit. */
  lemma HalfPageFits(size: nat, page: nat, offset: nat)
    requires page > 0 && 2 * offset <= page
    ensures offset < page && Fits(size, page, offset)
  {
  }

  lemma OnePage(x: nat, page: nat)
    requires 0 < x <= page
    ensures AlignUp(x, page) == page
  {
    ModUnique(x + page - 1, page, 1, x - 1);
  }

  /** A short transfer at a late offset: one page is allocated, and the copies pass its end. */
  lemma LateOffsetDoesNotFit(size: nat, page: nat, offset: nat)
    requires size <= offset < page && offset + size > page
    ensures Allocated(size, page, offset) == page && !Fits(size, page, offset)
  {
    OnePage(size + (page - offset), page);
  }

  /** So that the copies of a single block pass it. */
  lemma LateOffsetCopiesOutside(lba: nat, ms: nat, page: nat, offset: nat)
    requires lba + ms <= offset < page && offset + lba + ms > page
    ensures !CopiesInside(Allocated(lba + ms, page, offset), offset, 1, lba, ms)
  {
    assert 1 * (lba + ms) == lba + ms;
    InBoundsIff(1, lba, ms, page, offset);
    LateOffsetDoesNotFit(lba + ms, page, offset);
  }

  /** For instance 512 bytes with 8 bytes of metadata at offset 4000 of a page of 4096: the copies end at 4520. */
  lemma OneBlockAt4000(lba: nat, ms: nat, page: nat, offset: nat)
    requires page == 4096 && offset == 4000 && lba == 512 && ms == 8
    ensures Allocated(lba + ms, page, offset) == page && !CopiesInside(page, offset, 1, lba, ms)
  {
    LateOffsetDoesNotFit(lba + ms, page, offset);
    LateOffsetCopiesOutside(lba, ms, page, offset);
  }

  // ----- the copy loops -----

  method Memcpy(dst: array<Byte>, at: nat, src: seq<Byte>)
    requires at + |src| <= dst.Length
    modifies dst
    ensures dst[..] == Patched(old(dst[..]), at, src)
  {
    ghost var s := dst[..];
    for j := 0 to |src|
      invariant dst[..] == Patched(s, at, src[..j])
    {
      assert src[..j + 1] == src[..j] + [src[j]];
      dst[at + j] := src[j];
    }
  }

  lemma PatchOn(s: seq<Byte>, at: nat, a: seq<Byte>, b: seq<Byte>)
    requires at + |a| + |b| <= |s|
    ensures Patched(Patched(s, at, a), at + |a|, b) == Patched(s, at, a + b)
  {
  }

  /** What the write has put behind `base` after i blocks. */
  ghost function Written(s: seq<Byte>, base: nat, data: seq<Byte>, meta: seq<Byte>, i: nat, lba: nat,
      ms: nat): seq<Byte>
    requires i * lba <= |data| && i * ms <= |meta| && base + i * (lba + ms) <= |s|
  {
    Patched(s, base, Interleaved(data, meta, i, lba, ms))
  }

  lemma {:induction false} WrittenStep(s: seq<Byte>, base: nat, data: seq<Byte>, meta: seq<Byte>, i: nat, lba: nat,
      ms: nat)
    requires Ends(i, lba) <= |data| && Ends(i, ms) <= |meta| && base + Ends(i, lba + ms) <= |s|
    ensures i * lba <= |data| && i * ms <= |meta| && base + i * (lba + ms) <= |s|
    ensures (i + 1) * lba <= |data| && (i + 1) * ms <= |meta| && base + (i + 1) * (lba + ms) <= |s|
    ensures var w := Written(s, base, data, meta, i, lba, ms);
            var v := Patched(w, base + i * (lba + ms), Piece(data, i, lba));
            Patched(v, base + i * (lba + ms) + lba, Piece(meta, i, ms)) == Written(s, base, data, meta, i + 1, lba, ms)
  {
    Below(i, lba);
    Below(i, ms);
    Below(i, lba + ms);
    var r, d, m := Interleaved(data, meta, i, lba, ms), Piece(data, i, lba), Piece(meta, i, ms);
    PatchOn(s, base, r, d);
    PatchOn(s, base, r + d, m);
    assert Interleaved(data, meta, i + 1, lba, ms) == r + d + m;
  }

  /** The buffer before each block of the write, and at the end. */
  ghost predicate WriteStages(
    stages: seq<seq<Byte>>, base: nat, data: seq<Byte>, meta: seq<Byte>, n: nat, lba: nat, ms: nat)
  {
    |stages| == n + 1 && forall i: nat :: i < n ==> WriteStage(stages[i], stages[i + 1], base, data, meta, i, lba, ms)
  }

  ghost predicate WriteStage(
    x: seq<Byte>, y: seq<Byte>, base: nat, data: seq<Byte>, meta: seq<Byte>, i: nat, lba: nat, ms: nat)
  {
    && Ends(i, lba) <= |data| && Ends(i, ms) <= |meta| && base + Ends(i, lba + ms) <= |x| == |y|
    && var v := Patched(x, base + i * (lba + ms), Piece(data, i, lba));
       Patched(v, base + i * (lba + ms) + lba, Piece(meta, i, ms)) == y
  }

  lemma {:induction false} WrittenStage(
    x: seq<Byte>, s: seq<Byte>, base: nat, data: seq<Byte>, meta: seq<Byte>, i: nat, lba: nat, ms: nat)
    requires Ends(i, lba) <= |data| && Ends(i, ms) <= |meta| && base + Ends(i, lba + ms) <= |s|
    requires x == Written(s, base, data, meta, i, lba, ms)
    ensures (i + 1) * lba <= |data| && (i + 1) * ms <= |meta| && base + (i + 1) * (lba + ms) <= |s|
    ensures WriteStage(x, Written(s, base, data, meta, i + 1, lba, ms), base, data, meta, i, lba, ms)
  {
    WrittenStep(s, base, data, meta, i, lba, ms);
  }

  lemma NoneWritten(s: seq<Byte>, base: nat, data: seq<Byte>, meta: seq<Byte>, lba: nat, ms: nat)
    requires base <= |s|
    ensures Written(s, base, data, meta, 0, lba, ms) == s
  {
  }

  lemma AddWriteStage(
    stages: seq<seq<Byte>>, y: seq<Byte>, base: nat, data: seq<Byte>, meta: seq<Byte>, n: nat, lba: nat, ms: nat)
    requires WriteStages(stages, base, data, meta, n, lba, ms) && WriteStage(stages[n], y, base, data, meta, n, lba, ms)
    ensures WriteStages(stages + [y], base, data, meta, n + 1, lba, ms)
  {
    var all := stages + [y];
    forall i: nat | i < n + 1 ensures WriteStage(all[i], all[i + 1], base, data, meta, i, lba, ms) {
      if i < n {
        assert WriteStage(stages[i], stages[i + 1], base, data, meta, i, lba, ms);
      }
    }
  }

  lemma {:induction false} StagesOfWrite(
    s: seq<Byte>, base: nat, data: seq<Byte>, meta: seq<Byte>, n: nat, lba: nat, ms: nat)
    returns (stages: seq<seq<Byte>>)
    requires n * lba <= |data| && n * ms <= |meta| && base + n * (lba + ms) <= |s|
    ensures WriteStages(stages, base, data, meta, n, lba, ms)
    ensures stages[0] == s && stages[n] == Written(s, base, data, meta, n, lba, ms)
  {
    if n == 0 {
      NoneWritten(s, base, data, meta, lba, ms);
      stages := [s];
    } else {
      Below(n - 1, lba);
      Below(n - 1, ms);
      Below(n - 1, lba + ms);
      var before := StagesOfWrite(s, base, data, meta, n - 1, lba, ms);
      var x, y := before[n - 1], Written(s, base, data, meta, n, lba, ms);
      WrittenStage(x, s, base, data, meta, n - 1, lba, ms);
      AddWriteStage(before, y, base, data, meta, n - 1, lba, ms);
      stages := before + [y];
    }
  }

  /** unvme_write, extended format: every copy stays inside its buffer, and nothing else of the buffer changes. */
  method WriteExtended(
    buf: array<Byte>, page: nat, offset: nat, data: seq<Byte>, meta: seq<Byte>, nlb: nat, lba: nat, ms: nat)
    requires |data| == (nlb + 1) * lba && |meta| == (nlb + 1) * ms && offset < page
    requires buf.Length == Allocated((nlb + 1) * (lba + ms), page, offset) && Fits((nlb + 1) * (lba + ms), page, offset)
    modifies buf
    ensures buf[..] == Written(old(buf[..]), offset, data, meta, nlb + 1, lba, ms)
  {
    ghost var stages := StagesOfWrite(buf[..], offset, data, meta, nlb + 1, lba, ms);
    WriteLoop(buf, offset, data, meta, nlb, lba, ms, stages);
  }

  method WriteLoop(
    buf: array<Byte>, base: nat, data: seq<Byte>, meta: seq<Byte>, nlb: nat, lba: nat, ms: nat,
    ghost stages: seq<seq<Byte>>)
    requires WriteStages(stages, base, data, meta, nlb + 1, lba, ms) && buf[..] == stages[0]
    modifies buf
    ensures buf[..] == stages[nlb + 1]
  {
    var offset := 0;
    for i := 0 to nlb + 1
      invariant offset == i * (lba + ms) && buf[..] == stages[i]
    {
      assert WriteStage(stages[i], stages[i + 1], base, data, meta, i, lba, ms);
      StageParts(stages[i], stages[i + 1], base, offset, data, meta, i, lba, ms);
      offset := WriteBlock(buf, base, offset, data, i * lba, lba, meta, i * ms, ms, stages[i + 1]);
    }
  }

  lemma StageParts(
    x: seq<Byte>, y: seq<Byte>, base: nat, offset: nat, data: seq<Byte>, meta: seq<Byte>, i: nat, lba: nat, ms: nat)
    requires offset == i * (lba + ms) && WriteStage(x, y, base, data, meta, i, lba, ms)
    ensures 0 <= i * lba <= i * lba + lba <= |data| && 0 <= i * ms <= i * ms + ms <= |meta|
    ensures base + offset + lba + ms <= |x| && offset + lba + ms == (i + 1) * (lba + ms)
    ensures Patched(Patched(x, base + offset, data[i * lba..i * lba + lba]), base + offset + lba,
        meta[i * ms..i * ms + ms]) == y
  {
    Below(i, lba);
    Below(i, ms);
    Below(i, lba + ms);
  }

  /** One iteration of the write: a block, then its metadata. */
  method WriteBlock(
    buf: array<Byte>, base: nat, offset: nat, data: seq<Byte>, from: nat, lba: nat, meta: seq<Byte>, metaFrom: nat,
        ms: nat,
    ghost goal: seq<Byte>)
    returns (next: nat)
    requires from + lba <= |data| && metaFrom + ms <= |meta| && base + offset + lba + ms <= buf.Length
    requires Patched(Patched(buf[..], base + offset, data[from..from + lba]), base + offset + lba,
        meta[metaFrom..metaFrom + ms])
          == goal
    modifies buf
    ensures buf[..] == goal && next == offset + lba + ms
  {
    next := offset;
    Memcpy(buf, base + next, data[from..from + lba]);
    next := next + lba;
    Memcpy(buf, base + next, meta[metaFrom..metaFrom + ms]);
    next := next + ms;
  }

  lemma PieceAt(b: seq<Byte>, i: nat, w: nat, at: nat, len: nat)
    requires Ends(i, w) <= |b| && at + len <= w
    ensures Piece(b, i, w)[at..at + len] == b[i * w + at..i * w + at + len]
  {
    SliceOfSlice(b, i * w, w, at, len);
  }

  lemma SliceOfSlice(b: seq<Byte>, t: nat, w: nat, at: nat, len: nat)
    requires t + w <= |b| && at + len <= w
    ensures b[t..t + w][at..at + len] == b[t + at..t + at + len]
  {
    var x, y := b[t..t + w][at..at + len], b[t + at..t + at + len];
    assert |x| == |y| && forall j :: 0 <= j < len ==> x[j] == y[j];
  }

  lemma {:induction false} PickStep(s: seq<Byte>, b: seq<Byte>, i: nat, w: nat, at: nat, len: nat)
    requires at + len <= w && Ends(i, w) <= |b| && Ends(i, len) <= |s|
    ensures i * w <= |b| && (i + 1) * w <= |b| && i * len <= |s| && (i + 1) * len <= |s|
    ensures Patched(Patched(s, 0, Picked(b, i, w, at, len)), i * len, b[i * w + at..i * w + at + len])
         == Patched(s, 0, Picked(b, i + 1, w, at, len))
  {
    Below(i, w);
    Below(i, len);
    PieceAt(b, i, w, at, len);
    PatchOn(s, 0, Picked(b, i, w, at, len), Piece(b, i, w)[at..at + len]);
  }

  lemma SliceFrom(s: seq<Byte>, base: nat, from: nat, to: nat)
    requires base + from <= base + to <= |s|
    ensures s[base..][from..to] == s[base + from..base + to]
  {
  }

  /** What the read has put into one of its buffers after i blocks. */
  ghost function Gathered(s: seq<Byte>, b: seq<Byte>, i: nat, w: nat, at: nat, len: nat): seq<Byte>
    requires at + len <= w && i * w <= |b| && i * len <= |s|
  {
    Patched(s, 0, Picked(b, i, w, at, len))
  }

  lemma {:induction false} GatheredStep(s: seq<Byte>, buf: seq<Byte>, base: nat, i: nat, n: nat, w: nat, at: nat,
      len: nat)
    requires i < n && at + len <= w && base + n * w <= |buf| && n * len == |s|
    ensures 0 <= i * len <= i * len + len <= |s| && 0 <= i * w <= i * w + w <= n * w
    ensures (i + 1) * w <= |buf[base..]| && (i + 1) * len <= |s|
    ensures Patched(Gathered(s, buf[base..], i, w, at, len), i * len, buf[base + i * w + at..base + i * w + at + len])
         == Gathered(s, buf[base..], i + 1, w, at, len)
  {
    Within(i, n, w);
    Within(i, n, len);
    PickStep(s, buf[base..], i, w, at, len);
    SliceFrom(buf, base, i * w + at, i * w + at + len);
  }

  lemma GatheredAll(s: seq<Byte>, b: seq<Byte>, n: nat, w: nat, at: nat, len: nat)
    requires at + len <= w && n * w <= |b| && n * len == |s|
    ensures Gathered(s, b, n, w, at, len) == Picked(b, n, w, at, len)
  {
  }

  /** One of the read's buffers before each block, and at the end. */
  ghost predicate ReadStages(stages: seq<seq<Byte>>, buf: seq<Byte>, base: nat, n: nat, w: nat, at: nat, len: nat) {
    |stages| == n + 1 && forall i: nat :: i < n ==> ReadStage(stages[i], stages[i + 1], buf, base, i, w, at, len)
  }

  ghost predicate ReadStage(x: seq<Byte>, y: seq<Byte>, buf: seq<Byte>, base: nat, i: nat, w: nat, at: nat, len: nat) {
    && at + len <= w && base + Ends(i, w) <= |buf| && Ends(i, len) <= |x| == |y|
    && Patched(x, i * len, buf[base + i * w + at..base + i * w + at + len]) == y
  }

  lemma AddReadStage(stages: seq<seq<Byte>>, y: seq<Byte>, buf: seq<Byte>, base: nat, n: nat, w: nat, at: nat, len: nat)
    requires ReadStages(stages, buf, base, n, w, at, len) && ReadStage(stages[n], y, buf, base, n, w, at, len)
    ensures ReadStages(stages + [y], buf, base, n + 1, w, at, len)
  {
    var all := stages + [y];
    forall i: nat | i < n + 1 ensures ReadStage(all[i], all[i + 1], buf, base, i, w, at, len) {
      if i < n {
        assert ReadStage(stages[i], stages[i + 1], buf, base, i, w, at, len);
      }
    }
  }

  lemma {:induction false} StagesOfRead(s: seq<Byte>, buf: seq<Byte>, base: nat, i: nat, n: nat, w: nat, at: nat,
      len: nat)
    returns (stages: seq<seq<Byte>>)
    requires i <= n && at + len <= w && base + n * w <= |buf| && n * len == |s|
    ensures i * w <= |buf[base..]| && i * len <= |s|
    ensures ReadStages(stages, buf, base, i, w, at, len)
    ensures stages[0] == s && stages[i] == Gathered(s, buf[base..], i, w, at, len)
    decreases i
  {
    if i == 0 {
      stages := [s];
    } else {
      Below(i - 1, w);
      Below(i - 1, len);
      var before := StagesOfRead(s, buf, base, i - 1, n, w, at, len);
      GatheredStep(s, buf, base, i - 1, n, w, at, len);
      var y := Gathered(s, buf[base..], i, w, at, len);
      AddReadStage(before, y, buf, base, i - 1, w, at, len);
      stages := before + [y];
    }
  }

  lemma PlanRead(s: seq<Byte>, buf: seq<Byte>, base: nat, n: nat, w: nat, at: nat,
      len: nat) returns (stages: seq<seq<Byte>>)
    requires at + len <= w && base + n * w <= |buf| && n * len == |s|
    ensures ReadStages(stages, buf, base, n, w, at, len) && stages[0] == s
        && stages[n] == Picked(buf[base..], n, w, at, len)
  {
    stages := StagesOfRead(s, buf, base, n, n, w, at, len);
    GatheredAll(s, buf[base..], n, w, at, len);
  }

  /** unvme_read, extended format: block data and metadata go to buffers of their own. */
  method ReadExtended(
    buf: seq<Byte>, page: nat, offset: nat, rdata: array<Byte>, rmeta: array<Byte>, nlb: nat, lba: nat, ms: nat)
    requires rdata != rmeta && rdata.Length == (nlb + 1) * lba && rmeta.Length == (nlb + 1) * ms && offset < page
    requires |buf| == Allocated((nlb + 1) * (lba + ms), page, offset) && Fits((nlb + 1) * (lba + ms), page, offset)
    modifies rdata, rmeta
    ensures rdata[..] == Picked(buf[offset..], nlb + 1, lba + ms, 0, lba)
    ensures rmeta[..] == Picked(buf[offset..], nlb + 1, lba + ms, lba, ms)
  {
    ghost var ds := PlanRead(rdata[..], buf, offset, nlb + 1, lba + ms, 0, lba);
    ghost var ts := PlanRead(rmeta[..], buf, offset, nlb + 1, lba + ms, lba, ms);
    ReadLoop(buf, offset, rdata, rmeta, nlb, lba, ms, ds, ts);
  }

  method ReadLoop(
    buf: seq<Byte>, base: nat, rdata: array<Byte>, rmeta: array<Byte>, nlb: nat, lba: nat, ms: nat,
    ghost ds: seq<seq<Byte>>, ghost ts: seq<seq<Byte>>)
    requires rdata != rmeta
    requires ReadStages(ds, buf, base, nlb + 1, lba + ms, 0, lba) && rdata[..] == ds[0]
    requires ReadStages(ts, buf, base, nlb + 1, lba + ms, lba, ms) && rmeta[..] == ts[0]
    modifies rdata, rmeta
    ensures rdata[..] == ds[nlb + 1] && rmeta[..] == ts[nlb + 1]
  {
    var offset := 0;
    for i := 0 to nlb + 1
      invariant offset == i * (lba + ms) && rdata[..] == ds[i] && rmeta[..] == ts[i]
    {
      assert ReadStage(ds[i], ds[i + 1], buf, base, i, lba + ms, 0, lba);
      assert ReadStage(ts[i], ts[i + 1], buf, base, i, lba + ms, lba, ms);
      Below(i, lba + ms);
      GetPiece(rdata, i * lba, buf, base + offset, lba, ds[i + 1]);
      offset := offset + lba;
      GetPiece(rmeta, i * ms, buf, base + offset, ms, ts[i + 1]);
      offset := offset + ms;
    }
  }

  method GetPiece(dst: array<Byte>, at: nat, buf: seq<Byte>, from: nat, len: nat, ghost goal: seq<Byte>)
    requires at + len <= dst.Length && from + len <= |buf| && Patched(dst[..], at, buf[from..from + len]) == goal
    modifies dst
    ensures dst[..] == goal
  {
    Memcpy(dst, at, buf[from..from + len]);
  }

  /** A read from the offset at which a write put its blocks returns what was written. */
  lemma {:induction false} ReadAfterWrite(s: seq<Byte>, base: nat, data: seq<Byte>, meta: seq<Byte>, n: nat, lba: nat,
      ms: nat)
    requires |data| == n * lba && |meta| == n * ms && base + n * (lba + ms) <= |s|
    ensures var b := Written(s, base, data, meta, n, lba, ms)[base..];
            Picked(b, n, lba + ms, 0, lba) == data && Picked(b, n, lba + ms, lba, ms) == meta
  {
    var r, b := Interleaved(data, meta, n, lba, ms), Written(s, base, data, meta, n, lba, ms)[base..];
    assert b[..n * (lba + ms)] == r == r[..n * (lba + ms)];
    RoundTrip(data, meta, n, lba, ms);
    PickedPrefix(b, r, n, lba + ms, 0, lba);
    PickedPrefix(b, r, n, lba + ms, lba, ms);
  }
}
