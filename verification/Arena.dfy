/** A coalescing allocator: a contiguous region is cut into used and free chunks. */
module Arena {
  import opened Numbers
  import opened Sums

  const SIZE_T: nat := TWO64

  /** A chunk of the region. */
  datatype Tile = Tile(pos: nat, size: nat, used: bool)

  function EndOf(t: Tile): nat {
    t.pos + t.size
  }

  /** The tiles, none of them empty, lie one after the other from `lo` to `hi`. */
  ghost predicate Tiling(ts: seq<Tile>, lo: nat, hi: nat) {
    if ts == [] then lo == hi
    else ts[0].pos == lo && ts[0].size > 0 && Tiling(ts[1..], EndOf(ts[0]), hi)
  }

  /** No two free tiles are neighbours. */
  ghost predicate Apart(ts: seq<Tile>) {
    forall i :: 0 <= i < |ts| - 1 ==> ts[i].used || ts[i + 1].used
  }

  /** Counted from the end of the region, every tile ends at a multiple of the alignment. */
  ghost predicate Aligned(ts: seq<Tile>, end: nat, alignment: nat) {
    forall t :: t in ts ==> Multiple(end - EndOf(t), alignment)
  }

  predicate Multiple(n: int, m: nat) {
    m > 0 && n % m == 0
  }

  /** The two maps hold exactly the free and the used tiles; an empty region has one empty free chunk. */
  ghost predicate Matches(ts: seq<Tile>, free: map<nat, nat>, used: map<nat, nat>, empty: bool) {
    && (forall p: nat, n: nat :: n > 0 ==> (p in free && free[p] == n <==> Tile(p, n, false) in ts))
    && (forall p: nat, n: nat :: p in used && used[p] == n <==> Tile(p, n, true) in ts)
    && (!empty ==> forall p :: p in free ==> free[p] > 0)
  }

  lemma {:induction false} TilingAppend(a: seq<Tile>, b: seq<Tile>, lo: nat, mid: nat, hi: nat)
    requires Tiling(a, lo, mid) && Tiling(b, mid, hi)
    ensures Tiling(a + b, lo, hi)
  {
    if a == [] {
      assert a + b == b;
    } else {
      TilingAppend(a[1..], b, EndOf(a[0]), mid, hi);
      assert (a + b)[1..] == a[1..] + b;
    }
  }

  lemma {:induction false} TilingSplit(ts: seq<Tile>, i: nat, lo: nat, hi: nat)
    requires Tiling(ts, lo, hi) && i <= |ts|
    ensures var mid := if i < |ts| then ts[i].pos else hi; Tiling(ts[..i], lo, mid) && Tiling(ts[i..], mid, hi)
  {
    if i > 0 {
      TilingSplit(ts[1..], i - 1, EndOf(ts[0]), hi);
      assert ts[1..][..i - 1] == ts[..i][1..] && ts[1..][i - 1..] == ts[i..];
    }
  }

  lemma {:induction false} TilingBounds(ts: seq<Tile>, lo: nat, hi: nat)
    requires Tiling(ts, lo, hi)
    ensures lo <= hi && (lo == hi <==> ts == [])
    ensures forall t :: t in ts ==> lo <= t.pos && t.size > 0 && EndOf(t) <= hi
  {
    if ts != [] {
      TilingBounds(ts[1..], EndOf(ts[0]), hi);
    }
  }

  /** The tiles before and behind tiles `i` to `j`, and the addresses between them. */
  lemma Around(ts: seq<Tile>, i: nat, j: nat, lo: nat, hi: nat)
    requires Tiling(ts, lo, hi) && i < j <= |ts|
    ensures Tiling(ts[..i], lo, ts[i].pos) && Tiling(ts[i..j], ts[i].pos, EndOf(ts[j - 1]))
    ensures Tiling(ts[j..], EndOf(ts[j - 1]), hi)
    ensures ts[i].pos < EndOf(ts[j - 1])
    ensures ts == ts[..i] + ts[i..j] + ts[j..]
  {
    TilingSplit(ts, i, lo, hi);
    TilingSplit(ts, j, lo, hi);
    TilingSplit(ts[..j], i, lo, if j < |ts| then ts[j].pos else hi);
    TilingSplit(ts, j - 1, lo, hi);
    assert ts[j - 1..][1..] == ts[j..];
    Start(ts[j..], EndOf(ts[j - 1]), hi);
    assert ts[..j][..i] == ts[..i] && ts[..j][i..] == ts[i..j];
    TilingBounds(ts[i..j], ts[i].pos, EndOf(ts[j - 1]));
  }

  lemma Start(ts: seq<Tile>, lo: nat, hi: nat)
    requires Tiling(ts, lo, hi)
    ensures lo == if ts == [] then hi else ts[0].pos
  {
  }

  /** Tiles `i` to `j` give way to others that cover the same addresses. */
  function Replace(ts: seq<Tile>, i: nat, j: nat, mid: seq<Tile>): seq<Tile>
    requires i <= j <= |ts|
  {
    ts[..i] + mid + ts[j..]
  }

  lemma ReplaceTiling(ts: seq<Tile>, i: nat, j: nat, mid: seq<Tile>, lo: nat, hi: nat)
    requires Tiling(ts, lo, hi) && i < j <= |ts| && Tiling(mid, ts[i].pos, EndOf(ts[j - 1]))
    ensures Tiling(Replace(ts, i, j, mid), lo, hi)
  {
    hide Tiling;
    Around(ts, i, j, lo, hi);
    TilingAppend(ts[..i], mid, lo, ts[i].pos, EndOf(ts[j - 1]));
    TilingAppend(ts[..i] + mid, ts[j..], lo, EndOf(ts[j - 1]), hi);
  }

  /** Which tiles there are afterwards: the new ones, and those outside the replaced addresses. */
  lemma ReplaceMembers(ts: seq<Tile>, i: nat, j: nat, mid: seq<Tile>, lo: nat, hi: nat)
    requires Tiling(ts, lo, hi) && i < j <= |ts|
    ensures forall t :: t in Replace(ts, i, j, mid) <==>
                          t in mid || (t in ts && !(ts[i].pos <= t.pos < EndOf(ts[j - 1])))
  {
    hide Tiling;
    Around(ts, i, j, lo, hi);
    TilingBounds(ts[..i], lo, ts[i].pos);
    TilingBounds(ts[i..j], ts[i].pos, EndOf(ts[j - 1]));
    TilingBounds(ts[j..], EndOf(ts[j - 1]), hi);
  }

  /** No other tile starts inside a tile. */
  lemma NoneInside(ts: seq<Tile>, i: nat, t: Tile, lo: nat, hi: nat)
    requires Tiling(ts, lo, hi) && i < |ts| && t in ts && ts[i].pos <= t.pos < EndOf(ts[i])
    ensures t == ts[i]
  {
    hide Tiling;
    Around(ts, i, i + 1, lo, hi);
    TilingBounds(ts[..i], lo, ts[i].pos);
    TilingBounds(ts[i + 1..], EndOf(ts[i]), hi);
    assert ts[i..i + 1] == [ts[i]];
  }

  lemma ApartJoin(a: seq<Tile>, b: seq<Tile>)
    requires Apart(a) && Apart(b) && (a == [] || b == [] || a[|a| - 1].used || b[0].used)
    ensures Apart(a + b)
  {
  }

  lemma ApartPart(ts: seq<Tile>, i: nat, j: nat)
    requires Apart(ts) && i <= j <= |ts|
    ensures Apart(ts[i..j])
  {
    assert forall k :: 0 <= k < j - i ==> ts[i..j][k] == ts[i + k];
  }

  lemma MultipleSum(a: int, b: int, m: nat)
    requires Multiple(a, m) && Multiple(b, m)
    ensures Multiple(a + b, m)
  {
    var x, y, z, r := a / m, b / m, (a + b) / m, (a + b) % m;
    assert a == m * x && b == m * y;
    assert a + b == m * z + r;
    Distribute(m, x, y);
    Distribute(m, x + y, 0 - z);
    assert m * (0 - z) == 0 - m * z;
    var d := x + y - z;
    assert m * d == r;
    assert d >= 1 ==> m * d >= m;
    assert d <= -1 ==> m * d <= 0 - m;
  }

  // ---- alloc

  /** The tiles of a free chunk from whose end `n` bytes are taken. */
  function Cut(t: Tile, n: nat): seq<Tile>
    requires n <= t.size
  {
    (if t.size == n then [] else [Tile(t.pos, t.size - n, false)]) + [Tile(EndOf(t) - n, n, true)]
  }

  lemma CutTiling(t: Tile, n: nat)
    requires 0 < n <= t.size
    ensures Tiling(Cut(t, n), t.pos, EndOf(t)) && Apart(Cut(t, n))
    ensures Cut(t, n)[|Cut(t, n)| - 1].used
    ensures !Cut(t, n)[0].used || t.size == n
    ensures forall x :: x in Cut(t, n) <==>
                          x == Tile(EndOf(t) - n, n, true) || (t.size > n && x == Tile(t.pos, t.size - n, false))
  {
    var free, used := Tile(t.pos, t.size - n, false), Tile(EndOf(t) - n, n, true);
    if t.size == n {
      assert Cut(t, n) == [used] && [used][1..] == [];
    } else {
      assert Cut(t, n) == [free, used] && [free, used][1..] == [used] && [used][1..] == [];
    }
  }

  lemma AllocTiles(ts: seq<Tile>, lo: nat, hi: nat, i: nat, n: nat)
    requires Tiling(ts, lo, hi) && Apart(ts) && i < |ts| && !ts[i].used && 0 < n <= ts[i].size
    ensures var r := Replace(ts, i, i + 1, Cut(ts[i], n)); Tiling(r, lo, hi) && Apart(r)
  {
    hide Tiling;
    var mid := Cut(ts[i], n);
    CutTiling(ts[i], n);
    ReplaceTiling(ts, i, i + 1, mid, lo, hi);
    hide Cut;
    ApartPart(ts, 0, i);
    ApartPart(ts, i + 1, |ts|);
    if i > 0 {
      assert ts[i - 1].used;
    }
    ApartJoin(ts[..i], mid);
    ApartJoin(ts[..i] + mid, ts[i + 1..]);
  }

  lemma AllocAligned(ts: seq<Tile>, lo: nat, hi: nat, alignment: nat, i: nat, n: nat)
    requires Tiling(ts, lo, hi) && Aligned(ts, hi, alignment)
    requires i < |ts| && 0 < n <= ts[i].size && Multiple(n, alignment)
    ensures Aligned(Replace(ts, i, i + 1, Cut(ts[i], n)), hi, alignment)
    ensures Multiple(hi - (EndOf(ts[i]) - n), alignment)
  {
    hide Tiling, Multiple;
    CutTiling(ts[i], n);
    ReplaceMembers(ts, i, i + 1, Cut(ts[i], n), lo, hi);
    MultipleSum(hi - EndOf(ts[i]), n, alignment);
  }

  lemma AllocMatches(ts: seq<Tile>, lo: nat, hi: nat, free: map<nat, nat>, used: map<nat, nat>, i: nat, n: nat)
    requires Tiling(ts, lo, hi) && Matches(ts, free, used, false)
    requires i < |ts| && !ts[i].used && 0 < n <= ts[i].size
    ensures EndOf(ts[i]) - n !in used
    ensures Matches(Replace(ts, i, i + 1, Cut(ts[i], n)),
                    if ts[i].size == n then free - {ts[i].pos} else free[ts[i].pos := ts[i].size - n],
                    used[EndOf(ts[i]) - n := n], false)
  {
    hide Tiling, Replace, Cut;
    var t, r := ts[i], Replace(ts, i, i + 1, Cut(ts[i], n));
    CutTiling(t, n);
    ReplaceMembers(ts, i, i + 1, Cut(t, n), lo, hi);
    forall x | x in ts && t.pos <= x.pos < EndOf(t) ensures x == t {
      NoneInside(ts, i, x, lo, hi);
    }
    assert t == Tile(t.pos, t.size, false);
    FreshKey(ts, free, used, EndOf(t) - n);
  }

  lemma FreshKey(ts: seq<Tile>, free: map<nat, nat>, used: map<nat, nat>, q: nat)
    requires Matches(ts, free, used, false)
    ensures q in used ==> exists x :: x in ts && x.pos == q && x.used
  {
    if q in used {
      assert Tile(q, used[q], true) in ts;
    }
  }

  // ---- free

  /** A used tile becomes free. */
  function Marked(ts: seq<Tile>, i: nat): seq<Tile>
    requires i < |ts|
  {
    ts[i := ts[i].(used := false)]
  }

  /** Tile `i`, free, is joined with the free tile behind it. */
  function Joined(ts: seq<Tile>, i: nat): seq<Tile>
    requires i + 1 < |ts|
  {
    Replace(ts, i, i + 2, [Tile(ts[i].pos, ts[i].size + ts[i + 1].size, false)])
  }

  lemma SameEnds(ts: seq<Tile>, i: nat, lo: nat, hi: nat)
    requires Tiling(ts, lo, hi) && i + 1 < |ts|
    ensures EndOf(ts[i]) == ts[i + 1].pos
  {
    TilingSplit(ts, i, lo, hi);
    assert ts[i..][1..] == ts[i + 1..];
  }

  lemma OneTiling(t: Tile)
    requires t.size > 0
    ensures Tiling([t], t.pos, EndOf(t))
  {
    assert [t][1..] == [];
  }

  lemma MarkTiles(ts: seq<Tile>, i: nat, lo: nat, hi: nat, alignment: nat)
    requires Tiling(ts, lo, hi) && Aligned(ts, hi, alignment) && i < |ts|
    ensures Tiling(Marked(ts, i), lo, hi) && Aligned(Marked(ts, i), hi, alignment)
  {
    hide Tiling, Multiple;
    var t := ts[i].(used := false);
    TilingBounds(ts, lo, hi);
    OneTiling(t);
    ReplaceTiling(ts, i, i + 1, [t], lo, hi);
    assert Marked(ts, i) == Replace(ts, i, i + 1, [t]);
  }

  lemma MarkMatches(ts: seq<Tile>, i: nat, lo: nat, hi: nat, free: map<nat, nat>, used: map<nat, nat>)
    requires Tiling(ts, lo, hi) && Matches(ts, free, used, false) && i < |ts| && ts[i].used
    ensures ts[i].pos in used && used[ts[i].pos] == ts[i].size
    ensures ts[i].pos !in free
    ensures Matches(Marked(ts, i), free[ts[i].pos := ts[i].size], used - {ts[i].pos}, false)
  {
    hide Tiling;
    var t := ts[i];
    var u := t.(used := false);
    TilingBounds(ts, lo, hi);
    ReplaceMembers(ts, i, i + 1, [u], lo, hi);
    assert Marked(ts, i) == Replace(ts, i, i + 1, [u]);
    forall x | x in ts && t.pos <= x.pos < EndOf(t) ensures x == t {
      NoneInside(ts, i, x, lo, hi);
    }
    assert t == Tile(t.pos, t.size, true);
    FreeIsTile(ts, free, used, t.pos);
    hide Replace, Marked;
  }

  lemma FreeIsTile(ts: seq<Tile>, free: map<nat, nat>, used: map<nat, nat>, q: nat)
    requires Matches(ts, free, used, false)
    ensures q in free ==> exists x :: x in ts && x.pos == q && !x.used && x.size == free[q]
  {
    if q in free {
      assert free[q] > 0;
      assert Tile(q, free[q], false) in ts;
    }
  }

  lemma JoinTiles(ts: seq<Tile>, i: nat, lo: nat, hi: nat, alignment: nat)
    requires Tiling(ts, lo, hi) && Aligned(ts, hi, alignment) && i + 1 < |ts|
    ensures Tiling(Joined(ts, i), lo, hi) && Aligned(Joined(ts, i), hi, alignment)
  {
    hide Tiling, Multiple;
    var t := Tile(ts[i].pos, ts[i].size + ts[i + 1].size, false);
    SameEnds(ts, i, lo, hi);
    TilingBounds(ts, lo, hi);
    OneTiling(t);
    ReplaceTiling(ts, i, i + 2, [t], lo, hi);
    ReplaceMembers(ts, i, i + 2, [t], lo, hi);
    assert EndOf(t) == EndOf(ts[i + 1]) && ts[i + 1] in ts;
  }

  lemma JoinMatches(ts: seq<Tile>, i: nat, lo: nat, hi: nat, free: map<nat, nat>, used: map<nat, nat>)
    requires Tiling(ts, lo, hi) && Matches(ts, free, used, false)
    requires i + 1 < |ts| && !ts[i].used && !ts[i + 1].used
    ensures ts[i].pos in free && free[ts[i].pos] == ts[i].size
    ensures ts[i + 1].pos in free && free[ts[i + 1].pos] == ts[i + 1].size
    ensures ts[i].pos < ts[i + 1].pos == EndOf(ts[i])
    ensures Matches(Joined(ts, i), (free - {ts[i + 1].pos})[ts[i].pos := ts[i].size + ts[i + 1].size], used, false)
  {
    hide Tiling;
    var a, b := ts[i], ts[i + 1];
    var t := Tile(a.pos, a.size + b.size, false);
    SameEnds(ts, i, lo, hi);
    TilingBounds(ts, lo, hi);
    ReplaceMembers(ts, i, i + 2, [t], lo, hi);
    forall x | x in ts && a.pos <= x.pos < EndOf(b) ensures x == a || x == b {
      if x.pos < EndOf(a) {
        NoneInside(ts, i, x, lo, hi);
      } else {
        NoneInside(ts, i + 1, x, lo, hi);
      }
    }
    assert a == Tile(a.pos, a.size, false) && b == Tile(b.pos, b.size, false);
    hide Replace;
  }

  /** Neighbours of tile `i` aside, no two free tiles are next to each other. */
  ghost predicate ApartBut(ts: seq<Tile>, i: int, before: bool) {
    forall k :: 0 <= k < |ts| - 1 ==> ts[k].used || ts[k + 1].used || k == i || (before && k + 1 == i)
  }

  lemma JoinApart(ts: seq<Tile>, i: nat, k: int, before: bool)
    requires i + 1 < |ts| && !ts[i].used && !ts[i + 1].used
    requires (k == i && !before && ApartBut(ts, i, false)) || (k == i + 1 && before && ApartBut(ts, k, true))
    ensures before ==> ApartBut(Joined(ts, i), i, false)
    ensures !before ==> Apart(Joined(ts, i))
  {
    var r := Joined(ts, i);
    assert forall j :: 0 <= j < |r| ==>
             r[j] == (if j < i then ts[j]
                      else if j == i then Tile(ts[i].pos, ts[i].size + ts[i + 1].size, false)
                      else ts[j + 1]);
  }

  // ---- The arena

  predicate PowerOfTwo(n: nat) {
    n == 1 || (n > 1 && n % 2 == 0 && PowerOfTwo(n / 2))
  }

  /** align_up, on size_t: for a power of two, clearing the low bits is subtracting the remainder. */
  function AlignUp(x: nat, align: nat): (r: nat)
    requires align > 0
    ensures Multiple(r, align)
  {
    var y := (x + align - 1) % SIZE_T;
    RoundedDown(y, align);
    y - y % align
  }

  /** The least multiple of the alignment that is not below `x`, unless the sum leaves size_t. */
  lemma AlignUpIs(x: nat, align: nat)
    requires align > 0 && x + align - 1 < 0x1_0000_0000_0000_0000
    ensures x <= AlignUp(x, align) < x + align && AlignUp(x, align) % align == 0
  {
  }

  /** The space at `ptr` is the end of the free chunk at `p`, the first in address order that has `n` bytes. */
  ghost predicate TakenFrom(free: map<nat, nat>, p: nat, n: nat, ptr: nat)
    requires p in free
  {
    free[p] >= n && ptr == p + free[p] - n && forall q :: q in free && q < p ==> free[q] < n
  }

  lemma RoundedDown(y: nat, align: nat)
    requires align > 0
    ensures Multiple(y - y % align, align) && y - y % align >= 0
  {
    var q := y / align;
    assert y == align * q + y % align;
    MultipleOf(align, q);
  }

  lemma {:induction false} MultipleOf(m: nat, q: nat)
    requires m > 0
    ensures Multiple(m * q, m) && m * q >= 0
  {
    if q > 0 {
      MultipleOf(m, q - 1);
      MultipleSum(m * (q - 1), m, m);
      Distribute(m, q - 1, 1);
    }
  }

  datatype Stats = Stats(used: int, free: int, total: int, chunksUsed: nat, chunksFree: nat)

  class Arena {
    const base: nat
    const end: nat
    const alignment: nat
    var chunksFree: map<nat, nat>
    var chunksUsed: map<nat, nat>

    /** The chunks of both maps in address order. */
    ghost var tiles: seq<Tile>

    /** The chunks partition [base, end), and no two free ones are adjacent. */
    ghost predicate Valid()
      reads this
    {
      && 0 < base <= end
      && Tiling(tiles, base, end) && Apart(tiles) && Aligned(tiles, end, alignment)
      && Matches(tiles, chunksFree, chunksUsed, base == end)
      && alignment > 0
    }

    constructor (base_in: nat, size_in: nat, alignment_in: nat)
      requires 0 < base_in && base_in + size_in < SIZE_T && PowerOfTwo(alignment_in)
      ensures Valid() && base == base_in && end == base_in + size_in && alignment == alignment_in
      ensures chunksFree == map[base := size_in] && chunksUsed == map[]
    {
      base, end, alignment := base_in, base_in + size_in, alignment_in;
      chunksFree, chunksUsed := map[base_in := size_in], map[];
      tiles := if size_in == 0 then [] else [Tile(base_in, size_in, false)];
      new;
      FirstTile(base, size_in, alignment);
    }

    /** alloc: fails exactly when nothing is asked for or no free chunk is large enough. What it returns lies in the
        region, and is aligned when the end of the region is. */
    method Alloc(size: nat) returns (ptr: nat)
      requires Valid()
      modifies this
      ensures Valid()
      ensures ptr == 0 <==> AlignUp(size, alignment) == 0
                            || forall p :: p in old(chunksFree) ==> old(chunksFree)[p] < AlignUp(size, alignment)
      ensures ptr == 0 ==> chunksFree == old(chunksFree) && chunksUsed == old(chunksUsed)
      ensures ptr != 0 ==> base <= ptr && ptr + AlignUp(size, alignment) <= end && Multiple(end - ptr, alignment)
      ensures ptr != 0 ==>
                exists p :: p in old(chunksFree) && TakenFrom(old(chunksFree), p, AlignUp(size, alignment), ptr)
      ensures ptr != 0 ==> ptr !in old(chunksUsed) && chunksUsed == old(chunksUsed)[ptr := AlignUp(size, alignment)]
    {
      hide Tiling, Apart, Aligned, Matches, Replace, Cut, AlignUp, Multiple;
      var n := AlignUp(size, alignment);
      if n == 0 {
        return 0;
      }
      var found, it := FirstFit(n);
      if !found {
        return 0;
      }
      var i := TileAt(tiles, chunksFree, chunksUsed, base, end, it, n);
      ptr := it + chunksFree[it] - n;
      assert TakenFrom(chunksFree, it, n, ptr);
      AllocTiles(tiles, base, end, i, n);
      AllocAligned(tiles, base, end, alignment, i, n);
      AllocMatches(tiles, base, end, chunksFree, chunksUsed, i, n);
      TilingBounds(tiles, base, end);
      tiles := Replace(tiles, i, i + 1, Cut(tiles[i], n));
      chunksUsed := chunksUsed[ptr := n];
      if chunksFree[it] == n {
        chunksFree := chunksFree - {it};
      } else {
        chunksFree := chunksFree[it := chunksFree[it] - n];
      }
    }

    /** find_if over the free chunks in address order. */
    method FirstFit(n: nat) returns (found: bool, it: nat)
      ensures found <==> exists p :: p in chunksFree && chunksFree[p] >= n
      ensures found ==> it in chunksFree && chunksFree[it] >= n
                        && forall p :: p in chunksFree && chunksFree[p] >= n ==> it <= p
    {
      found, it := false, 0;
      var rest := chunksFree;
      while rest != map[]
        invariant forall p :: p in rest ==> p in chunksFree && rest[p] == chunksFree[p]
        invariant found ==> it in chunksFree && chunksFree[it] >= n
        invariant forall p :: p in chunksFree && p !in rest && chunksFree[p] >= n ==> found && it <= p
        decreases |rest|
      {
        SomeChunk(rest);
        var p: nat :| p in rest;
        if rest[p] >= n && (!found || p < it) {
          found, it := true, p;
        }
        MapShrinks(rest, p);
        rest := rest - {p};
      }
    }

    /** upper_bound in the map of free chunks. */
    method UpperBound(key: nat) returns (found: bool, next: nat)
      ensures found <==> exists p :: p in chunksFree && p > key
      ensures found ==> next in chunksFree && next > key && forall p :: p in chunksFree && p > key ==> next <= p
    {
      found, next := false, 0;
      var rest := chunksFree;
      while rest != map[]
        invariant forall p :: p in rest ==> p in chunksFree
        invariant found ==> next in chunksFree && next > key
        invariant forall p :: p in chunksFree && p !in rest && p > key ==> found && next <= p
        decreases |rest|
      {
        SomeChunk(rest);
        var p: nat :| p in rest;
        if p > key && (!found || p < next) {
          found, next := true, p;
        }
        MapShrinks(rest, p);
        rest := rest - {p};
      }
    }

    /** The entry before the one upper_bound finds. */
    method Previous(key: nat) returns (found: bool, prev: nat)
      ensures found <==> exists p :: p in chunksFree && p <= key
      ensures found ==> prev in chunksFree && prev <= key && forall p :: p in chunksFree && p <= key ==> p <= prev
    {
      found, prev := false, 0;
      var rest := chunksFree;
      while rest != map[]
        invariant forall p :: p in rest ==> p in chunksFree
        invariant found ==> prev in chunksFree && prev <= key
        invariant forall p :: p in chunksFree && p !in rest && p <= key ==> found && p <= prev
        decreases |rest|
      {
        SomeChunk(rest);
        var p: nat :| p in rest;
        if p <= key && (!found || p > prev) {
          found, prev := true, p;
        }
        MapShrinks(rest, p);
        rest := rest - {p};
      }
    }

    /** free: false, and nothing changed, where the source throws. What becomes free is exactly the chunk; that free
        chunks are joined is part of Valid. */
    method Free(ptr: nat) returns (ok: bool)
      requires Valid()
      modifies this
      ensures Valid()
      ensures ok <==> ptr == 0 || ptr in old(chunksUsed)
      ensures !ok || ptr == 0 ==> chunksFree == old(chunksFree) && chunksUsed == old(chunksUsed)
      ensures ok && ptr != 0 ==> chunksUsed == old(chunksUsed) - {ptr}
    {
      if ptr == 0 {
        return true;
      }
      if ptr !in chunksUsed {
        return false;
      }
      hide Tiling, Apart, Aligned, Matches, Marked, Joined, ApartBut, Multiple;
      var size := chunksUsed[ptr];
      ghost var i := UsedTileAt(tiles, chunksFree, chunksUsed, base, end, ptr);
      ghost var used := chunksUsed;
      chunksUsed := chunksUsed - {ptr};
      Coalesce(i, ptr, size, used);
      return true;
    }

    /** stats: whatever was allocated and freed, used and free bytes add up to the region. */
    method GetStats() returns (r: Stats)
      requires Valid()
      ensures r.used == MapSum(AsInts(chunksUsed)) && r.free == MapSum(AsInts(chunksFree))
      ensures r.total == r.used + r.free == end - base
      ensures r.chunksUsed == |chunksUsed| && r.chunksFree == |chunksFree|
    {
      hide Tiling, Apart, Aligned, Matches, MapSum, Multiple;
      var used := SumSizes(chunksUsed);
      var free := SumSizes(chunksFree);
      SumOfTiles(tiles, base, end, chunksFree, chunksUsed, base == end);
      return Stats(used, free, used + free, |chunksUsed|, |chunksFree|);
    }

    /** Adds the freed chunk to the free map and joins it with the free chunks around it. */
    method Coalesce(ghost k: nat, pos: nat, size: nat, ghost used: map<nat, nat>)
      requires 0 < base < end && alignment > 0
      requires Tiling(tiles, base, end) && Apart(tiles) && Aligned(tiles, end, alignment) && k < |tiles|
      requires tiles[k] == Tile(pos, size, true)
      requires Matches(tiles, chunksFree, used, false) && chunksUsed == used - {pos}
      modifies this`chunksFree, this`tiles
      ensures Valid()
    {
      hide Tiling, Apart, Aligned, Matches, Marked, Joined, ApartBut, Multiple;
      ghost var ts, i := Marked(tiles, k), k;
      var hasNext, next := UpperBound(pos);
      var hasPrev, prev := Previous(pos);
      MarkTiles(tiles, k, base, end, alignment);
      MarkMatches(tiles, k, base, end, chunksFree, used);
      MarkedAt(tiles, k);
      PreviousTile(tiles, k, base, end, chunksFree, used, hasPrev, prev);
      NextTile(tiles, k, base, end, chunksFree, used, hasNext, next);
      if hasPrev && prev + chunksFree[prev] == pos {
        JoinTiles(ts, k - 1, base, end, alignment);
        JoinMatches(ts, k - 1, base, end, chunksFree[pos := size], chunksUsed);
        JoinApart(ts, k - 1, k, true);
        JoinedAt(ts, k - 1);
        JoinedMap(chunksFree, prev, pos, size);
        chunksFree := chunksFree[prev := chunksFree[prev] + size];
        ts, i := Joined(ts, k - 1), k - 1;
      } else {
        ApartLeft(ts, k);
        chunksFree := chunksFree[pos := size];
        prev := pos;
      }
      if hasNext && prev + chunksFree[prev] == next {
        JoinTiles(ts, i, base, end, alignment);
        JoinMatches(ts, i, base, end, chunksFree, chunksUsed);
        JoinApart(ts, i, i, false);
        SwapUpdate(chunksFree, prev, next, chunksFree[prev] + chunksFree[next]);
        chunksFree := chunksFree[prev := chunksFree[prev] + chunksFree[next]];
        chunksFree := chunksFree - {next};
        ts := Joined(ts, i);
      } else {
        ApartRight(ts, i);
      }
      tiles := ts;
    }
  }

  // ---- Facts the methods use

  lemma SomeChunk(m: map<nat, nat>)
    requires m != map[]
    ensures exists p: nat :: p in m
  {
    assert m.Keys != {};
  }

  lemma FirstTile(base: nat, size: nat, alignment: nat)
    requires PowerOfTwo(alignment)
    ensures alignment > 0
    ensures var ts := if size == 0 then [] else [Tile(base, size, false)];
            && Tiling(ts, base, base + size) && Apart(ts) && Aligned(ts, base + size, alignment)
            && Matches(ts, map[base := size], map[], size == 0)
  {
    var t := Tile(base, size, false);
    AlignmentPositive(alignment);
    if size > 0 {
      OneTiling(t);
      assert EndOf(t) == base + size;
    }
    hide PowerOfTwo;
    assert Multiple(0, alignment);
  }

  lemma AlignmentPositive(n: nat)
    requires PowerOfTwo(n)
    ensures n > 0
  {
  }

  lemma TileAt(ts: seq<Tile>, free: map<nat, nat>, used: map<nat, nat>, lo: nat, hi: nat, it: nat, n: nat)
    returns (i: nat)
    requires Tiling(ts, lo, hi) && Matches(ts, free, used, lo == hi) && it in free && free[it] >= n > 0
    ensures i < |ts| && ts[i] == Tile(it, free[it], false) && lo < hi
  {
    assert Tile(it, free[it], false) in ts;
    i :| 0 <= i < |ts| && ts[i] == Tile(it, free[it], false);
    TilingBounds(ts, lo, hi);
  }

  lemma UsedTileAt(ts: seq<Tile>, free: map<nat, nat>, used: map<nat, nat>, lo: nat, hi: nat, ptr: nat) returns (i: nat)
    requires Tiling(ts, lo, hi) && Matches(ts, free, used, lo == hi) && ptr in used
    ensures i < |ts| && ts[i] == Tile(ptr, used[ptr], true) && lo < hi
  {
    assert Tile(ptr, used[ptr], true) in ts;
    i :| 0 <= i < |ts| && ts[i] == Tile(ptr, used[ptr], true);
    TilingBounds(ts, lo, hi);
  }

  lemma MarkedAt(ts: seq<Tile>, k: nat)
    requires k < |ts| && Apart(ts)
    ensures |Marked(ts, k)| == |ts| && Marked(ts, k)[k] == Tile(ts[k].pos, ts[k].size, false)
    ensures forall i :: 0 <= i < |ts| && i != k ==> Marked(ts, k)[i] == ts[i]
    ensures ApartBut(Marked(ts, k), k, true)
  {
  }

  lemma JoinedAt(ts: seq<Tile>, i: nat)
    requires i + 1 < |ts|
    ensures |Joined(ts, i)| == |ts| - 1
    ensures Joined(ts, i)[i] == Tile(ts[i].pos, ts[i].size + ts[i + 1].size, false)
    ensures forall j :: i < j < |ts| - 1 ==> Joined(ts, i)[j] == ts[j + 1]
  {
  }

  lemma JoinedMap(free: map<nat, nat>, prev: nat, pos: nat, size: nat)
    requires pos !in free && prev in free
    ensures (free[pos := size] - {pos})[prev := free[prev] + size] == free[prev := free[prev] + size]
  {
  }

  lemma SwapUpdate(free: map<nat, nat>, prev: nat, next: nat, n: nat)
    requires prev != next
    ensures (free - {next})[prev := n] == free[prev := n] - {next}
  {
  }

  lemma ApartLeft(ts: seq<Tile>, k: nat)
    requires ApartBut(ts, k, true) && (k == 0 || (k < |ts| && ts[k - 1].used))
    ensures ApartBut(ts, k, false)
  {
  }

  lemma ApartRight(ts: seq<Tile>, i: nat)
    requires ApartBut(ts, i, false) && (i + 1 < |ts| ==> ts[i + 1].used)
    ensures Apart(ts)
  {
  }

  /** The entry before the freed chunk ends where it starts exactly when the tile before it is free. */
  lemma PreviousTile(ts: seq<Tile>, k: nat, lo: nat, hi: nat, free: map<nat, nat>, used: map<nat, nat>, found: bool,
                     prev: nat)
    requires Tiling(ts, lo, hi) && Matches(ts, free, used, false) && k < |ts| && ts[k].used
    requires found <==> exists p :: p in free && p <= ts[k].pos
    requires found ==> prev in free && prev <= ts[k].pos && forall p :: p in free && p <= ts[k].pos ==> p <= prev
    ensures found && prev + free[prev] == ts[k].pos <==> k > 0 && !ts[k - 1].used
    ensures found && prev + free[prev] == ts[k].pos ==> prev == ts[k - 1].pos && free[prev] == ts[k - 1].size
  {
    hide Tiling;
    TilingBounds(ts, lo, hi);
    if found {
      var i := TileAt(ts, free, used, lo, hi, prev, free[prev]);
      Order(ts, i, k, lo, hi);
      if k > 0 {
        Order(ts, i, k - 1, lo, hi);
      }
    }
    if k > 0 {
      SameEnds(ts, k - 1, lo, hi);
      assert ts[k - 1] in ts;
      if !ts[k - 1].used {
        assert ts[k - 1] == Tile(ts[k - 1].pos, ts[k - 1].size, false);
      }
    }
  }

  /** Where two tiles stand tells which comes first; only neighbours touch. */
  lemma Order(ts: seq<Tile>, i: nat, k: nat, lo: nat, hi: nat)
    requires Tiling(ts, lo, hi) && i < |ts| && k < |ts|
    ensures i < k ==> EndOf(ts[i]) <= ts[k].pos && (EndOf(ts[i]) == ts[k].pos <==> i + 1 == k)
    ensures k < i ==> EndOf(ts[k]) <= ts[i].pos
  {
    hide Tiling;
    TilingBounds(ts, lo, hi);
    if i < k {
      Around(ts, i, i + 1, lo, hi);
      TilingBounds(ts[i + 1..], EndOf(ts[i]), hi);
      assert ts[i + 1..][k - i - 1] == ts[k];
      SameEnds(ts, i, lo, hi);
      if i + 1 < k {
        assert ts[i + 1..][0] == ts[i + 1];
        Around(ts, i + 1, i + 2, lo, hi);
        TilingBounds(ts[i + 2..], EndOf(ts[i + 1]), hi);
        assert ts[i + 2..][k - i - 2] == ts[k];
      }
    } else if k < i {
      Around(ts, k, k + 1, lo, hi);
      TilingBounds(ts[k + 1..], EndOf(ts[k]), hi);
      assert ts[k + 1..][i - k - 1] == ts[i];
    }
  }

  lemma NextTile(ts: seq<Tile>, k: nat, lo: nat, hi: nat, free: map<nat, nat>, used: map<nat, nat>, found: bool,
                 next: nat)
    requires Tiling(ts, lo, hi) && Matches(ts, free, used, false) && k < |ts| && ts[k].used
    requires found <==> exists p :: p in free && p > ts[k].pos
    requires found ==> next in free && next > ts[k].pos && forall p :: p in free && p > ts[k].pos ==> next <= p
    ensures found && next == EndOf(ts[k]) <==> k + 1 < |ts| && !ts[k + 1].used
    ensures found && next == EndOf(ts[k]) ==> next == ts[k + 1].pos && free[next] == ts[k + 1].size
  {
    hide Tiling;
    TilingBounds(ts, lo, hi);
    if found {
      var i := TileAt(ts, free, used, lo, hi, next, free[next]);
      Order(ts, k, i, lo, hi);
      Order(ts, i, k, lo, hi);
    }
    if k + 1 < |ts| {
      SameEnds(ts, k, lo, hi);
      if !ts[k + 1].used {
        assert ts[k + 1] == Tile(ts[k + 1].pos, ts[k + 1].size, false);
      }
    }
  }

  // ---- What is free depends only on what is used

  /** Two arrangements of one region with the same used chunks are the same. */
  lemma {:induction false} SameUsedSameTiles(ts: seq<Tile>, us: seq<Tile>, lo: nat, hi: nat)
    requires Tiling(ts, lo, hi) && Tiling(us, lo, hi) && Apart(ts) && Apart(us)
    requires forall x: Tile :: x.used ==> (x in ts <==> x in us)
    ensures ts == us
  {
    TilingBounds(ts, lo, hi);
    TilingBounds(us, lo, hi);
    if ts != [] {
      FirstSame(ts, us, lo, hi);
      FirstSame(us, ts, lo, hi);
      var t := ts[0];
      TilingBounds(ts[1..], EndOf(t), hi);
      TilingBounds(us[1..], EndOf(t), hi);
      assert ts == [t] + ts[1..] && us == [t] + us[1..];
      ApartPart(ts, 1, |ts|);
      ApartPart(us, 1, |us|);
      SameUsedSameTiles(ts[1..], us[1..], EndOf(t), hi);
    }
  }

  lemma FirstSame(ts: seq<Tile>, us: seq<Tile>, lo: nat, hi: nat)
    requires Tiling(ts, lo, hi) && Tiling(us, lo, hi) && ts != [] && us != [] && Apart(ts)
    requires forall x: Tile :: x.used ==> (x in ts <==> x in us)
    ensures ts[0].used ==> us[0] == ts[0]
    ensures !us[0].used && !ts[0].used ==> EndOf(ts[0]) >= EndOf(us[0])
    ensures ts[0].pos == us[0].pos == lo
  {
    TilingBounds(us, lo, hi);
    if ts[0].used {
      NoneInside(us, 0, ts[0], lo, hi);
    } else if EndOf(ts[0]) < EndOf(us[0]) {
      assert |ts| > 1;
      SameEnds(ts, 0, lo, hi);
      assert ts[1].used;
      NoneInside(us, 0, ts[1], lo, hi);
    }
  }

  /** The free chunks do not depend on the order of the calls that led to the used ones. */
  lemma FreeFollowsUsed(a: Arena, b: Arena)
    requires a.Valid() && b.Valid() && a.base == b.base < a.end == b.end
    requires a.chunksUsed == b.chunksUsed
    ensures a.chunksFree == b.chunksFree
  {
    MatchesSame(a.tiles, b.tiles, a.base, a.end, a.chunksFree, b.chunksFree, a.chunksUsed);
  }

  lemma MatchesSame(ts: seq<Tile>, us: seq<Tile>, lo: nat, hi: nat, f: map<nat, nat>, g: map<nat, nat>,
                    used: map<nat, nat>)
    requires Tiling(ts, lo, hi) && Tiling(us, lo, hi) && Apart(ts) && Apart(us)
    requires Matches(ts, f, used, false) && Matches(us, g, used, false)
    ensures f == g
  {
    hide Tiling, Apart;
    forall x: Tile | x.used ensures x in ts <==> x in us {
      assert x == Tile(x.pos, x.size, true);
    }
    SameUsedSameTiles(ts, us, lo, hi);
    forall p: nat ensures p in f <==> p in g
    {
      assert p in f ==> Tile(p, f[p], false) in ts;
      assert p in g ==> Tile(p, g[p], false) in us;
    }
    forall p: nat | p in f ensures f[p] == g[p] {
      assert Tile(p, f[p], false) in ts;
    }
  }

  /** When nothing is used any more, the single chunk of the beginning is back. */
  lemma AllFreed(a: Arena)
    requires a.Valid() && a.chunksUsed == map[] && a.base < a.end
    ensures a.chunksFree == map[a.base := a.end - a.base]
  {
    var t := Tile(a.base, a.end - a.base, false);
    OneTiling(t);
    MatchesSame(a.tiles, [t], a.base, a.end, a.chunksFree, map[a.base := a.end - a.base], a.chunksUsed);
  }

  // ---- Adding up sizes

  function AsInts(m: map<nat, nat>): map<nat, int> {
    map p | p in m :: m[p] as int
  }

  method SumSizes(m: map<nat, nat>) returns (sum: int)
    ensures sum == MapSum(AsInts(m))
  {
    hide MapSum;
    sum := 0;
    var rest: map<nat, nat> := m;
    while rest != map[]
      invariant sum + MapSum(AsInts(rest)) == MapSum(AsInts(m))
      decreases |rest|
    {
      SomeChunk(rest);
      var p: nat :| p in rest;
      MapShrinks(rest, p);
      SumLess(rest, p);
      sum := sum + rest[p];
      rest := rest - {p};
    }
    NothingToSum();
  }

  lemma NothingToSum()
    ensures MapSum(AsInts(map[])) == 0
  {
    assert AsInts(map[]) == map[];
  }

  lemma SumLess(m: map<nat, nat>, p: nat)
    requires p in m
    ensures MapSum(AsInts(m)) == m[p] + MapSum(AsInts(m - {p}))
  {
    hide MapSum;
    SumOut(AsInts(m), p);
    assert AsInts(m) - {p} == AsInts(m - {p});
  }

  lemma {:induction false} SumOfTiles(ts: seq<Tile>, lo: nat, hi: nat, free: map<nat, nat>, used: map<nat, nat>,
                                      empty: bool)
    requires Tiling(ts, lo, hi) && Matches(ts, free, used, empty)
    ensures MapSum(AsInts(free)) + MapSum(AsInts(used)) == hi - lo
    decreases |ts|
  {
    hide MapSum, Matches;
    if ts == [] {
      NoTiles(free, used, empty);
    } else {
      var t := ts[0];
      FirstOut(ts, lo, hi, free, used, empty);
      if t.used {
        SumLess(used, lo);
        SumOfTiles(ts[1..], EndOf(t), hi, free, used - {lo}, empty);
      } else {
        SumLess(free, lo);
        SumOfTiles(ts[1..], EndOf(t), hi, free - {lo}, used, empty);
      }
    }
  }

  /** Without the first tile, the maps without its entry. */
  lemma FirstOut(ts: seq<Tile>, lo: nat, hi: nat, free: map<nat, nat>, used: map<nat, nat>, empty: bool)
    requires Tiling(ts, lo, hi) && Matches(ts, free, used, empty) && ts != []
    ensures Tiling(ts[1..], EndOf(ts[0]), hi) && ts[0].pos == lo
    ensures ts[0].used ==> lo in used && used[lo] == ts[0].size && Matches(ts[1..], free, used - {lo}, empty)
    ensures !ts[0].used ==> lo in free && free[lo] == ts[0].size && Matches(ts[1..], free - {lo}, used, empty)
  {
    var t := ts[0];
    TilingBounds(ts[1..], EndOf(t), hi);
    hide Tiling;
    assert t == Tile(lo, t.size, t.used);
    assert forall x :: x in ts <==> x == t || x in ts[1..] by {
      assert ts == [t] + ts[1..];
    }
  }

  lemma NoTiles(free: map<nat, nat>, used: map<nat, nat>, empty: bool)
    requires Matches([], free, used, empty)
    ensures MapSum(AsInts(free)) == 0 && MapSum(AsInts(used)) == 0
  {
    forall p: nat ensures p !in used && (p in free ==> free[p] == 0) {
      SomeTile([], free, used, empty, p);
    }
    AllZero(AsInts(used));
    AllZero(AsInts(free));
  }

  lemma SomeTile(ts: seq<Tile>, free: map<nat, nat>, used: map<nat, nat>, empty: bool, p: nat)
    requires Matches(ts, free, used, empty)
    ensures p in used || (p in free && free[p] > 0) ==> ts != []
  {
    assert p in used ==> Tile(p, used[p], true) in ts;
    assert p in free && free[p] > 0 ==> Tile(p, free[p], false) in ts;
  }

  lemma {:induction false} AllZero(m: map<nat, int>)
    requires forall p :: p in m ==> m[p] == 0
    ensures MapSum(m) == 0
    decreases |m|
  {
    if m != map[] {
      var p :| p in m && MapSum(m) == m[p] + MapSum(m - {p});
      MapShrinks(m, p);
      AllZero(m - {p});
    }
  }
}
