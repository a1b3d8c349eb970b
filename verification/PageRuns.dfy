/**
 The page-run allocator of an arena: runs are split off free runs, freed and coalesced, trimmed and aligned.
 The red-black trees are sets of keys; a chunk is named by its index among the chunk-aligned addresses.
 */
module PageRuns {
  import opened Wrappers
  import opened PageTiling
  import Arithmetic

  /** A key of chunks_dirty: the order of that tree depends on the two counters. */
  datatype DirtyKey = DirtyKey(chunk: nat, runsAvail: int, runsAdjacent: int)

  /** Pages of a chunk's header, pages of a chunk, and pages of a run of each bin. */
  datatype Geometry = Geometry(bias: nat, npages: nat, runPages: seq<nat>)

  datatype State = State(chunks: map<nat, Chunk>, avail: set<AvailRun>, dirtyChunks: set<DirtyKey>, ndirty: int)

  // ---------- sums over the chunks ----------

  ghost function Sum(m: map<nat, int>): int
    decreases |m|
  {
    if m == map[] then 0 else
      var c :| c in m;
      m[c] + Sum(m - {c})
  }

  lemma {:induction false} SumDrop(m: map<nat, int>, c: nat)
    requires c in m
    ensures Sum(m) == m[c] + Sum(m - {c})
    decreases |m|
  {
    var d :| d in m && Sum(m) == m[d] + Sum(m - {d});
    if d != c {
      SumDrop(m - {d}, c);
      SumDrop(m - {c}, d);
      assert m - {d} - {c} == m - {c} - {d};
    }
  }

  lemma SumPut(m: map<nat, int>, c: nat, v: int)
    ensures Sum(m[c := v]) == Sum(m) + v - (if c in m then m[c] else 0)
  {
    SumDrop(m[c := v], c);
    if c in m {
      SumDrop(m, c);
      assert m[c := v] - {c} == m - {c};
    } else {
      assert m[c := v] - {c} == m;
    }
  }

  ghost function DirtyCounts(chunks: map<nat, Chunk>): map<nat, int>
  {
    map c | c in chunks :: chunks[c].dirtyPages
  }

  ghost function ActiveCounts(tiles: map<nat, Tile>): map<nat, int>
  {
    map c | c in tiles :: Total(tiles[c], ActivePages)
  }

  lemma DirtyPut(chunks: map<nat, Chunk>, c: nat, ch: Chunk)
    ensures Sum(DirtyCounts(chunks[c := ch])) == Sum(DirtyCounts(chunks)) + ch.dirtyPages - (if c in chunks then chunks[c].dirtyPages else 0)
  {
    assert DirtyCounts(chunks[c := ch]) == DirtyCounts(chunks)[c := ch.dirtyPages];
    SumPut(DirtyCounts(chunks), c, ch.dirtyPages);
  }

  lemma ActivePut(tiles: map<nat, Tile>, c: nat, t: Tile)
    ensures Sum(ActiveCounts(tiles[c := t]))
         == Sum(ActiveCounts(tiles)) + Total(t, ActivePages) - (if c in tiles then Total(tiles[c], ActivePages) else 0)
  {
    assert ActiveCounts(tiles[c := t]) == ActiveCounts(tiles)[c := Total(t, ActivePages)];
    SumPut(ActiveCounts(tiles), c, Total(t, ActivePages));
  }

  // ---------- the state agrees with the tilings ----------

  ghost predicate Sound(ch: Chunk, t: Tile, g: Geometry)
  {
    |ch.bits| == g.npages && Tiled(ch, t, g.bias, g.runPages) && Counted(ch, t)
  }

  ghost predicate AllSound(chunks: map<nat, Chunk>, tiles: map<nat, Tile>, g: Geometry)
  {
    chunks.Keys == tiles.Keys && forall c :: c in chunks ==> Sound(chunks[c], tiles[c], g)
  }

  /** runs_avail is exactly the free runs. */
  ghost predicate AvailExact(avail: set<AvailRun>, tiles: map<nat, Tile>, bias: nat)
  {
    forall e :: e in avail <==> e.chunk in tiles && e in Avail(tiles[e.chunk], bias, e.chunk)
  }

  ghost predicate InDirty(k: DirtyKey, chunks: map<nat, Chunk>)
  {
    k.chunk in chunks && chunks[k.chunk].dirtyPages != 0
    && k.runsAvail == chunks[k.chunk].runsAvail && k.runsAdjacent == chunks[k.chunk].runsAdjacent
  }

  /** chunks_dirty is exactly the chunks with dirty free pages, under their current counters. */
  ghost predicate DirtyExact(keys: set<DirtyKey>, chunks: map<nat, Chunk>)
  {
    forall k :: k in keys <==> InDirty(k, chunks)
  }

  ghost predicate Consistent(s: State, tiles: map<nat, Tile>, g: Geometry)
  {
    AllSound(s.chunks, tiles, g) && AvailExact(s.avail, tiles, g.bias) && DirtyExact(s.dirtyChunks, s.chunks)
    && s.ndirty == Sum(DirtyCounts(s.chunks))
  }

  lemma AvailTaken(avail: set<AvailRun>, tiles: map<nat, Tile>, bias: nat, c: nat, a: Tile, r: Run, b: Tile)
    requires AvailExact(avail, tiles, bias) && c in tiles && tiles[c] == a + [r] + b && r.kind.Free? && 0 < r.pages
    ensures AvailRun(r.pages, c, bias + Len(a)) in avail
    ensures AvailExact(avail - {AvailRun(r.pages, c, bias + Len(a))}, tiles[c := a + [Run(r.pages, Held)] + b], bias)
  {
    hide Avail, Total;
    var e := AvailRun(r.pages, c, bias + Len(a));
    Avail3(a, r, b, bias, c);
    Avail3(a, Run(r.pages, Held), b, bias, c);
    if e in Avail(a, bias, c) {
      AvailRange(a, bias, c, e);
    }
    if e in Avail(b, bias + Len(a) + r.pages, c) {
      AvailRange(b, bias + Len(a) + r.pages, c, e);
    }
  }

  lemma AvailPut(avail: set<AvailRun>, tiles: map<nat, Tile>, bias: nat, c: nat, a: Tile, r: Run, b: Tile)
    requires AvailExact(avail, tiles, bias) && c in tiles && tiles[c] == a + [Run(r.pages, Held)] + b && r.kind.Free? && 0 < r.pages
    ensures AvailExact(avail + {AvailRun(r.pages, c, bias + Len(a))}, tiles[c := a + [r] + b], bias)
  {
    hide Avail, Total;
    Avail3(a, r, b, bias, c);
    Avail3(a, Run(r.pages, Held), b, bias, c);
  }

  /** Removing a chunk from chunks_dirty under its old counters and inserting it under the new ones. */
  function Rekeyed(keys: set<DirtyKey>, c: nat, before: Chunk, after: Chunk): set<DirtyKey>
  {
    keys - (if before.dirtyPages != 0 then {DirtyKey(c, before.runsAvail, before.runsAdjacent)} else {})
    + (if after.dirtyPages != 0 then {DirtyKey(c, after.runsAvail, after.runsAdjacent)} else {})
  }

  lemma RekeyedExact(keys: set<DirtyKey>, chunks: map<nat, Chunk>, c: nat, ch: Chunk)
    requires DirtyExact(keys, chunks) && c in chunks
    ensures DirtyExact(Rekeyed(keys, c, chunks[c], ch), chunks[c := ch])
  {
    forall k
      ensures k in Rekeyed(keys, c, chunks[c], ch) <==> InDirty(k, chunks[c := ch])
    {
      assert k in keys <==> InDirty(k, chunks);
    }
  }

  lemma TakeKeeps(s: State, s': State, tiles: map<nat, Tile>, g: Geometry, c: nat, a: Tile, r: Run, b: Tile)
    requires Consistent(s, tiles, g) && c in tiles && tiles[c] == a + [r] + b && r.kind.Free? && 0 < r.pages
    requires c in s'.chunks && s'.chunks == s.chunks[c := s'.chunks[c]] && Sound(s'.chunks[c], a + [Run(r.pages, Held)] + b, g)
    requires s'.avail == s.avail - {AvailRun(r.pages, c, g.bias + Len(a))}
    requires s'.dirtyChunks == Rekeyed(s.dirtyChunks, c, s.chunks[c], s'.chunks[c])
    requires s'.ndirty - s'.chunks[c].dirtyPages == s.ndirty - s.chunks[c].dirtyPages
    ensures Consistent(s', tiles[c := a + [Run(r.pages, Held)] + b], g)
  {
    hide Sound, Rekeyed, Total, AvailExact, DirtyExact;
    AvailTaken(s.avail, tiles, g.bias, c, a, r, b);
    RekeyedExact(s.dirtyChunks, s.chunks, c, s'.chunks[c]);
    DirtyPut(s.chunks, c, s'.chunks[c]);
  }

  lemma PutKeeps(s: State, s': State, tiles: map<nat, Tile>, g: Geometry, c: nat, a: Tile, r: Run, b: Tile)
    requires Consistent(s, tiles, g) && c in tiles && tiles[c] == a + [Run(r.pages, Held)] + b && r.kind.Free? && 0 < r.pages
    requires c in s'.chunks && s'.chunks == s.chunks[c := s'.chunks[c]] && Sound(s'.chunks[c], a + [r] + b, g)
    requires s'.avail == s.avail + {AvailRun(r.pages, c, g.bias + Len(a))}
    requires s'.dirtyChunks == Rekeyed(s.dirtyChunks, c, s.chunks[c], s'.chunks[c])
    requires s'.ndirty - s'.chunks[c].dirtyPages == s.ndirty - s.chunks[c].dirtyPages
    ensures Consistent(s', tiles[c := a + [r] + b], g)
  {
    hide Sound, Rekeyed, Total, AvailExact, DirtyExact;
    AvailPut(s.avail, tiles, g.bias, c, a, r, b);
    RekeyedExact(s.dirtyChunks, s.chunks, c, s'.chunks[c]);
    DirtyPut(s.chunks, c, s'.chunks[c]);
  }

  lemma ReworkKeeps(s: State, tiles: map<nat, Tile>, g: Geometry, c: nat, bits: seq<Bits>, a: Tile, m: Tile, m': Tile, b: Tile)
    requires Consistent(s, tiles, g) && c in tiles && tiles[c] == a + m + b && Quiet(m) && Quiet(m') && m != [] && m' != []
    requires |bits| == g.npages && Len(m) == Len(m') && Agrees(bits, m', g.bias + Len(a), g.runPages)
    requires forall i :: 0 <= i < |bits| && !(g.bias + Len(a) <= i < g.bias + Len(a) + Len(m)) ==> bits[i] == s.chunks[c].bits[i]
    ensures Consistent(s.(chunks := s.chunks[c := s.chunks[c].(bits := bits)]), tiles[c := a + m' + b], g)
  {
    hide Agrees, Total, Quiet, AvailExact, DirtyExact, Counted, Tiled, Sum, DirtyCounts;
    var ch := s.chunks[c];
    Rework(ch, bits, a, m, m', b, g.bias, g.runPages);
    QuietSwapCounts(ch, a, m, m', b);
    assert Counted(ch, a + m' + b);
    SameCounts(ch, bits, a + m' + b);
    AvailSame(s.avail, tiles, g.bias, c, a, m, m', b);
    DirtySame(s.dirtyChunks, s.chunks, c, bits);
  }

  lemma SameCounts(ch: Chunk, bits: seq<Bits>, t: Tile)
    requires Counted(ch, t)
    ensures Counted(ch.(bits := bits), t)
  {
  }

  lemma AvailSame(avail: set<AvailRun>, tiles: map<nat, Tile>, bias: nat, c: nat, a: Tile, m: Tile, m': Tile, b: Tile)
    requires AvailExact(avail, tiles, bias) && c in tiles && tiles[c] == a + m + b && Quiet(m) && Quiet(m') && Len(m) == Len(m')
    ensures AvailExact(avail, tiles[c := a + m' + b], bias)
  {
    hide Avail, Total;
    QuietAvail(a, m, b, bias, c);
    QuietAvail(a, m', b, bias, c);
  }

  lemma DirtySame(keys: set<DirtyKey>, chunks: map<nat, Chunk>, c: nat, bits: seq<Bits>)
    requires DirtyExact(keys, chunks) && c in chunks
    ensures DirtyExact(keys, chunks[c := chunks[c].(bits := bits)])
    ensures Sum(DirtyCounts(chunks[c := chunks[c].(bits := bits)])) == Sum(DirtyCounts(chunks))
  {
    var chunks' := chunks[c := chunks[c].(bits := bits)];
    assert DirtyCounts(chunks') == DirtyCounts(chunks);
    forall k
      ensures InDirty(k, chunks') == InDirty(k, chunks)
    {
    }
  }

  // ---------- arena_avail_remove and arena_avail_insert ----------

  /** What the flags maybe_adjac_pred and maybe_adjac_succ promise. */
  ghost predicate FlagsFit(pred: bool, succ: bool, a: Tile, b: Tile)
  {
    (if pred then !HeldEnd(a) else !FreeEnd(a)) && (if succ then !HeldStart(b) else !FreeStart(b))
  }

  lemma SoundRun(ch: Chunk, a: Tile, r: Run, b: Tile, g: Geometry)
    requires Sound(ch, a + [r] + b, g)
    ensures RunAgrees(ch.bits, r, g.bias + Len(a), g.runPages) && g.bias + Len(a) + r.pages <= |ch.bits| == g.npages
  {
    hide RunAgrees, Counted;
    Agrees3(ch.bits, a, r, b, g.bias, g.runPages);
    Split3(a, r, b, Pages);
  }

  /** The two neighbour tests of a run between a and b, under the flags. */
  method Neighbours(ch: Chunk, bias: nat, pageind: nat, n: nat, pred: bool, succ: bool, ghost a: Tile, ghost k: Kind, ghost b: Tile, ghost g: Geometry) returns (pairs: int)
    requires Sound(ch, a + [Run(n, k)] + b, g) && bias == g.bias && pageind == bias + Len(a) && FlagsFit(pred, succ, a, b)
    ensures pairs == (if FreeEnd(a) then 1 else 0) + (if FreeStart(b) then 1 else 0)
  {
    hide Total, Agrees, Counted, RunAgrees;
    NeighbourTests(ch, a, Run(n, k), b, bias, g.runPages);
    pairs := 0;
    if pred && PredFree(ch.bits, pageind, bias) {
      pairs := pairs + 1;
    }
    if succ && SuccFree(ch.bits, pageind + n) {
      pairs := pairs + 1;
    }
  }

  lemma SoundTaken(ch: Chunk, ch': Chunk, a: Tile, n: nat, d: bool, b: Tile, g: Geometry)
    requires Sound(ch, a + [Run(n, Free(d))] + b, g) && ch'.bits == ch.bits
    requires ch'.runsAvail == ch.runsAvail - 1 && ch'.dirtyPages == ch.dirtyPages - (if d then n else 0)
    requires ch'.runsAdjacent == ch.runsAdjacent - ((if FreeEnd(a) then 1 else 0) + (if FreeStart(b) then 1 else 0))
    ensures Sound(ch', a + [Run(n, Held)] + b, g)
  {
    hide Agrees, Total, Counted, Adjacent;
    SoundRun(ch, a, Run(n, Free(d)), b, g);
    RetileOne(ch, a, Run(n, Free(d)), b, Held, g.bias, g.runPages);
    CountTaken(ch, ch', a, Run(n, Free(d)), b);
  }

  lemma SoundPut(ch: Chunk, ch': Chunk, a: Tile, n: nat, d: bool, b: Tile, g: Geometry)
    requires Sound(ch, a + [Run(n, Held)] + b, g) && ch'.bits == ch.bits && FreeEnds(ch.bits, g.bias + Len(a), n, d)
    requires ch'.runsAvail == ch.runsAvail + 1 && ch'.dirtyPages == ch.dirtyPages + (if d then n else 0)
    requires ch'.runsAdjacent == ch.runsAdjacent + ((if FreeEnd(a) then 1 else 0) + (if FreeStart(b) then 1 else 0))
    ensures Sound(ch', a + [Run(n, Free(d))] + b, g)
  {
    hide Agrees, Total, Counted, Adjacent;
    SoundRun(ch, a, Run(n, Held), b, g);
    RetileOne(ch, a, Run(n, Held), b, Free(d), g.bias, g.runPages);
    CountPut(ch, ch', a, Run(n, Free(d)), b);
  }

  // ---------- map entries ----------

  /** Only the entries of pages o to o + n may differ. */
  predicate SameOutside(bits: seq<Bits>, bits': seq<Bits>, o: nat, n: nat)
  {
    |bits'| == |bits| && forall i :: 0 <= i < |bits| && !(o <= i < o + n) ==> bits'[i] == bits[i]
  }

  /** Two arena_mapbits_unallocated_set. */
  function SetFree(bits: seq<Bits>, o: nat, n: nat, dirty: bool): (r: seq<Bits>)
    requires 0 < n && o + n <= |bits|
    ensures FreeEnds(r, o, n, dirty) && SameOutside(bits, r, o, n)
  {
    bits[o := Bits(false, false, dirty, n, 0)][o + n - 1 := Bits(false, false, dirty, n, 0)]
  }

  /** Two arena_mapbits_unallocated_size_set, which leave the flags alone. */
  function Resize(bits: seq<Bits>, o: nat, n: nat): (r: seq<Bits>)
    requires 0 < n && o + n <= |bits|
    ensures SameOutside(bits, r, o, n)
    ensures !bits[o].live && !bits[o + n - 1].live && bits[o].dirty == bits[o + n - 1].dirty ==> FreeEnds(r, o, n, bits[o].dirty)
  {
    var first := bits[o := bits[o].(size := n)];
    first[o + n - 1 := first[o + n - 1].(size := n)]
  }

  /** Two arena_mapbits_large_set, the last page first. */
  function SetLarge(bits: seq<Bits>, o: nat, n: nat, dirty: bool): (r: seq<Bits>)
    requires 0 < n && o + n <= |bits|
    ensures LargeEnds(r, o, n, dirty) && SameOutside(bits, r, o, n)
  {
    bits[o + n - 1 := Bits(true, true, dirty, 0, 0)][o := Bits(true, true, dirty, n, 0)]
  }

  /** The arena_mapbits_small_set loop. */
  method SetSmall(bits: seq<Bits>, o: nat, n: nat, dirty: bool, bin: nat) returns (r: seq<Bits>)
    requires 0 < n && o + n <= |bits|
    ensures SmallPages(r, o, n, dirty, bin) && SameOutside(bits, r, o, n)
  {
    r := bits[o := Bits(true, false, dirty, 0, bin)];
    var i := 1;
    while i < n - 1
      invariant 1 <= i && (i < n || i == 1)
      invariant SameOutside(bits, r, o, n)
      invariant r[o] == Bits(true, false, dirty, 0, bin)
      invariant forall j :: o < j < o + i ==> r[j] == Bits(true, false, false, j - o, bin)
    {
      r := r[o + i := Bits(true, false, false, i, bin)];
      i := i + 1;
    }
    r := r[o + n - 1 := Bits(true, false, dirty, n - 1, bin)];
  }

  /** The kind of run that is asked for: large, or small for a bin. */
  function LiveKind(bin: Option<nat>, dirty: bool): Kind
  {
    if bin.None? then Large(dirty) else Small(dirty, bin.value)
  }

  /** A small run has the size its bin wants. */
  predicate Fits(bin: Option<nat>, n: nat, runPages: seq<nat>)
  {
    bin.Some? ==> bin.value < |runPages| && runPages[bin.value] == n
  }

  /** What is left of a free run, if anything. */
  function Rest(n: nat, dirty: bool): Tile
  {
    if n == 0 then [] else [Run(n, Free(dirty))]
  }

  lemma HeldQuiet(n: nat, k: Kind)
    requires !k.Free?
    ensures Quiet([Run(n, k)]) && Len([Run(n, k)]) == n
    ensures forall m :: Quiet([Run(n, k), Run(m, Held)]) && Len([Run(n, k), Run(m, Held)]) == n + m
  {
    One(Run(n, k), Pages);
    One(Run(n, k), FreeRuns);
    forall m
      ensures Quiet([Run(n, k), Run(m, Held)]) && Len([Run(n, k), Run(m, Held)]) == n + m
    {
      One(Run(m, Held), Pages);
      One(Run(m, Held), FreeRuns);
      assert [Run(n, k), Run(m, Held)] == [Run(n, k)] + [Run(m, Held)];
      TotalConcat([Run(n, k)], [Run(m, Held)], Pages);
      TotalConcat([Run(n, k)], [Run(m, Held)], FreeRuns);
    }
  }

  lemma AgreesOne(bits: seq<Bits>, r: Run, o: nat, runPages: seq<nat>)
    ensures Agrees(bits, [r], o, runPages) <==> RunAgrees(bits, r, o, runPages)
  {
    assert [r][1..] == [];
  }

  lemma AgreesHeld2(bits: seq<Bits>, n: nat, m: nat, o: nat, runPages: seq<nat>)
    requires 0 < n && 0 < m && o + n + m <= |bits|
    ensures Agrees(bits, [Run(n, Held), Run(m, Held)], o, runPages)
  {
    assert [Run(n, Held), Run(m, Held)][1..] == [Run(m, Held)];
    AgreesOne(bits, Run(m, Held), o + n, runPages);
  }

  // ---------- coalescing ----------

  ghost predicate NoHeld(t: Tile)
  {
    forall k :: 0 <= k < |t| ==> !t[k].kind.Held? && !t[k].kind.Spare?
  }

  predicate NextJoins(d: bool, b: Tile)
  {
    b != [] && b[0].kind == Free(d)
  }

  predicate PrevJoins(a: Tile, d: bool)
  {
    a != [] && a[|a| - 1].kind == Free(d)
  }

  /** A freed run between a and b, joined with the free neighbours that have its dirty flag. */
  function Freed(a: Tile, n: nat, d: bool, b: Tile): Tile
  {
    JoinedPrev(a, JoinedNext(n, d, b), d) + BehindJoined(d, b)
  }

  function JoinedNext(n: nat, d: bool, b: Tile): nat
  {
    if NextJoins(d, b) then n + b[0].pages else n
  }

  function BehindJoined(d: bool, b: Tile): Tile
  {
    if NextJoins(d, b) then b[1..] else b
  }

  function JoinedPrev(a: Tile, n: nat, d: bool): Tile
  {
    if PrevJoins(a, d) then a[..|a| - 1] + [Run(a[|a| - 1].pages + n, Free(d))] else a + [Run(n, Free(d))]
  }

  lemma FreedCoalesced(a: Tile, r: Run, d: bool, b: Tile)
    requires Coalesced(a + [r] + b)
    ensures Coalesced(Freed(a, r.pages, d, b))
  {
    Coalesced3(a, r, b);
    var n, b' := JoinedNext(r.pages, d, b), BehindJoined(d, b);
    assert Coalesced(b') && !NextJoins(d, b') by {
      if NextJoins(d, b) && b' != [] {
        assert b == [b[0]] + b';
      }
    }
    var k := if PrevJoins(a, d) then |a| - 1 else |a|;
    assert a == a[..k] + a[k..];
    CoalescedConcat(a[..k], a[k..]);
    var m := if PrevJoins(a, d) then a[|a| - 1].pages + n else n;
    assert Freed(a, r.pages, d, b) == a[..k] + [Run(m, Free(d))] + b';
    Coalesced3(a[..k], Run(m, Free(d)), b');
  }

  /** Two free runs of one flag cover the same pages as one. */
  lemma JoinedMarks(m: nat, n: nat, d: bool, o: nat)
    ensures RunMarks(Run(m + n, Free(d)), o) == RunMarks(Run(m, Free(d)), o) + RunMarks(Run(n, Free(d)), o + m)
  {
  }

  lemma NextMarks(n: nat, d: bool, b: Tile, o: nat)
    ensures RunMarks(Run(JoinedNext(n, d, b), Free(d)), o) + Marks(BehindJoined(d, b), o + JoinedNext(n, d, b))
         == RunMarks(Run(n, Free(d)), o) + Marks(b, o + n)
  {
    hide RunMarks;
    if NextJoins(d, b) {
      JoinedMarks(n, b[0].pages, d, o);
      Associates(RunMarks(Run(n, Free(d)), o), RunMarks(b[0], o + n), Marks(b[1..], o + n + b[0].pages));
      assert b[0] == Run(b[0].pages, Free(d));
    }
  }

  lemma OneMarks(a: Tile, r: Run, o: nat)
    ensures Marks(a + [r], o) == Marks(a, o) + RunMarks(r, o + Len(a)) && Len(a + [r]) == Len(a) + r.pages
  {
    hide RunMarks;
    assert a + [r] == a + [r] + [];
    Marks3(a, r, [], o);
    TotalConcat(a, [r], Pages);
    One(r, Pages);
  }

  lemma PrevMarks(a: Tile, n: nat, d: bool, o: nat)
    ensures Marks(JoinedPrev(a, n, d), o) == Marks(a, o) + RunMarks(Run(n, Free(d)), o + Len(a))
    ensures Len(JoinedPrev(a, n, d)) == Len(a) + n
  {
    hide RunMarks, Marks, Total;
    OneMarks(a, Run(n, Free(d)), o);
    if PrevJoins(a, d) {
      var k := |a| - 1;
      var p := a[k].pages;
      assert a == a[..k] + [a[k]] && a[k] == Run(p, Free(d));
      OneMarks(a[..k], a[k], o);
      OneMarks(a[..k], Run(p + n, Free(d)), o);
      JoinedMarks(p, n, d, o + Len(a[..k]));
      Associates(Marks(a[..k], o), RunMarks(a[k], o + Len(a[..k])), RunMarks(Run(n, Free(d)), o + Len(a)));
    }
  }

  /** Freeing changes exactly the pages of the run. */
  lemma FreedMarks(a: Tile, n: nat, d: bool, b: Tile, o: nat)
    ensures Marks(Freed(a, n, d, b), o) == Marks(a + [Run(n, Free(d))] + b, o)
  {
    hide RunMarks, Marks, Total, JoinedPrev, JoinedNext, BehindJoined;
    var m, b' := JoinedNext(n, d, b), BehindJoined(d, b);
    PrevMarks(a, m, d, o);
    NextMarks(n, d, b, o + Len(a));
    MarksConcat(JoinedPrev(a, m, d), b', o);
    Associates(Marks(a, o), RunMarks(Run(m, Free(d)), o + Len(a)), Marks(b', o + Len(a) + m));
    Associates(Marks(a, o), RunMarks(Run(n, Free(d)), o + Len(a)), Marks(b, o + Len(a) + n));
    Marks3(a, Run(n, Free(d)), b, o);
  }

  // ---------- pages ----------

  /** Pages p to p + n now have the mark m; no other page has changed. */
  ghost predicate Changed(before: seq<Mark>, after: seq<Mark>, p: nat, n: nat, m: Mark)
  {
    |after| == |before| && p + n <= |before|
    && forall i :: 0 <= i < |before| ==> after[i] == if p <= i < p + n then m else before[i]
  }

  ghost predicate AllFree(marks: seq<Mark>, p: nat, n: nat, dirty: bool)
  {
    p + n <= |marks| && forall i :: p <= i < p + n ==> marks[i] == FreePage(dirty)
  }

  lemma RunChanged(a: Tile, r: Run, r': Run, b: Tile, o: nat)
    requires r.pages == r'.pages
    ensures Changed(Marks(a + [r] + b, o), Marks(a + [r'] + b, o), Len(a), r.pages, MarkOf(r', o + Len(a)))
    ensures forall i :: Len(a) <= i < Len(a) + r.pages ==> Marks(a + [r] + b, o)[i] == MarkOf(r, o + Len(a))
  {
    hide Marks, Total, MarkOf;
    Marks3(a, r, b, o);
    Marks3(a, r', b, o);
  }

  /** The first pages of a free run become a live one. */
  lemma SplitChanged(a: Tile, total: nat, d: bool, need: nat, kind: Kind, b: Tile, o: nat)
    requires need <= total && kind.Live?()
    ensures Changed(Marks(a + [Run(total, Free(d))] + b, o), Marks(a + [Run(need, kind)] + (Rest(total - need, d) + b), o), Len(a), need, LivePage(o + Len(a), need, kind))
    ensures AllFree(Marks(a + [Run(total, Free(d))] + b, o), Len(a), need, d)
  {
    hide Marks, Total;
    SplitMarks(a, total, d, need, b, o);
    RunChanged(a, Run(need, Free(d)), Run(need, kind), Rest(total - need, d) + b, o);
  }

  lemma SplitMarks(a: Tile, total: nat, d: bool, need: nat, b: Tile, o: nat)
    requires need <= total
    ensures Marks(a + [Run(need, Free(d))] + (Rest(total - need, d) + b), o) == Marks(a + [Run(total, Free(d))] + b, o)
  {
    hide Marks, Total, RunMarks;
    var rem := total - need;
    if rem == 0 {
      assert Rest(rem, d) + b == b;
    } else {
      var first, second, p := Run(need, Free(d)), Run(rem, Free(d)), o + Len(a);
      TwoMarks(a, first, second, b, o);
      JoinedMarks(need, rem, d, p);
      Marks3(a, Run(total, Free(d)), b, o);
      Regroup(Marks(a, o), RunMarks(first, p), RunMarks(second, p + need), Marks(b, p + total));
    }
  }

  lemma Regroup<T>(w: seq<T>, x: seq<T>, y: seq<T>, z: seq<T>)
    ensures w + (x + y) + z == w + x + (y + z)
  {
  }

  lemma TwoMarks(a: Tile, r: Run, q: Run, b: Tile, o: nat)
    ensures Marks(a + [r] + ([q] + b), o)
         == Marks(a, o) + RunMarks(r, o + Len(a)) + (RunMarks(q, o + Len(a) + r.pages) + Marks(b, o + Len(a) + r.pages + q.pages))
  {
    hide RunMarks;
    assert ([q] + b)[1..] == b;
    Marks3(a, r, [q] + b, o);
  }

  // ---------- tilings between operations ----------

  ghost predicate Normal(t: Tile)
  {
    NoHeld(t) && Coalesced(t)
  }

  lemma NormalSplit(a: Tile, total: nat, d: bool, need: nat, kind: Kind, b: Tile)
    requires Normal(a + [Run(total, Free(d))] + b) && kind.Live?() && need <= total
    ensures Normal(a + [Run(need, kind)] + (Rest(total - need, d) + b))
  {
    var b' := Rest(total - need, d) + b;
    NoHeld3(a, Run(total, Free(d)), b);
    NoHeld3(a, Run(need, kind), b');
    Coalesced3(a, Run(total, Free(d)), b);
    Coalesced3(a, Run(need, kind), b');
    if total > need {
      assert b' == [] + [Run(total - need, Free(d))] + b;
      Coalesced3([], Run(total - need, Free(d)), b);
    } else {
      assert b' == b;
    }
  }

  lemma NoHeld3(a: Tile, r: Run, b: Tile)
    ensures NoHeld(a + [r] + b) <==> NoHeld(a) && NoHeld(b) && !r.kind.Held? && !r.kind.Spare?
  {
    var t := a + [r] + b;
    assert t[|a|] == r;
    if NoHeld(t) {
      assert forall k :: 0 <= k < |a| ==> a[k] == t[k];
      assert forall k :: 0 <= k < |b| ==> b[k] == t[|a| + 1 + k];
    }
  }

  ghost predicate TileOk(t: Tile, isSpare: bool, pages: nat)
  {
    if isSpare then t == [Run(pages, Spare(true))] || t == [Run(pages, Spare(false))] else Normal(t)
  }

  /** Only the spare chunk is set aside; all others are tiled by free and live runs, coalesced. */
  ghost predicate Orderly(tiles: map<nat, Tile>, spare: Option<nat>, pages: nat)
  {
    (spare.Some? ==> spare.value in tiles) && forall c :: c in tiles ==> TileOk(tiles[c], spare == Some(c), pages)
  }

  lemma OrderlyPut(tiles: map<nat, Tile>, spare: Option<nat>, pages: nat, c: nat, t: Tile)
    requires Orderly(tiles, spare, pages) && spare != Some(c) && Normal(t)
    ensures Orderly(tiles[c := t], spare, pages)
  {
    hide Normal;
  }

  /** A run of n pages from page p of chunk c was free and is now live; nothing else has changed. */
  ghost predicate Took(before: map<nat, Tile>, after: map<nat, Tile>, c: nat, p: nat, n: nat, kind: Kind, bias: nat)
  {
    c in before && c in after && after == before[c := after[c]] && kind.Live?()
    && Changed(Marks(before[c], bias), Marks(after[c], bias), p, n, LivePage(bias + p, n, kind))
    && AllFree(Marks(before[c], bias), p, n, kind.dirty)
  }

  /** The address of a run, in its chunk. */
  datatype Place = Place(chunk: nat, start: nat)

  /** Size first, then address. */
  predicate FitOrder(e: AvailRun, f: AvailRun)
  {
    e.pages < f.pages || (e.pages == f.pages && (e.chunk < f.chunk || (e.chunk == f.chunk && e.start <= f.start)))
  }

  ghost predicate BestFit(avail: set<AvailRun>, need: nat, e: AvailRun)
  {
    e in avail && e.pages >= need && forall f :: f in avail && f.pages >= need ==> FitOrder(e, f)
  }

  /** The best fit is the smallest run that is large enough, and the lowest one of that size. */
  lemma BestFitExact(avail: set<AvailRun>, need: nat, e: AvailRun)
    ensures BestFit(avail, need, e) <==>
            && e in avail && e.pages >= need
            && (forall f :: f in avail && f.pages >= need ==> e.pages <= f.pages)
            && (forall f :: f in avail && f.pages == e.pages ==> e.chunk < f.chunk || (e.chunk == f.chunk && e.start <= f.start))
  {
  }

  /** arena_avail_tree_nsearch with a key lower than any address. */
  method LowestBestFit(avail: set<AvailRun>, need: nat) returns (best: Option<AvailRun>)
    ensures best.Some? ==> BestFit(avail, need, best.value) && best.value in avail && best.value.pages >= need
    ensures best.Some? ==> forall e :: e in avail && e.pages >= need ==> best.value.pages <= e.pages
    ensures best.Some? ==> forall e :: e in avail && e.pages == best.value.pages ==>
              best.value.chunk < e.chunk || (best.value.chunk == e.chunk && best.value.start <= e.start)
    ensures best.None? ==> forall e :: e in avail ==> e.pages < need
  {
    best := None;
    var rest := avail;
    while rest != {}
      invariant rest <= avail
      invariant best.Some? ==> best.value in avail && best.value.pages >= need
      invariant forall e :: e in avail - rest && e.pages >= need ==> best.Some? && FitOrder(best.value, e)
      decreases |rest|
    {
      var e :| e in rest;
      if e.pages >= need && (best.None? || FitOrder(e, best.value)) {
        best := Some(e);
      }
      rest := rest - {e};
    }
  }

  lemma ActiveSplit(tiles: map<nat, Tile>, c: nat, a: Tile, total: nat, d: bool, need: nat, kind: Kind, b: Tile)
    requires c in tiles && tiles[c] == a + [Run(total, Free(d))] + b && need <= total && kind.Live?()
    ensures Sum(ActiveCounts(tiles[c := a + [Run(need, kind)] + (Rest(total - need, d) + b)])) == Sum(ActiveCounts(tiles)) + need
  {
    hide Sum, ActiveCounts;
    ActivePut(tiles, c, a + [Run(need, kind)] + (Rest(total - need, d) + b));
    Split3(a, Run(total, Free(d)), b, ActivePages);
    Split3(a, Run(need, kind), Rest(total - need, d) + b, ActivePages);
    TotalConcat(Rest(total - need, d), b, ActivePages);
    One(Run(total - need, Free(d)), ActivePages);
  }

  lemma ActiveKind(tiles: map<nat, Tile>, c: nat, a: Tile, r: Run, kind: Kind, b: Tile)
    requires c in tiles && tiles[c] == a + [r] + b && r.kind.Live?() == kind.Live?()
    ensures Sum(ActiveCounts(tiles[c := a + [Run(r.pages, kind)] + b])) == Sum(ActiveCounts(tiles))
  {
    hide Sum, ActiveCounts;
    ActivePut(tiles, c, a + [Run(r.pages, kind)] + b);
    Split3(a, r, b, ActivePages);
    Split3(a, Run(r.pages, kind), b, ActivePages);
  }

  /** A chunk that the operating system gave joins the arena. */
  lemma AddKeeps(s: State, tiles: map<nat, Tile>, g: Geometry, c: nat, bits: seq<Bits>)
    requires Consistent(s, tiles, g) && c !in s.chunks && |bits| == g.npages && g.bias < g.npages
    ensures Consistent(s.(chunks := s.chunks[c := Chunk(bits, 0, 0, 0)]), tiles[c := [Run(g.npages - g.bias, Held)]], g)
    ensures Sum(ActiveCounts(tiles[c := [Run(g.npages - g.bias, Held)]])) == Sum(ActiveCounts(tiles))
  {
    hide Sum, ActiveCounts, DirtyCounts;
    var r, ch := Run(g.npages - g.bias, Held), Chunk(bits, 0, 0, 0);
    HeldSound(bits, r, g);
    DirtyPut(s.chunks, c, ch);
    ActivePut(tiles, c, [r]);
    One(r, ActivePages);
    AvailAdded(s.avail, tiles, g.bias, c, r);
    DirtyAdded(s.dirtyChunks, s.chunks, c, ch);
  }

  lemma HeldSound(bits: seq<Bits>, r: Run, g: Geometry)
    requires r.kind.Held? && |bits| == g.npages == g.bias + r.pages && 0 < r.pages
    ensures Sound(Chunk(bits, 0, 0, 0), [r], g)
  {
    AgreesOne(bits, r, g.bias, g.runPages);
    HeldQuiet(r.pages, Held);
    QuietTile([r], 0, 0);
  }

  lemma AvailAdded(avail: set<AvailRun>, tiles: map<nat, Tile>, bias: nat, c: nat, r: Run)
    requires AvailExact(avail, tiles, bias) && c !in tiles && !r.kind.Free?
    ensures AvailExact(avail, tiles[c := [r]], bias)
  {
    HeldQuiet(r.pages, r.kind);
    QuietTile([r], bias, c);
  }

  lemma DirtyAdded(keys: set<DirtyKey>, chunks: map<nat, Chunk>, c: nat, ch: Chunk)
    requires DirtyExact(keys, chunks) && c !in chunks && ch.dirtyPages == 0
    ensures DirtyExact(keys, chunks[c := ch])
  {
    forall k
      ensures k in keys <==> InDirty(k, chunks[c := ch])
    {
      assert k in keys <==> InDirty(k, chunks);
    }
  }

  /** A spare chunk goes back to the operating system. */
  lemma DropKeeps(s: State, tiles: map<nat, Tile>, g: Geometry, c: nat, r: Run)
    requires Consistent(s, tiles, g) && c in tiles && tiles[c] == [r] && r.kind.Spare?
    ensures Consistent(s.(chunks := s.chunks - {c}), tiles - {c}, g)
    ensures Sum(ActiveCounts(tiles - {c})) == Sum(ActiveCounts(tiles))
  {
    hide Sum, Sound;
    HeldQuiet(r.pages, r.kind);
    QuietTile([r], g.bias, c);
    One(r, ActivePages);
    assert s.chunks[c].dirtyPages == 0 by {
      SpareCounts(s.chunks[c], r, g);
    }
    assert ActiveCounts(tiles - {c}) == ActiveCounts(tiles) - {c};
    assert DirtyCounts(s.chunks - {c}) == DirtyCounts(s.chunks) - {c};
    SumDrop(ActiveCounts(tiles), c);
    SumDrop(DirtyCounts(s.chunks), c);
    DirtyDropped(s.dirtyChunks, s.chunks, c);
  }

  lemma SpareCounts(ch: Chunk, r: Run, g: Geometry)
    requires Sound(ch, [r], g) && !r.kind.Free?
    ensures ch.dirtyPages == 0
  {
    One(r, DirtyPages);
  }

  lemma DirtyDropped(keys: set<DirtyKey>, chunks: map<nat, Chunk>, c: nat)
    requires DirtyExact(keys, chunks) && c in chunks && chunks[c].dirtyPages == 0
    ensures DirtyExact(keys, chunks - {c})
  {
    forall k
      ensures k in keys <==> InDirty(k, chunks - {c})
    {
      assert k in keys <==> InDirty(k, chunks);
    }
  }

  /** The one run of a chunk is set aside, or taken in hand again. */
  lemma RelabelKeeps(s: State, tiles: map<nat, Tile>, g: Geometry, c: nat, r: Run, kind: Kind)
    requires Consistent(s, tiles, g) && c in tiles && tiles[c] == [r] && !r.kind.Free? && !kind.Free? && !r.kind.Live?() && !kind.Live?()
    requires kind.Spare? ==> FreeEnds(s.chunks[c].bits, g.bias, r.pages, kind.dirty)
    ensures Consistent(s, tiles[c := [Run(r.pages, kind)]], g)
    ensures Sum(ActiveCounts(tiles[c := [Run(r.pages, kind)]])) == Sum(ActiveCounts(tiles))
  {
    hide Sum, ActiveCounts, Consistent, Sound, RunAgrees, Total, Quiet, Agrees;
    var q := Run(r.pages, kind);
    AtChunk(s, tiles, g, c);
    var ch := s.chunks[c];
    assert [] + [r] + [] == [r] && [] + [q] + [] == [q];
    EmptyLen();
    SoundRun(ch, [], r, [], g);
    assert RunAgrees(ch.bits, q, g.bias, g.runPages) by { KindAgrees(ch.bits, r, kind, g); }
    AgreesOne(ch.bits, q, g.bias, g.runPages);
    HeldQuiet(r.pages, r.kind);
    HeldQuiet(r.pages, kind);
    ActiveKind(tiles, c, [], r, kind, []);
    ReworkKeeps(s, tiles, g, c, ch.bits, [], [r], [q], []);
    assert s.chunks[c := ch.(bits := ch.bits)] == s.chunks;
  }

  lemma EmptyLen()
    ensures Len([]) == 0
  {
  }

  lemma AtChunk(s: State, tiles: map<nat, Tile>, g: Geometry, c: nat)
    requires Consistent(s, tiles, g) && c in tiles
    ensures c in s.chunks && Sound(s.chunks[c], tiles[c], g) && |s.chunks[c].bits| == g.npages
  {
  }

  lemma KindAgrees(bits: seq<Bits>, r: Run, kind: Kind, g: Geometry)
    requires RunAgrees(bits, r, g.bias, g.runPages) && !kind.Free? && !kind.Live?()
    requires kind.Spare? ==> FreeEnds(bits, g.bias, r.pages, kind.dirty)
    ensures RunAgrees(bits, Run(r.pages, kind), g.bias, g.runPages)
  {
  }

  class Arena {
    const g: Geometry
    var chunks: map<nat, Chunk>
    var avail: set<AvailRun>
    var dirtyChunks: set<DirtyKey>
    var ndirty: int
    var nactive: int
    var spare: Option<nat>
    ghost var tiles: map<nat, Tile>

    ghost function Now(): State
      reads this
    {
      State(chunks, avail, dirtyChunks, ndirty)
    }

    ghost predicate Agreeing()
      reads this
    {
      Consistent(Now(), tiles, g)
    }

    /** Chunk c is tiled by a, then r, then b. */
    ghost predicate Around(c: nat, a: Tile, r: Run, b: Tile)
      reads this
    {
      Agreeing() && c in tiles && tiles[c] == a + [r] + b
    }

    lemma ChunkSound(c: nat)
      requires Agreeing() && c in tiles
      ensures c in chunks && Sound(chunks[c], tiles[c], g)
    {
    }

    /** The counters of a chunk change, and its place in chunks_dirty with them. */
    method Recount(c: nat, ch: Chunk)
      requires c in chunks
      modifies this`chunks, this`dirtyChunks, this`ndirty
      ensures chunks == old(chunks)[c := ch] && dirtyChunks == Rekeyed(old(dirtyChunks), c, old(chunks)[c], ch)
      ensures ndirty - ch.dirtyPages == old(ndirty) - old(chunks)[c].dirtyPages
    {
      var before := chunks[c];
      if before.dirtyPages != 0 {
        dirtyChunks := dirtyChunks - {DirtyKey(c, before.runsAvail, before.runsAdjacent)};
      }
      ndirty := ndirty + (ch.dirtyPages - before.dirtyPages);
      if ch.dirtyPages != 0 {
        dirtyChunks := dirtyChunks + {DirtyKey(c, ch.runsAvail, ch.runsAdjacent)};
      }
      chunks := chunks[c := ch];
    }

    /** arena_avail_remove: the free run is held. */
    method AvailRemove(c: nat, pageind: nat, n: nat, pred: bool, succ: bool, ghost a: Tile, ghost d: bool, ghost b: Tile)
      requires Around(c, a, Run(n, Free(d)), b) && pageind == g.bias + Len(a) && FlagsFit(pred, succ, a, b)
      modifies this`chunks, this`dirtyChunks, this`ndirty, this`avail, this`tiles
      ensures Around(c, a, Run(n, Held), b) && tiles == old(tiles)[c := a + [Run(n, Held)] + b]
      ensures c in old(chunks) && c in chunks && chunks[c].bits == old(chunks)[c].bits
    {
      hide Sound, Total, Consistent, Rekeyed;
      ChunkSound(c);
      var ch := chunks[c];
      SoundRun(ch, a, Run(n, Free(d)), b, g);
      var pairs := Neighbours(ch, g.bias, pageind, n, pred, succ, a, Free(d), b, g);
      var ch' := Chunk(ch.bits, ch.runsAvail - 1, ch.runsAdjacent - pairs, ch.dirtyPages - (if ch.bits[pageind].dirty then n else 0));
      SoundTaken(ch, ch', a, n, d, b, g);
      Recount(c, ch');
      avail := avail - {AvailRun(ch.bits[pageind].size, c, pageind)};
      TakeKeeps(old(Now()), Now(), tiles, g, c, a, Run(n, Free(d)), b);
      tiles := tiles[c := a + [Run(n, Held)] + b];
    }

    /** arena_avail_insert: the held run, with its map entries in place, is free. */
    method AvailInsert(c: nat, pageind: nat, n: nat, pred: bool, succ: bool, ghost a: Tile, ghost d: bool, ghost b: Tile)
      requires Around(c, a, Run(n, Held), b) && pageind == g.bias + Len(a) && FlagsFit(pred, succ, a, b)
      requires c in chunks && FreeEnds(chunks[c].bits, pageind, n, d)
      modifies this`chunks, this`dirtyChunks, this`ndirty, this`avail, this`tiles
      ensures Around(c, a, Run(n, Free(d)), b) && tiles == old(tiles)[c := a + [Run(n, Free(d))] + b]
      ensures c in chunks && chunks[c].bits == old(chunks)[c].bits
    {
      hide Sound, Total, Consistent, Rekeyed;
      ChunkSound(c);
      var ch := chunks[c];
      SoundRun(ch, a, Run(n, Held), b, g);
      var pairs := Neighbours(ch, g.bias, pageind, n, pred, succ, a, Held, b, g);
      var ch' := Chunk(ch.bits, ch.runsAvail + 1, ch.runsAdjacent + pairs, ch.dirtyPages + (if ch.bits[pageind].dirty then n else 0));
      SoundPut(ch, ch', a, n, d, b, g);
      Recount(c, ch');
      avail := avail + {AvailRun(ch.bits[pageind].size, c, pageind)};
      PutKeeps(old(Now()), Now(), tiles, g, c, a, Run(n, Free(d)), b);
      tiles := tiles[c := a + [Run(n, Free(d))] + b];
    }

    /** Map entries of a stretch without free runs are rewritten. */
    method SetBits(c: nat, bits: seq<Bits>, ghost a: Tile, ghost m: Tile, ghost m': Tile, ghost b: Tile)
      requires Agreeing() && c in tiles && tiles[c] == a + m + b && Quiet(m) && Quiet(m') && m != [] && m' != []
      requires c in chunks && |bits| == g.npages && |chunks[c].bits| == g.npages
      requires Len(m) == Len(m') && Agrees(bits, m', g.bias + Len(a), g.runPages)
      requires forall i :: 0 <= i < |bits| && !(g.bias + Len(a) <= i < g.bias + Len(a) + Len(m)) ==> bits[i] == chunks[c].bits[i]
      modifies this`chunks, this`tiles
      ensures Agreeing() && tiles == old(tiles)[c := a + m' + b] && c in chunks && chunks[c].bits == bits
    {
      hide Consistent, Total, Agrees, Quiet;
      ReworkKeeps(Now(), tiles, g, c, bits, a, m, m', b);
      chunks := chunks[c := chunks[c].(bits := bits)];
      tiles := tiles[c := a + m' + b];
    }
  
    /** The map entries of a held run become those of a live one. */
    method MarkLive(c: nat, pageind: nat, n: nat, bin: Option<nat>, dirty: bool, ghost a: Tile, ghost b: Tile)
      requires Around(c, a, Run(n, Held), b) && pageind == g.bias + Len(a) && Fits(bin, n, g.runPages)
      modifies this`chunks, this`tiles
      ensures Around(c, a, Run(n, LiveKind(bin, dirty)), b) && tiles == old(tiles)[c := a + [Run(n, LiveKind(bin, dirty))] + b]
    {
      hide Consistent, Total, Agrees, Quiet, Sound;
      ChunkSound(c);
      SoundRun(chunks[c], a, Run(n, Held), b, g);
      var bits := chunks[c].bits;
      if bin.None? {
        bits := SetLarge(bits, pageind, n, dirty);
      } else {
        bits := SetSmall(bits, pageind, n, dirty, bin.value);
      }
      ghost var r := Run(n, LiveKind(bin, dirty));
      HeldQuiet(n, Held);
      HeldQuiet(n, r.kind);
      AgreesOne(bits, r, pageind, g.runPages);
      SetBits(c, bits, a, [Run(n, Held)], [r], b);
    }

    /** The trailing pages of a held run become a free run of their own. */
    method KeepTail(c: nat, pageind: nat, need: nat, rem: nat, dirty: bool, ghost a: Tile, ghost b: Tile)
      requires Around(c, a, Run(need + rem, Held), b) && pageind == g.bias + Len(a) && 0 < need && 0 < rem && !HeldStart(b)
      modifies this`chunks, this`dirtyChunks, this`ndirty, this`avail, this`tiles
      ensures Around(c, a, Run(need, Held), [Run(rem, Free(dirty))] + b)
      ensures tiles == old(tiles)[c := a + [Run(need, Held)] + ([Run(rem, Free(dirty))] + b)]
    {
      hide Consistent, Total, Agrees, Quiet, Sound, SetFree, FreeEnds;
      ChunkSound(c);
      SoundRun(chunks[c], a, Run(need + rem, Held), b, g);
      var bits := SetFree(chunks[c].bits, pageind + need, rem, dirty);
      HeldQuiet(need + rem, Held);
      HeldQuiet(need, Held);
      AgreesHeld2(bits, need, rem, pageind, g.runPages);
      SetBits(c, bits, a, [Run(need + rem, Held)], [Run(need, Held), Run(rem, Held)], b);
      ghost var a' := a + [Run(need, Held)];
      assert a + [Run(need, Held), Run(rem, Held)] + b == a' + [Run(rem, Held)] + b;
      TotalConcat(a, [Run(need, Held)], Pages);
      AvailInsert(c, pageind + need, rem, false, true, a', dirty, b);
      assert a' + [Run(rem, Free(dirty))] + b == a + [Run(need, Held)] + ([Run(rem, Free(dirty))] + b);
    }

    /** arena_run_split: the first pages of a free run become live, the rest stays free. */
    method RunSplit(c: nat, pageind: nat, need: nat, bin: Option<nat>, ghost a: Tile, ghost total: nat, ghost d: bool, ghost b: Tile)
      requires Around(c, a, Run(total, Free(d)), b) && pageind == g.bias + Len(a)
      requires 0 < need <= total && Fits(bin, need, g.runPages) && !HeldEnd(a) && !HeldStart(b)
      modifies this`chunks, this`dirtyChunks, this`ndirty, this`avail, this`tiles, this`nactive
      ensures Around(c, a, Run(need, LiveKind(bin, d)), Rest(total - need, d) + b)
      ensures tiles == old(tiles)[c := a + [Run(need, LiveKind(bin, d))] + (Rest(total - need, d) + b)]
      ensures nactive == old(nactive) + need
    {
      hide Consistent, Total, Agrees, Quiet, Sound, LiveKind;
      ChunkSound(c);
      SoundRun(chunks[c], a, Run(total, Free(d)), b, g);
      var dirty, pages := chunks[c].bits[pageind].dirty, chunks[c].bits[pageind].size;
      var rem := pages - need;
      AvailRemove(c, pageind, pages, true, true, a, d, b);
      nactive := nactive + need;
      if rem > 0 {
        KeepTail(c, pageind, need, rem, dirty, a, b);
      } else {
        assert Rest(0, d) + b == b;
      }
      MarkLive(c, pageind, need, bin, dirty, a, Rest(rem, d) + b);
    }
  
    /** The map entries of a live run are made those of a free one. */
    method MarkFree(c: nat, pageind: nat, n: nat, dirty: bool, ghost a: Tile, ghost r: Run, ghost b: Tile)
      requires Around(c, a, r, b) && pageind == g.bias + Len(a) && n == r.pages && !r.kind.Free?
      modifies this`chunks, this`tiles
      ensures Around(c, a, Run(n, Held), b) && tiles == old(tiles)[c := a + [Run(n, Held)] + b]
      ensures c in chunks && FreeEnds(chunks[c].bits, pageind, n, dirty)
    {
      hide Consistent, Total, Agrees, Quiet, Sound, SetFree, FreeEnds;
      ChunkSound(c);
      SoundRun(chunks[c], a, r, b, g);
      var bits := SetFree(chunks[c].bits, pageind, n, dirty);
      HeldQuiet(n, Held);
      HeldQuiet(n, r.kind);
      AgreesOne(bits, Run(n, Held), pageind, g.runPages);
      SetBits(c, bits, a, [r], [Run(n, Held)], b);
    }

    /** The sizes of two held neighbours are made one. */
    method MarkJoined(c: nat, pageind: nat, m: nat, n: nat, ghost d: bool, ghost a: Tile, ghost b: Tile)
      requires Agreeing() && c in tiles && tiles[c] == a + [Run(m, Held), Run(n, Held)] + b && pageind == g.bias + Len(a)
      requires c in chunks && FreeEnds(chunks[c].bits, pageind, m, d) && FreeEnds(chunks[c].bits, pageind + m, n, d)
      modifies this`chunks, this`tiles
      ensures Around(c, a, Run(m + n, Held), b) && tiles == old(tiles)[c := a + [Run(m + n, Held)] + b]
      ensures c in chunks && FreeEnds(chunks[c].bits, pageind, m + n, d)
    {
      hide Consistent, Total, Agrees, Quiet, Sound, Resize;
      assert |chunks[c].bits| == g.npages by {
        ChunkSound(c);
        assert a + [Run(m, Held), Run(n, Held)] + b == a + [Run(m, Held)] + ([Run(n, Held)] + b);
        SoundRun(chunks[c], a, Run(m, Held), [Run(n, Held)] + b, g);
      }
      var bits := Resize(chunks[c].bits, pageind, m + n);
      HeldQuiet(m, Held);
      HeldQuiet(m + n, Held);
      AgreesOne(bits, Run(m + n, Held), pageind, g.runPages);
      SetBits(c, bits, a, [Run(m, Held), Run(n, Held)], [Run(m + n, Held)], b);
    }

    lemma NextBits(c: nat, pageind: nat, n: nat, a: Tile, b: Tile)
      requires Around(c, a, Run(n, Held), b) && pageind == g.bias + Len(a) && NoHeld(b) && c in chunks
      ensures |chunks[c].bits| == g.npages && pageind + n <= g.npages
      ensures b != [] ==> pageind + n < g.npages && chunks[c].bits[pageind + n].live == !b[0].kind.Free?
      ensures b == [] ==> pageind + n == g.npages
      ensures FreeStart(b) ==> FreeEnds(chunks[c].bits, pageind + n, b[0].pages, b[0].kind.dirty)
    {
      hide Agrees, RunAgrees, FreeEnds, Consistent;
      ChunkSound(c);
      Agrees3(chunks[c].bits, a, Run(n, Held), b, g.bias, g.runPages);
      Split3(a, Run(n, Held), b, Pages);
      if b != [] {
        FirstBits(chunks[c].bits, b, pageind + n, g.runPages);
      }
    }

    lemma PrevBits(c: nat, pageind: nat, n: nat, a: Tile, b: Tile)
      requires Around(c, a, Run(n, Held), b) && pageind == g.bias + Len(a) && NoHeld(a) && c in chunks
      ensures |chunks[c].bits| == g.npages && pageind + n <= g.npages
      ensures a == [] ==> pageind == g.bias
      ensures a != [] ==> pageind > g.bias && chunks[c].bits[pageind - 1].live == !a[|a| - 1].kind.Free?
      ensures FreeEnd(a) ==> a[|a| - 1].pages <= Len(a) && FreeEnds(chunks[c].bits, pageind - a[|a| - 1].pages, a[|a| - 1].pages, a[|a| - 1].kind.dirty)
    {
      hide Agrees, RunAgrees, FreeEnds, Consistent;
      ChunkSound(c);
      Agrees3(chunks[c].bits, a, Run(n, Held), b, g.bias, g.runPages);
      Split3(a, Run(n, Held), b, Pages);
      if a != [] {
        LastBits(chunks[c].bits, a, g.bias, g.runPages);
      }
    }

    /** Try to coalesce forward. */
    method JoinForward(c: nat, pageind: nat, n: nat, dirty: bool, ghost a: Tile, ghost b: Tile) returns (pages: nat)
      requires Around(c, a, Run(n, Held), b) && pageind == g.bias + Len(a) && NoHeld(b)
      requires c in chunks && FreeEnds(chunks[c].bits, pageind, n, dirty)
      modifies this`chunks, this`dirtyChunks, this`ndirty, this`avail, this`tiles
      ensures pages == JoinedNext(n, dirty, b) && Around(c, a, Run(pages, Held), BehindJoined(dirty, b))
      ensures tiles == old(tiles)[c := a + [Run(pages, Held)] + BehindJoined(dirty, b)]
      ensures c in chunks && FreeEnds(chunks[c].bits, pageind, pages, dirty)
    {
      hide Consistent, Total, Sound;
      NextBits(c, pageind, n, a, b);
      pages := n;
      if pageind + n < g.npages && !chunks[c].bits[pageind + n].live && chunks[c].bits[pageind + n].dirty == dirty {
        var more := chunks[c].bits[pageind + n].size;
        ghost var a', b' := a + [Run(n, Held)], b[1..];
        assert a + [Run(n, Held)] + b == a' + [Run(more, Free(dirty))] + b';
        TotalConcat(a, [Run(n, Held)], Pages);
        One(Run(n, Held), Pages);
        AvailRemove(c, pageind + n, more, false, true, a', dirty, b');
        assert a' + [Run(more, Held)] + b' == a + [Run(n, Held), Run(more, Held)] + b';
        MarkJoined(c, pageind, n, more, dirty, a, b');
        pages := n + more;
      }
    }

    /** Try to coalesce backward. */
    method JoinBackward(c: nat, pageind: nat, n: nat, dirty: bool, ghost a: Tile, ghost b: Tile) returns (start: nat, pages: nat, ghost a': Tile)
      requires Around(c, a, Run(n, Held), b) && pageind == g.bias + Len(a) && NoHeld(a)
      requires c in chunks && FreeEnds(chunks[c].bits, pageind, n, dirty)
      modifies this`chunks, this`dirtyChunks, this`ndirty, this`avail, this`tiles
      ensures start == g.bias + Len(a') && NoHeld(a') && a' + [Run(pages, Free(dirty))] == JoinedPrev(a, n, dirty)
      ensures Around(c, a', Run(pages, Held), b) && tiles == old(tiles)[c := a' + [Run(pages, Held)] + b]
      ensures c in chunks && FreeEnds(chunks[c].bits, start, pages, dirty)
    {
      hide Consistent, Total, Sound;
      PrevBits(c, pageind, n, a, b);
      start, pages, a' := pageind, n, a;
      if pageind > g.bias && !chunks[c].bits[pageind - 1].live && chunks[c].bits[pageind - 1].dirty == dirty {
        var more := chunks[c].bits[pageind - 1].size;
        assert a != [];
        a' := a[..|a| - 1];
        ghost var b' := [Run(n, Held)] + b;
        assert a == a' + [Run(more, Free(dirty))];
        assert a + [Run(n, Held)] + b == a' + [Run(more, Free(dirty))] + b';
        TotalConcat(a', [Run(more, Free(dirty))], Pages);
        One(Run(more, Free(dirty)), Pages);
        start := pageind - more;
        AvailRemove(c, start, more, true, false, a', dirty, b');
        assert a' + [Run(more, Held)] + b' == a' + [Run(more, Held), Run(n, Held)] + b;
        MarkJoined(c, start, more, n, dirty, a', b);
        pages := n + more;
      }
    }
  
    /** What holds between operations. */
    ghost predicate Valid()
      reads this
    {
      Agreeing() && g.bias < g.npages && Orderly(tiles, spare, g.npages - g.bias) && nactive == Sum(ActiveCounts(tiles))
    }

    /** Pages of a run of the maximal size, arena_maxclass. */
    function MaxPages(): nat
      requires g.bias < g.npages
    {
      g.npages - g.bias
    }

    /** arena_run_split of the k-th run of a chunk. */
    method Take(c: nat, pageind: nat, need: nat, bin: Option<nat>, ghost k: nat)
      requires Valid() && c in tiles && spare != Some(c) && k < |tiles[c]| && pageind == g.bias + Len(tiles[c][..k])
      requires tiles[c][k].kind.Free? && 0 < need <= tiles[c][k].pages && Fits(bin, need, g.runPages)
      modifies this`chunks, this`dirtyChunks, this`ndirty, this`avail, this`tiles, this`nactive
      ensures Valid() && nactive == old(nactive) + need
      ensures Took(old(tiles), tiles, c, pageind - g.bias, need, LiveKind(bin, old(tiles)[c][k].kind.dirty), g.bias)
    {
      hide Consistent, Total, Sum, ActiveCounts, Normal, Coalesced, Marks, LiveKind;
      ghost var t := tiles[c];
      ghost var a, total, d, b := t[..k], t[k].pages, t[k].kind.dirty, t[k + 1..];
      ghost var kind := LiveKind(bin, d);
      assert t == a + [Run(total, Free(d))] + b;
      LiveKinds(bin, d);
      assert NoHeld(t) by { NormalNoHeld(tiles, spare, g.npages - g.bias, c); }
      NormalSplit(a, total, d, need, kind, b);
      SplitChanged(a, total, d, need, kind, b, g.bias);
      ActiveSplit(tiles, c, a, total, d, need, kind, b);
      OrderlyPut(tiles, spare, g.npages - g.bias, c, a + [Run(need, kind)] + (Rest(total - need, d) + b));
      RunSplit(c, pageind, need, bin, a, total, d, b);
    }

    /** An arena without chunks. */
    constructor (bias: nat, npages: nat, runPages: seq<nat>)
      requires bias < npages
      ensures Valid() && g == Geometry(bias, npages, runPages) && chunks == map[] && nactive == 0
    {
      g := Geometry(bias, npages, runPages);
      chunks, avail, dirtyChunks, ndirty, nactive, spare := map[], {}, {}, 0, 0, None;
      tiles := map[];
      new;
      assert DirtyCounts(chunks) == map[] && ActiveCounts(tiles) == map[];
    }

    lemma WholeRun(c: nat, r: Run)
      requires Agreeing() && c in tiles && tiles[c] == [r]
      ensures Around(c, [], r, []) && c in chunks && RunAgrees(chunks[c].bits, r, g.bias, g.runPages) && FlagsFit(false, false, [], []) && Len([]) == 0
    {
      hide Consistent, Sound, RunAgrees;
      assert [] + [r] + [] == [r];
      ChunkSound(c);
      SoundRun(chunks[c], [], r, [], g);
    }

    /** The run of a chunk that is held whole becomes free. */
    method Open(c: nat, ghost d: bool)
      requires Agreeing() && g.bias < g.npages && c in tiles && tiles[c] == [Run(MaxPages(), Held)]
      requires c in chunks && FreeEnds(chunks[c].bits, g.bias, MaxPages(), d)
      modifies this`chunks, this`dirtyChunks, this`ndirty, this`avail, this`tiles
      ensures Agreeing() && tiles == old(tiles)[c := [Run(MaxPages(), Free(d))]]
      ensures Sum(ActiveCounts(tiles)) == Sum(ActiveCounts(old(tiles)))
    {
      hide Consistent, Total, FreeEnds, Sum, ActiveCounts;
      ghost var r := Run(MaxPages(), Held);
      WholeRun(c, r);
      ActiveKind(tiles, c, [], r, Free(d), []);
      AvailInsert(c, g.bias, g.npages - g.bias, false, false, [], d, []);
      assert [] + [Run(MaxPages(), Free(d))] + [] == [Run(MaxPages(), Free(d))];
    }

    lemma SpareRun(c: nat) returns (d: bool)
      requires Agreeing() && g.bias < g.npages && Orderly(tiles, spare, MaxPages()) && spare == Some(c)
      ensures c in tiles && tiles[c] == [Run(MaxPages(), Spare(d))] && c in chunks && FreeEnds(chunks[c].bits, g.bias, MaxPages(), d)
    {
      d := tiles[c] == [Run(MaxPages(), Spare(true))];
      WholeRun(c, Run(MaxPages(), Spare(d)));
    }

    /** arena_chunk_alloc: the spare chunk, or one from the operating system, as one free run. */
    method ChunkAlloc(given: Option<nat>, garbage: seq<Bits>) returns (c: Option<nat>, ghost d: bool)
      requires Valid() && |garbage| == g.npages && (given.Some? ==> given.value !in chunks)
      modifies this`chunks, this`dirtyChunks, this`ndirty, this`avail, this`tiles, this`spare
      ensures Valid() && spare == None
      ensures c == if old(spare).Some? then old(spare) else given
      ensures c.None? ==> Now() == old(Now()) && tiles == old(tiles)
      ensures c.Some? ==> tiles == old(tiles)[c.value := [Run(MaxPages(), Free(d))]]
      ensures old(spare).Some? ==> old(spare).value in old(tiles) && old(tiles)[old(spare).value] == [Run(MaxPages(), Spare(d))]
      ensures old(spare).None? ==> !d && (c.Some? ==> c.value !in old(tiles))
    {
      hide Consistent, Total, FreeEnds, Sum, ActiveCounts, Orderly;
      d := false;
      if spare.Some? {
        c := spare;
        d := SpareRun(c.value);
        RelabelKeeps(Now(), tiles, g, c.value, Run(MaxPages(), Spare(d)), Held);
        tiles := tiles[c.value := [Run(MaxPages(), Held)]];
        spare := None;
      } else {
        c := given;
        if c.Some? {
          AddKeeps(Now(), tiles, g, c.value, SetFree(garbage, g.bias, g.npages - g.bias, false));
          assert c.value !in tiles by { SameKeys(); }
          chunks := chunks[c.value := Chunk(SetFree(garbage, g.bias, g.npages - g.bias, false), 0, 0, 0)];
          tiles := tiles[c.value := [Run(MaxPages(), Held)]];
        }
      }
      if c.Some? {
        Open(c.value, d);
        assert tiles == old(tiles)[c.value := [Run(MaxPages(), Free(d))]];
        WholeOrderly(old(tiles), old(spare), MaxPages(), c.value, d);
      }
    }

    lemma SameKeys()
      requires Agreeing()
      ensures chunks.Keys == tiles.Keys
    {
    }

    lemma FreeRun(e: AvailRun) returns (k: nat)
      requires Valid() && e in avail
      ensures e.chunk in tiles && spare != Some(e.chunk) && k < |tiles[e.chunk]| && tiles[e.chunk][k].kind.Free?
      ensures e == AvailRun(tiles[e.chunk][k].pages, e.chunk, g.bias + Len(tiles[e.chunk][..k]))
    {
      hide Avail, Normal, Sum, AllSound, DirtyExact;
      k := FindFree(tiles[e.chunk], g.bias, e.chunk, e);
    }

    /** arena_run_alloc_helper. */
    method RunAllocHelper(need: nat, bin: Option<nat>) returns (place: Option<Place>, ghost dirty: bool)
      requires Valid() && 0 < need && Fits(bin, need, g.runPages)
      modifies this`chunks, this`dirtyChunks, this`ndirty, this`avail, this`tiles, this`nactive
      ensures Valid()
      ensures place.None? ==> Now() == old(Now()) && tiles == old(tiles) && nactive == old(nactive) && forall e :: e in avail ==> e.pages < need
      ensures place.Some? ==> place.value.start >= g.bias && nactive == old(nactive) + need
      ensures place.Some? ==> Took(old(tiles), tiles, place.value.chunk, place.value.start - g.bias, need, LiveKind(bin, dirty), g.bias)
      ensures place.Some? ==> exists e :: BestFit(old(avail), need, e) && place.value == Place(e.chunk, e.start)
    {
      hide Consistent, Total, Sum, ActiveCounts, Orderly, Took;
      var best := LowestBestFit(avail, need);
      place, dirty := None, false;
      if best.Some? {
        var e := best.value;
        ghost var k := FreeRun(e);
        dirty := tiles[e.chunk][k].kind.dirty;
        Take(e.chunk, e.start, need, bin, k);
        place := Some(Place(e.chunk, e.start));
      }
    }

    /**
     arena_run_alloc: the best fit if there is one, else the first pages of the spare or of a new chunk.
     `base` is the tiling with the chunk that was put to use.
     */
    method RunAlloc(need: nat, bin: Option<nat>, given: Option<nat>, garbage: seq<Bits>) returns (place: Option<Place>, ghost base: map<nat, Tile>, ghost dirty: bool)
      requires Valid() && 0 < need <= MaxPages() && Fits(bin, need, g.runPages)
      requires |garbage| == g.npages && (given.Some? ==> given.value !in chunks)
      modifies this
      ensures Valid()
      ensures place.None? <==> old(spare).None? && given.None? && forall e :: e in old(avail) ==> e.pages < need
      ensures place.None? ==> tiles == old(tiles) && nactive == old(nactive) && spare == old(spare)
      ensures place.Some? ==> place.value.start >= g.bias && nactive == old(nactive) + need
      ensures place.Some? ==> Took(base, tiles, place.value.chunk, place.value.start - g.bias, need, LiveKind(bin, dirty), g.bias)
      ensures base == old(tiles) && place.Some? ==> spare == old(spare) && exists e :: BestFit(old(avail), need, e) && place.value == Place(e.chunk, e.start)
      ensures base != old(tiles) ==> PutToUse(old(tiles), base, old(spare), given, MaxPages()) && spare == None && forall e :: e in old(avail) ==> e.pages < need
    {
      hide Consistent, Sum, ActiveCounts, Orderly, Took, LiveKind;
      base := tiles;
      place, dirty := RunAllocHelper(need, bin);
      if place.Some? {
        return;
      }
      var c;
      c, dirty := ChunkAlloc(given, garbage);
      base := tiles;
      if c.Some? {
        assert tiles[c.value] == [Run(MaxPages(), Free(dirty))] && tiles[c.value][..0] == [];
        assert base != old(tiles) ==> PutToUse(old(tiles), base, old(spare), given, MaxPages());
        Take(c.value, g.bias, need, bin, 0);
        place := Some(Place(c.value, g.bias));
        return;
      }
      place, dirty := RunAllocHelper(need, bin);
    }

    /** arena_chunk_dealloc: a wholly free chunk becomes the spare, and an earlier spare is given back. */
    method ChunkDealloc(c: nat, ghost d: bool)
      requires Valid() && c in tiles && spare != Some(c) && tiles[c] == [Run(MaxPages(), Free(d))]
      modifies this`chunks, this`dirtyChunks, this`ndirty, this`avail, this`tiles, this`spare
      ensures Valid() && spare == Some(c)
      ensures tiles == (if old(spare).Some? then old(tiles) - {old(spare).value} else old(tiles))[c := [Run(MaxPages(), Spare(d))]]
    {
      hide Consistent, Total, Sum, ActiveCounts, Orderly;
      WholeRun(c, Run(MaxPages(), Free(d)));
      AvailRemove(c, g.bias, g.npages - g.bias, false, false, [], d, []);
      assert [] + [Run(MaxPages(), Held)] + [] == [Run(MaxPages(), Held)];
      assert Sum(ActiveCounts(tiles)) == nactive by {
        assert [] + [Run(MaxPages(), Free(d))] + [] == [Run(MaxPages(), Free(d))];
        ActiveKind(old(tiles), c, [], Run(MaxPages(), Free(d)), Held, []);
      }
      RelabelKeeps(Now(), tiles, g, c, Run(MaxPages(), Held), Spare(d));
      tiles := tiles[c := [Run(MaxPages(), Spare(d))]];
      assert tiles == old(tiles)[c := [Run(MaxPages(), Spare(d))]];
      DeallocOrderly(old(tiles), old(spare), MaxPages(), c, d);
      if spare.Some? {
        var before := spare.value;
        ghost var e := SpareKind(old(tiles), before, MaxPages());
        DropKeeps(Now(), tiles, g, before, Run(MaxPages(), Spare(e)));
        chunks := chunks - {before};
        tiles := tiles - {before};
        assert tiles == (old(tiles) - {before})[c := [Run(MaxPages(), Spare(d))]];
      }
      spare := Some(c);
    }

    /** A live run of n pages starts at the page. */
    ghost predicate LiveAt(c: nat, pageind: nat, n: nat, kind: Kind)
      reads this
    {
      kind.Live?() && c in tiles && g.bias <= pageind && pageind - g.bias < Len(tiles[c])
      && Marks(tiles[c], g.bias)[pageind - g.bias] == LivePage(pageind, n, kind)
    }

    lemma LiveRun(c: nat, pageind: nat, n: nat, kind: Kind) returns (a: Tile, b: Tile)
      requires Valid() && LiveAt(c, pageind, n, kind)
      ensures kind.Live?() && Around(c, a, Run(n, kind), b) && pageind == g.bias + Len(a) && spare != Some(c)
      ensures NoHeld(a) && NoHeld(b) && Coalesced(tiles[c])
    {
      hide Consistent, Total, Sum, ActiveCounts, Coalesced, Marks;
      var t := tiles[c];
      var k := FindLive(t, g.bias, pageind - g.bias);
      a, b := t[..k], t[k + 1..];
      assert t == a + [t[k]] + b;
      assert TileOk(t, spare == Some(c), g.npages - g.bias);
    }

    lemma WholeTile(c: nat, a: Tile, r: Run, b: Tile)
      requires Around(c, a, r, b) && r.pages == g.npages - g.bias
      ensures a == [] && b == []
    {
      hide Consistent, RunAgrees;
      ChunkSound(c);
      Agrees3(chunks[c].bits, a, r, b, g.bias, g.runPages);
      Split3(a, r, b, Pages);
      NoPages(chunks[c].bits, a, g.bias, g.runPages);
      NoPages(chunks[c].bits, b, g.bias + Len(a) + r.pages, g.runPages);
    }

    /** The run is freed in the map, coalesced with its neighbours and put into runs_avail. */
    method FreeAndJoin(c: nat, pageind: nat, n: nat, dirty: bool, ghost a: Tile, ghost r: Run, ghost b: Tile) returns (pages: nat)
      requires Around(c, a, r, b) && pageind == g.bias + Len(a) && n == r.pages && r.kind.Live?() && NoHeld(a) && NoHeld(b)
      modifies this`chunks, this`dirtyChunks, this`ndirty, this`avail, this`tiles
      ensures Agreeing() && tiles == old(tiles)[c := Freed(a, n, dirty, b)]
      ensures pages == g.npages - g.bias <==> Freed(a, n, dirty, b) == [Run(g.npages - g.bias, Free(dirty))]
    {
      hide Consistent, Total, JoinedPrev, FreeEnds;
      MarkFree(c, pageind, n, dirty, a, r, b);
      var m := JoinForward(c, pageind, n, dirty, a, b);
      ghost var b' := BehindJoined(dirty, b);
      var start, sum; ghost var a';
      start, sum, a' := JoinBackward(c, pageind, m, dirty, a, b');
      pages := sum;
      AvailInsert(c, start, pages, true, true, a', dirty, b');
      if pages == g.npages - g.bias {
        WholeTile(c, a', Run(pages, Free(dirty)), b');
      }
      assert Freed(a, n, dirty, b)[|a'|] == Run(pages, Free(dirty));
    }

    /** The size of a live run, from its first map entry. */
    method RunSize(c: nat, pageind: nat, ghost a: Tile, ghost r: Run, ghost b: Tile) returns (pages: nat, dirty: bool)
      requires Around(c, a, r, b) && pageind == g.bias + Len(a) && r.kind.Live?()
      ensures pages == r.pages && dirty == r.kind.dirty
    {
      hide Consistent, Total, Sound;
      ChunkSound(c);
      SoundRun(chunks[c], a, r, b, g);
      var bits := chunks[c].bits[pageind];
      pages := if bits.large then bits.size else g.runPages[bits.bin];
      dirty := bits.dirty;
    }

    /** arena_run_dalloc: exactly the pages of the run become free; a chunk that is then one free run becomes the spare. */
    method RunDalloc(c: nat, pageind: nat, dirty: bool, cleaned: bool, ghost n: nat, ghost kind: Kind) returns (ghost freed: Tile, ghost flag: bool)
      requires Valid() && LiveAt(c, pageind, n, kind)
      modifies this
      ensures Valid() && nactive == old(nactive) - n
      ensures flag == (dirty || (!cleaned && kind.dirty))
      ensures Changed(Marks(old(tiles)[c], g.bias), Marks(freed, g.bias), pageind - g.bias, n, FreePage(flag))
      ensures freed != [Run(MaxPages(), Free(flag))] ==> tiles == old(tiles)[c := freed] && spare == old(spare)
      ensures freed == [Run(MaxPages(), Free(flag))] ==>
                spare == Some(c) && tiles == (if old(spare).Some? then old(tiles) - {old(spare).value} else old(tiles))[c := [Run(MaxPages(), Spare(flag))]]
    {
      hide Consistent, Total, Sum, ActiveCounts, Orderly, Normal, Freed, Coalesced, Marks, Changed;
      ghost var a, b := LiveRun(c, pageind, n, kind);
      var pages, wasDirty := RunSize(c, pageind, a, Run(n, kind), b);
      nactive := nactive - pages;
      var isDirty := dirty || (!cleaned && wasDirty);
      flag, freed := isDirty, Freed(a, n, isDirty, b);
      DallocMarks(a, Run(n, kind), isDirty, b, g.bias);
      FreedNormal(tiles, spare, g.npages - g.bias, c, a, Run(n, kind), isDirty, b);
      pages := FreeAndJoin(c, pageind, pages, isDirty, a, Run(n, kind), b);
      if pages == g.npages - g.bias {
        ChunkDealloc(c, isDirty);
        RedoMap(old(tiles), c, freed, [Run(MaxPages(), Spare(flag))], old(spare));
      }
    }

    /** A large run is made two in the map, the last page of the first one set first. */
    method SplitLive(c: nat, pageind: nat, m: nat, n: nat, ghost dirty: bool)
      requires Valid() && LiveAt(c, pageind, m + n, Large(dirty)) && 0 < m && 0 < n
      modifies this`chunks, this`tiles
      ensures Valid() && c in tiles && tiles == old(tiles)[c := tiles[c]]
      ensures Retagged(Marks(old(tiles)[c], g.bias), Marks(tiles[c], g.bias), pageind - g.bias,
                       m, LivePage(pageind, m, Large(dirty)), n, LivePage(pageind + m, n, Large(dirty)))
    {
      hide Consistent, Total, Sum, ActiveCounts, Orderly, Normal, Coalesced, Marks, Retagged, Quiet, Agrees, Sound;
      ghost var a, b := LiveRun(c, pageind, m + n, Large(dirty));
      ChunkSound(c);
      SoundRun(chunks[c], a, Run(m + n, Large(dirty)), b, g);
      var flag := chunks[c].bits[pageind].dirty;
      var bits := SetLarge(chunks[c].bits, pageind, m, flag);
      bits := bits[pageind + m := Bits(true, true, flag, n, 0)];
      ghost var r, q, whole := Run(m, Large(dirty)), Run(n, Large(dirty)), Run(m + n, Large(dirty));
      TwoQuiet(r, q);
      HeldQuiet(m + n, Large(dirty));
      AgreesTwo(bits, r, q, pageind, g.runPages);
      SplitLiveKeeps(tiles, spare, g.npages - g.bias, c, a, whole, r, q, b);
      SplitLiveMarks(a, whole, r, q, b, g.bias);
      SetBits(c, bits, a, [whole], [r, q], b);
    }

    /** arena_run_trim_head: the first pages of a large run are freed, with the flag the run had. */
    method TrimHead(c: nat, pageind: nat, oldsize: nat, newsize: nat, ghost dirty: bool)
      requires Valid() && LiveAt(c, pageind, oldsize, Large(dirty)) && 0 < newsize < oldsize
      modifies this
      ensures Valid() && c in tiles && tiles == old(tiles)[c := tiles[c]] && spare == old(spare) && nactive == old(nactive) - (oldsize - newsize)
      ensures Retagged(Marks(old(tiles)[c], g.bias), Marks(tiles[c], g.bias), pageind - g.bias,
                       oldsize - newsize, FreePage(dirty), newsize, LivePage(pageind + oldsize - newsize, newsize, Large(dirty)))
    {
      hide Consistent, Total, Sum, ActiveCounts, Orderly, Marks;
      var head := oldsize - newsize;
      SplitLive(c, pageind, head, newsize, dirty);
      ghost var freed, flag := RunDalloc(c, pageind, false, false, head, Large(dirty));
      NotWhole(freed, g.npages - g.bias, flag, g.bias, pageind - g.bias + head);
    }

    /** arena_run_trim_tail: the last pages of a large run are freed. */
    method TrimTail(c: nat, pageind: nat, oldsize: nat, newsize: nat, dirty: bool, ghost wasDirty: bool)
      requires Valid() && LiveAt(c, pageind, oldsize, Large(wasDirty)) && 0 < newsize < oldsize
      modifies this
      ensures Valid() && c in tiles && tiles == old(tiles)[c := tiles[c]] && spare == old(spare) && nactive == old(nactive) - (oldsize - newsize)
      ensures Retagged(Marks(old(tiles)[c], g.bias), Marks(tiles[c], g.bias), pageind - g.bias,
                       newsize, LivePage(pageind, newsize, Large(wasDirty)), oldsize - newsize, FreePage(dirty || wasDirty))
    {
      hide Consistent, Total, Sum, ActiveCounts, Orderly, Marks;
      SplitLive(c, pageind, newsize, oldsize - newsize, wasDirty);
      ghost var freed, flag := RunDalloc(c, pageind + newsize, dirty, false, oldsize - newsize, Large(wasDirty));
      NotWhole(freed, g.npages - g.bias, flag, g.bias, pageind - g.bias);
    }

    /** Leading pages that were taken for the sake of alignment are given back. */
    method GiveBackHead(c: nat, pageind: nat, oldsize: nat, lead: nat, ghost base: map<nat, Tile>, ghost dirty: bool)
      requires Valid() && g.bias <= pageind && 0 <= lead < oldsize && Took(base, tiles, c, pageind - g.bias, oldsize, Large(dirty), g.bias)
      modifies this
      ensures Valid() && spare == old(spare) && nactive == old(nactive) - lead
      ensures Took(base, tiles, c, pageind - g.bias + lead, oldsize - lead, Large(dirty), g.bias)
    {
      hide Consistent, Total, Sum, ActiveCounts, Orderly, Marks;
      if lead != 0 {
        ghost var t := tiles[c];
        TrimHead(c, pageind, oldsize, oldsize - lead, dirty);
        HeadBack(Marks(base[c], g.bias), Marks(t, g.bias), Marks(tiles[c], g.bias), pageind - g.bias, lead, oldsize - lead, pageind, dirty);
      }
    }

    method GiveBackTail(c: nat, pageind: nat, oldsize: nat, newsize: nat, ghost base: map<nat, Tile>, ghost dirty: bool)
      requires Valid() && g.bias <= pageind && 0 < newsize <= oldsize && Took(base, tiles, c, pageind - g.bias, oldsize, Large(dirty), g.bias)
      modifies this
      ensures Valid() && spare == old(spare) && nactive == old(nactive) - (oldsize - newsize)
      ensures Took(base, tiles, c, pageind - g.bias, newsize, Large(dirty), g.bias)
    {
      hide Consistent, Total, Sum, ActiveCounts, Orderly, Marks;
      if newsize != oldsize {
        ghost var t := tiles[c];
        TrimTail(c, pageind, oldsize, newsize, false, dirty);
        TailBack(Marks(base[c], g.bias), Marks(t, g.bias), Marks(tiles[c], g.bias), pageind - g.bias, newsize, oldsize - newsize, pageind, dirty);
      }
    }

    /** arena_palloc: an aligned run of the size asked for is live; every other page is as it was. */
    method Palloc(size: nat, alignment: nat, given: Option<nat>, garbage: seq<Bits>) returns (place: Option<Place>, ghost base: map<nat, Tile>, ghost dirty: bool)
      requires Valid() && 0 < size && 0 < alignment && size + alignment - 1 <= MaxPages()
      requires |garbage| == g.npages && (given.Some? ==> given.value !in chunks)
      modifies this
      ensures Valid()
      ensures place.None? <==> old(spare).None? && given.None? && forall e :: e in old(avail) ==> e.pages < size + alignment - 1
      ensures place.None? ==> tiles == old(tiles) && nactive == old(nactive) && spare == old(spare)
      ensures place.Some? ==> place.value.start >= g.bias && (place.value.chunk * g.npages + place.value.start) % alignment == 0
      ensures place.Some? ==> Took(base, tiles, place.value.chunk, place.value.start - g.bias, size, Large(dirty), g.bias)
      ensures place.Some? ==> nactive == old(nactive) + size
      ensures base != old(tiles) ==> PutToUse(old(tiles), base, old(spare), given, MaxPages())
    {
      hide Consistent, Sum, ActiveCounts, Orderly, Took, PutToUse;
      var allocSize := size + alignment - 1;
      place, base, dirty := RunAlloc(allocSize, None, given, garbage);
      if place.Some? {
        var c, start := place.value.chunk, place.value.start;
        var address := c * g.npages + start;
        var lead := Arithmetic.Ceiling(address, alignment) - address;
        GiveBackHead(c, start, allocSize, lead, base, dirty);
        GiveBackTail(c, start + lead, allocSize - lead, size, base, dirty);
        place := Some(Place(c, start + lead));
      }
    }
  }

  lemma HeadBack(b: seq<Mark>, m1: seq<Mark>, m2: seq<Mark>, p: nat, lead: nat, n: nat, start: nat, d: bool)
    requires AllFree(b, p, lead + n, d) && Changed(b, m1, p, lead + n, LivePage(start, lead + n, Large(d)))
    requires Retagged(m1, m2, p, lead, FreePage(d), n, LivePage(start + lead, n, Large(d)))
    ensures AllFree(b, p + lead, n, d) && Changed(b, m2, p + lead, n, LivePage(start + lead, n, Large(d)))
  {
  }

  lemma TailBack(b: seq<Mark>, m1: seq<Mark>, m2: seq<Mark>, p: nat, n: nat, trail: nat, start: nat, d: bool)
    requires AllFree(b, p, n + trail, d) && Changed(b, m1, p, n + trail, LivePage(start, n + trail, Large(d)))
    requires Retagged(m1, m2, p, n, LivePage(start, n, Large(d)), trail, FreePage(d))
    ensures AllFree(b, p, n, d) && Changed(b, m2, p, n, LivePage(start, n, Large(d)))
  {
  }

  /** m pages from page p have the mark x, the next n pages the mark y; no other page has changed. */
  ghost predicate Retagged(before: seq<Mark>, after: seq<Mark>, p: nat, m: nat, x: Mark, n: nat, y: Mark)
  {
    |after| == |before| && p + m + n <= |before|
    && forall i :: 0 <= i < |before| ==> after[i] == if p <= i < p + m then x else if p + m <= i < p + m + n then y else before[i]
  }

  /** A tiling with a live page is not one free run. */
  lemma NotWhole(t: Tile, n: nat, d: bool, o: nat, p: nat)
    requires p < Len(t) && Marks(t, o)[p].LivePage?
    ensures t != [Run(n, Free(d))]
  {
    One(Run(n, Free(d)), Pages);
    MarkAt(t, o, p);
  }

  lemma TwoQuiet(r: Run, q: Run)
    requires !r.kind.Free? && !q.kind.Free?
    ensures Quiet([r, q]) && Len([r, q]) == r.pages + q.pages
  {
    assert [r, q] == [r] + [q];
    forall m
      ensures Total([r, q], m) == Weight(r, m) + Weight(q, m)
    {
      TotalConcat([r], [q], m);
      One(r, m);
      One(q, m);
    }
  }

  lemma AgreesTwo(bits: seq<Bits>, r: Run, q: Run, o: nat, runPages: seq<nat>)
    requires RunAgrees(bits, r, o, runPages) && RunAgrees(bits, q, o + r.pages, runPages)
    ensures Agrees(bits, [r, q], o, runPages)
  {
    hide RunAgrees;
    AgreesOne(bits, q, o + r.pages, runPages);
    assert [r, q][1..] == [q];
  }

  lemma SplitLiveKeeps(tiles: map<nat, Tile>, spare: Option<nat>, pages: nat, c: nat, a: Tile, whole: Run, r: Run, q: Run, b: Tile)
    requires Orderly(tiles, spare, pages) && c in tiles && spare != Some(c) && tiles[c] == a + [whole] + b
    requires whole.kind.Live?() && r.kind == whole.kind && q.kind == whole.kind && whole.pages == r.pages + q.pages
    ensures Orderly(tiles[c := a + [r, q] + b], spare, pages)
    ensures Sum(ActiveCounts(tiles[c := a + [r, q] + b])) == Sum(ActiveCounts(tiles))
  {
    hide Orderly, Sum, ActiveCounts, Coalesced;
    NormalNoHeld(tiles, spare, pages, c);
    assert a + [r, q] + b == a + [r] + ([q] + b) && [q] + b == [] + [q] + b;
    NoHeld3(a, whole, b);
    NoHeld3([], q, b);
    NoHeld3(a, r, [q] + b);
    Coalesced3(a, whole, b);
    Coalesced3([], q, b);
    Coalesced3(a, r, [q] + b);
    assert Coalesced([]) by { NothingCoalesced(); }
    OrderlyPut(tiles, spare, pages, c, a + [r, q] + b);
    ActivePut(tiles, c, a + [r, q] + b);
    assert Total(a + [r, q] + b, ActivePages) == Total(tiles[c], ActivePages) by {
      Split3(a, whole, b, ActivePages);
      Split3([], q, b, ActivePages);
      Split3(a, r, [q] + b, ActivePages);
    }
  }

  lemma NothingCoalesced()
    ensures Coalesced([])
  {
  }

  lemma SplitLiveMarks(a: Tile, whole: Run, r: Run, q: Run, b: Tile, o: nat)
    requires whole.pages == r.pages + q.pages
    ensures Retagged(Marks(a + [whole] + b, o), Marks(a + [r, q] + b, o), Len(a),
                     r.pages, MarkOf(r, o + Len(a)), q.pages, MarkOf(q, o + Len(a) + r.pages))
  {
    hide Marks, Total, MarkOf;
    assert a + [r, q] + b == a + [r] + ([q] + b);
    Marks3(a, whole, b, o);
    TwoMarks(a, r, q, b, o);
  }

  lemma RedoMap(tiles: map<nat, Tile>, c: nat, t: Tile, u: Tile, spare: Option<nat>)
    requires spare != Some(c)
    ensures (if spare.Some? then tiles[c := t] - {spare.value} else tiles[c := t])[c := u]
         == (if spare.Some? then tiles - {spare.value} else tiles)[c := u]
  {
  }

  lemma NoPages(bits: seq<Bits>, t: Tile, o: nat, runPages: seq<nat>)
    requires Agrees(bits, t, o, runPages) && Len(t) == 0
    ensures t == []
  {
  }

  lemma DallocMarks(a: Tile, r: Run, d: bool, b: Tile, o: nat)
    ensures Changed(Marks(a + [r] + b, o), Marks(Freed(a, r.pages, d, b), o), Len(a), r.pages, FreePage(d))
  {
    hide Marks, Total, Freed, Changed;
    FreedMarks(a, r.pages, d, b, o);
    RunChanged(a, r, Run(r.pages, Free(d)), b, o);
  }

  lemma FreedNormal(tiles: map<nat, Tile>, spare: Option<nat>, pages: nat, c: nat, a: Tile, r: Run, d: bool, b: Tile)
    requires Orderly(tiles, spare, pages) && spare != Some(c) && c in tiles && tiles[c] == a + [r] + b
    requires r.kind.Live?() && NoHeld(a) && NoHeld(b) && Coalesced(tiles[c])
    ensures Orderly(tiles[c := Freed(a, r.pages, d, b)], spare, pages)
    ensures Sum(ActiveCounts(tiles[c := Freed(a, r.pages, d, b)])) == Sum(ActiveCounts(tiles)) - r.pages
  {
    hide Orderly, Coalesced, Sum, ActiveCounts, Total;
    FreedCoalesced(a, r, d, b);
    assert NoHeld(Freed(a, r.pages, d, b));
    OrderlyPut(tiles, spare, pages, c, Freed(a, r.pages, d, b));
    ActivePut(tiles, c, Freed(a, r.pages, d, b));
    Split3(a, r, b, ActivePages);
    FreedActive(a, r.pages, d, b);
  }

  lemma FreedActive(a: Tile, n: nat, d: bool, b: Tile)
    ensures Total(Freed(a, n, d, b), ActivePages) == Total(a, ActivePages) + Total(b, ActivePages)
  {
    TotalConcat(JoinedPrev(a, JoinedNext(n, d, b), d), BehindJoined(d, b), ActivePages);
    PrevActive(a, JoinedNext(n, d, b), d);
  }

  lemma PrevActive(a: Tile, n: nat, d: bool)
    ensures Total(JoinedPrev(a, n, d), ActivePages) == Total(a, ActivePages)
  {
    var k := if PrevJoins(a, d) then |a| - 1 else |a|;
    assert a == a[..k] + a[k..];
    TotalConcat(a[..k], a[k..], ActivePages);
    var m := if PrevJoins(a, d) then a[k].pages + n else n;
    One(Run(m, Free(d)), ActivePages);
    TotalConcat(a[..k], [Run(m, Free(d))], ActivePages);
    if PrevJoins(a, d) {
      assert a[k..] == [a[k]];
      One(a[k], ActivePages);
    } else {
      assert a[..k] == a;
    }
  }

  lemma SpareKind(tiles: map<nat, Tile>, c: nat, pages: nat) returns (d: bool)
    requires Orderly(tiles, Some(c), pages)
    ensures c in tiles && tiles[c] == [Run(pages, Spare(d))]
  {
    d := tiles[c] == [Run(pages, Spare(true))];
  }

  lemma DeallocOrderly(tiles: map<nat, Tile>, spare: Option<nat>, pages: nat, c: nat, d: bool)
    requires Orderly(tiles, spare, pages) && spare != Some(c)
    ensures Orderly((if spare.Some? then tiles - {spare.value} else tiles)[c := [Run(pages, Spare(d))]], Some(c), pages)
  {
    hide Normal;
  }

  /** The chunk that was put to use, the spare or else the given one, is one free run. */
  ghost predicate PutToUse(before: map<nat, Tile>, after: map<nat, Tile>, spare: Option<nat>, given: Option<nat>, pages: nat)
  {
    var c := if spare.Some? then spare else given;
    c.Some? && exists d :: after == before[c.value := [Run(pages, Free(d))]]
  }

  lemma WholeOrderly(tiles: map<nat, Tile>, spare: Option<nat>, pages: nat, c: nat, d: bool)
    requires Orderly(tiles, spare, pages) && (if spare.Some? then spare == Some(c) else c !in tiles)
    ensures Orderly(tiles[c := [Run(pages, Free(d))]], None, pages)
  {
    assert [Run(pages, Free(d))][1..] == [];
    assert Normal([Run(pages, Free(d))]);
  }

  lemma LiveKinds(bin: Option<nat>, d: bool)
    ensures LiveKind(bin, d).Live?() && LiveKind(bin, d).dirty == d
  {
  }

  lemma NormalNoHeld(tiles: map<nat, Tile>, spare: Option<nat>, pages: nat, c: nat)
    requires Orderly(tiles, spare, pages) && c in tiles && spare != Some(c)
    ensures NoHeld(tiles[c]) && Normal(tiles[c])
  {
    assert TileOk(tiles[c], spare == Some(c), pages);
  }
}
