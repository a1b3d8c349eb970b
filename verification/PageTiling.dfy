/**
 The page map of one arena chunk, seen as the run tiling it stands for. Sizes and addresses are in pages.
 A run that an operation is working on is `Held`: it is neither free nor live, and its map entries mean nothing yet.
 The one run of the spare chunk is `Spare`: its map entries are those of a free run, but nothing can be allocated from it.
 */
module PageTiling {

  datatype Kind = Free(dirty: bool) | Large(dirty: bool) | Small(dirty: bool, bin: nat) | Held | Spare(dirty: bool)
  {
    /** In use by a caller. */
    predicate Live?()
    {
      Large? || Small?
    }
  }

  datatype Run = Run(pages: nat, kind: Kind)

  /** One map entry: `size` holds the run size or, in a small run, the index of the page in the run. */
  datatype Bits = Bits(live: bool, large: bool, dirty: bool, size: nat, bin: nat)

  /** What a page is used for. */
  datatype Mark = FreePage(dirty: bool) | LivePage(start: nat, pages: nat, kind: Kind) | HeldPage

  /** A key of runs_avail. */
  datatype AvailRun = AvailRun(pages: nat, chunk: nat, start: nat)

  datatype Measure = Pages | FreeRuns | DirtyPages | ActivePages

  type Tile = seq<Run>

  function Weight(r: Run, m: Measure): nat
  {
    match m
    case Pages => r.pages
    case FreeRuns => if r.kind.Free? then 1 else 0
    case DirtyPages => if r.kind == Free(true) then r.pages else 0
    case ActivePages => if r.kind.Live?() then r.pages else 0
  }

  function Total(t: Tile, m: Measure): nat
  {
    if t == [] then 0 else Weight(t[0], m) + Total(t[1..], m)
  }

  function Len(t: Tile): nat
  {
    Total(t, Pages)
  }

  predicate FreeEnd(t: Tile)
  {
    t != [] && t[|t| - 1].kind.Free?
  }

  predicate FreeStart(t: Tile)
  {
    t != [] && t[0].kind.Free?
  }

  predicate HeldEnd(t: Tile)
  {
    t != [] && (t[|t| - 1].kind.Held? || t[|t| - 1].kind.Spare?)
  }

  predicate HeldStart(t: Tile)
  {
    t != [] && (t[0].kind.Held? || t[0].kind.Spare?)
  }

  /** nruns_adjac: how many pairs of neighbours are both free. */
  function Adjacent(t: Tile): nat
  {
    if t == [] then 0 else (if t[0].kind.Free? && FreeStart(t[1..]) then 1 else 0) + Adjacent(t[1..])
  }

  /** Neighbours that are both free differ in their dirty flag. */
  predicate Differ(a: Tile, b: Tile)
  {
    FreeEnd(a) && FreeStart(b) ==> a[|a| - 1].kind != b[0].kind
  }

  predicate Coalesced(t: Tile)
  {
    t != [] ==> Differ([t[0]], t[1..]) && Coalesced(t[1..])
  }

  /** The free runs of a chunk whose first page is page o. */
  function Avail(t: Tile, o: nat, c: nat): set<AvailRun>
  {
    if t == [] then {}
    else (if t[0].kind.Free? then {AvailRun(t[0].pages, c, o)} else {}) + Avail(t[1..], o + t[0].pages, c)
  }

  function MarkOf(r: Run, o: nat): Mark
  {
    if r.kind.Free? then FreePage(r.kind.dirty) else if r.kind.Live?() then LivePage(o, r.pages, r.kind) else HeldPage
  }

  function RunMarks(r: Run, o: nat): (s: seq<Mark>)
    ensures |s| == r.pages
  {
    seq(r.pages, _ => MarkOf(r, o))
  }

  function Marks(t: Tile, o: nat): (s: seq<Mark>)
    ensures |s| == Len(t)
  {
    if t == [] then [] else RunMarks(t[0], o) + Marks(t[1..], o + t[0].pages)
  }

  /** First and last entry of a free run of n pages from page o. */
  predicate FreeEnds(bits: seq<Bits>, o: nat, n: nat, dirty: bool)
  {
    0 < n && o + n <= |bits|
    && !bits[o].live && bits[o].dirty == dirty && bits[o].size == n
    && !bits[o + n - 1].live && bits[o + n - 1].dirty == dirty && bits[o + n - 1].size == n
  }

  predicate LargeEnds(bits: seq<Bits>, o: nat, n: nat, dirty: bool)
  {
    0 < n && o + n <= |bits|
    && bits[o].live && bits[o].large && bits[o].dirty == dirty && bits[o].size == n
    && bits[o + n - 1].live && bits[o + n - 1].large && bits[o + n - 1].dirty == dirty && (n > 1 ==> bits[o + n - 1].size == 0)
  }

  /** Every page of a small run knows its index; the first and the last one keep the dirty flag. */
  predicate SmallPages(bits: seq<Bits>, o: nat, n: nat, dirty: bool, bin: nat)
  {
    0 < n && o + n <= |bits|
    && (forall i :: o <= i < o + n ==> bits[i] == Bits(true, false, dirty && (i == o || i == o + n - 1), i - o, bin))
  }

  /** runPages gives the run size of each bin. */
  predicate RunAgrees(bits: seq<Bits>, r: Run, o: nat, runPages: seq<nat>)
  {
    0 < r.pages && o + r.pages <= |bits|
    && match r.kind
       case Free(d) => FreeEnds(bits, o, r.pages, d)
       case Large(d) => LargeEnds(bits, o, r.pages, d)
       case Small(d, bin) => SmallPages(bits, o, r.pages, d, bin) && bin < |runPages| && runPages[bin] == r.pages
       case Spare(d) => FreeEnds(bits, o, r.pages, d)
       case Held => true
  }

  predicate Agrees(bits: seq<Bits>, t: Tile, o: nat, runPages: seq<nat>)
  {
    t != [] ==> RunAgrees(bits, t[0], o, runPages) && Agrees(bits, t[1..], o + t[0].pages, runPages)
  }

  // ---------- putting tilings one behind the other ----------

  lemma {:induction false} TotalConcat(a: Tile, b: Tile, m: Measure)
    ensures Total(a + b, m) == Total(a, m) + Total(b, m)
  {
    if a == [] {
      assert a + b == b;
    } else {
      TotalConcat(a[1..], b, m);
      assert (a + b)[1..] == a[1..] + b;
    }
  }

  lemma {:induction false} AdjacentConcat(a: Tile, b: Tile)
    ensures Adjacent(a + b) == Adjacent(a) + Adjacent(b) + (if FreeEnd(a) && FreeStart(b) then 1 else 0)
  {
    if a == [] {
      assert a + b == b;
    } else {
      AdjacentConcat(a[1..], b);
      assert (a + b)[1..] == a[1..] + b;
    }
  }

  lemma {:induction false} CoalescedConcat(a: Tile, b: Tile)
    ensures Coalesced(a + b) <==> Coalesced(a) && Coalesced(b) && Differ(a, b)
  {
    if a == [] {
      assert a + b == b;
    } else {
      CoalescedConcat(a[1..], b);
      assert (a + b)[1..] == a[1..] + b;
    }
  }

  lemma {:induction false} AvailConcat(a: Tile, b: Tile, o: nat, c: nat)
    ensures Avail(a + b, o, c) == Avail(a, o, c) + Avail(b, o + Len(a), c)
  {
    if a == [] {
      assert a + b == b;
    } else {
      AvailConcat(a[1..], b, o + a[0].pages, c);
      assert (a + b)[1..] == a[1..] + b;
    }
  }

  lemma {:induction false} MarksConcat(a: Tile, b: Tile, o: nat)
    ensures Marks(a + b, o) == Marks(a, o) + Marks(b, o + Len(a))
  {
    hide RunMarks;
    if a == [] {
      assert a + b == b;
    } else {
      MarksConcat(a[1..], b, o + a[0].pages);
      assert (a + b)[1..] == a[1..] + b;
      assert Marks(a + b, o) == RunMarks(a[0], o) + Marks(a[1..] + b, o + a[0].pages);
      hide Marks;
      Associates(RunMarks(a[0], o), Marks(a[1..], o + a[0].pages), Marks(b, o + Len(a)));
    }
  }

  lemma Associates<T>(x: seq<T>, y: seq<T>, z: seq<T>)
    ensures x + (y + z) == (x + y) + z
  {
  }

  lemma {:induction false} AgreesConcat(bits: seq<Bits>, a: Tile, b: Tile, o: nat, runPages: seq<nat>)
    ensures Agrees(bits, a + b, o, runPages) <==> Agrees(bits, a, o, runPages) && Agrees(bits, b, o + Len(a), runPages)
  {
    hide RunAgrees;
    if a == [] {
      assert a + b == b;
    } else {
      AgreesConcat(bits, a[1..], b, o + a[0].pages, runPages);
      assert (a + b)[1..] == a[1..] + b;
    }
  }

  lemma RunAgreesFrame(bits: seq<Bits>, bits': seq<Bits>, r: Run, o: nat, runPages: seq<nat>)
    requires RunAgrees(bits, r, o, runPages) && |bits'| == |bits|
    requires forall i :: o <= i < o + r.pages ==> bits'[i] == bits[i]
    ensures RunAgrees(bits', r, o, runPages)
  {
  }

  /** Only the entries of its own pages matter to a tiling. */
  lemma {:induction false} AgreesFrame(bits: seq<Bits>, bits': seq<Bits>, t: Tile, o: nat, runPages: seq<nat>)
    requires Agrees(bits, t, o, runPages) && |bits'| == |bits| && o + Len(t) <= |bits|
    requires forall i :: o <= i < o + Len(t) ==> bits'[i] == bits[i]
    ensures Agrees(bits', t, o, runPages)
  {
    hide RunAgrees;
    if t != [] {
      assert RunAgrees(bits, t[0], o, runPages);
      RunAgreesFrame(bits, bits', t[0], o, runPages);
      AgreesFrame(bits, bits', t[1..], o + t[0].pages, runPages);
    }
  }

  lemma {:induction false} AgreesFits(bits: seq<Bits>, t: Tile, o: nat, runPages: seq<nat>)
    requires Agrees(bits, t, o, runPages) && t != []
    ensures o + Len(t) <= |bits|
  {
    assert RunAgrees(bits, t[0], o, runPages);
    if |t| > 1 {
      AgreesFits(bits, t[1..], o + t[0].pages, runPages);
    } else {
      assert t == [t[0]];
      One(t[0], Pages);
    }
  }

  lemma LastRun(bits: seq<Bits>, t: Tile, o: nat, runPages: seq<nat>)
    requires Agrees(bits, t, o, runPages) && t != []
    ensures t[|t| - 1].pages <= Len(t) && RunAgrees(bits, t[|t| - 1], o + Len(t) - t[|t| - 1].pages, runPages)
  {
    hide RunAgrees;
    var n := |t| - 1;
    var r := t[n];
    assert t == t[..n] + [r];
    AgreesConcat(bits, t[..n], [r], o, runPages);
    TotalConcat(t[..n], [r], Pages);
    One(r, Pages);
  }

  /** The last map entry of the run that ends a tiling. */
  lemma LastBits(bits: seq<Bits>, t: Tile, o: nat, runPages: seq<nat>)
    requires Agrees(bits, t, o, runPages) && t != [] && !HeldEnd(t)
    ensures 0 < Len(t) && t[|t| - 1].pages <= Len(t) && o + Len(t) <= |bits|
    ensures bits[o + Len(t) - 1].live == !FreeEnd(t)
    ensures FreeEnd(t) ==> FreeEnds(bits, o + Len(t) - t[|t| - 1].pages, t[|t| - 1].pages, t[|t| - 1].kind.dirty)
  {
    hide Agrees, Total;
    AgreesFits(bits, t, o, runPages);
    LastRun(bits, t, o, runPages);
  }

  lemma One(r: Run, m: Measure)
    ensures Total([r], m) == Weight(r, m)
  {
    assert [r][1..] == [];
  }

  lemma FirstBits(bits: seq<Bits>, t: Tile, o: nat, runPages: seq<nat>)
    requires Agrees(bits, t, o, runPages) && t != [] && !HeldStart(t)
    ensures 0 < t[0].pages <= Len(t) && o + Len(t) <= |bits|
    ensures bits[o].live == !FreeStart(t)
    ensures FreeStart(t) ==> FreeEnds(bits, o, t[0].pages, t[0].kind.dirty)
  {
    AgreesFits(bits, t, o, runPages);
    assert RunAgrees(bits, t[0], o, runPages);
  }

  // ---------- one run between two tilings ----------

  lemma Split3(a: Tile, r: Run, b: Tile, m: Measure)
    ensures Total(a + [r] + b, m) == Total(a, m) + Weight(r, m) + Total(b, m)
  {
    TotalConcat(a + [r], b, m);
    TotalConcat(a, [r], m);
    One(r, m);
  }

  lemma Adjacent3(a: Tile, r: Run, b: Tile)
    ensures Adjacent(a + [r] + b) == Adjacent(a) + Adjacent(b)
              + (if r.kind.Free? && FreeEnd(a) then 1 else 0) + (if r.kind.Free? && FreeStart(b) then 1 else 0)
  {
    AdjacentConcat(a + [r], b);
    AdjacentConcat(a, [r]);
    assert [r][1..] == [];
  }

  lemma Coalesced3(a: Tile, r: Run, b: Tile)
    ensures Coalesced(a + [r] + b) <==> Coalesced(a) && Coalesced(b) && Differ(a, [r]) && Differ([r], b)
  {
    CoalescedConcat(a + [r], b);
    CoalescedConcat(a, [r]);
    assert [r][1..] == [];
  }

  lemma Avail3(a: Tile, r: Run, b: Tile, o: nat, c: nat)
    ensures Avail(a + [r] + b, o, c) == Avail(a, o, c) + (if r.kind.Free? then {AvailRun(r.pages, c, o + Len(a))} else {})
              + Avail(b, o + Len(a) + r.pages, c)
  {
    AvailConcat(a + [r], b, o, c);
    AvailConcat(a, [r], o, c);
    TotalConcat(a, [r], Pages);
    One(r, Pages);
    assert [r][1..] == [];
  }

  lemma Marks3(a: Tile, r: Run, b: Tile, o: nat)
    ensures Marks(a + [r] + b, o) == Marks(a, o) + RunMarks(r, o + Len(a)) + Marks(b, o + Len(a) + r.pages)
  {
    hide RunMarks;
    MarksConcat(a + [r], b, o);
    MarksConcat(a, [r], o);
    TotalConcat(a, [r], Pages);
    One(r, Pages);
    assert [r][1..] == [];
    assert Marks([r], o + Len(a)) == RunMarks(r, o + Len(a));
  }

  lemma Agrees3(bits: seq<Bits>, a: Tile, r: Run, b: Tile, o: nat, runPages: seq<nat>)
    ensures Agrees(bits, a + [r] + b, o, runPages)
       <==> Agrees(bits, a, o, runPages) && RunAgrees(bits, r, o + Len(a), runPages) && Agrees(bits, b, o + Len(a) + r.pages, runPages)
  {
    hide RunAgrees;
    AgreesConcat(bits, a + [r], b, o, runPages);
    AgreesConcat(bits, a, [r], o, runPages);
    TotalConcat(a, [r], Pages);
    One(r, Pages);
    assert [r][1..] == [];
    assert Agrees(bits, [r], o + Len(a), runPages) == RunAgrees(bits, r, o + Len(a), runPages);
  }

  // ---------- a chunk ----------

  datatype Chunk = Chunk(bits: seq<Bits>, runsAvail: int, runsAdjacent: int, dirtyPages: int)

  /** The header counters are what their names say. */
  predicate Counted(ch: Chunk, t: Tile)
  {
    ch.runsAvail == Total(t, FreeRuns) && ch.runsAdjacent == Adjacent(t) && ch.dirtyPages == Total(t, DirtyPages)
  }

  /** The chunk's map is exactly the tiling t of its pages from `bias` on. */
  predicate Tiled(ch: Chunk, t: Tile, bias: nat, runPages: seq<nat>)
  {
    bias + Len(t) == |ch.bits| && Agrees(ch.bits, t, bias, runPages)
  }

  /** arena_avail_adjac_pred. */
  predicate PredFree(bits: seq<Bits>, pageind: nat, bias: nat)
    requires pageind <= |bits|
  {
    pageind > bias && !bits[pageind - 1].live
  }

  /** arena_avail_adjac_succ. */
  predicate SuccFree(bits: seq<Bits>, next: nat)
  {
    next < |bits| && !bits[next].live
  }

  /** The two tests answer whether the neighbouring run is free. */
  lemma NeighbourTests(ch: Chunk, a: Tile, r: Run, b: Tile, bias: nat, runPages: seq<nat>)
    requires Tiled(ch, a + [r] + b, bias, runPages)
    ensures bias + Len(a) + r.pages <= |ch.bits|
    ensures !HeldEnd(a) ==> PredFree(ch.bits, bias + Len(a), bias) == FreeEnd(a)
    ensures !HeldStart(b) ==> SuccFree(ch.bits, bias + Len(a) + r.pages) == FreeStart(b)
  {
    hide RunAgrees, Agrees, FreeEnds;
    Agrees3(ch.bits, a, r, b, bias, runPages);
    Split3(a, r, b, Pages);
    if a != [] && !HeldEnd(a) {
      LastBits(ch.bits, a, bias, runPages);
    }
    if b != [] && !HeldStart(b) {
      FirstBits(ch.bits, b, bias + Len(a) + r.pages, runPages);
    }
  }

  /** Changing one run's kind changes the counters by that run and its free neighbours. */
  lemma CountTaken(ch: Chunk, ch': Chunk, a: Tile, r: Run, b: Tile)
    requires r.kind.Free? && Counted(ch, a + [r] + b)
    requires ch'.runsAvail == ch.runsAvail - 1
    requires ch'.runsAdjacent == ch.runsAdjacent - (if FreeEnd(a) then 1 else 0) - (if FreeStart(b) then 1 else 0)
    requires ch'.dirtyPages == ch.dirtyPages - (if r.kind.dirty then r.pages else 0)
    ensures Counted(ch', a + [Run(r.pages, Held)] + b)
  {
    var h := Run(r.pages, Held);
    Adjacent3(a, r, b);
    Adjacent3(a, h, b);
    Split3(a, r, b, FreeRuns);
    Split3(a, h, b, FreeRuns);
    Split3(a, r, b, DirtyPages);
    Split3(a, h, b, DirtyPages);
  }

  lemma CountPut(ch: Chunk, ch': Chunk, a: Tile, r: Run, b: Tile)
    requires r.kind.Free? && Counted(ch, a + [Run(r.pages, Held)] + b)
    requires ch'.runsAvail == ch.runsAvail + 1
    requires ch'.runsAdjacent == ch.runsAdjacent + (if FreeEnd(a) then 1 else 0) + (if FreeStart(b) then 1 else 0)
    requires ch'.dirtyPages == ch.dirtyPages + (if r.kind.dirty then r.pages else 0)
    ensures Counted(ch', a + [r] + b)
  {
    var h := Run(r.pages, Held);
    Adjacent3(a, r, b);
    Adjacent3(a, h, b);
    Split3(a, r, b, FreeRuns);
    Split3(a, h, b, FreeRuns);
    Split3(a, r, b, DirtyPages);
    Split3(a, h, b, DirtyPages);
  }

  /** nruns_avail exceeds nruns_adjac unless there is no free run at all. */
  lemma {:induction false} FewerPairs(t: Tile)
    ensures Adjacent(t) < Total(t, FreeRuns) || (Adjacent(t) == 0 && Total(t, FreeRuns) == 0)
    ensures FreeStart(t) ==> Adjacent(t) < Total(t, FreeRuns)
  {
    if t != [] {
      FewerPairs(t[1..]);
    }
  }

  lemma RetileOne(ch: Chunk, a: Tile, r: Run, b: Tile, kind: Kind, bias: nat, runPages: seq<nat>)
    requires Tiled(ch, a + [r] + b, bias, runPages) && RunAgrees(ch.bits, Run(r.pages, kind), bias + Len(a), runPages)
    ensures Tiled(ch, a + [Run(r.pages, kind)] + b, bias, runPages)
  {
    hide RunAgrees, Agrees;
    Agrees3(ch.bits, a, r, b, bias, runPages);
    Agrees3(ch.bits, a, Run(r.pages, kind), b, bias, runPages);
    Split3(a, r, b, Pages);
    Split3(a, Run(r.pages, kind), b, Pages);
  }

  // ---------- finding runs ----------

  lemma {:induction false} AvailRange(t: Tile, o: nat, c: nat, e: AvailRun)
    requires e in Avail(t, o, c)
    ensures e.chunk == c && o <= e.start && e.start + e.pages <= o + Len(t)
  {
    if t[0].kind.Free? && e == AvailRun(t[0].pages, c, o) {
    } else {
      AvailRange(t[1..], o + t[0].pages, c, e);
    }
  }

  lemma {:induction false} FindFree(t: Tile, o: nat, c: nat, e: AvailRun) returns (k: nat)
    requires e in Avail(t, o, c)
    ensures k < |t| && t[k].kind.Free? && e == AvailRun(t[k].pages, c, o + Len(t[..k]))
  {
    if t[0].kind.Free? && e == AvailRun(t[0].pages, c, o) {
      k := 0;
    } else {
      var j := FindFree(t[1..], o + t[0].pages, c, e);
      k := j + 1;
      assert t[..k][1..] == t[1..][..j];
    }
  }

  lemma MarkAt(t: Tile, o: nat, p: nat)
    requires t != [] && p < Len(t)
    ensures p < t[0].pages ==> Marks(t, o)[p] == RunMarks(t[0], o)[p]
    ensures p >= t[0].pages ==> Marks(t, o)[p] == Marks(t[1..], o + t[0].pages)[p - t[0].pages]
  {
  }

  /** The run that a live page tells of. */
  lemma {:induction false} FindLive(t: Tile, o: nat, p: nat) returns (k: nat)
    requires p < Len(t) && Marks(t, o)[p].LivePage? && Marks(t, o)[p].start == o + p
    ensures k < |t| && Len(t[..k]) == p && Marks(t, o)[p] == LivePage(o + p, t[k].pages, t[k].kind)
    ensures t[k].kind.Live?()
  {
    hide Marks;
    var n := t[0].pages;
    MarkAt(t, o, p);
    if p < n {
      k := 0;
    } else {
      var j := FindLive(t[1..], o + n, p - n);
      k := j + 1;
      assert t[..k][1..] == t[1..][..j];
    }
  }

  /** A live run owns all the pages it says it has. */
  lemma LiveCovers(t: Tile, o: nat, p: nat)
    requires p < Len(t) && Marks(t, o)[p].LivePage? && Marks(t, o)[p].start == o + p
    ensures p + Marks(t, o)[p].pages <= Len(t)
    ensures forall i :: p <= i < p + Marks(t, o)[p].pages ==> Marks(t, o)[i] == Marks(t, o)[p]
  {
    hide Marks;
    var k := FindLive(t, o, p);
    var a, b := t[..k], t[k + 1..];
    assert t == a + [t[k]] + b;
    Marks3(a, t[k], b, o);
    Split3(a, t[k], b, Pages);
  }

  /** Two live runs of a chunk have no page in common. */
  lemma LiveDisjoint(t: Tile, o: nat, p: nat, q: nat)
    requires p < q < Len(t)
    requires Marks(t, o)[p].LivePage? && Marks(t, o)[p].start == o + p
    requires Marks(t, o)[q].LivePage? && Marks(t, o)[q].start == o + q
    ensures p + Marks(t, o)[p].pages <= q
  {
    LiveCovers(t, o, p);
  }

  // ---------- reworking a stretch without free runs ----------

  ghost predicate Quiet(t: Tile)
  {
    Total(t, FreeRuns) == 0
  }

  lemma {:induction false} QuietTile(t: Tile, o: nat, c: nat)
    requires Quiet(t)
    ensures Adjacent(t) == 0 && Total(t, DirtyPages) == 0 && Avail(t, o, c) == {} && !FreeStart(t) && !FreeEnd(t)
  {
    if t != [] {
      QuietTile(t[1..], o + t[0].pages, c);
    }
  }

  lemma QuietSwapCounts(ch: Chunk, a: Tile, m: Tile, m': Tile, b: Tile)
    requires Quiet(m) && Quiet(m') && m != [] && m' != [] && Counted(ch, a + m + b)
    ensures Counted(ch, a + m' + b)
  {
    QuietTile(m, 0, 0);
    QuietTile(m', 0, 0);
    QuietCounts(a, m, b);
    QuietCounts(a, m', b);
  }

  lemma QuietCounts(a: Tile, m: Tile, b: Tile)
    requires Quiet(m) && m != []
    ensures Adjacent(a + m + b) == Adjacent(a) + Adjacent(b)
    ensures Total(a + m + b, FreeRuns) == Total(a, FreeRuns) + Total(b, FreeRuns)
    ensures Total(a + m + b, DirtyPages) == Total(a, DirtyPages) + Total(b, DirtyPages)
  {
    QuietTile(m, 0, 0);
    AdjacentConcat(a + m, b);
    AdjacentConcat(a, m);
    TotalConcat(a + m, b, FreeRuns);
    TotalConcat(a, m, FreeRuns);
    TotalConcat(a + m, b, DirtyPages);
    TotalConcat(a, m, DirtyPages);
  }

  lemma QuietAvail(a: Tile, m: Tile, b: Tile, o: nat, c: nat)
    requires Quiet(m)
    ensures Avail(a + m + b, o, c) == Avail(a, o, c) + Avail(b, o + Len(a) + Len(m), c)
  {
    QuietTile(m, o + Len(a), c);
    AvailConcat(a + m, b, o, c);
    AvailConcat(a, m, o, c);
    TotalConcat(a, m, Pages);
  }

  /** Map entries of the stretch m are rewritten for m'; the runs around it do not notice. */
  lemma Rework(ch: Chunk, bits: seq<Bits>, a: Tile, m: Tile, m': Tile, b: Tile, bias: nat, runPages: seq<nat>)
    requires Tiled(ch, a + m + b, bias, runPages) && Len(m) == Len(m') && |bits| == |ch.bits|
    requires forall i :: 0 <= i < |bits| && !(bias + Len(a) <= i < bias + Len(a) + Len(m)) ==> bits[i] == ch.bits[i]
    requires Agrees(bits, m', bias + Len(a), runPages)
    ensures Tiled(ch.(bits := bits), a + m' + b, bias, runPages)
  {
    hide Agrees;
    var o := bias + Len(a);
    AgreesParts(ch.bits, a, m, b, bias, runPages);
    AgreesFrame(ch.bits, bits, a, bias, runPages);
    AgreesFrame(ch.bits, bits, b, o + Len(m), runPages);
    AgreesParts(bits, a, m', b, bias, runPages);
  }

  lemma AgreesParts(bits: seq<Bits>, a: Tile, m: Tile, b: Tile, o: nat, runPages: seq<nat>)
    ensures Agrees(bits, a + m + b, o, runPages)
       <==> Agrees(bits, a, o, runPages) && Agrees(bits, m, o + Len(a), runPages) && Agrees(bits, b, o + Len(a) + Len(m), runPages)
    ensures Len(a + m + b) == Len(a) + Len(m) + Len(b)
  {
    AgreesConcat(bits, a + m, b, o, runPages);
    AgreesConcat(bits, a, m, o, runPages);
    TotalConcat(a + m, b, Pages);
    TotalConcat(a, m, Pages);
  }
}
