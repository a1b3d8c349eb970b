/**
 The members of a multicast group and the pending requests to enter and to leave it. Requests are
 queued and merged into the sorted member array in place, just before a cast.
 */
module MulticastGroup {

  const UINT_RANGE := 0x1_0000_0000
  const HANDLE_RANGE := 0x100_0000   // HANDLE_MASK + 1

  type Handle = h: nat | h < UINT_RANGE

  /** (int)(a - b) on 32-bit unsigned operands. */
  function CompareUint(a: Handle, b: Handle): int
  {
    var d := (a - b) % UINT_RANGE;
    if d < 0x8000_0000 then d else d - UINT_RANGE
  }

  /** Handles of one harbor, none of them the reserved 0. */
  ghost predicate Local(s: seq<Handle>, harbor: nat)
  {
    forall x :: x in s ==> InHarbor(x, harbor)
  }

  predicate InHarbor(h: Handle, harbor: nat)
  {
    h / HANDLE_RANGE == harbor && h != 0
  }

  ghost predicate Sorted(s: seq<Handle>)
  {
    forall i, j :: 0 <= i < j < |s| ==> s[i] <= s[j]
  }

  ghost predicate StrictlySorted(s: seq<Handle>)
  {
    forall i, j :: 0 <= i < j < |s| ==> s[i] < s[j]
  }

  /** The comparator of qsort agrees with the order of two handles if and only if their difference is a 32-bit integer. */
  lemma ComparatorExact(a: Handle, b: Handle)
    ensures ((CompareUint(a, b) <= 0 <==> a <= b) && (CompareUint(a, b) < 0 <==> a < b)) <==> -0x8000_0000 <= a - b < 0x8000_0000
  {
    var d := a - b;
    assert d % UINT_RANGE == if d < 0 then d + UINT_RANGE else d;
  }

  /** On a set of handles it is their order, so that qsort can sort by it, if and only if no two are further apart. */
  lemma ComparatorSorts(s: seq<Handle>)
    ensures (forall a, b :: a in s && b in s ==> (CompareUint(a, b) <= 0 <==> a <= b)) <==>
            (forall a, b :: a in s && b in s ==> -0x8000_0000 <= a - b < 0x8000_0000)
  {
    hide CompareUint;
    forall a, b | a in s && b in s
      ensures (CompareUint(a, b) <= 0 <==> a <= b) <==> -0x8000_0000 <= a - b < 0x8000_0000
    {
      ComparatorLeast(a, b);
    }
  }

  lemma ComparatorLeast(a: Handle, b: Handle)
    ensures (CompareUint(a, b) <= 0 <==> a <= b) <==> -0x8000_0000 <= a - b < 0x8000_0000
  {
    var d := a - b;
    assert d % UINT_RANGE == if d < 0 then d + UINT_RANGE else d;
  }

  /** Handles of one harbor are close enough. */
  lemma ComparatorAgrees(a: Handle, b: Handle, harbor: nat)
    requires InHarbor(a, harbor) && InHarbor(b, harbor)
    ensures CompareUint(a, b) <= 0 <==> a <= b
  {
    ComparatorExact(a, b);
  }

  /** Two handles that are too far apart. */
  lemma ComparatorWrapsAround()
    ensures CompareUint(0xff00_0001, 0x0100_0001) < 0
  {
    assert (0xff00_0001 - 0x0100_0001) % UINT_RANGE == 0xfe00_0000;
  }

  /** qsort with compar_uint. */
  method Qsort(s: seq<Handle>, ghost harbor: nat) returns (r: seq<Handle>)
    requires Local(s, harbor)
    ensures multiset(r) == multiset(s) && |r| == |s| && Sorted(r)
    ensures forall x :: x in r <==> x in s
  {
    r := [];
    var i := 0;
    while i < |s|
      invariant i <= |s| && |r| == i && multiset(r) == multiset(s[..i]) && Sorted(r) && Local(r, harbor)
    {
      r := Insert(r, s[i], harbor);
      assert s[..i + 1] == s[..i] + [s[i]];
      i := i + 1;
    }
    assert s[..i] == s;
    assert forall x :: x in r <==> x in multiset(r);
  }

  method Insert(s: seq<Handle>, x: Handle, ghost harbor: nat) returns (r: seq<Handle>)
    requires Local(s, harbor) && InHarbor(x, harbor) && Sorted(s)
    ensures |r| == |s| + 1 && multiset(r) == multiset(s) + multiset{x} && Sorted(r) && Local(r, harbor)
  {
    var k := |s|;
    while k > 0 && CompareUint(s[k - 1], x) > 0
      invariant 0 <= k <= |s|
      invariant forall j :: k <= j < |s| ==> x <= s[j]
    {
      BelowFrom(s, x, k, harbor);
      k := k - 1;
    }
    if k > 0 {
      BelowFrom(s, x, k, harbor);
    }
    r := s[..k] + [x] + s[k..];
    InsertAt(s, x, k, harbor);
  }

  lemma InsertAt(s: seq<Handle>, x: Handle, k: nat, harbor: nat)
    requires k <= |s| && Local(s, harbor) && InHarbor(x, harbor) && Sorted(s)
    requires (forall j :: 0 <= j < k ==> s[j] <= x) && (forall j :: k <= j < |s| ==> x <= s[j])
    ensures var r := s[..k] + [x] + s[k..];
            multiset(r) == multiset(s) + multiset{x} && Sorted(r) && Local(r, harbor)
  {
    hide InHarbor;
    assert s == s[..k] + s[k..];
    InsertSorted(s[..k], x, s[k..]);
  }

  lemma InsertSorted(a: seq<Handle>, x: Handle, b: seq<Handle>)
    requires Sorted(a + b)
    requires (forall j :: 0 <= j < |a| ==> a[j] <= x) && (forall j :: 0 <= j < |b| ==> x <= b[j])
    ensures Sorted(a + [x] + b)
  {
    var r := a + [x] + b;
    forall i, j | 0 <= i < j < |r|
      ensures r[i] <= r[j]
    {
      assert i < |a| ==> r[i] == (a + b)[i];
      assert j < |a| ==> r[j] == (a + b)[j];
      assert i > |a| ==> r[i] == (a + b)[i - 1] == b[i - 1 - |a|];
      assert j > |a| ==> r[j] == (a + b)[j - 1] == b[j - 1 - |a|];
    }
  }

  lemma BelowFrom(s: seq<Handle>, x: Handle, k: nat, harbor: nat)
    requires 0 < k <= |s| && Local(s, harbor) && InHarbor(x, harbor) && Sorted(s)
    ensures CompareUint(s[k - 1], x) <= 0 <==> s[k - 1] <= x
    ensures s[k - 1] <= x ==> forall j :: 0 <= j < k ==> s[j] <= x
  {
    ComparatorAgrees(s[k - 1], x, harbor);
  }

  // ---------------------------------------------------------------------------
  // The two passes over the member array
  // ---------------------------------------------------------------------------

  /** `out` holds, in strict order, what members[..k] lacks of the members and of enter[i..], and lies above members[..k]. */
  ghost predicate Merged(out: seq<Handle>, members: seq<Handle>, k: nat, enter: seq<Handle>, i: nat)
    requires k <= |members| && i <= |enter|
  {
    && StrictlySorted(out)
    && (forall x :: x in out || x in members[..k] <==> x in members || x in enter[i..])
    && (forall x, y :: x in members[..k] && y in out ==> x < y)
  }

  /** Whatever of enter[..i] is not `last` lies below `out`; `last` is the entry looked at last, or 0 for none. */
  ghost predicate Fits(out: seq<Handle>, enter: seq<Handle>, i: nat, last: Handle)
    requires i <= |enter|
  {
    if last == 0 then forall j, y :: 0 <= j < i && y in out ==> enter[j] < y
    else i < |enter| && last == enter[i] && forall y :: y in out ==> last <= y
  }

  lemma EnterTail(enter: seq<Handle>, i: nat)
    requires i < |enter|
    ensures enter[i..] == [enter[i]] + enter[i + 1..]
  {
  }

  lemma ConsSorted(x: Handle, out: seq<Handle>)
    requires StrictlySorted(out) && forall y :: y in out ==> x < y
    ensures StrictlySorted([x] + out)
  {
    assert forall i :: 0 <= i < |out| ==> out[i] in out;
  }

  lemma MergeSkip(out: seq<Handle>, members: seq<Handle>, k: nat, enter: seq<Handle>, i: nat, last: Handle)
    requires k <= |members| && i < |enter| && enter[i] == last && 0 !in enter
    requires Merged(out, members, k, enter, i + 1) && Fits(out, enter, i + 1, last)
    ensures Merged(out, members, k, enter, i) && Fits(out, enter, i, last)
  {
    EnterTail(enter, i);
    assert enter[i + 1] in enter[i + 1..];
  }

  lemma Below(out: seq<Handle>, enter: seq<Handle>, i: nat, last: Handle)
    requires i < |enter| && Sorted(enter) && Fits(out, enter, i + 1, last) && enter[i] != last
    ensures forall y :: y in out ==> enter[i] < y
  {
  }

  lemma MergeSame(out: seq<Handle>, members: seq<Handle>, k: nat, enter: seq<Handle>, i: nat, last: Handle)
    requires 0 < k <= |members| && i < |enter| && enter[i] == members[k - 1] && enter[i] != last && Sorted(enter) && 0 !in enter
    requires Merged(out, members, k, enter, i + 1) && Fits(out, enter, i + 1, last)
    ensures Merged(out, members, k, enter, i) && Fits(out, enter, i, enter[i])
  {
    EnterTail(enter, i);
    Below(out, enter, i, last);
    assert members[k - 1] in members[..k];
  }

  lemma MergePlace(out: seq<Handle>, members: seq<Handle>, k: nat, enter: seq<Handle>, i: nat, last: Handle)
    requires k <= |members| && StrictlySorted(members) && i < |enter| && enter[i] != last && Sorted(enter) && 0 !in enter
    requires k > 0 ==> enter[i] > members[k - 1]
    requires Merged(out, members, k, enter, i + 1) && Fits(out, enter, i + 1, last)
    ensures Merged([enter[i]] + out, members, k, enter, i) && Fits([enter[i]] + out, enter, i, enter[i])
  {
    EnterTail(enter, i);
    Below(out, enter, i, last);
    ConsSorted(enter[i], out);
  }

  lemma MergeMove(out: seq<Handle>, members: seq<Handle>, k: nat, enter: seq<Handle>, i: nat)
    requires 0 < k <= |members| && StrictlySorted(members) && i <= |enter| && Sorted(enter)
    requires Merged(out, members, k, enter, i) && (i > 0 ==> enter[i - 1] < members[k - 1])
    ensures Merged([members[k - 1]] + out, members, k - 1, enter, i) && Fits([members[k - 1]] + out, enter, i, 0)
  {
    assert members[..k] == members[..k - 1] + [members[k - 1]];
    assert members[k - 1] in members[..k];
    ConsSorted(members[k - 1], out);
  }

  /** Where the backward merge stands: i, oldIndex and newIndex are the next entry, member and free place, `last` the last entry. */
  ghost predicate Merging(data: seq<Handle>, members: seq<Handle>, enter: seq<Handle>, i: int, oldIndex: int, newIndex: int, last: Handle)
  {
    var newSize := |members| + |enter|;
    && -1 <= i < |enter| && -1 <= oldIndex < |members| && i + 1 <= newIndex - oldIndex && newIndex < newSize <= |data|
    && (forall k :: 0 <= k <= oldIndex ==> data[k] == members[k])
    && Merged(data[newIndex + 1..newSize], members, oldIndex + 1, enter, i + 1)
    && Fits(data[newIndex + 1..newSize], enter, i + 1, last)
  }

  /** An entry that is not a member is stored; it takes a place behind every unread member. */
  method PlaceEntry(data: array<Handle>, ghost members: seq<Handle>, enter: seq<Handle>, i: nat, oldIndex: int, newIndex: nat, ghost last: Handle)
    requires Merging(data[..], members, enter, i, oldIndex, newIndex, last)
    requires StrictlySorted(members) && Sorted(enter) && 0 !in enter && enter[i] != last && (oldIndex >= 0 ==> enter[i] > members[oldIndex])
    modifies data
    ensures Merging(data[..], members, enter, i - 1, oldIndex, newIndex - 1, enter[i])
  {
    hide Merged, Fits, Sorted, StrictlySorted;
    ghost var newSize := |members| + |enter|;
    MergePlace(data[..][newIndex + 1..newSize], members, oldIndex + 1, enter, i, last);
    data[newIndex] := enter[i];
    assert data[..][newIndex..newSize] == [enter[i]] + old(data[..])[newIndex + 1..newSize];
  }

  /** A member above the next entry, or left over, moves up. */
  method MoveMember(data: array<Handle>, ghost members: seq<Handle>, ghost enter: seq<Handle>, ghost i: int, oldIndex: nat, newIndex: nat, ghost last: Handle)
    requires Merging(data[..], members, enter, i, oldIndex, newIndex, last)
    requires StrictlySorted(members) && Sorted(enter) && (i >= 0 ==> enter[i] < members[oldIndex])
    modifies data
    ensures Merging(data[..], members, enter, i, oldIndex - 1, newIndex - 1, 0)
  {
    hide Merged, Fits, Sorted, StrictlySorted;
    ghost var newSize := |members| + |enter|;
    MergeMove(data[..][newIndex + 1..newSize], members, oldIndex + 1, enter, i + 1);
    data[newIndex] := data[oldIndex];
    assert data[..][newIndex..newSize] == [members[oldIndex]] + old(data[..])[newIndex + 1..newSize];
  }

  lemma MergingBounds(data: seq<Handle>, members: seq<Handle>, enter: seq<Handle>, i: int, oldIndex: int, newIndex: int, last: Handle)
    requires Merging(data, members, enter, i, oldIndex, newIndex, last)
    ensures i + 1 <= newIndex - oldIndex && -1 <= newIndex < |data|
    ensures 0 <= oldIndex ==> oldIndex < |members| && oldIndex < |data| && data[oldIndex] == members[oldIndex]
  {
  }

  lemma SkipEntry(data: seq<Handle>, members: seq<Handle>, enter: seq<Handle>, i: nat, oldIndex: int, newIndex: int, last: Handle)
    requires Merging(data, members, enter, i, oldIndex, newIndex, last) && Sorted(enter) && 0 !in enter
    requires enter[i] == last || (oldIndex >= 0 && enter[i] == members[oldIndex])
    ensures Merging(data, members, enter, i - 1, oldIndex, newIndex, enter[i])
  {
    var out := data[newIndex + 1..|members| + |enter|];
    if enter[i] == last {
      MergeSkip(out, members, oldIndex + 1, enter, i, last);
    } else {
      MergeSame(out, members, oldIndex + 1, enter, i, last);
    }
  }

  /** The loop over the entering handles. */
  method MergeLoop(data: array<Handle>, number: nat, enter: seq<Handle>, ghost members: seq<Handle>) returns (oldIndex: int, newIndex: int, last: Handle)
    requires number + |enter| <= data.Length && members == data[..number] && StrictlySorted(members)
    requires Sorted(enter) && 0 !in enter
    modifies data
    ensures Merging(data[..], members, enter, -1, oldIndex, newIndex, last)
  {
    var i := |enter| - 1;
    last, oldIndex, newIndex := 0, number - 1, number + |enter| - 1;
    MergeStart(data[..], members, enter);
    hide Merging, Merged, Fits, Sorted, StrictlySorted;
    while i >= 0
      invariant Merging(data[..], members, enter, i, oldIndex, newIndex, last)
      invariant -1 <= i < |enter| && -1 <= oldIndex < number
      decreases i + oldIndex + 2
    {
      i, oldIndex, newIndex, last := MergeTurn(data, members, enter, i, oldIndex, newIndex, last);
    }
  }

  /** One turn of the loop: an entry is skipped or placed, or a member moved; the `++i` of the source stays at the same entry. */
  method MergeTurn(data: array<Handle>, ghost members: seq<Handle>, enter: seq<Handle>, entry: nat, oldest: int, lowest: int, latest: Handle) returns (i: int, oldIndex: int, newIndex: int, last: Handle)
    requires Merging(data[..], members, enter, entry, oldest, lowest, latest) && entry < |enter| && -1 <= oldest
    requires StrictlySorted(members) && Sorted(enter) && 0 !in enter
    modifies data
    ensures Merging(data[..], members, enter, i, oldIndex, newIndex, last)
    ensures -1 <= i <= entry && -1 <= oldIndex <= oldest && i + oldIndex < entry + oldest
  {
    hide Merging, Merged, Fits, Sorted, StrictlySorted;
    MergingBounds(data[..], members, enter, entry, oldest, lowest, latest);
    var handle := enter[entry];
    i, oldIndex, newIndex, last := entry - 1, oldest, lowest, handle;
    if handle == latest {
      SkipEntry(data[..], members, enter, entry, oldest, lowest, latest);
    } else if oldest < 0 || handle > data[oldest] {
      PlaceEntry(data, members, enter, entry, oldest, lowest, latest);
      newIndex := lowest - 1;
    } else if handle == data[oldest] {
      SkipEntry(data[..], members, enter, entry, oldest, lowest, latest);
    } else {
      MoveMember(data, members, enter, entry, oldest, lowest, latest);
      i, oldIndex, newIndex, last := entry, oldest - 1, lowest - 1, 0;
    }
  }

  /** Backward merge of the entering handles into the members; the union ends up in data[start..newSize]. */
  method MergeEnter(data: array<Handle>, number: nat, enter: seq<Handle>) returns (start: nat)
    requires number + |enter| <= data.Length && StrictlySorted(data[..number])
    requires Sorted(enter) && 0 !in enter
    modifies data
    ensures start <= number + |enter|
    ensures StrictlySorted(data[start..number + |enter|])
    ensures forall x :: x in data[start..number + |enter|] <==> x in old(data[..number]) || x in enter
  {
    ghost var members := data[..number];
    hide Merging, Merged, Sorted;
    var oldIndex, newIndex, last := MergeLoop(data, number, enter, members);
    start := MoveRest(data, members, enter, oldIndex, newIndex, last);
    assert data[start..number + |enter|] == data[..][start..number + |enter|];
    MergeDone(data[start..number + |enter|], members, enter);
  }

  lemma MergeStart(data: seq<Handle>, members: seq<Handle>, enter: seq<Handle>)
    requires |members| + |enter| <= |data| && members == data[..|members|]
    ensures Merging(data, members, enter, |enter| - 1, |members| - 1, |members| + |enter| - 1, 0)
  {
    assert members[..|members|] == members;
  }

  /** The members below every entry move up behind the rest. */
  method MoveRest(data: array<Handle>, ghost members: seq<Handle>, ghost enter: seq<Handle>, oldest: int, lowest: int, ghost latest: Handle) returns (start: nat)
    requires Merging(data[..], members, enter, -1, oldest, lowest, latest) && StrictlySorted(members) && Sorted(enter)
    modifies data
    ensures start <= |members| + |enter| <= data.Length && Merged(data[..][start..|members| + |enter|], members, 0, enter, 0)
  {
    hide Merged, Fits, Sorted, StrictlySorted;
    var oldIndex, newIndex := oldest, lowest;
    ghost var last := latest;
    while oldIndex >= 0
      invariant Merging(data[..], members, enter, -1, oldIndex, newIndex, last)
    {
      MoveMember(data, members, enter, -1, oldIndex, newIndex, last);
      last, oldIndex, newIndex := 0, oldIndex - 1, newIndex - 1;
    }
    start := newIndex + 1;
  }

  lemma MergeDone(out: seq<Handle>, members: seq<Handle>, enter: seq<Handle>)
    requires Merged(out, members, 0, enter, 0)
    ensures StrictlySorted(out) && forall x :: x in out <==> x in members || x in enter
  {
    assert enter[0..] == enter && members[..0] == [];
  }

  /**
   Where the removal stands: the union occupies data[start..], its first m elements have been looked at,
   and those of them that no one leaves have been moved to data[..kept].
   */
  ghost predicate Removing(data: seq<Handle>, union: seq<Handle>, leave: seq<Handle>, start: nat, i: nat, m: nat, kept: nat)
  {
    && start + |union| <= |data| && i <= |leave| && kept <= m <= |union|
    && data[start + m..start + |union|] == union[m..]
    && Kept(data[..kept], union, leave, m)
    && (m < |union| ==> forall k :: 0 <= k < i ==> leave[k] < union[m])
  }

  ghost predicate Kept(out: seq<Handle>, union: seq<Handle>, leave: seq<Handle>, m: nat)
    requires m <= |union|
  {
    StrictlySorted(out) && forall x :: x in out <==> x in union[..m] && x !in leave
  }

  lemma UnionHead(union: seq<Handle>, m: nat)
    requires m < |union| && StrictlySorted(union)
    ensures union[..m + 1] == union[..m] + [union[m]] && union[m] !in union[..m]
    ensures forall x :: x in union[..m] ==> x < union[m]
  {
  }

  lemma AppendSorted(out: seq<Handle>, x: Handle)
    requires StrictlySorted(out) && forall y :: y in out ==> y < x
    ensures StrictlySorted(out + [x])
  {
    assert forall i :: 0 <= i < |out| ==> out[i] in out;
  }

  lemma KeepOne(out: seq<Handle>, union: seq<Handle>, leave: seq<Handle>, m: nat)
    requires m < |union| && StrictlySorted(union) && Kept(out, union, leave, m) && union[m] !in leave
    ensures Kept(out + [union[m]], union, leave, m + 1)
  {
    UnionHead(union, m);
    AppendSorted(out, union[m]);
  }

  lemma DropOne(out: seq<Handle>, union: seq<Handle>, leave: seq<Handle>, m: nat)
    requires m < |union| && StrictlySorted(union) && Kept(out, union, leave, m) && union[m] in leave
    ensures Kept(out, union, leave, m + 1)
  {
    UnionHead(union, m);
  }

  lemma NotLeaving(union: seq<Handle>, leave: seq<Handle>, i: nat, m: nat)
    requires m < |union| && i <= |leave| && Sorted(leave) && (forall k :: 0 <= k < i ==> leave[k] < union[m])
    requires i < |leave| ==> union[m] < leave[i]
    ensures union[m] !in leave
  {
  }

  method KeepMember(data: array<Handle>, ghost union: seq<Handle>, ghost leave: seq<Handle>, ghost start: nat, ghost i: nat, ghost m: nat, kept: nat, oldIndex: nat)
    requires Removing(data[..], union, leave, start, i, m, kept) && m < |union| && oldIndex == start + m
    requires StrictlySorted(union) && Sorted(leave) && (i < |leave| ==> union[m] < leave[i])
    modifies data
    ensures Removing(data[..], union, leave, start, i, m + 1, kept + 1)
  {
    NotLeaving(union, leave, i, m);
    KeepOne(data[..][..kept], union, leave, m);
    assert m + 1 < |union| ==> union[m] < union[m + 1];
    hide Kept, Sorted, StrictlySorted;
    assert data[oldIndex] == data[..][start + m..start + |union|][0];
    data[kept] := data[oldIndex];
    assert data[..][..kept + 1] == old(data[..])[..kept] + [union[m]];
    assert data[..][start + m + 1..start + |union|] == union[m + 1..];
  }

  lemma RemovingAt(data: seq<Handle>, union: seq<Handle>, leave: seq<Handle>, start: nat, i: nat, m: nat, kept: nat)
    requires Removing(data, union, leave, start, i, m, kept) && m < |union|
    ensures data[start + m] == union[m]
    ensures i < |leave| && leave[i] < union[m] ==> Removing(data, union, leave, start, i + 1, m, kept)
  {
    assert data[start + m] == data[start + m..start + |union|][0];
  }

  lemma DropMember(data: seq<Handle>, union: seq<Handle>, leave: seq<Handle>, start: nat, i: nat, m: nat, kept: nat)
    requires Removing(data, union, leave, start, i, m, kept) && m < |union| && i < |leave| && leave[i] == union[m]
    requires StrictlySorted(union)
    ensures Removing(data, union, leave, start, i + 1, m + 1, kept)
  {
    DropOne(data[..kept], union, leave, m);
    assert data[start + m + 1..start + |union|] == data[start + m..start + |union|][1..];
  }

  /** The loop over the leaving handles. */
  method RemoveLoop(data: array<Handle>, start: nat, newSize: nat, leave: seq<Handle>, ghost union: seq<Handle>) returns (i: nat, newIndex: nat, oldIndex: nat, count: nat)
    requires start <= newSize <= data.Length && union == data[..][start..newSize] && StrictlySorted(union) && Sorted(leave)
    modifies data
    ensures start <= oldIndex && Removing(data[..], union, leave, start, i, oldIndex - start, newIndex)
    ensures i == |leave| || oldIndex == newSize
    ensures count - newIndex == newSize - oldIndex || (oldIndex == newSize && count == 0)
  {
    RemovingStart(data[..], union, leave, start);
    i, newIndex, oldIndex, count := RemoveTurns(data, start, newSize, leave, union);
  }

  method RemoveTurns(data: array<Handle>, start: nat, newSize: nat, leave: seq<Handle>, ghost union: seq<Handle>) returns (i: nat, newIndex: nat, oldIndex: nat, count: nat)
    requires newSize == start + |union| && Removing(data[..], union, leave, start, 0, 0, 0) && StrictlySorted(union) && Sorted(leave)
    modifies data
    ensures start <= oldIndex && Removing(data[..], union, leave, start, i, oldIndex - start, newIndex)
    ensures i == |leave| || oldIndex == newSize
    ensures count - newIndex == newSize - oldIndex || (oldIndex == newSize && count == 0)
  {
    oldIndex, newIndex, count, i := start, 0, newSize - start, 0;
    hide Removing, Kept, Sorted, StrictlySorted;
    while i < |leave|
      invariant i <= |leave| && start <= oldIndex <= newSize && Removing(data[..], union, leave, start, i, oldIndex - start, newIndex)
      invariant count - newIndex == newSize - oldIndex
      decreases |leave| - i + newSize - oldIndex
    {
      if oldIndex >= newSize {
        count := 0;
        break;
      }
      i, newIndex, oldIndex, count := RemoveTurn(data, start, newSize, leave, union, i, newIndex, oldIndex, count);
    }
  }

  lemma RemovingStart(data: seq<Handle>, union: seq<Handle>, leave: seq<Handle>, start: nat)
    requires start + |union| <= |data| && union == data[start..start + |union|]
    ensures Removing(data, union, leave, start, 0, 0, 0)
  {
  }

  /** One turn of the loop: a member is dropped or kept, or a request names no member; the `--i` of the source stays at the same request. */
  method RemoveTurn(data: array<Handle>, ghost start: nat, ghost newSize: nat, leave: seq<Handle>, ghost union: seq<Handle>, request: nat, kept: nat, from: nat, before: nat)
    returns (i: nat, newIndex: nat, oldIndex: nat, count: nat)
    requires request < |leave| && start <= from < newSize == start + |union| && before - kept == newSize - from
    requires Removing(data[..], union, leave, start, request, from - start, kept) && StrictlySorted(union) && Sorted(leave)
    modifies data
    ensures i <= |leave| && start <= oldIndex <= newSize && Removing(data[..], union, leave, start, i, oldIndex - start, newIndex)
    ensures count - newIndex == newSize - oldIndex && request <= i && from <= oldIndex && request + from < i + oldIndex
  {
    hide Removing, Kept, Sorted, StrictlySorted;
    RemovingAt(data[..], union, leave, start, request, from - start, kept);
    RemovingFits(data[..], union, leave, start, request, from - start, kept);
    var handle, p := leave[request], data[from];
    assert p == union[from - start];
    i, newIndex, oldIndex, count := request, kept, from, before;
    if handle == p {
      DropMember(data[..], union, leave, start, request, from - start, kept);
      count, oldIndex, i := before - 1, from + 1, request + 1;
    } else if handle > p {
      KeepMember(data, union, leave, start, request, from - start, kept, from);
      newIndex, oldIndex := kept + 1, from + 1;
    } else {
      i := request + 1;
    }
  }

  lemma RemovingFits(data: seq<Handle>, union: seq<Handle>, leave: seq<Handle>, start: nat, i: nat, m: nat, kept: nat)
    requires Removing(data, union, leave, start, i, m, kept)
    ensures start + |union| <= |data|
  {
  }

  /** Forward deletion; returns the number of members left, which are in data[..number]. */
  method RemoveLeave(data: array<Handle>, start: nat, newSize: nat, leave: seq<Handle>) returns (number: nat)
    requires start <= newSize <= data.Length && StrictlySorted(data[start..newSize]) && Sorted(leave)
    modifies data
    ensures number <= data.Length && StrictlySorted(data[..number])
    ensures forall x :: x in data[..number] <==> x in old(data[start..newSize]) && x !in leave
  {
    ghost var union := data[start..newSize];
    assert union == data[..][start..newSize];
    hide Removing, Sorted;
    var i, newIndex, oldIndex, count := RemoveLoop(data, start, newSize, leave, union);
    number := KeepRest(data, union, leave, start, i, newIndex, oldIndex, count);
  }

  /** The last loop of combine_queue. */
  method KeepRest(data: array<Handle>, ghost union: seq<Handle>, ghost leave: seq<Handle>, ghost start: nat, ghost i: nat, kept: nat, from: nat, count: nat) returns (number: nat)
    requires start <= from && Removing(data[..], union, leave, start, i, from - start, kept)
    requires StrictlySorted(union) && Sorted(leave) && (i == |leave| || from == start + |union|)
    requires count - kept == start + |union| - from || (from == start + |union| && count == 0)
    modifies data
    ensures number <= data.Length && StrictlySorted(data[..number])
    ensures forall x :: x in data[..number] <==> x in union && x !in leave
  {
    var newIndex, oldIndex := kept, from;
    while newIndex < count
      invariant start <= oldIndex && Removing(data[..], union, leave, start, i, oldIndex - start, newIndex)
      invariant i == |leave| || oldIndex == start + |union|
      invariant count - newIndex == start + |union| - oldIndex || (oldIndex == start + |union| && count == 0)
    {
      KeepMember(data, union, leave, start, i, oldIndex - start, newIndex, oldIndex);
      newIndex, oldIndex := newIndex + 1, oldIndex + 1;
    }
    number := newIndex;
    assert data[..number] == data[..][..number] && union[..|union|] == union;
  }

  // ---------------------------------------------------------------------------
  // The group
  // ---------------------------------------------------------------------------

  lemma HasFirst(a: seq<Handle>)
    requires a != []
    ensures a[0] in a
  {
  }

  /** A strictly sorted list is determined by its elements. */
  lemma {:induction false} SortedUnique(a: seq<Handle>, b: seq<Handle>)
    requires StrictlySorted(a) && StrictlySorted(b) && forall x :: x in a <==> x in b
    ensures a == b
  {
    if a != [] { HasFirst(a); }
    if b != [] { HasFirst(b); }
    if a != [] {
      assert a[0] == b[0];
      assert a == [a[0]] + a[1..] && b == [b[0]] + b[1..];
      forall x
        ensures x in a[1..] <==> x in b[1..]
      {
        assert x in a[1..] <==> x in a && x != a[0];
        assert x in b[1..] <==> x in b && x != b[0];
      }
      SortedUnique(a[1..], b[1..]);
    }
  }

  lemma NoZero(s: seq<Handle>, harbor: nat)
    requires Local(s, harbor)
    ensures 0 !in s
  {
  }

  lemma SetAlgebra(members: seq<Handle>, enter: seq<Handle>, leave: seq<Handle>, union: seq<Handle>, out: seq<Handle>, harbor: nat)
    requires Local(members, harbor) && Local(enter, harbor)
    requires forall x :: x in union <==> x in members || x in enter
    requires forall x :: x in out <==> x in union && x !in leave
    ensures Local(out, harbor) && Local([], harbor)
    ensures (set x | x in out) == ((set x | x in members) + set x | x in enter) - set x | x in leave
  {
  }

  class Group {
    var enterQueue: seq<Handle>
    var leaveQueue: seq<Handle>
    var data: array<Handle>
    var number: nat
    ghost const harbor: nat

    ghost predicate Valid()
      reads this, data
    {
      && number <= data.Length && StrictlySorted(data[..number])
      && Local(data[..number], harbor) && Local(enterQueue, harbor) && Local(leaveQueue, harbor)
    }

    ghost function Members(): set<Handle>
      requires number <= data.Length
      reads this, data
    {
      set x | x in data[..number]
    }

    constructor (ghost home: nat)
      ensures Valid() && Members() == {} && enterQueue == leaveQueue == [] && harbor == home && fresh(data)
    {
      enterQueue, leaveQueue, number, harbor := [], [], 0, home;
      data := new Handle[0];
    }

    method Enter(handle: Handle)
      requires Valid() && InHarbor(handle, harbor)
      modifies this`enterQueue
      ensures Valid() && enterQueue == old(enterQueue) + [handle]
    {
      enterQueue := enterQueue + [handle];
    }

    method Leave(handle: Handle)
      requires Valid() && InHarbor(handle, harbor)
      modifies this`leaveQueue
      ensures Valid() && leaveQueue == old(leaveQueue) + [handle]
    {
      leaveQueue := leaveQueue + [handle];
    }

    /** realloc of the member array. */
    method Reserve(size: nat)
      requires Valid()
      modifies this`data
      ensures Valid() && data.Length >= size && data[..number] == old(data[..number]) && (data == old(data) || fresh(data))
    {
      if size > data.Length {
        var bigger := new Handle[size];
        forall k | 0 <= k < number {
          bigger[k] := data[k];
        }
        data := bigger;
        assert data[..number] == old(data[..number]);
      }
    }

    /** combine_queue: whatever the order and the repetition of the requests, (members + enter) - leave. */
    method Combine()
      requires Valid()
      modifies this, data
      ensures Valid() && enterQueue == leaveQueue == [] && (data == old(data) || fresh(data))
      ensures Members() == (old(Members()) + set x | x in old(enterQueue)) - set x | x in old(leaveQueue)
    {
      hide StrictlySorted, Sorted, InHarbor, Local;
      var enter := Qsort(enterQueue, harbor);
      var leave := Qsort(leaveQueue, harbor);
      NoZero(enterQueue, harbor);
      Reserve(number + |enter|);
      ghost var members := data[..number];
      var start := MergeEnter(data, number, enter);
      ghost var union := data[start..number + |enter|];
      var left := RemoveLeave(data, start, number + |enter|, leave);
      SetAlgebra(members, enterQueue, leaveQueue, union, data[..left], harbor);
      number, enterQueue, leaveQueue := left, [], [];
    }
  }
}
