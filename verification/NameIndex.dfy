/** The names of local services: an array sorted by strcmp, searched by bisection, compacted when a handle retires. */
module NameIndex {
  import opened Wrappers

  datatype Entry = Entry(name: string, handle: nat)

  /** strcmp: negative, zero or positive. */
  function Compare(a: string, b: string): int
  {
    if a == [] && b == [] then 0
    else if a == [] then -1
    else if b == [] then 1
    else if a[0] != b[0] then a[0] as int - b[0] as int
    else Compare(a[1..], b[1..])
  }

  predicate Less(a: string, b: string)
  {
    Compare(a, b) < 0
  }

  lemma {:induction false} CompareZero(a: string, b: string)
    ensures Compare(a, b) == 0 <==> a == b
  {
    if a != [] && b != [] && a[0] == b[0] {
      CompareZero(a[1..], b[1..]);
      assert a == [a[0]] + a[1..] && b == [b[0]] + b[1..];
    }
  }

  lemma {:induction false} CompareFlips(a: string, b: string)
    ensures Compare(a, b) < 0 <==> Compare(b, a) > 0
  {
    if a != [] && b != [] && a[0] == b[0] {
      CompareFlips(a[1..], b[1..]);
    }
  }

  lemma {:induction false} LessTransitive(a: string, b: string, c: string)
    requires Less(a, b) && Less(b, c)
    ensures Less(a, c)
  {
    if a != [] && b != [] && c != [] && a[0] == b[0] == c[0] {
      LessTransitive(a[1..], b[1..], c[1..]);
    }
  }

  ghost predicate Sorted(s: seq<Entry>)
  {
    forall i, j :: 0 <= i < j < |s| ==> Less(s[i].name, s[j].name)
  }

  ghost predicate AllBelow(s: seq<Entry>, k: nat, name: string)
    requires k <= |s|
  {
    forall i :: 0 <= i < k ==> Less(s[i].name, name)
  }

  ghost predicate AllAbove(s: seq<Entry>, k: nat, name: string)
  {
    forall i :: k <= i < |s| ==> Less(name, s[i].name)
  }

  lemma BelowUpTo(s: seq<Entry>, k: nat, name: string)
    requires k < |s| && Sorted(s) && Less(s[k].name, name)
    ensures AllBelow(s, k + 1, name)
  {
    forall i | 0 <= i < k
      ensures Less(s[i].name, name)
    {
      LessTransitive(s[i].name, s[k].name, name);
    }
  }

  lemma AboveFrom(s: seq<Entry>, k: nat, name: string)
    requires k < |s| && Sorted(s) && Less(name, s[k].name)
    ensures AllAbove(s, k, name)
  {
    forall i | k < i < |s|
      ensures Less(name, s[i].name)
    {
      LessTransitive(name, s[k].name, s[i].name);
    }
  }

  /** The two halves of a failed search leave no place for the name. */
  lemma NotThere(s: seq<Entry>, k: nat, name: string)
    requires k <= |s| && AllBelow(s, k, name) && AllAbove(s, k, name)
    ensures forall e :: e in s ==> e.name != name
  {
    CompareZero(name, name);
  }

  lemma InsertKeepsSorted(s: seq<Entry>, k: nat, e: Entry)
    requires k <= |s| && Sorted(s) && AllBelow(s, k, e.name) && AllAbove(s, k, e.name)
    ensures Sorted(s[..k] + [e] + s[k..])
  {
  }

  /** The entries of other handles, in order. */
  ghost function Others(s: seq<Entry>, handle: nat): seq<Entry>
  {
    if s == [] then []
    else
      var k := |s| - 1;
      Others(s[..k], handle) + (if s[k].handle == handle then [] else [s[k]])
  }

  lemma {:induction false} OthersMembers(s: seq<Entry>, handle: nat)
    ensures |Others(s, handle)| <= |s|
    ensures forall e :: e in Others(s, handle) <==> e in s && e.handle != handle
  {
    if s != [] {
      var k := |s| - 1;
      OthersMembers(s[..k], handle);
      assert s == s[..k] + [s[k]];
    }
  }

  lemma {:induction false} OthersSorted(s: seq<Entry>, handle: nat)
    requires Sorted(s)
    ensures Sorted(Others(s, handle))
  {
    if s != [] {
      var k := |s| - 1;
      OthersSorted(s[..k], handle);
      OthersMembers(s[..k], handle);
      var init := Others(s[..k], handle);
      forall i | 0 <= i < |init|
        ensures Less(init[i].name, s[k].name)
      {
        assert init[i] in init;
        assert init[i] in s[..k];
      }
    }
  }

  class Names {
    var name: array<Entry>
    var count: nat

    ghost predicate Valid()
      reads this, name
    {
      0 < name.Length && count <= name.Length && Sorted(name[..count])
    }

    ghost function Entries(): seq<Entry>
      requires count <= name.Length
      reads this, name
    {
      name[..count]
    }

    constructor ()
      ensures Valid() && Entries() == [] && fresh(name)
    {
      count := 0;
      name := new Entry[2](_ => Entry("", 0));
    }

    /** The bisection shared by findname and _insert_name: the index of the name, or where it belongs. */
    method Search(key: string) returns (found: bool, at: nat)
      requires Valid()
      ensures at <= count
      ensures found ==> at < count && name[at].name == key
      ensures !found ==> AllBelow(Entries(), at, key) && AllAbove(Entries(), at, key)
    {
      ghost var s := Entries();
      var begin, end := 0, count - 1;
      while begin <= end
        invariant 0 <= begin <= end + 1 <= count
        invariant AllBelow(s, begin, key) && AllAbove(s, end + 1, key)
      {
        var mid := (begin + end) / 2;
        var c := Compare(name[mid].name, key);
        assert name[mid] == s[mid];
        CompareZero(name[mid].name, key);
        if c == 0 {
          return true, mid;
        }
        if c < 0 {
          BelowUpTo(s, mid, key);
          begin := mid + 1;
        } else {
          CompareFlips(key, name[mid].name);
          AboveFrom(s, mid, key);
          end := mid - 1;
        }
      }
      return false, begin;
    }

    /** skynet_handle_findname, with None for its answer 0: agrees with the set of names bound. */
    method Find(key: string) returns (handle: Option<nat>)
      requires Valid()
      ensures handle.Some? ==> Entry(key, handle.value) in Entries()
      ensures handle.None? ==> forall e :: e in Entries() ==> e.name != key
    {
      var found, at := Search(key);
      if found {
        assert Entries()[at] == name[at];
        handle := Some(name[at].handle);
      } else {
        NotThere(Entries(), at, key);
        handle := None;
      }
    }

    /** The first part of _insert_name_before: free one place, in the array or in one twice as long. */
    method MakeRoom(before: nat)
      requires Valid() && before <= count
      modifies this`name, name
      ensures count < name.Length && (name == old(name) || fresh(name))
      ensures forall k :: 0 <= k < before ==> name[k] == old(name[k])
      ensures forall k :: before < k <= count ==> name[k] == old(Entries())[k - 1]
    {
      ghost var s := Entries();
      if count >= name.Length {
        var bigger := new Entry[name.Length * 2](_ => Entry("", 0));
        forall i | 0 <= i < before {
          bigger[i] := name[i];
        }
        forall i | before <= i < count {
          bigger[i + 1] := name[i];
        }
        name := bigger;
      } else {
        var i := count;
        while i > before
          invariant before <= i <= count && name == old(name)
          invariant forall k :: 0 <= k < i ==> name[k] == s[k]
          invariant forall k :: i < k <= count ==> name[k] == s[k - 1]
        {
          name[i] := name[i - 1];
          i := i - 1;
        }
      }
    }

    /** _insert_name_before. */
    method InsertBefore(key: string, handle: nat, before: nat)
      requires Valid() && before <= count
      modifies this, name
      ensures count <= name.Length && 0 < name.Length && (name == old(name) || fresh(name))
      ensures Entries() == old(Entries())[..before] + [Entry(key, handle)] + old(Entries())[before..]
    {
      MakeRoom(before);
      name[before] := Entry(key, handle);
      count := count + 1;
    }

    /** _insert_name: a name that is bound stays bound to its handle. */
    method Insert(key: string, handle: nat) returns (inserted: bool)
      requires Valid()
      modifies this, name
      ensures Valid() && (name == old(name) || fresh(name))
      ensures inserted <==> forall e :: e in old(Entries()) ==> e.name != key
      ensures forall e :: e in Entries() <==> e in old(Entries()) || (inserted && e == Entry(key, handle))
    {
      var found, at := Search(key);
      if found {
        assert Entries()[at] == name[at];
        return false;
      }
      ghost var s := Entries();
      NotThere(s, at, key);
      InsertKeepsSorted(s, at, Entry(key, handle));
      InsertBefore(key, handle, at);
      assert s == s[..at] + s[at..];
      inserted := true;
    }

    /** The compaction loop of skynet_handle_retire. */
    method Retire(handle: nat)
      requires Valid()
      modifies this`count, name
      ensures Valid()
      ensures forall e :: e in Entries() <==> e in old(Entries()) && e.handle != handle
    {
      ghost var s := Entries();
      var i, j := 0, 0;
      while i < count
        invariant j <= i <= count == |s|
        invariant name[..j] == Others(s[..i], handle)
        invariant forall k :: i <= k < count ==> name[k] == s[k]
      {
        assert s[..i + 1][..i] == s[..i];
        if name[i].handle != handle {
          if i != j {
            name[j] := name[i];
          }
          j := j + 1;
        }
        i := i + 1;
      }
      assert s[..i] == s;
      OthersMembers(s, handle);
      OthersSorted(s, handle);
      count := j;
    }
  }
}
