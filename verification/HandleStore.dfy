/** The table of services as the source keeps it, with the locked regions as methods. */
module HandleStore {
  import opened Wrappers
  import opened Arithmetic
  import opened HandleTable
  import opened HandleRegistrations
  import opened HandleRuns

  class HandleStorage {
    const harbor: nat
    var handleIndex: nat
    var slot: array<Option<Context>>
    /** The handle field of every allocated context. */
    var handles: map<Context, nat>
    ghost var lg: nat
    ghost var given: map<Context, nat>
    ghost var promised: map<Context, nat>

    ghost function Now(): System
      reads this, slot
    {
      System(Table(slot[..], handleIndex, handles), lg, given, promised)
    }

    /** No context has been misplaced. */
    ghost predicate Sound()
      reads this, slot
    {
      Valid(Now())
    }

    /** skynet_handle_init. */
    constructor (home: nat)
      ensures Sound() && Now() == Start() && harbor == home && fresh(slot)
    {
      harbor, handleIndex, handles := home, 1, map[];
      slot := new Option<Context>[DEFAULT_SLOT_SIZE](_ => None);
      lg, given, promised := 2, map[], map[];
      new;
      StartValid();
      assert slot[..] == Start().table.slots;
    }

    /** Memory for a context comes with some value in its handle field. */
    method AllocateContext(c: Context, stale: nat)
      requires Sound() && Enabled(Now(), Allocate(c, stale))
      modifies this`handles
      ensures Sound() && Known(old(slot[..]), old(handles)) && |old(slot[..])| > 0 && Do(old(Now()), harbor, Allocate(c, stale)) == Some(Now())
    {
      ValidKnown(Now());
      AllocateKeeps(Now(), c, stale);
      handles := handles[c := stale];
    }

    /** The scan for an empty slot. */
    method ScanSlots() returns (turn: Option<nat>)
      requires slot.Length > 0
      ensures turn == FreeTurn(slot[..], handleIndex, 0)
    {
      hide Hash, Low;
      var i := 0;
      while i < slot.Length
        invariant i <= slot.Length && FreeTurn(slot[..], handleIndex, 0) == FreeTurn(slot[..], handleIndex, i)
      {
        if slot[Hash(Low(i, handleIndex), slot.Length)].None? {
          return Some(i);
        }
        i := i + 1;
      }
      return None;
    }

    /** The copy loop of the doubling; false if its assertion fails. */
    method CopySlots() returns (bigger: array<Option<Context>>, ok: bool)
      requires AllFull(slot[..]) && Known(slot[..], handles)
      ensures fresh(bigger) && ok == Copy(slot[..], handles, slot.Length).Some?
      ensures ok ==> bigger[..] == Copy(slot[..], handles, slot.Length).value
    {
      hide Hash;
      bigger := new Option<Context>[2 * slot.Length](_ => None);
      var i := 0;
      assert bigger[..] == Copy(slot[..], handles, 0).value;
      while i < slot.Length
        invariant i <= slot.Length && Copy(slot[..], handles, i) == Some(bigger[..])
      {
        var hash := Hash(handles[slot[i].value], 2 * slot.Length);
        assert hash == Target(slot[..], handles, i);
        if bigger[hash].Some? {
          Stuck(slot[..], handles, i + 1, slot.Length);
          return bigger, false;
        }
        ghost var moved := bigger[..][hash := slot[i]];
        bigger[hash] := slot[i];
        assert bigger[..] == moved;
        i := i + 1;
      }
      return bigger, true;
    }

    /** The slot of the turn is taken, and the next scan starts behind its index. */
    method TakeSlot(turn: nat, c: Context) returns (handle: nat)
      requires turn < slot.Length
      modifies this`handleIndex, slot
      ensures (Table(slot[..], handleIndex, handles), Registered(handle)) == Put(old(Now()).table, harbor, turn, c)
    {
      var low := Low(turn, handleIndex);
      var hash := Hash(low, slot.Length);
      ghost var taken := slot[..][hash := Some(c)];
      slot[hash] := Some(c);
      assert slot[..] == taken;
      handleIndex := low + 1;
      handle := harbor * HANDLE_RANGE + low;
    }

    /**
     The locked region of skynet_handle_register. It keeps the table sound if and only if the registration is orderly; the
     field of the new context is not touched.
     */
    method LockedTake(c: Context) returns (reply: Reply)
      requires Sound() && Enabled(Now(), Take(c))
      modifies this, slot
      ensures handles == old(handles) && (slot == old(slot) || fresh(slot))
      ensures Known(old(slot[..]), old(handles)) && |old(slot[..])| > 0 && reply == LockedRegister(old(Now()).table, harbor, c).1
      ensures reply.Registered? ==> Do(old(Now()), harbor, Take(c)) == Some(Now())
      ensures reply.Registered? && Sound() <==> old(Orderly(Now(), Take(c)))
      ensures !reply.Registered? ==> Now() == old(Now()) && slot == old(slot) && Do(old(Now()), harbor, Take(c)).None?
    {
      hide FreeTurn, Copy, Put, Hash, Orderly, LockedRegister, Valid;
      ghost var s := Now();
      ValidKnown(s);
      LockedCases(s, harbor, c);
      TakeExact(s, harbor, c);
      var turn := ScanSlots();
      if turn.None? {
        SoundSize(s);
        LargestTable(lg);
        if slot.Length * 2 - 1 > HANDLE_RANGE - 1 {
          return TooLarge;
        }
        var bigger, ok := CopySlots();
        if !ok {
          return Collided;
        }
        slot, lg := bigger, lg + 1;
        turn := ScanSlots();
      }
      TurnFree(slot[..], handleIndex);
      var handle := TakeSlot(turn.value, c);
      reply := Registered(handle);
      given, promised := given[c := handle], promised[c := handle];
    }

    /** skynet_context_init, after the table has been unlocked. */
    method WriteField(c: Context, handle: nat)
      requires Sound() && c in promised && promised[c] == handle
      modifies this`handles, this`promised
      ensures Sound() && Known(old(slot[..]), old(handles)) && |old(slot[..])| > 0 && Do(old(Now()), harbor, Write(c)) == Some(Now())
    {
      ValidKnown(Now());
      WriteKeeps(Now(), c);
      handles, promised := handles[c := handle], promised - {c};
    }

    /**
     skynet_handle_register while no other registration is under way: a handle of the harbor that no live context has. Afterwards it finds the
     new context, and every other live context is found as before.
     */
    method Register(c: Context) returns (reply: Reply)
      requires Sound() && Enabled(Now(), Take(c)) && promised == map[]
      modifies this, slot
      ensures Sound() && promised == map[] && (slot == old(slot) || fresh(slot))
      ensures reply.Registered? ==> given == old(given)[c := reply.handle] && forall d :: d in old(given) ==> old(given)[d] != reply.handle
      ensures reply.Registered? ==> reply.handle / HANDLE_RANGE == harbor
      ensures slot.Length > 0 && forall d :: d in given ==> Find(Now().table, given[d]) == Some(d)
      ensures !reply.Registered? ==> reply == TooLarge && old(lg) == HANDLE_BITS && AllFull(old(slot[..])) && Now() == old(Now())
    {
      hide FreeTurn, Copy, Put, Hash, LockedRegister, Valid;
      ghost var s := Now();
      ValidKnown(s);
      LockedCases(s, harbor, c);
      QuietTake(s, harbor, c);
      reply := LockedTake(c);
      if reply.Registered? {
        NewHandle(s, harbor, c);
        WriteField(c, reply.handle);
        assert promised == map[];
      }
      AllFound(Now());
    }

    /** skynet_handle_retire, on the table. */
    method RetireHandle(handle: nat) returns (c: Option<Context>)
      requires Sound()
      modifies this`given, slot
      ensures Sound() && Known(old(slot[..]), old(handles)) && |old(slot[..])| > 0
      ensures c == Find(old(Now()).table, handle) && Do(old(Now()), harbor, Retire(handle)) == Some(Now())
      ensures slot.Length > 0 && Find(Now().table, handle).None?
      ensures forall other: nat :: other != handle ==> Find(Now().table, other) == Find(old(Now()).table, other)
      ensures given == if c.Some? then old(given) - {c.value} else old(given)
      ensures handles == old(handles) && promised == old(promised) && handleIndex == old(handleIndex)
    {
      ghost var s := Now();
      ValidKnown(s);
      RetireFinds(s.table, handle);
      c := Grab(handle);
      if c.Some? {
        RetireKeeps(s, handle);
        var hash := Hash(handle, slot.Length);
        ghost var cleared := slot[..][hash := None];
        slot[hash] := None;
        assert slot[..] == cleared;
        given := given - {c.value};
      }
    }

    /** skynet_handle_grab. */
    method Grab(handle: nat) returns (c: Option<Context>)
      requires Sound()
      ensures slot.Length > 0 && c == Find(Now().table, handle)
    {
      ValidKnown(Now());
      c := slot[Hash(handle, slot.Length)];
      if c.Some? && handles[c.value] != handle {
        c := None;
      }
    }
  }

  /** With the slot of the context emptied that is found under the handle, nothing is found there any more, and every other handle finds what it found. */
  lemma RetireFinds(t: Table, handle: nat)
    requires |t.slots| > 0
    ensures var emptied := t.(slots := t.slots[Hash(handle, |t.slots|) := None]);
            && Find(emptied, handle).None?
            && (Find(t, handle).Some? ==> forall other: nat :: other != handle ==> Find(emptied, other) == Find(t, other))
  {
    hide Hash;
  }

  /** Contexts registered one after the other get different handles, and each is found under its own. */
  method RegisterAll(storage: HandleStorage, count: nat) returns (handles: seq<nat>)
    requires storage.Sound() && storage.promised == map[] && storage.given == map[]
    modifies storage, storage.slot
    ensures storage.Sound() && storage.promised == map[] && (storage.slot == old(storage.slot) || fresh(storage.slot))
    ensures |handles| <= count && (|handles| < count ==> storage.lg == HANDLE_BITS)
    ensures forall c :: 0 <= c < |handles| ==> c in storage.given && storage.given[c] == handles[c]
    ensures forall c, d :: 0 <= c < d < |handles| ==> handles[c] != handles[d]
    ensures storage.slot.Length > 0 && forall c :: 0 <= c < |handles| ==> Find(storage.Now().table, handles[c]) == Some(c)
  {
    hide Valid, Find;
    handles := [];
    while |handles| < count
      invariant |handles| <= count && storage.Sound() && storage.promised == map[] && (storage.slot == old(storage.slot) || fresh(storage.slot))
      invariant forall c: nat :: c in storage.given <==> c < |handles|
      invariant forall c :: 0 <= c < |handles| ==> storage.given[c] == handles[c]
      invariant forall c, d :: 0 <= c < d < |handles| ==> handles[c] != handles[d]
    {
      var c := |handles|;
      storage.AllocateContext(c, 0);
      var reply := storage.Register(c);
      if !reply.Registered? {
        break;
      }
      handles := handles + [reply.handle];
    }
    AllFound(storage.Now());
  }

  lemma SoundSize(s: System)
    requires Valid(s)
    ensures s.lg <= HANDLE_BITS && |s.table.slots| == Pow2(s.lg)
  {
  }

  /** A copy loop that has stopped has no later turns. */
  lemma {:induction false} Stuck(slots: Slots, handles: map<Context, nat>, k: nat, n: nat)
    requires AllFull(slots) && Known(slots, handles) && k <= n <= |slots| && Copy(slots, handles, k).None?
    ensures Copy(slots, handles, n).None?
    decreases n
  {
    if k < n {
      Stuck(slots, handles, k, n - 1);
    }
  }

  /** With no other registration under way every registration is orderly, unless the table can grow no more. */
  lemma QuietTake(s: System, harbor: nat, c: Context)
    requires Valid(s) && Enabled(s, Take(c)) && s.promised == map[]
    ensures Known(s.table.slots, s.table.handles) && |s.table.slots| > 0
    ensures Orderly(s, Take(c)) || (s.lg == HANDLE_BITS && LockedRegister(s.table, harbor, c).1 == TooLarge && AllFull(s.table.slots))
  {
    hide FreeTurn, Copy, Put, Hash, LockedRegister;
    LockedCases(s, harbor, c);
  }

  /** Whatever slot is taken, the handle is in the range of the harbor. */
  lemma OfHarbor(harbor: nat)
    ensures forall t: Table, turn: nat, c: Context :: turn < |t.slots| ==> Put(t, harbor, turn, c).1.Registered? && Put(t, harbor, turn, c).1.handle / HANDLE_RANGE == harbor
  {
    forall t: Table, turn: nat, c: Context | turn < |t.slots|
      ensures Put(t, harbor, turn, c).1.Registered? && Put(t, harbor, turn, c).1.handle / HANDLE_RANGE == harbor
    {
      var low := Low(turn, t.index);
      RemainderUnique(harbor * HANDLE_RANGE + low, HANDLE_RANGE, harbor, low);
    }
  }

  /** With no registration under way every live context is found under its handle. */
  lemma AllFound(s: System)
    requires Valid(s) && s.promised == map[]
    ensures |s.table.slots| > 0 && forall d :: d in s.given ==> Find(s.table, s.given[d]) == Some(d)
  {
    hide Hash;
  }

  /** The handle that a registration gets is one that no registered context has. */
  lemma NewHandle(s: System, harbor: nat, c: Context)
    requires Valid(s) && Enabled(s, Take(c)) && Orderly(s, Take(c))
    ensures Known(s.table.slots, s.table.handles) && |s.table.slots| > 0
    ensures Do(s, harbor, Take(c)).Some? && var s' := Do(s, harbor, Take(c)).value;
            c in s'.given && s'.given == s.given[c := s'.given[c]] && s'.given[c] / HANDLE_RANGE == harbor && forall d :: d in s.given ==> s.given[d] != s'.given[c]
  {
    hide FreeTurn, Copy, Put, Hash, LockedRegister, Valid;
    ValidKnown(s);
    StepKeeps(s, harbor, Take(c));
    LockedCases(s, harbor, c);
    OfHarbor(harbor);
    var s' := Do(s, harbor, Take(c)).value;
    forall d | d in s.given
      ensures s.given[d] != s'.given[c]
    {
      if s.given[d] == s'.given[c] {
        HandlesDiffer(s', c, d);
      }
    }
  }
}
