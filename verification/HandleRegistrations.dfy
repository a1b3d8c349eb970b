/** Registrations under way: a doubling keeps the table exactly when no unwritten handle field leads astray. */
module HandleRegistrations {
  import opened Wrappers
  import opened Arithmetic
  import opened HandleTable

  /**
   `given` are the handles of the contexts in the slots; `promised` are the registrations whose handle
   field has not been written yet. The table has 2^lg slots.
   */
  datatype System = System(table: Table, lg: nat, given: map<Context, nat>, promised: map<Context, nat>)

  /** The slots hold exactly the registered contexts, each in the slot of its handle. */
  ghost predicate Holds(slots: Slots, given: map<Context, nat>)
  {
    && |slots| > 0
    && (forall i :: 0 <= i < |slots| && slots[i].Some? ==> slots[i].value in given && Hash(given[slots[i].value], |slots|) == i)
    && (forall c :: c in given ==> slots[Hash(given[c], |slots|)] == Some(c))
  }

  /** Fields that have been written hold the handle that was given. */
  ghost predicate FieldsOk(s: System)
  {
    && (forall c :: c in s.given ==> c in s.table.handles)
    && (forall c :: c in s.promised ==> c in s.table.handles)
    && (forall c :: c in s.given && c !in s.promised ==> s.table.handles[c] == s.given[c])
    && (forall c :: c in s.given && c in s.promised ==> s.promised[c] == s.given[c])
  }

  ghost predicate Valid(s: System)
  {
    && s.lg <= HANDLE_BITS && |s.table.slots| == Pow2(s.lg) && 1 <= s.table.index <= HANDLE_RANGE
    && Holds(s.table.slots, s.given) && FieldsOk(s)
  }

  /** Two contexts never have the same handle. */
  lemma HandlesDiffer(s: System, c: Context, d: Context)
    requires Valid(s) && c in s.given && d in s.given && s.given[c] == s.given[d]
    ensures c == d
  {
    assert s.table.slots[Hash(s.given[c], |s.table.slots|)] == Some(c);
    assert s.table.slots[Hash(s.given[d], |s.table.slots|)] == Some(d);
  }

  /** The field of a registered context gives the slot in the doubled table that its handle would give. */
  ghost predicate Aimed(s: System, c: Context)
  {
    c in s.given && c in s.table.handles && |s.table.slots| > 0
    && Hash(s.table.handles[c], 2 * |s.table.slots|) == Hash(s.given[c], 2 * |s.table.slots|)
  }

  /** The condition for a doubling: every unwritten field happens to give the right slot. */
  ghost predicate StaleHarmless(s: System)
  {
    forall c :: c in s.promised && c in s.given ==> Aimed(s, c)
  }

  /** Doubling a full table neither collides nor misplaces a context if and only if every unwritten field gives the right slot. */
  lemma DoublingExact(s: System)
    requires Valid(s) && AllFull(s.table.slots)
    ensures Known(s.table.slots, s.table.handles)
    ensures var bigger := Copy(s.table.slots, s.table.handles, |s.table.slots|);
            bigger.Some? && Holds(bigger.value, s.given) <==> StaleHarmless(s)
  {
    hide Hash, Copy, Pow2;
    var n := |s.table.slots|;
    if StaleHarmless(s) {
      AimedDoubles(s);
    } else if Copy(s.table.slots, s.table.handles, n).Some? {
      var bigger := Copy(s.table.slots, s.table.handles, n).value;
      var c :| c in s.promised && c in s.given && !Aimed(s, c);
      Misplaced(s, c);
    }
  }

  lemma AimedDoubles(s: System)
    requires Valid(s) && AllFull(s.table.slots) && StaleHarmless(s)
    ensures Known(s.table.slots, s.table.handles)
    ensures var bigger := Copy(s.table.slots, s.table.handles, |s.table.slots|); bigger.Some? && Holds(bigger.value, s.given)
  {
    hide Hash, Copy, Pow2;
    var slots, handles, n := s.table.slots, s.table.handles, |s.table.slots|;
    forall i | 0 <= i < n
      ensures slots[i].value in s.given && slots[i].value in handles && Aimed(s, slots[i].value)
      ensures Hash(Target(slots, handles, i), n) == i
    {
      HashDoubled(s.given[slots[i].value], n);
    }
    CopySucceeds(slots, handles, n);
    CopyAt(slots, handles, n);
    var b := Copy(slots, handles, n).value;
    forall c | c in s.given
      ensures b[Hash(s.given[c], 2 * n)] == Some(c)
    {
      var i := Hash(s.given[c], n);
      assert slots[i] == Some(c);
      assert Target(slots, handles, i) == Hash(s.given[c], 2 * n);
    }
  }

  /** A context whose field gives another slot is put there, if the copy loop gets through: its handle finds it no more. */
  lemma Misplaced(s: System, c: Context)
    requires Valid(s) && AllFull(s.table.slots) && Known(s.table.slots, s.table.handles) && c in s.given && !Aimed(s, c)
    requires Copy(s.table.slots, s.table.handles, |s.table.slots|).Some?
    ensures var bigger := Copy(s.table.slots, s.table.handles, |s.table.slots|).value;
            !Holds(bigger, s.given) && bigger[Hash(s.given[c], |bigger|)] != Some(c)
  {
    hide Hash, Copy, Pow2;
    var slots, handles, n := s.table.slots, s.table.handles, |s.table.slots|;
    CopyAt(slots, handles, n);
    var b := Copy(slots, handles, n).value;
    var j := Hash(s.given[c], 2 * n);
    assert forall i :: 0 <= i < n && slots[i] == Some(c) ==> Target(slots, handles, i) != j;
  }

  /** The assertion of the copy loop fails if and only if two fields meet, and one of the two is unwritten. */
  lemma CollisionExact(s: System)
    requires Valid(s) && AllFull(s.table.slots)
    ensures Known(s.table.slots, s.table.handles)
    ensures Copy(s.table.slots, s.table.handles, |s.table.slots|).None? <==>
            exists c, d :: Meet(s, c, d) && (c in s.promised || d in s.promised)
  {
    hide Hash, Copy, Pow2;
    var slots, handles, n := s.table.slots, s.table.handles, |s.table.slots|;
    CopySucceeds(slots, handles, n);
    if c, d :| Meet(s, c, d) {
      var i, l := Hash(s.given[c], n), Hash(s.given[d], n);
      assert slots[i] == Some(c) && slots[l] == Some(d);
      assert Target(slots, handles, i) == Target(slots, handles, l);
    }
    if i, l :| 0 <= i < l < n && Target(slots, handles, i) == Target(slots, handles, l) {
      var c, d := slots[i].value, slots[l].value;
      HashDoubled(handles[c], n);
      HashDoubled(handles[d], n);
      assert Meet(s, c, d);
    }
  }

  /** Two contexts in the slots whose handle fields give the same slot of the doubled table. */
  ghost predicate Meet(s: System, c: Context, d: Context)
  {
    && |s.table.slots| > 0 && c in s.given && d in s.given && c != d && c in s.table.handles && d in s.table.handles
    && Hash(s.table.handles[c], 2 * |s.table.slots|) == Hash(s.table.handles[d], 2 * |s.table.slots|)
  }

  /**
   The index 0, which the source reserves for the system and findname returns for "not found", is handed out if and only if the
   scan passes the end of the index range before it finds an empty slot; the whole handle is 0 if the harbor is 0 as well.
   */
  lemma ReservedIndex(s: System, harbor: nat, turn: nat, c: Context)
    requires Valid(s) && turn < |s.table.slots|
    ensures var handle := Put(s.table, harbor, turn, c).1.handle;
            (handle % HANDLE_RANGE == 0 <==> turn + s.table.index == HANDLE_RANGE) && (handle == 0 <==> harbor == 0 && turn + s.table.index == HANDLE_RANGE)
  {
    var low := Low(turn, s.table.index);
    RemainderUnique(harbor * HANDLE_RANGE + low, HANDLE_RANGE, harbor, low);
    assert turn + s.table.index < 2 * HANDLE_RANGE by {
      SmallTable(s.lg);
    }
  }
}
