/**
 The hierarchical timing wheel: 256 near slots and four levels of 63 slots.
 The class keeps the wheel of the source; its methods are proved against a plain list of
 pending nodes in insertion order, and the runs of that list are the last part of the file.
 */
module TimingWheel {

  const TIME_NEAR := 256
  const TIME_LEVEL := 64
  const INT_LIMIT := 0x8000_0000

  datatype Event = Event(handle: nat, session: int)

  datatype Node = Node(expire: nat, event: Event)

  /** A list head of the wheel. */
  datatype Slot = Near(index: nat) | Level(level: nat, index: nat)

  predicate ValidSlot(s: Slot)
  {
    match s
    case Near(k) => k < TIME_NEAR
    case Level(i, j) => i < 4 && j < TIME_LEVEL - 1
  }

  // ---------------------------------------------------------------------------
  // Where a node belongs
  // ---------------------------------------------------------------------------

  /** The successive quotients of a time: by 2^8, 2^14, 2^20 and 2^26. */
  datatype Digits = Digits(q0: nat, q1: nat, q2: nat, q3: nat)
  {
    ghost predicate Consistent()
    {
      0 <= q0 - 64 * q1 < 64 && 0 <= q1 - 64 * q2 < 64 && 0 <= q2 - 64 * q3 < 64 && q3 < 32
    }
  }

  function DigitsOf(x: nat): (d: Digits)
    ensures x < INT_LIMIT ==> d.Consistent()
  {
    Digits(x / 0x100, x / 0x4000, x / 0x10_0000, x / 0x400_0000)
  }

  /** The lowest level whose slots tell the two times apart, and the digit there less one. */
  function PlaceDigits(low: nat, e: Digits, n: Digits): (s: Slot)
    requires e.Consistent() && n.Consistent() && n.q0 <= e.q0
    ensures low < TIME_NEAR ==> ValidSlot(s)
  {
    if e.q0 == n.q0 then Near(low)
    else if e.q1 == n.q1 then Level(0, e.q0 - 64 * e.q1 - 1)
    else if e.q2 == n.q2 then Level(1, e.q1 - 64 * e.q2 - 1)
    else if e.q3 == n.q3 then Level(2, e.q2 - 64 * e.q3 - 1)
    else Level(3, e.q3 - 1)
  }

  /** The list a node belongs to at time `now`. */
  function Place(expire: nat, now: nat): (s: Slot)
    requires now <= expire < INT_LIMIT
    ensures ValidSlot(s)
  {
    PlaceDigits(expire % TIME_NEAR, DigitsOf(expire), DigitsOf(now))
  }

  lemma DueSlot(expire: nat, now: nat)
    requires now <= expire < INT_LIMIT
    ensures Place(expire, now) == Near(now % TIME_NEAR) <==> expire == now
  {
  }

  // ---------------------------------------------------------------------------
  // What one tick does to the placement
  // ---------------------------------------------------------------------------

  /** The slot that timer_shift empties when the time has become a multiple of TIME_NEAR. */
  function CarrySlot(m: Digits): (s: Slot)
    requires m.Consistent() && m.q0 > 0
    ensures ValidSlot(s) && s.Level?
  {
    if m.q0 != 64 * m.q1 then Level(0, m.q0 - 64 * m.q1 - 1)
    else if m.q1 != 64 * m.q2 then Level(1, m.q1 - 64 * m.q2 - 1)
    else if m.q2 != 64 * m.q3 then Level(2, m.q2 - 64 * m.q3 - 1)
    else Level(3, m.q3 - 1)
  }

  /** Lists that a cascade of level i refills. */
  predicate Below(s: Slot, i: nat)
  {
    s.Near? || s.level < i
  }

  lemma CarryMoves(low: nat, e: Digits, n: Digits, m: Digits)
    requires e.Consistent() && n.Consistent() && m.Consistent() && m.q0 == n.q0 + 1 && m.q0 <= e.q0
    ensures var c := CarrySlot(m);
            var p, p' := PlaceDigits(low, e, n), PlaceDigits(low, e, m);
            !Below(p, c.level) && (if p == c then Below(p', c.level) else p' == p)
  {
    if m.q0 != 64 * m.q1 {
      assert m.q1 == n.q1;
      assert m.q2 == n.q2;
      assert m.q3 == n.q3;
    } else {
      assert m.q1 == n.q1 + 1;
      if m.q1 != 64 * m.q2 {
        assert m.q2 == n.q2;
        assert m.q3 == n.q3;
      } else {
        assert m.q2 == n.q2 + 1;
        if m.q2 != 64 * m.q3 {
          assert m.q3 == n.q3;
        } else {
          assert m.q3 == n.q3 + 1;
        }
      }
    }
    assert m.q1 <= e.q1;
    assert m.q2 <= e.q2;
    assert m.q3 <= e.q3;
  }

  /** With a carry, exactly the nodes of the carried slot move, and they move to lists that were empty. */
  lemma TickWithCarry(expire: nat, now: nat)
    requires now < expire < INT_LIMIT && (now + 1) % TIME_NEAR == 0
    ensures var c := CarrySlot(DigitsOf(now + 1));
            var p, p' := Place(expire, now), Place(expire, now + 1);
            !Below(p, c.level) && (if p == c then Below(p', c.level) else p' == p)
  {
    assert DigitsOf(now + 1).q0 == DigitsOf(now).q0 + 1;
    CarryMoves(expire % TIME_NEAR, DigitsOf(expire), DigitsOf(now), DigitsOf(now + 1));
  }

  lemma SameQuotients(x: nat)
    requires (x + 1) % TIME_NEAR != 0
    ensures DigitsOf(x + 1) == DigitsOf(x)
  {
    assert (x + 1) / 0x100 == x / 0x100;
    assert (x + 1) / 0x4000 == (x + 1) / 0x100 / 64 && x / 0x4000 == x / 0x100 / 64;
    assert (x + 1) / 0x10_0000 == (x + 1) / 0x4000 / 64 && x / 0x10_0000 == x / 0x4000 / 64;
    assert (x + 1) / 0x400_0000 == (x + 1) / 0x10_0000 / 64 && x / 0x400_0000 == x / 0x10_0000 / 64;
  }

  // ---------------------------------------------------------------------------
  // Selecting from a list
  // ---------------------------------------------------------------------------

  /** The nodes that expire at e, in order. */
  function Of(nodes: seq<Node>, e: nat): seq<Node>
  {
    if nodes == [] then []
    else (if nodes[0].expire == e then [nodes[0]] else []) + Of(nodes[1..], e)
  }

  /** The nodes that do not expire at e, in order. */
  function Without(nodes: seq<Node>, e: nat): seq<Node>
  {
    if nodes == [] then []
    else (if nodes[0].expire == e then [] else [nodes[0]]) + Without(nodes[1..], e)
  }

  ghost predicate InRange(nodes: seq<Node>, now: nat)
  {
    forall n :: n in nodes ==> now <= n.expire < INT_LIMIT
  }

  /** The nodes that belong to slot s at time now, in order. */
  ghost function Bound(nodes: seq<Node>, s: Slot, now: nat): seq<Node>
    requires InRange(nodes, now)
  {
    if nodes == [] then []
    else
      var k := |nodes| - 1;
      Bound(nodes[..k], s, now) + (if Place(nodes[k].expire, now) == s then [nodes[k]] else [])
  }

  lemma {:induction false} OfConcat(a: seq<Node>, b: seq<Node>, e: nat)
    ensures Of(a + b, e) == Of(a, e) + Of(b, e)
  {
    if a == [] {
      assert a + b == b;
    } else {
      OfConcat(a[1..], b, e);
      assert (a + b)[0] == a[0] && (a + b)[1..] == a[1..] + b;
      var head := if a[0].expire == e then [a[0]] else [];
      var p, q := Of(a[1..], e), Of(b, e);
      assert head + (p + q) == (head + p) + q;
    }
  }

  lemma OfAppend(a: seq<Node>, n: Node, e: nat)
    ensures Of(a + [n], e) == if n.expire == e then Of(a, e) + [n] else Of(a, e)
  {
    OfConcat(a, [n], e);
  }

  lemma {:induction false} OfNone(a: seq<Node>, e: nat)
    ensures Of(a, e) == [] <==> forall n :: n in a ==> n.expire != e
  {
    if a != [] {
      OfNone(a[1..], e);
      assert a == [a[0]] + a[1..];
    }
  }

  lemma {:induction false} WithoutNone(a: seq<Node>, e: nat)
    ensures Of(a, e) == [] ==> Without(a, e) == a
  {
    if a != [] {
      WithoutNone(a[1..], e);
    }
  }

  lemma {:induction false} OfAll(a: seq<Node>, e: nat)
    requires forall n :: n in a ==> n.expire == e
    ensures Of(a, e) == a
  {
    if a != [] {
      OfAll(a[1..], e);
      assert a == [a[0]] + a[1..];
    }
  }

  lemma {:induction false} OfWithout(a: seq<Node>, e: nat, f: nat)
    ensures Of(Without(a, f), e) == if e == f then [] else Of(a, e)
    ensures forall n :: n in Without(a, f) <==> n in a && n.expire != f
  {
    if a != [] {
      OfWithout(a[1..], e, f);
      var head := if a[0].expire == f then [] else [a[0]];
      OfConcat(head, Without(a[1..], f), e);
      assert a == [a[0]] + a[1..];
    }
  }

  lemma {:induction false} BoundMembers(a: seq<Node>, s: Slot, now: nat)
    requires InRange(a, now)
    ensures forall n :: n in Bound(a, s, now) <==> n in a && Place(n.expire, now) == s
  {
    if a != [] {
      var k := |a| - 1;
      BoundMembers(a[..k], s, now);
      assert a == a[..k] + [a[k]];
    }
  }

  lemma BoundAppend(a: seq<Node>, n: Node, s: Slot, now: nat)
    requires InRange(a, now) && now <= n.expire < INT_LIMIT
    ensures InRange(a + [n], now)
    ensures Bound(a + [n], s, now) == if Place(n.expire, now) == s then Bound(a, s, now) + [n] else Bound(a, s, now)
  {
    assert (a + [n])[..|a|] == a;
  }

  lemma OfBoundAppend(a: seq<Node>, n: Node, s: Slot, now: nat, e: nat)
    requires InRange(a, now) && now <= n.expire < INT_LIMIT && now <= e < INT_LIMIT
    requires Of(Bound(a, s, now), e) == if Place(e, now) == s then Of(a, e) else []
    ensures InRange(a + [n], now)
    ensures Of(Bound(a + [n], s, now), e) == if Place(e, now) == s then Of(a + [n], e) else []
  {
    hide Of, Bound, Place;
    BoundAppend(a, n, s, now);
    OfAppend(a, n, e);
    OfAppend(Bound(a, s, now), n, e);
  }

  lemma {:induction false} OfBound(a: seq<Node>, s: Slot, now: nat, e: nat)
    requires InRange(a, now) && now <= e < INT_LIMIT
    ensures Of(Bound(a, s, now), e) == if Place(e, now) == s then Of(a, e) else []
  {
    if a != [] {
      var k := |a| - 1;
      OfBound(a[..k], s, now, e);
      OfBoundAppend(a[..k], a[k], s, now, e);
      assert a == a[..k] + [a[k]];
    }
  }

  // ---------------------------------------------------------------------------
  // What the lists of the wheel mean
  // ---------------------------------------------------------------------------

  /** The contents of every list of the wheel. */
  datatype Lists = Lists(near: seq<seq<Node>>, t: seq<seq<seq<Node>>>)
  {
    ghost predicate Shape()
    {
      |near| == TIME_NEAR && |t| == 4 && forall i :: 0 <= i < 4 ==> |t[i]| == TIME_LEVEL - 1
    }

    ghost function At(s: Slot): seq<Node>
      requires Shape() && ValidSlot(s)
    {
      match s
      case Near(k) => near[k]
      case Level(i, j) => t[i][j]
    }

    ghost function Put(s: Slot, list: seq<Node>): (w: Lists)
      requires Shape() && ValidSlot(s)
      ensures w.Shape() && forall s' :: ValidSlot(s') ==> w.At(s') == if s' == s then list else At(s')
    {
      match s
      case Near(k) => Lists(near[k := list], t)
      case Level(i, j) => Lists(near, t[i := t[i][j := list]])
    }
  }

  /** Every node sits where add_node would put it now. */
  ghost predicate Placed(w: Lists, now: nat)
  {
    w.Shape() && forall s :: ValidSlot(s) ==> forall n :: n in w.At(s) ==> now <= n.expire < INT_LIMIT && Place(n.expire, now) == s
  }

  /** The lists hold the pending nodes: for each expiry, the same ones in the same order. */
  ghost predicate Holds(w: Lists, now: nat, pending: seq<Node>)
    requires Placed(w, now)
  {
    forall e :: now <= e < INT_LIMIT ==> Of(w.At(Place(e, now)), e) == Of(pending, e)
  }

  ghost predicate Represents(w: Lists, now: nat, pending: seq<Node>)
  {
    InRange(pending, now) && Placed(w, now) && Holds(w, now, pending)
  }

  /** w' is w with the nodes linked, one after the other, at the tails of their lists. */
  ghost predicate Linked(w: Lists, w': Lists, nodes: seq<Node>, now: nat)
    requires InRange(nodes, now)
  {
    w.Shape() && w'.Shape() && forall s :: ValidSlot(s) ==> w'.At(s) == w.At(s) + Bound(nodes, s, now)
  }

  /** Linking one node. */
  ghost function LinkOne(w: Lists, n: Node, now: nat): Lists
    requires now <= n.expire < INT_LIMIT && w.Shape()
  {
    w.Put(Place(n.expire, now), w.At(Place(n.expire, now)) + [n])
  }

  lemma LinkNext(w: Lists, w': Lists, nodes: seq<Node>, k: nat, now: nat)
    requires k < |nodes| && InRange(nodes, now) && InRange(nodes[..k], now) && Linked(w, w', nodes[..k], now)
    ensures InRange(nodes[..k + 1], now) && Linked(w, LinkOne(w', nodes[k], now), nodes[..k + 1], now)
  {
    assert nodes[..k + 1] == nodes[..k] + [nodes[k]];
    forall s | ValidSlot(s)
      ensures LinkOne(w', nodes[k], now).At(s) == w.At(s) + Bound(nodes[..k + 1], s, now)
    {
      hide Bound, Place;
      BoundAppend(nodes[..k], nodes[k], s, now);
    }
  }

  lemma AddKeeps(w: Lists, now: nat, pending: seq<Node>, n: Node)
    requires Represents(w, now, pending) && now <= n.expire < INT_LIMIT
    ensures Represents(LinkOne(w, n, now), now, pending + [n])
  {
    var w' := LinkOne(w, n, now);
    forall e | now <= e < INT_LIMIT
      ensures Of(w'.At(Place(e, now)), e) == Of(pending + [n], e)
    {
      OfAppend(pending, n, e);
      OfAppend(w.At(Place(e, now)), n, e);
    }
  }

  /** The near list of the current time is exactly what is due. */
  lemma DueExact(w: Lists, now: nat, pending: seq<Node>)
    requires now < INT_LIMIT && Represents(w, now, pending)
    ensures w.At(Near(now % TIME_NEAR)) == Of(pending, now)
  {
    var s := Near(now % TIME_NEAR);
    DueSlot(now, now);
    assert forall n :: n in w.At(s) ==> n.expire == now by {
      forall n | n in w.At(s) ensures n.expire == now {
        DueSlot(n.expire, now);
      }
    }
    OfAll(w.At(s), now);
  }

  lemma TakeKeeps(w: Lists, now: nat, pending: seq<Node>)
    requires now < INT_LIMIT && Represents(w, now, pending)
    ensures Represents(w.Put(Near(now % TIME_NEAR), []), now, Without(pending, now))
  {
    var w' := w.Put(Near(now % TIME_NEAR), []);
    OfWithout(pending, now, now);
    forall e | now <= e < INT_LIMIT
      ensures Of(w'.At(Place(e, now)), e) == Of(Without(pending, now), e)
    {
      OfWithout(pending, e, now);
      DueSlot(e, now);
    }
  }

  /** When nothing is due, every node of the wheel lies in the future. */
  lemma NothingDue(w: Lists, now: nat, pending: seq<Node>)
    requires now < INT_LIMIT && Represents(w, now, pending) && Of(pending, now) == []
    ensures forall n :: n in pending ==> n.expire > now
    ensures forall s :: ValidSlot(s) ==> InRange(w.At(s), now + 1)
  {
    OfNone(pending, now);
    DueExact(w, now, pending);
    forall s, n | ValidSlot(s) && n in w.At(s)
      ensures n.expire > now
    {
      DueSlot(n.expire, now);
    }
    assert forall s :: ValidSlot(s) ==> InRange(w.At(s), now + 1);
  }

  /** A tick without a carry leaves every node where it belongs. */
  lemma TickKeeps(w: Lists, now: nat, pending: seq<Node>)
    requires now + 1 < INT_LIMIT && (now + 1) % TIME_NEAR != 0
    requires Represents(w, now, pending) && Of(pending, now) == []
    ensures Represents(w, now + 1, pending)
  {
    NothingDue(w, now, pending);
    SameQuotients(now);
  }

  /** A list holds no node that belongs elsewhere. */
  lemma Elsewhere(w: Lists, now: nat, s: Slot, e: nat)
    requires Placed(w, now) && ValidSlot(s) && now <= e < INT_LIMIT && Place(e, now) != s
    ensures Of(w.At(s), e) == []
  {
    OfNone(w.At(s), e);
  }

  /** What the cascade leaves in one list for one expiry: p and p' are its slots before and after. */
  lemma RelinkedList(w: Lists, c: Slot, p: Slot, p': Slot, relinked: seq<Node>, e: nat)
    requires w.Shape() && ValidSlot(p) && ValidSlot(p') && ValidSlot(c)
    requires Of(relinked, e) == Of(w.At(c), e)
    requires if p == c then p' != c && Of(w.At(p'), e) == [] else p' == p && Of(w.At(c), e) == []
    ensures Of(w.Put(c, []).At(p') + relinked, e) == Of(w.At(p), e)
  {
    OfConcat(w.Put(c, []).At(p'), relinked, e);
    assert Of([], e) == [];
    hide Of;
    assert [] + Of(w.At(c), e) == Of(w.At(c), e);
    assert Of(w.At(p'), e) + [] == Of(w.At(p'), e);
  }

  lemma CascadeList(w: Lists, now: nat, e: nat, c: Slot)
    requires now + 1 <= e < INT_LIMIT && (now + 1) % TIME_NEAR == 0
    requires Placed(w, now) && c == CarrySlot(DigitsOf(now + 1)) && InRange(w.At(c), now + 1)
    ensures Of(w.Put(c, []).At(Place(e, now + 1)) + Bound(w.At(c), Place(e, now + 1), now + 1), e) == Of(w.At(Place(e, now)), e)
  {
    hide Place, CarrySlot, DigitsOf;
    hide Lists.At, Lists.Put, Lists.Shape, Bound, Of;
    var p, p' := Place(e, now), Place(e, now + 1);
    TickWithCarry(e, now);
    OfBound(w.At(c), p', now + 1, e);
    if p == c {
      Elsewhere(w, now, p', e);
    } else {
      Elsewhere(w, now, c, e);
    }
    RelinkedList(w, c, p, p', Bound(w.At(c), p', now + 1), e);
  }

  lemma KeptPlace(w: Lists, now: nat, c: Slot, s: Slot, n: Node)
    requires now + 1 < INT_LIMIT && (now + 1) % TIME_NEAR == 0 && Placed(w, now) && c == CarrySlot(DigitsOf(now + 1))
    requires ValidSlot(s) && s != c && n in w.At(s) && n.expire > now
    ensures Place(n.expire, now + 1) == s
  {
    TickWithCarry(n.expire, now);
  }

  lemma CascadePlaced(w: Lists, w': Lists, now: nat, c: Slot)
    requires now + 1 < INT_LIMIT && (now + 1) % TIME_NEAR == 0 && c == CarrySlot(DigitsOf(now + 1))
    requires Placed(w, now) && forall s :: ValidSlot(s) ==> InRange(w.At(s), now + 1)
    requires Linked(w.Put(c, []), w', w.At(c), now + 1)
    ensures Placed(w', now + 1)
  {
    hide Place, CarrySlot, DigitsOf, Bound;
    forall s, n | ValidSlot(s) && n in w'.At(s)
      ensures now + 1 <= n.expire < INT_LIMIT && Place(n.expire, now + 1) == s
    {
      BoundMembers(w.At(c), s, now + 1);
      if n in w.Put(c, []).At(s) {
        KeptPlace(w, now, c, s, n);
      }
    }
  }

  /** A tick with a carry: relinking the carried list restores the placement of every node. */
  lemma CascadeKeeps(w: Lists, w': Lists, now: nat, pending: seq<Node>)
    requires now + 1 < INT_LIMIT && (now + 1) % TIME_NEAR == 0
    requires Represents(w, now, pending) && Of(pending, now) == []
    requires var c := CarrySlot(DigitsOf(now + 1));
             InRange(w.At(c), now + 1) && Linked(w.Put(c, []), w', w.At(c), now + 1)
    ensures Represents(w', now + 1, pending)
  {
    var c := CarrySlot(DigitsOf(now + 1));
    NothingDue(w, now, pending);
    CascadePlaced(w, w', now, c);
    forall e | now + 1 <= e < INT_LIMIT
      ensures Of(w'.At(Place(e, now + 1)), e) == Of(pending, e)
    {
      CascadeList(w, now, e, c);
    }
  }

  // ---------------------------------------------------------------------------
  // The wheel
  // ---------------------------------------------------------------------------

  /** x | (m-1) for a power of two m. */
  function OrMask(x: nat, m: nat): nat
    requires m > 0
  {
    x - x % m + (m - 1)
  }

  lemma OrMaskQuotient(x: nat, y: nat, m: nat)
    requires m > 0
    ensures OrMask(x, m) == OrMask(y, m) <==> x / m == y / m
  {
    assert x == m * (x / m) + x % m && y == m * (y / m) + y % m;
    if OrMask(x, m) == OrMask(y, m) {
      assert m * (x / m) == m * (y / m);
    }
  }

  /** 1 << (TIME_NEAR_SHIFT + i * TIME_LEVEL_SHIFT): the times covered by one slot of level i. */
  function Span(i: nat): nat
    requires i <= 4
  {
    if i == 0 then 0x100 else if i == 1 then 0x4000 else if i == 2 then 0x10_0000
    else if i == 3 then 0x400_0000 else 0x1_0000_0000
  }

  lemma NextQuotient(x: nat, i: nat)
    requires i <= 3
    ensures x / Span(i) / TIME_LEVEL == x / Span(i + 1)
    ensures x % Span(i) == 0 && x / Span(i) % TIME_LEVEL == 0 ==> x % Span(i + 1) == 0
  {
    if i == 0 {
    } else if i == 1 {
    } else if i == 2 {
    }
  }

  lemma DigitAt(x: nat, i: nat)
    requires i <= 3
    ensures x / Span(i) == 64 * (x / Span(i + 1)) + x / Span(i) % TIME_LEVEL
  {
    NextQuotient(x, i);
  }

  ghost function Quotient(d: Digits, i: nat): nat
  {
    if i == 0 then d.q0 else if i == 1 then d.q1 else if i == 2 then d.q2 else if i == 3 then d.q3 else 0
  }

  lemma PlaceLevelDigits(low: nat, e: Digits, n: Digits, i: nat)
    requires e.Consistent() && n.Consistent() && n.q0 <= e.q0 && i <= 3
    requires Quotient(e, i) != Quotient(n, i) && Quotient(e, i + 1) == Quotient(n, i + 1)
    ensures Quotient(e, i) - 64 * Quotient(e, i + 1) >= 1
    ensures PlaceDigits(low, e, n) == Level(i, Quotient(e, i) - 64 * Quotient(e, i + 1) - 1)
  {
  }

  lemma PlaceLevel(expire: nat, now: nat, i: nat)
    requires now <= expire < INT_LIMIT && i <= 3
    requires expire / Span(i) != now / Span(i)
    requires i < 3 ==> expire / Span(i + 1) == now / Span(i + 1)
    ensures expire / Span(i) % TIME_LEVEL >= 1
    ensures Place(expire, now) == Level(i, expire / Span(i) % TIME_LEVEL - 1)
  {
    DigitAt(expire, i);
    assert Quotient(DigitsOf(expire), i) == expire / Span(i) && Quotient(DigitsOf(now), i) == now / Span(i);
    assert Quotient(DigitsOf(expire), i + 1) == expire / Span(i + 1) && Quotient(DigitsOf(now), i + 1) == now / Span(i + 1);
    PlaceLevelDigits(expire % TIME_NEAR, DigitsOf(expire), DigitsOf(now), i);
  }

  /** The digits of the levels below i are zero. */
  ghost predicate ZeroBelow(d: Digits, i: nat)
  {
    (i > 0 ==> d.q0 == 64 * d.q1) && (i > 1 ==> d.q1 == 64 * d.q2) && (i > 2 ==> d.q2 == 64 * d.q3)
  }

  lemma CarryAt(now: nat, i: nat)
    requires 0 < now < INT_LIMIT && i <= 3 && now / TIME_NEAR > 0 && ZeroBelow(DigitsOf(now), i)
    ensures now / Span(i) % TIME_LEVEL != 0 ==> CarrySlot(DigitsOf(now)) == Level(i, now / Span(i) % TIME_LEVEL - 1)
    ensures now / Span(i) % TIME_LEVEL == 0 ==> i < 3 && ZeroBelow(DigitsOf(now), i + 1)
  {
    DigitAt(now, i);
  }

  class Timer {
    var near: seq<seq<Node>>
    var t: seq<seq<seq<Node>>>
    var time: nat
    /** Every node that was added and not yet dispatched, in the order of the calls. */
    ghost var pending: seq<Node>

    ghost function View(): Lists
      reads this`near, this`t
    {
      Lists(near, t)
    }

    ghost predicate Valid()
      reads this
    {
      time < INT_LIMIT && View().Shape() && Represents(View(), time, pending)
    }

    constructor ()
      ensures Valid() && time == 0 && pending == []
    {
      near := seq(TIME_NEAR, _ => []);
      t := seq(4, _ => seq(TIME_LEVEL - 1, _ => []));
      time, pending := 0, [];
    }

    /** The loop of add_node: the level and index of a node that is not near. */
    method FindLevel(expire: nat) returns (i: nat, j: nat)
      requires time <= expire < INT_LIMIT && expire / TIME_NEAR != time / TIME_NEAR
      ensures Place(expire, time) == Level(i, j)
    {
      i := 0;
      var mask := TIME_NEAR * TIME_LEVEL;
      while i < 3 && OrMask(expire, mask) != OrMask(time, mask)
        invariant i <= 3 && mask == Span(i + 1)
        invariant expire / Span(i) != time / Span(i)
        decreases 3 - i
      {
        OrMaskQuotient(expire, time, mask);
        i, mask := i + 1, mask * TIME_LEVEL;
      }
      OrMaskQuotient(expire, time, mask);
      PlaceLevel(expire, time, i);
      j := expire / Span(i) % TIME_LEVEL - 1;
    }

    /** add_node: link the node at the tail of its list, and touch no other list. */
    method AddNode(node: Node)
      requires View().Shape() && time <= node.expire < INT_LIMIT
      modifies this`near, this`t
      ensures View() == LinkOne(old(View()), node, time)
    {
      OrMaskQuotient(node.expire, time, TIME_NEAR);
      if OrMask(node.expire, TIME_NEAR) == OrMask(time, TIME_NEAR) {
        var k := node.expire % TIME_NEAR;
        near := near[k := near[k] + [node]];
      } else {
        var i, j := FindLevel(node.expire);
        t := t[i := t[i][j := t[i][j] + [node]]];
      }
    }

    /** timer_add, one locked region. */
    method TimerAdd(event: Event, delay: nat)
      requires Valid() && 1 <= delay && time + delay < INT_LIMIT
      modifies this`pending, this`near, this`t
      ensures Valid()
      ensures pending == old(pending) + [Node(time + delay, event)]
    {
      hide Represents, Place;
      var node := Node(time + delay, event);
      AddKeeps(View(), time, pending, node);
      AddNode(node);
      pending := pending + [node];
    }

    /** One turn of timer_execute's loop: the nodes due now, all of them, in insertion order. */
    method TakeDue() returns (due: seq<Node>)
      requires Valid()
      modifies this`pending, this`near
      ensures Valid()
      ensures due == Of(old(pending), time)
      ensures pending == Without(old(pending), time)
      ensures near[time % TIME_NEAR] == []
    {
      var k := time % TIME_NEAR;
      DueExact(View(), time, pending);
      TakeKeeps(View(), time, pending);
      due := near[k];
      near := near[k := []];
      pending := Without(pending, time);
    }

    /** timer_execute: dispatch until the due list is empty. */
    method TimerExecute() returns (log: seq<Node>)
      requires Valid()
      modifies this`pending, this`near
      ensures Valid()
      ensures log == Of(old(pending), time)
      ensures pending == Without(old(pending), time)
    {
      log := [];
      var k := time % TIME_NEAR;
      DueExact(View(), time, pending);
      WithoutNone(pending, time);
      hide Represents, Of, Without;
      while near[k] != []
        invariant Valid()
        invariant if near[k] == [] then log == Of(old(pending), time) && pending == Without(old(pending), time)
                  else log == [] && pending == old(pending)
        decreases |near[k]|
      {
        var due := TakeDue();
        log := log + due;
      }
    }

    /** The loop of timer_shift that finds the level to cascade; None when the time is not a multiple of TIME_NEAR. */
    method FindCarry() returns (found: bool, i: nat, j: nat)
      requires 0 < time < INT_LIMIT
      ensures found <==> time % TIME_NEAR == 0
      ensures found ==> time / TIME_NEAR > 0 && CarrySlot(DigitsOf(time)) == Level(i, j)
    {
      var mask, shifted := TIME_NEAR, time / TIME_NEAR;
      i, j, found := 0, 0, false;
      while time % mask == 0 && !found
        invariant i <= 3 && mask == Span(i) && shifted == time / Span(i)
        invariant i > 0 ==> time % Span(i) == 0 && time % TIME_NEAR == 0
        invariant ZeroBelow(DigitsOf(time), i)
        invariant found ==> time % TIME_NEAR == 0 && time / TIME_NEAR > 0 && CarrySlot(DigitsOf(time)) == Level(i, j)
        decreases !found, 4 - i
      {
        NextQuotient(time, i);
        CarryAt(time, i);
        var idx := shifted % TIME_LEVEL;
        if idx != 0 {
          j, found := idx - 1, true;
        } else {
          mask, shifted, i := mask * TIME_LEVEL, shifted / TIME_LEVEL, i + 1;
        }
      }
    }

    /** The inner loop of timer_shift. */
    method Relink(current: seq<Node>)
      requires View().Shape() && InRange(current, time)
      modifies this`near, this`t
      ensures Linked(old(View()), View(), current, time)
    {
      var k := 0;
      while k < |current|
        invariant k <= |current| && InRange(current[..k], time) && Linked(old(View()), View(), current[..k], time)
      {
        LinkNext(old(View()), View(), current, k, time);
        AddNode(current[k]);
        k := k + 1;
      }
      assert current[..k] == current;
    }

    /** Empty one list and relink its nodes for the present time. */
    method Cascade(i: nat, j: nat)
      requires View().Shape() && i < 4 && j < TIME_LEVEL - 1 && InRange(t[i][j], time)
      modifies this`near, this`t
      ensures Linked(old(View()).Put(Level(i, j), []), View(), old(t[i][j]), time)
    {
      var current := t[i][j];
      t := t[i := t[i][j := []]];
      Relink(current);
    }

    /** timer_shift: one tick; the carried list, if any, is relinked node by node. */
    method TimerShift()
      requires Valid() && Of(pending, time) == [] && time + 1 < INT_LIMIT
      modifies this`time, this`near, this`t
      ensures Valid() && time == old(time) + 1
    {
      ghost var w := View();
      hide Represents, Of, Linked, CarrySlot, DigitsOf, InRange, OrMask, Span;
      time := time + 1;
      var found, i, j := FindCarry();
      if found {
        NothingDue(w, time - 1, pending);
        assert t[i][j] == w.At(Level(i, j));
        Cascade(i, j);
        CascadeKeeps(w, View(), time - 1, pending);
      } else {
        TickKeeps(w, time - 1, pending);
      }
    }

    /** timer_update: whatever is due, one tick, and whatever is due then. */
    method TimerUpdate() returns (log: seq<Node>)
      requires Valid() && time + 1 < INT_LIMIT
      modifies this
      ensures Valid() && time == old(time) + 1
      ensures log == Of(old(pending), old(time)) + Of(old(pending), time)
      ensures pending == Without(Without(old(pending), old(time)), time)
    {
      hide Represents, Of, Without, Lists.Shape;
      AfterExecute(pending, time);
      var first := TimerExecute();
      TimerShift();
      var second := TimerExecute();
      log := first + second;
    }

    /**
     The loop of skynet_updatetime. For every elapsed tick, what expires then is dispatched, all of it and in insertion order;
     nothing else is, and what expires earlier is dispatched earlier.
     */
    method UpdateTime(diff: nat) returns (log: seq<Node>)
      requires Valid() && time + diff < INT_LIMIT && AllLater(pending, time)
      modifies this
      ensures Valid() && time == old(time) + diff && AllLater(pending, time)
      ensures forall e :: old(time) < e <= time ==> Of(log, e) == Of(old(pending), e)
      ensures forall n :: n in log ==> old(time) < n.expire <= time
      ensures forall i, j :: 0 <= i < j < |log| ==> log[i].expire <= log[j].expire
      ensures forall e :: e > time ==> Of(pending, e) == Of(old(pending), e)
    {
      hide Represents, Of, Without, AllLater, Lists.Shape;
      log := [];
      var i := 0;
      while i < diff
        invariant i <= diff && Valid() && time == old(time) + i && AllLater(pending, time)
        invariant forall e :: old(time) < e <= time ==> Of(log, e) == Of(old(pending), e)
        invariant forall n :: n in log ==> old(time) < n.expire <= time
        invariant forall j, k :: 0 <= j < k < |log| ==> log[j].expire <= log[k].expire
        invariant forall e :: e > time ==> Of(pending, e) == Of(old(pending), e)
      {
        UpdateLater(pending, time);
        LogNext(log, old(pending), old(time), time);
        var due := TimerUpdate();
        log := log + due;
        i := i + 1;
      }
    }
  }

  lemma AfterExecute(nodes: seq<Node>, now: nat)
    ensures Of(Without(nodes, now), now) == [] && Of(Without(nodes, now), now + 1) == Of(nodes, now + 1)
  {
    OfWithout(nodes, now, now);
    OfWithout(nodes, now + 1, now);
  }

  ghost predicate AllLater(nodes: seq<Node>, now: nat)
  {
    forall n :: n in nodes ==> n.expire > now
  }

  /** The log grows by what expires at the next tick. */
  lemma LogNext(log: seq<Node>, nodes: seq<Node>, start: nat, now: nat)
    requires start <= now
    requires forall e :: start < e <= now ==> Of(log, e) == Of(nodes, e)
    requires forall n :: n in log ==> start < n.expire <= now
    requires forall j, k :: 0 <= j < k < |log| ==> log[j].expire <= log[k].expire
    ensures var log' := log + Of(nodes, now + 1);
            && (forall e :: start < e <= now + 1 ==> Of(log', e) == Of(nodes, e))
            && (forall n :: n in log' ==> start < n.expire <= now + 1)
            && (forall j, k :: 0 <= j < k < |log'| ==> log'[j].expire <= log'[k].expire)
  {
    hide Of;
    var due := Of(nodes, now + 1);
    OfOf(nodes, now + 1, now + 1);
    assert forall i :: 0 <= i < |due| ==> due[i] in due && due[i].expire == now + 1;
    assert forall i :: 0 <= i < |log| ==> log[i] in log;
    forall e | start < e <= now + 1
      ensures Of(log + due, e) == Of(nodes, e)
    {
      OfConcat(log, due, e);
      OfOf(nodes, now + 1, e);
      OfNone(log, now + 1);
    }
  }

  lemma UpdateLater(nodes: seq<Node>, now: nat)
    requires AllLater(nodes, now)
    ensures Of(nodes, now) + Of(nodes, now + 1) == Of(nodes, now + 1)
    ensures var rest := Without(Without(nodes, now), now + 1);
            AllLater(rest, now + 1) && forall e :: e > now + 1 ==> Of(rest, e) == Of(nodes, e)
  {
    OfNone(nodes, now);
    WithoutNone(nodes, now);
    assert [] + Of(nodes, now + 1) == Of(nodes, now + 1);
    forall e: nat
      ensures e > now + 1 ==> Of(Without(nodes, now + 1), e) == Of(nodes, e)
    {
      OfWithout(nodes, e, now + 1);
    }
    OfWithout(nodes, now, now + 1);
  }

  // ---------------------------------------------------------------------------
  // Whole runs: the timer thread and any number of threads that add timers
  // ---------------------------------------------------------------------------

  datatype Dispatch = Dispatch(at: nat, node: Node)

  /**
   The locked regions of the wheel as steps on its abstract value. `checked` records that the timer
   thread has left timer_execute's loop; `added` and `log` record every call and every dispatch.
   */
  datatype System = System(now: nat, pending: seq<Node>, checked: bool, added: seq<Node>, log: seq<Dispatch>)

  datatype Step = Add(event: Event, delay: nat) | Take | LoopExit | LoopEnter | Shift

  const START := System(0, [], false, [], [])

  predicate Enabled(s: System, step: Step)
  {
    match step
    case Add(_, delay) => delay >= 1 && s.now + delay < INT_LIMIT
    case Take => !s.checked
    case LoopExit => !s.checked && Of(s.pending, s.now) == []
    case LoopEnter => s.checked
    case Shift => s.checked && s.now + 1 < INT_LIMIT
  }

  function Apply(s: System, step: Step): System
  {
    match step
    case Add(event, delay) =>
      var n := Node(s.now + delay, event);
      s.(pending := s.pending + [n], added := s.added + [n])
    case Take => s.(pending := Without(s.pending, s.now), log := s.log + Stamp(Of(s.pending, s.now), s.now))
    case LoopExit => s.(checked := true)
    case LoopEnter => s.(checked := false)
    case Shift => s.(now := s.now + 1, checked := false)
  }

  function Stamp(nodes: seq<Node>, at: nat): seq<Dispatch>
  {
    seq(|nodes|, i requires 0 <= i < |nodes| => Dispatch(at, nodes[i]))
  }

  function NodesOf(log: seq<Dispatch>): seq<Node>
  {
    seq(|log|, i requires 0 <= i < |log| => log[i].node)
  }

  ghost predicate Reachable(s: System, steps: seq<Step>)
    decreases |steps|
  {
    if steps == [] then s == START else
      var k := |steps| - 1;
      exists p: System :: Reachable(p, steps[..k]) && Enabled(p, steps[k]) && s == Apply(p, steps[k])
  }

  ghost predicate OnTime(s: System)
  {
    && (forall i :: 0 <= i < |s.log| ==> s.log[i].node.expire == s.log[i].at <= s.now)
    && (forall i, j :: 0 <= i < j < |s.log| ==> s.log[i].at <= s.log[j].at)
  }

  ghost predicate Exact(s: System)
  {
    && OnTime(s)
    && (forall n :: n in s.pending ==> n.expire >= s.now)
    && (s.checked ==> AllLater(s.pending, s.now))
    && (forall e :: Of(s.added, e) == Of(NodesOf(s.log), e) + Of(s.pending, e))
  }

  lemma TakeOf(s: System, e: nat)
    requires Of(s.added, e) == Of(NodesOf(s.log), e) + Of(s.pending, e)
    ensures var s' := Apply(s, Take);
            Of(s'.added, e) == Of(NodesOf(s'.log), e) + Of(s'.pending, e)
  {
    hide Of, Without;
    var due := Of(s.pending, s.now);
    var s' := Apply(s, Take);
    assert NodesOf(s'.log) == NodesOf(s.log) + due;
    OfConcat(NodesOf(s.log), due, e);
    OfWithout(s.pending, e, s.now);
    OfOf(s.pending, s.now, e);
    var l, p := Of(NodesOf(s.log), e), Of(s.pending, e);
    assert (l + p) + [] == l + p == (l + []) + p;
  }

  lemma {:induction false} OfOf(nodes: seq<Node>, e: nat, f: nat)
    ensures Of(Of(nodes, e), f) == if e == f then Of(nodes, e) else []
    ensures forall n :: n in Of(nodes, e) <==> n in nodes && n.expire == e
  {
    if nodes != [] {
      OfOf(nodes[1..], e, f);
      var head := if nodes[0].expire == e then [nodes[0]] else [];
      OfConcat(head, Of(nodes[1..], e), f);
      assert nodes == [nodes[0]] + nodes[1..];
    }
  }

  lemma TakeOnTime(s: System)
    requires Exact(s)
    ensures OnTime(Apply(s, Take))
  {
    OfOf(s.pending, s.now, s.now);
  }

  lemma AddExact(s: System, n: Node)
    requires Exact(s) && n.expire > s.now
    ensures Exact(s.(pending := s.pending + [n], added := s.added + [n]))
  {
    hide Of;
    forall e
      ensures Of(s.added + [n], e) == Of(NodesOf(s.log), e) + Of(s.pending + [n], e)
    {
      OfAppend(s.added, n, e);
      OfAppend(s.pending, n, e);
      var l, p := Of(NodesOf(s.log), e), Of(s.pending, e);
      assert (l + p) + [n] == l + (p + [n]);
    }
  }

  lemma TakeExact(s: System)
    requires Exact(s) && !s.checked
    ensures Exact(Apply(s, Take))
  {
    hide Of;
    forall e
      ensures Of(s.added, e) == Of(NodesOf(Apply(s, Take).log), e) + Of(Apply(s, Take).pending, e)
    {
      TakeOf(s, e);
    }
    TakeOnTime(s);
    OfWithout(s.pending, s.now, s.now);
  }

  lemma StepExact(s: System, step: Step)
    requires Exact(s) && Enabled(s, step)
    ensures Exact(Apply(s, step))
  {
    hide Of, Without;
    match step
    case Add(event, delay) => AddExact(s, Node(s.now + delay, event));
    case Take => TakeExact(s);
    case LoopExit => OfNone(s.pending, s.now);
    case LoopEnter =>
    case Shift =>
  }

  lemma {:induction false} RunExact(s: System, steps: seq<Step>)
    requires Reachable(s, steps)
    ensures Exact(s)
    decreases |steps|
  {
    if steps != [] {
      var k := |steps| - 1;
      var p: System :| Reachable(p, steps[..k]) && Enabled(p, steps[k]) && s == Apply(p, steps[k]);
      RunExact(p, steps[..k]);
      StepExact(p, steps[k]);
    }
  }

  /**
   In every run: what is in the log was dispatched when the time equalled its expiry. Of the nodes added
   for one expiry, the log has none while that time lies ahead, and all of them, once each and in the
   order of the calls, as soon as the timer thread has left the loop at that time.
   */
  lemma DispatchedExactlyOnce(s: System, steps: seq<Step>, e: nat)
    requires Reachable(s, steps)
    ensures forall i :: 0 <= i < |s.log| ==> s.log[i].node.expire == s.log[i].at
    ensures e > s.now ==> Of(NodesOf(s.log), e) == []
    ensures e < s.now || (e == s.now && s.checked) ==> Of(NodesOf(s.log), e) == Of(s.added, e)
  {
    RunExact(s, steps);
    OfNone(NodesOf(s.log), e);
    OfNone(s.pending, e);
  }

  /** The ticks of a run. */
  function Ticks(steps: seq<Step>): nat
  {
    if steps == [] then 0 else Ticks(steps[..|steps| - 1]) + if steps[|steps| - 1].Shift? then 1 else 0
  }

  /** The nodes that the calls of a run ask for: each expires its delay after the ticks before it. */
  function Requests(steps: seq<Step>): seq<Node>
  {
    if steps == [] then [] else
      var before, last := steps[..|steps| - 1], steps[|steps| - 1];
      Requests(before) + if last.Add? then [Node(Ticks(before) + last.delay, last.event)] else []
  }

  /** In every run the time is the number of ticks, and the nodes added are those the calls ask for. */
  lemma {:induction false} RunRequests(s: System, steps: seq<Step>)
    requires Reachable(s, steps)
    ensures s.now == Ticks(steps) && s.added == Requests(steps)
    decreases |steps|
  {
    if steps != [] {
      var k := |steps| - 1;
      var p: System :| Reachable(p, steps[..k]) && Enabled(p, steps[k]) && s == Apply(p, steps[k]);
      RunRequests(p, steps[..k]);
    }
  }

  /** The states that the steps of one timer_update lead through, from a state in which the timer thread is outside the loop. */
  lemma UpdateRound(s: System, steps: seq<Step>) returns (s': System)
    requires Reachable(s, steps) && s.checked && s.now + 1 < INT_LIMIT
    ensures Reachable(s', steps + [LoopEnter, Take, LoopExit, Shift, Take, LoopExit])
    ensures s'.checked && s'.now == s.now + 1 && s'.added == s.added
    ensures s'.log == s.log + Stamp(Of(s.pending, s.now + 1), s.now + 1) && s'.pending == Without(s.pending, s.now + 1)
  {
    hide Reachable, Of, Without, Stamp;
    RunExact(s, steps);
    OfNone(s.pending, s.now);
    WithoutNone(s.pending, s.now);
    StampNone(s.now);
    OfWithout(s.pending, s.now + 1, s.now + 1);
    var s1, s2 := s.(checked := false), s;
    NextStep(s, steps, LoopEnter);
    NextStep(s1, steps + [LoopEnter], Take);
    assert s.log + [] == s.log;
    NextStep(s1, steps + [LoopEnter] + [Take], LoopExit);
    NextStep(s, steps + [LoopEnter] + [Take] + [LoopExit], Shift);
    var s4 := s.(now := s.now + 1, checked := false);
    NextStep(s4, steps + [LoopEnter] + [Take] + [LoopExit] + [Shift], Take);
    var s5 := s4.(pending := Without(s.pending, s.now + 1), log := s.log + Stamp(Of(s.pending, s.now + 1), s.now + 1));
    NextStep(s5, steps + [LoopEnter] + [Take] + [LoopExit] + [Shift] + [Take], LoopExit);
    s' := s5.(checked := true);
    assert steps + [LoopEnter] + [Take] + [LoopExit] + [Shift] + [Take] + [LoopExit] == steps + [LoopEnter, Take, LoopExit, Shift, Take, LoopExit];
  }

  lemma StampNone(at: nat)
    ensures Stamp([], at) == []
  {
  }

  lemma NextStep(s: System, steps: seq<Step>, step: Step)
    requires Reachable(s, steps) && Enabled(s, step)
    ensures Reachable(Apply(s, step), steps + [step])
  {
    var longer := steps + [step];
    assert longer[..|steps|] == steps;
  }
}
