/**
 The output buffer of the serializer: a chain of 128-byte blocks that pushes are split over, with the
 total length kept in the first four bytes, and its flattening into one buffer.
 */
module BlockChain {
  import opened Bytes
  import opened LuaSeri

  const BLOCK_SIZE := 128
  const HEADER := 4

  /** The buffers of a chain, one behind the other. */
  function Flat(chain: seq<seq<byte>>): (s: seq<byte>)
    requires forall k :: 0 <= k < |chain| ==> |chain[k]| == BLOCK_SIZE
    ensures |s| == BLOCK_SIZE * |chain|
  {
    if chain == [] then [] else Flat(chain[..|chain| - 1]) + chain[|chain| - 1]
  }

  ghost predicate Blocks(chain: seq<seq<byte>>)
  {
    chain != [] && forall k :: 0 <= k < |chain| ==> |chain[k]| == BLOCK_SIZE
  }

  lemma FlatAppend(chain: seq<seq<byte>>, b: seq<byte>)
    requires |b| == BLOCK_SIZE && forall k :: 0 <= k < |chain| ==> |chain[k]| == BLOCK_SIZE
    ensures Flat(chain + [b]) == Flat(chain) + b
  {
    assert (chain + [b])[..|chain|] == chain;
  }

  lemma {:induction false} FlatAt(chain: seq<seq<byte>>, k: nat)
    requires Blocks(chain) && k < |chain|
    ensures BLOCK_SIZE * k + BLOCK_SIZE <= |Flat(chain)| && Flat(chain)[BLOCK_SIZE * k..BLOCK_SIZE * k + BLOCK_SIZE] == chain[k]
    decreases |chain|
  {
    var n := |chain| - 1;
    if k < n {
      FlatAt(chain[..n], k);
    }
  }

  class WriteBlock {
    var chain: seq<seq<byte>>
    var len: nat
    var ptr: nat

    ghost predicate Valid()
      reads this
    {
      Blocks(chain) && ptr <= BLOCK_SIZE && len == BLOCK_SIZE * (|chain| - 1) + ptr
    }

    /** Everything pushed so far. */
    ghost function Content(): (s: seq<byte>)
      requires Valid()
      reads this
      ensures |s| == len
    {
      Flat(chain)[..len]
    }

    /** wb_init: room for the length comes first. */
    constructor (garbage: seq<byte>)
      requires |garbage| == BLOCK_SIZE
      ensures Valid() && |Content()| == HEADER
    {
      chain, len, ptr := [garbage], 0, 0;
      new;
      Store(Le4(0));
    }

    /** memcpy into the current block. */
    method Store(buf: seq<byte>)
      requires Valid() && ptr + |buf| <= BLOCK_SIZE
      modifies this
      ensures Valid() && Content() == old(Content()) + buf && len == old(len) + |buf| && ptr == old(ptr) + |buf|
    {
      var n := |chain| - 1;
      var b := chain[n];
      var written := b[..ptr] + buf + b[ptr + |buf|..];
      FlatAppend(chain[..n], b);
      FlatAppend(chain[..n], written);
      assert chain == chain[..n] + [b];
      chain := chain[..n] + [written];
      ptr := ptr + |buf|;
      len := len + |buf|;
    }

    /** blk_alloc and the step to the new block; its buffer comes as malloc leaves it. */
    method NewBlock(garbage: seq<byte>)
      requires Valid() && ptr == BLOCK_SIZE && |garbage| == BLOCK_SIZE
      modifies this
      ensures Valid() && Content() == old(Content()) && ptr == 0
    {
      FlatAppend(chain, garbage);
      chain := chain + [garbage];
      ptr := 0;
    }

    /** The branch of wb_push that fills the current block and goes on in the next. */
    method FillBlock(buf: seq<byte>, garbage: seq<byte>) returns (rest: seq<byte>)
      requires Valid() && ptr < BLOCK_SIZE && BLOCK_SIZE < ptr + |buf| && |garbage| == BLOCK_SIZE
      modifies this
      ensures Valid() && ptr == 0 && |rest| < |buf| && Content() + rest == old(Content()) + buf
    {
      hide Flat;
      var copy := BLOCK_SIZE - ptr;
      Store(buf[..copy]);
      rest := buf[copy..];
      NewBlock(garbage);
    }

    /** wb_push: the bytes are appended whatever block boundaries they cross. */
    method Push(buf: seq<byte>, garbage: seq<byte>)
      requires Valid() && |garbage| == BLOCK_SIZE
      modifies this
      ensures Valid() && Content() == old(Content()) + buf
    {
      hide Flat;
      var rest := buf;
      if ptr == BLOCK_SIZE {
        NewBlock(garbage);
      }
      while ptr > BLOCK_SIZE - |rest|
        invariant Valid() && ptr < BLOCK_SIZE && Content() + rest == old(Content()) + buf
        decreases |rest|
      {
        rest := FillBlock(rest, garbage);
      }
      Store(rest);
    }

    /** wb_close: the total length goes into the first four bytes. */
    method Close() returns (closed: seq<seq<byte>>)
      requires Valid() && HEADER <= len < 0x8000_0000
      ensures Blocks(closed) && len <= |Flat(closed)| && FromLe4(closed[0]) == len
      ensures Flat(closed)[..len] == Le4(len) + Content()[HEADER..]
    {
      var first := Le4(len) + chain[0][HEADER..];
      closed := [first] + chain[1..];
      FromLePrefix(Le4(len), chain[0][HEADER..]);
      FlatFirst(chain);
      FlatFirst(closed);
      assert closed[1..] == chain[1..];
    }
  }

  lemma FlatLast(chain: seq<seq<byte>>)
    requires Blocks(chain)
    ensures Flat(chain) == Flat(chain[..|chain| - 1]) + chain[|chain| - 1]
  {
  }

  lemma Join3(a: seq<byte>, b: seq<byte>, c: seq<byte>)
    ensures a + b + c == a + (b + c)
  {
  }

  lemma {:induction false} FlatFirst(chain: seq<seq<byte>>)
    requires Blocks(chain)
    ensures Flat(chain) == chain[0] + Flat(chain[1..])
    decreases |chain|
  {
    var n := |chain| - 1;
    if n > 0 {
      FlatFirst(chain[..n]);
      assert chain[..n][1..] == chain[1..][..n - 1] && chain[..n][0] == chain[0] && chain[1..][n - 1] == chain[n];
      FlatLast(chain);
      FlatLast(chain[1..]);
      hide Flat;
      Join3(chain[0], Flat(chain[1..][..n - 1]), chain[n]);
    } else {
      assert chain[..n] == [] && chain[1..] == [];
    }
  }

  lemma Slice(s: seq<byte>, lo: nat, hi: nat, a: nat, b: nat)
    requires lo <= hi <= |s| && a <= b <= hi - lo
    ensures s[lo..hi][a..b] == s[lo + a..lo + b]
  {
    var t, u := s[lo..hi], s[lo + a..lo + b];
    assert |t[a..b]| == |u|;
    assert forall i :: 0 <= i < |u| ==> t[a..b][i] == t[a + i] == s[lo + a + i] == u[i];
  }

  lemma Adjoin(s: seq<byte>, a: nat, b: nat, c: nat)
    requires a <= b <= c <= |s|
    ensures s[a..b] + s[b..c] == s[a..c]
  {
  }

  /** One more block of the chain behind its first part. */
  lemma FlatNext(chain: seq<seq<byte>>, k: nat, n: nat)
    requires Blocks(chain) && 0 < k < |chain| && n <= BLOCK_SIZE
    ensures BLOCK_SIZE * k + n <= |Flat(chain)|
    ensures Flat(chain)[HEADER..BLOCK_SIZE * k] + chain[k][..n] == Flat(chain)[HEADER..BLOCK_SIZE * k + n]
  {
    FlatAt(chain, k);
    var f, m := Flat(chain), BLOCK_SIZE * k;
    Slice(f, m, m + BLOCK_SIZE, 0, n);
    Adjoin(f, HEADER, m, m + n);
  }

  lemma FlatHead(chain: seq<seq<byte>>, n: nat)
    requires Blocks(chain) && HEADER <= n <= BLOCK_SIZE
    ensures n <= |Flat(chain)| && chain[0][HEADER..n] == Flat(chain)[HEADER..n]
  {
    FlatAt(chain, 0);
    Slice(Flat(chain), 0, BLOCK_SIZE, HEADER, n);
  }

  /** _seri: what lies behind the length, copied block by block into one buffer. */
  method Flatten(chain: seq<seq<byte>>) returns (buffer: seq<byte>)
    requires Blocks(chain) && HEADER <= FromLe4(chain[0]) <= BLOCK_SIZE * |chain|
    ensures buffer == Flat(chain)[HEADER..FromLe4(chain[0])]
  {
    hide Flat, FromLe4;
    var total := FromLe4(chain[0]);
    var len := total - HEADER;
    if len < BLOCK_SIZE - HEADER {
      FlatHead(chain, total);
      buffer := chain[0][HEADER..HEADER + len];
    } else {
      FlatHead(chain, BLOCK_SIZE);
      buffer := chain[0][HEADER..BLOCK_SIZE];
      len := len - (BLOCK_SIZE - HEADER);
      var k := 1;
      while len > 0
        invariant 1 <= k <= |chain| && len >= 0 && total == BLOCK_SIZE * k + len
        invariant buffer == Flat(chain)[HEADER..BLOCK_SIZE * k]
        decreases len
      {
        var n := if len >= BLOCK_SIZE then BLOCK_SIZE else len;
        FlatNext(chain, k, n);
        buffer := buffer + chain[k][..n];
        if len < BLOCK_SIZE {
          return;
        }
        len := len - BLOCK_SIZE;
        k := k + 1;
      }
    }
  }

  // ---------- the writer, push by push ----------

  /** What a writer of s has done: s is appended. */
  twostate predicate Wrote(wb: WriteBlock, s: seq<byte>)
    reads wb
  {
    old(wb.Valid()) && wb.Valid() && wb.Content() == old(wb.Content()) + s
  }

  method PushTag(wb: WriteBlock, tag: byte, garbage: seq<byte>)
    requires wb.Valid() && |garbage| == BLOCK_SIZE
    modifies wb
    ensures Wrote(wb, [tag])
  {
    wb.Push([tag], garbage);
  }

  /** A tag and what belongs to it, in two pushes. */
  method PushTagged(wb: WriteBlock, tag: byte, s: seq<byte>, garbage: seq<byte>)
    requires wb.Valid() && |garbage| == BLOCK_SIZE
    modifies wb
    ensures Wrote(wb, [tag] + s)
  {
    hide Flat;
    PushTag(wb, tag, garbage);
    ghost var before := wb.Content();
    wb.Push(s, garbage);
    assert old(wb.Content()) + [tag] + s == old(wb.Content()) + ([tag] + s);
  }

  /** wb_integer. */
  method WriteInteger(wb: WriteBlock, v: int32, t: nat, garbage: seq<byte>)
    requires wb.Valid() && |garbage| == BLOCK_SIZE && t < 8
    modifies wb
    ensures Wrote(wb, PackInteger(v, t))
  {
    hide Wrote, Le2, Le4, Tag;
    if v == 0 {
      PushTag(wb, Tag(t, 0), garbage);
    } else if v < 0 {
      PushTagged(wb, Tag(t, 4), Le4(Unsigned(v)), garbage);
    } else if v < 0x100 {
      PushTagged(wb, Tag(t, 1), [v as byte], garbage);
      assert [Tag(t, 1)] + [v as byte] == PackInteger(v, t);
    } else if v < 0x1_0000 {
      PushTagged(wb, Tag(t, 2), Le2(v as nat), garbage);
    } else {
      PushTagged(wb, Tag(t, 4), Le4(v as nat), garbage);
    }
  }

  /** wb_string: tag, length and bytes are three pushes. */
  method WriteString(wb: WriteBlock, bytes: seq<byte>, garbage: seq<byte>)
    requires wb.Valid() && |garbage| == BLOCK_SIZE && |bytes| < 0x8000_0000
    modifies wb
    ensures Wrote(wb, PackString(bytes))
  {
    hide Flat, Le2, Le4, Tag;
    var head: seq<byte>;
    if |bytes| < MAX_COOKIE {
      head := [Tag(TYPE_SHORT_STRING, |bytes|)];
      PushTag(wb, Tag(TYPE_SHORT_STRING, |bytes|), garbage);
      if bytes == [] {
        assert head + bytes == head;
        return;
      }
    } else if |bytes| < 0x1_0000 {
      head := [Tag(TYPE_LONG_STRING, 2)] + Le2(|bytes|);
      PushTagged(wb, Tag(TYPE_LONG_STRING, 2), Le2(|bytes|), garbage);
    } else {
      head := [Tag(TYPE_LONG_STRING, 4)] + Le4(|bytes|);
      PushTagged(wb, Tag(TYPE_LONG_STRING, 4), Le4(|bytes|), garbage);
    }
    wb.Push(bytes, garbage);
    assert old(wb.Content()) + head + bytes == old(wb.Content()) + (head + bytes);
  }

  /** The head of wb_table_array. */
  method WriteSize(wb: WriteBlock, n: nat, garbage: seq<byte>)
    requires wb.Valid() && |garbage| == BLOCK_SIZE && n < 0x8000_0000
    modifies wb
    ensures Wrote(wb, PackSize(n))
  {
    hide Flat, PackInteger, Tag;
    if n >= MAX_COOKIE - 1 {
      var tag, size := Tag(TYPE_TABLE, MAX_COOKIE - 1), n as int32;
      PushTag(wb, tag, garbage);
      WriteInteger(wb, size, TYPE_NUMBER, garbage);
      assert old(wb.Content()) + [tag] + PackInteger(size, TYPE_NUMBER) == old(wb.Content()) + ([tag] + PackInteger(size, TYPE_NUMBER));
    } else {
      PushTag(wb, Tag(TYPE_TABLE, n), garbage);
    }
  }

  /** The cases of _pack_one that are not tables. */
  method WriteLeaf(wb: WriteBlock, v: Value, ghost depth: nat, garbage: seq<byte>)
    requires wb.Valid() && |garbage| == BLOCK_SIZE && Lua(v) && !v.Table? && depth <= MAX_DEPTH
    modifies wb
    ensures Pack(v, depth).Ok? && Wrote(wb, Pack(v, depth).value)
  {
    hide Wrote, PackInteger, PackString, Tag;
    match v {
      case Nil => PushTag(wb, Tag(TYPE_NIL, 0), garbage);
      case Boolean(b) => PushTag(wb, Tag(TYPE_BOOLEAN, if b then 1 else 0), garbage);
      case Integer(i) => WriteInteger(wb, i, TYPE_NUMBER, garbage);
      case Double(bits) => PushTagged(wb, Tag(TYPE_NUMBER, 8), bits, garbage);
      case Pointer(address) => PushTagged(wb, Tag(TYPE_USERDATA, 0), address, garbage);
      case Str(bytes) => WriteString(wb, bytes, garbage);
      case Remote(handle) => WriteInteger(wb, handle, TYPE_REMOTE, garbage);
    }
  }

  /** _pack_one: false stands for the error raised for a table nested too deep. */
  method WriteOne(wb: WriteBlock, v: Value, depth: nat, garbage: seq<byte>) returns (ok: bool)
    requires wb.Valid() && |garbage| == BLOCK_SIZE && Lua(v)
    modifies wb
    ensures ok == Pack(v, depth).Ok? && (ok ==> Wrote(wb, Pack(v, depth).value))
    decreases v, 1
  {
    if depth > MAX_DEPTH {
      return false;
    }
    match v {
      case Table(list, fields) => ok := WriteTable(wb, list, fields, depth, v, garbage);
      case _ =>
        WriteLeaf(wb, v, depth, garbage);
        ok := true;
    }
  }

  /** wb_table. */
  method WriteTable(wb: WriteBlock, list: seq<Value>, fields: seq<Pair>, depth: nat, ghost v: Value, garbage: seq<byte>) returns (ok: bool)
    requires wb.Valid() && |garbage| == BLOCK_SIZE && Lua(v) && v == Table(list, fields) && depth <= MAX_DEPTH
    modifies wb
    ensures ok == Pack(v, depth).Ok? && (ok ==> Wrote(wb, Pack(v, depth).value))
    decreases v, 0
  {
    hide Flat, PackSize, PackArray, PackHash;
    ghost var c0 := wb.Content();
    WriteSize(wb, |list|, garbage);
    ok := WriteArray(wb, list, depth + 1, garbage);
    if ok {
      ok := WriteHash(wb, fields, depth + 1, garbage);
      if ok {
        Append3(c0, PackSize(|list|), PackArray(list, depth + 1).value, PackHash(fields, depth + 1).value);
      }
    }
  }

  lemma Append3(a: seq<byte>, b: seq<byte>, c: seq<byte>, d: seq<byte>)
    ensures a + b + c + d == a + (b + c + d)
  {
  }

  /** The loop over the array part. */
  method WriteArray(wb: WriteBlock, list: seq<Value>, depth: nat, garbage: seq<byte>) returns (ok: bool)
    requires wb.Valid() && |garbage| == BLOCK_SIZE && forall k :: 0 <= k < |list| ==> Lua(list[k])
    modifies wb
    ensures ok == PackArray(list, depth).Ok? && (ok ==> Wrote(wb, PackArray(list, depth).value))
    decreases list, 0
  {
    hide Flat, Pack, Lua, PackArray;
    var i := 0;
    ArrayWhole(list, depth);
    while i < |list|
      invariant i <= |list| && wb.Valid() && PackArray(list, depth).Ok? == PackArray(list[i..], depth).Ok?
      invariant PackArray(list, depth).Ok? ==> wb.Content() + PackArray(list[i..], depth).value == old(wb.Content()) + PackArray(list, depth).value
    {
      ArrayStep(list, i, depth);
      ghost var before := wb.Content();
      ok := WriteOne(wb, list[i], depth, garbage);
      if !ok {
        return;
      }
      if PackArray(list[i..], depth).Ok? {
        Join3(before, Pack(list[i], depth).value, PackArray(list[i + 1..], depth).value);
      }
      i := i + 1;
    }
    return true;
  }

  lemma ArrayWhole(list: seq<Value>, depth: nat)
    requires forall k :: 0 <= k < |list| ==> Lua(list[k])
    ensures list[0..] == list && list[|list|..] == [] && PackArray([], depth) == Ok([])
  {
  }

  lemma ArrayStep(list: seq<Value>, i: nat, depth: nat)
    requires (forall k :: 0 <= k < |list| ==> Lua(list[k])) && i < |list|
    ensures PackArray(list[i..], depth).Ok? <==> Pack(list[i], depth).Ok? && PackArray(list[i + 1..], depth).Ok?
    ensures PackArray(list[i..], depth).Ok? ==> PackArray(list[i..], depth).value == Pack(list[i], depth).value + PackArray(list[i + 1..], depth).value
  {
    hide Pack, Lua;
    assert list[i..][0] == list[i] && list[i..][1..] == list[i + 1..];
  }

  /** wb_table_hash: the loop over the other fields, and the nil behind them. */
  method WriteHash(wb: WriteBlock, fields: seq<Pair>, depth: nat, garbage: seq<byte>) returns (ok: bool)
    requires wb.Valid() && |garbage| == BLOCK_SIZE && forall k :: 0 <= k < |fields| ==> Lua(fields[k].key) && Lua(fields[k].value)
    modifies wb
    ensures ok == PackHash(fields, depth).Ok? && (ok ==> Wrote(wb, PackHash(fields, depth).value))
    decreases fields, 0
  {
    hide Flat, PackPair, Lua, PackHash;
    var i := 0;
    HashWhole(fields, depth);
    while i < |fields|
      invariant i <= |fields| && wb.Valid() && PackHash(fields, depth).Ok? == PackHash(fields[i..], depth).Ok?
      invariant PackHash(fields, depth).Ok? ==> wb.Content() + PackHash(fields[i..], depth).value == old(wb.Content()) + PackHash(fields, depth).value
    {
      HashStep(fields, i, depth);
      ghost var before := wb.Content();
      ok := WritePair(wb, fields[i], depth, garbage);
      if !ok {
        return;
      }
      if PackHash(fields[i..], depth).Ok? {
        Join3(before, PackPair(fields[i], depth).value, PackHash(fields[i + 1..], depth).value);
      }
      i := i + 1;
    }
    PushTag(wb, Tag(TYPE_NIL, 0), garbage);
    return true;
  }

  lemma HashWhole(fields: seq<Pair>, depth: nat)
    requires forall k :: 0 <= k < |fields| ==> Lua(fields[k].key) && Lua(fields[k].value)
    ensures fields[0..] == fields && fields[|fields|..] == [] && PackHash([], depth) == Ok([Tag(TYPE_NIL, 0)])
  {
  }

  lemma HashStep(fields: seq<Pair>, i: nat, depth: nat)
    requires (forall k :: 0 <= k < |fields| ==> Lua(fields[k].key) && Lua(fields[k].value)) && i < |fields|
    ensures PackHash(fields[i..], depth).Ok? <==> PackPair(fields[i], depth).Ok? && PackHash(fields[i + 1..], depth).Ok?
    ensures PackHash(fields[i..], depth).Ok? ==>
              PackHash(fields[i..], depth).value == PackPair(fields[i], depth).value + PackHash(fields[i + 1..], depth).value
  {
    hide PackPair, Lua;
    assert fields[i..][0] == fields[i] && fields[i..][1..] == fields[i + 1..];
  }

  method WritePair(wb: WriteBlock, p: Pair, depth: nat, garbage: seq<byte>) returns (ok: bool)
    requires wb.Valid() && |garbage| == BLOCK_SIZE && Lua(p.key) && Lua(p.value)
    modifies wb
    ensures ok == PackPair(p, depth).Ok? && (ok ==> Wrote(wb, PackPair(p, depth).value))
    decreases p, 2
  {
    hide Flat, Pack, Lua;
    ghost var before := wb.Content();
    ok := WriteOne(wb, p.key, depth, garbage);
    if ok {
      ok := WriteOne(wb, p.value, depth, garbage);
      if ok {
        Join3(before, Pack(p.key, depth).value, Pack(p.value, depth).value);
      }
    }
  }

  /** _luaseri_pack: the values are written one behind the other, the chain is closed and flattened. */
  method PackToBuffer(values: seq<Value>, garbage: seq<byte>) returns (buffer: Result<seq<byte>>)
    requires |garbage| == BLOCK_SIZE && (forall k :: 0 <= k < |values| ==> Lua(values[k]))
    requires PackAll(values).Ok? ==> |PackAll(values).value| < 0x7fff_fffc
    ensures buffer == PackAll(values)
  {
    hide Flat, FromLe4, Pack, PackArray;
    var wb := new WriteBlock(garbage);
    ghost var head := wb.Content();
    var ok := WriteArray(wb, values, 0, garbage);
    if !ok {
      return Err;
    }
    assert (head + PackAll(values).value)[HEADER..] == PackAll(values).value;
    var bytes := CloseAndFlatten(wb);
    return Ok(bytes);
  }

  method CloseAndFlatten(wb: WriteBlock) returns (buffer: seq<byte>)
    requires wb.Valid() && HEADER <= wb.len < 0x8000_0000
    ensures buffer == wb.Content()[HEADER..]
  {
    hide Flat, FromLe4;
    var closed := wb.Close();
    assert Flat(closed)[HEADER..wb.len] == Flat(closed)[..wb.len][HEADER..];
    buffer := Flatten(closed);
  }

  /** _luaseri_pack and then _luaseri_unpack: the values come back. */
  method Transfer(values: seq<Value>, garbage: seq<byte>) returns (received: Result<seq<Value>>)
    requires |garbage| == BLOCK_SIZE && (forall k :: 0 <= k < |values| ==> Lua(values[k]))
    requires PackAll(values).Ok? ==> |PackAll(values).value| < 0x7fff_fffc
    ensures received == if PackAll(values).Ok? then Ok(values) else Err
  {
    var buffer := PackToBuffer(values, garbage);
    if buffer.Err? {
      return Err;
    }
    StreamTrip(values);
    received := UnpackAll(buffer.value);
  }
}
