/**
 The wire format of Lua values. `Pack` is the writer, `UnpackOne` the reader over a byte sequence;
 the round trip is proved for every list of values within the depth limit.
 */
module LuaSeri {
  import opened Bytes

  const MAX_COOKIE := 32
  const MAX_DEPTH := 32

  /**
   A Lua value as the writer sees it. A number is an Integer when it equals its conversion to a
   32-bit integer and a Double otherwise; a table is its array part and the rest in the order of
   lua_next; a table with a numeric __remote field is a Remote.
   */
  datatype Value =
    | Nil
    | Boolean(b: bool)
    | Integer(i: int32)
    | Double(bits: seq<byte>)
    | Pointer(address: seq<byte>)
    | Str(bytes: seq<byte>)
    | Table(list: seq<Value>, fields: seq<Pair>)
    | Remote(handle: int32)

  datatype Pair = Pair(key: Value, value: Value)

  datatype Result<T> = Ok(value: T) | Err

  /** What Lua guarantees of its values: sizes fit an int, a double and a pointer have eight bytes, a key is not nil. */
  predicate Lua(v: Value)
  {
    match v
    case Double(bits) => |bits| == 8
    case Pointer(address) => |address| == 8
    case Str(bytes) => |bytes| < 0x8000_0000
    case Table(list, fields) =>
      && |list| < 0x8000_0000
      && (forall k :: 0 <= k < |list| ==> Lua(list[k]))
      && (forall k :: 0 <= k < |fields| ==> Lua(fields[k].key) && !fields[k].key.Nil? && Lua(fields[k].value))
    case _ => true
  }

  // ---------------------------------------------------------------------------
  // The type byte
  // ---------------------------------------------------------------------------

  const TYPE_NIL := 0
  const TYPE_BOOLEAN := 1
  const TYPE_NUMBER := 2
  const TYPE_USERDATA := 3
  const TYPE_SHORT_STRING := 4
  const TYPE_LONG_STRING := 5
  const TYPE_TABLE := 6
  const TYPE_REMOTE := 7

  /** COMBINE_TYPE(t, v): the type in the low three bits, the cookie above. */
  function Tag(t: nat, v: nat): byte
    requires t < 8 && v < MAX_COOKIE
  {
    (t + 8 * v) as byte
  }

  // ---------------------------------------------------------------------------
  // The writer
  // ---------------------------------------------------------------------------

  /** wb_integer, for a number or a remote handle. */
  function PackInteger(v: int32, t: nat): (s: seq<byte>)
    requires t < 8
    ensures |s| > 0
  {
    if v == 0 then [Tag(t, 0)]
    else if v < 0 then [Tag(t, 4)] + Le4(Unsigned(v))
    else if v < 0x100 then [Tag(t, 1), v as byte]
    else if v < 0x1_0000 then [Tag(t, 2)] + Le2(v as nat)
    else [Tag(t, 4)] + Le4(v as nat)
  }

  /** wb_string. */
  function PackString(bytes: seq<byte>): (s: seq<byte>)
    requires |bytes| < 0x8000_0000
    ensures |s| > 0
  {
    if |bytes| < MAX_COOKIE then [Tag(TYPE_SHORT_STRING, |bytes|)] + bytes
    else if |bytes| < 0x1_0000 then [Tag(TYPE_LONG_STRING, 2)] + Le2(|bytes|) + bytes
    else [Tag(TYPE_LONG_STRING, 4)] + Le4(|bytes|) + bytes
  }

  /** The head of wb_table_array. */
  function PackSize(n: nat): (s: seq<byte>)
    requires n < 0x8000_0000
    ensures |s| > 0
  {
    if n >= MAX_COOKIE - 1 then [Tag(TYPE_TABLE, MAX_COOKIE - 1)] + PackInteger(n as int32, TYPE_NUMBER)
    else [Tag(TYPE_TABLE, n)]
  }

  /** _pack_one at a depth; Err is the error raised for a table nested too deep. */
  function Pack(v: Value, depth: nat): Result<seq<byte>>
    requires Lua(v)
    decreases v, 1
  {
    if depth > MAX_DEPTH then Err else
      match v
      case Nil => Ok([Tag(TYPE_NIL, 0)])
      case Boolean(b) => Ok([Tag(TYPE_BOOLEAN, if b then 1 else 0)])
      case Integer(i) => Ok(PackInteger(i, TYPE_NUMBER))
      case Double(bits) => Ok([Tag(TYPE_NUMBER, 8)] + bits)
      case Pointer(address) => Ok([Tag(TYPE_USERDATA, 0)] + address)
      case Str(bytes) => Ok(PackString(bytes))
      case Remote(handle) => Ok(PackInteger(handle, TYPE_REMOTE))
      case Table(list, fields) =>
        var a := PackArray(list, depth + 1);
        var h := PackHash(fields, depth + 1);
        if a.Err? || h.Err? then Err else Ok(PackSize(|list|) + a.value + h.value)
  }

  /** The elements of the array part, in order. */
  function PackArray(list: seq<Value>, depth: nat): Result<seq<byte>>
    requires forall k :: 0 <= k < |list| ==> Lua(list[k])
    decreases list, 0
  {
    if list == [] then Ok([])
    else
      var first := Pack(list[0], depth);
      var rest := PackArray(list[1..], depth);
      if first.Err? || rest.Err? then Err else Ok(first.value + rest.value)
  }

  /** The other fields, key before value, and the nil that ends them. */
  function PackHash(fields: seq<Pair>, depth: nat): Result<seq<byte>>
    requires forall k :: 0 <= k < |fields| ==> Lua(fields[k].key) && Lua(fields[k].value)
    decreases fields, 0
  {
    if fields == [] then Ok([Tag(TYPE_NIL, 0)])
    else
      var first := PackPair(fields[0], depth);
      var rest := PackHash(fields[1..], depth);
      if first.Err? || rest.Err? then Err else Ok(first.value + rest.value)
  }

  function PackPair(p: Pair, depth: nat): Result<seq<byte>>
    requires Lua(p.key) && Lua(p.value)
    decreases p, 2
  {
    var key := Pack(p.key, depth);
    var value := Pack(p.value, depth);
    if key.Err? || value.Err? then Err else Ok(key.value + value.value)
  }

  // ---------------------------------------------------------------------------
  // The format, byte by byte
  // ---------------------------------------------------------------------------

  /** The number of bytes that an integer takes behind its type byte. */
  function Width(v: int32): nat
  {
    if v == 0 then 0 else if 0 < v < 0x100 then 1 else if 0 < v < 0x1_0000 then 2 else 4
  }

  /** The type in the low three bits of the first byte, the width above, and the bytes of the number, lowest first, in two's complement. */
  lemma IntegerBytes(v: int32, t: nat)
    requires t < 8
    ensures var s := PackInteger(v, t);
            && |s| == 1 + Width(v) && s[0] as nat % 8 == t && s[0] as nat / 8 == Width(v)
            && (Width(v) == 1 ==> s[1] as int == v as int)
            && (Width(v) == 2 ==> s[1] as int + 0x100 * s[2] as int == v as int)
            && (Width(v) == 4 ==> s[1] as int + 0x100 * s[2] as int + 0x1_0000 * s[3] as int + 0x100_0000 * s[4] as int == if v < 0 then v as int + 0x1_0000_0000 else v as int)
  {
    hide Tag;
    TagSplits(t, Width(v));
    if Width(v) == 4 {
      var u := Unsigned(v);
      assert Le4(u) == Le2(u % 0x1_0000) + Le2(u / 0x1_0000);
      Digits(u);
    }
  }

  lemma Digits(u: nat)
    requires u < 0x1_0000_0000
    ensures u % 0x1_0000 % 256 + 0x100 * (u % 0x1_0000 / 256) + 0x1_0000 * (u / 0x1_0000 % 256) + 0x100_0000 * (u / 0x1_0000 / 256) == u
  {
  }

  /** Up to 31 bytes the length is in the first byte; up to 65535 it is in the next two, and then in the next four, lowest byte first. */
  lemma StringBytes(bytes: seq<byte>)
    requires |bytes| < 0x8000_0000
    ensures |bytes| < 32 ==> var s := PackString(bytes); s[0] as int == 4 + 8 * |bytes| && s[1..] == bytes
    ensures 32 <= |bytes| < 0x1_0000 ==>
              var s := PackString(bytes);
              |s| == 3 + |bytes| && s[0] as int == 5 + 8 * 2 && s[1] as int + 0x100 * s[2] as int == |bytes| && s[3..] == bytes
    ensures 0x1_0000 <= |bytes| ==>
              var s := PackString(bytes);
              && |s| == 5 + |bytes| && s[0] as int == 5 + 8 * 4 && s[5..] == bytes
              && s[1] as int + 0x100 * s[2] as int + 0x1_0000 * s[3] as int + 0x100_0000 * s[4] as int == |bytes|
  {
    var n := |bytes|;
    if n >= 0x1_0000 {
      assert Le4(n) == Le2(n % 0x1_0000) + Le2(n / 0x1_0000);
      Digits(n);
    }
  }

  /** The first byte tells the type of a value, and the truth of a boolean, the eight bytes of a double and of a pointer follow it, a table begins with its size and ends with a nil. */
  lemma FormatOf(v: Value, depth: nat)
    requires Lua(v) && Pack(v, depth).Ok?
    ensures var s := Pack(v, depth).value;
            && |s| > 0
            && match v
               case Nil => s[0] == 0 && |s| == 1
               case Boolean(b) => s[0] == (if b then 9 else 1) && |s| == 1
               case Integer(i) => s[0] as nat % 8 == 2 && s[0] as nat / 8 == Width(i)
               case Double(bits) => s[0] == 66 && s[1..] == bits
               case Pointer(address) => s[0] == 3 && s[1..] == address
               case Str(bytes) => s[0] as nat % 8 == if |bytes| < 32 then 4 else 5
               case Remote(handle) => s[0] as nat % 8 == 7 && s[0] as nat / 8 == Width(handle)
               case Table(list, _) => s[0] as nat == (if |list| < 31 then 6 + 8 * |list| else 254) && s[|s| - 1] == 0
  {
    match v
    case Integer(i) => IntegerBytes(i, TYPE_NUMBER);
    case Remote(handle) => IntegerBytes(handle, TYPE_REMOTE);
    case Str(bytes) => StringBytes(bytes);
    case Table(list, fields) =>
      EndsWithNil(fields, depth + 1);
    case _ =>
  }

  lemma {:induction false} EndsWithNil(fields: seq<Pair>, depth: nat)
    requires forall k :: 0 <= k < |fields| ==> Lua(fields[k].key) && Lua(fields[k].value)
    requires PackHash(fields, depth).Ok?
    ensures var s := PackHash(fields, depth).value; |s| > 0 && s[|s| - 1] == 0
  {
    hide Pack;
    if fields != [] {
      EndsWithNil(fields[1..], depth);
    }
  }

  // ---------------------------------------------------------------------------
  // The reader
  // ---------------------------------------------------------------------------

  /** A value read and the bytes behind it. */
  datatype Read<T> = Read(item: T, rest: seq<byte>)

  /** rb_read on a buffer: nothing is consumed when fewer bytes are left. */
  function Take(s: seq<byte>, n: nat): (r: Result<Read<seq<byte>>>)
    ensures r.Ok? <==> n <= |s|
    ensures r.Ok? ==> |r.value.item| == n && s == r.value.item + r.value.rest
  {
    if n <= |s| then Ok(Read(s[..n], s[n..])) else Err
  }

  /** _get_integer. */
  function GetInteger(s: seq<byte>, cookie: nat): (r: Result<Read<int32>>)
    ensures r.Ok? ==> |r.value.rest| <= |s|
  {
    if cookie == 0 then Ok(Read(0, s))
    else if cookie == 1 && |s| >= 1 then Ok(Read(s[0] as int32, s[1..]))
    else if cookie == 2 && |s| >= 2 then Ok(Read(FromLe2(s) as int32, s[2..]))
    else if cookie == 4 && |s| >= 4 then Ok(Read(Signed(FromLe4(s)), s[4..]))
    else Err
  }

  /** The length of a long string. */
  function GetLength(s: seq<byte>, cookie: nat): (r: Result<Read<nat>>)
    ensures r.Ok? ==> |r.value.rest| <= |s|
  {
    if cookie == 2 && |s| >= 2 then Ok(Read(FromLe2(s), s[2..]))
    else if cookie == 4 && |s| >= 4 then Ok(Read(FromLe4(s), s[4..]))
    else Err
  }

  /** The number of array elements that _unpack_table reads; a size given as a double is an error here. */
  function GetSize(s: seq<byte>, cookie: nat): (r: Result<Read<nat>>)
    ensures r.Ok? ==> |r.value.rest| <= |s|
  {
    if cookie != MAX_COOKIE - 1 then Ok(Read(cookie, s))
    else if s == [] || s[0] as nat % 8 != TYPE_NUMBER then Err
    else
      var n := GetInteger(s[1..], s[0] as nat / 8);
      if n.Err? then Err else Ok(Read(if n.value.item < 0 then 0 else n.value.item as nat, n.value.rest))
  }

  /** _unpack_one. */
  function UnpackOne(s: seq<byte>): (r: Result<Read<Value>>)
    ensures r.Ok? ==> |r.value.rest| < |s|
    decreases |s|, 0, 0
  {
    if s == [] then Err else PushValue(s[1..], s[0] as nat % 8, s[0] as nat / 8)
  }

  /** _push_value. */
  function PushValue(s: seq<byte>, t: nat, cookie: nat): (r: Result<Read<Value>>)
    ensures r.Ok? ==> |r.value.rest| <= |s|
    decreases |s|, 2, 0
  {
    if t == TYPE_NIL then Ok(Read(Nil, s))
    else if t == TYPE_BOOLEAN then Ok(Read(Boolean(cookie != 0), s))
    else if t == TYPE_NUMBER then
      if cookie == 8 then
        var bits := Take(s, 8);
        if bits.Err? then Err else Ok(Read(Double(bits.value.item), bits.value.rest))
      else
        var n := GetInteger(s, cookie);
        if n.Err? then Err else Ok(Read(Integer(n.value.item), n.value.rest))
    else if t == TYPE_USERDATA then
      var p := Take(s, 8);
      if p.Err? then Err else Ok(Read(Pointer(p.value.item), p.value.rest))
    else if t == TYPE_SHORT_STRING then
      var b := Take(s, cookie);
      if b.Err? then Err else Ok(Read(Str(b.value.item), b.value.rest))
    else if t == TYPE_LONG_STRING then
      var n := GetLength(s, cookie);
      if n.Err? then Err else
        var b := Take(n.value.rest, n.value.item);
        if b.Err? then Err else Ok(Read(Str(b.value.item), b.value.rest))
    else if t == TYPE_TABLE then UnpackTable(s, cookie)
    else
      var h := GetInteger(s, cookie);
      if h.Err? then Err else Ok(Read(Remote(h.value.item), h.value.rest))
  }

  /** _unpack_table. */
  function UnpackTable(s: seq<byte>, cookie: nat): (r: Result<Read<Value>>)
    ensures r.Ok? ==> |r.value.rest| <= |s|
    decreases |s|, 1, 0
  {
    var n := GetSize(s, cookie);
    if n.Err? then Err else
      var list := UnpackList(n.value.rest, n.value.item);
      if list.Err? then Err else
        var fields := UnpackFields(list.value.rest);
        if fields.Err? then Err else Ok(Read(Table(list.value.item, fields.value.item), fields.value.rest))
  }

  function UnpackList(s: seq<byte>, n: nat): (r: Result<Read<seq<Value>>>)
    ensures r.Ok? ==> |r.value.rest| <= |s|
    decreases |s|, 0, n + 1
  {
    if n == 0 then Ok(Read([], s))
    else
      var first := UnpackOne(s);
      if first.Err? then Err else
        var others := UnpackList(first.value.rest, n - 1);
        if others.Err? then Err else Ok(Read([first.value.item] + others.value.item, others.value.rest))
  }

  /** Key and value alternate until a nil key. */
  function UnpackFields(s: seq<byte>): (r: Result<Read<seq<Pair>>>)
    ensures r.Ok? ==> |r.value.rest| <= |s|
    decreases |s|, 0, 1
  {
    var key := UnpackOne(s);
    if key.Err? then Err
    else if key.value.item.Nil? then Ok(Read([], key.value.rest))
    else
      var value := UnpackOne(key.value.rest);
      if value.Err? then Err else
        var others := UnpackFields(value.value.rest);
        if others.Err? then Err else Ok(Read([Pair(key.value.item, value.value.item)] + others.value.item, others.value.rest))
  }

  // ---------------------------------------------------------------------------
  // The round trip
  // ---------------------------------------------------------------------------

  lemma TagSplits(t: nat, v: nat)
    requires t < 8 && v < MAX_COOKIE
    ensures Tag(t, v) as nat % 8 == t && Tag(t, v) as nat / 8 == v
  {
  }

  /** The cookie that wb_integer chooses. */
  function Cookie(v: int32): nat
  {
    if v == 0 then 0 else if v < 0 then 4 else if v < 0x100 then 1 else if v < 0x1_0000 then 2 else 4
  }

  lemma IntegerTrip(v: int32, t: nat, rest: seq<byte>)
    requires t < 8
    ensures var s := PackInteger(v, t) + rest;
            s[0] == Tag(t, Cookie(v)) && GetInteger(s[1..], Cookie(v)) == Ok(Read(v, rest))
  {
    hide Le2, Le4, FromLe2, FromLe4, Tag, Signed;
    var s := PackInteger(v, t) + rest;
    if v == 0 {
      assert s[1..] == rest;
    } else if 0 < v < 0x100 {
      assert s[1..] == [v as byte] + rest;
    } else if 0 < v < 0x1_0000 {
      assert s[1..] == Le2(v as nat) + rest;
      FromLePrefix(Le2(v as nat), rest);
    } else {
      SignedUnsigned(v);
      assert s[1..] == Le4(Unsigned(v)) + rest;
      FromLePrefix(Le4(Unsigned(v)), rest);
    }
  }

  lemma ShortStringTrip(bytes: seq<byte>, rest: seq<byte>)
    requires |bytes| < MAX_COOKIE
    ensures UnpackOne(PackString(bytes) + rest) == Ok(Read(Str(bytes), rest))
  {
    var s := PackString(bytes) + rest;
    TagSplits(TYPE_SHORT_STRING, |bytes|);
    assert s[1..] == bytes + rest;
  }

  /** The length of a long string, as PackString writes it. */
  lemma LengthTrip(n: nat, cookie: nat, length: seq<byte>, tail: seq<byte>)
    requires n < 0x8000_0000
    requires if n < 0x1_0000 then cookie == 2 && length == Le2(n) else cookie == 4 && length == Le4(n)
    ensures GetLength(length + tail, cookie) == Ok(Read(n, tail))
  {
    hide Le2, Le4, FromLe2, FromLe4;
    FromLePrefix(length, tail);
  }

  lemma LongStringTrip(bytes: seq<byte>, cookie: nat, length: seq<byte>, rest: seq<byte>)
    requires MAX_COOKIE <= |bytes| < 0x8000_0000
    requires if |bytes| < 0x1_0000 then cookie == 2 && length == Le2(|bytes|) else cookie == 4 && length == Le4(|bytes|)
    ensures UnpackOne(PackString(bytes) + rest) == Ok(Read(Str(bytes), rest))
  {
    hide Le2, Le4, FromLe2, FromLe4, UnpackOne, Tag, GetLength;
    var s, tag := PackString(bytes) + rest, Tag(TYPE_LONG_STRING, cookie);
    TagSplits(TYPE_LONG_STRING, cookie);
    assert PackString(bytes) == [tag] + length + bytes;
    Behind(tag, length, bytes, rest);
    LengthTrip(|bytes|, cookie, length, bytes + rest);
    LongStringParts(s, cookie, bytes, bytes + rest, rest);
  }

  lemma Behind(tag: byte, length: seq<byte>, bytes: seq<byte>, rest: seq<byte>)
    ensures var s := [tag] + length + bytes + rest; s[0] == tag && s[1..] == length + (bytes + rest)
  {
  }

  lemma LongStringParts(s: seq<byte>, cookie: nat, bytes: seq<byte>, tail: seq<byte>, rest: seq<byte>)
    requires s != [] && s[0] as nat % 8 == TYPE_LONG_STRING && s[0] as nat / 8 == cookie
    requires GetLength(s[1..], cookie) == Ok(Read(|bytes|, tail)) && tail == bytes + rest
    ensures UnpackOne(s) == Ok(Read(Str(bytes), rest))
  {
    assert Take(tail, |bytes|) == Ok(Read(bytes, rest));
  }

  lemma StringTrip(bytes: seq<byte>, rest: seq<byte>)
    requires |bytes| < 0x8000_0000
    ensures UnpackOne(PackString(bytes) + rest) == Ok(Read(Str(bytes), rest))
  {
    if |bytes| < MAX_COOKIE {
      ShortStringTrip(bytes, rest);
    } else if |bytes| < 0x1_0000 {
      LongStringTrip(bytes, 2, Le2(|bytes|), rest);
    } else {
      LongStringTrip(bytes, 4, Le4(|bytes|), rest);
    }
  }

  lemma SizeTrip(n: nat, rest: seq<byte>)
    requires n < 0x8000_0000
    ensures var s := PackSize(n) + rest;
            s[0] as nat % 8 == TYPE_TABLE && GetSize(s[1..], s[0] as nat / 8) == Ok(Read(n, rest))
  {
    var s := PackSize(n) + rest;
    if n >= MAX_COOKIE - 1 {
      TagSplits(TYPE_TABLE, MAX_COOKIE - 1);
      TagSplits(TYPE_NUMBER, Cookie(n as int32));
      assert s[1..] == PackInteger(n as int32, TYPE_NUMBER) + rest;
      IntegerTrip(n as int32, TYPE_NUMBER, rest);
    } else {
      TagSplits(TYPE_TABLE, n);
      assert s[1..] == rest;
    }
  }

  lemma LeafTrip(v: Value, depth: nat, rest: seq<byte>)
    requires Lua(v) && !v.Table? && depth <= MAX_DEPTH
    ensures UnpackOne(Pack(v, depth).value + rest) == Ok(Read(v, rest))
  {
    var s := Pack(v, depth).value + rest;
    match v
    case Nil => TagSplits(TYPE_NIL, 0); assert s[1..] == rest;
    case Boolean(b) => TagSplits(TYPE_BOOLEAN, if b then 1 else 0); assert s[1..] == rest;
    case Integer(i) => TagSplits(TYPE_NUMBER, Cookie(i)); IntegerTrip(i, TYPE_NUMBER, rest);
    case Double(bits) => TagSplits(TYPE_NUMBER, 8); assert s[1..] == bits + rest;
    case Pointer(address) => TagSplits(TYPE_USERDATA, 0); assert s[1..] == address + rest;
    case Str(bytes) => StringTrip(bytes, rest);
    case Remote(handle) => TagSplits(TYPE_REMOTE, Cookie(handle)); IntegerTrip(handle, TYPE_REMOTE, rest);
  }

  /** The parts of a table, read one after the other. */
  lemma TableParts(s: seq<byte>, size: Read<nat>, list: Read<seq<Value>>, fields: Read<seq<Pair>>)
    requires s != [] && s[0] as nat % 8 == TYPE_TABLE && GetSize(s[1..], s[0] as nat / 8) == Ok(size)
    requires UnpackList(size.rest, size.item) == Ok(list) && UnpackFields(list.rest) == Ok(fields)
    ensures UnpackOne(s) == Ok(Read(Table(list.item, fields.item), fields.rest))
  {
    assert UnpackTable(s[1..], s[0] as nat / 8) == Ok(Read(Table(list.item, fields.item), fields.rest));
  }

  /** Reading what was written gives the value back and consumes exactly its bytes. */
  lemma {:induction false} OneTrip(v: Value, depth: nat, rest: seq<byte>)
    requires Lua(v) && Pack(v, depth).Ok?
    ensures UnpackOne(Pack(v, depth).value + rest) == Ok(Read(v, rest))
    decreases v, 1
  {
    if !v.Table? {
      LeafTrip(v, depth, rest);
    } else {
      var list, fields := PackArray(v.list, depth + 1).value, PackHash(v.fields, depth + 1).value;
      var s := Pack(v, depth).value + rest;
      assert s == PackSize(|v.list|) + (list + (fields + rest));
      SizeTrip(|v.list|, list + (fields + rest));
      ListTrip(v.list, depth + 1, fields + rest);
      FieldsTrip(v.fields, depth + 1, rest);
      TableParts(s, Read(|v.list|, list + (fields + rest)), Read(v.list, fields + rest), Read(v.fields, rest));
    }
  }

  lemma {:induction false} ListTrip(list: seq<Value>, depth: nat, rest: seq<byte>)
    requires (forall k :: 0 <= k < |list| ==> Lua(list[k])) && PackArray(list, depth).Ok?
    ensures UnpackList(PackArray(list, depth).value + rest, |list|) == Ok(Read(list, rest))
    decreases list, 0
  {
    if list == [] {
      assert PackArray(list, depth).value + rest == rest;
    } else {
      var first, others := Pack(list[0], depth).value, PackArray(list[1..], depth).value;
      assert PackArray(list, depth).value + rest == first + (others + rest);
      OneTrip(list[0], depth, others + rest);
      ListTrip(list[1..], depth, rest);
      assert [list[0]] + list[1..] == list;
    }
  }

  lemma {:induction false} FieldsTrip(fields: seq<Pair>, depth: nat, rest: seq<byte>)
    requires forall k :: 0 <= k < |fields| ==> Lua(fields[k].key) && !fields[k].key.Nil? && Lua(fields[k].value)
    requires PackHash(fields, depth).Ok?
    ensures UnpackFields(PackHash(fields, depth).value + rest) == Ok(Read(fields, rest))
    decreases fields, 0
  {
    if fields == [] {
      LeafTrip(Nil, 0, rest);
    } else {
      var others := PackHash(fields[1..], depth).value;
      var first := PackPair(fields[0], depth).value;
      assert PackHash(fields, depth).value + rest == first + (others + rest);
      PairTrip(fields[0], depth, others + rest);
      FieldsTrip(fields[1..], depth, rest);
      assert [fields[0]] + fields[1..] == fields;
    }
  }

  lemma {:induction false} PairTrip(p: Pair, depth: nat, rest: seq<byte>)
    requires Lua(p.key) && Lua(p.value) && PackPair(p, depth).Ok?
    ensures var s := PackPair(p, depth).value + rest;
            && UnpackOne(s).Ok? && UnpackOne(s).value.item == p.key
            && UnpackOne(UnpackOne(s).value.rest) == Ok(Read(p.value, rest))
    decreases p, 2
  {
    var key, value := Pack(p.key, depth).value, Pack(p.value, depth).value;
    assert PackPair(p, depth).value + rest == key + (value + rest);
    OneTrip(p.key, depth, value + rest);
    OneTrip(p.value, depth, rest);
  }

  // ---------------------------------------------------------------------------
  // Whole streams and the depth limit
  // ---------------------------------------------------------------------------

  /** _pack_from. */
  function PackAll(values: seq<Value>): Result<seq<byte>>
    requires forall k :: 0 <= k < |values| ==> Lua(values[k])
  {
    PackArray(values, 0)
  }

  /** The loop of _luaseri_unpack. */
  function UnpackAll(s: seq<byte>): Result<seq<Value>>
    decreases |s|
  {
    if s == [] then Ok([])
    else
      var first := UnpackOne(s);
      if first.Err? then Err else
        var others := UnpackAll(first.value.rest);
        if others.Err? then Err else Ok([first.value.item] + others.value)
  }

  lemma {:induction false} StreamTrip(values: seq<Value>)
    requires (forall k :: 0 <= k < |values| ==> Lua(values[k])) && PackAll(values).Ok?
    ensures UnpackAll(PackAll(values).value) == Ok(values)
  {
    if values != [] {
      var first, others := Pack(values[0], 0).value, PackAll(values[1..]).value;
      assert PackAll(values).value == first + others;
      OneTrip(values[0], 0, others);
      StreamTrip(values[1..]);
      PackNonEmpty(values[0], 0);
      assert [values[0]] + values[1..] == values;
    }
  }

  lemma PackNonEmpty(v: Value, depth: nat)
    requires Lua(v) && Pack(v, depth).Ok?
    ensures Pack(v, depth).value != []
  {
  }

  /** How many tables enclose the innermost value. */
  function Height(v: Value): nat
    decreases v, 1
  {
    if v.Table? then Max(ListHeight(v.list), FieldsHeight(v.fields)) else 0
  }

  function Max(a: nat, b: nat): nat
  {
    if a < b then b else a
  }

  function ListHeight(list: seq<Value>): nat
    decreases list, 0
  {
    if list == [] then 0 else Max(1 + Height(list[0]), ListHeight(list[1..]))
  }

  function FieldsHeight(fields: seq<Pair>): nat
    decreases fields, 0
  {
    if fields == [] then 0 else Max(PairHeight(fields[0]), FieldsHeight(fields[1..]))
  }

  function PairHeight(p: Pair): nat
    decreases p, 2
  {
    Max(1 + Height(p.key), 1 + Height(p.value))
  }

  /** The writer accepts exactly the values that are not nested deeper than MAX_DEPTH. */
  lemma {:induction false} PackIffShallow(v: Value, depth: nat)
    requires Lua(v)
    ensures Pack(v, depth).Ok? <==> depth + Height(v) <= MAX_DEPTH
    decreases v, 1
  {
    if v.Table? {
      ListIffShallow(v.list, depth + 1);
      FieldsIffShallow(v.fields, depth + 1);
    }
  }

  lemma {:induction false} ListIffShallow(list: seq<Value>, depth: nat)
    requires depth > 0 && forall k :: 0 <= k < |list| ==> Lua(list[k])
    ensures PackArray(list, depth).Ok? <==> list == [] || depth - 1 + ListHeight(list) <= MAX_DEPTH
    decreases list, 0
  {
    if list != [] {
      PackIffShallow(list[0], depth);
      ListIffShallow(list[1..], depth);
    }
  }

  lemma {:induction false} FieldsIffShallow(fields: seq<Pair>, depth: nat)
    requires depth > 0 && forall k :: 0 <= k < |fields| ==> Lua(fields[k].key) && Lua(fields[k].value)
    ensures PackHash(fields, depth).Ok? <==> fields == [] || depth - 1 + FieldsHeight(fields) <= MAX_DEPTH
    decreases fields, 0
  {
    if fields != [] {
      PairIffShallow(fields[0], depth);
      FieldsIffShallow(fields[1..], depth);
    }
  }

  lemma {:induction false} PairIffShallow(p: Pair, depth: nat)
    requires depth > 0 && Lua(p.key) && Lua(p.value)
    ensures PackPair(p, depth).Ok? <==> depth - 1 + PairHeight(p) <= MAX_DEPTH
    decreases p, 2
  {
    PackIffShallow(p.key, depth);
    PackIffShallow(p.value, depth);
  }
}
