// The Apache Thrift binary protocol (strict encoding) as the agent's osquery client reads it.
//
// A reader is a function of a buffer and a position. Its outcome is three-way: a value and the
// position behind it, `Eof` when the buffer ends too early, or `Fatal` for anything else. Only
// `Eof` makes the client wait for more bytes, so the facts below are about that distinction.
module ThriftBinary {
  import opened Collections

  type Byte = b: int | 0 <= b < 0x100
  type Bytes = seq<Byte>
  type Int16 = n: int | -0x8000 <= n < 0x8000
  type Int32 = n: int | -0x8000_0000 <= n < 0x8000_0000

  datatype Parsed<+T> = Value(value: T, next: nat) | Eof | Fatal {
    predicate IsFailure() {
      !Value?
    }

    function PropagateFailure<U>(): Parsed<U>
      requires IsFailure()
    {
      if Eof? then Eof else Fatal
    }

    function Extract(): (T, nat)
      requires Value?
    {
      (value, next)
    }
  }

  /// Fixed-width and length-prefixed items

  // The transport's read_exact.
  function Take(b: Bytes, pos: nat, n: nat): (r: Parsed<Bytes>)
    ensures r.Value? ==> r.next == pos + n <= |b| && |r.value| == n
  {
    if pos + n <= |b| then Value(b[pos..pos + n], pos + n) else Eof
  }

  function BigEndian(s: Bytes): nat {
    if s == [] then 0 else BigEndian(s[..|s| - 1]) * 0x100 + s[|s| - 1]
  }

  // The last n bytes of u, most significant first.
  function BigEndianBytes(u: nat, n: nat): (s: Bytes)
    ensures |s| == n
  {
    if n == 0 then [] else BigEndianBytes(u / 0x100, n - 1) + [u % 0x100]
  }

  function Power256(n: nat): nat {
    if n == 0 then 1 else Power256(n - 1) * 0x100
  }

  lemma {:induction false} BigEndianRoundTrip(u: nat, n: nat)
    ensures u < Power256(n) ==> BigEndian(BigEndianBytes(u, n)) == u
    ensures BigEndian(BigEndianBytes(u, n)) < Power256(n)
  {
    if n > 0 {
      BigEndianRoundTrip(u / 0x100, n - 1);
      var s := BigEndianBytes(u, n);
      assert s[..n - 1] == BigEndianBytes(u / 0x100, n - 1);
    }
  }

  lemma {:induction false} BigEndianBound(s: Bytes)
    ensures BigEndian(s) < Power256(|s|)
  {
    if s != [] {
      BigEndianBound(s[..|s| - 1]);
    }
  }

  function Int32Of(s: Bytes): (n: Int32)
    requires |s| == 4
  {
    BigEndianBound(s);
    assert Power256(4) == 0x1_0000_0000 by { assert Power256(3) == 0x100_0000; }
    var u := BigEndian(s);
    if u < 0x8000_0000 then u else u - 0x1_0000_0000
  }

  function Int16Of(s: Bytes): Int16
    requires |s| == 2
  {
    BigEndianBound(s);
    assert Power256(2) == 0x1_0000;
    var u := BigEndian(s);
    if u < 0x8000 then u else u - 0x1_0000
  }

  function Int32Bytes(n: Int32): (s: Bytes)
    ensures |s| == 4
  {
    BigEndianBytes(if n < 0 then n + 0x1_0000_0000 else n, 4)
  }

  function Int16Bytes(n: Int16): (s: Bytes)
    ensures |s| == 2
  {
    BigEndianBytes(if n < 0 then n + 0x1_0000 else n, 2)
  }

  lemma IntegersRoundTrip(n: Int32, m: Int16)
    ensures Int32Of(Int32Bytes(n)) == n
    ensures Int16Of(Int16Bytes(m)) == m
  {
    assert Power256(2) == 0x1_0000 && Power256(3) == 0x100_0000 && Power256(4) == 0x1_0000_0000;
    BigEndianRoundTrip(if n < 0 then n + 0x1_0000_0000 else n, 4);
    BigEndianRoundTrip(if m < 0 then m + 0x1_0000 else m, 2);
  }

  function ReadInt32(b: Bytes, pos: nat): (r: Parsed<Int32>)
    ensures r.Value? ==> r.next == pos + 4 <= |b|
  {
    var (s, p) :- Take(b, pos, 4);
    Value(Int32Of(s), p)
  }

  function ReadInt16(b: Bytes, pos: nat): (r: Parsed<Int16>)
    ensures r.Value? ==> r.next == pos + 2 <= |b|
  {
    var (s, p) :- Take(b, pos, 2);
    Value(Int16Of(s), p)
  }

  predicate Continuation(x: Byte) {
    0x80 <= x < 0xC0
  }

  // Length of the well-formed UTF-8 sequence at the head of s, or 0 if there is none.
  function CharWidth(s: Bytes): nat
    requires s != []
  {
    if s[0] < 0x80 then 1
    else if 0xC2 <= s[0] < 0xE0 && |s| >= 2 && Continuation(s[1]) then 2
    else if 0xE0 <= s[0] < 0xF0 && |s| >= 3 && Continuation(s[1]) && Continuation(s[2])
         && (s[0] == 0xE0 ==> s[1] >= 0xA0) && (s[0] == 0xED ==> s[1] < 0xA0) then 3
    else if 0xF0 <= s[0] < 0xF5 && |s| >= 4 && Continuation(s[1]) && Continuation(s[2]) && Continuation(s[3])
         && (s[0] == 0xF0 ==> s[1] >= 0x90) && (s[0] == 0xF4 ==> s[1] < 0x90) then 4
    else 0
  }

  predicate ValidUtf8(s: Bytes)
    decreases |s|
  {
    s == [] || (0 < CharWidth(s) <= |s| && ValidUtf8(s[CharWidth(s)..]))
  }

  type Utf8 = s: Bytes | ValidUtf8(s)

  // A negative length never becomes readable, however many bytes follow.
  function ReadString(b: Bytes, pos: nat): (r: Parsed<Utf8>)
    ensures r.Value? ==> pos < r.next <= |b|
  {
    var (n, p) :- ReadInt32(b, pos);
    if n < 0 then Fatal
    else
      var (s, q) :- Take(b, p, n);
      if ValidUtf8(s) then Value(s, q) else Fatal
  }

  /// Types, field headers and message headers

  datatype TType =
    | Stop | Void | Bool | I08 | Double | I16 | I32 | I64
    | String | Struct | Map | Set | List | Utf8Text | Utf16Text

  function TypeCode(t: TType): Byte {
    match t
    case Stop => 0x00 case Void => 0x01 case Bool => 0x02 case I08 => 0x03 case Double => 0x04
    case I16 => 0x06 case I32 => 0x08 case I64 => 0x0A case String => 0x0B case Struct => 0x0C
    case Map => 0x0D case Set => 0x0E case List => 0x0F case Utf8Text => 0x10 case Utf16Text => 0x11
  }

  function TypeOfCode(c: Byte): Option<TType> {
    match c
    case 0x00 => Some(Stop) case 0x01 => Some(Void) case 0x02 => Some(Bool) case 0x03 => Some(I08)
    case 0x04 => Some(Double) case 0x06 => Some(I16) case 0x08 => Some(I32) case 0x0A => Some(I64)
    case 0x0B => Some(String) case 0x0C => Some(Struct) case 0x0D => Some(Map) case 0x0E => Some(Set)
    case 0x0F => Some(List) case 0x10 => Some(Utf8Text) case 0x11 => Some(Utf16Text)
    case _ => None
  }

  function ReadType(b: Bytes, pos: nat): (r: Parsed<TType>)
    ensures r.Value? ==> r.next == pos + 1 <= |b|
  {
    var (s, p) :- Take(b, pos, 1);
    match TypeOfCode(s[0])
    case None => Fatal
    case Some(t) => Value(t, p)
  }

  datatype FieldHeader = FieldHeader(ty: TType, id: Int16)

  function ReadFieldBegin(b: Bytes, pos: nat): (r: Parsed<FieldHeader>)
    ensures r.Value? ==> pos < r.next <= |b|
  {
    var (t, p) :- ReadType(b, pos);
    if t == Stop then Value(FieldHeader(Stop, 0), p)
    else
      var (id, q) :- ReadInt16(b, p);
      Value(FieldHeader(t, id), q)
  }

  datatype ListHeader = ListHeader(element: TType, size: Int32)
  datatype MapHeader = MapHeader(key: TType, val: TType, size: Int32)

  function ReadListBegin(b: Bytes, pos: nat): (r: Parsed<ListHeader>)
    ensures r.Value? ==> pos < r.next <= |b|
  {
    var (t, p) :- ReadType(b, pos);
    var (n, q) :- ReadInt32(b, p);
    Value(ListHeader(t, n), q)
  }

  function ReadMapBegin(b: Bytes, pos: nat): (r: Parsed<MapHeader>)
    ensures r.Value? ==> pos < r.next <= |b|
  {
    var (k, p) :- ReadType(b, pos);
    var (v, q) :- ReadType(b, p);
    var (n, s) :- ReadInt32(b, q);
    Value(MapHeader(k, v, n), s)
  }

  datatype MessageKind = Call | Reply | Exception | OneWay

  function KindCode(k: MessageKind): Byte {
    match k case Call => 1 case Reply => 2 case Exception => 3 case OneWay => 4
  }

  function KindOfCode(c: Byte): Option<MessageKind> {
    match c case 1 => Some(Call) case 2 => Some(Reply) case 3 => Some(Exception) case 4 => Some(OneWay) case _ => None
  }

  datatype MessageHeader = MessageHeader(kind: MessageKind, name: Utf8, sequence: Int32)

  // Strict encoding only: the version word must be 0x8001.
  function ReadMessageBegin(b: Bytes, pos: nat): (r: Parsed<MessageHeader>)
    ensures r.Value? ==> pos < r.next <= |b|
  {
    var (s, p) :- Take(b, pos, 4);
    if s[0] != 0x80 || s[1] != 0x01 then Fatal
    else match KindOfCode(s[3])
      case None => Fatal
      case Some(kind) =>
        var (name, q) :- ReadString(b, p);
        var (n, t) :- ReadInt32(b, q);
        Value(MessageHeader(kind, name, n), t)
  }

  /// Skipping a value of a given type

  const MAX_SKIP_DEPTH: nat := 64

  function FixedWidth(t: TType): Option<nat> {
    match t
    case Bool => Some(1) case I08 => Some(1) case I16 => Some(2)
    case I32 => Some(4) case I64 => Some(8) case Double => Some(8)
    case _ => None
  }

  function Skip(b: Bytes, pos: nat, t: TType, depth: nat): (r: Parsed<()>)
    ensures r.Value? ==> pos < r.next <= |b|
    decreases depth, 0
  {
    if depth == 0 then Fatal
    else if FixedWidth(t).Some? then
      var (_, p) :- Take(b, pos, FixedWidth(t).value);
      Value((), p)
    else match t
      case String =>
        var (_, p) :- ReadString(b, pos);
        Value((), p)
      case Struct => SkipFields(b, pos, depth - 1)
      case List | Set =>
        var (h, p) :- ReadListBegin(b, pos);
        SkipElements(b, p, h.element, h.size, depth - 1)
      case Map =>
        var (h, p) :- ReadMapBegin(b, pos);
        SkipEntries(b, p, h.key, h.val, h.size, depth - 1)
      case _ => Fatal
  }

  function SkipFields(b: Bytes, pos: nat, depth: nat): (r: Parsed<()>)
    ensures r.Value? ==> pos < r.next <= |b|
    decreases depth, if pos <= |b| then 1 + |b| - pos else 1
  {
    var (f, p) :- ReadFieldBegin(b, pos);
    if f.ty == Stop then Value((), p)
    else
      var (_, q) :- Skip(b, p, f.ty, depth);
      SkipFields(b, q, depth)
  }

  // A size that is not positive skips nothing, as the half-open range 0..size does.
  function SkipElements(b: Bytes, pos: nat, t: TType, n: int, depth: nat): (r: Parsed<()>)
    requires pos <= |b|
    ensures r.Value? ==> pos <= r.next <= |b|
    decreases depth, if n > 0 then 1 + n else 1
  {
    if n <= 0 then Value((), pos)
    else
      var (_, p) :- Skip(b, pos, t, depth);
      SkipElements(b, p, t, n - 1, depth)
  }

  function SkipEntry(b: Bytes, pos: nat, k: TType, v: TType, depth: nat): (r: Parsed<()>)
    ensures r.Value? ==> pos < r.next <= |b|
    decreases depth, 1
  {
    var (_, p) :- Skip(b, pos, k, depth);
    Skip(b, p, v, depth)
  }

  function SkipEntries(b: Bytes, pos: nat, k: TType, v: TType, n: int, depth: nat): (r: Parsed<()>)
    requires pos <= |b|
    ensures r.Value? ==> pos <= r.next <= |b|
    decreases depth, if n > 0 then 2 + n else 2
  {
    if n <= 0 then Value((), pos)
    else
      var (_, p) :- SkipEntry(b, pos, k, v, depth);
      SkipEntries(b, p, k, v, n - 1, depth)
  }

  /// Stability: more bytes never change an outcome other than Eof

  // b is what arrived so far, c what arrived later on.
  ghost predicate Stable<T(!new)>(early: Parsed<T>, late: Parsed<T>) {
    !early.Eof? ==> late == early
  }

  lemma TakeIsStable(b: Bytes, c: Bytes, pos: nat, n: nat)
    requires b <= c
    ensures Stable(Take(b, pos, n), Take(c, pos, n))
  {
    if pos + n <= |b| {
      assert b[pos..pos + n] == c[pos..pos + n];
    }
  }

  lemma ReadsAreStable(b: Bytes, c: Bytes, pos: nat)
    requires b <= c
    ensures Stable(ReadInt32(b, pos), ReadInt32(c, pos))
    ensures Stable(ReadInt16(b, pos), ReadInt16(c, pos))
    ensures Stable(ReadType(b, pos), ReadType(c, pos))
  {
    TakeIsStable(b, c, pos, 1);
    TakeIsStable(b, c, pos, 2);
    TakeIsStable(b, c, pos, 4);
  }

  lemma StringIsStable(b: Bytes, c: Bytes, pos: nat)
    requires b <= c
    ensures Stable(ReadString(b, pos), ReadString(c, pos))
  {
    ReadsAreStable(b, c, pos);
    var n := ReadInt32(b, pos);
    if n.Value? && n.value >= 0 {
      TakeIsStable(b, c, n.next, n.value);
    }
  }

  lemma FieldBeginIsStable(b: Bytes, c: Bytes, pos: nat)
    requires b <= c
    ensures Stable(ReadFieldBegin(b, pos), ReadFieldBegin(c, pos))
  {
    ReadsAreStable(b, c, pos);
    ReadsAreStable(b, c, pos + 1);
  }

  lemma ListBeginIsStable(b: Bytes, c: Bytes, pos: nat)
    requires b <= c
    ensures Stable(ReadListBegin(b, pos), ReadListBegin(c, pos))
  {
    ReadsAreStable(b, c, pos);
    ReadsAreStable(b, c, pos + 1);
  }

  lemma MapBeginIsStable(b: Bytes, c: Bytes, pos: nat)
    requires b <= c
    ensures Stable(ReadMapBegin(b, pos), ReadMapBegin(c, pos))
  {
    ReadsAreStable(b, c, pos);
    ReadsAreStable(b, c, pos + 1);
    ReadsAreStable(b, c, pos + 2);
  }

  lemma MessageBeginIsStable(b: Bytes, c: Bytes, pos: nat)
    requires b <= c
    ensures Stable(ReadMessageBegin(b, pos), ReadMessageBegin(c, pos))
  {
    TakeIsStable(b, c, pos, 4);
    StringIsStable(b, c, pos + 4);
    var name := ReadString(b, pos + 4);
    if name.Value? {
      ReadsAreStable(b, c, name.next);
    }
  }

  lemma {:induction false} SkipIsStable(b: Bytes, c: Bytes, pos: nat, t: TType, depth: nat)
    requires b <= c
    ensures Stable(Skip(b, pos, t, depth), Skip(c, pos, t, depth))
    decreases depth, 0
  {
    if depth > 0 && FixedWidth(t).Some? {
      TakeIsStable(b, c, pos, FixedWidth(t).value);
    } else if depth > 0 {
      match t
      case String => StringIsStable(b, c, pos);
      case Struct => SkipFieldsIsStable(b, c, pos, depth - 1);
      case List | Set => SkipListIsStable(b, c, pos, t, depth);
      case Map => SkipMapIsStable(b, c, pos, depth);
      case _ =>
    }
  }

  lemma {:induction false} SkipListIsStable(b: Bytes, c: Bytes, pos: nat, t: TType, depth: nat)
    requires b <= c && depth > 0 && (t == List || t == Set)
    ensures Stable(Skip(b, pos, t, depth), Skip(c, pos, t, depth))
    decreases depth - 1, 0x1_0000_0000
  {
    ListBeginIsStable(b, c, pos);
    var h := ReadListBegin(b, pos);
    if h.Value? {
      SkipElementsIsStable(b, c, h.next, h.value.element, h.value.size, depth - 1);
    }
  }

  lemma {:induction false} SkipMapIsStable(b: Bytes, c: Bytes, pos: nat, depth: nat)
    requires b <= c && depth > 0
    ensures Stable(Skip(b, pos, Map, depth), Skip(c, pos, Map, depth))
    decreases depth - 1, 0x1_0000_0000
  {
    MapBeginIsStable(b, c, pos);
    var h := ReadMapBegin(b, pos);
    if h.Value? {
      SkipEntriesIsStable(b, c, h.next, h.value.key, h.value.val, h.value.size, depth - 1);
    }
  }

  lemma {:induction false} SkipFieldsIsStable(b: Bytes, c: Bytes, pos: nat, depth: nat)
    requires b <= c
    ensures Stable(SkipFields(b, pos, depth), SkipFields(c, pos, depth))
    decreases depth, if pos <= |b| then 1 + |b| - pos else 1
  {
    FieldBeginIsStable(b, c, pos);
    var f := ReadFieldBegin(b, pos);
    if f.Value? && f.value.ty != Stop {
      SkipIsStable(b, c, f.next, f.value.ty, depth);
      var s := Skip(b, f.next, f.value.ty, depth);
      if s.Value? {
        SkipFieldsIsStable(b, c, s.next, depth);
      }
    }
  }

  lemma {:induction false} SkipElementsIsStable(b: Bytes, c: Bytes, pos: nat, t: TType, n: int, depth: nat)
    requires b <= c && pos <= |b|
    ensures Stable(SkipElements(b, pos, t, n, depth), SkipElements(c, pos, t, n, depth))
    decreases depth, if n > 0 then 1 + n else 1
  {
    if n > 0 {
      SkipIsStable(b, c, pos, t, depth);
      var s := Skip(b, pos, t, depth);
      if s.Value? {
        SkipElementsIsStable(b, c, s.next, t, n - 1, depth);
      }
    }
  }

  lemma SkipEntryIsStable(b: Bytes, c: Bytes, pos: nat, k: TType, v: TType, depth: nat)
    requires b <= c
    ensures Stable(SkipEntry(b, pos, k, v, depth), SkipEntry(c, pos, k, v, depth))
    decreases depth, 1
  {
    SkipIsStable(b, c, pos, k, depth);
    var s := Skip(b, pos, k, depth);
    if s.Value? {
      SkipIsStable(b, c, s.next, v, depth);
    }
  }

  lemma {:induction false} SkipEntriesIsStable(b: Bytes, c: Bytes, pos: nat, k: TType, v: TType, n: int, depth: nat)
    requires b <= c && pos <= |b|
    ensures Stable(SkipEntries(b, pos, k, v, n, depth), SkipEntries(c, pos, k, v, n, depth))
    decreases depth, if n > 0 then 2 + n else 2
  {
    if n > 0 {
      SkipEntryIsStable(b, c, pos, k, v, depth);
      var s := SkipEntry(b, pos, k, v, depth);
      if s.Value? {
        SkipEntriesIsStable(b, c, s.next, k, v, n - 1, depth);
      }
    }
  }
}
