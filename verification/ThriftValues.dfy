// Well-formed Thrift values of every type, their encoding, and exactly when the reader can skip one.
module ThriftValues {
  import opened Collections
  import opened ThriftBinary

  datatype WireValue =
    | Fixed(ty: TType, raw: Bytes)
    | Binary(bytes: Bytes)
    | Record(fields: seq<WireField>)
    | Sequence(ty: TType, element: TType, items: seq<WireValue>)
    | Dictionary(key: TType, val: TType, entries: seq<WireEntry>)

  datatype WireField = WireField(id: Int16, value: WireValue)
  datatype WireEntry = WireEntry(key: WireValue, val: WireValue)

  const MAX_LENGTH: nat := 0x8000_0000

  function TypeOf(v: WireValue): TType {
    match v
    case Fixed(t, _) => t
    case Binary(_) => String
    case Record(_) => Struct
    case Sequence(t, _, _) => t
    case Dictionary(_, _, _) => Map
  }

  predicate WellFormed(v: WireValue)
    decreases v, 1
  {
    match v
    case Fixed(t, raw) => FixedWidth(t) == Some(|raw|)
    case Binary(bytes) => |bytes| < MAX_LENGTH
    case Record(fields) => FieldsWellFormed(fields)
    case Sequence(t, e, items) => (t == List || t == Set) && |items| < MAX_LENGTH && ItemsWellFormed(items, e)
    case Dictionary(k, w, entries) => |entries| < MAX_LENGTH && EntriesWellFormed(entries, k, w)
  }

  predicate FieldsWellFormed(fs: seq<WireField>)
    decreases fs, 0
  {
    fs == [] || (FieldWellFormed(fs[0]) && FieldsWellFormed(fs[1..]))
  }

  predicate FieldWellFormed(f: WireField)
    decreases f, 2
  {
    WellFormed(f.value)
  }

  predicate ItemsWellFormed(vs: seq<WireValue>, t: TType)
    decreases vs, 0
  {
    vs == [] || (TypeOf(vs[0]) == t && WellFormed(vs[0]) && ItemsWellFormed(vs[1..], t))
  }

  predicate EntriesWellFormed(es: seq<WireEntry>, k: TType, w: TType)
    decreases es, 0
  {
    es == [] || (EntryWellFormed(es[0], k, w) && EntriesWellFormed(es[1..], k, w))
  }

  predicate EntryWellFormed(e: WireEntry, k: TType, w: TType)
    decreases e, 2
  {
    TypeOf(e.key) == k && WellFormed(e.key) && TypeOf(e.val) == w && WellFormed(e.val)
  }

  lemma StructIsRecord(v: WireValue)
    requires WellFormed(v)
    ensures TypeOf(v) == Struct <==> v.Record?
  {
    match v
    case Fixed(t, raw) => assert FixedWidth(t).Some?;
    case _ =>
  }

  /// Encoding

  function StringBytes(s: Bytes): Bytes
    requires |s| < MAX_LENGTH
  {
    Int32Bytes(|s|) + s
  }

  function FieldBegin(t: TType, id: Int16): (s: Bytes)
    ensures |s| == 3
  {
    [TypeCode(t)] + Int16Bytes(id)
  }

  function ListBegin(t: TType, n: nat): (s: Bytes)
    requires n < MAX_LENGTH
    ensures |s| == 5
  {
    [TypeCode(t)] + Int32Bytes(n)
  }

  function MapBegin(k: TType, w: TType, n: nat): (s: Bytes)
    requires n < MAX_LENGTH
    ensures |s| == 6
  {
    [TypeCode(k)] + ([TypeCode(w)] + Int32Bytes(n))
  }

  function Encode(v: WireValue): Bytes
    requires WellFormed(v)
    decreases v, 1
  {
    match v
    case Fixed(_, raw) => raw
    case Binary(bytes) => StringBytes(bytes)
    case Record(fields) => EncodeFields(fields)
    case Sequence(_, e, items) => ListBegin(e, |items|) + EncodeItems(items, e)
    case Dictionary(k, w, entries) => MapBegin(k, w, |entries|) + EncodeEntries(entries, k, w)
  }

  function EncodeField(f: WireField): Bytes
    requires FieldWellFormed(f)
    decreases f, 2
  {
    FieldBegin(TypeOf(f.value), f.id) + Encode(f.value)
  }

  function EncodeFields(fs: seq<WireField>): Bytes
    requires FieldsWellFormed(fs)
    decreases fs, 0
  {
    if fs == [] then [TypeCode(Stop)] else EncodeField(fs[0]) + EncodeFields(fs[1..])
  }

  function EncodeItems(vs: seq<WireValue>, t: TType): Bytes
    requires ItemsWellFormed(vs, t)
    decreases vs, 0
  {
    if vs == [] then [] else Encode(vs[0]) + EncodeItems(vs[1..], t)
  }

  function EncodeEntry(e: WireEntry, k: TType, w: TType): Bytes
    requires EntryWellFormed(e, k, w)
    decreases e, 2
  {
    Encode(e.key) + Encode(e.val)
  }

  function EncodeEntries(es: seq<WireEntry>, k: TType, w: TType): Bytes
    requires EntriesWellFormed(es, k, w)
    decreases es, 0
  {
    if es == [] then [] else EncodeEntry(es[0], k, w) + EncodeEntries(es[1..], k, w)
  }

  /// The values a reader with a given depth left can skip: not nested deeper, and every string valid UTF-8

  predicate Skippable(v: WireValue, depth: nat)
    decreases v, 1
  {
    depth > 0 &&
    match v
    case Fixed(_, _) => true
    case Binary(bytes) => ValidUtf8(bytes)
    case Record(fields) => FieldsSkippable(fields, depth - 1)
    case Sequence(_, _, items) => ItemsSkippable(items, depth - 1)
    case Dictionary(_, _, entries) => EntriesSkippable(entries, depth - 1)
  }

  predicate FieldSkippable(f: WireField, depth: nat)
    decreases f, 2
  {
    Skippable(f.value, depth)
  }

  predicate FieldsSkippable(fs: seq<WireField>, depth: nat)
    decreases fs, 0
  {
    fs == [] || (FieldSkippable(fs[0], depth) && FieldsSkippable(fs[1..], depth))
  }

  predicate ItemsSkippable(vs: seq<WireValue>, depth: nat)
    decreases vs, 0
  {
    vs == [] || (Skippable(vs[0], depth) && ItemsSkippable(vs[1..], depth))
  }

  predicate EntrySkippable(e: WireEntry, depth: nat)
    decreases e, 2
  {
    Skippable(e.key, depth) && Skippable(e.val, depth)
  }

  predicate EntriesSkippable(es: seq<WireEntry>, depth: nat)
    decreases es, 0
  {
    es == [] || (EntrySkippable(es[0], depth) && EntriesSkippable(es[1..], depth))
  }

  /// What a reader finds where an encoding starts

  ghost predicate At(b: Bytes, pos: nat, e: Bytes)
    decreases |e|
  {
    if e == [] then pos <= |b| else pos < |b| && b[pos] == e[0] && At(b, pos + 1, e[1..])
  }

  lemma {:induction false} AtIsSlice(b: Bytes, pos: nat, e: Bytes)
    ensures At(b, pos, e) <==> pos + |e| <= |b| && b[pos..pos + |e|] == e
    decreases |e|
  {
    if e != [] {
      AtIsSlice(b, pos + 1, e[1..]);
      if pos + |e| <= |b| {
        assert b[pos..pos + |e|] == [b[pos]] + b[pos + 1..pos + |e|];
      }
    }
  }

  lemma {:induction false} AtSplit(b: Bytes, pos: nat, e: Bytes, f: Bytes) returns (mid: nat)
    requires At(b, pos, e + f)
    ensures mid == pos + |e| && At(b, pos, e) && At(b, mid, f)
    ensures mid <= |b|
  {
    mid := pos + |e|;
    AtIsSlice(b, pos, e + f);
    AtIsSlice(b, pos, e);
    AtIsSlice(b, mid, f);
    assert e == (e + f)[..|e|] == b[pos..mid];
    assert f == (e + f)[|e|..] == b[mid..mid + |f|];
  }

  lemma Int32At(b: Bytes, pos: nat, n: Int32)
    requires At(b, pos, Int32Bytes(n))
    ensures ReadInt32(b, pos) == Value(n, pos + 4)
  {
    AtIsSlice(b, pos, Int32Bytes(n));
    IntegersRoundTrip(n, 0);
  }

  lemma Int16At(b: Bytes, pos: nat, n: Int16)
    requires At(b, pos, Int16Bytes(n))
    ensures ReadInt16(b, pos) == Value(n, pos + 2)
  {
    AtIsSlice(b, pos, Int16Bytes(n));
    IntegersRoundTrip(0, n);
  }

  lemma TypeAt(b: Bytes, pos: nat, t: TType)
    requires At(b, pos, [TypeCode(t)])
    ensures ReadType(b, pos) == Value(t, pos + 1)
  {
    assert TypeOfCode(TypeCode(t)) == Some(t);
  }

  lemma StringAt(b: Bytes, pos: nat, s: Bytes)
    requires |s| < MAX_LENGTH && At(b, pos, StringBytes(s))
    ensures ReadString(b, pos) == if ValidUtf8(s) then Value(s, pos + |StringBytes(s)|) else Fatal
  {
    var mid := AtSplit(b, pos, Int32Bytes(|s|), s);
    Int32At(b, pos, |s|);
    AtIsSlice(b, mid, s);
  }

  lemma FieldBeginAt(b: Bytes, pos: nat, t: TType, id: Int16)
    requires t != Stop && At(b, pos, FieldBegin(t, id))
    ensures ReadFieldBegin(b, pos) == Value(FieldHeader(t, id), pos + 3)
  {
    var mid := AtSplit(b, pos, [TypeCode(t)], Int16Bytes(id));
    TypeAt(b, pos, t);
    Int16At(b, mid, id);
  }

  lemma StopAt(b: Bytes, pos: nat)
    requires At(b, pos, [TypeCode(Stop)])
    ensures ReadFieldBegin(b, pos) == Value(FieldHeader(Stop, 0), pos + 1)
  {
    TypeAt(b, pos, Stop);
  }

  lemma ListBeginAt(b: Bytes, pos: nat, t: TType, n: nat)
    requires n < MAX_LENGTH && At(b, pos, ListBegin(t, n))
    ensures ReadListBegin(b, pos) == Value(ListHeader(t, n), pos + 5)
  {
    var mid := AtSplit(b, pos, [TypeCode(t)], Int32Bytes(n));
    TypeAt(b, pos, t);
    Int32At(b, mid, n);
  }

  lemma MapBeginAt(b: Bytes, pos: nat, k: TType, w: TType, n: nat)
    requires n < MAX_LENGTH && At(b, pos, MapBegin(k, w, n))
    ensures ReadMapBegin(b, pos) == Value(MapHeader(k, w, n), pos + 6)
  {
    var mid := AtSplit(b, pos, [TypeCode(k)], [TypeCode(w)] + Int32Bytes(n));
    var last := AtSplit(b, mid, [TypeCode(w)], Int32Bytes(n));
    TypeAt(b, pos, k);
    TypeAt(b, mid, w);
    Int32At(b, last, n);
  }

  /// Skipping an encoded value moves exactly past it, or fails for good

  function Skipped(ok: bool, next: nat): Parsed<()> {
    if ok then Value((), next) else Fatal
  }

  lemma {:induction false} SkipEncoded(b: Bytes, pos: nat, v: WireValue, depth: nat)
    requires WellFormed(v) && At(b, pos, Encode(v))
    ensures Skip(b, pos, TypeOf(v), depth) == Skipped(Skippable(v, depth), pos + |Encode(v)|)
    decreases v, 1
  {
    hide SkipFields, SkipElements, SkipEntries, EncodeFields, EncodeItems, EncodeEntries;
    hide ReadListBegin, ReadMapBegin, ReadString;
    match v
    case Fixed(_, raw) => AtIsSlice(b, pos, raw);
    case Binary(bytes) => SkipEncodedBinary(b, pos, bytes, depth);
    case Record(fields) => SkipEncodedRecord(b, pos, fields, depth);
    case Sequence(t, e, items) => SkipEncodedSequence(b, pos, t, e, items, depth);
    case Dictionary(k, w, entries) => SkipEncodedDictionary(b, pos, k, w, entries, depth);
  }

  lemma SkipEncodedBinary(b: Bytes, pos: nat, bytes: Bytes, depth: nat)
    requires |bytes| < MAX_LENGTH && At(b, pos, StringBytes(bytes))
    ensures Skip(b, pos, String, depth)
         == Skipped(depth > 0 && ValidUtf8(bytes), pos + |StringBytes(bytes)|)
  {
    StringAt(b, pos, bytes);
  }

  lemma {:induction false} SkipEncodedRecord(b: Bytes, pos: nat, fs: seq<WireField>, depth: nat)
    requires FieldsWellFormed(fs) && At(b, pos, EncodeFields(fs))
    ensures Skip(b, pos, Struct, depth)
         == Skipped(depth > 0 && FieldsSkippable(fs, depth - 1), pos + |EncodeFields(fs)|)
    decreases fs, 1
  {
    hide At, SkipFields, SkipElements, SkipEntries, EncodeFields, FieldsSkippable, FieldsWellFormed;
    if depth > 0 {
      SkipEncodedFields(b, pos, fs, depth - 1);
    }
  }

  lemma {:induction false} SkipEncodedSequence(b: Bytes, pos: nat, t: TType, e: TType, vs: seq<WireValue>, depth: nat)
    requires (t == List || t == Set) && |vs| < MAX_LENGTH && ItemsWellFormed(vs, e)
    requires At(b, pos, ListBegin(e, |vs|) + EncodeItems(vs, e))
    ensures Skip(b, pos, t, depth)
         == Skipped(depth > 0 && ItemsSkippable(vs, depth - 1), pos + 5 + |EncodeItems(vs, e)|)
    decreases vs, 1
  {
    hide At, ReadListBegin, ListBegin, SkipElements, SkipEntries, SkipFields;
    hide EncodeItems, ItemsSkippable, ItemsWellFormed;
    if depth > 0 {
      var mid := AtSplit(b, pos, ListBegin(e, |vs|), EncodeItems(vs, e));
      ListBeginAt(b, pos, e, |vs|);
      SkipEncodedItems(b, mid, vs, e, depth - 1);
    }
  }

  lemma SkipOfMap(b: Bytes, pos: nat, h: MapHeader, p: nat, depth: nat)
    requires depth > 0 && p <= |b| && ReadMapBegin(b, pos) == Value(h, p)
    ensures Skip(b, pos, Map, depth) == SkipEntries(b, p, h.key, h.val, h.size, depth - 1)
  {
  }

  lemma SkipTooDeep(b: Bytes, pos: nat, t: TType)
    ensures Skip(b, pos, t, 0) == Fatal
  {
  }

  lemma {:induction false} SkipEncodedDictionary(b: Bytes, pos: nat, k: TType, w: TType, es: seq<WireEntry>, depth: nat)
    requires WellFormed(Dictionary(k, w, es)) && At(b, pos, Encode(Dictionary(k, w, es)))
    ensures Skip(b, pos, Map, depth)
         == Skipped(Skippable(Dictionary(k, w, es), depth), pos + |Encode(Dictionary(k, w, es))|)
    decreases es, 1
  {
    hide ReadMapBegin, SkipEntries, EncodeEntries;
    if depth > 0 {
      var mid := AtSplit(b, pos, MapBegin(k, w, |es|), EncodeEntries(es, k, w));
      MapBeginAt(b, pos, k, w, |es|);
      SkipOfMap(b, pos, MapHeader(k, w, |es|), mid, depth);
      SkipEncodedEntries(b, mid, es, k, w, depth - 1);
    } else {
      SkipTooDeep(b, pos, Map);
    }
  }

  lemma {:induction false} SkipEncodedField(b: Bytes, pos: nat, f: WireField, depth: nat)
    requires FieldWellFormed(f) && At(b, pos, EncodeField(f))
    ensures ReadFieldBegin(b, pos) == Value(FieldHeader(TypeOf(f.value), f.id), pos + 3)
    ensures Skip(b, pos + 3, TypeOf(f.value), depth) == Skipped(FieldSkippable(f, depth), pos + |EncodeField(f)|)
    decreases f, 2
  {
    hide ReadFieldBegin, FieldBegin, Skip, Encode, Skippable;
    var mid := AtSplit(b, pos, FieldBegin(TypeOf(f.value), f.id), Encode(f.value));
    FieldBeginAt(b, pos, TypeOf(f.value), f.id);
    SkipEncoded(b, pos + 3, f.value, depth);
  }

  lemma {:induction false} SkipEncodedFields(b: Bytes, pos: nat, fs: seq<WireField>, depth: nat)
    requires FieldsWellFormed(fs) && At(b, pos, EncodeFields(fs))
    ensures SkipFields(b, pos, depth) == Skipped(FieldsSkippable(fs, depth), pos + |EncodeFields(fs)|)
    decreases fs, 0
  {
    hide ReadFieldBegin, EncodeField, FieldSkippable, Skip;
    if fs == [] {
      StopAt(b, pos);
    } else {
      var f := fs[0];
      var p := AtSplit(b, pos, EncodeField(f), EncodeFields(fs[1..]));
      SkipEncodedField(b, pos, f, depth);
      SkipEncodedFields(b, p, fs[1..], depth);
    }
  }

  lemma {:induction false} SkipEncodedItems(b: Bytes, pos: nat, vs: seq<WireValue>, t: TType, depth: nat)
    requires ItemsWellFormed(vs, t) && At(b, pos, EncodeItems(vs, t))
    ensures SkipElements(b, pos, t, |vs|, depth) == Skipped(ItemsSkippable(vs, depth), pos + |EncodeItems(vs, t)|)
    decreases vs, 0
  {
    hide Skip, Encode, Skippable;
    if vs != [] {
      var mid := AtSplit(b, pos, Encode(vs[0]), EncodeItems(vs[1..], t));
      SkipEncoded(b, pos, vs[0], depth);
      SkipEncodedItems(b, mid, vs[1..], t, depth);
    }
  }

  lemma {:induction false} SkipEncodedEntries(b: Bytes, pos: nat, es: seq<WireEntry>, k: TType, w: TType, depth: nat)
    requires EntriesWellFormed(es, k, w) && At(b, pos, EncodeEntries(es, k, w))
    ensures SkipEntries(b, pos, k, w, |es|, depth)
         == Skipped(EntriesSkippable(es, depth), pos + |EncodeEntries(es, k, w)|)
    decreases es, 0
  {
    hide EncodeEntry, SkipEntry, EntrySkippable;
    if es != [] {
      var mid := AtSplit(b, pos, EncodeEntry(es[0], k, w), EncodeEntries(es[1..], k, w));
      SkipEncodedEntry(b, pos, es[0], k, w, depth);
      SkipEncodedEntries(b, mid, es[1..], k, w, depth);
    }
  }

  lemma {:induction false} SkipEncodedEntry(b: Bytes, pos: nat, e: WireEntry, k: TType, w: TType, depth: nat)
    requires EntryWellFormed(e, k, w) && At(b, pos, EncodeEntry(e, k, w))
    ensures SkipEntry(b, pos, k, w, depth) == Skipped(EntrySkippable(e, depth), pos + |EncodeEntry(e, k, w)|)
    decreases e, 2
  {
    hide Skip, Encode, Skippable;
    var mid := AtSplit(b, pos, Encode(e.key), Encode(e.val));
    SkipEncoded(b, pos, e.key, depth);
    SkipEncoded(b, mid, e.val, depth);
  }
}
