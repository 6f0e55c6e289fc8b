/**
 The Protocol Buffers wire format as the generated code reads and writes it
 (daemon/protocol/generated.pb.go): base 128 varints and the skipping of unknown fields.

 Readers are specified on the bytes from the current index to the end of the input, and
 return how many bytes they consumed. Bytes and 64-bit words are numbers; a bitwise or of
 disjoint bits is an addition, and a shift is a multiplication or a division.
 */
module Wire {

  type Byte = b: int | 0 <= b < 256

  const TWO63: int := 0x8000_0000_0000_0000
  const TWO64: int := 0x1_0000_0000_0000_0000

  datatype Error = UnexpectedEof | IntOverflow | InvalidLength | IllegalWireType | EndGroup | IllegalTag | WrongWireType | BadValue

  datatype Result<+T> = Ok(value: T) | Err(error: Error)

  /** A value read and the number of bytes it took. */
  datatype Took<+T> = Took(got: T, n: nat)

  // ----- Varints -----

  /** encodeVarintGenerated */
  function Varint(v: nat): (bs: seq<Byte>)
    ensures |bs| >= 1
  {
    if v < 128 then [v] else [v % 128 + 128] + Varint(v / 128)
  }

  /** Up to `budget` bytes of seven bits each, least significant first. */
  function ReadBits(s: seq<Byte>, budget: nat): (r: Result<Took<nat>>)
    ensures r.Ok? ==> 1 <= r.value.n <= |s|
  {
    if budget == 0 then Err(IntOverflow)
    else if s == [] then Err(UnexpectedEof)
    else if s[0] < 128 then Ok(Took(s[0], 1))
    else match ReadBits(s[1..], budget - 1)
      case Err(e) => Err(e)
      case Ok(rest) => Ok(Took(s[0] - 128 + 128 * rest.got, 1 + rest.n))
  }

  /** The varint loop of Unmarshal: at most ten bytes, truncated to 64 bits. */
  function Read(s: seq<Byte>): (r: Result<Took<nat>>)
    ensures r.Ok? ==> 1 <= r.value.n <= |s| && r.value.got < TWO64
  {
    match ReadBits(s, 10)
    case Err(e) => Err(e)
    case Ok(t) => Ok(Took(t.got % TWO64, t.n))
  }

  /** Go's conversions between int and uint64. */
  function Signed(u: nat): int
  {
    if u < TWO63 then u else u - TWO64
  }

  function Unsigned(v: int): nat
    requires -TWO63 <= v < TWO63
  {
    if v < 0 then v + TWO64 else v
  }

  function Pow128(k: nat): nat
  {
    if k == 0 then 1 else 128 * Pow128(k - 1)
  }

  lemma {:induction false} VarintLength(v: nat, k: nat)
    requires k >= 1 && v < Pow128(k)
    ensures |Varint(v)| <= k
  {
    if v >= 128 {
      assert Pow128(k) == 128 * Pow128(k - 1);
      assert Pow128(0) == 1;
      assert v / 128 < Pow128(k - 1);
      VarintLength(v / 128, k - 1);
    }
  }

  lemma Pow128At(k: nat)
    requires k >= 1
    ensures Pow128(k) == 128 * Pow128(k - 1)
  {
  }

  /** A 64-bit word takes between one and ten bytes. */
  lemma VarintAtMostTen(v: nat)
    requires v < TWO64
    ensures 1 <= |Varint(v)| <= 10
  {
    Pow128At(10); Pow128At(9); Pow128At(8); Pow128At(7); Pow128At(6);
    Pow128At(5); Pow128At(4); Pow128At(3); Pow128At(2); Pow128At(1);
    assert Pow128(0) == 1;
    VarintLength(v, 10);
  }

  lemma {:induction false} ReadBitsOfVarint(v: nat, budget: nat, ext: seq<Byte>)
    requires |Varint(v)| <= budget
    ensures ReadBits(Varint(v) + ext, budget) == Ok(Took(v, |Varint(v)|))
  {
    if v >= 128 {
      assert (Varint(v) + ext)[1..] == Varint(v / 128) + ext;
      ReadBitsOfVarint(v / 128, budget - 1, ext);
    }
  }

  /** Decoding undoes encoding for every 64-bit word, whatever follows. */
  lemma VarintRoundTrip(v: nat, ext: seq<Byte>)
    requires v < TWO64
    ensures Read(Varint(v) + ext) == Ok(Took(v, |Varint(v)|))
  {
    VarintAtMostTen(v);
    ReadBitsOfVarint(v, 10, ext);
  }

  /** What was read does not depend on what follows. */
  lemma {:induction false} ReadBitsStable(s: seq<Byte>, budget: nat, ext: seq<Byte>)
    requires ReadBits(s, budget).Ok?
    ensures ReadBits(s + ext, budget) == ReadBits(s, budget)
  {
    if s[0] >= 128 {
      assert (s + ext)[1..] == s[1..] + ext;
      ReadBitsStable(s[1..], budget - 1, ext);
    }
  }

  lemma ReadStable(s: seq<Byte>, ext: seq<Byte>)
    requires Read(s).Ok?
    ensures Read(s + ext) == Read(s)
  {
    ReadBitsStable(s, 10, ext);
  }

  // ----- Skipping a field -----

  /** skipGenerated: the length of the field at the start of `s`, which may go past its end. */
  function Skip(s: seq<Byte>): (r: Result<nat>)
    ensures r.Ok? ==> r.value >= 1
    decreases |s|, 0
  {
    match Read(s)
    case Err(e) => Err(e)
    case Ok(t) =>
      var kind := t.got % 8;
      var body := s[t.n..];
      if kind == 0 then
        match ReadBits(body, 10)
        case Err(e) => Err(e)
        case Ok(v) => Ok(t.n + v.n)
      else if kind == 1 then Ok(t.n + 8)
      else if kind == 2 then
        match Read(body)
        case Err(e) => Err(e)
        case Ok(len) => if Signed(len.got) < 0 then Err(InvalidLength) else Ok(t.n + len.n + len.got)
      else if kind == 3 then
        match SkipGroup(body)
        case Err(e) => Err(e)
        case Ok(k) => Ok(t.n + k)
      else if kind == 4 then Ok(t.n)
      else if kind == 5 then Ok(t.n + 4)
      else Err(IllegalWireType)
  }

  /** The fields of a group, up to and including the end tag. */
  function SkipGroup(s: seq<Byte>): (r: Result<nat>)
    ensures r.Ok? ==> 1 <= r.value <= |s|
    decreases |s|, 1
  {
    match Read(s)
    case Err(e) => Err(e)
    case Ok(t) =>
      if t.got % 8 == 4 then Ok(t.n)
      else match Skip(s)
        case Err(e) => Err(e)
        case Ok(k) =>
          if k > |s| then Err(UnexpectedEof)
          else match SkipGroup(s[k..])
            case Err(e) => Err(e)
            case Ok(rest) => Ok(k + rest)
  }

  lemma {:induction false} SkipStable(s: seq<Byte>, ext: seq<Byte>)
    requires Skip(s).Ok? && Skip(s).value <= |s|
    ensures Skip(s + ext) == Skip(s)
    decreases |s|, 0
  {
    hide Read, ReadBits, SkipGroup;
    ReadStable(s, ext);
    var t := Read(s).value;
    var body := s[t.n..];
    assert (s + ext)[t.n..] == body + ext;
    var kind := t.got % 8;
    if kind == 0 {
      ReadBitsStable(body, 10, ext);
    } else if kind == 2 {
      ReadStable(body, ext);
    } else if kind == 3 {
      SkipGroupStable(body, ext);
    }
  }

  lemma {:induction false} SkipGroupStable(s: seq<Byte>, ext: seq<Byte>)
    requires SkipGroup(s).Ok?
    ensures SkipGroup(s + ext) == SkipGroup(s)
    decreases |s|, 1
  {
    hide Read, Skip;
    ReadStable(s, ext);
    if Read(s).value.got % 8 != 4 {
      SkipStable(s, ext);
      var k := Skip(s).value;
      assert (s + ext)[k..] == s[k..] + ext;
      SkipGroupStable(s[k..], ext);
    }
  }

  // ----- Well-formed fields -----

  /** Any byte string that is one varint, minimal or padded. */
  predicate IsVarint(bs: seq<Byte>)
  {
    && 1 <= |bs| <= 10
    && bs[|bs| - 1] < 128
    && forall i | 0 <= i < |bs| - 1 :: bs[i] >= 128
  }

  /**
   A field of any message, known or not: a tag and a body of one of the five shapes. Groups
   hold fields and are closed by an end-group tag.
   */
  datatype Field =
    | VarintField(tag: seq<Byte>, body: seq<Byte>)
    | Fixed64Field(tag: seq<Byte>, word: seq<Byte>)
    | BytesField(tag: seq<Byte>, length: seq<Byte>, payload: seq<Byte>)
    | GroupField(tag: seq<Byte>, fields: seq<Field>, end: seq<Byte>)
    | Fixed32Field(tag: seq<Byte>, word: seq<Byte>)

  function WireType(f: Field): nat
  {
    match f
    case VarintField(_, _) => 0
    case Fixed64Field(_, _) => 1
    case BytesField(_, _, _) => 2
    case GroupField(_, _, _) => 3
    case Fixed32Field(_, _) => 5
  }

  predicate IsTag(bs: seq<Byte>, kind: nat)
  {
    IsVarint(bs) && Read(bs).Ok? && Read(bs).value.got % 8 == kind
  }

  predicate WellFormed(f: Field)
  {
    && IsTag(f.tag, WireType(f))
    && match f
       case VarintField(_, body) => IsVarint(body)
       case Fixed64Field(_, word) => |word| == 8
       case BytesField(_, length, payload) =>
         IsVarint(length) && Read(length).Ok? && Read(length).value.got == |payload| < TWO63
       case GroupField(_, fields, end) => IsTag(end, 4) && forall i | 0 <= i < |fields| :: WellFormed(fields[i])
       case Fixed32Field(_, word) => |word| == 4
  }

  function Bytes(f: Field): seq<Byte>
    decreases f, 2
  {
    f.tag + Body(f)
  }

  function Body(f: Field): seq<Byte>
    decreases f, 1
  {
    match f
    case VarintField(_, body) => body
    case Fixed64Field(_, word) => word
    case BytesField(_, length, payload) => length + payload
    case GroupField(_, fields, end) => BytesOfAll(fields) + end
    case Fixed32Field(_, word) => word
  }

  function BytesOfAll(fs: seq<Field>): seq<Byte>
    decreases fs, 0
  {
    if fs == [] then [] else Bytes(fs[0]) + BytesOfAll(fs[1..])
  }

  lemma {:induction false} ReadBitsOfAny(bs: seq<Byte>, budget: nat)
    requires 1 <= |bs| <= budget && bs[|bs| - 1] < 128
    requires forall i | 0 <= i < |bs| - 1 :: bs[i] >= 128
    ensures ReadBits(bs, budget).Ok? && ReadBits(bs, budget).value.n == |bs|
  {
    if |bs| > 1 {
      ReadBitsOfAny(bs[1..], budget - 1);
    }
  }

  /** A varint of any form, followed by anything, is read completely and no further. */
  lemma ReadAny(bs: seq<Byte>, ext: seq<Byte>)
    requires IsVarint(bs)
    ensures Read(bs).Ok? && Read(bs + ext) == Read(bs) && Read(bs).value.n == |bs|
    ensures ReadBits(bs + ext, 10).Ok? && ReadBits(bs + ext, 10).value.n == |bs|
  {
    ReadBitsOfAny(bs, 10);
    ReadBitsStable(bs, 10, ext);
  }

  /** The first varint of a field is its tag, and the body follows. */
  lemma TagFirst(f: Field, ext: seq<Byte>)
    requires WellFormed(f)
    ensures Read(Bytes(f) + ext) == Read(f.tag) && Read(f.tag).Ok? && Read(f.tag).value.got % 8 == WireType(f)
    ensures Read(f.tag).value.n == |f.tag|
    ensures (Bytes(f) + ext)[|f.tag|..] == Body(f) + ext
  {
    hide Body, Read;
    assert Bytes(f) + ext == f.tag + (Body(f) + ext);
    ReadAny(f.tag, Body(f) + ext);
  }

  /** Skipping a well-formed field takes exactly that field, whatever follows it. */
  lemma {:induction false} SkipExact(f: Field, ext: seq<Byte>)
    requires WellFormed(f)
    ensures Skip(Bytes(f) + ext) == Ok(|Bytes(f)|)
    decreases f, 1
  {
    hide Read, ReadBits, Bytes;
    TagFirst(f, ext);
    assert |Bytes(f)| == |f.tag| + |Body(f)| by { BytesLength(f); }
    match f
    case VarintField(_, body) => ReadAny(body, ext);
    case Fixed64Field(_, _) =>
    case BytesField(_, length, payload) =>
      assert Body(f) + ext == length + (payload + ext);
      ReadAny(length, payload + ext);
    case GroupField(_, fields, end) => SkipGroupExact(fields, end, ext);
    case Fixed32Field(_, _) =>
  }

  lemma BytesLength(f: Field)
    ensures |Bytes(f)| == |f.tag| + |Body(f)|
  {
  }

  lemma {:induction false} SkipGroupExact(fs: seq<Field>, end: seq<Byte>, ext: seq<Byte>)
    requires IsTag(end, 4) && forall i | 0 <= i < |fs| :: WellFormed(fs[i])
    ensures SkipGroup(BytesOfAll(fs) + end + ext) == Ok(|BytesOfAll(fs)| + |end|)
    decreases fs, 0
  {
    hide Read, ReadBits, Bytes, Skip, WellFormed;
    var s := BytesOfAll(fs) + end + ext;
    if fs == [] {
      assert s == end + ext;
      ReadAny(end, ext);
    } else {
      var first := Bytes(fs[0]);
      var rest := BytesOfAll(fs[1..]) + end + ext;
      assert s == first + rest;
      TagFirst(fs[0], rest);
      SkipExact(fs[0], rest);
      assert s[|first|..] == rest;
      SkipGroupExact(fs[1..], end, ext);
    }
  }
}
