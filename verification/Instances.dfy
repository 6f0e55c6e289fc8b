/** DriverInstanceState: a library-encoded timestamp and a repeated, packed integer field. */
module Instances {
  import opened Wire
  import opened Unmarshalling
  import opened Messages

  /** The library codec of a timestamp or duration. */
  datatype Std<!T> = Std(encode: T -> seq<Byte>, decode: seq<Byte> -> Result<T>)

  ghost predicate Inverse<T(!new)>(std: Std<T>)
  {
    forall t :: std.decode(std.encode(t)) == Ok(t) && |std.encode(t)| < TWO63
  }

  datatype Instance<T> = Instance(id: seq<Byte>, image: seq<Byte>, status: Int64, created: T, processes: seq<Int64>)

  // ----- Packed integers -----

  function PackedBytes(vs: seq<Int64>): seq<Byte>
  {
    if vs == [] then [] else Varint(Unsigned(vs[0])) + PackedBytes(vs[1..])
  }

  function PackedSize(vs: seq<Int64>): nat
  {
    if vs == [] then 0 else Sov(Unsigned(vs[0])) + PackedSize(vs[1..])
  }

  /** Integers until `n` bytes are used up; the last one may run past them. */
  function ReadPacked(s: seq<Byte>, n: int): (r: Result<Took<seq<Int64>>>)
    ensures r.Ok? ==> r.value.n <= |s|
    decreases |s|
  {
    if n <= 0 then Ok(Took([], 0))
    else match ReadInt(s)
      case Err(e) => Err(e)
      case Ok(t) =>
        match ReadPacked(s[t.n..], n - t.n)
        case Err(e) => Err(e)
        case Ok(u) => Ok(Took([t.got] + u.got, t.n + u.n))
  }

  lemma {:induction false} PackedSizeExact(vs: seq<Int64>)
    ensures |PackedBytes(vs)| == PackedSize(vs)
  {
    if vs == [] {
    } else {
      SovExact(Unsigned(vs[0]));
      PackedSizeExact(vs[1..]);
    }
  }

  lemma {:induction false} ReadPackedExact(vs: seq<Int64>, ext: seq<Byte>)
    ensures ReadPacked(PackedBytes(vs) + ext, |PackedBytes(vs)|) == Ok(Took(vs, |PackedBytes(vs)|))
  {
    hide ReadInt, Varint;
    if vs == [] {
    } else {
      var first := Varint(Unsigned(vs[0]));
      var rest := PackedBytes(vs[1..]);
      assert PackedBytes(vs) + ext == first + (rest + ext);
      ReadIntExact(vs[0], rest + ext);
      assert (PackedBytes(vs) + ext)[|first|..] == rest + ext;
      ReadPackedExact(vs[1..], ext);
      assert [vs[0]] + vs[1..] == vs;
    }
  }

  lemma {:induction false} ReadPackedStable(s: seq<Byte>, n: int, ext: seq<Byte>)
    requires ReadPacked(s, n).Ok?
    ensures ReadPacked(s + ext, n) == ReadPacked(s, n)
    decreases |s|
  {
    hide ReadInt;
    if n <= 0 {
    } else {
      ReadIntStable(s, ext);
      var t := ReadInt(s).value;
      assert (s + ext)[t.n..] == s[t.n..] + ext;
      ReadPackedStable(s[t.n..], n - t.n, ext);
    }
  }

  /** The packed branch of field 5. */
  function ReadPackedField(s: seq<Byte>): (r: Result<Took<seq<Int64>>>)
    ensures r.Ok? ==> r.value.n <= |s|
  {
    match Read(s)
    case Err(e) => Err(e)
    case Ok(t) =>
      if Signed(t.got) < 0 then Err(InvalidLength)
      else if t.n + t.got > |s| then Err(UnexpectedEof)
      else match ReadPacked(s[t.n..], t.got)
        case Err(e) => Err(e)
        case Ok(u) => Ok(Took(u.got, t.n + u.n))
  }

  lemma ReadPackedFieldStable(s: seq<Byte>, ext: seq<Byte>)
    requires ReadPackedField(s).Ok?
    ensures ReadPackedField(s + ext) == ReadPackedField(s)
  {
    hide Read, ReadPacked;
    ReadStable(s, ext);
    var t := Read(s).value;
    assert (s + ext)[t.n..] == s[t.n..] + ext;
    ReadPackedStable(s[t.n..], t.got, ext);
  }

  lemma ReadPackedFieldExact(vs: seq<Int64>)
    requires |PackedBytes(vs)| < TWO63
    ensures ReadPackedField(Delimited(PackedBytes(vs))) == Ok(Took(vs, |Delimited(PackedBytes(vs))|))
  {
    hide Read, ReadPacked, Varint, PackedBytes;
    var p := PackedBytes(vs);
    VarintRoundTrip(|p|, p);
    assert Delimited(p)[|Varint(|p|)|..] == p;
    ReadPackedExact(vs, []);
    assert p + [] == p;
  }

  // ----- The switch -----

  function InstanceField<T>(std: Std<T>, m: Instance<T>, num: int, kind: nat, s: seq<Byte>): Handled<Instance<T>>
  {
    if num == 1 || num == 2 then
      if kind != 2 then Known(Err(WrongWireType))
      else match ReadChunk(s)
        case Err(e) => Known(Err(e))
        case Ok(t) => Known(Ok(Took(if num == 1 then m.(id := t.got) else m.(image := t.got), t.n)))
    else if num == 3 then
      if kind != 0 then Known(Err(WrongWireType))
      else match ReadInt(s)
        case Err(e) => Known(Err(e))
        case Ok(t) => Known(Ok(Took(m.(status := t.got), t.n)))
    else if num == 4 then
      if kind != 2 then Known(Err(WrongWireType))
      else match ReadChunk(s)
        case Err(e) => Known(Err(e))
        case Ok(t) =>
          match std.decode(t.got)
          case Err(e) => Known(Err(e))
          case Ok(v) => Known(Ok(Took(m.(created := v), t.n)))
    else if num == 5 then
      if kind == 0 then
        match ReadInt(s)
        case Err(e) => Known(Err(e))
        case Ok(t) => Known(Ok(Took(m.(processes := m.processes + [t.got]), t.n)))
      else if kind == 2 then
        match ReadPackedField(s)
        case Err(e) => Known(Err(e))
        case Ok(t) => Known(Ok(Took(m.(processes := m.processes + t.got), t.n)))
      else Known(Err(WrongWireType))
    else Unknown
  }

  function InstanceHandler<T>(std: Std<T>): Handler<Instance<T>>
  {
    (m: Instance<T>, num: int, kind: nat, s: seq<Byte>) => InstanceField(std, m, num, kind, s)
  }

  lemma InstanceHandlerSound<T(!new)>(std: Std<T>)
    ensures Fits(InstanceHandler(std)) && Stable(InstanceHandler(std))
  {
    hide ReadInt, ReadChunk, ReadPackedField;
    forall m, num, kind, s, ext
      ensures StableAt(InstanceHandler(std), m, num, kind, s, ext)
    {
      if ReadInt(s).Ok? {
        ReadIntStable(s, ext);
      }
      if ReadChunk(s).Ok? {
        ReadChunkStable(s, ext);
      }
      if ReadPackedField(s).Ok? {
        ReadPackedFieldStable(s, ext);
      }
    }
  }

  function UnmarshalInstance<T(!new)>(std: Std<T>, s: seq<Byte>, m: Instance<T>): Result<Instance<T>>
  {
    InstanceHandlerSound(std);
    Unmarshal(InstanceHandler(std), s, m)
  }

  // ----- Printing -----

  function ProcessesField(vs: seq<Int64>): seq<Byte>
  {
    if vs == [] then [] else [0x2a] + Delimited(PackedBytes(vs))
  }

  function InstanceBytes<T>(std: Std<T>, m: Instance<T>): seq<Byte>
  {
    TextField(0x0a, m.id) + TextField(0x12, m.image) + IntField(0x18, m.status)
    + ([0x22] + Delimited(std.encode(m.created))) + ProcessesField(m.processes)
  }

  function InstanceSize<T>(std: Std<T>, m: Instance<T>): nat
  {
    var l := |std.encode(m.created)|;
    var p := PackedSize(m.processes);
    TextSize(m.id) + TextSize(m.image) + IntSize(m.status) + (1 + l + Sov(l))
    + (if m.processes == [] then 0 else 1 + Sov(p) + p)
  }

  lemma InstanceSizeExact<T>(std: Std<T>, m: Instance<T>)
    ensures |InstanceBytes(std, m)| == InstanceSize(std, m)
  {
    hide TextField, TextSize, IntField, IntSize, Varint, Sov, PackedBytes, PackedSize;
    FieldSizes(0x0a, 0, m.id);
    FieldSizes(0x12, 0, m.image);
    FieldSizes(0x18, m.status, []);
    SovExact(|std.encode(m.created)|);
    PackedSizeExact(m.processes);
    SovExact(PackedSize(m.processes));
  }

  /** Later scalars win unless they are default; the timestamp is always sent; processes append. */
  function MergeInstance<T>(m: Instance<T>, u: Instance<T>): Instance<T>
  {
    Instance(
      if u.id == [] then m.id else u.id,
      if u.image == [] then m.image else u.image,
      if u.status == 0 then m.status else u.status,
      u.created,
      m.processes + u.processes)
  }

  lemma InstanceText<T(!new)>(std: Std<T>, m: Instance<T>, num: int, p: seq<Byte>)
    requires (num == 1 || num == 2) && |p| < TWO63
    ensures UnmarshalInstance(std, TextField(8 * num + 2, p), m) ==
              Ok(if p == [] then m else if num == 1 then m.(id := p) else m.(image := p))
  {
    hide ReadChunk, Delimited;
    InstanceHandlerSound(std);
    if p != [] {
      ReadChunkExact(p, []);
      assert Delimited(p) + [] == Delimited(p);
      OneField(InstanceHandler(std), 8 * num + 2, Delimited(p), m, if num == 1 then m.(id := p) else m.(image := p));
    }
  }

  lemma InstanceStatus<T(!new)>(std: Std<T>, m: Instance<T>, v: Int64)
    ensures UnmarshalInstance(std, IntField(0x18, v), m) == Ok(if v == 0 then m else m.(status := v))
  {
    hide ReadInt, Varint;
    InstanceHandlerSound(std);
    if v != 0 {
      var body := Varint(Unsigned(v));
      ReadIntExact(v, []);
      assert body + [] == body;
      OneField(InstanceHandler(std), 0x18, body, m, m.(status := v));
    }
  }

  lemma InstanceCreated<T(!new)>(std: Std<T>, m: Instance<T>, t: T)
    requires Inverse(std)
    ensures UnmarshalInstance(std, [0x22] + Delimited(std.encode(t)), m) == Ok(m.(created := t))
  {
    hide ReadChunk, Delimited;
    InstanceHandlerSound(std);
    var p := std.encode(t);
    assert std.decode(p) == Ok(t) && |p| < TWO63;
    ReadChunkExact(p, []);
    assert Delimited(p) + [] == Delimited(p);
    OneField(InstanceHandler(std), 0x22, Delimited(p), m, m.(created := t));
  }

  // ----- The three ways to send a repeated integer -----

  /** One field occurrence of a repeated integer. */
  datatype Chunk = Single(v: Int64) | Packed(vs: seq<Int64>)

  function ChunkValues(c: Chunk): seq<Int64>
  {
    if c.Single? then [c.v] else c.vs
  }

  function ChunkBytes(c: Chunk): seq<Byte>
  {
    if c.Single? then [0x28] + Varint(Unsigned(c.v)) else [0x2a] + Delimited(PackedBytes(c.vs))
  }

  function Values(cs: seq<Chunk>): seq<Int64>
  {
    if cs == [] then [] else ChunkValues(cs[0]) + Values(cs[1..])
  }

  function ChunksBytes(cs: seq<Chunk>): seq<Byte>
  {
    if cs == [] then [] else ChunkBytes(cs[0]) + ChunksBytes(cs[1..])
  }

  lemma InstanceChunk<T(!new)>(std: Std<T>, m: Instance<T>, c: Chunk)
    requires c.Packed? ==> |PackedBytes(c.vs)| < TWO63
    ensures UnmarshalInstance(std, ChunkBytes(c), m) == Ok(m.(processes := m.processes + ChunkValues(c)))
  {
    hide ReadInt, ReadPackedField, Delimited, Varint, PackedBytes;
    InstanceHandlerSound(std);
    var n := m.(processes := m.processes + ChunkValues(c));
    if c.Single? {
      var body := Varint(Unsigned(c.v));
      ReadIntExact(c.v, []);
      assert body + [] == body;
      OneField(InstanceHandler(std), 0x28, body, m, n);
    } else {
      ReadPackedFieldExact(c.vs);
      OneField(InstanceHandler(std), 0x2a, Delimited(PackedBytes(c.vs)), m, n);
    }
  }

  /** Packed, unpacked and split encodings of the same list of processes decode to the same list. */
  lemma {:induction false} AnyPackingDecodes<T(!new)>(std: Std<T>, m: Instance<T>, cs: seq<Chunk>)
    requires forall i | 0 <= i < |cs| && cs[i].Packed? :: |PackedBytes(cs[i].vs)| < TWO63
    ensures UnmarshalInstance(std, ChunksBytes(cs), m) == Ok(m.(processes := m.processes + Values(cs)))
    decreases |cs|
  {
    hide ChunkBytes, PackedBytes, ChunkValues, InstanceHandler, Step;
    InstanceHandlerSound(std);
    if cs == [] {
      assert m.processes + [] == m.processes;
    } else {
      InstanceChunk(std, m, cs[0]);
      var n := m.(processes := m.processes + ChunkValues(cs[0]));
      Split(InstanceHandler(std), ChunkBytes(cs[0]), ChunksBytes(cs[1..]), m);
      AnyPackingDecodes(std, n, cs[1..]);
      assert n.processes + Values(cs[1..]) == m.processes + Values(cs);
    }
  }

  // ----- Merging and round trip -----

  lemma InstanceProcesses<T(!new)>(std: Std<T>, m: Instance<T>, vs: seq<Int64>)
    requires |PackedBytes(vs)| < TWO63
    ensures UnmarshalInstance(std, ProcessesField(vs), m) == Ok(m.(processes := m.processes + vs))
  {
    hide PackedBytes, Delimited;
    InstanceHandlerSound(std);
    if vs == [] {
      assert m.processes + vs == m.processes;
    } else {
      InstanceChunk(std, m, Packed(vs));
    }
  }

  lemma InstanceMerges<T(!new)>(std: Std<T>, m: Instance<T>, u: Instance<T>)
    requires Inverse(std) && |u.id| < TWO63 && |u.image| < TWO63 && |PackedBytes(u.processes)| < TWO63
    ensures UnmarshalInstance(std, InstanceBytes(std, u), m) == Ok(MergeInstance(m, u))
  {
    hide Unmarshal, TextField, IntField, Delimited, ProcessesField, PackedBytes, Inverse, InstanceHandler;
    InstanceHandlerSound(std);
    var f := InstanceHandler(std);
    var a, b, c := TextField(0x0a, u.id), TextField(0x12, u.image), IntField(0x18, u.status);
    var d, e := [0x22] + Delimited(std.encode(u.created)), ProcessesField(u.processes);
    InstanceText(std, m, 1, u.id);
    var m1 := UnmarshalInstance(std, a, m).value;
    Split(f, a, b, m);
    InstanceText(std, m1, 2, u.image);
    var m2 := UnmarshalInstance(std, b, m1).value;
    Split(f, a + b, c, m);
    InstanceStatus(std, m2, u.status);
    var m3 := UnmarshalInstance(std, c, m2).value;
    Split(f, a + b + c, d, m);
    InstanceCreated(std, m3, u.created);
    var m4 := m3.(created := u.created);
    Split(f, a + b + c + d, e, m);
    InstanceProcesses(std, m4, u.processes);
  }

  lemma InstanceRoundTrip<T(!new)>(std: Std<T>, zero: T, m: Instance<T>)
    requires Inverse(std) && |m.id| < TWO63 && |m.image| < TWO63 && |PackedBytes(m.processes)| < TWO63
    ensures UnmarshalInstance(std, InstanceBytes(std, m), Instance([], [], 0, zero, [])) == Ok(m)
  {
    hide UnmarshalInstance, InstanceBytes, PackedBytes, Inverse;
    InstanceMerges(std, Instance([], [], 0, zero, []), m);
    assert [] + m.processes == m.processes;
  }
}
