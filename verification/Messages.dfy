/**
 The control messages of the daemon (daemon/protocol/generated.pb.go): what MarshalTo
 writes, what ProtoSize computes and what the switch of Unmarshal does with each field.

 Go strings are byte sequences. Timestamps and durations are encoded by a library; its
 codec is a parameter.
 */
module Messages {
  import opened Wire
  import opened Unmarshalling

  type Int64 = v: int | -0x8000_0000_0000_0000 <= v < 0x8000_0000_0000_0000

  // ----- Sizes and readers shared by the messages -----

  /** sovGenerated */
  function Sov(x: nat): nat
  {
    if x / 128 == 0 then 1 else 1 + Sov(x / 128)
  }

  lemma {:induction false} SovExact(x: nat)
    ensures Sov(x) == |Varint(x)|
  {
    if x >= 128 {
      SovExact(x / 128);
    }
  }

  function ReadInt(s: seq<Byte>): (r: Result<Took<Int64>>)
    ensures r.Ok? ==> r.value.n <= |s|
  {
    match Read(s)
    case Err(e) => Err(e)
    case Ok(t) => Ok(Took(Signed(t.got), t.n))
  }

  /** A length and that many bytes. */
  function ReadChunk(s: seq<Byte>): (r: Result<Took<seq<Byte>>>)
    ensures r.Ok? ==> r.value.n <= |s|
  {
    match Read(s)
    case Err(e) => Err(e)
    case Ok(t) =>
      if Signed(t.got) < 0 then Err(InvalidLength)
      else if t.n + t.got > |s| then Err(UnexpectedEof)
      else Ok(Took(s[t.n..t.n + t.got], t.n + t.got))
  }

  function Delimited(p: seq<Byte>): seq<Byte>
  {
    Varint(|p|) + p
  }

  lemma ReadIntStable(s: seq<Byte>, ext: seq<Byte>)
    requires ReadInt(s).Ok?
    ensures ReadInt(s + ext) == ReadInt(s)
  {
    ReadStable(s, ext);
  }

  lemma ReadChunkStable(s: seq<Byte>, ext: seq<Byte>)
    requires ReadChunk(s).Ok?
    ensures ReadChunk(s + ext) == ReadChunk(s)
  {
    hide Read;
    ReadStable(s, ext);
    var t := Read(s).value;
    assert (s + ext)[t.n..t.n + t.got] == s[t.n..t.n + t.got];
  }

  lemma ReadIntExact(v: Int64, ext: seq<Byte>)
    ensures ReadInt(Varint(Unsigned(v)) + ext) == Ok(Took(v, |Varint(Unsigned(v))|))
  {
    VarintRoundTrip(Unsigned(v), ext);
  }

  lemma ReadChunkExact(p: seq<Byte>, ext: seq<Byte>)
    requires |p| < TWO63
    ensures ReadChunk(Delimited(p) + ext) == Ok(Took(p, |Delimited(p)|))
  {
    hide Read, Varint;
    var s := Delimited(p) + ext;
    assert s == Varint(|p|) + (p + ext);
    VarintRoundTrip(|p|, p + ext);
    assert s[|Varint(|p|)|..|Varint(|p|)| + |p|] == p;
  }

  /** An integer field; the zero value is not written. */
  function IntField(tag: Byte, v: Int64): seq<Byte>
  {
    if v == 0 then [] else [tag] + Varint(Unsigned(v))
  }

  function IntSize(v: Int64): nat
  {
    if v == 0 then 0 else 1 + Sov(Unsigned(v))
  }

  /** A string field; the empty string is not written. */
  function TextField(tag: Byte, p: seq<Byte>): seq<Byte>
  {
    if p == [] then [] else [tag] + Delimited(p)
  }

  function TextSize(p: seq<Byte>): nat
  {
    if p == [] then 0 else 1 + |p| + Sov(|p|)
  }

  lemma FieldSizes(tag: Byte, v: Int64, p: seq<Byte>)
    ensures |IntField(tag, v)| == IntSize(v) && |TextField(tag, p)| == TextSize(p)
  {
    SovExact(Unsigned(v));
    SovExact(|p|);
  }

  // ----- DriverPoolState -----

  datatype PoolState = PoolState(wanted: Int64, running: Int64, waiting: Int64, success: Int64, errors: Int64, exited: Int64)

  const NO_POOL := PoolState(0, 0, 0, 0, 0, 0)

  function PoolBytes(m: PoolState): seq<Byte>
  {
    IntField(0x08, m.wanted) + IntField(0x10, m.running) + IntField(0x18, m.waiting)
    + IntField(0x20, m.success) + IntField(0x28, m.errors) + IntField(0x30, m.exited)
  }

  function PoolSize(m: PoolState): nat
  {
    IntSize(m.wanted) + IntSize(m.running) + IntSize(m.waiting)
    + IntSize(m.success) + IntSize(m.errors) + IntSize(m.exited)
  }

  function SetPool(m: PoolState, num: int, v: Int64): PoolState
  {
    if num == 1 then m.(wanted := v)
    else if num == 2 then m.(running := v)
    else if num == 3 then m.(waiting := v)
    else if num == 4 then m.(success := v)
    else if num == 5 then m.(errors := v)
    else m.(exited := v)
  }

  function PoolField(m: PoolState, num: int, kind: nat, s: seq<Byte>): Handled<PoolState>
  {
    if !(1 <= num <= 6) then Unknown
    else if kind != 0 then Known(Err(WrongWireType))
    else match ReadInt(s)
      case Err(e) => Known(Err(e))
      case Ok(t) => Known(Ok(Took(SetPool(m, num, t.got), t.n)))
  }

  lemma PoolFieldSound()
    ensures Fits(PoolField) && Stable(PoolField)
  {
    hide Read, ReadInt, SetPool;
    forall m, num, kind, s, ext
      ensures StableAt(PoolField, m, num, kind, s, ext)
    {
      if ReadInt(s).Ok? {
        ReadIntStable(s, ext);
      }
    }
  }

  /** Unmarshal of a DriverPoolState into a receiver that may already hold values. */
  function UnmarshalPool(s: seq<Byte>, m: PoolState): Result<PoolState>
  {
    PoolFieldSound();
    Unmarshal(PoolField, s, m)
  }

  /** Later values win, and absent ones keep what was there. */
  function MergePool(m: PoolState, u: PoolState): PoolState
  {
    PoolState(
      if u.wanted == 0 then m.wanted else u.wanted,
      if u.running == 0 then m.running else u.running,
      if u.waiting == 0 then m.waiting else u.waiting,
      if u.success == 0 then m.success else u.success,
      if u.errors == 0 then m.errors else u.errors,
      if u.exited == 0 then m.exited else u.exited)
  }

  lemma PoolSizeExact(m: PoolState)
    ensures |PoolBytes(m)| == PoolSize(m)
  {
    hide IntField, IntSize;
    FieldSizes(0x08, m.wanted, []);
    FieldSizes(0x10, m.running, []);
    FieldSizes(0x18, m.waiting, []);
    FieldSizes(0x20, m.success, []);
    FieldSizes(0x28, m.errors, []);
    FieldSizes(0x30, m.exited, []);
  }

  function SetIfAny(m: PoolState, num: int, v: Int64): PoolState
  {
    if v == 0 then m else SetPool(m, num, v)
  }

  lemma PoolOneField(m: PoolState, num: int, v: Int64)
    requires 1 <= num <= 6
    ensures UnmarshalPool(IntField(8 * num, v), m) == Ok(SetIfAny(m, num, v))
  {
    hide Read, Varint, SetPool;
    PoolFieldSound();
    if v != 0 {
      var body := Varint(Unsigned(v));
      ReadIntExact(v, []);
      assert body + [] == body;
      OneField(PoolField, 8 * num, body, m, SetPool(m, num, v));
    }
  }

  /** One more field after what has been read. */
  lemma PoolThen(s: seq<Byte>, num: int, v: Int64, start: PoolState, m: PoolState)
    requires 1 <= num <= 6 && UnmarshalPool(s, start) == Ok(m)
    ensures UnmarshalPool(s + IntField(8 * num, v), start) == Ok(SetIfAny(m, num, v))
  {
    hide Unmarshal, IntField;
    PoolFieldSound();
    Split(PoolField, s, IntField(8 * num, v), start);
    PoolOneField(m, num, v);
  }

  /** Unmarshalling the encoding of `u` into `m` merges them, negative numbers included. */
  lemma PoolMerges(m: PoolState, u: PoolState)
    ensures UnmarshalPool(PoolBytes(u), m) == Ok(MergePool(m, u))
  {
    hide UnmarshalPool, IntField;
    PoolOneField(m, 1, u.wanted);
    var m1 := SetIfAny(m, 1, u.wanted);
    var s1 := IntField(0x08, u.wanted);
    PoolThen(s1, 2, u.running, m, m1);
    var m2 := SetIfAny(m1, 2, u.running);
    var s2 := s1 + IntField(0x10, u.running);
    PoolThen(s2, 3, u.waiting, m, m2);
    var m3 := SetIfAny(m2, 3, u.waiting);
    var s3 := s2 + IntField(0x18, u.waiting);
    PoolThen(s3, 4, u.success, m, m3);
    var m4 := SetIfAny(m3, 4, u.success);
    var s4 := s3 + IntField(0x20, u.success);
    PoolThen(s4, 5, u.errors, m, m4);
    var m5 := SetIfAny(m4, 5, u.errors);
    var s5 := s4 + IntField(0x28, u.errors);
    PoolThen(s5, 6, u.exited, m, m5);
  }

  lemma PoolRoundTrip(m: PoolState)
    ensures UnmarshalPool(PoolBytes(m), NO_POOL) == Ok(m)
  {
    hide UnmarshalPool, PoolBytes;
    PoolMerges(NO_POOL, m);
  }

  /** Two encodings one after the other: later non-zero values win. */
  lemma PoolConcatenation(a: PoolState, b: PoolState)
    ensures UnmarshalPool(PoolBytes(a) + PoolBytes(b), NO_POOL) == Ok(MergePool(a, b))
  {
    hide Unmarshal, PoolBytes;
    PoolFieldSound();
    PoolRoundTrip(a);
    Split(PoolField, PoolBytes(a), PoolBytes(b), NO_POOL);
    PoolMerges(a, b);
  }

  /** Whatever unknown well-formed field stands between two encodings, they decode as without it. */
  lemma PoolUnknownField(a: PoolState, g: Field, b: PoolState)
    requires WellFormed(g) && FieldNumber(Read(g.tag).value.got) > 6
    ensures UnmarshalPool(PoolBytes(a) + Bytes(g) + PoolBytes(b), NO_POOL) == Ok(MergePool(a, b))
  {
    hide Unmarshal, PoolBytes, Bytes, Read, FieldNumber;
    PoolFieldSound();
    PoolRoundTrip(a);
    PoolConcatenation(a, b);
    UnknownInserted(PoolField, PoolBytes(a), g, PoolBytes(b), NO_POOL);
  }

  // ----- InstallDriverRequest -----

  datatype Install = Install(language: seq<Byte>, reference: seq<Byte>, update: bool)

  const NO_INSTALL := Install([], [], false)

  function FlagField(tag: Byte, b: bool): seq<Byte>
  {
    if b then [tag, 1] else []
  }

  function InstallBytes(m: Install): seq<Byte>
  {
    TextField(0x0a, m.language) + TextField(0x12, m.reference) + FlagField(0x18, m.update)
  }

  function InstallSize(m: Install): nat
  {
    TextSize(m.language) + TextSize(m.reference) + (if m.update then 2 else 0)
  }

  function InstallField(m: Install, num: int, kind: nat, s: seq<Byte>): Handled<Install>
  {
    if num == 1 || num == 2 then
      if kind != 2 then Known(Err(WrongWireType))
      else match ReadChunk(s)
        case Err(e) => Known(Err(e))
        case Ok(t) => Known(Ok(Took(if num == 1 then m.(language := t.got) else m.(reference := t.got), t.n)))
    else if num == 3 then
      if kind != 0 then Known(Err(WrongWireType))
      else match ReadInt(s)
        case Err(e) => Known(Err(e))
        case Ok(t) => Known(Ok(Took(m.(update := t.got != 0), t.n)))
    else Unknown
  }

  lemma InstallFieldSound()
    ensures Fits(InstallField) && Stable(InstallField)
  {
    hide Read, ReadInt, ReadChunk;
    forall m, num, kind, s, ext
      ensures StableAt(InstallField, m, num, kind, s, ext)
    {
      if ReadInt(s).Ok? {
        ReadIntStable(s, ext);
      }
      if ReadChunk(s).Ok? {
        ReadChunkStable(s, ext);
      }
    }
  }

  function UnmarshalInstall(s: seq<Byte>, m: Install): Result<Install>
  {
    InstallFieldSound();
    Unmarshal(InstallField, s, m)
  }

  function MergeInstall(m: Install, u: Install): Install
  {
    Install(
      if u.language == [] then m.language else u.language,
      if u.reference == [] then m.reference else u.reference,
      u.update || m.update)
  }

  lemma InstallSizeExact(m: Install)
    ensures |InstallBytes(m)| == InstallSize(m)
  {
    hide TextField, TextSize;
    FieldSizes(0x0a, 0, m.language);
    FieldSizes(0x12, 0, m.reference);
  }

  lemma InstallText(m: Install, num: int, p: seq<Byte>)
    requires (num == 1 || num == 2) && |p| < TWO63
    ensures UnmarshalInstall(TextField(8 * num + 2, p), m) ==
              Ok(if p == [] then m else if num == 1 then m.(language := p) else m.(reference := p))
  {
    hide ReadChunk, Delimited;
    InstallFieldSound();
    if p != [] {
      ReadChunkExact(p, []);
      assert Delimited(p) + [] == Delimited(p);
      OneField(InstallField, 8 * num + 2, Delimited(p), m, if num == 1 then m.(language := p) else m.(reference := p));
    }
  }

  lemma InstallFlag(m: Install, b: bool)
    ensures UnmarshalInstall(FlagField(0x18, b), m) == Ok(if b then m.(update := true) else m)
  {
    hide ReadInt;
    InstallFieldSound();
    if b {
      ReadIntExact(1, []);
      assert Varint(1) == [1] && [1] + [] == [1];
      OneField(InstallField, 0x18, [1], m, m.(update := true));
      assert [0x18] + [1] == [0x18, 1];
    }
  }

  lemma InstallMerges(m: Install, u: Install)
    requires |u.language| < TWO63 && |u.reference| < TWO63
    ensures UnmarshalInstall(InstallBytes(u), m) == Ok(MergeInstall(m, u))
  {
    hide Unmarshal, TextField, FlagField;
    InstallFieldSound();
    var a, b, c := TextField(0x0a, u.language), TextField(0x12, u.reference), FlagField(0x18, u.update);
    InstallText(m, 1, u.language);
    var m1 := UnmarshalInstall(a, m).value;
    Split(InstallField, a, b, m);
    InstallText(m1, 2, u.reference);
    var m2 := UnmarshalInstall(b, m1).value;
    Split(InstallField, a + b, c, m);
    InstallFlag(m2, u.update);
  }

  lemma InstallRoundTrip(m: Install)
    requires |m.language| < TWO63 && |m.reference| < TWO63
    ensures UnmarshalInstall(InstallBytes(m), NO_INSTALL) == Ok(m)
  {
    hide UnmarshalInstall, InstallBytes;
    InstallMerges(NO_INSTALL, m);
  }
}
