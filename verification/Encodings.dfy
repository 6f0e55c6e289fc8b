/**
 Inputs that the generated code does not write itself but has to read (daemon/protocol/
 generated.pb.go): fields in any order, repeated, and with explicit default values; and inputs
 that it has to reject. And the very bytes of a few messages.
 */
module Encodings {
  import opened Wire
  import opened Unmarshalling
  import opened Messages
  import opened Instances
  import opened PoolStates

  // ----- Varints that cannot be read -----

  ghost predicate AllContinue(s: seq<Byte>, n: nat)
    requires n <= |s|
  {
    forall i | 0 <= i < n :: s[i] >= 128
  }

  lemma {:induction false} ReadBitsFails(s: seq<Byte>, budget: nat)
    ensures ReadBits(s, budget) == Err(IntOverflow) <==> |s| >= budget && AllContinue(s, budget)
    ensures ReadBits(s, budget) == Err(UnexpectedEof) <==> |s| < budget && AllContinue(s, |s|)
    ensures ReadBits(s, budget).Err? ==> ReadBits(s, budget).error == IntOverflow || ReadBits(s, budget).error == UnexpectedEof
  {
    if budget == 0 || s == [] {
    } else {
      ReadBitsFails(s[1..], budget - 1);
      assert s == [s[0]] + s[1..];
    }
  }

  /** A varint overflows exactly if ten bytes go on, and is cut off exactly if fewer do and no more follow. */
  lemma ReadFailsIff(s: seq<Byte>)
    ensures Read(s) == Err(IntOverflow) <==> |s| >= 10 && AllContinue(s, 10)
    ensures Read(s) == Err(UnexpectedEof) <==> |s| < 10 && AllContinue(s, |s|)
    ensures Read(s).Ok? <==> exists n :: 0 <= n < 10 && n < |s| && AllContinue(s, n) && s[n] < 128
  {
    hide ReadBits;
    ReadBitsFails(s, 10);
    if forall n | 0 <= n < 10 && n < |s| && AllContinue(s, n) :: s[n] >= 128 {
      NeverStops(s, if |s| < 10 then |s| else 10);
    }
  }

  lemma {:induction false} NeverStops(s: seq<Byte>, k: nat)
    requires k <= |s| && k <= 10 && forall n | 0 <= n < 10 && n < |s| && AllContinue(s, n) :: s[n] >= 128
    ensures AllContinue(s, k)
  {
    if k == 0 {
    } else {
      NeverStops(s, k - 1);
    }
  }

  // ----- DriverPoolState: any fields -----

  /** One field on the wire, with any value, zero included. */
  datatype Number = Number(num: int, v: Int64)

  function NumberBytes(x: Number): seq<Byte>
    requires 1 <= x.num <= 6
  {
    [8 * x.num] + Varint(Unsigned(x.v))
  }

  function NumbersBytes(xs: seq<Number>): seq<Byte>
    requires forall x | x in xs :: 1 <= x.num <= 6
  {
    if xs == [] then [] else NumbersBytes(xs[..|xs| - 1]) + NumberBytes(xs[|xs| - 1])
  }

  /** The last value given for a field number, or else what was there. */
  function LastOf(xs: seq<Number>, num: int, before: Int64): Int64
  {
    if xs == [] then before
    else if xs[|xs| - 1].num == num then xs[|xs| - 1].v
    else LastOf(xs[..|xs| - 1], num, before)
  }

  lemma NumberReads(x: Number, m: PoolState)
    requires 1 <= x.num <= 6
    ensures UnmarshalPool(NumberBytes(x), m) == Ok(SetPool(m, x.num, x.v))
  {
    hide ReadInt, Varint, SetPool;
    PoolFieldSound();
    var body := Varint(Unsigned(x.v));
    ReadIntExact(x.v, []);
    assert body + [] == body;
    OneField(PoolField, 8 * x.num, body, m, SetPool(m, x.num, x.v));
  }

  /** Fields in any order and number, into any receiver: of each the last value counts, even if it is zero. */
  lemma {:induction false} LastOneWins(xs: seq<Number>, m: PoolState)
    requires forall x | x in xs :: 1 <= x.num <= 6
    ensures UnmarshalPool(NumbersBytes(xs), m) == Ok(PoolState(
              LastOf(xs, 1, m.wanted), LastOf(xs, 2, m.running), LastOf(xs, 3, m.waiting),
              LastOf(xs, 4, m.success), LastOf(xs, 5, m.errors), LastOf(xs, 6, m.exited)))
  {
    hide Unmarshal, NumberBytes;
    PoolFieldSound();
    if xs == [] {
      UnmarshalNothing(PoolField, m);
    } else {
      var front, x := xs[..|xs| - 1], xs[|xs| - 1];
      assert forall y | y in front :: y in xs;
      LastOneWins(front, m);
      Split(PoolField, NumbersBytes(front), NumberBytes(x), m);
      NumberReads(x, UnmarshalPool(NumbersBytes(front), m).value);
    }
  }

  // ----- InstallDriverRequest: any fields -----

  datatype Part = Language(p: seq<Byte>) | Reference(p: seq<Byte>) | Update(v: Int64)

  function PartBytes(x: Part): seq<Byte>
  {
    match x
    case Language(p) => [0x0a] + Delimited(p)
    case Reference(p) => [0x12] + Delimited(p)
    case Update(v) => [0x18] + Varint(Unsigned(v))
  }

  function PartsBytes(xs: seq<Part>): seq<Byte>
  {
    if xs == [] then [] else PartBytes(xs[0]) + PartsBytes(xs[1..])
  }

  /** What the parts, one after the other, make of a receiver; a flag is set by any number but zero. */
  function Overlay(m: Install, xs: seq<Part>): Install
    decreases |xs|
  {
    if xs == [] then m
    else
      var n := match xs[0]
        case Language(p) => m.(language := p)
        case Reference(p) => m.(reference := p)
        case Update(v) => m.(update := v != 0);
      Overlay(n, xs[1..])
  }

  lemma PartReads(x: Part, m: Install)
    requires x.Update? || |x.p| < TWO63
    ensures UnmarshalInstall(PartBytes(x), m) == Ok(Overlay(m, [x]))
  {
    hide ReadChunk, ReadInt, Delimited, Varint;
    InstallFieldSound();
    assert [x][1..] == [];
    match x
    case Language(p) =>
      ReadChunkExact(p, []);
      assert Delimited(p) + [] == Delimited(p);
      OneField(InstallField, 0x0a, Delimited(p), m, m.(language := p));
    case Reference(p) =>
      ReadChunkExact(p, []);
      assert Delimited(p) + [] == Delimited(p);
      OneField(InstallField, 0x12, Delimited(p), m, m.(reference := p));
    case Update(v) =>
      var body := Varint(Unsigned(v));
      ReadIntExact(v, []);
      assert body + [] == body;
      OneField(InstallField, 0x18, body, m, m.(update := v != 0));
  }

  lemma {:induction false} PartsRead(xs: seq<Part>, m: Install)
    requires forall x | x in xs :: x.Update? || |x.p| < TWO63
    ensures UnmarshalInstall(PartsBytes(xs), m) == Ok(Overlay(m, xs))
    decreases |xs|
  {
    hide Unmarshal, PartBytes;
    InstallFieldSound();
    if xs == [] {
      UnmarshalNothing(InstallField, m);
    } else {
      assert xs[0] in xs;
      PartReads(xs[0], m);
      Split(InstallField, PartBytes(xs[0]), PartsBytes(xs[1..]), m);
      assert [xs[0]][1..] == [];
      PartsRead(xs[1..], Overlay(m, [xs[0]]));
    }
  }

  // ----- DriverInstanceState: any fields -----

  datatype InstancePart<T> = Id(p: seq<Byte>) | Image(p: seq<Byte>) | StatusCode(v: Int64) | Created(t: T) | Pids(c: Chunk)

  ghost predicate Sendable<T>(x: InstancePart<T>)
  {
    match x
    case Id(p) => |p| < TWO63
    case Image(p) => |p| < TWO63
    case Pids(c) => c.Packed? ==> |PackedBytes(c.vs)| < TWO63
    case _ => true
  }

  function InstancePartBytes<T>(std: Std<T>, x: InstancePart<T>): seq<Byte>
  {
    match x
    case Id(p) => [0x0a] + Delimited(p)
    case Image(p) => [0x12] + Delimited(p)
    case StatusCode(v) => [0x18] + Varint(Unsigned(v))
    case Created(t) => [0x22] + Delimited(std.encode(t))
    case Pids(c) => ChunkBytes(c)
  }

  function InstancePartsBytes<T>(std: Std<T>, xs: seq<InstancePart<T>>): seq<Byte>
  {
    if xs == [] then [] else InstancePartBytes(std, xs[0]) + InstancePartsBytes(std, xs[1..])
  }

  function Amend<T>(m: Instance<T>, x: InstancePart<T>): Instance<T>
  {
    match x
    case Id(p) => m.(id := p)
    case Image(p) => m.(image := p)
    case StatusCode(v) => m.(status := v)
    case Created(t) => m.(created := t)
    case Pids(c) => m.(processes := m.processes + ChunkValues(c))
  }

  function AmendAll<T>(m: Instance<T>, xs: seq<InstancePart<T>>): Instance<T>
    decreases |xs|
  {
    if xs == [] then m else AmendAll(Amend(m, xs[0]), xs[1..])
  }

  lemma InstanceTextReads<T(!new)>(std: Std<T>, m: Instance<T>, num: int, p: seq<Byte>)
    requires (num == 1 || num == 2) && |p| < TWO63
    ensures UnmarshalInstance(std, [8 * num + 2] + Delimited(p), m) == Ok(if num == 1 then m.(id := p) else m.(image := p))
  {
    hide ReadChunk, Delimited;
    InstanceHandlerSound(std);
    ReadChunkExact(p, []);
    assert Delimited(p) + [] == Delimited(p);
    OneField(InstanceHandler(std), 8 * num + 2, Delimited(p), m, if num == 1 then m.(id := p) else m.(image := p));
  }

  lemma InstanceStatusReads<T(!new)>(std: Std<T>, m: Instance<T>, v: Int64)
    ensures UnmarshalInstance(std, [0x18] + Varint(Unsigned(v)), m) == Ok(m.(status := v))
  {
    hide ReadInt, Varint;
    InstanceHandlerSound(std);
    var body := Varint(Unsigned(v));
    ReadIntExact(v, []);
    assert body + [] == body;
    OneField(InstanceHandler(std), 0x18, body, m, m.(status := v));
  }

  lemma InstancePartReads<T(!new)>(std: Std<T>, m: Instance<T>, x: InstancePart<T>)
    requires Inverse(std) && Sendable(x)
    ensures UnmarshalInstance(std, InstancePartBytes(std, x), m) == Ok(Amend(m, x))
  {
    hide UnmarshalInstance, Delimited, Varint, ChunkBytes, Inverse;
    match x
    case Id(p) => InstanceTextReads(std, m, 1, p);
    case Image(p) => InstanceTextReads(std, m, 2, p);
    case StatusCode(v) => InstanceStatusReads(std, m, v);
    case Created(t) => InstanceCreated(std, m, t);
    case Pids(c) => InstanceChunk(std, m, c);
  }

  /** Fields in any order and number: the last text, number and timestamp count, empty ones included, and processes append. */
  lemma {:induction false} InstancePartsRead<T(!new)>(std: Std<T>, m: Instance<T>, xs: seq<InstancePart<T>>)
    requires Inverse(std) && forall x | x in xs :: Sendable(x)
    ensures UnmarshalInstance(std, InstancePartsBytes(std, xs), m) == Ok(AmendAll(m, xs))
    decreases |xs|
  {
    hide Unmarshal, InstanceHandler, InstancePartBytes, Amend, Inverse, Sendable;
    InstanceHandlerSound(std);
    if xs == [] {
      UnmarshalNothing(InstanceHandler(std), m);
    } else {
      assert xs[0] in xs;
      InstancePartReads(std, m, xs[0]);
      Split(InstanceHandler(std), InstancePartBytes(std, xs[0]), InstancePartsBytes(std, xs[1..]), m);
      InstancePartsRead(std, Amend(m, xs[0]), xs[1..]);
    }
  }

  // ----- DriverPoolStatesResponse: any fields -----

  datatype ResponsePart<T> = ErrorText(p: Text) | Elapsed(t: T) | Item(e: Entry)

  function ResponsePartBytes<T>(std: Std<T>, x: ResponsePart<T>): seq<Byte>
  {
    match x
    case ErrorText(p) => [0x0a] + Delimited(p)
    case Elapsed(t) => [0x12] + Delimited(std.encode(t))
    case Item(e) => [0x1a] + Delimited(EntryBytes(e))
  }

  function ResponsePartsBytes<T>(std: Std<T>, xs: seq<ResponsePart<T>>): seq<Byte>
  {
    if xs == [] then [] else ResponsePartBytes(std, xs[0]) + ResponsePartsBytes(std, xs[1..])
  }

  function Extend<T>(m: Response<T>, x: ResponsePart<T>): Response<T>
  {
    match x
    case ErrorText(p) => m.(errors := m.errors + [p])
    case Elapsed(t) => m.(elapsed := t)
    case Item(e) => m.(state := m.state[e.key := e.value])
  }

  function ExtendAll<T>(m: Response<T>, xs: seq<ResponsePart<T>>): Response<T>
    decreases |xs|
  {
    if xs == [] then m else ExtendAll(Extend(m, xs[0]), xs[1..])
  }

  /** Fields in any order: errors append, the last duration counts, and of entries with one key the last. */
  lemma {:induction false} ResponsePartsRead<T(!new)>(std: Std<T>, m: Response<T>, xs: seq<ResponsePart<T>>)
    requires Inverse(std) && forall x | x in xs :: x.Elapsed? || |ResponsePartBytes(std, x)| < TWO63
    ensures UnmarshalResponse(std, ResponsePartsBytes(std, xs), m) == Ok(ExtendAll(m, xs))
    decreases |xs|
  {
    hide Unmarshal, ResponseHandler, Varint, EntryBytes, Inverse;
    ResponseHandlerSound(std);
    if xs == [] {
      UnmarshalNothing(ResponseHandler(std), m);
    } else {
      var x := xs[0];
      assert x in xs;
      match x {
        case ErrorText(p) => ResponseError(std, m, p);
        case Elapsed(t) => ResponseElapsed(std, m, t);
        case Item(e) => ResponseEntry(std, m, e);
      }
      Split(ResponseHandler(std), ResponsePartBytes(std, x), ResponsePartsBytes(std, xs[1..]), m);
      ResponsePartsRead(std, Extend(m, x), xs[1..]);
    }
  }

  // ----- What is rejected -----

  /** After any accepted part, a tag is rejected for its wire type, for its number, or by the switch. */
  lemma RejectedTag<M(!new)>(f: Handler<M>, a: seq<Byte>, tag: Byte, body: seq<Byte>, m: M)
    requires Fits(f) && Stable(f) && Unmarshal(f, a, m).Ok? && tag < 128
    ensures tag % 8 == 4 ==> Unmarshal(f, a + ([tag] + body), m) == Err(EndGroup)
    ensures tag % 8 != 4 && tag / 8 == 0 ==> Unmarshal(f, a + ([tag] + body), m) == Err(IllegalTag)
    ensures tag % 8 != 4 && tag / 8 > 0 && f(Unmarshal(f, a, m).value, tag / 8, tag % 8, body) == Known(Err(WrongWireType)) ==>
              Unmarshal(f, a + ([tag] + body), m) == Err(WrongWireType)
  {
    hide Read, Skip, Stable, Fits;
    var s := [tag] + body;
    Split(f, a, s, m);
    ReadTag(tag, body);
    assert s[1..] == body;
  }

  /** The numbered fields of a DriverPoolState are varints and nothing else. */
  lemma PoolRejectsType(a: seq<Byte>, num: int, kind: nat, body: seq<Byte>, m: PoolState)
    requires UnmarshalPool(a, m).Ok? && 1 <= num <= 6 && kind < 8 && kind != 0 && kind != 4
    ensures UnmarshalPool(a + ([8 * num + kind] + body), m) == Err(WrongWireType)
  {
    hide Unmarshal;
    PoolFieldSound();
    RejectedTag(PoolField, a, 8 * num + kind, body, m);
  }

  lemma InstallRejectsType(a: seq<Byte>, num: int, kind: nat, body: seq<Byte>, m: Install)
    requires UnmarshalInstall(a, m).Ok? && 1 <= num <= 3 && kind < 8 && kind != 4 && kind != (if num == 3 then 0 else 2)
    ensures UnmarshalInstall(a + ([8 * num + kind] + body), m) == Err(WrongWireType)
  {
    hide Unmarshal;
    InstallFieldSound();
    RejectedTag(InstallField, a, 8 * num + kind, body, m);
  }

  lemma InstanceRejectsType<T(!new)>(std: Std<T>, a: seq<Byte>, num: int, kind: nat, body: seq<Byte>, m: Instance<T>)
    requires UnmarshalInstance(std, a, m).Ok? && 1 <= num <= 5 && kind < 8 && kind != 4
    requires if num == 3 then kind != 0 else if num == 5 then kind != 0 && kind != 2 else kind != 2
    ensures UnmarshalInstance(std, a + ([8 * num + kind] + body), m) == Err(WrongWireType)
  {
    hide Unmarshal;
    InstanceHandlerSound(std);
    RejectedTag(InstanceHandler(std), a, 8 * num + kind, body, m);
  }

  lemma ResponseRejectsType<T(!new)>(std: Std<T>, a: seq<Byte>, num: int, kind: nat, body: seq<Byte>, m: Response<T>)
    requires UnmarshalResponse(std, a, m).Ok? && 1 <= num <= 3 && kind < 8 && kind != 4 && kind != 2
    ensures UnmarshalResponse(std, a + ([8 * num + kind] + body), m) == Err(WrongWireType)
  {
    hide Unmarshal;
    ResponseHandlerSound(std);
    RejectedTag(ResponseHandler(std), a, 8 * num + kind, body, m);
  }

  /** A chunk is read exactly if its length is not negative and all its bytes are there. */
  lemma ReadChunkIff(s: seq<Byte>)
    ensures ReadChunk(s).Ok? <==> Read(s).Ok? && Read(s).value.got < TWO63 && Read(s).value.n + Read(s).value.got <= |s|
    ensures Read(s).Ok? && Read(s).value.got >= TWO63 ==> ReadChunk(s) == Err(InvalidLength)
    ensures Read(s).Ok? && Read(s).value.got < TWO63 && Read(s).value.n + Read(s).value.got > |s| ==> ReadChunk(s) == Err(UnexpectedEof)
  {
    hide Read;
  }

  // ----- The very bytes -----

  /** The example of the section "Base 128 Varints" of the Protocol Buffers Encoding guide, and a negative number. */
  lemma VarintExamples()
    ensures Varint(1) == [0x01] && Varint(300) == [0xac, 0x02]
    ensures Varint(Unsigned(-1)) == [0xff, 0xff, 0xff, 0xff, 0xff, 0xff, 0xff, 0xff, 0xff, 0x01]
  {
    assert Varint(300) == [0xac] + Varint(2);
    AllOnes(9);
    NineOnes();
  }

  function Ones(k: nat): nat
  {
    if k == 0 then 1 else 127 + 128 * Ones(k - 1)
  }

  lemma {:induction false} AllOnes(k: nat)
    ensures Varint(Ones(k)) == seq(k, _ => 0xff) + [0x01]
  {
    if k == 0 {
    } else {
      AllOnes(k - 1);
      var n := Ones(k - 1);
      assert (127 + 128 * n) % 128 == 127 && (127 + 128 * n) / 128 == n;
      assert Varint(127 + 128 * n) == [0xff] + Varint(n);
      assert seq(k, _ => 0xff) == [0xff] + seq(k - 1, _ => 0xff);
    }
  }

  lemma NineOnes()
    ensures Ones(9) == TWO64 - 1
  {
    OnesAt(9); OnesAt(8); OnesAt(7); OnesAt(6); OnesAt(5); OnesAt(4); OnesAt(3); OnesAt(2); OnesAt(1);
  }

  lemma OnesAt(k: nat)
    requires k >= 1
    ensures Ones(k) == 127 + 128 * Ones(k - 1) && Ones(0) == 1
  {
  }

  /** Each field of a DriverPoolState by its number on the wire. */
  lemma PoolExample()
    ensures PoolBytes(PoolState(1, 2, 3, 4, 5, 6)) == [0x08, 1, 0x10, 2, 0x18, 3, 0x20, 4, 0x28, 5, 0x30, 6]
    ensures PoolBytes(PoolState(0, 300, 0, 0, 0, 0)) == [0x10, 0xac, 0x02]
    ensures PoolBytes(NO_POOL) == []
  {
    VarintExamples();
  }

  lemma InstallExample()
    ensures InstallBytes(Install([0x67, 0x6f], [0x72], true)) == [0x0a, 2, 0x67, 0x6f, 0x12, 1, 0x72, 0x18, 1]
    ensures InstallBytes(NO_INSTALL) == []
  {
  }

  lemma InstanceExample<T>(std: Std<T>, t: T)
    ensures InstanceBytes(std, Instance([0x69], [0x6d], 1, t, [1, 300])) ==
              [0x0a, 1, 0x69, 0x12, 1, 0x6d, 0x18, 1] + ([0x22] + Delimited(std.encode(t))) + [0x2a, 3, 1, 0xac, 0x02]
  {
    hide Delimited;
    VarintExamples();
    PackedExample();
    DelimitedExample([0x69]);
    DelimitedExample([0x6d]);
    DelimitedExample([1, 0xac, 0x02]);
  }

  lemma PackedExample()
    ensures PackedBytes([1, 300]) == [1, 0xac, 0x02]
  {
    VarintExamples();
    assert [1, 300][1..] == [300] && [300][1..] == [];
    assert PackedBytes([300]) == Varint(300) + PackedBytes([]);
  }

  lemma DelimitedExample(p: seq<Byte>)
    requires |p| < 128
    ensures Delimited(p) == [|p|] + p
  {
  }

  /** An entry with a value, one whose value is all zero, and one without a value. */
  lemma EntryExample()
    ensures EntryBytes(Entry([0x67], To(PoolState(1, 0, 0, 0, 0, 0)))) == [0x0a, 1, 0x67, 0x12, 2, 0x08, 1]
    ensures EntryBytes(Entry([0x67], To(NO_POOL))) == [0x0a, 1, 0x67, 0x12, 0]
    ensures EntryBytes(Entry([], Nil)) == [0x0a, 0]
  {
  }
}
