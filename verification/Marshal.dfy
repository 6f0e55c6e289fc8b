/**
 The loops of the generated code (daemon/protocol/generated.pb.go), which write into a
 buffer at a running index and read at a running index, proved against the specifications
 in Wire, Messages, Instances and PoolStates.
 */
module Marshal {
  import opened Wire
  import opened Messages
  import opened Instances
  import opened PoolStates

  // ----- Writing -----

  /** The buffer with `bs` written at `i`. */
  ghost function Written(s: seq<Byte>, i: nat, bs: seq<Byte>): seq<Byte>
    requires i + |bs| <= |s|
  {
    s[..i] + bs + s[i + |bs|..]
  }

  lemma WrittenNone(s: seq<Byte>, i: nat)
    requires i <= |s|
    ensures Written(s, i, []) == s
  {
  }

  lemma WrittenTwice(s: seq<Byte>, i: nat, a: seq<Byte>, b: seq<Byte>)
    requires i + |a| + |b| <= |s|
    ensures |Written(s, i, a)| == |s|
    ensures Written(Written(s, i, a), i + |a|, b) == Written(s, i, a + b)
  {
  }

  method PutByte(buf: array<Byte>, i: nat, b: Byte) returns (next: nat)
    requires i < buf.Length
    modifies buf
    ensures next == i + 1 && buf[..] == Written(old(buf[..]), i, [b])
  {
    buf[i] := b;
    next := i + 1;
  }

  /** encodeVarintGenerated */
  method EncodeVarint(buf: array<Byte>, offset: nat, v: nat) returns (next: nat)
    requires offset + |Varint(v)| <= buf.Length
    modifies buf
    ensures next == offset + |Varint(v)|
    ensures buf[..] == Written(old(buf[..]), offset, Varint(v))
  {
    hide Written;
    var rest := v;
    next := offset;
    ghost var done: seq<Byte> := [];
    WrittenNone(buf[..], offset);
    while rest >= 128
      invariant Varint(v) == done + Varint(rest)
      invariant next == offset + |done| && offset + |done| + |Varint(rest)| <= buf.Length
      invariant buf[..] == Written(old(buf[..]), offset, done)
    {
      WrittenTwice(old(buf[..]), offset, done, [rest % 128 + 128]);
      assert done + Varint(rest) == done + [rest % 128 + 128] + Varint(rest / 128);
      done := done + [rest % 128 + 128];
      next := PutByte(buf, next, rest % 128 + 128);
      rest := rest / 128;
    }
    WrittenTwice(old(buf[..]), offset, done, [rest]);
    next := PutByte(buf, next, rest);
  }

  /** sovGenerated */
  method SizeOfVarint(v: nat) returns (n: nat)
    ensures n == |Varint(v)|
  {
    SovExact(v);
    n := 1;
    var x: nat := v / 128;
    while x != 0
      invariant n + (if x == 0 then 0 else Sov(x)) == Sov(v)
    {
      n := n + 1;
      x := x / 128;
    }
  }

  /** copy */
  method PutBytes(buf: array<Byte>, i: nat, bs: seq<Byte>) returns (next: nat)
    requires i + |bs| <= buf.Length
    modifies buf
    ensures next == i + |bs| && buf[..] == Written(old(buf[..]), i, bs)
  {
    hide Written;
    var k := 0;
    WrittenNone(buf[..], i);
    assert bs[..0] == [];
    while k < |bs|
      invariant 0 <= k <= |bs|
      invariant buf[..] == Written(old(buf[..]), i, bs[..k])
    {
      WrittenTwice(old(buf[..]), i, bs[..k], [bs[k]]);
      assert bs[..k + 1] == bs[..k] + [bs[k]];
      var _ := PutByte(buf, i + k, bs[k]);
      k := k + 1;
    }
    assert bs[..k] == bs;
    next := i + |bs|;
  }

  method PutInt(buf: array<Byte>, i: nat, tag: Byte, v: Int64) returns (next: nat)
    requires i + |IntField(tag, v)| <= buf.Length
    modifies buf
    ensures next == i + |IntField(tag, v)| && buf[..] == Written(old(buf[..]), i, IntField(tag, v))
  {
    next := i;
    if v != 0 {
      WrittenTwice(old(buf[..]), i, [tag], Varint(Unsigned(v)));
      next := PutByte(buf, next, tag);
      next := EncodeVarint(buf, next, Unsigned(v));
    } else {
      WrittenNone(buf[..], i);
    }
  }

  method PutDelimited(buf: array<Byte>, i: nat, tag: Byte, p: seq<Byte>) returns (next: nat)
    requires i + 1 + |Delimited(p)| <= buf.Length
    modifies buf
    ensures next == i + 1 + |Delimited(p)| && buf[..] == Written(old(buf[..]), i, [tag] + Delimited(p))
  {
    ghost var was := buf[..];
    WrittenTwice(was, i, [tag], Varint(|p|));
    next := PutByte(buf, i, tag);
    next := EncodeVarint(buf, next, |p|);
    WrittenTwice(was, i, [tag] + Varint(|p|), p);
    next := PutBytes(buf, next, p);
    assert [tag] + Varint(|p|) + p == [tag] + Delimited(p);
  }

  method SizeOfInt(v: Int64) returns (n: nat)
    ensures n == IntSize(v)
  {
    n := 0;
    if v != 0 {
      SovExact(Unsigned(v));
      n := SizeOfVarint(Unsigned(v));
      n := n + 1;
    }
  }

  /** DriverPoolState.ProtoSize */
  method SizeOfPool(m: PoolState) returns (n: nat)
    ensures n == |PoolBytes(m)|
  {
    hide IntSize;
    PoolSizeExact(m);
    n := SizeOfInt(m.wanted);
    var l := SizeOfInt(m.running);
    n := n + l;
    l := SizeOfInt(m.waiting);
    n := n + l;
    l := SizeOfInt(m.success);
    n := n + l;
    l := SizeOfInt(m.errors);
    n := n + l;
    l := SizeOfInt(m.exited);
    n := n + l;
  }

  /** DriverPoolState.MarshalTo into the buffer from index `i` on: the encoding is written there, and nothing else changes. */
  method MarshalPoolTo(m: PoolState, buf: array<Byte>, i: nat) returns (n: nat)
    requires i + |PoolBytes(m)| <= buf.Length
    modifies buf
    ensures n == |PoolBytes(m)| == PoolSize(m)
    ensures buf[..] == Written(old(buf[..]), i, PoolBytes(m))
  {
    hide IntField, Written, PoolSize;
    PoolSizeExact(m);
    ghost var was := buf[..];
    ghost var a := IntField(0x08, m.wanted);
    ghost var b := a + IntField(0x10, m.running);
    ghost var c := b + IntField(0x18, m.waiting);
    ghost var d := c + IntField(0x20, m.success);
    ghost var e := d + IntField(0x28, m.errors);
    n := PutInt(buf, i, 0x08, m.wanted);
    WrittenTwice(was, i, a, IntField(0x10, m.running));
    n := PutInt(buf, n, 0x10, m.running);
    WrittenTwice(was, i, b, IntField(0x18, m.waiting));
    n := PutInt(buf, n, 0x18, m.waiting);
    WrittenTwice(was, i, c, IntField(0x20, m.success));
    n := PutInt(buf, n, 0x20, m.success);
    WrittenTwice(was, i, d, IntField(0x28, m.errors));
    n := PutInt(buf, n, 0x28, m.errors);
    WrittenTwice(was, i, e, IntField(0x30, m.exited));
    n := PutInt(buf, n, 0x30, m.exited);
    n := n - i;
  }

  /** DriverPoolState.Marshal */
  method MarshalPool(m: PoolState) returns (buf: array<Byte>)
    ensures fresh(buf) && buf[..] == PoolBytes(m)
  {
    var size := SizeOfPool(m);
    buf := new Byte[size](_ => 0);
    var _ := MarshalPoolTo(m, buf, 0);
  }

  /** The loop over a repeated string field. */
  method PutErrors(buf: array<Byte>, i: nat, es: seq<Text>) returns (next: nat)
    requires i + |ErrorsBytes(es)| <= buf.Length
    modifies buf
    ensures next == i + |ErrorsBytes(es)| && buf[..] == Written(old(buf[..]), i, ErrorsBytes(es))
  {
    hide Written, Delimited;
    next := i;
    ghost var done: seq<Byte> := [];
    WrittenNone(buf[..], i);
    var k := 0;
    while k < |es|
      invariant 0 <= k <= |es|
      invariant ErrorsBytes(es) == done + ErrorsBytes(es[k..])
      invariant next == i + |done|
      invariant buf[..] == Written(old(buf[..]), i, done)
    {
      ghost var field := [0x0a] + Delimited(es[k]);
      assert es[k..][1..] == es[k + 1..];
      assert ErrorsBytes(es[k..]) == field + ErrorsBytes(es[k + 1..]);
      WrittenTwice(old(buf[..]), i, done, field);
      next := PutDelimited(buf, next, 0x0a, es[k]);
      done := done + field;
      k := k + 1;
    }
    assert done + [] == done;
  }

  /** The value of a map entry: the nested message is measured first and then written in place. */
  method PutValue(buf: array<Byte>, i: nat, v: Pointer) returns (next: nat)
    requires i + |ValueField(v)| <= buf.Length
    modifies buf
    ensures next == i + |ValueField(v)| && buf[..] == Written(old(buf[..]), i, ValueField(v))
  {
    hide Written, PoolBytes, Varint, PoolSize;
    next := i;
    if v.To? {
      ghost var was := buf[..];
      next := PutByte(buf, next, 0x12);
      var size := SizeOfPool(v.state);
      WrittenTwice(was, i, [0x12], Varint(size));
      next := EncodeVarint(buf, next, size);
      WrittenTwice(was, i, [0x12] + Varint(size), PoolBytes(v.state));
      var n := MarshalPoolTo(v.state, buf, next);
      next := next + n;
      assert [0x12] + Varint(size) + PoolBytes(v.state) == ValueField(v);
    } else {
      WrittenNone(buf[..], i);
    }
  }

  /** The length that is written before an entry, computed before any of it is. */
  method SizeOfEntry(e: Entry) returns (n: nat)
    ensures n == |EntryBytes(e)|
  {
    hide PoolBytes, Varint;
    var l := 0;
    if e.value.To? {
      l := SizeOfPool(e.value.state);
      var lengthSize := SizeOfVarint(l);
      l := l + 1 + lengthSize;
    }
    var keySize := SizeOfVarint(|e.key|);
    n := 1 + |e.key| + keySize + l;
  }

  /** One map entry, in place. */
  method PutEntry(buf: array<Byte>, i: nat, e: Entry) returns (next: nat)
    requires i + 1 + |Delimited(EntryBytes(e))| <= buf.Length
    modifies buf
    ensures next == i + 1 + |Delimited(EntryBytes(e))|
    ensures buf[..] == Written(old(buf[..]), i, [0x1a] + Delimited(EntryBytes(e)))
  {
    hide Written, Varint, ValueField;
    ghost var was := buf[..];
    next := PutByte(buf, i, 0x1a);
    var mapSize := SizeOfEntry(e);
    ghost var length := Varint(mapSize);
    ghost var key := [0x0a] + Delimited(e.key);
    ghost var value := ValueField(e.value);
    assert EntryBytes(e) == key + value;
    assert |Delimited(EntryBytes(e))| == |length| + |key| + |value|;
    WrittenTwice(was, i, [0x1a], length);
    next := EncodeVarint(buf, next, mapSize);
    WrittenTwice(was, i, [0x1a] + length, key);
    next := PutDelimited(buf, next, 0x0a, e.key);
    WrittenTwice(was, i, [0x1a] + length + key, value);
    next := PutValue(buf, next, e.value);
    assert [0x1a] + length + key + value == [0x1a] + Delimited(EntryBytes(e));
  }

  /** The loop over the map, in the order in which `range` yields the keys. */
  method PutEntries(buf: array<Byte>, i: nat, state: map<Text, Pointer>, order: seq<Text>) returns (next: nat)
    requires forall k | k in order :: k in state
    requires i + |EntriesBytes(state, order)| <= buf.Length
    modifies buf
    ensures next == i + |EntriesBytes(state, order)| && buf[..] == Written(old(buf[..]), i, EntriesBytes(state, order))
  {
    hide Written, Delimited, EntryBytes;
    next := i;
    ghost var done: seq<Byte> := [];
    WrittenNone(buf[..], i);
    var k := 0;
    while k < |order|
      invariant 0 <= k <= |order|
      invariant EntriesBytes(state, order) == done + EntriesBytes(state, order[k..])
      invariant next == i + |done|
      invariant buf[..] == Written(old(buf[..]), i, done)
    {
      var e := Entry(order[k], state[order[k]]);
      ghost var field := [0x1a] + Delimited(EntryBytes(e));
      assert order[k..][1..] == order[k + 1..];
      assert EntriesBytes(state, order[k..]) == field + EntriesBytes(state, order[k + 1..]);
      WrittenTwice(old(buf[..]), i, done, field);
      next := PutEntry(buf, next, e);
      done := done + field;
      k := k + 1;
    }
    assert done + [] == done;
  }

  /** DriverPoolStatesResponse.MarshalTo */
  method MarshalResponseTo<T>(std: Std<T>, m: Response<T>, order: seq<Text>, buf: array<Byte>) returns (n: nat)
    requires forall k | k in order :: k in m.state
    requires |ResponseBytes(std, m, order)| <= buf.Length
    modifies buf
    ensures n == |ResponseBytes(std, m, order)| == ResponseSize(std, m, order)
    ensures buf[..] == Written(old(buf[..]), 0, ResponseBytes(std, m, order))
  {
    hide ErrorsBytes, EntriesBytes, ResponseSize, Delimited, Written;
    ResponseSizeExact(std, m, order);
    ghost var was := buf[..];
    var p := std.encode(m.elapsed);
    n := PutErrors(buf, 0, m.errors);
    WrittenTwice(was, 0, ErrorsBytes(m.errors), [0x12] + Delimited(p));
    n := PutDelimited(buf, n, 0x12, p);
    WrittenTwice(was, 0, ErrorsBytes(m.errors) + ([0x12] + Delimited(p)), EntriesBytes(m.state, order));
    n := PutEntries(buf, n, m.state, order);
  }

  method SizeOfErrors(es: seq<Text>) returns (n: nat)
    ensures n == ErrorsSize(es)
  {
    n := 0;
    var k := 0;
    while k < |es|
      invariant 0 <= k <= |es|
      invariant ErrorsSize(es) == n + ErrorsSize(es[k..])
    {
      assert es[k..][1..] == es[k + 1..];
      SovExact(|es[k]|);
      var l := SizeOfVarint(|es[k]|);
      n := n + 1 + |es[k]| + l;
      k := k + 1;
    }
  }

  method SizeOfEntries(state: map<Text, Pointer>, order: seq<Text>) returns (n: nat)
    requires forall k | k in order :: k in state
    ensures n == EntriesSize(state, order)
  {
    hide EntrySize, EntryBytes, Sov, Varint;
    n := 0;
    var k := 0;
    while k < |order|
      invariant 0 <= k <= |order|
      invariant EntriesSize(state, order) == n + EntriesSize(state, order[k..])
    {
      var e := Entry(order[k], state[order[k]]);
      assert order[k..][1..] == order[k + 1..];
      EntrySizeExact(e);
      var size := SizeOfEntry(e);
      SovExact(size);
      var l := SizeOfVarint(size);
      n := n + size + 1 + l;
      k := k + 1;
    }
  }

  /** DriverPoolStatesResponse.ProtoSize */
  method SizeOfResponse<T>(std: Std<T>, m: Response<T>, order: seq<Text>) returns (n: nat)
    requires forall k | k in order :: k in m.state
    ensures n == ResponseSize(std, m, order)
  {
    hide ErrorsSize, EntriesSize, Sov, Varint;
    n := SizeOfErrors(m.errors);
    var l := |std.encode(m.elapsed)|;
    SovExact(l);
    var lengthSize := SizeOfVarint(l);
    n := n + 1 + l + lengthSize;
    var entries := SizeOfEntries(m.state, order);
    n := n + entries;
  }

  /** DriverPoolStatesResponse.Marshal: the map is visited twice, maybe in two orders, and the buffer is exactly filled. */
  method MarshalResponse<T>(std: Std<T>, m: Response<T>, sized: seq<Text>, written: seq<Text>) returns (buf: array<Byte>)
    requires IsOrder(m.state, sized) && IsOrder(m.state, written)
    ensures fresh(buf) && buf[..] == ResponseBytes(std, m, written)
  {
    hide ResponseSize, ResponseBytes;
    ResponseFitsBuffer(std, m, written, sized);
    var size := SizeOfResponse(std, m, sized);
    buf := new Byte[size](_ => 0);
    var _ := MarshalResponseTo(std, m, written, buf);
  }

  // ----- Reading -----

  /** What a 64-bit accumulator holds after more bits: or-ing in shifted bits truncates the sum. */
  lemma Truncated(a: nat, b: nat)
    ensures ((a % TWO64) + b) % TWO64 == (a + b) % TWO64
  {
  }

  /** Seven bits shifted to the place whose weight is `power`. */
  function ShiftLeft(bits: nat, power: nat): nat
  {
    bits * power
  }

  /** Continue a read after `n` bytes that contributed `sum`. */
  ghost function Resumed(sum: nat, power: nat, n: nat, r: Result<Took<nat>>): Result<Took<nat>>
  {
    match r
    case Err(e) => Err(e)
    case Ok(t) => Ok(Took(sum + power * t.got, n + t.n))
  }

  lemma ResumedStep(sum: nat, power: nat, n: nat, low: nat, r: Result<Took<nat>>)
    ensures Resumed(sum, power, n, Resumed(low, 128, 1, r)) == Resumed(sum + ShiftLeft(low, power), power * 128, n + 1, r)
  {
    if r.Ok? {
      var rest := r.value.got;
      assert power * (low + 128 * rest) == power * low + (power * 128) * rest;
    }
  }

  lemma ReadBitsStep(s: seq<Byte>, budget: nat)
    ensures budget == 0 ==> ReadBits(s, budget) == Err(IntOverflow)
    ensures budget > 0 && s == [] ==> ReadBits(s, budget) == Err(UnexpectedEof)
    ensures budget > 0 && s != [] && s[0] < 128 ==> ReadBits(s, budget) == Ok(Took(s[0], 1))
    ensures budget > 0 && s != [] && s[0] >= 128 ==>
              ReadBits(s, budget) == Resumed(s[0] - 128, 128, 1, ReadBits(s[1..], budget - 1))
  {
  }

  lemma ReadFails(s: seq<Byte>, sum: nat, power: nat, n: nat, e: Error)
    requires ReadBits(s, 10) == Resumed(sum, power, n, Err(e))
    ensures Read(s) == Err(e)
  {
  }

  lemma ReadEnds(s: seq<Byte>, sum: nat, power: nat, n: nat, b: Byte)
    requires ReadBits(s, 10) == Resumed(sum, power, n, Ok(Took(b, 1)))
    ensures Read(s) == Ok(Took((sum + ShiftLeft(b, power)) % TWO64, n + 1))
  {
  }

  /** The varint loop that Unmarshal repeats for every tag, length and value. */
  method ReadVarint(data: seq<Byte>, start: nat) returns (r: Result<Took<nat>>)
    requires start <= |data|
    ensures r == Read(data[start..])
  {
    hide Read, ReadBits, Resumed, ShiftLeft;
    var value: nat, power: nat, shift: nat, i: nat := 0, 1, 0, start;
    ghost var sum: nat := 0;
    ghost var n: nat := 0;
    ResumedNone(ReadBits(data[start..], 10));
    while true
      invariant start <= i <= |data| && n == i - start <= 10 && shift == 7 * n
      invariant value == sum % TWO64
      invariant ReadBits(data[start..], 10) == Resumed(sum, power, n, ReadBits(data[i..], 10 - n))
      decreases 10 - n
    {
      ReadBitsStep(data[i..], 10 - n);
      if shift >= 64 {
        ReadFails(data[start..], sum, power, n, IntOverflow);
        return Err(IntOverflow);
      }
      if i >= |data| {
        ReadFails(data[start..], sum, power, n, UnexpectedEof);
        return Err(UnexpectedEof);
      }
      var b := data[i];
      var bits := ShiftLeft(b % 128, power);
      i := i + 1;
      Truncated(sum, bits);
      value := (value + bits) % TWO64;
      if b < 128 {
        ReadEnds(data[start..], sum, power, n, b);
        return Ok(Took(value, i - start));
      }
      assert data[i - 1..][1..] == data[i..];
      ResumedStep(sum, power, n, b - 128, ReadBits(data[i..], 9 - n));
      sum := sum + bits;
      power := power * 128;
      shift := shift + 7;
      n := n + 1;
    }
  }

  lemma ResumedNone(r: Result<Took<nat>>)
    ensures Resumed(0, 1, 0, r) == r
  {
  }
}
