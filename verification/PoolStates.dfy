/** DriverPoolStatesResponse: repeated strings, a library-encoded duration and a map of messages. */
module PoolStates {
  import opened Wire
  import opened Unmarshalling
  import opened Messages
  import opened Instances

  /** A map value is a pointer: it may be nil. */
  datatype Pointer = Nil | To(state: PoolState)

  type Text = seq<Byte>

  datatype Response<T> = Response(errors: seq<Text>, elapsed: T, state: map<Text, Pointer>)

  datatype Entry = Entry(key: Text, value: Pointer)

  // ----- Map entries -----

  /** The inner loop over one map entry of `n` bytes; `s` goes on to the end of the input. */
  function ReadEntry(s: seq<Byte>, n: int, e: Entry): Result<Entry>
    requires n <= |s|
    decreases |s|
  {
    if n <= 0 then Ok(e)
    else match Read(s)
      case Err(x) => Err(x)
      case Ok(t) =>
        var num := FieldNumber(t.got);
        var body := s[t.n..];
        if num == 1 || num == 2 then
          match ReadChunk(body)
          case Err(x) => Err(x)
          case Ok(u) =>
            if num == 1 then ReadEntry(body[u.n..], n - t.n - u.n, e.(key := u.got))
            else match UnmarshalPool(u.got, NO_POOL)
              case Err(x) => Err(x)
              case Ok(p) => ReadEntry(body[u.n..], n - t.n - u.n, e.(value := To(p)))
        else match Skip(s)
          case Err(x) => Err(x)
          case Ok(k) => if k > n then Err(UnexpectedEof) else ReadEntry(s[k..], n - k, e)
  }

  /** One round of the inner loop. */
  lemma ReadEntryStep(s: seq<Byte>, n: int, e: Entry)
    requires n <= |s|
    ensures n <= 0 ==> ReadEntry(s, n, e) == Ok(e)
    ensures n > 0 && Read(s).Err? ==> ReadEntry(s, n, e) == Err(Read(s).error)
    ensures n > 0 && Read(s).Ok? ==> ReadEntry(s, n, e) == AfterTag(s, n, e, Read(s).value)
  {
    hide Read, Skip, FieldNumber, UnmarshalPool, ReadChunk;
  }

  /** What follows the tag `t` of an entry's field: one of the two values, or a field to skip. */
  ghost function AfterTag(s: seq<Byte>, n: int, e: Entry, t: Took<nat>): Result<Entry>
    requires 0 < n <= |s| && Read(s) == Ok(t)
  {
    var num := FieldNumber(t.got);
    if num == 1 || num == 2 then
      match ReadChunk(s[t.n..])
      case Err(x) => Err(x)
      case Ok(u) =>
        if num == 1 then ReadEntry(s[t.n..][u.n..], n - t.n - u.n, e.(key := u.got))
        else
          match UnmarshalPool(u.got, NO_POOL)
          case Err(x) => Err(x)
          case Ok(p) => ReadEntry(s[t.n..][u.n..], n - t.n - u.n, e.(value := To(p)))
    else
      match Skip(s)
      case Err(x) => Err(x)
      case Ok(k) => if k > n then Err(UnexpectedEof) else ReadEntry(s[k..], n - k, e)
  }

  /** What a key, a value or a skipped field leaves to read does not depend on what follows the input. */
  lemma KeyStable(s: seq<Byte>, n: int, e: Entry, t: Took<nat>, ext: seq<Byte>)
    requires 0 < n <= |s| && Read(s) == Ok(t) && Read(s + ext) == Ok(t)
    requires FieldNumber(t.got) == 1 && ReadChunk(s[t.n..]).Ok?
    ensures var u := ReadChunk(s[t.n..]).value;
            && AfterTag(s, n, e, t) == ReadEntry(s[t.n + u.n..], n - t.n - u.n, e.(key := u.got))
            && AfterTag(s + ext, n, e, t) == ReadEntry(s[t.n + u.n..] + ext, n - t.n - u.n, e.(key := u.got))
  {
    hide Read, ReadChunk, FieldNumber, ReadEntry, UnmarshalPool, Skip;
    ChunkStable(s, t, ext);
  }

  lemma ValueStable(s: seq<Byte>, n: int, e: Entry, t: Took<nat>, ext: seq<Byte>)
    requires 0 < n <= |s| && Read(s) == Ok(t) && Read(s + ext) == Ok(t)
    requires FieldNumber(t.got) == 2 && ReadChunk(s[t.n..]).Ok?
    requires UnmarshalPool(ReadChunk(s[t.n..]).value.got, NO_POOL).Ok?
    ensures var u := ReadChunk(s[t.n..]).value;
            var p := UnmarshalPool(u.got, NO_POOL).value;
            && AfterTag(s, n, e, t) == ReadEntry(s[t.n + u.n..], n - t.n - u.n, e.(value := To(p)))
            && AfterTag(s + ext, n, e, t) == ReadEntry(s[t.n + u.n..] + ext, n - t.n - u.n, e.(value := To(p)))
  {
    hide Read, ReadChunk, FieldNumber, ReadEntry, UnmarshalPool, Skip;
    ChunkStable(s, t, ext);
  }

  lemma ChunkStable(s: seq<Byte>, t: Took<nat>, ext: seq<Byte>)
    requires t.n <= |s| && ReadChunk(s[t.n..]).Ok?
    ensures (s + ext)[t.n..] == s[t.n..] + ext && ReadChunk((s + ext)[t.n..]) == ReadChunk(s[t.n..])
    ensures var u := ReadChunk(s[t.n..]).value;
            s[t.n..][u.n..] == s[t.n + u.n..] && (s + ext)[t.n..][u.n..] == s[t.n + u.n..] + ext
  {
    hide ReadChunk;
    assert (s + ext)[t.n..] == s[t.n..] + ext;
    ReadChunkStable(s[t.n..], ext);
  }

  lemma SkippedStable(s: seq<Byte>, n: int, e: Entry, t: Took<nat>, ext: seq<Byte>)
    requires 0 < n <= |s| && Read(s) == Ok(t) && Read(s + ext) == Ok(t)
    requires FieldNumber(t.got) != 1 && FieldNumber(t.got) != 2 && Skip(s).Ok? && Skip(s).value <= n
    ensures var k := Skip(s).value;
            AfterTag(s, n, e, t) == ReadEntry(s[k..], n - k, e) && AfterTag(s + ext, n, e, t) == ReadEntry(s[k..] + ext, n - k, e)
  {
    hide Read, ReadChunk, FieldNumber, ReadEntry, UnmarshalPool, Skip;
    SkipStable(s, ext);
    assert (s + ext)[Skip(s).value..] == s[Skip(s).value..] + ext;
  }

  /** A successful read of one field of an entry, as one of the three cases. */
  lemma AfterTagOk(s: seq<Byte>, n: int, e: Entry, t: Took<nat>)
    requires 0 < n <= |s| && Read(s) == Ok(t) && AfterTag(s, n, e, t).Ok?
    ensures var num := FieldNumber(t.got);
            if num == 1 || num == 2 then
              ReadChunk(s[t.n..]).Ok? && (num == 2 ==> UnmarshalPool(ReadChunk(s[t.n..]).value.got, NO_POOL).Ok?)
            else Skip(s).Ok? && Skip(s).value <= n
  {
    hide Read, ReadChunk, FieldNumber, ReadEntry, UnmarshalPool, Skip;
  }

  lemma {:induction false} ReadEntryStable(s: seq<Byte>, n: int, e: Entry, ext: seq<Byte>)
    requires n <= |s| && ReadEntry(s, n, e).Ok?
    ensures ReadEntry(s + ext, n, e) == ReadEntry(s, n, e)
    decreases |s|
  {
    hide Read, ReadChunk, Skip, UnmarshalPool, FieldNumber, ReadEntry, AfterTag;
    ReadEntryStep(s, n, e);
    ReadEntryStep(s + ext, n, e);
    if n <= 0 {
    } else {
      ReadStable(s, ext);
      var t := Read(s).value;
      var num := FieldNumber(t.got);
      AfterTagOk(s, n, e, t);
      if num == 1 {
        KeyStable(s, n, e, t, ext);
        var u := ReadChunk(s[t.n..]).value;
        ReadEntryStable(s[t.n + u.n..], n - t.n - u.n, e.(key := u.got), ext);
      } else if num == 2 {
        ValueStable(s, n, e, t, ext);
        var u := ReadChunk(s[t.n..]).value;
        ReadEntryStable(s[t.n + u.n..], n - t.n - u.n, e.(value := To(UnmarshalPool(u.got, NO_POOL).value)), ext);
      } else {
        SkippedStable(s, n, e, t, ext);
        ReadEntryStable(s[Skip(s).value..], n - Skip(s).value, e, ext);
      }
    }
  }

  function ValueField(v: Pointer): seq<Byte>
  {
    if v.Nil? then [] else [0x12] + Delimited(PoolBytes(v.state))
  }

  function EntryBytes(e: Entry): seq<Byte>
  {
    [0x0a] + Delimited(e.key) + ValueField(e.value)
  }

  function EntrySize(e: Entry): nat
  {
    var l := if e.value.Nil? then 0 else PoolSize(e.value.state);
    1 + |e.key| + Sov(|e.key|) + (if e.value.Nil? then 0 else l + 1 + Sov(l))
  }

  lemma EntrySizeExact(e: Entry)
    ensures |EntryBytes(e)| == EntrySize(e)
  {
    hide PoolBytes, PoolSize, Sov, Varint;
    SovExact(|e.key|);
    if e.value.To? {
      PoolSizeExact(e.value.state);
      SovExact(PoolSize(e.value.state));
    }
  }

  /** The value part of an entry: nothing for a nil pointer, a nested message otherwise. */
  lemma ReadValue(key: Text, v: Pointer, ext: seq<Byte>)
    requires |ValueField(v)| < TWO63
    ensures ReadEntry(ValueField(v) + ext, |ValueField(v)|, Entry(key, Nil)) == Ok(Entry(key, v))
  {
    hide Read, ReadChunk, Skip, UnmarshalPool, FieldNumber, PoolBytes, Varint;
    if v.To? {
      var p := PoolBytes(v.state);
      var s := ValueField(v) + ext;
      assert s == [0x12] + (Delimited(p) + ext);
      ReadTag(0x12, Delimited(p) + ext);
      assert s[1..] == Delimited(p) + ext;
      ReadChunkExact(p, ext);
      PoolRoundTrip(v.state);
    }
  }

  /** Nested messages round-trip for every entry, nil values and all-zero messages included. */
  lemma ReadEntryExact(e: Entry, ext: seq<Byte>)
    requires |EntryBytes(e)| < TWO63
    ensures ReadEntry(EntryBytes(e) + ext, |EntryBytes(e)|, Entry([], Nil)) == Ok(e)
  {
    hide Read, ReadChunk, Skip, UnmarshalPool, FieldNumber, Varint, ValueField;
    var tail := ValueField(e.value) + ext;
    var s := EntryBytes(e) + ext;
    assert s == [0x0a] + (Delimited(e.key) + tail);
    ReadTag(0x0a, Delimited(e.key) + tail);
    assert s[1..] == Delimited(e.key) + tail;
    ReadChunkExact(e.key, tail);
    assert (Delimited(e.key) + tail)[|Delimited(e.key)|..] == tail;
    ReadValue(e.key, e.value, ext);
  }

  // ----- The switch -----

  /** Field 3: a length and one map entry; whatever the entry used, the length counts. */
  function ReadEntryField(s: seq<Byte>): (r: Result<Took<Entry>>)
    ensures r.Ok? ==> r.value.n <= |s|
  {
    match Read(s)
    case Err(x) => Err(x)
    case Ok(t) =>
      if Signed(t.got) < 0 then Err(InvalidLength)
      else if t.n + t.got > |s| then Err(UnexpectedEof)
      else match ReadEntry(s[t.n..], t.got, Entry([], Nil))
        case Err(x) => Err(x)
        case Ok(e) => Ok(Took(e, t.n + t.got))
  }

  lemma ReadEntryFieldStable(s: seq<Byte>, ext: seq<Byte>)
    requires ReadEntryField(s).Ok?
    ensures ReadEntryField(s + ext) == ReadEntryField(s)
  {
    hide Read, ReadEntry;
    ReadStable(s, ext);
    var t := Read(s).value;
    assert (s + ext)[t.n..] == s[t.n..] + ext;
    ReadEntryStable(s[t.n..], t.got, Entry([], Nil), ext);
  }

  lemma ReadEntryFieldExact(e: Entry)
    requires |EntryBytes(e)| < TWO63
    ensures ReadEntryField(Delimited(EntryBytes(e))) == Ok(Took(e, |Delimited(EntryBytes(e))|))
  {
    hide Read, ReadEntry, Varint, EntryBytes;
    var p := EntryBytes(e);
    VarintRoundTrip(|p|, p);
    assert Delimited(p)[|Varint(|p|)|..] == p;
    ReadEntryExact(e, []);
    assert p + [] == p;
  }

  function ResponseField<T>(std: Std<T>, m: Response<T>, num: int, kind: nat, s: seq<Byte>): Handled<Response<T>>
  {
    if !(1 <= num <= 3) then Unknown
    else if kind != 2 then Known(Err(WrongWireType))
    else if num == 1 then
      match ReadChunk(s)
      case Err(e) => Known(Err(e))
      case Ok(t) => Known(Ok(Took(m.(errors := m.errors + [t.got]), t.n)))
    else if num == 2 then
      match ReadChunk(s)
      case Err(e) => Known(Err(e))
      case Ok(t) =>
        match std.decode(t.got)
        case Err(e) => Known(Err(e))
        case Ok(v) => Known(Ok(Took(m.(elapsed := v), t.n)))
    else
      match ReadEntryField(s)
      case Err(e) => Known(Err(e))
      case Ok(t) => Known(Ok(Took(m.(state := m.state[t.got.key := t.got.value]), t.n)))
  }

  function ResponseHandler<T>(std: Std<T>): Handler<Response<T>>
  {
    (m: Response<T>, num: int, kind: nat, s: seq<Byte>) => ResponseField(std, m, num, kind, s)
  }

  lemma ResponseHandlerSound<T(!new)>(std: Std<T>)
    ensures Fits(ResponseHandler(std)) && Stable(ResponseHandler(std))
  {
    hide ReadChunk, ReadEntryField;
    forall m, num, kind, s, ext
      ensures StableAt(ResponseHandler(std), m, num, kind, s, ext)
    {
      if ReadChunk(s).Ok? {
        ReadChunkStable(s, ext);
      }
      if ReadEntryField(s).Ok? {
        ReadEntryFieldStable(s, ext);
      }
    }
  }

  function UnmarshalResponse<T(!new)>(std: Std<T>, s: seq<Byte>, m: Response<T>): Result<Response<T>>
  {
    ResponseHandlerSound(std);
    Unmarshal(ResponseHandler(std), s, m)
  }

  // ----- Printing, in any iteration order of the map -----

  function ErrorsBytes(es: seq<Text>): seq<Byte>
  {
    if es == [] then [] else [0x0a] + Delimited(es[0]) + ErrorsBytes(es[1..])
  }

  function EntriesBytes(state: map<Text, Pointer>, order: seq<Text>): seq<Byte>
    requires forall k | k in order :: k in state
  {
    if order == [] then []
    else [0x1a] + Delimited(EntryBytes(Entry(order[0], state[order[0]]))) + EntriesBytes(state, order[1..])
  }

  /** An order in which `range` may yield the keys: every key, once. */
  ghost predicate IsOrder(state: map<Text, Pointer>, order: seq<Text>)
  {
    && (forall k :: k in order <==> k in state)
    && (forall i, j | 0 <= i < j < |order| :: order[i] != order[j])
  }

  function ResponseBytes<T>(std: Std<T>, m: Response<T>, order: seq<Text>): seq<Byte>
    requires forall k | k in order :: k in m.state
  {
    ErrorsBytes(m.errors) + ([0x12] + Delimited(std.encode(m.elapsed))) + EntriesBytes(m.state, order)
  }

  function ErrorsSize(es: seq<Text>): nat
  {
    if es == [] then 0 else 1 + |es[0]| + Sov(|es[0]|) + ErrorsSize(es[1..])
  }

  function EntriesSize(state: map<Text, Pointer>, order: seq<Text>): nat
    requires forall k | k in order :: k in state
  {
    if order == [] then 0
    else
      var n := EntrySize(Entry(order[0], state[order[0]]));
      n + 1 + Sov(n) + EntriesSize(state, order[1..])
  }

  function ResponseSize<T>(std: Std<T>, m: Response<T>, order: seq<Text>): nat
    requires forall k | k in order :: k in m.state
  {
    var l := |std.encode(m.elapsed)|;
    ErrorsSize(m.errors) + (1 + l + Sov(l)) + EntriesSize(m.state, order)
  }

  lemma {:induction false} ErrorsSizeExact(es: seq<Text>)
    ensures |ErrorsBytes(es)| == ErrorsSize(es)
  {
    if es == [] {
    } else {
      SovExact(|es[0]|);
      ErrorsSizeExact(es[1..]);
    }
  }

  lemma {:induction false} EntriesSizeExact(state: map<Text, Pointer>, order: seq<Text>)
    requires forall k | k in order :: k in state
    ensures |EntriesBytes(state, order)| == EntriesSize(state, order)
  {
    hide EntryBytes, EntrySize;
    if order == [] {
    } else {
      var e := Entry(order[0], state[order[0]]);
      EntrySizeExact(e);
      SovExact(EntrySize(e));
      EntriesSizeExact(state, order[1..]);
    }
  }

  /** MarshalTo writes exactly ProtoSize bytes, whatever the order. */
  lemma ResponseSizeExact<T>(std: Std<T>, m: Response<T>, order: seq<Text>)
    requires forall k | k in order :: k in m.state
    ensures |ResponseBytes(std, m, order)| == ResponseSize(std, m, order)
  {
    hide ErrorsBytes, EntriesBytes, ErrorsSize, EntriesSize, Sov, Varint;
    ErrorsSizeExact(m.errors);
    EntriesSizeExact(m.state, order);
    SovExact(|std.encode(m.elapsed)|);
  }

  // ----- Sizes do not depend on the order -----

  lemma {:induction false} EntriesSizeWithout(state: map<Text, Pointer>, order: seq<Text>, i: nat)
    requires (forall k | k in order :: k in state) && i < |order|
    ensures forall k | k in order[..i] + order[i + 1..] :: k in state
    ensures EntriesSize(state, order) ==
              EntriesSize(state, [order[i]]) + EntriesSize(state, order[..i] + order[i + 1..])
    decreases i
  {
    hide EntrySize, Sov;
    if i == 0 {
      assert order[..0] + order[1..] == order[1..];
      assert EntriesSize(state, [order[0]][1..]) == 0;
    } else {
      var rest := order[1..];
      EntriesSizeWithout(state, rest, i - 1);
      var without := order[..i] + order[i + 1..];
      assert without[1..] == rest[..i - 1] + rest[i..];
      assert without[0] == order[0];
    }
  }

  /**
   Marshal sizes the buffer in one iteration over the map and fills it in another, and Go may
   iterate in different orders: the sizes agree all the same.
   */
  lemma {:induction false} EntriesSizeAnyOrder(state: map<Text, Pointer>, a: seq<Text>, b: seq<Text>)
    requires (forall k | k in a :: k in state) && (forall k | k in b :: k in state)
    requires multiset(a) == multiset(b)
    ensures EntriesSize(state, a) == EntriesSize(state, b)
    decreases |a|
  {
    hide EntrySize, Sov;
    if a == [] {
      assert |multiset(b)| == 0;
    } else {
      assert a[0] in multiset(b);
      var i :| 0 <= i < |b| && b[i] == a[0];
      var rest := b[..i] + b[i + 1..];
      EntriesSizeWithout(state, b, i);
      RemoveOne(a, 0);
      RemoveOne(b, i);
      assert a[..0] + a[1..] == a[1..];
      EntriesSizeAnyOrder(state, a[1..], rest);
      assert EntriesSize(state, [a[0]][1..]) == 0;
    }
  }

  lemma RemoveOne(s: seq<Text>, i: nat)
    requires i < |s|
    ensures multiset(s[..i] + s[i + 1..]) == multiset(s) - multiset{s[i]}
  {
    assert s == s[..i] + [s[i]] + s[i + 1..];
  }

  lemma {:induction false} OrdersAgree(a: seq<Text>, b: seq<Text>)
    requires forall k :: k in a <==> k in b
    requires forall i, j | 0 <= i < j < |a| :: a[i] != a[j]
    requires forall i, j | 0 <= i < j < |b| :: b[i] != b[j]
    ensures multiset(a) == multiset(b)
  {
    forall k
      ensures multiset(a)[k] == multiset(b)[k]
    {
      CountOnce(a, k);
      CountOnce(b, k);
    }
  }

  lemma {:induction false} CountOnce(s: seq<Text>, k: Text)
    requires forall i, j | 0 <= i < j < |s| :: s[i] != s[j]
    ensures multiset(s)[k] == if k in s then 1 else 0
  {
    if s == [] {
    } else {
      CountOnce(s[1..], k);
      assert s == [s[0]] + s[1..];
    }
  }

  /** What MarshalTo writes in one order is as long as ProtoSize computed in another. */
  lemma ResponseFitsBuffer<T>(std: Std<T>, m: Response<T>, written: seq<Text>, sized: seq<Text>)
    requires IsOrder(m.state, written) && IsOrder(m.state, sized)
    ensures |ResponseBytes(std, m, written)| == ResponseSize(std, m, sized)
  {
    hide ResponseBytes, ErrorsSize, EntriesSize, Sov;
    ResponseSizeExact(std, m, written);
    OrdersAgree(written, sized);
    EntriesSizeAnyOrder(m.state, written, sized);
  }

  // ----- Merging and round trip -----

  lemma ResponseError<T(!new)>(std: Std<T>, m: Response<T>, p: Text)
    requires |p| < TWO63
    ensures UnmarshalResponse(std, [0x0a] + Delimited(p), m) == Ok(m.(errors := m.errors + [p]))
  {
    hide ReadChunk, Delimited;
    ResponseHandlerSound(std);
    ReadChunkExact(p, []);
    assert Delimited(p) + [] == Delimited(p);
    OneField(ResponseHandler(std), 0x0a, Delimited(p), m, m.(errors := m.errors + [p]));
  }

  lemma ResponseElapsed<T(!new)>(std: Std<T>, m: Response<T>, t: T)
    requires Inverse(std)
    ensures UnmarshalResponse(std, [0x12] + Delimited(std.encode(t)), m) == Ok(m.(elapsed := t))
  {
    hide ReadChunk, Delimited;
    ResponseHandlerSound(std);
    var p := std.encode(t);
    assert std.decode(p) == Ok(t) && |p| < TWO63;
    ReadChunkExact(p, []);
    assert Delimited(p) + [] == Delimited(p);
    OneField(ResponseHandler(std), 0x12, Delimited(p), m, m.(elapsed := t));
  }

  lemma ResponseEntry<T(!new)>(std: Std<T>, m: Response<T>, e: Entry)
    requires |EntryBytes(e)| < TWO63
    ensures UnmarshalResponse(std, [0x1a] + Delimited(EntryBytes(e)), m) == Ok(m.(state := m.state[e.key := e.value]))
  {
    hide ReadEntryField, Delimited, EntryBytes;
    ResponseHandlerSound(std);
    ReadEntryFieldExact(e);
    OneField(ResponseHandler(std), 0x1a, Delimited(EntryBytes(e)), m, m.(state := m.state[e.key := e.value]));
  }

  lemma {:induction false} ResponseErrors<T(!new)>(std: Std<T>, m: Response<T>, es: seq<Text>)
    requires |ErrorsBytes(es)| < TWO63
    ensures UnmarshalResponse(std, ErrorsBytes(es), m) == Ok(m.(errors := m.errors + es))
    decreases |es|
  {
    hide Step, ResponseHandler, Varint;
    ResponseHandlerSound(std);
    if es == [] {
      assert m.errors + es == m.errors;
    } else {
      ResponseError(std, m, es[0]);
      var n := m.(errors := m.errors + [es[0]]);
      Split(ResponseHandler(std), [0x0a] + Delimited(es[0]), ErrorsBytes(es[1..]), m);
      ResponseErrors(std, n, es[1..]);
      assert n.errors + es[1..] == m.errors + es;
    }
  }

  /** The part of the map that an order covers. */
  function Covered(state: map<Text, Pointer>, order: seq<Text>): map<Text, Pointer>
  {
    map k | k in order && k in state :: state[k]
  }

  lemma {:induction false} ResponseEntries<T(!new)>(std: Std<T>, m: Response<T>, state: map<Text, Pointer>, order: seq<Text>)
    requires (forall k | k in order :: k in state) && |EntriesBytes(state, order)| < TWO63
    ensures UnmarshalResponse(std, EntriesBytes(state, order), m) == Ok(m.(state := m.state + Covered(state, order)))
    decreases |order|
  {
    hide Unmarshal, ResponseHandler, Varint, EntryBytes, Covered;
    ResponseHandlerSound(std);
    if order == [] {
      assert m.state + Covered(state, order) == m.state by { CoveredNone(state); }
      UnmarshalNothing(ResponseHandler(std), m);
    } else {
      var e := Entry(order[0], state[order[0]]);
      ResponseEntry(std, m, e);
      var n := m.(state := m.state[e.key := e.value]);
      Split(ResponseHandler(std), [0x1a] + Delimited(EntryBytes(e)), EntriesBytes(state, order[1..]), m);
      ResponseEntries(std, n, state, order[1..]);
      CoveredFirst(m.state, state, order);
    }
  }

  lemma CoveredNone(state: map<Text, Pointer>)
    ensures Covered(state, []) == map[]
  {
  }

  lemma CoveredFirst(was: map<Text, Pointer>, state: map<Text, Pointer>, order: seq<Text>)
    requires order != [] && order[0] in state
    ensures was[order[0] := state[order[0]]] + Covered(state, order[1..]) == was + Covered(state, order)
  {
  }

  /** Errors append, the duration is replaced, and map entries replace those with the same key. */
  function MergeResponse<T>(m: Response<T>, u: Response<T>): Response<T>
  {
    Response(m.errors + u.errors, u.elapsed, m.state + u.state)
  }

  lemma ResponseMerges<T(!new)>(std: Std<T>, m: Response<T>, u: Response<T>, order: seq<Text>)
    requires Inverse(std) && IsOrder(u.state, order) && |ResponseBytes(std, u, order)| < TWO63
    ensures UnmarshalResponse(std, ResponseBytes(std, u, order), m) == Ok(MergeResponse(m, u))
  {
    hide Unmarshal, ResponseHandler, ErrorsBytes, EntriesBytes, Delimited, Inverse;
    ResponseHandlerSound(std);
    var f := ResponseHandler(std);
    var a, b, c := ErrorsBytes(u.errors), [0x12] + Delimited(std.encode(u.elapsed)), EntriesBytes(u.state, order);
    ResponseErrors(std, m, u.errors);
    var m1 := m.(errors := m.errors + u.errors);
    Split(f, a, b, m);
    ResponseElapsed(std, m1, u.elapsed);
    var m2 := m1.(elapsed := u.elapsed);
    Split(f, a + b, c, m);
    ResponseEntries(std, m2, u.state, order);
    assert Covered(u.state, order) == u.state;
  }

  /** Every response round-trips, in every iteration order. */
  lemma ResponseRoundTrip<T(!new)>(std: Std<T>, zero: T, m: Response<T>, order: seq<Text>)
    requires Inverse(std) && IsOrder(m.state, order) && |ResponseBytes(std, m, order)| < TWO63
    ensures UnmarshalResponse(std, ResponseBytes(std, m, order), Response([], zero, map[])) == Ok(m)
  {
    hide UnmarshalResponse, ResponseBytes, Inverse;
    ResponseMerges(std, Response([], zero, map[]), m, order);
    assert [] + m.errors == m.errors && map[] + m.state == m.state;
  }
}
