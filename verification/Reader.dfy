/**
 The reading loops of the generated code (daemon/protocol/generated.pb.go): skipGenerated and
 the Unmarshal methods, with their running index, proved against the specifications.
 */
module Reader {
  import opened Wire
  import opened Unmarshalling
  import opened Messages
  import opened Instances
  import opened PoolStates
  import opened Marshal

  ghost function Plus(k: nat, r: Result<nat>): Result<nat>
  {
    match r
    case Err(e) => Err(e)
    case Ok(v) => Ok(k + v)
  }

  /** skipGenerated. It panics on empty input; every caller has just read a tag from it. */
  method SkipField(data: seq<Byte>) returns (r: Result<nat>)
    requires data != []
    ensures r == Skip(data)
    decreases |data|
  {
    hide Read, ReadBits, SkipGroup;
    var tag := ReadVarint(data, 0);
    assert data[0..] == data;
    if tag.Err? {
      return Err(tag.error);
    }
    var i := tag.value.n;
    var kind := tag.value.got % 8;
    if kind == 0 {
      var v := ReadVarint(data, i);
      SameFailure(data[i..]);
      return if v.Err? then Err(v.error) else Ok(i + v.value.n);
    } else if kind == 1 {
      return Ok(i + 8);
    } else if kind == 2 {
      var len := ReadVarint(data, i);
      if len.Err? {
        return Err(len.error);
      }
      return if Signed(len.value.got) < 0 then Err(InvalidLength) else Ok(i + len.value.n + len.value.got);
    } else if kind == 3 {
      ghost var start := i;
      while true
        invariant start <= i <= |data|
        invariant Plus(start, SkipGroup(data[start..])) == Plus(i, SkipGroup(data[i..]))
        decreases |data| - i
      {
        SkipGroupStep(data[i..]);
        var inner := ReadVarint(data, i);
        if inner.Err? {
          return Err(inner.error);
        }
        if inner.value.got % 8 == 4 {
          return Ok(i + inner.value.n);
        }
        var next := SkipField(data[i..]);
        if next.Err? {
          return Err(next.error);
        }
        if i + next.value > |data| {
          return Err(UnexpectedEof);
        }
        assert data[i..][next.value..] == data[i + next.value..];
        i := i + next.value;
      }
    } else if kind == 4 {
      return Ok(i);
    } else if kind == 5 {
      return Ok(i + 4);
    } else {
      return Err(IllegalWireType);
    }
  }

  lemma SkipGroupStep(s: seq<Byte>)
    ensures SkipGroup(s) ==
              if Read(s).Err? then Err(Read(s).error)
              else if Read(s).value.got % 8 == 4 then Ok(Read(s).value.n)
              else if Skip(s).Err? then Err(Skip(s).error)
              else if Skip(s).value > |s| then Err(UnexpectedEof)
              else Plus(Skip(s).value, SkipGroup(s[Skip(s).value..]))
  {
    hide Read, Skip;
  }

  /** Reading a value and only stepping over it fail alike and take the same bytes. */
  lemma SameFailure(s: seq<Byte>)
    ensures Read(s).Err? <==> ReadBits(s, 10).Err?
    ensures Read(s).Err? ==> Read(s).error == ReadBits(s, 10).error
    ensures Read(s).Ok? ==> Read(s).value.n == ReadBits(s, 10).value.n
  {
  }

  /** The default branch of every switch. */
  method SkipUnknown(data: seq<Byte>, i: nat) returns (r: Result<nat>)
    requires i < |data|
    ensures Skip(data[i..]).Err? ==> r == Err(Skip(data[i..]).error)
    ensures Skip(data[i..]).Ok? ==>
              r == if Skip(data[i..]).value > |data| - i then Err(UnexpectedEof) else Ok(i + Skip(data[i..]).value)
  {
    var skipped := SkipField(data[i..]);
    if skipped.Err? {
      return Err(skipped.error);
    }
    return if i + skipped.value > |data| then Err(UnexpectedEof) else Ok(i + skipped.value);
  }

  /** A length and the index range it delimits. */
  method ReadRange(data: seq<Byte>, i: nat) returns (r: Result<(nat, nat)>)
    requires i <= |data|
    ensures Read(data[i..]).Err? ==> r == Err(Read(data[i..]).error)
    ensures Read(data[i..]).Ok? ==>
              var t := Read(data[i..]).value;
              r == if Signed(t.got) < 0 then Err(InvalidLength)
                   else if i + t.n + t.got > |data| then Err(UnexpectedEof)
                   else Ok((i + t.n, i + t.n + t.got))
  {
    var len := ReadVarint(data, i);
    if len.Err? {
      return Err(len.error);
    }
    if Signed(len.value.got) < 0 {
      return Err(InvalidLength);
    }
    var from, to := i + len.value.n, i + len.value.n + len.value.got;
    return if to > |data| then Err(UnexpectedEof) else Ok((from, to));
  }

  lemma RangeIsChunk(data: seq<Byte>, i: nat)
    requires i <= |data| && Read(data[i..]).Ok? && Signed(Read(data[i..]).value.got) >= 0
    requires i + Read(data[i..]).value.n + Read(data[i..]).value.got <= |data|
    ensures var t := Read(data[i..]).value;
            ReadChunk(data[i..]) == Ok(Took(data[i + t.n..i + t.n + t.got], t.n + t.got))
  {
    hide Read;
    var t := Read(data[i..]).value;
    assert data[i..][t.n..t.n + t.got] == data[i + t.n..i + t.n + t.got];
  }

  // ----- DriverPoolState -----

  /** DriverPoolState.Unmarshal */
  method UnmarshalPoolFrom(data: seq<Byte>, receiver: PoolState) returns (r: Result<PoolState>)
    ensures r == UnmarshalPool(data, receiver)
  {
    hide Read, Skip, FieldNumber, SetPool, Unmarshal;
    PoolFieldSound();
    var m, i := receiver, 0;
    assert data[0..] == data;
    while i < |data|
      invariant i <= |data|
      invariant UnmarshalPool(data, receiver) == UnmarshalPool(data[i..], m)
    {
      UnmarshalStep(PoolField, data[i..], m);
      var tag := ReadVarint(data, i);
      if tag.Err? {
        return Err(tag.error);
      }
      var kind, num, j := tag.value.got % 8, FieldNumber(tag.value.got), i + tag.value.n;
      assert data[i..][tag.value.n..] == data[j..];
      if kind == 4 {
        return Err(EndGroup);
      }
      if num <= 0 {
        return Err(IllegalTag);
      }
      if 1 <= num <= 6 {
        if kind != 0 {
          return Err(WrongWireType);
        }
        var v := ReadVarint(data, j);
        if v.Err? {
          return Err(v.error);
        }
        m := SetPool(m, num, Signed(v.value.got));
        assert data[i..][tag.value.n + v.value.n..] == data[j + v.value.n..];
        i := j + v.value.n;
      } else {
        var next := SkipUnknown(data, i);
        if next.Err? {
          return Err(next.error);
        }
        assert data[i..][next.value - i..] == data[next.value..];
        i := next.value;
      }
    }
    assert data[i..] == [];
    UnmarshalNothing(PoolField, m);
    return Ok(m);
  }

  lemma UnmarshalStep<M(!new)>(f: Handler<M>, s: seq<Byte>, m: M)
    requires Fits(f) && s != []
    ensures Step(f, s, m).Err? ==> Unmarshal(f, s, m) == Err(Step(f, s, m).error)
    ensures Step(f, s, m).Ok? ==>
              && Step(f, s, m).value.n <= |s|
              && Unmarshal(f, s, m) == Unmarshal(f, s[Step(f, s, m).value.n..], Step(f, s, m).value.got)
  {
    hide Step, Fits;
    if Step(f, s, m).Ok? {
      StepFits(f, s, m);
    }
  }

  // ----- DriverPoolStatesResponse -----

  /** The inner loop over one map entry, which ends at index `end`. */
  method ReadEntryAt(data: seq<Byte>, start: nat, end: nat) returns (r: Result<Entry>)
    requires start <= end <= |data|
    ensures r == ReadEntry(data[start..], end - start, Entry([], Nil))
  {
    hide Read, Skip, FieldNumber, UnmarshalPool, ReadChunk, ReadEntry;
    var e, i := Entry([], Nil), start;
    while i < end
      invariant start <= i <= |data|
      invariant ReadEntry(data[start..], end - start, Entry([], Nil)) == ReadEntry(data[i..], end - i, e)
    {
      ReadEntryStep(data[i..], end - i, e);
      var tag := ReadVarint(data, i);
      if tag.Err? {
        return Err(tag.error);
      }
      var num, j := FieldNumber(tag.value.got), i + tag.value.n;
      assert data[i..][tag.value.n..] == data[j..];
      if num == 1 || num == 2 {
        var range := ReadRange(data, j);
        ReadChunkFails(data[j..]);
        if range.Err? {
          return Err(range.error);
        }
        var (from, to) := range.value;
        RangeIsChunk(data, j);
        assert data[j..][to - j..] == data[to..];
        if num == 1 {
          e := e.(key := data[from..to]);
        } else {
          var p := UnmarshalPoolFrom(data[from..to], NO_POOL);
          if p.Err? {
            return Err(p.error);
          }
          e := e.(value := To(p.value));
        }
        i := to;
      } else {
        var skipped := SkipField(data[i..]);
        if skipped.Err? {
          return Err(skipped.error);
        }
        if i + skipped.value > end {
          return Err(UnexpectedEof);
        }
        assert data[i..][skipped.value..] == data[i + skipped.value..];
        i := i + skipped.value;
      }
    }
    ReadEntryStep(data[i..], end - i, e);
    return Ok(e);
  }

  lemma ReadChunkFails(s: seq<Byte>)
    ensures Read(s).Err? ==> ReadChunk(s) == Err(Read(s).error)
    ensures Read(s).Ok? && Signed(Read(s).value.got) < 0 ==> ReadChunk(s) == Err(InvalidLength)
    ensures Read(s).Ok? && Signed(Read(s).value.got) >= 0 && Read(s).value.n + Read(s).value.got > |s| ==>
              ReadChunk(s) == Err(UnexpectedEof)
  {
    hide Read;
  }

  /** The switch of DriverPoolStatesResponse.Unmarshal. */
  method ResponseFieldAt<T>(std: Std<T>, receiver: Response<T>, num: int, kind: nat, data: seq<Byte>, i: nat)
      returns (r: Result<Took<Response<T>>>)
    requires 1 <= num <= 3 && i <= |data|
    ensures ResponseField(std, receiver, num, kind, data[i..]) == Known(r)
  {
    hide Read, ReadChunk, ReadEntry;
    if kind != 2 {
      return Err(WrongWireType);
    }
    var range := ReadRange(data, i);
    ReadChunkFails(data[i..]);
    if range.Err? {
      return Err(range.error);
    }
    var (from, to) := range.value;
    RangeIsChunk(data, i);
    if num == 1 {
      return Ok(Took(receiver.(errors := receiver.errors + [data[from..to]]), to - i));
    } else if num == 2 {
      var v := std.decode(data[from..to]);
      return if v.Err? then Err(v.error) else Ok(Took(receiver.(elapsed := v.value), to - i));
    } else {
      assert data[i..][from - i..] == data[from..];
      var e := ReadEntryAt(data, from, to);
      return if e.Err? then Err(e.error)
        else Ok(Took(receiver.(state := receiver.state[e.value.key := e.value.value]), to - i));
    }
  }

  /** DriverPoolStatesResponse.Unmarshal */
  method UnmarshalResponseFrom<T(!new)>(std: Std<T>, data: seq<Byte>, receiver: Response<T>) returns (r: Result<Response<T>>)
    ensures r == UnmarshalResponse(std, data, receiver)
  {
    hide Read, Skip, FieldNumber, Unmarshal, ReadChunk, ReadEntryField;
    ResponseHandlerSound(std);
    var m, i := receiver, 0;
    assert data[0..] == data;
    while i < |data|
      invariant i <= |data|
      invariant UnmarshalResponse(std, data, receiver) == UnmarshalResponse(std, data[i..], m)
    {
      UnmarshalStep(ResponseHandler(std), data[i..], m);
      var tag := ReadVarint(data, i);
      if tag.Err? {
        return Err(tag.error);
      }
      var kind, num, j := tag.value.got % 8, FieldNumber(tag.value.got), i + tag.value.n;
      assert data[i..][tag.value.n..] == data[j..];
      if kind == 4 {
        return Err(EndGroup);
      }
      if num <= 0 {
        return Err(IllegalTag);
      }
      if 1 <= num <= 3 {
        var field := ResponseFieldAt(std, m, num, kind, data, j);
        if field.Err? {
          return Err(field.error);
        }
        assert data[i..][tag.value.n + field.value.n..] == data[j + field.value.n..];
        m := field.value.got;
        i := j + field.value.n;
      } else {
        var next := SkipUnknown(data, i);
        if next.Err? {
          return Err(next.error);
        }
        assert data[i..][next.value - i..] == data[next.value..];
        i := next.value;
      }
    }
    assert data[i..] == [];
    UnmarshalNothing(ResponseHandler(std), m);
    return Ok(m);
  }

  // ----- The packed branch of DriverInstanceState -----

  method ReadPackedAt(data: seq<Byte>, start: nat, end: nat) returns (r: Result<Took<seq<Int64>>>)
    requires start <= end <= |data|
    ensures r == ReadPacked(data[start..], end - start)
  {
    hide Read, ReadPacked, After;
    var vs: seq<Int64>, i := [], start;
    AfterEnds(ReadPacked(data[start..], end - start), [], 0);
    while i < end
      invariant start <= i <= |data|
      invariant ReadPacked(data[start..], end - start) == After(vs, i - start, ReadPacked(data[i..], end - i))
    {
      ReadPackedStep(data[i..], end - i);
      AfterEnds(ReadPacked(data[i..], end - i), vs, i - start);
      var v := ReadVarint(data, i);
      if v.Err? {
        return Err(v.error);
      }
      assert data[i..][v.value.n..] == data[i + v.value.n..];
      AfterOne(vs, i - start, Signed(v.value.got), v.value.n, ReadPacked(data[i + v.value.n..], end - i - v.value.n));
      vs := vs + [Signed(v.value.got)];
      i := i + v.value.n;
    }
    ReadPackedStep(data[i..], end - i);
    AfterEnds(ReadPacked(data[i..], end - i), vs, i - start);
    return Ok(Took(vs, i - start));
  }

  lemma ReadPackedStep(s: seq<Byte>, n: int)
    ensures n <= 0 ==> ReadPacked(s, n) == Ok(Took([], 0))
    ensures n > 0 && Read(s).Err? ==> ReadPacked(s, n) == Err(Read(s).error)
    ensures n > 0 && Read(s).Ok? ==>
              ReadPacked(s, n) ==
              After([Signed(Read(s).value.got)], Read(s).value.n, ReadPacked(s[Read(s).value.n..], n - Read(s).value.n))
  {
    hide Read;
  }

  /** Continue a packed read after `vs`, which took `n` bytes. */
  ghost function After(vs: seq<Int64>, n: nat, r: Result<Took<seq<Int64>>>): Result<Took<seq<Int64>>>
  {
    match r
    case Err(e) => Err(e)
    case Ok(t) => Ok(Took(vs + t.got, n + t.n))
  }

  lemma AfterEnds(r: Result<Took<seq<Int64>>>, vs: seq<Int64>, n: nat)
    ensures After([], 0, r) == r
    ensures r.Err? ==> After(vs, n, r) == Err(r.error)
    ensures r == Ok(Took([], 0)) ==> After(vs, n, r) == Ok(Took(vs, n))
  {
    if r.Ok? {
      assert [] + r.value.got == r.value.got;
      assert vs + [] == vs;
    }
  }

  lemma AfterOne(vs: seq<Int64>, n: nat, v: Int64, k: nat, r: Result<Took<seq<Int64>>>)
    ensures After(vs, n, After([v], k, r)) == After(vs + [v], n + k, r)
  {
    if r.Ok? {
      assert vs + ([v] + r.value.got) == vs + [v] + r.value.got;
    }
  }
}
