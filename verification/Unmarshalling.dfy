/**
 The loop that every generated Unmarshal method runs (daemon/protocol/generated.pb.go), over
 the switch on field numbers that differs from message to message, and what holds of it for
 every message: inputs may be cut at field boundaries, and unknown fields do not matter.
 */
module Unmarshalling {
  import opened Wire

  /** What the switch does with a field body: an unknown field is left to skipGenerated. */
  datatype Handled<M> = Unknown | Known(r: Result<Took<M>>)

  /** The switch: message so far, field number, wire type, and the bytes after the tag. */
  type Handler<!M> = (M, int, nat, seq<Byte>) -> Handled<M>

  /** int32(wire >> 3) */
  function FieldNumber(wire: nat): int
  {
    var n := (wire / 8) % 0x1_0000_0000;
    if n < 0x8000_0000 then n else n - 0x1_0000_0000
  }

  function Step<M>(f: Handler<M>, s: seq<Byte>, m: M): (r: Result<Took<M>>)
    ensures r.Ok? ==> r.value.n >= 1
  {
    match Read(s)
    case Err(e) => Err(e)
    case Ok(t) =>
      var kind := t.got % 8;
      var num := FieldNumber(t.got);
      if kind == 4 then Err(EndGroup)
      else if num <= 0 then Err(IllegalTag)
      else match f(m, num, kind, s[t.n..])
        case Known(Err(e)) => Err(e)
        case Known(Ok(u)) => Ok(Took(u.got, t.n + u.n))
        case Unknown =>
          match Skip(s)
          case Err(e) => Err(e)
          case Ok(k) => if k > |s| then Err(UnexpectedEof) else Ok(Took(m, k))
  }

  /** A handler never claims more bytes than there are. */
  ghost predicate Fits<M(!new)>(f: Handler<M>)
  {
    forall m, num, kind, s :: f(m, num, kind, s).Known? && f(m, num, kind, s).r.Ok? ==> f(m, num, kind, s).r.value.n <= |s|
  }

  ghost predicate StableAt<M>(f: Handler<M>, m: M, num: int, kind: nat, s: seq<Byte>, ext: seq<Byte>)
  {
    && (f(m, num, kind, s).Unknown? ==> f(m, num, kind, s + ext).Unknown?)
    && (f(m, num, kind, s).Known? && f(m, num, kind, s).r.Ok? ==> f(m, num, kind, s + ext) == f(m, num, kind, s))
  }

  /** What a handler accepts does not depend on what follows. */
  ghost predicate Stable<M(!new)>(f: Handler<M>)
  {
    forall m, num, kind, s, ext :: StableAt(f, m, num, kind, s, ext)
  }

  function Unmarshal<M(!new)>(f: Handler<M>, s: seq<Byte>, m: M): Result<M>
    requires Fits(f)
    decreases |s|
  {
    if s == [] then Ok(m)
    else match Step(f, s, m)
      case Err(e) => Err(e)
      case Ok(t) => Unmarshal(f, Rest(f, s, m), t.got)
  }

  /** The input after the field that Step accepted. */
  function Rest<M(!new)>(f: Handler<M>, s: seq<Byte>, m: M): (r: seq<Byte>)
    requires Fits(f) && Step(f, s, m).Ok?
    ensures Step(f, s, m).value.n <= |s| && r == s[Step(f, s, m).value.n..] && |r| < |s|
  {
    StepFits(f, s, m);
    s[Step(f, s, m).value.n..]
  }

  lemma StepFits<M(!new)>(f: Handler<M>, s: seq<Byte>, m: M)
    requires Fits(f) && Step(f, s, m).Ok?
    ensures 1 <= Step(f, s, m).value.n <= |s|
  {
    hide Read, Skip;
  }

  lemma StepStable<M(!new)>(f: Handler<M>, s: seq<Byte>, m: M, ext: seq<Byte>)
    requires Fits(f) && Stable(f) && Step(f, s, m).Ok?
    ensures Step(f, s + ext, m) == Step(f, s, m)
  {
    hide Read, Skip, FieldNumber;
    StepFits(f, s, m);
    ReadStable(s, ext);
    var t := Read(s).value;
    assert (s + ext)[t.n..] == s[t.n..] + ext;
    assert StableAt(f, m, FieldNumber(t.got), t.got % 8, s[t.n..], ext);
    if f(m, FieldNumber(t.got), t.got % 8, s[t.n..]).Unknown? {
      SkipStable(s, ext);
    }
  }

  lemma UnmarshalNothing<M(!new)>(f: Handler<M>, m: M)
    requires Fits(f)
    ensures Unmarshal(f, [], m) == Ok(m)
  {
  }

  /**
   Unmarshalling a concatenation is unmarshalling its second part into what the first part
   gave: messages merge.
   */
  lemma {:induction false} Split<M(!new)>(f: Handler<M>, a: seq<Byte>, b: seq<Byte>, m: M)
    requires Fits(f) && Stable(f) && Unmarshal(f, a, m).Ok?
    ensures Unmarshal(f, a + b, m) == Unmarshal(f, b, Unmarshal(f, a, m).value)
    decreases |a|
  {
    hide Step, Stable, Fits;
    if a == [] {
      assert a + b == b;
    } else {
      StepStable(f, a, m, b);
      StepFits(f, a, m);
      var t := Step(f, a, m).value;
      assert (a + b)[t.n..] == a[t.n..] + b;
      Split(f, a[t.n..], b, t.got);
    }
  }

  /** The handler knows nothing of this field number. */
  ghost predicate Ignores<M(!new)>(f: Handler<M>, num: int)
  {
    forall m, kind, s :: f(m, num, kind, s).Unknown?
  }

  /** An unknown well-formed field, however nested, is passed over. */
  lemma UnknownPassed<M(!new)>(f: Handler<M>, g: Field, m: M)
    requires Fits(f) && WellFormed(g)
    requires FieldNumber(Read(g.tag).value.got) > 0 && Ignores(f, FieldNumber(Read(g.tag).value.got))
    ensures Unmarshal(f, Bytes(g), m) == Ok(m)
  {
    hide Read, Skip, FieldNumber, Bytes;
    TagFirst(g, []);
    SkipExact(g, []);
    assert Bytes(g) + [] == Bytes(g);
    assert Step(f, Bytes(g), m) == Ok(Took(m, |Bytes(g)|));
    assert Bytes(g)[|Bytes(g)|..] == [];
  }

  /** Inserting an unknown field after any accepted part does not change the result. */
  lemma UnknownInserted<M(!new)>(f: Handler<M>, a: seq<Byte>, g: Field, b: seq<Byte>, m: M)
    requires Fits(f) && Stable(f) && WellFormed(g) && Unmarshal(f, a, m).Ok?
    requires FieldNumber(Read(g.tag).value.got) > 0 && Ignores(f, FieldNumber(Read(g.tag).value.got))
    ensures Unmarshal(f, a + Bytes(g) + b, m) == Unmarshal(f, a + b, m)
  {
    hide Unmarshal, Read, FieldNumber, Bytes, Stable, Fits;
    var n := Unmarshal(f, a, m).value;
    Split(f, a, b, m);
    Split(f, a, Bytes(g), m);
    UnknownPassed(f, g, n);
    Split(f, a + Bytes(g), b, m);
  }

  /** One known field on its own. */
  lemma OneField<M(!new)>(f: Handler<M>, tag: Byte, body: seq<Byte>, m: M, n: M)
    requires Fits(f) && tag < 128 && tag % 8 != 4 && tag / 8 > 0
    requires f(m, tag / 8, tag % 8, body) == Known(Ok(Took(n, |body|)))
    ensures Unmarshal(f, [tag] + body, m) == Ok(n)
  {
    hide Read, Skip;
    var s := [tag] + body;
    ReadTag(tag, body);
    assert s[1..] == body;
    assert Step(f, s, m) == Ok(Took(n, |s|));
    assert s[|s|..] == [];
  }

  /** The field numbers of these messages fit into one byte of tag. */
  lemma ReadTag(tag: Byte, ext: seq<Byte>)
    requires tag < 128
    ensures Read([tag] + ext) == Ok(Took(tag, 1))
    ensures FieldNumber(tag) == tag / 8
  {
  }
}
