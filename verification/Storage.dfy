/**
 The store of installed driver images (runtime/storage.go). Below the base directory of an
 image, an installed version is a root directory named by its digest, next to a
 configuration file of the same name. Any filesystem operation may fail, and then the
 operation that called it stops where it is.

 Base directories are named by a hash of the image name, taken to be injective: the model
 uses the image name itself.
 */
module Storage {

  type Image = string
  type Name = string                       // of a root directory: the digest in hexadecimal
  type Byte = b: int | 0 <= b < 256
  type Digest = seq<Byte>

  /** An unpacked root directory; without a manifest it is not a driver. */
  datatype Tree = Tree(manifest: Manifest)
  datatype Manifest = Missing | Manifest(language: string)

  datatype Base = Base(roots: map<Name, Tree>, configs: map<Name, string>)

  type Disk = map<Image, Base>

  const EMPTY_BASE := Base(map[], map[])

  function BaseOf(disk: Disk, img: Image): Base
  {
    if img in disk then disk[img] else EMPTY_BASE
  }

  // ----- Digests as directory names -----

  function Digit(n: int): char
    requires 0 <= n < 16
  {
    "0123456789abcdef"[n]
  }

  function FromDigit(c: char): int
  {
    if '0' <= c <= '9' then c as int - '0' as int
    else if 'a' <= c <= 'f' then c as int - 'a' as int + 10
    else if 'A' <= c <= 'F' then c as int - 'A' as int + 10
    else -1
  }

  /** Digest.String */
  function Hex(d: Digest): Name
  {
    if d == [] then "" else [Digit(d[0] / 16), Digit(d[0] % 16)] + Hex(d[1..])
  }

  /** NewDigest; decoding stops at the first malformed pair, and its error is ignored. */
  function ParseDigest(s: Name): Digest
  {
    if |s| < 2 || FromDigit(s[0]) < 0 || FromDigit(s[1]) < 0 then []
    else [FromDigit(s[0]) * 16 + FromDigit(s[1])] + ParseDigest(s[2..])
  }

  lemma DigitRoundTrip(n: int)
    requires 0 <= n < 16
    ensures FromDigit(Digit(n)) == n
  {
  }

  lemma HexFirst(d: Digest, rest: Name)
    requires d != []
    ensures var s := Hex(d) + rest;
            && |s| >= 2 && s[2..] == Hex(d[1..]) + rest
            && FromDigit(s[0]) == d[0] / 16 && FromDigit(s[1]) == d[0] % 16
  {
    hide Digit, FromDigit;
    var high, low, tail := Digit(d[0] / 16), Digit(d[0] % 16), Hex(d[1..]);
    assert Hex(d) == [high, low] + tail;
    hide Hex;
    DigitRoundTrip(d[0] / 16);
    DigitRoundTrip(d[0] % 16);
    Shift(high, low, tail, rest);
  }

  lemma Shift(a: char, b: char, tail: Name, rest: Name)
    ensures var s := [a, b] + tail + rest; |s| >= 2 && s[0] == a && s[1] == b && s[2..] == tail + rest
  {
  }

  /** A directory name is read as far as it is well formed. */
  lemma {:induction false} ParsePrefix(d: Digest, rest: Name)
    ensures ParseDigest(Hex(d) + rest) == d + ParseDigest(rest)
  {
    hide FromDigit;
    if d == [] {
      assert Hex(d) + rest == rest && d + ParseDigest(rest) == ParseDigest(rest);
    } else {
      HexFirst(d, rest);
      ParsePrefix(d[1..], rest);
      assert d == [d[0]] + d[1..];
    }
  }

  lemma DigestRoundTrip(d: Digest)
    ensures ParseDigest(Hex(d)) == d
  {
    hide Hex, ParseDigest;
    ParsePrefix(d, "");
    assert Hex(d) + "" == Hex(d);
    ParseNothing("");
    assert d + [] == d;
  }

  lemma ParseNothing(rest: Name)
    requires |rest| < 2 || FromDigit(rest[0]) < 0 || FromDigit(rest[1]) < 0
    ensures ParseDigest(rest) == []
  {
  }

  /** A digit in either letter case, and nothing else, has a value. */
  lemma FromDigitIff(c: char)
    ensures FromDigit(c) >= 0 <==> c in "0123456789abcdefABCDEF"
    ensures forall n | 0 <= n < 16 :: FromDigit(c) == n <==> c == "0123456789abcdef"[n] || c == "0123456789ABCDEF"[n]
  {
  }

  // ----- What the operations change -----

  /** The changes an operation makes below one image base, each one filesystem call. */
  datatype Change = DropConfig(n: Name) | DropRoot(n: Name) | PutConfig(n: Name, reference: string) | PutRoot(n: Name, tree: Tree)

  function Make(b: Base, c: Change): Base
  {
    match c
    case DropConfig(n) => b.(configs := b.configs - {n})
    case DropRoot(n) => b.(roots := b.roots - {n})
    case PutConfig(n, reference) => b.(configs := b.configs[n := reference])
    case PutRoot(n, tree) => b.(roots := b.roots[n := tree])
  }

  function MakeAll(b: Base, cs: seq<Change>): Base
    decreases |cs|
  {
    if cs == [] then b else MakeAll(Make(b, cs[0]), cs[1..])
  }

  datatype Package = Package(reference: string, digest: Digest, manifest: Manifest)

  datatype Op = Install(pkg: Package, update: bool) | Remove

  /** All changes of an operation that no failure interrupts. */
  function Changes(b: Base, op: Op): seq<Change>
  {
    var dropped := if |b.roots| == 1 then var n := Only(b.roots.Keys); [DropConfig(n), DropRoot(n)] else [];
    match op
    case Remove => dropped
    case Install(pkg, update) =>
      if |b.roots| > 1 || (|b.roots| == 1 && !update) then []
      else dropped + (if pkg.manifest.Missing? then []
                      else [PutConfig(Hex(pkg.digest), pkg.reference), PutRoot(Hex(pkg.digest), Tree(pkg.manifest))])
  }

  function Only(s: set<Name>): (n: Name)
    requires |s| == 1
    ensures s == {n}
  {
    Singleton(s);
    var n :| n in s && s == {n};
    n
  }

  lemma Singleton(s: set<Name>)
    requires |s| == 1
    ensures exists n :: n in s && s == {n}
  {
    var n :| n in s;
    assert |s - {n}| == 0;
    assert s == {n};
  }

  /**
   The base after the operation was interrupted: some first changes were made; and the
   removal of a root, if that is what failed, left a directory with whatever in it.
   */
  function Interrupted(b: Base, cs: seq<Change>, made: nat, wreck: Tree): Base
    requires made <= |cs|
  {
    var t := MakeAll(b, cs[..made]);
    if made < |cs| && cs[made].DropRoot? && cs[made].n in t.roots then t.(roots := t.roots[cs[made].n := wreck]) else t
  }

  // ----- Never dirty -----

  /** "only one version per image can be stored": anything else makes every operation fail. */
  predicate Clean(b: Base)
  {
    |b.roots| <= 1
  }

  lemma TwoChanges(b: Base, c: Change, d: Change)
    ensures MakeAll(b, [c]) == Make(b, c)
    ensures MakeAll(b, [c, d]) == Make(Make(b, c), d)
  {
    assert [c][1..] == [] && [c, d][1..] == [d] && [d][1..] == [];
    assert MakeAll(b, [c, d]) == MakeAll(Make(b, c), [d]);
    assert MakeAll(Make(b, c), [d]) == MakeAll(Make(Make(b, c), d), []);
  }

  lemma {:induction false} MakeAllConcat(b: Base, xs: seq<Change>, ys: seq<Change>)
    ensures MakeAll(b, xs + ys) == MakeAll(MakeAll(b, xs), ys)
    decreases |xs|
  {
    hide Make;
    if xs == [] {
      assert xs + ys == ys;
    } else {
      assert (xs + ys)[1..] == xs[1..] + ys;
      MakeAllConcat(Make(b, xs[0]), xs[1..], ys);
    }
  }

  /** Dropping the only version: the root may survive a failure, but no other appears. */
  lemma DropKeepsClean(b: Base, made: nat, wreck: Tree)
    requires |b.roots| == 1 && made <= 2
    ensures var n := Only(b.roots.Keys);
            var cs := [DropConfig(n), DropRoot(n)];
            && Interrupted(b, cs, made, wreck).roots.Keys == (if made == 2 then {} else {n})
  {
    var n := Only(b.roots.Keys);
    var cs := [DropConfig(n), DropRoot(n)];
    TwoChanges(b, cs[0], cs[1]);
    assert cs[..0] == [] && cs[..1] == [cs[0]] && cs[..2] == cs;
  }

  /** Adding a version to an empty base. */
  lemma PutKeepsClean(b: Base, n: Name, reference: string, tree: Tree, made: nat, wreck: Tree)
    requires b.roots == map[] && made <= 2
    ensures Interrupted(b, [PutConfig(n, reference), PutRoot(n, tree)], made, wreck).roots ==
              if made == 2 then map[n := tree] else map[]
  {
    var cs := [PutConfig(n, reference), PutRoot(n, tree)];
    TwoChanges(b, cs[0], cs[1]);
    assert cs[..0] == [] && cs[..1] == [cs[0]] && cs[..2] == cs;
  }

  /** Interrupting a longer list after its first part is interrupting the second part. */
  lemma InterruptedLater(b: Base, xs: seq<Change>, ys: seq<Change>, made: nat, wreck: Tree)
    requires |xs| <= made <= |xs| + |ys|
    ensures Interrupted(b, xs + ys, made, wreck) == Interrupted(MakeAll(b, xs), ys, made - |xs|, wreck)
  {
    assert (xs + ys)[..made] == xs + ys[..made - |xs|];
    MakeAllConcat(b, xs, ys[..made - |xs|]);
  }

  lemma InterruptedEarlier(b: Base, xs: seq<Change>, ys: seq<Change>, made: nat, wreck: Tree)
    requires made < |xs|
    ensures Interrupted(b, xs + ys, made, wreck) == Interrupted(b, xs, made, wreck)
  {
    assert (xs + ys)[..made] == xs[..made];
  }

  /** Wherever a failure strikes, an image keeps at most one root directory. */
  lemma OperationKeepsClean(b: Base, op: Op, made: nat, wreck: Tree)
    requires Clean(b) && made <= |Changes(b, op)|
    ensures Clean(Interrupted(b, Changes(b, op), made, wreck))
  {
    hide MakeAll, Interrupted;
    var cs := Changes(b, op);
    if cs == [] {
      Untouched(b, wreck);
    } else if |b.roots| == 1 {
      var n := Only(b.roots.Keys);
      var drop := [DropConfig(n), DropRoot(n)];
      var put := cs[2..];
      assert cs == drop + put;
      if made < 2 {
        InterruptedEarlier(b, drop, put, made, wreck);
        DropKeepsClean(b, made, wreck);
        OneKey(Interrupted(b, drop, made, wreck).roots, n);
      } else {
        InterruptedLater(b, drop, put, made, wreck);
        DropKeepsClean(b, 2, wreck);
        InterruptedAll(b, drop, wreck);
        var empty := MakeAll(b, drop);
        assert empty.roots == map[];
        if put == [] {
          Untouched(empty, wreck);
        } else {
          PutKeepsClean(empty, put[0].n, put[0].reference, put[1].tree, made - 2, wreck);
        }
      }
    } else {
      assert b.roots == map[];
      var n, tree := Hex(op.pkg.digest), Tree(op.pkg.manifest);
      assert cs == [PutConfig(n, op.pkg.reference), PutRoot(n, tree)];
      PutKeepsClean(b, n, op.pkg.reference, tree, made, wreck);
      assert |map[n := tree]| == 1;
    }
  }

  lemma Untouched(b: Base, wreck: Tree)
    ensures Interrupted(b, [], 0, wreck) == b
  {
  }

  lemma InterruptedAll(b: Base, cs: seq<Change>, wreck: Tree)
    ensures Interrupted(b, cs, |cs|, wreck) == MakeAll(b, cs)
  {
    assert cs[..|cs|] == cs;
  }

  lemma OneKey(m: map<Name, Tree>, n: Name)
    requires m.Keys == {n}
    ensures |m| == 1
  {
    assert |m| == |m.Keys|;
  }

  // ----- Runs -----

  /** One operation on one image, made as far as `made` changes. */
  datatype Event = Event(img: Image, op: Op, made: nat, wreck: Tree)

  predicate Possible(disk: Disk, e: Event)
  {
    e.made <= |Changes(BaseOf(disk, e.img), e.op)|
  }

  function After(disk: Disk, e: Event): Disk
    requires Possible(disk, e)
  {
    var b := BaseOf(disk, e.img);
    disk[e.img := Interrupted(b, Changes(b, e.op), e.made, e.wreck)]
  }

  ghost predicate Runs(disk: Disk, es: seq<Event>, final: Disk)
    decreases |es|
  {
    if es == [] then disk == final
    else Possible(disk, es[0]) && Runs(After(disk, es[0]), es[1..], final)
  }

  ghost predicate AllClean(disk: Disk)
  {
    forall img | img in disk :: Clean(disk[img])
  }

  /** Over every run of operations with a failure anywhere in any of them, no image base is ever dirty. */
  lemma {:induction false} NeverDirty(disk: Disk, es: seq<Event>, final: Disk)
    requires AllClean(disk) && Runs(disk, es, final)
    ensures AllClean(final)
    decreases |es|
  {
    hide Interrupted, Changes;
    if es == [] {
    } else {
      var b := BaseOf(disk, es[0].img);
      OperationKeepsClean(b, es[0].op, es[0].made, es[0].wreck);
      NeverDirty(After(disk, es[0]), es[1..], final);
    }
  }

  /** An operation on one image leaves all others alone. */
  lemma {:induction false} OthersUntouched(disk: Disk, es: seq<Event>, final: Disk, img: Image)
    requires Runs(disk, es, final) && forall i | 0 <= i < |es| :: es[i].img != img
    ensures BaseOf(final, img) == BaseOf(disk, img)
    decreases |es|
  {
    hide Interrupted, Changes;
    if es == [] {
    } else {
      OthersUntouched(After(disk, es[0]), es[1..], final, img);
    }
  }

  // ----- Without failures the store is a map from images to versions -----

  /** Configurations and roots match one to one, and every root is a driver. */
  predicate Matched(b: Base)
  {
    && Clean(b)
    && b.configs.Keys == b.roots.Keys
    && forall n | n in b.roots :: b.roots[n].manifest.Manifest?
  }

  datatype Version = Absent | Present(reference: string, name: Name, manifest: Manifest)

  /** What is installed below a base. */
  function VersionOf(b: Base): Version
    requires Matched(b)
  {
    if |b.roots| == 0 then Absent
    else var n := Only(b.roots.Keys); Present(b.configs[n], n, b.roots[n].manifest)
  }

  /** What an operation should do to the installed version. */
  function Intended(v: Version, op: Op): Version
  {
    match op
    case Remove => Absent
    case Install(pkg, update) =>
      if v.Present? && !update then v
      // an update removes the old version first: a package without a manifest leaves nothing
      else if pkg.manifest.Missing? then Absent
      else Present(pkg.reference, Hex(pkg.digest), pkg.manifest)
  }

  lemma MatchedEmpty(b: Base)
    requires Matched(b) && |b.roots| == 0
    ensures b == EMPTY_BASE
  {
    assert b.roots == map[];
    assert b.configs == map[];
  }

  lemma DropEmpties(b: Base)
    requires Matched(b) && |b.roots| == 1
    ensures var n := Only(b.roots.Keys); MakeAll(b, [DropConfig(n), DropRoot(n)]) == EMPTY_BASE
  {
    var n := Only(b.roots.Keys);
    TwoChanges(b, DropConfig(n), DropRoot(n));
    assert b.configs.Keys - {n} == {} && b.roots.Keys - {n} == {};
    assert b.configs - {n} == map[] && b.roots - {n} == map[];
  }

  lemma PutInstalls(n: Name, reference: string, tree: Tree)
    requires tree.manifest.Manifest?
    ensures var b := MakeAll(EMPTY_BASE, [PutConfig(n, reference), PutRoot(n, tree)]);
            Matched(b) && VersionOf(b) == Present(reference, n, tree.manifest)
  {
    TwoChanges(EMPTY_BASE, PutConfig(n, reference), PutRoot(n, tree));
    var b := MakeAll(EMPTY_BASE, [PutConfig(n, reference), PutRoot(n, tree)]);
    assert b.roots == map[n := tree] && b.configs == map[n := reference];
    OneKey(b.roots, n);
    assert Only(b.roots.Keys) in {n};
  }

  /** An uninterrupted operation keeps the match and does what is intended. */
  lemma OperationRefines(b: Base, op: Op)
    requires Matched(b)
    ensures var t := MakeAll(b, Changes(b, op)); Matched(t) && VersionOf(t) == Intended(VersionOf(b), op)
  {
    hide MakeAll;
    var cs := Changes(b, op);
    assert MakeAll(b, []) == b by { InterruptedAll(b, [], Tree(Missing)); Untouched(b, Tree(Missing)); }
    if op.Install? && |b.roots| == 1 && !op.update {
      assert cs == [];
    } else {
      var drop := if |b.roots| == 1 then var n := Only(b.roots.Keys); [DropConfig(n), DropRoot(n)] else [];
      var put := if op.Remove? || op.pkg.manifest.Missing? then []
                 else [PutConfig(Hex(op.pkg.digest), op.pkg.reference), PutRoot(Hex(op.pkg.digest), Tree(op.pkg.manifest))];
      assert cs == drop + put;
      MakeAllConcat(b, drop, put);
      if |b.roots| == 1 {
        DropEmpties(b);
      } else {
        MatchedEmpty(b);
      }
      assert MakeAll(b, drop) == EMPTY_BASE;
      if put != [] {
        PutInstalls(put[0].n, put[0].reference, put[1].tree);
      } else {
        InterruptedAll(EMPTY_BASE, [], Tree(Missing));
        Untouched(EMPTY_BASE, Tree(Missing));
      }
    }
  }

  ghost predicate AllMatched(disk: Disk)
  {
    forall img | img in disk :: Matched(disk[img])
  }

  function VersionAt(disk: Disk, img: Image): Version
    requires img in disk ==> Matched(disk[img])
  {
    if img in disk then VersionOf(disk[img]) else Absent
  }

  predicate Uninterrupted(disk: Disk, e: Event)
  {
    e.made == |Changes(BaseOf(disk, e.img), e.op)|
  }

  ghost predicate RunsWithoutFailure(disk: Disk, es: seq<Event>, final: Disk)
    decreases |es|
  {
    if es == [] then disk == final
    else Uninterrupted(disk, es[0]) && RunsWithoutFailure(After(disk, es[0]), es[1..], final)
  }

  /** The versions intended by a run: every operation in turn, on its own image only. */
  function IntendedAfter(v: Version, img: Image, es: seq<Event>): Version
    decreases |es|
  {
    if es == [] then v
    else IntendedAfter(if es[0].img == img then Intended(v, es[0].op) else v, img, es[1..])
  }

  lemma UninterruptedStep(disk: Disk, e: Event)
    requires AllMatched(disk) && Uninterrupted(disk, e)
    ensures AllMatched(After(disk, e))
    ensures VersionAt(After(disk, e), e.img) == Intended(VersionAt(disk, e.img), e.op)
  {
    hide Changes, Interrupted, MakeAll, Matched, VersionOf;
    var b := BaseOf(disk, e.img);
    EmptyIsMatched();
    InterruptedAll(b, Changes(b, e.op), e.wreck);
    OperationRefines(b, e.op);
  }

  lemma EmptyIsMatched()
    ensures Matched(EMPTY_BASE) && VersionOf(EMPTY_BASE) == Absent
  {
  }

  /** On runs without failures, the store behaves as a map from images to versions. */
  lemma {:induction false} StoreRefinesMap(disk: Disk, es: seq<Event>, final: Disk, img: Image)
    requires AllMatched(disk) && RunsWithoutFailure(disk, es, final)
    ensures AllMatched(final)
    ensures VersionAt(final, img) == IntendedAfter(VersionAt(disk, img), img, es)
    decreases |es|
  {
    hide Changes, Interrupted, Matched, VersionOf, Intended;
    if es == [] {
    } else {
      UninterruptedStep(disk, es[0]);
      StoreRefinesMap(After(disk, es[0]), es[1..], final, img);
    }
  }

  // ----- Reading the store -----

  datatype Error = NotInstalled | Dirty | Unreadable | Malformed | Failure

  datatype Result<+T> = Ok(value: T) | Err(error: Error)

  /** DriverImageStatus */
  datatype Status = Status(reference: string, digest: Digest, manifest: Manifest)

  /** newDriverImageStatus: reads the manifest below the root, then the configuration beside it. */
  function StatusOf(b: Base, n: Name): Result<Status>
  {
    if n !in b.roots || b.roots[n].manifest.Missing? || n !in b.configs then Err(Unreadable)
    else Ok(Status(b.configs[n], ParseDigest(n), b.roots[n].manifest))
  }

  /** rootFSFromBase */
  function RootOf(b: Base): Result<Name>
  {
    if |b.roots| == 1 then Ok(Only(b.roots.Keys)) else if |b.roots| == 0 then Err(NotInstalled) else Err(Dirty)
  }

  /** storage.Status */
  function StatusAt(disk: Disk, img: Image): Result<Status>
  {
    var b := BaseOf(disk, img);
    match RootOf(b)
    case Err(e) => Err(e)
    case Ok(n) => StatusOf(b, n)
  }

  /** The status of an image on any disk: when there is one and what it holds, and which error there is otherwise. */
  lemma StatusIff(disk: Disk, img: Image)
    ensures var b := BaseOf(disk, img);
            && (StatusAt(disk, img) == Err(NotInstalled) <==> b.roots == map[])
            && (StatusAt(disk, img) == Err(Dirty) <==> |b.roots| >= 2)
            && (StatusAt(disk, img).Ok? <==>
                  exists n :: b.roots.Keys == {n} && b.roots[n].manifest.Manifest? && n in b.configs)
            && (forall n | b.roots.Keys == {n} && StatusAt(disk, img).Ok? ::
                  StatusAt(disk, img).value == Status(b.configs[n], ParseDigest(n), b.roots[n].manifest))
  {
    var b := BaseOf(disk, img);
    assert |b.roots| == |b.roots.Keys|;
    if |b.roots| == 1 {
      var n := Only(b.roots.Keys);
      assert forall m | b.roots.Keys == {m} :: m in {n};
    } else {
      forall n
        ensures b.roots.Keys != {n}
      {
        assert |{n}| == 1;
      }
    }
  }

  /** Over runs without failures, Status is that of the version intended, and "not installed" if none is. */
  lemma StatusFollowsRun(disk: Disk, es: seq<Event>, final: Disk, img: Image)
    requires AllMatched(disk) && RunsWithoutFailure(disk, es, final)
    ensures var v := IntendedAfter(VersionAt(disk, img), img, es);
            StatusAt(final, img) ==
              if v.Absent? then Err(NotInstalled) else Ok(Status(v.reference, ParseDigest(v.name), v.manifest))
  {
    hide Runs, RunsWithoutFailure, IntendedAfter;
    StoreRefinesMap(disk, es, final, img);
    StatusIff(final, img);
    EmptyIsMatched();
    if img in final && |final[img].roots| == 1 {
      assert Only(final[img].roots.Keys) in final[img].roots;
    }
  }

  /** After a removal that no failure interrupts, whatever was there, Status says that nothing is installed. */
  lemma StatusAfterRemove(disk: Disk, es: seq<Event>, final: Disk, img: Image)
    requires AllMatched(disk) && RunsWithoutFailure(disk, es, final)
    requires exists k :: 0 <= k < |es| && es[k].img == img && es[k].op.Remove?
                         && forall j | k < j < |es| :: es[j].img != img
    ensures StatusAt(final, img) == Err(NotInstalled)
  {
    hide RunsWithoutFailure, StatusAt;
    StatusFollowsRun(disk, es, final, img);
    var k :| 0 <= k < |es| && es[k].img == img && es[k].op.Remove? && forall j | k < j < |es| :: es[j].img != img;
    RemovedLast(VersionAt(disk, img), img, es, k);
  }

  lemma {:induction false} RemovedLast(v: Version, img: Image, es: seq<Event>, k: nat)
    requires k < |es| && es[k].img == img && es[k].op.Remove? && forall j | k < j < |es| :: es[j].img != img
    ensures IntendedAfter(v, img, es) == Absent
    decreases |es|
  {
    if k == 0 {
      NothingMore(Absent, img, es[1..]);
    } else {
      RemovedLast(if es[0].img == img then Intended(v, es[0].op) else v, img, es[1..], k - 1);
    }
  }

  lemma {:induction false} NothingMore(v: Version, img: Image, es: seq<Event>)
    requires forall j | 0 <= j < |es| :: es[j].img != img
    ensures IntendedAfter(v, img, es) == v
    decreases |es|
  {
    if es == [] {
    } else {
      NothingMore(v, img, es[1..]);
    }
  }

  /** Status gives back the reference, digest and manifest of what was installed last. */
  lemma StatusAfterInstall(disk: Disk, img: Image, pkg: Package, wreck: Tree)
    requires AllMatched(disk) && pkg.manifest.Manifest?
    ensures var e := Event(img, Install(pkg, true), |Changes(BaseOf(disk, img), Install(pkg, true))|, wreck);
            StatusAt(After(disk, e), img) == Ok(Status(pkg.reference, pkg.digest, pkg.manifest))
  {
    hide Changes, Interrupted, MakeAll;
    var e := Event(img, Install(pkg, true), |Changes(BaseOf(disk, img), Install(pkg, true))|, wreck);
    UninterruptedStep(disk, e);
    DigestRoundTrip(pkg.digest);
  }

  /** A configuration file found by the glob of List. */
  datatype Found = Found(img: Image, n: Name)

  /** What the glob finds: every configuration file, in some order, once. */
  ghost predicate Globbed(disk: Disk, found: seq<Found>)
  {
    && (forall i | 0 <= i < |found| :: found[i].img in disk && found[i].n in disk[found[i].img].configs)
    && (forall i, j | 0 <= i < j < |found| :: found[i] != found[j])
    && (forall img, n | img in disk && n in disk[img].configs :: Found(img, n) in found)
  }

  /** storage.List: one unreadable entry fails the whole listing. */
  method List(disk: Disk, found: seq<Found>) returns (r: Result<seq<Status>>)
    ensures r.Ok? <==> forall i | 0 <= i < |found| :: StatusOf(BaseOf(disk, found[i].img), found[i].n).Ok?
    ensures r.Ok? ==> |r.value| == |found|
    ensures r.Ok? ==> forall i | 0 <= i < |found| :: StatusOf(BaseOf(disk, found[i].img), found[i].n) == Ok(r.value[i])
  {
    var list: seq<Status> := [];
    var i := 0;
    while i < |found|
      invariant 0 <= i == |list| <= |found|
      invariant forall k | 0 <= k < i :: StatusOf(BaseOf(disk, found[k].img), found[k].n) == Ok(list[k])
    {
      var status := StatusOf(BaseOf(disk, found[i].img), found[i].n);
      if status.Err? {
        return Err(status.error);
      }
      list := list + [status.value];
      i := i + 1;
    }
    return Ok(list);
  }

  /** On a store without failures, what List reads is exactly one entry per installed image, its status. */
  lemma ListMatchesStatus(disk: Disk, found: seq<Found>)
    requires AllMatched(disk) && Globbed(disk, found)
    ensures forall i | 0 <= i < |found| ::
              StatusOf(BaseOf(disk, found[i].img), found[i].n) == StatusAt(disk, found[i].img)
              && StatusAt(disk, found[i].img).Ok?
    ensures forall i, j | 0 <= i < j < |found| :: found[i].img != found[j].img
    ensures forall img | img in disk && VersionAt(disk, img).Present? :: exists i :: 0 <= i < |found| && found[i].img == img
  {
    forall i | 0 <= i < |found|
      ensures found[i].n in disk[found[i].img].roots && disk[found[i].img].roots.Keys == {found[i].n}
    {
      OneRoot(disk[found[i].img], found[i].n);
    }
    forall img | img in disk && VersionAt(disk, img).Present?
      ensures exists i :: 0 <= i < |found| && found[i].img == img
    {
      var n := Only(disk[img].roots.Keys);
      assert Found(img, n) in found;
    }
  }

  lemma OneRoot(b: Base, n: Name)
    requires Matched(b) && n in b.configs
    ensures n in b.roots && b.roots.Keys == {n} && |b.roots| == 1
  {
    assert |b.roots.Keys - {n}| == 0;
  }

  // ----- What failures break -----

  /**
   Every operation handles a configuration and its root one right after the other. A failure in
   between leaves one without the other.
   */
  datatype Half = ConfigOnly | RootOnly

  predicate Left(b: Base, half: Half, n: Name)
  {
    match half
    case ConfigOnly => n in b.configs && n !in b.roots
    case RootOnly => n in b.roots && n !in b.configs
  }

  ghost predicate NothingLeft(b: Base, half: Half)
  {
    forall n :: !Left(b, half, n)
  }

  /** The change that brings the two together again: the second one of an installation, or of a removal. */
  predicate Completes(c: Change, half: Half, n: Name)
  {
    c.n == n && if half.ConfigOnly? then c.PutRoot? else c.DropRoot?
  }

  /** The operation stopped right before that change, or found the half and did not come to that change. */
  predicate Stranded(cs: seq<Change>, made: nat, half: Half, n: Name, before: bool)
    requires made <= |cs|
  {
    || (made < |cs| && Completes(cs[made], half, n))
    || (before && forall i | 0 <= i < made :: !Completes(cs[i], half, n))
  }

  lemma DropLeaves(b: Base, made: nat, wreck: Tree, half: Half, n: Name)
    requires |b.roots| == 1 && made <= 2
    ensures var cs := Changes(b, Remove);
            Left(Interrupted(b, cs, made, wreck), half, n) <==> Stranded(cs, made, half, n, Left(b, half, n))
  {
    var cs := Changes(b, Remove);
    TwoChanges(b, cs[0], cs[1]);
    assert cs[..0] == [] && cs[..1] == [cs[0]] && cs[..2] == cs;
    assert forall m :: m in b.roots <==> m == cs[0].n;
  }

  lemma PutLeaves(b: Base, m: Name, reference: string, tree: Tree, made: nat, wreck: Tree, half: Half, n: Name)
    requires b.roots == map[] && made <= 2
    ensures var cs := [PutConfig(m, reference), PutRoot(m, tree)];
            Left(Interrupted(b, cs, made, wreck), half, n) <==> Stranded(cs, made, half, n, Left(b, half, n))
  {
    var cs := [PutConfig(m, reference), PutRoot(m, tree)];
    TwoChanges(b, cs[0], cs[1]);
    assert cs[..0] == [] && cs[..1] == [cs[0]] && cs[..2] == cs;
  }

  lemma StrandedLater(xs: seq<Change>, ys: seq<Change>, made: nat, half: Half, n: Name, before: bool)
    requires |xs| <= made <= |xs| + |ys|
    ensures Stranded(xs + ys, made, half, n, before) <==>
              Stranded(ys, made - |xs|, half, n, Stranded(xs, |xs|, half, n, before))
  {
    var cs := xs + ys;
    forall i | 0 <= i < |ys|
      ensures ys[i] == cs[i + |xs|]
    {
    }
    if Stranded(ys, made - |xs|, half, n, Stranded(xs, |xs|, half, n, before)) && made < |cs| && !Completes(cs[made], half, n) {
      forall i | 0 <= i < made
        ensures !Completes(cs[i], half, n)
      {
        assert if i < |xs| then cs[i] == xs[i] else cs[i] == ys[i - |xs|];
      }
    }
    if before && forall i | 0 <= i < made :: !Completes(cs[i], half, n) {
      assert forall i | 0 <= i < |xs| :: xs[i] == cs[i];
    }
  }

  lemma StrandedEarlier(xs: seq<Change>, ys: seq<Change>, made: nat, half: Half, n: Name, before: bool)
    requires made < |xs|
    ensures Stranded(xs + ys, made, half, n, before) <==> Stranded(xs, made, half, n, before)
  {
    assert forall i | 0 <= i <= made :: (xs + ys)[i] == xs[i];
  }

  /** Exactly when an operation, stopped anywhere, leaves one of the two without the other. */
  lemma OperationLeaves(b: Base, op: Op, made: nat, wreck: Tree, half: Half, n: Name)
    requires Clean(b) && made <= |Changes(b, op)|
    ensures Left(Interrupted(b, Changes(b, op), made, wreck), half, n) <==>
              Stranded(Changes(b, op), made, half, n, Left(b, half, n))
  {
    hide MakeAll, Interrupted, Stranded, Left;
    var cs := Changes(b, op);
    if cs == [] {
      Untouched(b, wreck);
      NoChange(half, n, Left(b, half, n));
    } else if |b.roots| == 1 {
      var drop := Changes(b, Remove);
      var put := cs[2..];
      assert cs == drop + put;
      if made < 2 {
        InterruptedEarlier(b, drop, put, made, wreck);
        StrandedEarlier(drop, put, made, half, n, Left(b, half, n));
        DropLeaves(b, made, wreck, half, n);
      } else {
        InterruptedLater(b, drop, put, made, wreck);
        StrandedLater(drop, put, made, half, n, Left(b, half, n));
        DropKeepsClean(b, 2, wreck);
        DropLeaves(b, 2, wreck, half, n);
        InterruptedAll(b, drop, wreck);
        var empty := MakeAll(b, drop);
        assert empty.roots == map[];
        if put == [] {
          Untouched(empty, wreck);
          NoChange(half, n, Left(empty, half, n));
        } else {
          PutLeaves(empty, put[0].n, put[0].reference, put[1].tree, made - 2, wreck, half, n);
        }
      }
    } else {
      assert b.roots == map[];
      var name, tree := Hex(op.pkg.digest), Tree(op.pkg.manifest);
      assert cs == [PutConfig(name, op.pkg.reference), PutRoot(name, tree)];
      PutLeaves(b, name, op.pkg.reference, tree, made, wreck, half, n);
    }
  }

  lemma NoChange(half: Half, n: Name, before: bool)
    ensures Stranded([], 0, half, n, before) <==> before
  {
  }

  /** The same over a run: what the last operations on the image came to decides. */
  ghost predicate StrandedBy(disk: Disk, es: seq<Event>, img: Image, half: Half, n: Name, before: bool)
    decreases |es|
  {
    if es == [] then before
    else
      var e := es[0];
      && Possible(disk, e)
      && StrandedBy(After(disk, e), es[1..], img, half, n,
                    if e.img == img then Stranded(Changes(BaseOf(disk, img), e.op), e.made, half, n, before) else before)
  }

  lemma {:induction false} RunLeaves(disk: Disk, es: seq<Event>, final: Disk, img: Image, half: Half, n: Name)
    requires AllClean(disk) && Runs(disk, es, final)
    ensures Left(BaseOf(final, img), half, n) <==> StrandedBy(disk, es, img, half, n, Left(BaseOf(disk, img), half, n))
    decreases |es|
  {
    hide Interrupted, Changes, Left, Stranded;
    if es == [] {
    } else {
      var e, b := es[0], BaseOf(disk, es[0].img);
      NeverDirty(disk, [e], After(disk, e));
      OperationLeaves(b, e.op, e.made, e.wreck, half, n);
      RunLeaves(After(disk, e), es[1..], final, img, half, n);
    }
  }

  // ----- What can then be listed -----

  /** A root whose configuration is present is a complete driver. */
  predicate Whole(b: Base)
  {
    forall n | n in b.roots && n in b.configs :: b.roots[n].manifest.Manifest?
  }

  ghost predicate AllWhole(disk: Disk)
  {
    forall img | img in disk :: Whole(disk[img])
  }

  lemma DropKeepsWhole(b: Base, made: nat, wreck: Tree)
    requires |b.roots| == 1 && Whole(b) && made <= 2
    ensures Whole(Interrupted(b, Changes(b, Remove), made, wreck))
  {
    var cs := Changes(b, Remove);
    TwoChanges(b, cs[0], cs[1]);
    assert cs[..0] == [] && cs[..1] == [cs[0]] && cs[..2] == cs;
  }

  lemma PutKeepsWhole(b: Base, op: Op, made: nat, wreck: Tree)
    requires b.roots == map[] && op.Install? && op.pkg.manifest.Manifest? && made <= 2
    ensures var n := Hex(op.pkg.digest);
            Whole(Interrupted(b, [PutConfig(n, op.pkg.reference), PutRoot(n, Tree(op.pkg.manifest))], made, wreck))
  {
    var n := Hex(op.pkg.digest);
    PutKeepsClean(b, n, op.pkg.reference, Tree(op.pkg.manifest), made, wreck);
  }

  lemma OperationKeepsWhole(b: Base, op: Op, made: nat, wreck: Tree)
    requires Clean(b) && Whole(b) && made <= |Changes(b, op)|
    ensures Whole(Interrupted(b, Changes(b, op), made, wreck))
  {
    hide MakeAll, Interrupted, Whole, Hex;
    var cs := Changes(b, op);
    if cs == [] {
      Untouched(b, wreck);
    } else if |b.roots| == 1 {
      var drop := Changes(b, Remove);
      var put := cs[2..];
      assert cs == drop + put;
      if made < 2 {
        InterruptedEarlier(b, drop, put, made, wreck);
        DropKeepsWhole(b, made, wreck);
      } else {
        InterruptedLater(b, drop, put, made, wreck);
        DropKeepsClean(b, 2, wreck);
        DropKeepsWhole(b, 2, wreck);
        InterruptedAll(b, drop, wreck);
        var empty := MakeAll(b, drop);
        assert empty.roots == map[];
        if put == [] {
          Untouched(empty, wreck);
        } else {
          PutKeepsWhole(empty, op, made - 2, wreck);
        }
      }
    } else {
      assert b.roots == map[];
      var n := Hex(op.pkg.digest);
      assert cs == [PutConfig(n, op.pkg.reference), PutRoot(n, Tree(op.pkg.manifest))];
      PutKeepsWhole(b, op, made, wreck);
    }
  }

  lemma {:induction false} AlwaysWhole(disk: Disk, es: seq<Event>, final: Disk)
    requires AllClean(disk) && AllWhole(disk) && Runs(disk, es, final)
    ensures AllClean(final) && AllWhole(final)
    decreases |es|
  {
    hide Interrupted, Changes, Whole;
    if es == [] {
    } else {
      var e, b := es[0], BaseOf(disk, es[0].img);
      assert Whole(EMPTY_BASE) by { EmptyIsWhole(); }
      OperationKeepsClean(b, e.op, e.made, e.wreck);
      OperationKeepsWhole(b, e.op, e.made, e.wreck);
      AlwaysWhole(After(disk, e), es[1..], final);
    }
  }

  lemma EmptyIsWhole()
    ensures Whole(EMPTY_BASE)
  {
  }

  /** List succeeds. */
  ghost predicate Listable(disk: Disk, found: seq<Found>)
  {
    forall i | 0 <= i < |found| :: StatusOf(BaseOf(disk, found[i].img), found[i].n).Ok?
  }

  lemma ListableIff(disk: Disk, found: seq<Found>)
    requires AllWhole(disk) && Globbed(disk, found)
    ensures Listable(disk, found) <==> forall img :: NothingLeft(BaseOf(disk, img), ConfigOnly)
  {
    if Listable(disk, found) {
      forall img, n
        ensures !Left(BaseOf(disk, img), ConfigOnly, n)
      {
        if n in BaseOf(disk, img).configs {
          var i :| 0 <= i < |found| && found[i] == Found(img, n);
          assert StatusOf(BaseOf(disk, found[i].img), found[i].n).Ok?;
        }
      }
    } else {
      var i :| 0 <= i < |found| && StatusOf(BaseOf(disk, found[i].img), found[i].n).Err?;
      assert Left(BaseOf(disk, found[i].img), ConfigOnly, found[i].n);
      assert !NothingLeft(BaseOf(disk, found[i].img), ConfigOnly);
    }
  }

  /** No name of the image is left with one of the two alone by the run. */
  ghost predicate NothingStranded(es: seq<Event>, img: Image, half: Half)
  {
    forall n :: !StrandedBy(map[], es, img, half, n, false)
  }

  lemma NothingStrandedIff(es: seq<Event>, final: Disk, img: Image, half: Half)
    requires Runs(map[], es, final)
    ensures NothingStranded(es, img, half) <==> NothingLeft(BaseOf(final, img), half)
  {
    hide Runs, StrandedBy;
    forall n
      ensures Left(BaseOf(final, img), half, n) <==> StrandedBy(map[], es, img, half, n, false)
    {
      RunLeaves(map[], es, final, img, half, n);
    }
  }

  /**
   After every run with failures anywhere, List succeeds exactly if every installation that
   stopped between its last two calls was followed by an installation of the same digest to
   that image that made its last call.
   */
  lemma ListSucceedsIff(es: seq<Event>, final: Disk, found: seq<Found>)
    requires Runs(map[], es, final) && Globbed(final, found)
    ensures Listable(final, found) <==> forall img :: NothingStranded(es, img, ConfigOnly)
  {
    hide Runs, Globbed, Listable, NothingStranded, NothingLeft, BaseOf;
    AlwaysWhole(map[], es, final);
    ListableIff(final, found);
    forall img
      ensures NothingStranded(es, img, ConfigOnly) <==> NothingLeft(BaseOf(final, img), ConfigOnly)
    {
      NothingStrandedIff(es, final, img, ConfigOnly);
    }
  }

  /** One readable entry per image that RootFS reports, and no other. */
  ghost predicate ListsEveryImage(disk: Disk, found: seq<Found>)
  {
    && Listable(disk, found)
    && (forall i, j | 0 <= i < j < |found| :: found[i].img != found[j].img)
    && (forall img :: RootOf(BaseOf(disk, img)).Ok? <==> exists i :: 0 <= i < |found| && found[i].img == img)
  }

  lemma MatchedIff(b: Base)
    requires Clean(b) && Whole(b)
    ensures Matched(b) <==> NothingLeft(b, ConfigOnly) && NothingLeft(b, RootOnly)
  {
    if NothingLeft(b, ConfigOnly) && NothingLeft(b, RootOnly) {
      forall n
        ensures n in b.configs <==> n in b.roots
      {
        assert !Left(b, ConfigOnly, n) && !Left(b, RootOnly, n);
      }
      assert b.configs.Keys == b.roots.Keys;
    }
  }

  lemma MatchedLists(disk: Disk, found: seq<Found>)
    requires AllMatched(disk) && Globbed(disk, found)
    ensures ListsEveryImage(disk, found)
  {
    hide Globbed, StatusOf, Matched;
    ListMatchesStatus(disk, found);
    assert Listable(disk, found);
    forall img
      ensures RootOf(BaseOf(disk, img)).Ok? <==> exists i :: 0 <= i < |found| && found[i].img == img
    {
      if RootOf(BaseOf(disk, img)).Ok? {
        assert img in disk && VersionAt(disk, img).Present?;
      }
      if i :| 0 <= i < |found| && found[i].img == img {
        assert StatusAt(disk, found[i].img).Ok?;
      }
    }
  }

  lemma ListedMatches(disk: Disk, found: seq<Found>, img: Image)
    requires AllClean(disk) && AllWhole(disk) && Globbed(disk, found) && ListsEveryImage(disk, found)
    ensures NothingLeft(BaseOf(disk, img), ConfigOnly) && NothingLeft(BaseOf(disk, img), RootOnly)
  {
    ListableIff(disk, found);
    var b := BaseOf(disk, img);
    forall n | n in b.roots
      ensures n in b.configs
    {
      assert |b.roots.Keys - {n}| == 0;
      assert RootOf(b).Ok?;
      var i :| 0 <= i < |found| && found[i].img == img;
      assert StatusOf(BaseOf(disk, found[i].img), found[i].n).Ok?;
      assert found[i].n == n;
    }
  }

  /** The listing is one entry per image exactly on a matched store. */
  lemma ListsIffMatched(disk: Disk, found: seq<Found>)
    requires AllClean(disk) && AllWhole(disk) && Globbed(disk, found)
    ensures ListsEveryImage(disk, found) <==> AllMatched(disk)
  {
    hide Globbed, ListsEveryImage, Matched, NothingLeft, Whole;
    if AllMatched(disk) {
      MatchedLists(disk, found);
    }
    if ListsEveryImage(disk, found) {
      forall img | img in disk
        ensures Matched(disk[img])
      {
        ListedMatches(disk, found, img);
        MatchedIff(disk[img]);
      }
    }
  }

  /**
   After every run with failures anywhere, the listing has exactly one entry per image that
   RootFS reports if and only if every installation and every removal that stopped between its
   two calls was made up for by a later one.
   */
  lemma ListIsCompleteIff(es: seq<Event>, final: Disk, found: seq<Found>)
    requires Runs(map[], es, final) && Globbed(final, found)
    ensures ListsEveryImage(final, found) <==>
              forall img :: NothingStranded(es, img, ConfigOnly) && NothingStranded(es, img, RootOnly)
  {
    hide Runs, Globbed, ListsEveryImage, NothingStranded, NothingLeft, Matched, Whole;
    AlwaysWhole(map[], es, final);
    ListsIffMatched(final, found);
    EmptyIsMatched();
    EmptyIsWhole();
    forall img
      ensures Matched(BaseOf(final, img)) <==> NothingStranded(es, img, ConfigOnly) && NothingStranded(es, img, RootOnly)
    {
      MatchedIff(BaseOf(final, img));
      NothingStrandedIff(es, final, img, ConfigOnly);
      NothingStrandedIff(es, final, img, RootOnly);
    }
    assert (forall img :: Matched(BaseOf(final, img))) ==> forall img | img in final :: Matched(BaseOf(final, img));
  }

  // ----- The failing inputs -----

  /** Whatever was there before, an installation stopped between its last two calls leaves a configuration alone; */
  lemma InterruptedInstallLeavesOrphan(b: Base, pkg: Package, update: bool, wreck: Tree)
    requires Clean(b) && pkg.manifest.Manifest? && (update || b.roots == map[])
    ensures var cs := Changes(b, Install(pkg, update));
            |cs| >= 2 && Left(Interrupted(b, cs, |cs| - 1, wreck), ConfigOnly, Hex(pkg.digest))
  {
    hide Interrupted, Left, Hex;
    var cs := Changes(b, Install(pkg, update));
    assert Completes(cs[|cs| - 1], ConfigOnly, Hex(pkg.digest));
    OperationLeaves(b, Install(pkg, update), |cs| - 1, wreck, ConfigOnly, Hex(pkg.digest));
  }

  /** then no listing succeeds any more, */
  lemma OrphanBreaksList(disk: Disk, img: Image, n: Name, found: seq<Found>)
    requires Left(BaseOf(disk, img), ConfigOnly, n) && Globbed(disk, found)
    ensures !Listable(disk, found)
  {
    var i :| 0 <= i < |found| && found[i] == Found(img, n);
    assert StatusOf(BaseOf(disk, found[i].img), found[i].n).Err?;
  }

  /** and no operation clears it except the installation of that very digest, */
  lemma OrphanStays(b: Base, n: Name, op: Op, made: nat, wreck: Tree)
    requires Clean(b) && Left(b, ConfigOnly, n) && made <= |Changes(b, op)|
    requires op.Install? ==> Hex(op.pkg.digest) != n
    ensures Left(Interrupted(b, Changes(b, op), made, wreck), ConfigOnly, n)
  {
    hide Interrupted;
    OperationLeaves(b, op, made, wreck, ConfigOnly, n);
  }

  /** so every later listing fails, whatever happens, until that digest is installed again. */
  lemma {:induction false} OrphanForever(disk: Disk, es: seq<Event>, final: Disk, img: Image, n: Name, found: seq<Found>)
    requires AllClean(disk) && Runs(disk, es, final) && Left(BaseOf(disk, img), ConfigOnly, n) && Globbed(final, found)
    requires forall i | 0 <= i < |es| && es[i].img == img && es[i].op.Install? :: Hex(es[i].op.pkg.digest) != n
    ensures !Listable(final, found)
    decreases |es|
  {
    hide Interrupted, Changes, Left, Hex, Listable;
    if es == [] {
      OrphanBreaksList(disk, img, n, found);
    } else {
      NeverDirty(disk, es[..1], After(disk, es[0]));
      if es[0].img == img {
        OrphanStays(BaseOf(disk, img), n, es[0].op, es[0].made, es[0].wreck);
      }
      OrphanForever(After(disk, es[0]), es[1..], final, img, n, found);
    }
  }

  /** Installing that digest to the end clears it and no other; the base is in order exactly if there was no other. */
  lemma OrphanCleared(b: Base, pkg: Package, wreck: Tree)
    requires Clean(b) && Whole(b) && pkg.manifest.Manifest?
    ensures var cs := Changes(b, Install(pkg, true));
            var t := Interrupted(b, cs, |cs|, wreck);
            && (forall n :: Left(t, ConfigOnly, n) <==> Left(b, ConfigOnly, n) && n != Hex(pkg.digest))
            && (Matched(t) <==> forall n | Left(b, ConfigOnly, n) :: n == Hex(pkg.digest))
  {
    hide Interrupted, Hex, Left, Matched, Whole, Changes;
    var name := Hex(pkg.digest);
    var cs := Changes(b, Install(pkg, true));
    var t := Interrupted(b, cs, |cs|, wreck);
    assert |cs| >= 2 && Completes(cs[|cs| - 1], ConfigOnly, name) by { LastPutsRoot(b, pkg); }
    forall n
      ensures Left(t, ConfigOnly, n) <==> Left(b, ConfigOnly, n) && n != name
      ensures !Left(t, RootOnly, n)
    {
      OperationLeaves(b, Install(pkg, true), |cs|, wreck, ConfigOnly, n);
      OperationLeaves(b, Install(pkg, true), |cs|, wreck, RootOnly, n);
      RootOnlyDropped(b, pkg, n);
      OnlyThatRoot(b, pkg, n);
    }
    OperationKeepsClean(b, Install(pkg, true), |cs|, wreck);
    OperationKeepsWhole(b, Install(pkg, true), |cs|, wreck);
    MatchedIff(t);
  }

  lemma LastPutsRoot(b: Base, pkg: Package)
    requires Clean(b) && pkg.manifest.Manifest?
    ensures var cs := Changes(b, Install(pkg, true)); |cs| >= 2 && Completes(cs[|cs| - 1], ConfigOnly, Hex(pkg.digest))
  {
  }

  lemma OnlyThatRoot(b: Base, pkg: Package, n: Name)
    ensures forall c | c in Changes(b, Install(pkg, true)) && Completes(c, ConfigOnly, n) :: n == Hex(pkg.digest)
  {
  }

  /** A root without its configuration is dropped by every completed update. */
  lemma RootOnlyDropped(b: Base, pkg: Package, n: Name)
    requires Clean(b)
    ensures var cs := Changes(b, Install(pkg, true));
            !Stranded(cs, |cs|, RootOnly, n, Left(b, RootOnly, n))
  {
    var cs := Changes(b, Install(pkg, true));
    if n in b.roots {
      assert |b.roots.Keys - {n}| == 0;
      assert Completes(cs[1], RootOnly, n);
    }
  }

  /**
   A removal that fails between its two calls: RootFS still reports the image, its status cannot
   be read, the listing succeeds without it, and installing it again without update does nothing.
   */
  lemma InterruptedRemovalHidesImage(disk: Disk, img: Image, wreck: Tree, pkg: Package, found: seq<Found>)
    requires AllMatched(disk) && VersionAt(disk, img).Present?
    requires Globbed(After(disk, Event(img, Remove, 1, wreck)), found)
    ensures var after := After(disk, Event(img, Remove, 1, wreck));
            && RootOf(BaseOf(after, img)) == RootOf(BaseOf(disk, img))
            && RootOf(BaseOf(after, img)).Ok?
            && StatusAt(after, img).Err?
            && Listable(after, found)
            && (forall i | 0 <= i < |found| :: found[i].img != img)
            && Changes(BaseOf(after, img), Install(pkg, false)) == []
  {
    hide Interrupted, StatusOf, Globbed;
    var b := disk[img];
    var after := After(disk, Event(img, Remove, 1, wreck));
    HalfRemoved(b, wreck);
    OnlyOther(b, after[img]);
    forall i | 0 <= i < |found|
      ensures found[i].img != img && StatusOf(BaseOf(after, found[i].img), found[i].n).Ok?
    {
      FoundInBase(after, found, i);
      MatchedReadable(disk[found[i].img], found[i].n);
    }
    Unconfigured(after[img], Only(b.roots.Keys));
  }

  lemma HalfRemoved(b: Base, wreck: Tree)
    requires Matched(b) && |b.roots| == 1
    ensures |Changes(b, Remove)| == 2
    ensures var t := Interrupted(b, Changes(b, Remove), 1, wreck); t.configs == map[] && t.roots.Keys == b.roots.Keys
  {
    var cs := Changes(b, Remove);
    TwoChanges(b, cs[0], cs[1]);
    assert cs[..1] == [cs[0]];
    assert b.configs.Keys - {cs[0].n} == {};
    assert b.configs - {cs[0].n} == map[];
  }

  lemma OnlyOther(b: Base, t: Base)
    requires |b.roots| == 1 && t.roots.Keys == b.roots.Keys
    ensures |t.roots| == 1 && RootOf(t) == RootOf(b)
  {
    assert |t.roots| == |t.roots.Keys|;
  }

  lemma FoundInBase(disk: Disk, found: seq<Found>, i: nat)
    requires Globbed(disk, found) && i < |found|
    ensures found[i].img in disk && found[i].n in disk[found[i].img].configs
  {
  }

  lemma MatchedReadable(b: Base, n: Name)
    requires Matched(b) && n in b.configs
    ensures StatusOf(b, n).Ok?
  {
  }

  lemma Unconfigured(b: Base, n: Name)
    requires b.configs == map[]
    ensures StatusOf(b, n).Err?
  {
  }

  // ----- Updates -----

  /**
   An update of an installed image leaves none installed exactly if it is stopped after the old
   root is gone and before the new one is in place. A package without a manifest has no later
   change, so its update always ends there.
   */
  lemma UpdateLosesImageIff(b: Base, pkg: Package, made: nat, wreck: Tree)
    requires |b.roots| == 1 && made <= |Changes(b, Install(pkg, true))|
    ensures RootOf(Interrupted(b, Changes(b, Install(pkg, true)), made, wreck)) == Err(NotInstalled) <==> 2 <= made <= 3
    ensures |Changes(b, Install(pkg, true))| == if pkg.manifest.Missing? then 2 else 4
  {
    hide MakeAll, Interrupted, Hex;
    var cs := Changes(b, Install(pkg, true));
    var drop := Changes(b, Remove);
    var put := cs[2..];
    assert cs == drop + put;
    if made < 2 {
      InterruptedEarlier(b, drop, put, made, wreck);
      DropKeepsClean(b, made, wreck);
      OneKey(Interrupted(b, drop, made, wreck).roots, Only(b.roots.Keys));
    } else {
      InterruptedLater(b, drop, put, made, wreck);
      DropKeepsClean(b, 2, wreck);
      InterruptedAll(b, drop, wreck);
      var empty := MakeAll(b, drop);
      assert empty.roots == map[];
      if put == [] {
        Untouched(empty, wreck);
      } else {
        PutKeepsClean(empty, put[0].n, put[0].reference, put[1].tree, made - 2, wreck);
        OneKey(map[put[0].n := put[1].tree], put[0].n);
      }
    }
  }

  /** A working driver, updated to a package without a manifest, with no failure at all. */
  lemma MalformedUpdateUninstalls(wreck: Tree)
    ensures var b := Base(map["ab" := Tree(Manifest("go"))], map["ab" := "go-driver:v1"]);
            var pkg := Package("go-driver:v2", [0xcd], Missing);
            && Matched(b)
            && RootOf(b) == Ok("ab")
            && RootOf(MakeAll(b, Changes(b, Install(pkg, true)))) == Err(NotInstalled)
  {
    var b := Base(map["ab" := Tree(Manifest("go"))], map["ab" := "go-driver:v1"]);
    var pkg := Package("go-driver:v2", [0xcd], Missing);
    OneKey(b.roots, "ab");
    assert Only(b.roots.Keys) in {"ab"};
    UpdateLosesImageIff(b, pkg, 2, wreck);
    InterruptedAll(b, Changes(b, Install(pkg, true)), wreck);
  }

  // ----- What the daemon sees of an image -----

  /** A listed version, a root that the listing omits, no root at all, or a configuration that spoils every listing. */
  datatype View = Listed(status: Result<Status>) | Hidden | NoRoot | Unlistable

  ghost function ViewOf(b: Base): View
    requires Clean(b)
  {
    if !NothingLeft(b, ConfigOnly) then Unlistable
    else if |b.roots| == 0 then NoRoot
    else var n := Only(b.roots.Keys); if n in b.configs then Listed(StatusOf(b, n)) else Hidden
  }

  /** What an operation makes of an image that does not spoil the listing, with `made` of its changes. */
  function NextView(v: View, op: Op, made: nat): View
  {
    var dropped := if made == 0 || v.NoRoot? then v else if made == 1 then Hidden else NoRoot;
    match op
    case Remove => dropped
    case Install(pkg, update) =>
      if !v.NoRoot? && !update then v
      else
        var drops := if v.NoRoot? then 0 else 2;
        if made <= drops then dropped
        else if made == drops + 1 then Unlistable
        else Listed(Ok(Status(pkg.reference, pkg.digest, pkg.manifest)))
  }

  lemma DropView(b: Base, made: nat, wreck: Tree)
    requires |b.roots| == 1 && !ViewOf(b).Unlistable? && made <= 2
    ensures var t := Interrupted(b, Changes(b, Remove), made, wreck);
            Clean(t) && ViewOf(t) == if made == 0 then ViewOf(b) else if made == 1 then Hidden else NoRoot
  {
    var n := Only(b.roots.Keys);
    var cs := Changes(b, Remove);
    var t := Interrupted(b, cs, made, wreck);
    DropKeepsClean(b, made, wreck);
    OperationKeepsClean(b, Remove, made, wreck);
    TwoChanges(b, cs[0], cs[1]);
    assert cs[..0] == [] && cs[..1] == [cs[0]] && cs[..2] == cs;
    forall m
      ensures made > 0 ==> m !in t.configs
    {
      assert !Left(b, ConfigOnly, m);
    }
    if made == 1 {
      OneKey(t.roots, n);
    }
  }

  lemma PutView(b: Base, pkg: Package, made: nat, wreck: Tree)
    requires b.roots == map[] && !ViewOf(b).Unlistable? && made <= 2 && pkg.manifest.Manifest?
    ensures var n := Hex(pkg.digest);
            var t := Interrupted(b, [PutConfig(n, pkg.reference), PutRoot(n, Tree(pkg.manifest))], made, wreck);
            && Clean(t)
            && ViewOf(t) == if made == 0 then NoRoot else if made == 1 then Unlistable
                            else Listed(Ok(Status(pkg.reference, pkg.digest, pkg.manifest)))
  {
    hide Hex, ParseDigest;
    var n := Hex(pkg.digest);
    var cs := [PutConfig(n, pkg.reference), PutRoot(n, Tree(pkg.manifest))];
    var t := Interrupted(b, cs, made, wreck);
    PutKeepsClean(b, n, pkg.reference, Tree(pkg.manifest), made, wreck);
    TwoChanges(b, cs[0], cs[1]);
    assert cs[..0] == [] && cs[..1] == [cs[0]] && cs[..2] == cs;
    forall m
      ensures m !in b.configs
    {
      assert !Left(b, ConfigOnly, m);
    }
    if made == 1 {
      assert Left(t, ConfigOnly, n);
    } else if made == 2 {
      OneKey(t.roots, n);
      assert Only(t.roots.Keys) in {n};
      DigestRoundTrip(pkg.digest);
    }
  }

  /**
   Any operation, stopped anywhere, takes what the daemon sees of an image exactly one way. This is
   what the registry knows of the store.
   */
  lemma ViewAfter(b: Base, op: Op, made: nat, wreck: Tree)
    requires Clean(b) && !ViewOf(b).Unlistable? && made <= |Changes(b, op)|
    ensures Clean(Interrupted(b, Changes(b, op), made, wreck))
    ensures ViewOf(Interrupted(b, Changes(b, op), made, wreck)) == NextView(ViewOf(b), op, made)
  {
    hide MakeAll, Interrupted, NothingLeft, StatusOf, Hex;
    OperationKeepsClean(b, op, made, wreck);
    var cs := Changes(b, op);
    if cs == [] {
      Untouched(b, wreck);
    } else if |b.roots| == 1 {
      var drop := Changes(b, Remove);
      var put := cs[2..];
      assert cs == drop + put;
      if made < 2 {
        InterruptedEarlier(b, drop, put, made, wreck);
        DropView(b, made, wreck);
      } else {
        InterruptedLater(b, drop, put, made, wreck);
        DropKeepsClean(b, 2, wreck);
        DropView(b, 2, wreck);
        InterruptedAll(b, drop, wreck);
        var empty := MakeAll(b, drop);
        assert empty.roots == map[];
        if put == [] {
          Untouched(empty, wreck);
        } else {
          PutView(empty, op.pkg, made - 2, wreck);
        }
      }
    } else {
      assert b.roots == map[];
      var n := Hex(op.pkg.digest);
      assert cs == [PutConfig(n, op.pkg.reference), PutRoot(n, Tree(op.pkg.manifest))];
      PutView(b, op.pkg, made, wreck);
    }
  }

  // ----- The operations, step by step -----

  /** One image base on disk, changed in place; every filesystem call may fail. */
  class Store {
    var base: Base

    /** storage.Remove; `calls` is the number of filesystem calls that succeed. */
    method Remove(calls: nat, wreck: Tree) returns (r: Result<()>, left: nat, ghost made: nat)
      modifies this
      ensures made <= |Changes(old(base), Op.Remove)|
      ensures base == Interrupted(old(base), Changes(old(base), Op.Remove), made, wreck)
      ensures r.Ok? <==> |old(base).roots| == 1 && calls >= 3
      ensures r.Err? ==> made <= 1
      ensures r.Ok? ==> left == calls - 3 && made == |Changes(old(base), Op.Remove)|
    {
      hide MakeAll;
      Untouched(base, wreck);
      made, left := 0, 0;
      if calls == 0 {
        NothingMade(base, Changes(base, Op.Remove), wreck);
        return Err(Failure), 0, 0;
      }
      var root := RootOf(base);
      if root.Err? {
        return Err(root.error), calls - 1, 0;
      }
      var n := root.value;
      ghost var cs := [DropConfig(n), DropRoot(n)];
      TwoChanges(base, cs[0], cs[1]);
      assert cs[..0] == [] && cs[..1] == [cs[0]] && cs[..2] == cs;
      if calls == 1 {
        NothingMade(base, cs, wreck);
        return Err(Failure), 0, 0;
      }
      base := Make(base, DropConfig(n));
      if calls == 2 {
        base := base.(roots := base.roots[n := wreck]);
        return Err(Failure), 0, 1;
      }
      base := Make(base, DropRoot(n));
      return Ok(()), calls - 3, 2;
    }

    /** storage.Install */
    method Install(pkg: Package, update: bool, calls: nat, wreck: Tree) returns (r: Result<()>, ghost made: nat)
      modifies this
      ensures made <= |Changes(old(base), Op.Install(pkg, update))|
      ensures base == Interrupted(old(base), Changes(old(base), Op.Install(pkg, update)), made, wreck)
      ensures r.Ok? ==> made == |Changes(old(base), Op.Install(pkg, update))|
      ensures calls >= 11 ==> (r.Ok? <==> |old(base).roots| <= 1 && ((|old(base).roots| == 1 && !update) || pkg.manifest.Manifest?))
      ensures |old(base).roots| == 1 && update ==>
                (RootOf(base) == Err(NotInstalled) <==> calls >= 5 && (calls < 11 || pkg.manifest.Missing?))
    {
      hide MakeAll, Interrupted, Hex;
      made := 0;
      ghost var was := base;
      ghost var cs := Changes(base, Op.Install(pkg, update));
      NothingMade(was, cs, wreck);
      forall k: nat | |was.roots| == 1 && update && k <= |cs|
        ensures RootOf(Interrupted(was, cs, k, wreck)) == Err(NotInstalled) <==> 2 <= k <= 3
      {
        UpdateLosesImageIff(was, pkg, k, wreck);
      }
      if calls == 0 {
        return Err(Failure), 0;
      }
      var root := RootOf(base);
      if root == Err(Dirty) {
        return Err(Dirty), 0;
      }
      var installed := root.Ok?;
      if installed && !update {
        Untouched(was, wreck);
        return Ok(()), 0;
      }
      if calls == 1 {
        return Err(Failure), 0;
      }
      var left := calls - 2;
      ghost var drop: seq<Change> := [];
      if installed {
        drop := Changes(was, Op.Remove);
        var removed: Result<()>;
        removed, left, made := Remove(left, wreck);
        InterruptedPrefix(was, drop, cs[|drop|..], made, wreck);
        assert cs == drop + cs[|drop|..];
        if removed.Err? {
          return Err(removed.error), made;
        }
        InterruptedAll(was, drop, wreck);
      } else {
        MakeNothing(was);
      }
      assert base == MakeAll(was, drop);
      ghost var put := cs[|drop|..];
      assert cs == drop + put;
      made := |drop|;
      InterruptedLater(was, drop, put, |drop|, wreck);
      NothingMade(base, put, wreck);
      // the temporary directory, its contents, their status, and the base directory
      if left < 3 {
        return Err(Failure), made;
      }
      if pkg.manifest.Missing? {
        return Err(Malformed), made;
      }
      if left < 5 {
        return Err(Failure), made;
      }
      var name, tree := Hex(pkg.digest), Tree(pkg.manifest);
      ghost var empty := base;
      assert put == [PutConfig(name, pkg.reference), PutRoot(name, tree)];
      TwoChanges(empty, put[0], put[1]);
      base := Make(base, PutConfig(name, pkg.reference));
      made := made + 1;
      InterruptedLater(was, drop, put, |drop| + 1, wreck);
      MadeOne(empty, put, wreck);
      if left < 6 {
        return Err(Failure), made;
      }
      base := Make(base, PutRoot(name, tree));
      made := made + 1;
      InterruptedLater(was, drop, put, |drop| + 2, wreck);
      InterruptedAll(empty, put, wreck);
      return Ok(()), made;
    }
  }

  /** A first call that is not the removal of a root changes nothing when it fails. */
  lemma NothingMade(b: Base, cs: seq<Change>, wreck: Tree)
    requires cs == [] || !cs[0].DropRoot?
    ensures Interrupted(b, cs, 0, wreck) == b
  {
    assert cs[..0] == [];
  }

  lemma MakeNothing(b: Base)
    ensures MakeAll(b, []) == b
  {
  }

  lemma MadeOne(b: Base, cs: seq<Change>, wreck: Tree)
    requires |cs| == 2 && !cs[1].DropRoot?
    ensures Interrupted(b, cs, 1, wreck) == Make(b, cs[0])
  {
    assert cs[..1] == [cs[0]];
    TwoChanges(b, cs[0], cs[1]);
  }

  /** Being stopped in the first part of a list of changes. */
  lemma InterruptedPrefix(b: Base, xs: seq<Change>, ys: seq<Change>, made: nat, wreck: Tree)
    requires made <= |xs| && (ys == [] || !ys[0].DropRoot?)
    ensures Interrupted(b, xs + ys, made, wreck) == Interrupted(b, xs, made, wreck)
  {
    if made < |xs| {
      InterruptedEarlier(b, xs, ys, made, wreck);
    } else {
      InterruptedLater(b, xs, ys, made, wreck);
      NothingMade(MakeAll(b, xs), ys, wreck);
      InterruptedAll(b, xs, wreck);
    }
  }
}
