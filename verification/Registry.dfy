/**
 The daemon's registry of driver pools (daemon/daemon.go): a cache from languages to pools,
 with a map of aliases, over the list of installed drivers.

 Letter case is that of ASCII. Starting a pool may fail.
 */
module Registry {

  /** The manifest of an installed driver, with the image that it comes from and its version. */
  datatype Manifest = Manifest(language: string, aliases: seq<string>, image: string, digest: string)

  /** A running pool, which serves the image of one manifest. */
  datatype Pool = Pool(manifest: Manifest, id: nat)

  datatype Option<+T> = None | Some(value: T)

  // ----- Names -----

  function LowerChar(c: char): char
  {
    if 'A' <= c <= 'Z' then (c as int + 32) as char else c
  }

  function Lower(s: string): string
  {
    seq(|s|, i requires 0 <= i < |s| => LowerChar(s[i]))
  }

  lemma LowerTwice(s: string)
    ensures Lower(Lower(s)) == Lower(s)
  {
  }

  /** The same letters, each in either case. */
  predicate SameButCase(a: string, b: string)
  {
    |a| == |b| && forall i | 0 <= i < |a| :: a[i] == b[i] || OtherCase(a[i], b[i]) || OtherCase(b[i], a[i])
  }

  predicate OtherCase(upper: char, lower: char)
  {
    'A' <= upper <= 'Z' && lower as int == upper as int + 32
  }

  lemma LowerIgnoresCase(a: string, b: string)
    ensures Lower(a) == Lower(b) <==> SameButCase(a, b)
  {
    if Lower(a) == Lower(b) {
      assert |Lower(a)| == |a| && |Lower(b)| == |b|;
      forall i | 0 <= i < |a|
        ensures a[i] == b[i] || OtherCase(a[i], b[i]) || OtherCase(b[i], a[i])
      {
        assert Lower(a)[i] == LowerChar(a[i]) && Lower(b)[i] == LowerChar(b[i]);
      }
    }
  }

  /** `lang`, in any letter case, is the language of the manifest or one of its aliases. */
  predicate Named(m: Manifest, lang: string)
  {
    Lower(m.language) == Lower(lang) || exists i | 0 <= i < |m.aliases| :: Lower(m.aliases[i]) == Lower(lang)
  }

  lemma NamedLower(m: Manifest, lang: string)
    ensures Named(m, Lower(lang)) <==> Named(m, lang)
  {
    LowerTwice(lang);
  }

  /** driverWithLang: the first installed driver with that name. */
  function Find(list: seq<Manifest>, lang: string): Option<Manifest>
  {
    if list == [] then None
    else if Named(list[0], lang) then Some(list[0])
    else Find(list[1..], lang)
  }

  /** The search of the source, alias by alias. */
  method DriverWithLang(lang: string, list: seq<Manifest>) returns (r: Option<Manifest>)
    ensures r == Find(list, lang)
  {
    var name := Lower(lang);
    var i := 0;
    while i < |list|
      invariant 0 <= i <= |list|
      invariant Find(list, lang) == Find(list[i..], lang)
    {
      var m := list[i];
      if Lower(m.language) == name {
        return Some(m);
      }
      var k := 0;
      while k < |m.aliases|
        invariant 0 <= k <= |m.aliases|
        invariant forall j | 0 <= j < k :: Lower(m.aliases[j]) != name
      {
        if Lower(m.aliases[k]) == name {
          assert Named(m, lang);
          return Some(m);
        }
        k := k + 1;
      }
      assert !Named(m, lang);
      assert list[i..][1..] == list[i + 1..];
      i := i + 1;
    }
    return None;
  }

  lemma {:induction false} FindFinds(list: seq<Manifest>, lang: string)
    ensures Find(list, lang).Some? ==> Find(list, lang).value in list && Named(Find(list, lang).value, lang)
    ensures Find(list, lang).None? ==> forall m | m in list :: !Named(m, lang)
  {
    if list == [] {
    } else {
      FindFinds(list[1..], lang);
    }
  }

  /** Of several drivers with a name, the first one listed is found. */
  lemma {:induction false} FindIsFirst(list: seq<Manifest>, lang: string, k: nat)
    requires k < |list| && Named(list[k], lang) && forall j | 0 <= j < k :: !Named(list[j], lang)
    ensures Find(list, lang) == Some(list[k])
  {
    if k == 0 {
    } else {
      assert forall j | 0 <= j < k - 1 :: list[1..][j] == list[j + 1];
      FindIsFirst(list[1..], lang, k - 1);
    }
  }

  /** Neither the search nor a lookup distinguishes names that differ in letter case only. */
  lemma LookupIgnoresCase(pool: map<string, Pool>, aliases: map<string, string>, list: seq<Manifest>, a: string, b: string)
    requires SameButCase(a, b)
    ensures Find(list, a) == Find(list, b)
    ensures Answer(pool, aliases, list, a) == Answer(pool, aliases, list, b)
    ensures forall c, starts :: AfterLookup(c, a, starts) == AfterLookup(c, b, starts)
  {
    hide Lower;
    LowerIgnoresCase(a, b);
    FindLower(list, a);
    FindLower(list, b);
  }

  // ----- What keeps the cache right -----

  /** The pool of the driver, kept under its language as written, is found again under the lowered one. */
  predicate Cacheable(m: Manifest)
  {
    Lower(m.language) == m.language || exists i | 0 <= i < |m.aliases| :: Lower(m.aliases[i]) == Lower(m.language)
  }

  /** Every driver is cacheable and no name belongs to two of them. */
  ghost predicate Distinct(list: seq<Manifest>)
  {
    && (forall m | m in list :: Cacheable(m))
    && (forall i, j, lang | 0 <= i < |list| && 0 <= j < |list| && Named(list[i], lang) && Named(list[j], lang) :: i == j)
  }

  /**
   A cached pool serves an installed driver under its language; an alias leads to the language
   of the installed driver with that name, and what it leads to is no alias of another one.
   */
  ghost predicate Consistent(pool: map<string, Pool>, aliases: map<string, string>, installed: seq<Manifest>)
  {
    && (forall l | l in pool :: pool[l].manifest in installed && pool[l].manifest.language == l)
    && (forall a | a in aliases :: Lower(a) == a)
    && (forall a, m | a in aliases && m in installed :: Named(m, a) <==> aliases[a] == m.language)
    && (forall a, m | a in aliases && m in installed && Named(m, aliases[a]) :: aliases[a] == m.language)
  }

  /** Every alias of a driver with a pool is in the map. */
  ghost predicate AliasesKnown(pool: map<string, Pool>, aliases: map<string, string>)
  {
    forall l, i | l in pool && 0 <= i < |pool[l].manifest.aliases| :: Lower(pool[l].manifest.aliases[i]) in aliases
  }

  function Resolve(aliases: map<string, string>, lang: string): string
  {
    if lang in aliases then aliases[lang] else lang
  }

  lemma OnlyOneNamed(list: seq<Manifest>, m: Manifest, lang: string)
    requires Distinct(list) && m in list && Named(m, lang)
    ensures Find(list, lang) == Some(m)
  {
    FindFinds(list, lang);
    var i :| 0 <= i < |list| && list[i] == m;
    var f := Find(list, lang).value;
    var j :| 0 <= j < |list| && list[j] == f;
  }

  /** Resolving an alias does not change which installed driver is meant. */
  lemma ResolveKeepsMeaning(pool: map<string, Pool>, aliases: map<string, string>, installed: seq<Manifest>, lang: string)
    requires Distinct(installed) && Consistent(pool, aliases, installed)
    ensures Find(installed, Resolve(aliases, lang)) == Find(installed, lang)
  {
    FindFinds(installed, lang);
    FindFinds(installed, Resolve(aliases, lang));
    if lang in aliases {
      var l := aliases[lang];
      if Find(installed, lang).Some? {
        var m := Find(installed, lang).value;
        assert l == m.language && Named(m, l);
        OnlyOneNamed(installed, m, l);
      }
    }
  }

  /** A pool found under a name serves the driver of that name. */
  lemma PoolServes(pool: map<string, Pool>, aliases: map<string, string>, installed: seq<Manifest>, lang: string)
    requires Distinct(installed) && Consistent(pool, aliases, installed) && lang in pool
    ensures Find(installed, lang) == Some(pool[lang].manifest)
  {
    OnlyOneNamed(installed, pool[lang].manifest, lang);
  }

  // ----- What the daemon answers -----

  /** What the daemon answers from its cache alone. */
  function Cached(pool: map<string, Pool>, aliases: map<string, string>, lang: string): Option<Pool>
  {
    var l := Resolve(aliases, Lower(lang));
    if l in pool then Some(pool[l]) else None
  }

  /** The driver whose pool a lookup gets: two looks into the cache, and then the search. */
  function Answer(pool: map<string, Pool>, aliases: map<string, string>, list: seq<Manifest>, lang: string): Option<Manifest>
  {
    var first := Resolve(aliases, Lower(lang));
    if first in pool then Some(pool[first].manifest)
    else
      var second := Resolve(aliases, first);
      if second in pool then Some(pool[second].manifest) else Find(list, second)
  }

  /** Every lookup gets what the linear search finds. */
  ghost predicate AnswersRight(pool: map<string, Pool>, aliases: map<string, string>, list: seq<Manifest>)
  {
    forall lang :: Answer(pool, aliases, list, lang) == Find(list, lang)
  }

  lemma ConsistentAnswersRight(pool: map<string, Pool>, aliases: map<string, string>, list: seq<Manifest>, lang: string)
    requires Distinct(list) && Consistent(pool, aliases, list)
    ensures Answer(pool, aliases, list, lang) == Find(list, lang)
  {
    hide Distinct, Consistent;
    var first := Resolve(aliases, Lower(lang));
    var second := Resolve(aliases, first);
    FindLower(list, lang);
    ResolveKeepsMeaning(pool, aliases, list, Lower(lang));
    ResolveKeepsMeaning(pool, aliases, list, first);
    if first in pool {
      PoolServes(pool, aliases, list, first);
    } else if second in pool {
      PoolServes(pool, aliases, list, second);
    }
  }

  // ----- The daemon -----

  /** The alias map after the first `k` aliases of `m` were registered. */
  function WithAliases(aliases: map<string, string>, m: Manifest, k: nat): map<string, string>
    requires k <= |m.aliases|
  {
    if k == 0 then aliases else WithAliases(aliases, m, k - 1)[Lower(m.aliases[k - 1]) := m.language]
  }

  /**
   What the store holds: the drivers that List gives, in its order; the images whose root was left
   without a configuration, which List omits; and whether some configuration was left without a
   root, which makes every List fail. ViewAfter in Storage proves that these are what any operation
   on an image, stopped anywhere, leads to.
   */
  datatype Store = Store(list: seq<Manifest>, hidden: set<string>, broken: bool)

  /** The fields of the daemon. */
  datatype Cache = Cache(pool: map<string, Pool>, aliases: map<string, string>, store: Store, started: nat)

  function AfterLookup(c: Cache, lang: string, starts: bool): Cache
  {
    var first := Resolve(c.aliases, Lower(lang));
    var second := Resolve(c.aliases, first);
    var found := Find(c.store.list, second);
    if first in c.pool || second in c.pool || c.store.broken || found.None? || !starts then c
    else
      var m := found.value;
      c.(pool := c.pool[m.language := Pool(m, c.started)], aliases := WithAliases(c.aliases, m, |m.aliases|), started := c.started + 1)
  }

  class Daemon {
    var pool: map<string, Pool>
    var aliases: map<string, string>
    var store: Store
    var started: nat                     // pools ever started

    ghost predicate Valid()
      reads this
    {
      Distinct(store.list) && Consistent(pool, aliases, store.list) && AliasesKnown(pool, aliases)
    }

    ghost function Contents(): Cache
      reads this
    {
      Cache(pool, aliases, store, started)
    }

    constructor (list: seq<Manifest>)
      requires Distinct(list)
      ensures Valid() && Contents() == Cache(map[], map[], Store(list, {}, false), 0)
    {
      pool, aliases, store, started := map[], map[], Store(list, {}, false), 0;
    }

    /**
     DriverPool: a pool of the driver that Answer says, from whatever state of the cache. From a
     right cache this is the driver that the linear search finds; there is an error only when
     there is none, the store cannot be listed or a new pool does not start; and cached pools are reused.
     */
    method DriverPool(language: string, starts: bool) returns (r: Option<Pool>)
      modifies this`pool, this`aliases, this`started
      ensures r.Some? ==> Some(r.value.manifest) == Answer(old(pool), old(aliases), store.list, language)
      ensures r.None? ==> Answer(old(pool), old(aliases), store.list, language).None? || !starts || store.broken
      ensures Contents() == AfterLookup(old(Contents()), language, starts)
      ensures old(Valid()) ==>
                && Valid()
                && (r.Some? ==> Find(store.list, language) == Some(r.value.manifest))
                && (r.Some? ==> r.value.manifest.language in pool && pool[r.value.manifest.language] == r.value)
                && (r.None? ==> Find(store.list, language).None? || !starts || store.broken)
                && (forall l | l in old(pool) :: l in pool && pool[l] == old(pool)[l])
                && pool.Keys <= old(pool).Keys + (if r.Some? then {r.value.manifest.language} else {})
    {
      hide Distinct, Consistent, AliasesKnown;
      var name := Lower(language);
      ghost var valid := Valid();
      if valid {
        ConsistentAnswersRight(pool, aliases, store.list, language);
      }
      // first look, under the read lock
      var first := Resolve(aliases, name);
      if first in pool {
        LanguageOf(pool, aliases, store.list, first, valid);
        return Some(pool[first]);
      }
      // second look, under the write lock
      var second := Resolve(aliases, first);
      if second in pool {
        LanguageOf(pool, aliases, store.list, second, valid);
        return Some(pool[second]);
      }
      if store.broken {
        return None;
      }
      var found := DriverWithLang(second, store.list);
      if found.None? || !starts {
        return None;
      }
      if valid {
        LowerTwice(language);
        NamesResolve(pool, aliases, store.list, name, found.value);
      }
      var p := NewDriverPool(found.value);
      return Some(p);
    }

    /** newDriverPool: registers a started pool under the language, and all aliases. */
    method NewDriverPool(m: Manifest) returns (p: Pool)
      modifies this`pool, this`aliases, this`started
      ensures p.manifest == m && p.id == old(started) && started == old(started) + 1
      ensures pool == old(pool)[m.language := p]
      ensures aliases == WithAliases(old(aliases), m, |m.aliases|)
      ensures old(Valid()) && m in store.list && m.language !in old(pool) ==> Valid()
    {
      hide Distinct, Consistent, AliasesKnown;
      p := Pool(m, started);
      started := started + 1;
      ghost var right := Valid() && m in store.list && m.language !in pool;
      if right {
        NewPoolConsistent(pool, aliases, store.list, p);
      }
      pool := pool[m.language := p];
      var i := 0;
      while i < |m.aliases|
        invariant 0 <= i <= |m.aliases|
        invariant pool == old(pool)[m.language := p] && started == old(started) + 1
        invariant aliases == WithAliases(old(aliases), m, i)
        invariant right ==> Consistent(pool, aliases, store.list) && KnownSoFar(old(pool), aliases, m, i)
      {
        if right {
          AliasKeepsConsistent(pool, aliases, store.list, m, i);
          OneMoreKnown(old(pool), aliases, m, i);
        }
        aliases := aliases[Lower(m.aliases[i]) := m.language];
        i := i + 1;
      }
      if right {
        AllKnown(old(pool), aliases, p);
      }
    }

    /** removePool: by the very string given, neither lowered nor resolved. */
    method RemovePool(language: string)
      modifies this`pool
      ensures pool == old(pool) - {language}
    {
      if language in pool {
        pool := pool - {language};
      }
    }

    /**
     RemoveDriver: uninstalls the driver that the search finds, then drops the pool of the given
     name; `made` of the two changes to the store succeed. If the second one fails, the driver is
     listed no more, but nobody drops its pool.
     */
    method RemoveDriver(language: string, made: nat) returns (ok: bool)
      requires Valid()
      modifies this`pool, this`store
      ensures ok <==> !old(store).broken && Find(old(store).list, language).Some? && made >= 2
      ensures Contents() == AfterRemoval(old(Contents()), language, made)
      ensures Valid() <==> HarmlessRemoval(old(Contents()), language, made)
      ensures AnswersRight(pool, aliases, store.list) <==> HarmlessRemoval(old(Contents()), language, made)
    {
      hide Distinct, Consistent, AnswersRight, Without, Find;
      if store.broken || made == 0 {
        StaysRight(pool, aliases, store.list);
        return false;
      }
      var found := DriverWithLang(language, store.list);
      if found.None? {
        StaysRight(pool, aliases, store.list);
        return false;
      }
      ghost var list, cache := store.list, pool;
      FindFinds(store.list, language);
      store := Dropped(store, found.value, made);
      if made == 1 {
        HiddenRight(cache, aliases, list, found.value);
        return false;
      }
      RemovePool(language);
      RemovalKeepsConsistent(cache, aliases, list, found.value, language);
      return true;
    }

    /**
     InstallDriver: the driver found under the language is removed first if this is an update, and
     so is an older version from the same image; nobody tells the cache. It stays right exactly if
     no driver that goes has a pool, and the remembered aliases fit the driver that comes.
     */
    method InstallDriver(req: Request) returns (ok: bool)
      requires Valid()
      modifies this`store
      ensures store == AfterInstall(old(store), req)
      ensures ok <==> !Refused(old(store), req) && (Occupied(old(store), req) || req.made >= Removals(old(store), req) + 2)
      ensures store.broken <==>
                old(store).broken || (!Refused(old(store), req) && !Occupied(old(store), req) && req.made == Removals(old(store), req) + 1)
      ensures Valid() <==>
                && Distinct(store.list)
                && NoPoolGone(pool, old(store).list, store.list)
                && (forall m | m in store.list && m !in old(store).list :: Fits(aliases, m))
      ensures Distinct(store.list) ==>
                (AnswersRight(pool, aliases, store.list) <==>
                   && NoPoolGone(pool, old(store).list, store.list)
                   && (forall m | m in store.list && m !in old(store).list :: Leads(aliases, m)))
    {
      hide Distinct, Consistent, AliasesKnown, AnswersRight, NoPoolGone, Fits, Leads, AfterInstall;
      ghost var list := store.list;
      store, ok := InstallInto(store, req);
      InstallConsistent(pool, aliases, list, store.list);
      if Distinct(store.list) {
        InstallAnswers(pool, aliases, list, store.list);
      }
    }
  }

  /** The part of InstallDriver that changes the store: the removals and renames, one after the other. */
  method InstallInto(st: Store, req: Request) returns (next: Store, ok: bool)
    ensures next == AfterInstall(st, req)
    ensures ok <==> !Refused(st, req) && (Occupied(st, req) || req.made >= Removals(st, req) + 2)
    ensures next.broken <==> st.broken || (!Refused(st, req) && !Occupied(st, req) && req.made == Removals(st, req) + 1)
  {
    hide Without, Find, FindImage, Insert;
    next := st;
    if st.broken {
      return next, false;
    }
    var found := DriverWithLang(req.language, st.list);
    var left := req.made;
    if found.Some? {
      if !req.update {
        return next, false;
      }
      next := Dropped(next, found.value, left);
      if left < 2 {
        return next, false;
      }
      left := left - 2;
    }
    var occupant := FindImage(next.list, req.driver.image);
    if occupant.Some? || req.driver.image in next.hidden {
      if !req.update {
        return next, true;
      }
      next := if occupant.Some? then Dropped(next, occupant.value, left) else Unhidden(next, req.driver.image, left);
      if left < 2 {
        return next, false;
      }
      left := left - 2;
    }
    // the configuration, and then the root
    if left == 0 {
      return next, false;
    }
    if left == 1 {
      return next.(broken := true), false;
    }
    return next.(list := Insert(next.list, req.driver, req.at)), true;
  }

  lemma StaysRight(pool: map<string, Pool>, aliases: map<string, string>, list: seq<Manifest>)
    requires Distinct(list) && Consistent(pool, aliases, list)
    ensures AnswersRight(pool, aliases, list)
  {
    hide Distinct, Consistent, Answer;
    forall lang
      ensures Answer(pool, aliases, list, lang) == Find(list, lang)
    {
      ConsistentAnswersRight(pool, aliases, list, lang);
    }
  }

  lemma LanguageOf(pool: map<string, Pool>, aliases: map<string, string>, installed: seq<Manifest>, l: string, valid: bool)
    requires l in pool && (valid ==> Consistent(pool, aliases, installed))
    ensures valid ==> pool[l].manifest.language == l
  {
  }

  /** The aliases of the drivers in `pool`, and the first `k` of `m`, are in the map. */
  ghost predicate KnownSoFar(pool: map<string, Pool>, aliases: map<string, string>, m: Manifest, k: nat)
    requires k <= |m.aliases|
  {
    AliasesKnown(pool, aliases) && forall j | 0 <= j < k :: Lower(m.aliases[j]) in aliases
  }

  lemma OneMoreKnown(pool: map<string, Pool>, aliases: map<string, string>, m: Manifest, k: nat)
    requires k < |m.aliases| && KnownSoFar(pool, aliases, m, k)
    ensures KnownSoFar(pool, aliases[Lower(m.aliases[k]) := m.language], m, k + 1)
  {
  }

  lemma AllKnown(pool: map<string, Pool>, aliases: map<string, string>, p: Pool)
    requires KnownSoFar(pool, aliases, p.manifest, |p.manifest.aliases|)
    ensures AliasesKnown(pool[p.manifest.language := p], aliases)
  {
  }

  // ----- Installing -----

  // ----- The store -----

  /** `made` of the two changes that remove a listed driver: first its configuration, then its root. */
  function Dropped(st: Store, m: Manifest, made: nat): Store
  {
    if made == 0 then st
    else st.(list := Without(st.list, m), hidden := if made == 1 then st.hidden + {m.image} else st.hidden)
  }

  /** The same for an image that has no configuration any more. */
  function Unhidden(st: Store, image: string, made: nat): Store
  {
    if made < 2 then st else st.(hidden := st.hidden - {image})
  }

  function AfterRemoval(c: Cache, lang: string, made: nat): Cache
  {
    var found := Find(c.store.list, lang);
    if c.store.broken || found.None? then c
    else c.(store := Dropped(c.store, found.value, made), pool := if made < 2 then c.pool else c.pool - {lang})
  }

  /** When a removal leaves the cache right: the pool that goes is that of the driver, or there is none. */
  predicate HarmlessRemoval(c: Cache, lang: string, made: nat)
  {
    var found := Find(c.store.list, lang);
    || c.store.broken || found.None? || made == 0 || found.value.language !in c.pool
    || (made >= 2 && lang == found.value.language)
  }

  /**
   A call of InstallDriver: what the image holds, how many of the changes to the store succeed,
   and where the new driver is listed.
   */
  datatype Request = Request(language: string, update: bool, driver: Manifest, made: nat, at: nat)

  function FindImage(list: seq<Manifest>, image: string): Option<Manifest>
  {
    if list == [] then None else if list[0].image == image then Some(list[0]) else FindImage(list[1..], image)
  }

  function Insert(list: seq<Manifest>, m: Manifest, at: nat): seq<Manifest>
  {
    var k := if at < |list| then at else |list|;
    list[..k] + [m] + list[k..]
  }

  /** The store cannot be listed, or the language is there and not to be updated. */
  predicate Refused(st: Store, req: Request)
  {
    st.broken || (Find(st.list, req.language).Some? && !req.update)
  }

  /** What is left when the driver found under the language has been removed for an update. */
  function Vacated(st: Store, req: Request): Store
  {
    var found := Find(st.list, req.language);
    if found.Some? && req.update then Dropped(st, found.value, req.made) else st
  }

  /** There is a root of that image, listed or not. */
  predicate HasRoot(st: Store, image: string)
  {
    FindImage(st.list, image).Some? || image in st.hidden
  }

  /** The store has a version of the image and is not to update it: it does nothing and reports no error. */
  predicate Occupied(st: Store, req: Request)
  {
    !req.update && HasRoot(st, req.driver.image)
  }

  /** The changes that come before the new driver is put into the store: removals of the old ones. */
  function Removals(st: Store, req: Request): nat
  {
    (if Find(st.list, req.language).Some? then 2 else 0) + (if HasRoot(Vacated(st, req), req.driver.image) then 2 else 0)
  }

  function AfterInstall(st: Store, req: Request): Store
  {
    if Refused(st, req) || Occupied(st, req) then st
    else
      var rest := Vacated(st, req);
      var spent := if Find(st.list, req.language).Some? then 2 else 0;
      if req.made < spent then rest
      else
        var occupant := FindImage(rest.list, req.driver.image);
        var free :=
          if occupant.Some? then Dropped(rest, occupant.value, req.made - spent)
          else if req.driver.image in rest.hidden then Unhidden(rest, req.driver.image, req.made - spent)
          else rest;
        if req.made <= Removals(st, req) then free
        else if req.made == Removals(st, req) + 1 then free.(broken := true)
        else free.(list := Insert(free.list, req.driver, req.at))
  }

  // ----- What an installation leaves alone -----

  /** Every image has at most one root, listed or not. */
  ghost predicate OneRootEach(st: Store)
  {
    && (forall i, j | 0 <= i < |st.list| && 0 <= j < |st.list| && st.list[i].image == st.list[j].image :: i == j)
    && (forall m | m in st.list :: m.image !in st.hidden)
  }

  /** The drivers, in order, that are neither `gone` nor of the image. */
  function Excluding(list: seq<Manifest>, image: string, gone: Option<Manifest>): seq<Manifest>
  {
    if list == [] then []
    else (if list[0].image == image || gone == Some(list[0]) then [] else [list[0]]) + Excluding(list[1..], image, gone)
  }

  lemma {:induction false} ExcludingConcat(a: seq<Manifest>, b: seq<Manifest>, image: string, gone: Option<Manifest>)
    ensures Excluding(a + b, image, gone) == Excluding(a, image, gone) + Excluding(b, image, gone)
  {
    if a == [] {
      assert a + b == b;
    } else {
      assert (a + b)[1..] == a[1..] + b;
      ExcludingConcat(a[1..], b, image, gone);
    }
  }

  lemma ExcludingOne(m: Manifest, image: string, gone: Option<Manifest>)
    requires m.image == image || gone == Some(m)
    ensures Excluding([m], image, gone) == []
  {
    assert [m][1..] == [];
  }

  /** Taking out, or putting in, an excluded driver changes nothing about the others. */
  lemma ExcludingWithout(list: seq<Manifest>, m: Manifest, image: string, gone: Option<Manifest>)
    requires m.image == image || gone == Some(m)
    ensures Excluding(Without(list, m), image, gone) == Excluding(list, image, gone)
  {
    hide Excluding, IndexOf;
    var k := IndexOf(list, m);
    if k < |list| {
      ExcludingConcat(list[..k], list[k + 1..], image, gone);
      assert list == list[..k] + ([m] + list[k + 1..]);
      ExcludingConcat(list[..k], [m] + list[k + 1..], image, gone);
      ExcludingConcat([m], list[k + 1..], image, gone);
      ExcludingOne(m, image, gone);
    }
  }

  lemma ExcludingInsert(list: seq<Manifest>, m: Manifest, at: nat, image: string, gone: Option<Manifest>)
    requires m.image == image || gone == Some(m)
    ensures Excluding(Insert(list, m, at), image, gone) == Excluding(list, image, gone)
  {
    hide Excluding;
    var k := if at < |list| then at else |list|;
    assert list == list[..k] + list[k..];
    ExcludingConcat(list[..k], list[k..], image, gone);
    ExcludingConcat(list[..k] + [m], list[k..], image, gone);
    ExcludingConcat(list[..k], [m], image, gone);
    ExcludingOne(m, image, gone);
  }

  lemma {:induction false} FindImageFinds(list: seq<Manifest>, image: string)
    ensures FindImage(list, image).Some? ==> FindImage(list, image).value in list && FindImage(list, image).value.image == image
    ensures FindImage(list, image).None? ==> forall m | m in list :: m.image != image
  {
    if list == [] {
    } else {
      FindImageFinds(list[1..], image);
    }
  }

  /** With one root per image, taking out a driver takes out its image. */
  lemma WithoutImage(list: seq<Manifest>, m: Manifest)
    requires m in list
    requires forall i, j | 0 <= i < |list| && 0 <= j < |list| && list[i].image == list[j].image :: i == j
    ensures var rest := Without(list, m);
            && (forall i, j | 0 <= i < |rest| && 0 <= j < |rest| && rest[i].image == rest[j].image :: i == j)
            && (forall o | o in rest :: o in list && o.image != m.image)
            && (forall o | o in list && o != m :: o in rest)
  {
    hide Without, IndexOf;
    var rest := Without(list, m);
    forall i | 0 <= i < |rest|
      ensures rest[i] in list && rest[i].image != m.image
    {
      var j := WithoutAt(list, m, i);
    }
    forall i, j | 0 <= i < |rest| && 0 <= j < |rest| && rest[i].image == rest[j].image
      ensures i == j
    {
      var x := WithoutAt(list, m, i);
      var y := WithoutAt(list, m, j);
    }
    forall o | o in list && o != m
      ensures o in rest
    {
      WithoutOther(list, m, o);
    }
  }

  lemma WithoutOther(list: seq<Manifest>, m: Manifest, o: Manifest)
    requires o in list && o != m
    ensures o in Without(list, m)
  {
    hide IndexOf;
    var k := IndexOf(list, m);
    var j :| 0 <= j < |list| && list[j] == o;
    if k < |list| {
      assert Without(list, m)[if j < k then j else j - 1] == o;
    }
  }

  lemma DroppedKeeps(st: Store, m: Manifest, made: nat, image: string, gone: Option<Manifest>)
    requires OneRootEach(st) && m in st.list && (m.image == image || gone == Some(m))
    ensures var next := Dropped(st, m, made);
            && OneRootEach(next)
            && Excluding(next.list, image, gone) == Excluding(st.list, image, gone)
            && (forall o | o in next.list :: o in st.list)
            && (forall i :: i in next.hidden <==> i in st.hidden || (i == m.image && made == 1))
            && (made > 0 ==> forall o | o in next.list :: o.image != m.image)
            && (made == 0 ==> next == st)
  {
    hide Without;
    if made > 0 {
      WithoutImage(st.list, m);
      ExcludingWithout(st.list, m, image, gone);
    }
  }

  lemma InsertKeeps(st: Store, m: Manifest, at: nat)
    requires OneRootEach(st) && m.image !in st.hidden && forall o | o in st.list :: o.image != m.image
    ensures OneRootEach(st.(list := Insert(st.list, m, at)))
    ensures forall o :: o in Insert(st.list, m, at) <==> o == m || o in st.list
  {
    var k := if at < |st.list| then at else |st.list|;
    var list := Insert(st.list, m, at);
    forall o
      ensures o in list <==> o == m || o in st.list
    {
      Inserted(st.list, m, at, o);
    }
    forall i, j | 0 <= i < |list| && 0 <= j < |list| && list[i].image == list[j].image
      ensures i == j
    {
      assert i != k ==> list[i] == st.list[if i < k then i else i - 1];
      assert j != k ==> list[j] == st.list[if j < k then j else j - 1];
    }
  }

  /** What is left of the store when the removals of an installation are over, or have failed. */
  lemma FreedKeeps(st: Store, image: string, left: nat, gone: Option<Manifest>)
    requires OneRootEach(st)
    ensures var occupant := FindImage(st.list, image);
            var free := if occupant.Some? then Dropped(st, occupant.value, left)
                        else if image in st.hidden then Unhidden(st, image, left) else st;
            && OneRootEach(free)
            && Excluding(free.list, image, gone) == Excluding(st.list, image, gone)
            && (forall m | m in free.list :: m in st.list)
            && (forall i | i != image :: i in free.hidden <==> i in st.hidden)
            && (left >= 2 || !HasRoot(st, image) ==> image !in free.hidden && forall m | m in free.list :: m.image != image)
  {
    hide FindImage, Dropped;
    FindImageFinds(st.list, image);
    var occupant := FindImage(st.list, image);
    if occupant.Some? {
      DroppedKeeps(st, occupant.value, left, image, gone);
    }
  }

  /** The installation is neither refused nor idle, and all its changes succeed. */
  predicate Completes(st: Store, req: Request)
  {
    !Refused(st, req) && !Occupied(st, req) && req.made >= Removals(st, req) + 2
  }

  /**
   What an installation does to the store, however far it comes: all drivers but the one found under
   the language and the one of the same image stay, in their order; nothing comes in but the new
   driver; roots are hidden or freed at those two images only. If it completes, the new driver is
   listed and those two are not. If it is refused, or there is nothing to do, nothing changes.
   */
  lemma InstallEffect(st: Store, req: Request)
    requires OneRootEach(st)
    ensures var next := AfterInstall(st, req);
            var found := Find(st.list, req.language);
            var image := req.driver.image;
            && OneRootEach(next)
            && Excluding(next.list, image, found) == Excluding(st.list, image, found)
            && (forall m | m in next.list :: m in st.list || m == req.driver)
            && (forall i | i != image && !(found.Some? && i == found.value.image) :: i in next.hidden <==> i in st.hidden)
            && (Completes(st, req) ==>
                  && req.driver in next.list && image !in next.hidden
                  && (forall m | m in next.list && m != req.driver :: found != Some(m) && m.image != image)
                  && (found.Some? ==> found.value.image !in next.hidden))
            && (st.broken || (!req.update && (found.Some? || HasRoot(st, image))) ==> next == st)
  {
    hide Find, FindImage, Dropped, Unhidden, Excluding, Insert, OneRootEach;
    var found := Find(st.list, req.language);
    var image := req.driver.image;
    FindFinds(st.list, req.language);
    if !Refused(st, req) && !Occupied(st, req) {
      var rest := Vacated(st, req);
      var spent := if found.Some? then 2 else 0;
      if found.Some? {
        FoundGoes(st, found.value, req.made, image);
      }
      if req.made >= spent {
        FreedKeeps(rest, image, req.made - spent, found);
        var occupant := FindImage(rest.list, image);
        var free := if occupant.Some? then Dropped(rest, occupant.value, req.made - spent)
                    else if image in rest.hidden then Unhidden(rest, image, req.made - spent) else rest;
        if Completes(st, req) {
          InsertKeeps(free, req.driver, req.at);
          ExcludingInsert(free.list, req.driver, req.at, image, found);
        }
        BrokenKeeps(free);
      }
    }
  }

  lemma BrokenKeeps(st: Store)
    requires OneRootEach(st)
    ensures OneRootEach(st.(broken := true))
  {
  }

  lemma FoundGoes(st: Store, m: Manifest, made: nat, image: string)
    requires OneRootEach(st) && m in st.list
    ensures var next := Dropped(st, m, made);
            && OneRootEach(next)
            && Excluding(next.list, image, Some(m)) == Excluding(st.list, image, Some(m))
            && (forall o | o in next.list :: o in st.list)
            && (forall i | i != m.image :: i in next.hidden <==> i in st.hidden)
            && (made >= 2 ==> m !in next.list && m.image !in next.hidden)
  {
    DroppedKeeps(st, m, made, image, Some(m));
  }

  /**
   What a removal does: the driver found is listed no more, all others are, in their order; its root
   is left behind exactly if the second change fails; and only when both succeed is a pool dropped,
   the one under the very name given.
   */
  lemma RemovalEffect(c: Cache, lang: string, made: nat)
    requires OneRootEach(c.store)
    ensures var next := AfterRemoval(c, lang, made);
            var found := Find(c.store.list, lang);
            && OneRootEach(next.store)
            && (c.store.broken || found.None? || made == 0 ==> next == c)
            && (!c.store.broken && found.Some? && made > 0 ==>
                  var m := found.value;
                  && m !in next.store.list
                  && Excluding(next.store.list, m.image, found) == Excluding(c.store.list, m.image, found)
                  && (forall o | o in next.store.list :: o in c.store.list)
                  && (forall i :: i in next.store.hidden <==> i in c.store.hidden || (i == m.image && made == 1))
                  && next.pool == (if made == 1 then c.pool else c.pool - {lang})
                  && next.aliases == c.aliases)
  {
    hide Find, Dropped, Excluding, OneRootEach;
    var found := Find(c.store.list, lang);
    FindFinds(c.store.list, lang);
    if found.Some? {
      DroppedKeeps(c.store, found.value, made, found.value.image, found);
    }
  }

  lemma RootsAfter(c: Cache, op: Op)
    requires OneRootEach(c.store)
    ensures OneRootEach(After(c, op).store)
  {
    hide OneRootEach, AfterRemoval, AfterInstall;
    match op
    case Lookup(_, _) =>
    case Removal(lang, made) => RemovalEffect(c, lang, made);
    case Installation(req) => InstallEffect(c.store, req);
  }

  /** Over every run of the daemon, whatever fails in the store, no image has two roots. */
  lemma {:induction false} OneRootAlways(c: Cache, ops: seq<Op>)
    requires OneRootEach(c.store)
    ensures OneRootEach(AfterAll(c, ops).store)
    decreases |ops|
  {
    hide OneRootEach, After;
    if ops == [] {
    } else {
      OneRootAlways(c, ops[..|ops| - 1]);
      RootsAfter(AfterAll(c, ops[..|ops| - 1]), ops[|ops| - 1]);
    }
  }

  /** No driver that is gone has a pool. */
  ghost predicate NoPoolGone(pool: map<string, Pool>, list: seq<Manifest>, next: seq<Manifest>)
  {
    forall m | m in list && m !in next :: m.language !in pool
  }

  /** The remembered aliases agree with a driver: they lead to its language exactly if they are names of it. */
  ghost predicate Fits(aliases: map<string, string>, m: Manifest)
  {
    && (forall a | a in aliases :: Named(m, a) <==> aliases[a] == m.language)
    && (forall a | a in aliases && Named(m, aliases[a]) :: aliases[a] == m.language)
  }

  /** Followed as a lookup does, twice, an alias leads to a name of the driver exactly if it is one. */
  ghost predicate Leads(aliases: map<string, string>, m: Manifest)
  {
    forall a | a in aliases :: Named(m, a) <==> Named(m, Resolve(aliases, aliases[a]))
  }

  /** Whatever changes in the list: what the unchanged cache needs to stay consistent with it. */
  lemma InstallConsistent(pool: map<string, Pool>, aliases: map<string, string>, list: seq<Manifest>, next: seq<Manifest>)
    requires Distinct(list) && Consistent(pool, aliases, list)
    ensures Consistent(pool, aliases, next) <==>
              NoPoolGone(pool, list, next) && forall m | m in next && m !in list :: Fits(aliases, m)
  {
    forall m | m in list && m.language in pool
      ensures pool[m.language].manifest == m
    {
      OnlyOneNamed(list, m, m.language);
      PoolServes(pool, aliases, list, m.language);
    }
  }

  /** The pool of a driver that is gone still answers to its language. */
  lemma GonePoolAnswers(pool: map<string, Pool>, aliases: map<string, string>, list: seq<Manifest>, next: seq<Manifest>, m: Manifest)
    requires Distinct(list) && Consistent(pool, aliases, list) && AliasesKnown(pool, aliases)
    requires m in list && m !in next && m.language in pool
    ensures Answer(pool, aliases, next, m.language) == Some(m) != Find(next, m.language)
  {
    hide Distinct, Consistent, AliasesKnown;
    LanguageResolves(pool, aliases, list, m);
    FindFinds(next, m.language);
  }

  /** The lowered language of a driver with a pool leads to that pool. */
  lemma LanguageResolves(pool: map<string, Pool>, aliases: map<string, string>, list: seq<Manifest>, m: Manifest)
    requires Distinct(list) && Consistent(pool, aliases, list) && AliasesKnown(pool, aliases) && m in list && m.language in pool
    ensures pool[m.language].manifest == m && Resolve(aliases, Lower(m.language)) == m.language
  {
    OnlyOneNamed(list, m, m.language);
    PoolServes(pool, aliases, list, m.language);
    var x := Lower(m.language);
    LowerTwice(m.language);
    assert Named(m, x);
    if x != m.language {
      var i :| 0 <= i < |m.aliases| && Lower(m.aliases[i]) == x;
      assert Lower(pool[m.language].manifest.aliases[i]) in aliases;
    }
  }

  /** A language with a pool is not led elsewhere, and its driver has no new driver beside it. */
  lemma PooledLanguage(pool: map<string, Pool>, aliases: map<string, string>, list: seq<Manifest>, next: seq<Manifest>, l: string)
    requires Distinct(list) && Consistent(pool, aliases, list) && Distinct(next) && NoPoolGone(pool, list, next) && l in pool
    ensures Resolve(aliases, l) == l
    ensures pool[l].manifest in list && pool[l].manifest.language == l
    ensures Find(next, l) == Some(pool[l].manifest)
  {
    var p := pool[l].manifest;
    assert Named(p, l);
    OnlyOneNamed(next, p, l);
  }

  /** A driver that stays is found under each remembered alias exactly if the alias leads to it. */
  lemma OldNamesLead(pool: map<string, Pool>, aliases: map<string, string>, list: seq<Manifest>, a: string, m: Manifest)
    requires Distinct(list) && Consistent(pool, aliases, list) && a in aliases && m in list
    ensures Named(m, a) <==> Named(m, Resolve(aliases, aliases[a]))
    ensures Named(m, a) ==> Resolve(aliases, aliases[a]) == aliases[a] == m.language
  {
  }

  lemma AliasAnswersRight(pool: map<string, Pool>, aliases: map<string, string>, list: seq<Manifest>, next: seq<Manifest>, a: string)
    requires Distinct(list) && Consistent(pool, aliases, list) && Distinct(next) && NoPoolGone(pool, list, next) && a in aliases
    requires forall m | m in next && m !in list :: Named(m, a) <==> Named(m, Resolve(aliases, aliases[a]))
    ensures Answer(pool, aliases, next, a) == Find(next, a)
  {
    hide Distinct, Consistent, NoPoolGone, Named;
    AliasIsLower(pool, aliases, list, a);
    var l := aliases[a];
    var z := Resolve(aliases, l);
    forall m | m in next
      ensures Named(m, a) <==> Named(m, z)
    {
      if m in list {
        OldNamesLead(pool, aliases, list, a, m);
      }
    }
    SameNamesSameFind(next, a, z);
    if l in pool {
      PooledLanguage(pool, aliases, list, next, l);
    } else if z in pool {
      PooledLanguage(pool, aliases, list, next, z);
    }
  }

  lemma AliasIsLower(pool: map<string, Pool>, aliases: map<string, string>, list: seq<Manifest>, a: string)
    requires Consistent(pool, aliases, list) && a in aliases
    ensures Lower(a) == a
  {
  }

  lemma {:induction false} SameNamesSameFind(list: seq<Manifest>, a: string, b: string)
    requires forall m | m in list :: Named(m, a) <==> Named(m, b)
    ensures Find(list, a) == Find(list, b)
  {
    if list == [] {
    } else {
      SameNamesSameFind(list[1..], a, b);
    }
  }

  /** The other way round: a right answer means that the alias leads where it should. */
  lemma RightAnswerLeads(pool: map<string, Pool>, aliases: map<string, string>, list: seq<Manifest>, next: seq<Manifest>, a: string, m: Manifest)
    requires Distinct(list) && Consistent(pool, aliases, list) && Distinct(next) && NoPoolGone(pool, list, next) && a in aliases
    requires m in next && m !in list && Answer(pool, aliases, next, a) == Find(next, a)
    ensures Named(m, a) <==> Named(m, Resolve(aliases, aliases[a]))
  {
    hide Distinct, Consistent, NoPoolGone, Named;
    AliasIsLower(pool, aliases, list, a);
    var l := aliases[a];
    var z := Resolve(aliases, l);
    if l in pool {
      PooledLanguage(pool, aliases, list, next, l);
    } else if z in pool {
      PooledLanguage(pool, aliases, list, next, z);
    }
    assert Find(next, z) == Find(next, a);
    FindFinds(next, a);
    FindFinds(next, z);
    if Named(m, a) {
      OnlyOneNamed(next, m, a);
    }
    if Named(m, z) {
      OnlyOneNamed(next, m, z);
    }
  }

  /** Whatever changes in the list: every lookup stays right exactly under these two conditions. */
  lemma InstallAnswers(pool: map<string, Pool>, aliases: map<string, string>, list: seq<Manifest>, next: seq<Manifest>)
    requires Distinct(list) && Consistent(pool, aliases, list) && AliasesKnown(pool, aliases) && Distinct(next)
    ensures AnswersRight(pool, aliases, next) <==>
              NoPoolGone(pool, list, next) && forall m | m in next && m !in list :: Leads(aliases, m)
  {
    hide Distinct, Consistent, Named, Answer;
    if AnswersRight(pool, aliases, next) {
      forall m | m in list && m !in next
        ensures m.language !in pool
      {
        if m.language in pool {
          GonePoolAnswers(pool, aliases, list, next, m);
        }
      }
      forall m, a | m in next && m !in list && a in aliases
        ensures Named(m, a) <==> Named(m, Resolve(aliases, aliases[a]))
      {
        RightAnswerLeads(pool, aliases, list, next, a, m);
      }
    }
    if NoPoolGone(pool, list, next) && forall m | m in next && m !in list :: Leads(aliases, m) {
      forall lang
        ensures Answer(pool, aliases, next, lang) == Find(next, lang)
      {
        FindLower(next, lang);
        if Lower(lang) in aliases {
          AliasAnswersRight(pool, aliases, list, next, Lower(lang));
          LowerTwice(lang);
          AnswerLower(pool, aliases, next, lang);
        } else {
          UnaliasedAnswersRight(pool, aliases, list, next, lang);
        }
      }
    }
  }

  lemma AnswerLower(pool: map<string, Pool>, aliases: map<string, string>, list: seq<Manifest>, lang: string)
    ensures Answer(pool, aliases, list, Lower(lang)) == Answer(pool, aliases, list, lang)
  {
    hide Lower;
    LowerTwice(lang);
  }

  lemma UnaliasedAnswersRight(pool: map<string, Pool>, aliases: map<string, string>, list: seq<Manifest>, next: seq<Manifest>, lang: string)
    requires Distinct(list) && Consistent(pool, aliases, list) && Distinct(next) && NoPoolGone(pool, list, next)
    requires Lower(lang) !in aliases
    ensures Answer(pool, aliases, next, lang) == Find(next, lang)
  {
    hide Distinct, Consistent, NoPoolGone, Named;
    FindLower(next, lang);
    if Lower(lang) in pool {
      PooledLanguage(pool, aliases, list, next, Lower(lang));
    }
  }

  lemma {:induction false} FindLower(list: seq<Manifest>, lang: string)
    ensures Find(list, Lower(lang)) == Find(list, lang)
  {
    if list == [] {
    } else {
      NamedLower(list[0], lang);
      FindLower(list[1..], lang);
    }
  }

  /** Any name of a driver with a pool resolves to its language: no second pool is started. */
  lemma NamesResolve(pool: map<string, Pool>, aliases: map<string, string>, installed: seq<Manifest>, name: string, m: Manifest)
    requires Distinct(installed) && Consistent(pool, aliases, installed) && AliasesKnown(pool, aliases)
    requires Lower(name) == name
    requires Find(installed, Resolve(aliases, Resolve(aliases, name))) == Some(m)
    ensures m in installed
    ensures m.language in pool ==> Resolve(aliases, Resolve(aliases, name)) == m.language
  {
    var second := Resolve(aliases, Resolve(aliases, name));
    FindFinds(installed, second);
    if m.language in pool && second == name && name !in aliases {
      PoolServes(pool, aliases, installed, m.language);
      OnlyOneNamed(installed, m, m.language);
      assert forall i | 0 <= i < |m.aliases| :: Lower(m.aliases[i]) in aliases;
    }
  }

  lemma NewPoolConsistent(pool: map<string, Pool>, aliases: map<string, string>, installed: seq<Manifest>, p: Pool)
    requires Consistent(pool, aliases, installed) && p.manifest in installed
    ensures Consistent(pool[p.manifest.language := p], aliases, installed)
  {
  }

  lemma AliasKeepsConsistent(pool: map<string, Pool>, aliases: map<string, string>, installed: seq<Manifest>, m: Manifest, i: nat)
    requires Distinct(installed) && Consistent(pool, aliases, installed) && m in installed && i < |m.aliases|
    ensures Consistent(pool, aliases[Lower(m.aliases[i]) := m.language], installed)
  {
    var a := Lower(m.aliases[i]);
    LowerTwice(m.aliases[i]);
    assert Named(m, a) && Named(m, m.language);
    forall other | other in installed
      ensures Named(other, a) <==> m.language == other.language
      ensures Named(other, m.language) ==> m.language == other.language
    {
      if Named(other, a) {
        OnlyOneNamed(installed, m, a);
        OnlyOneNamed(installed, other, a);
      }
      if Named(other, m.language) {
        OnlyOneNamed(installed, m, m.language);
        OnlyOneNamed(installed, other, m.language);
      }
      if m.language == other.language {
        assert Named(other, m.language);
      }
    }
  }

  function IndexOf(list: seq<Manifest>, m: Manifest): (k: nat)
    ensures k <= |list|
    ensures if k < |list| then list[k] == m else m !in list
  {
    if list == [] || list[0] == m then 0 else 1 + IndexOf(list[1..], m)
  }

  /** The list without one driver. */
  function Without(list: seq<Manifest>, m: Manifest): seq<Manifest>
  {
    var k := IndexOf(list, m);
    if k == |list| then list else list[..k] + list[k + 1..]
  }

  lemma DistinctDrivers(list: seq<Manifest>, j: nat, k: nat)
    requires Distinct(list) && j < |list| && k < |list| && j != k
    ensures list[j] != list[k]
  {
    assert Named(list[j], list[j].language);
    assert Named(list[k], list[k].language);
  }

  /** Where an entry of the shortened list stood before. */
  lemma WithoutAt(list: seq<Manifest>, m: Manifest, i: nat) returns (j: nat)
    requires m in list && i < |Without(list, m)|
    ensures j < |list| && j != IndexOf(list, m) && Without(list, m)[i] == list[j]
    ensures j == if i < IndexOf(list, m) then i else i + 1
  {
    hide IndexOf;
    j := if i < IndexOf(list, m) then i else i + 1;
  }

  lemma WithoutMembers(list: seq<Manifest>, m: Manifest, o: Manifest)
    requires Distinct(list) && m in list
    ensures o in Without(list, m) <==> o in list && o != m
  {
    hide IndexOf, Distinct;
    var k := IndexOf(list, m);
    var rest := Without(list, m);
    if o in rest {
      var i :| 0 <= i < |rest| && rest[i] == o;
      var j := WithoutAt(list, m, i);
      DistinctDrivers(list, j, k);
    }
    if o in list && o != m {
      var j :| 0 <= j < |list| && list[j] == o;
      assert rest[if j < k then j else j - 1] == o;
    }
  }

  lemma WithoutKeepsDistinct(list: seq<Manifest>, m: Manifest)
    requires Distinct(list) && m in list
    ensures Distinct(Without(list, m))
    ensures forall o :: o in Without(list, m) <==> o in list && o != m
  {
    hide Without;
    var rest := Without(list, m);
    forall o
      ensures o in rest <==> o in list && o != m
    {
      WithoutMembers(list, m, o);
    }
    forall i, j, lang | 0 <= i < |rest| && 0 <= j < |rest| && Named(rest[i], lang) && Named(rest[j], lang)
      ensures i == j
    {
      var x := WithoutAt(list, m, i);
      var y := WithoutAt(list, m, j);
      assert Named(list[x], lang) && Named(list[y], lang);
    }
  }

  /** After uninstalling `m` and leaving the cache as it is. */
  lemma HiddenRight(pool: map<string, Pool>, aliases: map<string, string>, list: seq<Manifest>, m: Manifest)
    requires Distinct(list) && Consistent(pool, aliases, list) && AliasesKnown(pool, aliases) && m in list
    ensures Distinct(Without(list, m))
    ensures Consistent(pool, aliases, Without(list, m)) <==> m.language !in pool
    ensures AnswersRight(pool, aliases, Without(list, m)) <==> m.language !in pool
  {
    hide Without, Distinct, Consistent, AliasesKnown, AnswersRight, Fits, Leads;
    WithoutKeepsDistinct(list, m);
    InstallConsistent(pool, aliases, list, Without(list, m));
    InstallAnswers(pool, aliases, list, Without(list, m));
  }

  /** After uninstalling `m` and dropping the pool named `language`. */
  lemma RemovalKeepsConsistent(pool: map<string, Pool>, aliases: map<string, string>, list: seq<Manifest>, m: Manifest, language: string)
    requires Distinct(list) && Consistent(pool, aliases, list) && AliasesKnown(pool, aliases) && Find(list, language) == Some(m)
    ensures Distinct(Without(list, m)) && AliasesKnown(pool - {language}, aliases)
    ensures Consistent(pool - {language}, aliases, Without(list, m)) <==> language == m.language || m.language !in pool
    ensures AnswersRight(pool - {language}, aliases, Without(list, m)) <==> language == m.language || m.language !in pool
  {
    hide Without, Distinct, Consistent, Answer, Named;
    FindFinds(list, language);
    WithoutKeepsDistinct(list, m);
    if language != m.language && m.language in pool {
      RemovedPoolAnswers(pool, aliases, list, m, language);
    } else {
      PoolDropped(pool, aliases, list, m, language);
      StaysRight(pool - {language}, aliases, Without(list, m));
    }
  }

  lemma PoolDropped(pool: map<string, Pool>, aliases: map<string, string>, list: seq<Manifest>, m: Manifest, language: string)
    requires Distinct(list) && Consistent(pool, aliases, list) && m in list
    requires language == m.language || m.language !in pool
    ensures Consistent(pool - {language}, aliases, Without(list, m))
  {
    hide Without;
    WithoutKeepsDistinct(list, m);
  }

  lemma RemovedPoolAnswers(pool: map<string, Pool>, aliases: map<string, string>, list: seq<Manifest>, m: Manifest, language: string)
    requires Distinct(list) && Consistent(pool, aliases, list) && AliasesKnown(pool, aliases)
    requires m in list && language != m.language && m.language in pool
    ensures !Consistent(pool - {language}, aliases, Without(list, m))
    ensures Answer(pool - {language}, aliases, Without(list, m), m.language) != Find(Without(list, m), m.language)
  {
    hide Without, Distinct, AliasesKnown;
    WithoutKeepsDistinct(list, m);
    LanguageResolves(pool, aliases, list, m);
    assert m.language in pool - {language};
    FindFinds(Without(list, m), m.language);
  }

  /**
   Removing a driver by one of its aliases uninstalls it but leaves its pool in the cache: the
   same alias still gets the old pool, although the search finds no driver any more.
   */
  lemma RemovalByAliasLeavesPool(pool: map<string, Pool>, aliases: map<string, string>, list: seq<Manifest>, m: Manifest, a: string)
    requires Distinct(list) && Consistent(pool, aliases, list)
    requires m in list && m.language in pool && Named(m, a) && Lower(a) == a && a != m.language && a in aliases
    ensures Find(Without(list, m), a).None?
    ensures Cached(pool - {a}, aliases, a) == Some(pool[m.language]) && pool[m.language].manifest == m
  {
    hide Without;
    WithoutKeepsDistinct(list, m);
    FindFinds(Without(list, m), a);
    OnlyOneNamed(list, m, a);
    if Find(Without(list, m), a).Some? {
      OnlyOneNamed(list, Find(Without(list, m), a).value, a);
    }
    PoolServes(pool, aliases, list, m.language);
    OnlyOneNamed(list, m, m.language);
  }

  /** In a right cache, an answer is always the pool of the driver that the search finds. */
  lemma CachedIsRight(pool: map<string, Pool>, aliases: map<string, string>, list: seq<Manifest>, lang: string)
    requires Distinct(list) && Consistent(pool, aliases, list)
    ensures var c := Cached(pool, aliases, lang); c.Some? ==> Find(list, lang) == Some(c.value.manifest)
    ensures forall l, k | l in pool && k in pool && pool[l].manifest == pool[k].manifest :: l == k
  {
    FindLower(list, lang);
    ResolveKeepsMeaning(pool, aliases, list, Lower(lang));
    if Cached(pool, aliases, lang).Some? {
      PoolServes(pool, aliases, list, Resolve(aliases, Lower(lang)));
    }
  }

  // ----- Runs -----

  datatype Op = Lookup(lang: string, starts: bool) | Removal(lang: string, made: nat) | Installation(req: Request)

  function After(c: Cache, op: Op): Cache
  {
    match op
    case Lookup(lang, starts) => AfterLookup(c, lang, starts)
    case Removal(lang, made) => AfterRemoval(c, lang, made)
    case Installation(req) => c.(store := AfterInstall(c.store, req))
  }

  /** The daemon after a run. */
  function AfterAll(c: Cache, ops: seq<Op>): Cache
    decreases |ops|
  {
    if ops == [] then c else After(AfterAll(c, ops[..|ops| - 1]), ops[|ops| - 1])
  }

  lemma AfterOneMore(c: Cache, ops: seq<Op>, i: nat)
    requires i < |ops|
    ensures AfterAll(c, ops[..i + 1]) == After(AfterAll(c, ops[..i]), ops[i])
  {
    hide After;
    assert ops[..i + 1][..i] == ops[..i];
  }

  /** What an operation has to meet for the cache to stay right: always, for a lookup. */
  ghost predicate Harmless(c: Cache, op: Op)
  {
    match op
    case Lookup(_, _) => true
    case Removal(lang, made) => HarmlessRemoval(c, lang, made)
    case Installation(req) =>
      var list, next := c.store.list, AfterInstall(c.store, req).list;
      Distinct(next) && NoPoolGone(c.pool, list, next) && forall m | m in next && m !in list :: Fits(c.aliases, m)
  }

  ghost predicate AllHarmless(c: Cache, ops: seq<Op>)
  {
    forall i | 0 <= i < |ops| :: Harmless(AfterAll(c, ops[..i]), ops[i])
  }

  ghost predicate RightAnswer(st: Store, op: Op, answer: Option<Pool>)
  {
    op.Lookup? ==>
      && (answer.Some? ==> Find(st.list, op.lang) == Some(answer.value.manifest))
      && (answer.None? ==> Find(st.list, op.lang).None? || !op.starts || st.broken)
  }

  /**
   Over every run of lookups, and of removals and installations that meet their condition, whatever
   fails in the store, each lookup answers with a pool of exactly the driver that the linear search
   over the drivers listed at that time finds.
   */
  method RunAll(list: seq<Manifest>, ops: seq<Op>) returns (answers: seq<Option<Pool>>)
    requires Distinct(list) && AllHarmless(Cache(map[], map[], Store(list, {}, false), 0), ops)
    ensures |answers| == |ops|
    ensures forall i | 0 <= i < |ops| ::
              RightAnswer(AfterAll(Cache(map[], map[], Store(list, {}, false), 0), ops[..i]).store, ops[i], answers[i])
  {
    hide AfterAll, After, RightAnswer, Harmless;
    var daemon := new Daemon(list);
    ghost var start := Cache(map[], map[], Store(list, {}, false), 0);
    answers := [];
    var i := 0;
    assert ops[..0] == [];
    AfterNone(start);
    while i < |ops|
      invariant 0 <= i == |answers| <= |ops|
      invariant fresh(daemon) && daemon.Valid() && daemon.Contents() == AfterAll(start, ops[..i])
      invariant forall k | 0 <= k < i :: RightAnswer(AfterAll(start, ops[..k]).store, ops[k], answers[k])
    {
      AfterOneMore(start, ops, i);
      var answer := Apply(daemon, ops[i]);
      answers := answers + [answer];
      i := i + 1;
    }
  }

  lemma AfterNone(c: Cache)
    ensures AfterAll(c, []) == c
  {
  }

  /** One operation: it keeps the cache right exactly if it meets its condition. */
  method Apply(daemon: Daemon, op: Op) returns (answer: Option<Pool>)
    requires daemon.Valid()
    modifies daemon
    ensures daemon.Contents() == After(old(daemon.Contents()), op)
    ensures daemon.Valid() <==> Harmless(old(daemon.Contents()), op)
    ensures RightAnswer(old(daemon.store), op, answer)
  {
    hide Distinct, Consistent, AliasesKnown, Find, AfterLookup, AfterRemoval, HarmlessRemoval, AfterInstall, NoPoolGone, Fits, AnswersRight;
    answer := None;
    match op {
      case Lookup(lang, starts) =>
        answer := daemon.DriverPool(lang, starts);
      case Removal(lang, made) =>
        var _ := daemon.RemoveDriver(lang, made);
      case Installation(req) =>
        var _ := daemon.InstallDriver(req);
    }
  }

  // ----- Failing inputs -----

  /**
   Whatever the driver, once it has a pool, an update that works leaves the old pool in place:
   the language still gets the old version, although the search finds the new one.
   */
  lemma UpdateKeepsOldPool(pool: map<string, Pool>, aliases: map<string, string>, st: Store, m: Manifest, req: Request)
    requires Distinct(st.list) && Consistent(pool, aliases, st.list) && AliasesKnown(pool, aliases) && !st.broken
    requires m in st.list && m.language in pool
    requires req.language == m.language && req.update && req.made >= Removals(st, req) + 2
    requires req.driver.language == m.language && req.driver != m
    requires Distinct(AfterInstall(st, req).list)
    ensures Answer(pool, aliases, AfterInstall(st, req).list, m.language) == Some(m)
    ensures Find(AfterInstall(st, req).list, m.language) == Some(req.driver)
  {
    hide Distinct, Consistent, AliasesKnown, AfterInstall, Removals;
    OnlyOneNamedNow(st.list, m);
    UpdateReplaces(st, m, req);
    GonePoolAnswers(pool, aliases, st.list, AfterInstall(st, req).list, m);
    OnlyOneNamed(AfterInstall(st, req).list, req.driver, m.language);
  }

  lemma OnlyOneNamedNow(list: seq<Manifest>, m: Manifest)
    requires Distinct(list) && m in list
    ensures Find(list, m.language) == Some(m)
  {
    OnlyOneNamed(list, m, m.language);
  }

  lemma UpdateReplaces(st: Store, m: Manifest, req: Request)
    requires Distinct(st.list) && Find(st.list, req.language) == Some(m) && m in st.list && !st.broken
    requires req.update && req.made >= Removals(st, req) + 2 && req.driver != m
    ensures m !in AfterInstall(st, req).list && req.driver in AfterInstall(st, req).list
  {
    hide Distinct, Find, Without, Insert, FindImage;
    var rest := Without(st.list, m);
    WithoutKeepsDistinct(st.list, m);
    var occupant := FindImage(rest, req.driver.image);
    if occupant.Some? {
      WithoutSome(rest, occupant.value, m);
      Inserted(Without(rest, occupant.value), req.driver, req.at, m);
    } else {
      Inserted(rest, req.driver, req.at, m);
    }
  }

  lemma WithoutSome(list: seq<Manifest>, o: Manifest, m: Manifest)
    ensures m !in list ==> m !in Without(list, o)
  {
    hide IndexOf;
  }

  lemma Inserted(list: seq<Manifest>, m: Manifest, at: nat, o: Manifest)
    ensures m in Insert(list, m, at)
    ensures o in Insert(list, m, at) <==> o == m || o in list
  {
    var k := if at < |list| then at else |list|;
    assert list == list[..k] + list[k..];
    assert Insert(list, m, at)[k] == m;
  }

  /**
   An installation that stops between its two renames ends the life of the daemon as far as the
   store is concerned: from then on no operation changes anything, since each begins with a listing.
   */
  lemma {:induction false} BrokenForever(c: Cache, ops: seq<Op>)
    requires c.store.broken
    ensures AfterAll(c, ops) == c
    decreases |ops|
  {
    if ops == [] {
    } else {
      BrokenForever(c, ops[..|ops| - 1]);
    }
  }

  const GO := Manifest("go", ["golang"], "go-driver", "v1")
  const GOLANG := Manifest("golang", [], "golang-driver", "v1")

  /**
   A driver with a pool is removed by its language, which is harmless; its alias stays behind. A
   driver of that name, installed later, is found by the search but gets no pool.
   */
  method StaleAliasHidesDriver() returns (r: Option<Pool>)
    ensures r.None?
    ensures Find(AfterInstall(Store([], {}, false), Request("golang", false, GOLANG, 2, 0)).list, "golang") == Some(GOLANG)
  {
    hide Distinct, Consistent, AliasesKnown, AnswersRight, Fits, Leads, NoPoolGone;
    GoNames();
    var req := Request("golang", false, GOLANG, 2, 0);
    assert AfterInstall(Store([], {}, false), req) == Store([GOLANG], {}, false);
    var daemon := new Daemon([GO]);
    var first := daemon.DriverPool("go", true);
    assert daemon.pool.Keys == {"go"} && daemon.aliases == map["golang" := "go"];
    var removed := daemon.RemoveDriver("go", 2);
    assert daemon.store == Store([], {}, false) && daemon.pool == map[];
    var installed := daemon.InstallDriver(req);
    assert daemon.store.list == [GOLANG];
    GolangHidden();
    r := daemon.DriverPool("golang", true);
  }

  lemma GolangHidden()
    ensures Answer(map[], map["golang" := "go"], [GOLANG], "golang").None?
  {
    GoNames();
    assert [GOLANG][1..] == [];
    assert Find([GOLANG], "go") == None;
    assert Resolve(map["golang" := "go"], "golang") == "go";
    assert Resolve(map["golang" := "go"], "go") == "go";
  }

  lemma GoNames()
    ensures Lower("go") == "go" && Lower("golang") == "golang"
    ensures Distinct([GO])
    ensures Named(GO, "go") && Named(GOLANG, "golang") && !Named(GOLANG, "go")
    ensures WithAliases(map[], GO, 1) == map["golang" := "go"]
  {
  }

  // ----- Languages that are not lower case -----

  /** The same lookup again and again. */
  function Lookups(c: Cache, lang: string, n: nat): Cache
  {
    if n == 0 then c else AfterLookup(Lookups(c, lang, n - 1), lang, true)
  }

  lemma {:induction false} WithAliasesHas(aliases: map<string, string>, m: Manifest, k: nat, a: string)
    requires k <= |m.aliases| && (a in aliases ==> aliases[a] == m.language)
    ensures a in WithAliases(aliases, m, k) <==> a in aliases || exists i | 0 <= i < k :: Lower(m.aliases[i]) == a
    ensures a in WithAliases(aliases, m, k) ==> WithAliases(aliases, m, k)[a] == m.language
  {
    hide Lower;
    if k == 0 {
    } else {
      WithAliasesHas(aliases, m, k - 1, a);
    }
  }

  /**
   A daemon with one driver starts one pool for any number of lookups of its language exactly if
   the language is lower case, or its lowered form is one of the driver's own aliases. Otherwise
   every lookup starts another pool, in the place of the one that runs.
   */
  lemma {:induction false} OnePoolIff(m: Manifest, n: nat)
    requires n >= 1
    ensures var c := Lookups(Cache(map[], map[], Store([m], {}, false), 0), m.language, n);
            && c.started == (if Cacheable(m) then 1 else n)
            && c.store == Store([m], {}, false) && c.pool.Keys == {m.language}
            && (var x := Lower(m.language);
                && (x in c.aliases <==> exists i | 0 <= i < |m.aliases| :: Lower(m.aliases[i]) == x)
                && (x in c.aliases ==> c.aliases[x] == m.language))
  {
    hide Lower, WithAliases;
    var x := Lower(m.language);
    LowerTwice(m.language);
    assert Named(m, x) && Find([m], x) == Some(m);
    var start := Cache(map[], map[], Store([m], {}, false), 0);
    if n == 1 {
      WithAliasesHas(map[], m, |m.aliases|, x);
      assert Lookups(start, m.language, 0) == start;
    } else {
      OnePoolIff(m, n - 1);
      var c := Lookups(start, m.language, n - 1);
      WithAliasesHas(c.aliases, m, |m.aliases|, x);
    }
  }
}
