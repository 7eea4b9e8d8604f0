/** The resolver cache against a plain fetch, over any runs that share the disk. */
module ResolverCacheLaws {
  import opened Wrappers
  import opened CacheKeys
  import opened ResolverCache

  // ---------------------------------------------------------------- many runs

  /** A run in progress: its registry's settings and per-run cache. */
  datatype Session = Session(cfg: Config, perRun: map<string, Resolved>)

  /** One answered request. */
  datatype Served = Served(cfg: Config, req: Request, answer: Answer, fetched: bool)

  datatype World = World(disk: Blobs, sessions: map<nat, Session>, served: seq<Served>)

  /** A run starts, a run asks, or a disk entry is pruned. */
  datatype Event =
    | Start(id: nat, cfg: Config)
    | Ask(id: nat, req: Request, faults: Faults)
    | Evict(path: Path)

  ghost function Asked(up: Upstream, w: World, id: nat, req: Request, faults: Faults): World
    requires id in w.sessions
  {
    var s := w.sessions[id];
    var c := Resolving(up, s.cfg, s.perRun, w.disk, req, faults);
    World(c.disk, w.sessions[id := s.(perRun := c.perRun)], w.served + [Served(s.cfg, req, c.answer, c.fetched)])
  }

  ghost function Step(up: Upstream, w: World, e: Event): World {
    match e
    case Start(id, cfg) => w.(sessions := w.sessions[id := Session(cfg, map[])])
    case Ask(id, req, faults) => if id in w.sessions then Asked(up, w, id, req, faults) else w
    case Evict(path) => w.(disk := w.disk - {path})
  }

  ghost function Exec(up: Upstream, es: seq<Event>): World {
    if es == [] then World(map[], map[], []) else Step(up, Exec(up, es[..|es| - 1]), es[|es| - 1])
  }

  // ---------------------------------------------------------------- transparency

  /** A NUL-free request whose param names come from the set. */
  ghost predicate Admits(names: iset<string>, req: Request) {
    NulFree(req.resolver, req.params) && forall k :: k in req.params ==> k in names
  }

  /** Every run resolves directly, and every request takes its names from the set. */
  ghost predicate Direct(names: iset<string>, es: seq<Event>) {
    && (forall i :: 0 <= i < |es| && es[i].Start? ==> !es[i].cfg.isRemote)
    && (forall i :: 0 <= i < |es| && es[i].Ask? ==> Admits(names, es[i].req))
  }

  ghost predicate Injective(hash: string -> string) {
    forall a, b :: hash(a) == hash(b) ==> a == b
  }

  predicate SameReference(a: Request, b: Request) {
    a.resolver == b.resolver && a.params == b.params
  }

  /** The bytes a fresh fetch would give. */
  predicate Genuine(up: Upstream, req: Request, r: Resolved) {
    up.fetch(req).Some? && r.bytes == up.fetch(req).value.bytes
  }

  /** What is fetched does not depend on the kind of the reference, which is not part of the key. */
  ghost predicate KindBlind(names: iset<string>, up: Upstream) {
    forall a, b :: SameReference(a, b) && Admits(names, a) && a.resolver != "" && up.fetch(a).Some? ==>
      Genuine(up, b, up.fetch(a).value)
  }

  ghost predicate GenuineRun(names: iset<string>, up: Upstream, perRun: map<string, Resolved>) {
    forall req :: Admits(names, req) && KeyOf(up, req) in perRun ==> Genuine(up, req, perRun[KeyOf(up, req)])
  }

  ghost predicate GenuineDisk(names: iset<string>, up: Upstream, disk: Blobs) {
    forall req :: Admits(names, req) && PathOf(up, req) in disk ==> Genuine(up, req, disk[PathOf(up, req)])
  }

  /** A successful answer has the bytes of a fresh fetch. */
  predicate ServedTruly(up: Upstream, s: Served) {
    s.answer.Ok? ==> Genuine(up, s.req, s.answer.value)
  }

  ghost predicate TrueWorld(names: iset<string>, up: Upstream, w: World) {
    && GenuineDisk(names, up, w.disk)
    && (forall id :: id in w.sessions ==> !w.sessions[id].cfg.isRemote && GenuineRun(names, up, w.sessions[id].perRun))
    && (forall i :: 0 <= i < |w.served| ==> ServedTruly(up, w.served[i]))
  }

  /** Such requests share a key only when they are the same reference. */
  lemma KeyTells(names: iset<string>, up: Upstream, a: Request, b: Request)
    requires NoContinuation(names) && Injective(up.hash) && Admits(names, a) && Admits(names, b)
      && KeyOf(up, a) == KeyOf(up, b)
    ensures SameReference(a, b)
  {
    PreimageTells(a.resolver, a.params, b.resolver, b.params);
  }

  /** What was fetched for a request is genuine for every request with its key. */
  lemma FetchedIsGenuine(names: iset<string>, up: Upstream, req: Request, out: Resolved, other: Request)
    requires NoContinuation(names) && Injective(up.hash) && KindBlind(names, up) && Admits(names, req)
      && Admits(names, other) && req.resolver != ""
    requires up.fetch(req).Some? && out.bytes == up.fetch(req).value.bytes && KeyOf(up, other) == KeyOf(up, req)
    ensures Genuine(up, other, out)
  {
    KeyTells(names, up, req, other);
    assert Genuine(up, other, up.fetch(req).value);
  }

  lemma PerRunStaysGenuine(names: iset<string>, up: Upstream, perRun: map<string, Resolved>, req: Request,
      out: Resolved)
    requires GenuineRun(names, up, perRun)
    requires forall other :: Admits(names, other) && KeyOf(up, other) == KeyOf(up, req) ==> Genuine(up, other, out)
    ensures GenuineRun(names, up, perRun[KeyOf(up, req) := out])
  {
  }

  lemma DiskStaysGenuine(names: iset<string>, up: Upstream, disk: Blobs, req: Request, out: Resolved)
    requires GenuineDisk(names, up, disk)
    requires forall other :: Admits(names, other) && KeyOf(up, other) == KeyOf(up, req) ==> Genuine(up, other, out)
    ensures GenuineDisk(names, up, disk[PathOf(up, req) := out])
  {
  }

  lemma FetchingIsTrue(names: iset<string>, up: Upstream, cfg: Config, perRun: map<string, Resolved>, disk: Blobs,
      req: Request,
      faults: Faults)
    requires NoContinuation(names) && Injective(up.hash) && KindBlind(names, up) && Admits(names, req)
      && req.resolver != "" && !cfg.isRemote
    requires GenuineRun(names, up, perRun) && GenuineDisk(names, up, disk)
    ensures
      var c := Fetching(up, cfg, perRun, disk, req, faults);
      GenuineRun(names, up, c.perRun) && GenuineDisk(names, up, c.disk)
        && (c.answer.Ok? ==> Genuine(up, req, c.answer.value))
  {
    if req.resolver in cfg.names && up.fetch(req).Some? {
      var out := Digested(up, up.fetch(req).value);
      forall other | Admits(names, other) && KeyOf(up, other) == KeyOf(up, req) ensures Genuine(up, other, out) {
        FetchedIsGenuine(names, up, req, out, other);
      }
      PerRunStaysGenuine(names, up, perRun, req, out);
      DiskStaysGenuine(names, up, disk, req, out);
    }
  }

  lemma DiskHitIsTrue(names: iset<string>, up: Upstream, perRun: map<string, Resolved>, disk: Blobs, req: Request,
      hit: Resolved)
    requires NoContinuation(names) && Injective(up.hash) && Admits(names, req) && GenuineRun(names, up, perRun)
      && GenuineDisk(names, up, disk)
    requires PathOf(up, req) in disk && hit.bytes == disk[PathOf(up, req)].bytes
    ensures GenuineRun(names, up, perRun[KeyOf(up, req) := hit]) && Genuine(up, req, hit)
  {
    forall other | Admits(names, other) && KeyOf(up, other) == KeyOf(up, req) ensures Genuine(up, other, hit) {
      KeyTells(names, up, req, other);
      assert PathOf(up, other) == PathOf(up, req);
    }
    PerRunStaysGenuine(names, up, perRun, req, hit);
  }

  /** One call keeps both caches genuine and answers truly. */
  lemma CallIsTrue(names: iset<string>, up: Upstream, cfg: Config, perRun: map<string, Resolved>, disk: Blobs,
      req: Request, faults: Faults)
    requires NoContinuation(names) && Injective(up.hash) && KindBlind(names, up) && Admits(names, req) && !cfg.isRemote
    requires GenuineRun(names, up, perRun) && GenuineDisk(names, up, disk)
    ensures
      var c := Resolving(up, cfg, perRun, disk, req, faults);
      GenuineRun(names, up, c.perRun) && GenuineDisk(names, up, c.disk)
        && (c.answer.Ok? ==> Genuine(up, req, c.answer.value))
  {
    if req.resolver != "" && !Excluded(cfg, req.resolver) && KeyOf(up, req) !in perRun {
      if DiskHit(up, cfg, disk, req, faults) {
        DiskHitIsTrue(names, up, perRun, disk, req, FromDisk(disk[PathOf(up, req)], faults.metaOk));
      } else {
        FetchingIsTrue(names, up, cfg, perRun, disk, req, faults);
      }
    }
  }

  lemma StepIsTrue(names: iset<string>, up: Upstream, w: World, e: Event)
    requires NoContinuation(names) && Injective(up.hash) && KindBlind(names, up) && TrueWorld(names, up, w)
    requires e.Start? ==> !e.cfg.isRemote
    requires e.Ask? ==> Admits(names, e.req)
    ensures TrueWorld(names, up, Step(up, w, e))
  {
    match e
    case Start(id, cfg) =>
    case Ask(id, req, faults) =>
      if id in w.sessions {
        CallIsTrue(names, up, w.sessions[id].cfg, w.sessions[id].perRun, w.disk, req, faults);
      }
    case Evict(path) =>
  }

  /** Over any sequence of calls by any number of runs that share the disk, with entries evicted and
      disk operations failing at will, every successful answer has the bytes of a fresh fetch. */
  lemma {:induction false} CacheIsTransparent(names: iset<string>, up: Upstream, es: seq<Event>)
    requires NoContinuation(names) && Injective(up.hash) && KindBlind(names, up) && Direct(names, es)
    ensures TrueWorld(names, up, Exec(up, es))
  {
    if es != [] {
      CacheIsTransparent(names, up, es[..|es| - 1]);
      StepIsTrue(names, up, Exec(up, es[..|es| - 1]), es[|es| - 1]);
    }
  }

  ghost predicate Transparent(names: iset<string>, up: Upstream) {
    forall es, i :: Direct(names, es) && 0 <= i < |Exec(up, es).served| ==> ServedTruly(up, Exec(up, es).served[i])
  }

  /** The second of two calls with one key is answered with the first one's bytes. */
  lemma KindMatters(names: iset<string>, up: Upstream, a: Request, b: Request) returns (es: seq<Event>)
    requires Admits(names, a) && Admits(names, b) && a.resolver == b.resolver != "" && KeyOf(up, a) == KeyOf(up, b)
    requires up.fetch(a).Some?
    ensures Direct(names, es) && |Exec(up, es).served| == 2
    ensures
      var s := Exec(up, es).served[1];
      s.req == b && s.answer.Ok? && s.answer.value.bytes == up.fetch(a).value.bytes
  {
    var cfg, faults := Config({a.resolver}, None, false, false, false), Faults(false, false, false);
    es := [Start(0, cfg), Ask(0, a, faults), Ask(0, b, faults)];
    var w0 := World(map[], map[], []);
    var w2 := Step(up, Step(up, w0, es[0]), es[1]);
    ThreeSteps(up, es);
    assert w2.sessions[0].perRun == map[KeyOf(up, a) := Digested(up, up.fetch(a).value)];
  }

  lemma ThreeSteps(up: Upstream, es: seq<Event>)
    requires |es| == 3
    ensures Exec(up, es) == Step(up, Step(up, Step(up, World(map[], map[], []), es[0]), es[1]), es[2])
  {
    assert es[..2][..1] == es[..1] && es[..1][..0] == [];
    assert Exec(up, es[..1]) == Step(up, Exec(up, []), es[0]);
    assert Exec(up, es[..2]) == Step(up, Exec(up, es[..1]), es[1]);
  }

  /** Where no name continues another with an '=', the cache is transparent exactly when fetches do not
      depend on the kind. */
  lemma TransparentWhen(names: iset<string>, up: Upstream)
    requires NoContinuation(names) && Injective(up.hash)
    ensures Transparent(names, up) <==> KindBlind(names, up)
  {
    if KindBlind(names, up) {
      forall es, i | Direct(names, es) && 0 <= i < |Exec(up, es).served|
        ensures ServedTruly(up, Exec(up, es).served[i])
      {
        CacheIsTransparent(names, up, es);
      }
    }
    if Transparent(names, up) {
      forall a, b | SameReference(a, b) && Admits(names, a) && a.resolver != "" && up.fetch(a).Some?
        ensures Genuine(up, b, up.fetch(a).value)
      {
        assert Admits(names, b);
        var es := KindMatters(names, up, a, b);
        assert ServedTruly(up, Exec(up, es).served[1]);
      }
    }
  }

  /** A fetch that tells requests with the name from all others, and nothing else. */
  function ByParam(name: string): Upstream {
    var fetch := (req: Request) => Some(Resolved(if name in req.params then "with" else "without", "", "", false));
    Upstream(fetch, (req: Request) => None, (s: string) => s)
  }

  /** Where one name continues another with an '=', a request is answered with the bytes of another. */
  lemma ContinuationMisleads(names: iset<string>, m: string, n: string)
    requires m in names && n in names && Without(NUL, m) && Without(NUL, n) && m + "=" <= n
    ensures var up := ByParam(m); Injective(up.hash) && KindBlind(names, up) && !Transparent(names, up)
  {
    var up := ByParam(m);
    var p, p' := ContinuationFails(m, n);
    var resolver := "git";
    assert Without(NUL, resolver);
    var es := KindMatters(names, up, Request(KindTask, resolver, p), Request(KindTask, resolver, p'));
    assert !ServedTruly(up, Exec(up, es).served[1]);
  }

  /** Whatever the upstream, independence of the kind makes the cache transparent exactly when no name
      continues another with an '='. */
  lemma TransparentForAll(names: iset<string>)
    requires forall n :: n in names ==> Without(NUL, n)
    ensures NoContinuation(names) <==>
      forall up: Upstream :: Injective(up.hash) && KindBlind(names, up) ==> Transparent(names, up)
  {
    if NoContinuation(names) {
      forall up: Upstream | Injective(up.hash) && KindBlind(names, up) ensures Transparent(names, up) {
        TransparentWhen(names, up);
      }
    } else {
      var m, n :| m in names && n in names && m + "=" <= n;
      ContinuationMisleads(names, m, n);
    }
  }

  /** Names without an '=' are such names. */
  lemma CleanNames()
    ensures NoContinuation(iset n | Without(NUL, n) && Without('=', n))
  {
    forall m: string, n: string | Without('=', n) ensures !(m + "=" <= n) {
      EqualsFreeIsApart(m, n);
    }
  }

  // ---------------------------------------------------------------- offline and the allow-list

  /** An offline run never goes upstream, and a name outside the allow-list is refused. */
  predicate Obedient(s: Served) {
    && (s.cfg.offline ==> !s.fetched)
    && (Excluded(s.cfg, s.req.resolver) ==> s.answer.Err? && !s.fetched)
  }

  lemma CallObeys(up: Upstream, cfg: Config, perRun: map<string, Resolved>, disk: Blobs, req: Request, faults: Faults)
    ensures
      var c := Resolving(up, cfg, perRun, disk, req, faults);
      && (cfg.offline ==> !c.fetched)
      && (Excluded(cfg, req.resolver) ==> c.answer.Err? && !c.fetched && c.perRun == perRun && c.disk == disk)
  {
  }

  /** Over any sequence of calls, whatever is cached. */
  lemma {:induction false} EveryCallObeys(up: Upstream, es: seq<Event>)
    ensures forall i :: 0 <= i < |Exec(up, es).served| ==> Obedient(Exec(up, es).served[i])
  {
    if es != [] {
      var w, e := Exec(up, es[..|es| - 1]), es[|es| - 1];
      EveryCallObeys(up, es[..|es| - 1]);
      if e.Ask? && e.id in w.sessions {
        CallObeys(up, w.sessions[e.id].cfg, w.sessions[e.id].perRun, w.disk, e.req, e.faults);
      }
    }
  }

  // ---------------------------------------------------------------- what a call is answered with

  /** Why a call fails: each error has its own reason, in this order. */
  lemma FailsBecause(up: Upstream, cfg: Config, perRun: map<string, Resolved>, disk: Blobs, req: Request,
      faults: Faults)
    requires Resolving(up, cfg, perRun, disk, req, faults).answer.Err?
    ensures
      var c := Resolving(up, cfg, perRun, disk, req, faults);
      && c.perRun == perRun && c.disk == disk
      && match c.answer.error
         case EmptyName => req.resolver == "" && !c.fetched
         case NotAllowed =>
           !cfg.isRemote && cfg.allow.Some? && req.resolver !in cfg.allow.value && req.resolver != "" && !c.fetched
         case OfflineMiss => cfg.offline && KeyOf(up, req) !in perRun && !c.fetched
         case NotRegistered => !cfg.isRemote && req.resolver !in cfg.names && !cfg.offline && !c.fetched
         case FetchFailed =>
           c.fetched && !cfg.offline && if cfg.isRemote then up.remote(req).None? else up.fetch(req).None?
  {
  }

  /** A call that succeeds without going upstream says so; one that goes upstream gives what it got, with
      its digest filled in. */
  lemma SucceedsWith(up: Upstream, cfg: Config, perRun: map<string, Resolved>, disk: Blobs, req: Request,
      faults: Faults)
    requires Resolving(up, cfg, perRun, disk, req, faults).answer.Ok?
    ensures
      var c := Resolving(up, cfg, perRun, disk, req, faults);
      && (!c.fetched ==> c.answer.value.cached)
      && (c.fetched ==>
            var got := if cfg.isRemote then up.remote(req) else up.fetch(req);
            && got.Some?
            && c.answer == Ok(got.value.(
                 sha256 := if got.value.sha256 == "" then up.hash(got.value.bytes) else got.value.sha256)))
  {
  }

  /** Asked again in the same run, the same request has the same answer, without going upstream, whatever
      has become of the disk. */
  lemma AskedAgain(up: Upstream, cfg: Config, perRun: map<string, Resolved>, disk: Blobs, req: Request, faults: Faults,
      later: Blobs, faults': Faults)
    requires Resolving(up, cfg, perRun, disk, req, faults).answer.Ok?
    ensures
      var c := Resolving(up, cfg, perRun, disk, req, faults);
      Resolving(up, cfg, c.perRun, later, req, faults') ==
        Call(Ok(c.answer.value.(cached := true)), c.perRun, later, false)
  {
  }

  /** What one run fetched and could write, another run that may ask for it is given from the disk, offline
      or not. */
  lemma HandedOver(up: Upstream, cfg: Config, perRun: map<string, Resolved>, disk: Blobs, req: Request, faults: Faults,
      cfg': Config, faults': Faults)
    requires var c := Resolving(up, cfg, perRun, disk, req, faults); c.answer.Ok? && c.fetched
    requires cfg.useDisk && faults.writeOk && cfg'.useDisk && faults'.readOk
    requires cfg'.isRemote || cfg'.allow.None? || req.resolver in cfg'.allow.value
    ensures
      var c := Resolving(up, cfg, perRun, disk, req, faults);
      var c' := Resolving(up, cfg', map[], c.disk, req, faults');
      && c'.answer.Ok? && !c'.fetched && c'.answer.value.bytes == c.answer.value.bytes
      && (faults'.metaOk ==> c'.answer.value == c.answer.value.(cached := true))
  {
  }

  /** The directory of a resolver is named with harmless characters only, and after it where it can be. */
  lemma DirectoryIsPlain(name: string)
    ensures Sanitized(name) != "" && '/' !in Sanitized(name) && '.' !in Sanitized(name)
    ensures name != "" && (forall i :: 0 <= i < |name| ==> Plain(name[i])) ==> Sanitized(name) == name
  {
  }
}
