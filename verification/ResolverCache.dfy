/** The layered cache in front of the reference resolvers. */
module ResolverCache {
  import opened Wrappers
  import opened CacheKeys

  datatype Kind = KindTask | KindPipeline

  datatype Request = Request(kind: Kind, resolver: string, params: map<string, string>)

  datatype Resolved = Resolved(bytes: string, source: string, sha256: string, cached: bool)

  datatype ResolveError = EmptyName | NotAllowed | OfflineMiss | NotRegistered | FetchFailed

  type Answer = Result<Resolved, ResolveError>

  /** What the resolvers fetch: a fresh answer for every request, the remote resolver, and the hash. */
  datatype Upstream = Upstream(
    fetch: Request -> Option<Resolved>,
    remote: Request -> Option<Resolved>,
    hash: string -> string)

  /** A registry's settings. allow is None when every name is allowed. */
  datatype Config = Config(names: set<string>, allow: Option<set<string>>, offline: bool, useDisk: bool, isRemote: bool)

  /** Which disk operations succeed during a call. */
  datatype Faults = Faults(readOk: bool, metaOk: bool, writeOk: bool)

  type Path = (string, string)
  type Blobs = map<Path, Resolved>

  function Sanitized(name: string): string {
    if name == "" then "_unnamed"
    else seq(|name|, i requires 0 <= i < |name| => if Plain(name[i]) then name[i] else '_')
  }

  predicate Plain(c: char) {
    'a' <= c <= 'z' || 'A' <= c <= 'Z' || '0' <= c <= '9' || c == '-' || c == '_'
  }

  ghost function KeyOf(up: Upstream, req: Request): string {
    Key(up.hash, req.resolver, req.params)
  }

  ghost function PathOf(up: Upstream, req: Request): Path {
    (Sanitized(req.resolver), KeyOf(up, req))
  }

  // ---------------------------------------------------------------- one call

  /** The name is outside the allow-list. */
  predicate Excluded(cfg: Config, name: string) {
    !cfg.isRemote && cfg.allow.Some? && name !in cfg.allow.value
  }

  function Digested(up: Upstream, r: Resolved): Resolved {
    if r.sha256 == "" then r.(sha256 := up.hash(r.bytes)) else r
  }

  function FromDisk(blob: Resolved, metaOk: bool): Resolved {
    Resolved(blob.bytes, if metaOk then blob.source else "", if metaOk then blob.sha256 else "", true)
  }

  /** A call's answer, the caches after it, and whether it went upstream. */
  datatype Call = Call(answer: Answer, perRun: map<string, Resolved>, disk: Blobs, fetched: bool)

  ghost function Fetching(up: Upstream, cfg: Config, perRun: map<string, Resolved>, disk: Blobs, req: Request,
      faults: Faults): Call {
    if !cfg.isRemote && req.resolver !in cfg.names then Call(Err(NotRegistered), perRun, disk, false)
    else
      match (if cfg.isRemote then up.remote(req) else up.fetch(req))
      case None => Call(Err(FetchFailed), perRun, disk, true)
      case Some(got) =>
        var out := Digested(up, got);
        var disk' := if cfg.useDisk && faults.writeOk then disk[PathOf(up, req) := out] else disk;
        Call(Ok(out), perRun[KeyOf(up, req) := out], disk', true)
  }

  ghost predicate DiskHit(up: Upstream, cfg: Config, disk: Blobs, req: Request, faults: Faults) {
    cfg.useDisk && faults.readOk && PathOf(up, req) in disk
  }

  /** Registry.Resolve on values. */
  ghost function Resolving(up: Upstream, cfg: Config, perRun: map<string, Resolved>, disk: Blobs, req: Request,
      faults: Faults): Call {
    if req.resolver == "" then Call(Err(EmptyName), perRun, disk, false)
    else if Excluded(cfg, req.resolver) then Call(Err(NotAllowed), perRun, disk, false)
    else if KeyOf(up, req) in perRun then Call(Ok(perRun[KeyOf(up, req)].(cached := true)), perRun, disk, false)
    else if DiskHit(up, cfg, disk, req, faults) then
      var hit := FromDisk(disk[PathOf(up, req)], faults.metaOk);
      Call(Ok(hit), perRun[KeyOf(up, req) := hit], disk, false)
    else if cfg.offline then Call(Err(OfflineMiss), perRun, disk, false)
    else Fetching(up, cfg, perRun, disk, req, faults)
  }

  // ---------------------------------------------------------------- the registry

  class DiskCache {
    var blobs: Blobs

    constructor ()
      ensures blobs == map[]
    {
      blobs := map[];
    }

    method Get(up: Upstream, req: Request, faults: Faults) returns (hit: Option<Resolved>)
      ensures hit.Some? <==> faults.readOk && PathOf(up, req) in blobs
      ensures hit.Some? ==> hit.value == FromDisk(blobs[PathOf(up, req)], faults.metaOk)
    {
      var key := CacheKey(up.hash, req.resolver, req.params);
      var path := (Sanitized(req.resolver), key);
      if !faults.readOk || path !in blobs {
        return None;
      }
      return Some(FromDisk(blobs[path], faults.metaOk));
    }

    method Put(up: Upstream, req: Request, resolved: Resolved, faults: Faults)
      modifies this
      ensures blobs == if faults.writeOk then old(blobs)[PathOf(up, req) := resolved] else old(blobs)
    {
      var key := CacheKey(up.hash, req.resolver, req.params);
      if faults.writeOk {
        blobs := blobs[(Sanitized(req.resolver), key) := resolved];
      }
    }
  }

  class Registry {
    const cfg: Config
    const disk: DiskCache
    var perRun: map<string, Resolved>

    constructor (cfg: Config, disk: DiskCache)
      ensures this.cfg == cfg && this.disk == disk && perRun == map[]
    {
      this.cfg := cfg;
      this.disk := disk;
      perRun := map[];
    }

    method Resolve(up: Upstream, req: Request, faults: Faults) returns (answer: Answer, fetched: bool)
      modifies this, disk
      ensures Call(answer, perRun, disk.blobs, fetched) == Resolving(up, cfg, old(perRun), old(disk.blobs), req, faults)
    {
      fetched := false;
      if req.resolver == "" {
        return Err(EmptyName), fetched;
      }
      var key := CacheKey(up.hash, req.resolver, req.params);
      if !cfg.isRemote && cfg.allow.Some? {
        if req.resolver !in cfg.allow.value {
          return Err(NotAllowed), fetched;
        }
      }
      if key in perRun {
        return Ok(perRun[key].(cached := true)), fetched;
      }
      if cfg.useDisk {
        var hit := disk.Get(up, req, faults);
        if hit.Some? {
          perRun := perRun[key := hit.value];
          return Ok(hit.value), fetched;
        }
      }
      if cfg.offline {
        return Err(OfflineMiss), fetched;
      }
      answer, fetched := Dispatch(up, req, faults, key);
    }

    method Dispatch(up: Upstream, req: Request, faults: Faults, key: string) returns (answer: Answer, fetched: bool)
      requires key == KeyOf(up, req)
      modifies this, disk
      ensures Call(answer, perRun, disk.blobs, fetched) == Fetching(up, cfg, old(perRun), old(disk.blobs), req, faults)
    {
      if !cfg.isRemote && req.resolver !in cfg.names {
        return Err(NotRegistered), false;
      }
      var got := if cfg.isRemote then up.remote(req) else up.fetch(req);
      if got.None? {
        return Err(FetchFailed), true;
      }
      var out := got.value;
      if out.sha256 == "" {
        out := out.(sha256 := up.hash(out.bytes));
      }
      if cfg.useDisk {
        disk.Put(up, req, out, faults);
      }
      perRun := perRun[key := out];
      return Ok(out), true;
    }
  }
}
