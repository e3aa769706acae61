/** The page cache of the fetcher (readCache, writeCache and the clean-up in backend/cmd/data-fetch/main.go): a
    body file and a meta file for every URL, written one after the other, either of which a crash may tear and
    the clean-up may delete. Times are in nanoseconds since 1970. */
module DiskCache {
  import Text

  /** What the cache takes as given: the canonical form of a URL, the file name derived from that form, and the
      checksum of a body. */
  datatype Naming<!U, !B, H> = Naming(canonical: U -> U, file: U -> H, checksum: B -> H) {
    function Canonical(url: U): U { canonical(url) }
    function Sum(body: B): H { checksum(body) }

    function File(url: U): H { file(canonical(url)) }
  }

  ghost predicate CollisionFree<U(!new), B(!new), H>(n: Naming<U, B, H>) {
    && (forall u, v :: n.File(u) == n.File(v) ==> n.Canonical(u) == n.Canonical(v))
    && (forall a, b :: n.Sum(a) == n.Sum(b) ==> a == b)
  }

  /** A meta file: a torn one is no JSON, since no proper prefix of a JSON object is. */
  datatype MetaFile<H> = Torn | Meta(contentType: string, checksum: H, fetchedAt: int)

  datatype Disk<H, B> = Disk(metas: map<H, MetaFile<H>>, bodies: map<H, B>)

  const SECOND := 1_000_000_000

  /** RFC 3339 without a fraction drops everything below a second. */
  function ToSecond(t: int): int { t / SECOND * SECOND }

  datatype Found<B> = Hit(body: B, contentType: string) | Miss | Failed

  predicate Expired(fetchedAt: int, now: int, ttl: int) { ttl > 0 && now - fetchedAt > ttl }

  function Read<U, B, H(==)>(n: Naming<U, B, H>, d: Disk<H, B>, url: U, now: int, ttl: int): Found<B> {
    var file := n.File(url);
    if file !in d.metas then Miss
    else if d.metas[file].Torn? then Failed
    else if Expired(d.metas[file].fetchedAt, now, ttl) || file !in d.bodies then Miss
    else if n.Sum(d.bodies[file]) != d.metas[file].checksum then Miss
    else Hit(d.bodies[file], d.metas[file].contentType)
  }

  /** How far a write gets. A fault inside a file's write leaves part of the new contents in place of the old. */
  datatype Fault<B> = NoFault | BeforeBody | TornBody(part: B) | BeforeMeta | TornMeta

  datatype Op<U, B, H> =
    | Write(url: U, contentType: string, body: B, at: int, fault: Fault<B>)
    | DeleteMeta(file: H)
    | DeleteBody(file: H)

  predicate Completed<U, B, H>(op: Op<U, B, H>) { op.Write? && op.fault.NoFault? }

  function Target<U, B, H>(n: Naming<U, B, H>, op: Op<U, B, H>): H {
    if op.Write? then n.File(op.url) else op.file
  }

  function MetaOf<U, B, H>(n: Naming<U, B, H>, op: Op<U, B, H>): MetaFile<H>
    requires op.Write?
  {
    Meta(Text.TrimSpace(op.contentType), n.Sum(op.body), ToSecond(op.at))
  }

  function Apply<U, B, H>(n: Naming<U, B, H>, d: Disk<H, B>, op: Op<U, B, H>): Disk<H, B> {
    var file := Target(n, op);
    match op
    case DeleteMeta(_) => d.(metas := d.metas - {file})
    case DeleteBody(_) => d.(bodies := d.bodies - {file})
    case Write(_, _, body, _, fault) =>
      match fault
      case BeforeBody => d
      case TornBody(part) => d.(bodies := d.bodies[file := part])
      case BeforeMeta => d.(bodies := d.bodies[file := body])
      case TornMeta => Disk(d.metas[file := Torn], d.bodies[file := body])
      case NoFault => Disk(d.metas[file := MetaOf(n, op)], d.bodies[file := body])
  }

  function Run<U, B, H>(n: Naming<U, B, H>, ops: seq<Op<U, B, H>>): Disk<H, B> {
    if ops == [] then Disk(map[], map[]) else Apply(n, Run(n, ops[..|ops| - 1]), ops[|ops| - 1])
  }

  /** The cache directory as the fetcher uses it; `enabled` is false for a blank directory name. */
  class Cache<!U, !B, H(==)> {
    const naming: Naming<U, B, H>
    const enabled: bool
    const ttl: int
    var metas: map<H, MetaFile<H>>
    var bodies: map<H, B>

    constructor (naming: Naming<U, B, H>, enabled: bool, ttl: int)
      ensures this.naming == naming && this.enabled == enabled && this.ttl == ttl
      ensures Contents() == Disk(map[], map[])
    {
      this.naming, this.enabled, this.ttl := naming, enabled, ttl;
      metas, bodies := map[], map[];
    }

    function Contents(): Disk<H, B>
      reads this
    {
      Disk(metas, bodies)
    }

    method ReadCache(url: U, now: int) returns (r: Found<B>)
      ensures r == if enabled then Read(naming, Contents(), url, now, ttl) else Miss
    {
      if !enabled {
        return Miss;
      }
      var file := naming.File(url);
      if file !in metas {
        return Miss;
      }
      var meta := metas[file];
      if meta.Torn? {
        return Failed;
      }
      if ttl > 0 && now - meta.fetchedAt > ttl {
        return Miss;
      }
      if file !in bodies {
        return Miss;
      }
      var body := bodies[file];
      if naming.Sum(body) != meta.checksum {
        return Miss;
      }
      return Hit(body, meta.contentType);
    }

    method WriteCache(url: U, contentType: string, body: B, now: int, fault: Fault<B>) returns (ok: bool)
      modifies this
      ensures Contents() == if enabled then Apply(naming, old(Contents()), Write(url, contentType, body, now, fault))
                            else old(Contents())
      ensures ok <==> !enabled || fault.NoFault?
    {
      if !enabled {
        return true;
      }
      var file := naming.File(url);
      var meta := Meta(Text.TrimSpace(contentType), naming.Sum(body), ToSecond(now));
      if fault.BeforeBody? {
        return false;
      }
      bodies := bodies[file := if fault.TornBody? then fault.part else body];
      if fault.TornBody? || fault.BeforeMeta? {
        return false;
      }
      metas := metas[file := if fault.TornMeta? then Torn else meta];
      return !fault.TornMeta?;
    }
  }

  // ----- Whole runs -----

  lemma {:induction false} MetaComesFromAWrite<U, B, H>(n: Naming<U, B, H>, ops: seq<Op<U, B, H>>, file: H)
    returns (i: nat)
    requires file in Run(n, ops).metas && Run(n, ops).metas[file].Meta?
    ensures i < |ops| && Completed(ops[i]) && Target(n, ops[i]) == file
    ensures Run(n, ops).metas[file] == MetaOf(n, ops[i])
    ensures forall j | i < j < |ops| :: Completed(ops[j]) ==> Target(n, ops[j]) != file
    decreases |ops|
  {
    var last := |ops| - 1;
    if Completed(ops[last]) && Target(n, ops[last]) == file {
      i := last;
    } else {
      i := MetaComesFromAWrite(n, ops[..last], file);
    }
  }

  /** Whatever was interrupted, torn or deleted before: a hit gives exactly what the last completed write for the
      same page stored, and that write, its time rounded down to the second, is within the time limit. */
  lemma HitIsTheLatestWrite<U(!new), B(!new), H>(n: Naming<U, B, H>, ops: seq<Op<U, B, H>>, url: U, now: int, ttl: int)
    returns (i: nat)
    requires CollisionFree(n) && Read(n, Run(n, ops), url, now, ttl).Hit?
    ensures i < |ops| && Completed(ops[i]) && n.Canonical(ops[i].url) == n.Canonical(url)
    ensures Read(n, Run(n, ops), url, now, ttl) == Hit(ops[i].body, Text.TrimSpace(ops[i].contentType))
    ensures ttl > 0 ==> now - (ops[i].at - ops[i].at % 1_000_000_000) <= ttl
    ensures forall j | i < j < |ops| :: Completed(ops[j]) ==> n.Canonical(ops[j].url) != n.Canonical(url)
  {
    i := MetaComesFromAWrite(n, ops, n.File(url));
    forall j | i < j < |ops| && Completed(ops[j])
      ensures n.Canonical(ops[j].url) != n.Canonical(url)
    {
      assert Target(n, ops[j]) != n.File(url);
    }
  }

  ghost predicate SameFiles<H, B>(d: Disk<H, B>, e: Disk<H, B>, file: H) {
    && (file in d.metas <==> file in e.metas) && (file in d.metas ==> d.metas[file] == e.metas[file])
    && (file in d.bodies <==> file in e.bodies) && (file in d.bodies ==> d.bodies[file] == e.bodies[file])
  }

  lemma OneOtherLeavesItAlone<U, B, H>(n: Naming<U, B, H>, d: Disk<H, B>, op: Op<U, B, H>, file: H)
    requires Target(n, op) != file
    ensures SameFiles(d, Apply(n, d, op), file)
  {
  }

  lemma {:induction false} OthersLeaveItAlone<U, B, H>(n: Naming<U, B, H>, ops: seq<Op<U, B, H>>,
                                                       later: seq<Op<U, B, H>>, file: H)
    requires forall j | 0 <= j < |later| :: Target(n, later[j]) != file
    ensures SameFiles(Run(n, ops), Run(n, ops + later), file)
    decreases |later|
  {
    hide Apply;
    if later == [] {
      assert ops + later == ops;
    } else {
      var last := |later| - 1;
      assert ops + later == ops + later[..last] + [later[last]];
      AfterOneMore(n, ops + later[..last], later[last]);
      OthersLeaveItAlone(n, ops, later[..last], file);
      OneOtherLeavesItAlone(n, Run(n, ops + later[..last]), later[last], file);
    }
  }

  /** A completed write is found again, until it expires, as long as nothing else happens to its two files; and a
      URL with the same canonical form finds it too. */
  lemma WriteThenReadRoundTrips<U, B, H>(n: Naming<U, B, H>, ops: seq<Op<U, B, H>>, op: Op<U, B, H>,
                                         later: seq<Op<U, B, H>>,
                                         url: U, now: int, ttl: int)
    requires Completed(op) && n.Canonical(op.url) == n.Canonical(url)
    requires forall j | 0 <= j < |later| :: Target(n, later[j]) != n.File(url)
    ensures Read(n, Run(n, ops + [op] + later), url, now, ttl)
            == if ttl > 0 && now - (op.at - op.at % 1_000_000_000) > ttl then Miss
               else Hit(op.body, Text.TrimSpace(op.contentType))
  {
    AfterOneMore(n, ops, op);
    OthersLeaveItAlone(n, ops + [op], later, n.File(url));
  }

  lemma AfterOneMore<U, B, H>(n: Naming<U, B, H>, ops: seq<Op<U, B, H>>, op: Op<U, B, H>)
    ensures Run(n, ops + [op]) == Apply(n, Run(n, ops), op)
  {
    assert (ops + [op])[..|ops|] == ops;
  }

  /** A write torn inside the meta file makes every later read of that page fail, whatever the time limit, until
      the page is written again or the meta file deleted. */
  lemma TornMetaBlocksReads<U, B, H>(n: Naming<U, B, H>, ops: seq<Op<U, B, H>>, op: Op<U, B, H>,
                                     later: seq<Op<U, B, H>>,
                                     url: U, now: int, ttl: int)
    requires op.Write? && op.fault.TornMeta? && n.Canonical(op.url) == n.Canonical(url)
    requires forall j | 0 <= j < |later| :: Target(n, later[j]) != n.File(url)
    ensures Read(n, Run(n, ops + [op] + later), url, now, ttl) == Failed
  {
    AfterOneMore(n, ops, op);
    OthersLeaveItAlone(n, ops + [op], later, n.File(url));
  }

  /** The operation decides what the page's meta file holds. */
  predicate WritesMeta<U, B, H(==)>(n: Naming<U, B, H>, op: Op<U, B, H>, file: H) {
    Target(n, op) == file && (op.DeleteMeta? || (op.Write? && (op.fault.NoFault? || op.fault.TornMeta?)))
  }

  /** The last of `ops` that decides what the page's meta file holds, or -1. */
  function LastMetaWrite<U, B, H(==)>(n: Naming<U, B, H>, ops: seq<Op<U, B, H>>, file: H): (i: int)
    ensures -1 <= i < |ops|
  {
    if ops == [] then -1
    else if WritesMeta(n, ops[|ops| - 1], file) then |ops| - 1
    else LastMetaWrite(n, ops[..|ops| - 1], file)
  }

  lemma {:induction false} MetaIsTornIff<U, B, H>(n: Naming<U, B, H>, ops: seq<Op<U, B, H>>, file: H)
    ensures var i := LastMetaWrite(n, ops, file);
            file in Run(n, ops).metas && Run(n, ops).metas[file].Torn?
            <==> i >= 0 && ops[i].Write? && ops[i].fault.TornMeta?
    decreases |ops|
  {
    if ops != [] {
      MetaIsTornIff(n, ops[..|ops| - 1], file);
    }
  }

  /** After any run, reading a page fails exactly when the last operation that reached its meta file, be it a
      completed write, a torn one or a deletion, was torn there. */
  lemma ReadFailsIff<U, B, H>(n: Naming<U, B, H>, ops: seq<Op<U, B, H>>, url: U, now: int, ttl: int)
    ensures var i := LastMetaWrite(n, ops, n.File(url));
            Read(n, Run(n, ops), url, now, ttl).Failed? <==> i >= 0 && ops[i].Write? && ops[i].fault.TornMeta?
  {
    MetaIsTornIff(n, ops, n.File(url));
    hide Run;
  }

  /** A write interrupted before its meta file leaves the page readable only if it stored the same body again. */
  lemma InterruptedWriteHides<U(!new), B(!new), H>(n: Naming<U, B, H>, ops: seq<Op<U, B, H>>, op: Op<U, B, H>, now: int,
                                                   ttl: int)
    requires CollisionFree(n) && op.Write? && op.fault.BeforeMeta?
    ensures var before, after := Read(n, Run(n, ops), op.url, now, ttl), Read(n, Run(n, ops + [op]), op.url, now, ttl);
            && (after.Hit? ==> after.body == op.body)
            && (before.Hit? ==> after == if before.body == op.body then before else Miss)
            && (before.Failed? ==> after.Failed?)
  {
    AfterOneMore(n, ops, op);
  }
}
