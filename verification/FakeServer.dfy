/** The pinned-snapshot server (src/gruvax/_internal/fake_discogsography.py:100-174), for
    authorized requests that name a snapshot. */
module FakeServer {
  import opened Sequences
  import opened SnapshotPages
  import opened PageClient

  const MAX_SNAPSHOTS := 16
  const MAX_SNAPSHOT_BYTES := 16 * 1024 * 1024
  const LIFETIME := 900_000_000

  /** One item of the `snapshots` dictionary. */
  datatype Stored = Stored(token: string, owner: string, generation: string, expiry: string, rows: seq<Json>, bytes: nat)

  datatype Server = Server(seed: seq<Json>, owner: string, snapshots: seq<Stored>)

  /** Library parts: parsing and formatting of instants and the size of a JSON dump. */
  datatype Library = Library(calendar: Calendar, stamp: int -> string, bytesOf: seq<Json> -> nat) {
    /** The instant `t` is printed in full and reads back as itself. */
    predicate Stamps(t: int) { ExpiryText(stamp(t)) && calendar(stamp(t)) == Some(t) }
  }

  /** What one request draws from outside: two clock readings and fresh random identifiers. */
  datatype Moment = Moment(now: int, check: int, token: string, generation: string)

  datatype Reply = Ok(page: Json) | Http(code: nat, detail: string)

  function OtherTokens(token: string): Stored -> bool { (s: Stored) => s.token != token }

  /** snapshots.get(token) */
  function Find(snapshots: seq<Stored>, token: string): (r: Option<Stored>) {
    if snapshots == [] then None
    else if snapshots[0].token == token then Some(snapshots[0])
    else Find(snapshots[1..], token)
  }

  function Unexpired(lib: Library, now: int): Stored -> bool {
    (s: Stored) => lib.calendar(s.expiry).Some? && lib.calendar(s.expiry).value > now
  }

  function TotalBytes(snapshots: seq<Stored>): (n: nat) {
    if snapshots == [] then 0 else TotalBytes(snapshots[..|snapshots| - 1]) + snapshots[|snapshots| - 1].bytes
  }

  /** The page envelope. */
  function Envelope(owner: string, stored: Stored, limit: nat, offset: nat): (page: Json) {
    var hi := if offset + limit < |stored.rows| then offset + limit else |stored.rows|;
    var rows := if offset <= hi then stored.rows[offset..hi] else [];
    Object(map[
      "user_id" := Str(owner),
      "releases" := List(rows),
      "total" := Int(|stored.rows|),
      "offset" := Int(offset),
      "limit" := Int(limit),
      "has_more" := Bool(offset + |rows| < |stored.rows|),
      "snapshot_token" := Str(stored.token),
      "snapshot_generation" := Str(stored.generation),
      "snapshot_expires_at" := Str(stored.expiry),
      "snapshot_source" := Str(SOURCE)])
  }

  function Full(lib: Library, sv: Server, now: int): (full: bool) {
    var kept := Filter(sv.snapshots, Unexpired(lib, now));
    |kept| >= MAX_SNAPSHOTS || TotalBytes(kept) + lib.bytesOf(sv.seed) > MAX_SNAPSHOT_BYTES
  }

  /** Admission of a "new" request: expired snapshots go, unexpired ones are never evicted. */
  function Admit(lib: Library, sv: Server, m: Moment): (t: Server) {
    var kept := Filter(sv.snapshots, Unexpired(lib, m.now));
    if Full(lib, sv, m.now) then sv.(snapshots := kept)
    else
      var stored := Stored(m.token, sv.owner, m.generation, lib.stamp(m.now + LIFETIME), sv.seed, lib.bytesOf(sv.seed));
      sv.(snapshots := Filter(kept, OtherTokens(m.token)) + [stored])
  }

  function Respond(lib: Library, sv: Server, token: string, req: PageRequest, m: Moment): (r: Reply) {
    match Find(sv.snapshots, token)
    case None => Http(409, "snapshot_mismatch")
    case Some(stored) =>
      if sv.owner != stored.owner then Http(409, "snapshot_scope_mismatch")
      else if !Unexpired(lib, m.check)(stored) then Http(410, "snapshot_expired")
      else if req.snapshot != "new" && req.generation != Some(stored.generation) then Http(409, "snapshot_mismatch")
      else Ok(Envelope(sv.owner, stored, req.limit, req.offset))
  }

  /** get_collection: the server after the request and its reply. */
  function Serve(lib: Library, sv: Server, req: PageRequest, m: Moment): (r: (Server, Reply)) {
    if req.snapshot == "new" then
      if req.offset != 0 || req.generation.Some? then (sv, Http(409, "snapshot_mismatch"))
      else if Full(lib, sv, m.now) then (Admit(lib, sv, m), Http(409, "snapshot_unavailable"))
      else (Admit(lib, sv, m), Respond(lib, Admit(lib, sv, m), m.token, req, m))
    else (sv, Respond(lib, sv, req.snapshot, req, m))
  }

  class FakeApp {
    var seed: seq<Json>
    var owner: string
    var snapshots: seq<Stored>

    function View(): (s: Server) reads this { Server(seed, owner, snapshots) }

    constructor (seed: seq<Json>, owner: string)
      ensures View() == Server(seed, owner, [])
    {
      this.seed, this.owner, snapshots := seed, owner, [];
    }

    /** The pruning loop over `list(snapshots.items())`. */
    method Prune(lib: Library, now: int)
      modifies this`snapshots
      ensures snapshots == Filter(old(snapshots), Unexpired(lib, now))
    {
      var items := snapshots;
      var kept: seq<Stored> := [];
      for i := 0 to |items|
        invariant kept == Filter(items[..i], Unexpired(lib, now))
      {
        assert items[..i + 1] == items[..i] + [items[i]];
        FilterConcat(items[..i], [items[i]], Unexpired(lib, now));
        assert Filter([items[i]], Unexpired(lib, now)) == if Unexpired(lib, now)(items[i]) then [items[i]] else [];
        if Unexpired(lib, now)(items[i]) {
          kept := kept + [items[i]];
        }
      }
      assert items[..|items|] == items;
      snapshots := kept;
    }

    method GetCollection(lib: Library, req: PageRequest, m: Moment) returns (reply: Reply)
      modifies this`snapshots
      ensures (View(), reply) == Serve(lib, old(View()), req, m)
    {
      var token := req.snapshot;
      if req.snapshot == "new" {
        if req.offset != 0 || req.generation.Some? {
          return Http(409, "snapshot_mismatch");
        }
        Prune(lib, m.now);
        var payloadBytes := lib.bytesOf(seed);
        if |snapshots| >= MAX_SNAPSHOTS || TotalBytes(snapshots) + payloadBytes > MAX_SNAPSHOT_BYTES {
          return Http(409, "snapshot_unavailable");
        }
        token := m.token;
        snapshots := Filter(snapshots, OtherTokens(token))
          + [Stored(token, owner, m.generation, lib.stamp(m.now + LIFETIME), seed, payloadBytes)];
      }
      var found := Find(snapshots, token);
      if found.None? { return Http(409, "snapshot_mismatch"); }
      var stored := found.value;
      if owner != stored.owner { return Http(409, "snapshot_scope_mismatch"); }
      if !Unexpired(lib, m.check)(stored) { return Http(410, "snapshot_expired"); }
      if req.snapshot != "new" && req.generation != Some(stored.generation) { return Http(409, "snapshot_mismatch"); }
      return Ok(Envelope(owner, stored, req.limit, req.offset));
    }
  }

  // ── What other clients can do to a pinned snapshot ─────────────────────────

  /** Dictionary keys are unique. */
  ghost predicate Unique(snapshots: seq<Stored>) {
    forall i, j :: 0 <= i < j < |snapshots| ==> snapshots[i].token != snapshots[j].token
  }

  lemma {:induction false} FindFiltered(snapshots: seq<Stored>, p: Stored -> bool, token: string)
    requires Unique(snapshots)
    ensures var f := Find(snapshots, token);
            Find(Filter(snapshots, p), token) == if f.Some? && p(f.value) then f else None
  {
    if snapshots != [] {
      FindFiltered(snapshots[1..], p, token);
      if snapshots[0].token == token {
        FindAbsent(snapshots[1..], token);
      }
    }
  }

  lemma {:induction false} FindAbsent(snapshots: seq<Stored>, token: string)
    ensures Find(snapshots, token).None? <==> forall i :: 0 <= i < |snapshots| ==> snapshots[i].token != token
    ensures Find(snapshots, token).Some? ==> Find(snapshots, token).value in snapshots && Find(snapshots, token).value.token == token
  {
    if snapshots != [] {
      FindAbsent(snapshots[1..], token);
      if snapshots[0].token != token && Find(snapshots, token).None? {
        forall i | 0 <= i < |snapshots| ensures snapshots[i].token != token {
          if i > 0 { assert snapshots[i] == snapshots[1..][i - 1]; }
        }
      }
    }
  }

  lemma {:induction false} FindAppended(snapshots: seq<Stored>, stored: Stored, token: string)
    ensures Find(snapshots + [stored], token) ==
              if Find(snapshots, token).Some? then Find(snapshots, token)
              else if stored.token == token then Some(stored) else None
  {
    if snapshots != [] {
      assert (snapshots + [stored])[1..] == snapshots[1..] + [stored];
      FindAppended(snapshots[1..], stored, token);
    }
  }

  /** No request of any client changes the rows, generation or expiry behind an existing token,
      and none removes it before it expires. */
  lemma RequestsKeepPins(lib: Library, sv: Server, req: PageRequest, m: Moment, token: string)
    requires Unique(sv.snapshots) && m.token != token
    ensures var f, t := Find(sv.snapshots, token), Serve(lib, sv, req, m).0;
            && t.seed == sv.seed && t.owner == sv.owner
            && (Find(t.snapshots, token) == f || Find(t.snapshots, token) == None)
            && (f.Some? && Unexpired(lib, m.now)(f.value) ==> Find(t.snapshots, token) == f)
  {
    FindFiltered(sv.snapshots, Unexpired(lib, m.now), token);
    var kept := Filter(sv.snapshots, Unexpired(lib, m.now));
    FilterKeepsUnique(sv.snapshots, Unexpired(lib, m.now));
    FindFiltered(kept, OtherTokens(m.token), token);
    if Find(kept, token).Some? { FindAbsent(kept, token); }
    FindAppended(Filter(kept, OtherTokens(m.token)),
                 Stored(m.token, sv.owner, m.generation, lib.stamp(m.now + LIFETIME), sv.seed, lib.bytesOf(sv.seed)), token);
  }

  lemma UniqueCons(first: Stored, rest: seq<Stored>)
    requires Unique(rest) && forall s :: s in rest ==> s.token != first.token
    ensures Unique([first] + rest)
  {
  }

  lemma {:induction false} FilterKeepsUnique(snapshots: seq<Stored>, p: Stored -> bool)
    requires Unique(snapshots)
    ensures Unique(Filter(snapshots, p))
  {
    if snapshots != [] {
      FilterKeepsUnique(snapshots[1..], p);
      if p(snapshots[0]) {
        FilterMembers(snapshots[1..], p);
        UniqueCons(snapshots[0], Filter(snapshots[1..], p));
      }
    }
  }

  lemma UniqueSnoc(snapshots: seq<Stored>, last: Stored)
    requires Unique(snapshots) && forall s :: s in snapshots ==> s.token != last.token
    ensures Unique(snapshots + [last])
  {
  }

  lemma ServeKeepsUnique(lib: Library, sv: Server, req: PageRequest, m: Moment)
    requires Unique(sv.snapshots)
    ensures Unique(Serve(lib, sv, req, m).0.snapshots)
  {
    var kept := Filter(sv.snapshots, Unexpired(lib, m.now));
    FilterKeepsUnique(sv.snapshots, Unexpired(lib, m.now));
    FilterKeepsUnique(kept, OtherTokens(m.token));
    FilterMembers(kept, OtherTokens(m.token));
    UniqueSnoc(Filter(kept, OtherTokens(m.token)),
               Stored(m.token, sv.owner, m.generation, lib.stamp(m.now + LIFETIME), sv.seed, lib.bytesOf(sv.seed)));
  }

  lemma AdmitKeepsBounds(lib: Library, sv: Server, m: Moment)
    requires Unique(sv.snapshots) && Find(sv.snapshots, m.token).None? && !Full(lib, sv, m.now)
    ensures var t := Admit(lib, sv, m); |t.snapshots| <= MAX_SNAPSHOTS && TotalBytes(t.snapshots) <= MAX_SNAPSHOT_BYTES
  {
    var kept := Filter(sv.snapshots, Unexpired(lib, m.now));
    FindFiltered(sv.snapshots, Unexpired(lib, m.now), m.token);
    FindAbsent(kept, m.token);
    FilterAll(kept, OtherTokens(m.token));
    var stored := Stored(m.token, sv.owner, m.generation, lib.stamp(m.now + LIFETIME), sv.seed, lib.bytesOf(sv.seed));
    assert (kept + [stored])[..|kept|] == kept;
  }

  /** The server keeps its keys unique, never holds more than 16 snapshots and stays within its
      byte budget. */
  lemma ServeKeepsBounds(lib: Library, sv: Server, req: PageRequest, m: Moment)
    requires Unique(sv.snapshots) && |sv.snapshots| <= 16 && TotalBytes(sv.snapshots) <= 16_777_216
    requires Find(sv.snapshots, m.token).None?
    ensures var t := Serve(lib, sv, req, m).0;
            Unique(t.snapshots) && |t.snapshots| <= 16 && TotalBytes(t.snapshots) <= 16_777_216
  {
    ServeKeepsUnique(lib, sv, req, m);
    FilterShrinks(sv.snapshots, Unexpired(lib, m.now));
    if !Full(lib, sv, m.now) {
      AdmitKeepsBounds(lib, sv, m);
    }
  }

  lemma {:induction false} BytesConcat(a: seq<Stored>, b: seq<Stored>)
    ensures TotalBytes(a + b) == TotalBytes(a) + TotalBytes(b)
  {
    if b == [] {
      assert a + b == a;
    } else {
      var n := |b| - 1;
      BytesConcat(a, b[..n]);
      assert (a + b)[..|a + b| - 1] == a + b[..n];
    }
  }

  lemma {:induction false} FilterShrinks(snapshots: seq<Stored>, p: Stored -> bool)
    ensures |Filter(snapshots, p)| <= |snapshots|
    ensures TotalBytes(Filter(snapshots, p)) <= TotalBytes(snapshots)
  {
    if snapshots != [] {
      FilterShrinks(snapshots[1..], p);
      assert snapshots == [snapshots[0]] + snapshots[1..];
      BytesConcat([snapshots[0]], snapshots[1..]);
      if p(snapshots[0]) {
        BytesConcat([snapshots[0]], Filter(snapshots[1..], p));
      }
    }
  }

  // ── What a reply says ──────────────────────────────────────────────────────

  /** The snapshot behind a token. */
  ghost predicate Names(sv: Server, token: string, st: Stored) { st in sv.snapshots && st.token == token }

  lemma NamesIsFound(sv: Server, token: string, st: Stored)
    requires Unique(sv.snapshots) && Names(sv, token, st)
    ensures Find(sv.snapshots, token) == Some(st)
  {
    FindAbsent(sv.snapshots, token);
    var f := Find(sv.snapshots, token);
    var i :| 0 <= i < |sv.snapshots| && sv.snapshots[i] == st;
    assert f.Some?;
    var j :| 0 <= j < |sv.snapshots| && sv.snapshots[j] == f.value;
  }

  /** A request that names a token gets a page exactly when the token is known, belongs to the present
      owner, has not expired and comes with its generation; 410 exactly when it is known, owned and
      expired; 409 otherwise. It leaves the server as it is. */
  lemma TokenReplies(lib: Library, sv: Server, req: PageRequest, m: Moment)
    requires Unique(sv.snapshots) && req.snapshot != "new"
    ensures Serve(lib, sv, req, m).0 == sv
    ensures var reply := Serve(lib, sv, req, m).1;
            && (reply.Ok? <==>
                  (exists st :: Names(sv, req.snapshot, st) && st.owner == sv.owner && req.generation == Some(st.generation)
                    && lib.calendar(st.expiry).Some? && m.check < lib.calendar(st.expiry).value))
            && (reply == Http(410, "snapshot_expired") <==>
                  (exists st :: Names(sv, req.snapshot, st) && st.owner == sv.owner
                    && (lib.calendar(st.expiry).Some? ==> m.check >= lib.calendar(st.expiry).value)))
            && (reply.Http? ==> reply.code in [409, 410])
  {
    FindAbsent(sv.snapshots, req.snapshot);
    forall st | Names(sv, req.snapshot, st) ensures Find(sv.snapshots, req.snapshot) == Some(st) {
      NamesIsFound(sv, req.snapshot, st);
    }
    var f := Find(sv.snapshots, req.snapshot);
    if f.Some? { assert Names(sv, req.snapshot, f.value); }
  }

  /** The rows of a page are the stored rows from the offset on, as many as the limit allows, and the
      page says whether more are left. */
  lemma PageRows(owner: string, stored: Stored, limit: nat, offset: nat)
    ensures var (page, n) := (Envelope(owner, stored, limit, offset), |stored.rows|);
            && Get(page, "releases").List?
            && var rows := Get(page, "releases").items;
               && |rows| == (if offset >= n then 0 else if limit <= n - offset then limit else n - offset)
               && (forall i :: 0 <= i < |rows| ==> rows[i] == stored.rows[offset + i])
               && Get(page, "has_more") == Bool(offset + limit < n && offset < n)
  {
  }

  /** A "new" request is admitted exactly when it starts at offset 0 without a generation, fewer than
      16 unexpired snapshots are held and the collection fits within 16 MiB beside them; it then pins
      the present collection and owner for 900 seconds. */
  lemma AdmissionMeans(lib: Library, sv: Server, req: PageRequest, m: Moment)
    requires Unique(sv.snapshots) && req.snapshot == "new"
    ensures var kept := Filter(sv.snapshots, Unexpired(lib, m.now));
            var t := Serve(lib, sv, req, m).0;
            if req.offset != 0 || req.generation.Some? then t == sv
            else if |kept| >= 16 || TotalBytes(kept) + lib.bytesOf(sv.seed) > 16_777_216 then
              t == sv.(snapshots := kept) && Serve(lib, sv, req, m).1 == Http(409, "snapshot_unavailable")
            else
              && (exists st :: Names(t, m.token, st) && st.rows == sv.seed && st.owner == sv.owner
                    && st.generation == m.generation && st.expiry == lib.stamp(m.now + 900_000_000))
              && forall st: Stored :: st.token != m.token ==> (st in t.snapshots <==> st in kept)
  {
    var kept := Filter(sv.snapshots, Unexpired(lib, m.now));
    FilterMembers(kept, OtherTokens(m.token));
    if req.offset == 0 && req.generation.None? && !Full(lib, sv, m.now) {
      var st := Stored(m.token, sv.owner, m.generation, lib.stamp(m.now + LIFETIME), sv.seed, lib.bytesOf(sv.seed));
      assert Names(Serve(lib, sv, req, m).0, m.token, st);
    }
  }
}
