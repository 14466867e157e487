/** Pagination composed with the pinned-snapshot server: a client walks the pages while the seed
    changes and other clients call in between (src/gruvax/discogsography/client.py:285-308,
    src/gruvax/_internal/fake_discogsography.py:121-174). */
module PinnedSync {
  import opened Sequences
  import opened SnapshotPages
  import opened PageClient
  import opened FakeServer
  import R = PageRetries

  /** What can happen at the server between two requests of the client. */
  datatype Event =
    | Configure(seed: seq<Json>, owner: string)
    | Request(req: PageRequest, m: Moment)

  function Happen(lib: Library, sv: Server, e: Event): (t: Server) {
    match e
    case Configure(seed, owner) => sv.(seed := seed, owner := owner)
    case Request(req, m) => Serve(lib, sv, req, m).0
  }

  function HappenAll(lib: Library, sv: Server, events: seq<Event>): (t: Server)
    decreases |events|
  {
    if events == [] then sv else HappenAll(lib, Happen(lib, sv, events[0]), events[1..])
  }

  /** The server before the k-th request, what that request draws, and what follows it. */
  datatype Session = Session(lib: Library, before: nat -> Server, moment: nat -> Moment, events: nat -> seq<Event>)

  function AnswerOf(r: Reply): (a: Answer) {
    match r
    case Ok(page) => Page(page)
    case Http(code, _) => Failed(code)
  }

  /** Random tokens do not repeat. */
  ghost predicate Fresh(events: seq<Event>, token: string) {
    forall e :: e in events && e.Request? ==> e.m.token != token
  }

  ghost predicate Answered(s: Session, w: World, requests: seq<PageRequest>, k: nat)
    requires k < |requests|
  {
    && w.answer(k) == AnswerOf(Serve(s.lib, s.before(k), requests[k], s.moment(k)).1)
    && Fresh(s.events(k), s.moment(0).token)
    && s.before(k + 1) == HappenAll(s.lib, Serve(s.lib, s.before(k), requests[k], s.moment(k)).0, s.events(k))
  }

  /** The requests of the client were answered by this server, in order. */
  ghost predicate Played(s: Session, w: World, requests: seq<PageRequest>) {
    && w.calendar == s.lib.calendar
    && Unique(s.before(0).snapshots)
    && s.moment(0).token != "new"
    && forall k :: 0 <= k < |requests| ==> Answered(s, w, requests, k)
  }

  /** The entry that the "new" request stores. */
  function Pinned(s: Session): (st: Stored) {
    var sv, m := s.before(0), s.moment(0);
    Stored(m.token, sv.owner, m.generation, s.lib.stamp(m.now + LIFETIME), sv.seed, s.lib.bytesOf(sv.seed))
  }

  /** The token still names the pinned entry, or nothing. */
  ghost predicate Holds(sv: Server, st: Stored) {
    Unique(sv.snapshots) && Find(sv.snapshots, st.token) in [None, Some(st)]
  }

  /** The reply as the retry loops see it. */
  function AsResponse(r: Reply): (a: R.Reply) {
    match r
    case Ok(page) => R.Response(200, "", Some(page))
    case Http(code, detail) => R.Response(code, detail, None)
  }

  /** The server needs no retries: a fetch it answers takes one call, and comes back as the page
      or as a snapshot mismatch. */
  lemma ServedAtOnce(lib: Library, sv: Server, req: PageRequest, m: Moment, server: nat -> R.Reply, k: nat, n: nat)
    requires server(k) == AsResponse(Serve(lib, sv, req, m).1) && R.FetchCalls(server, k, n)
    ensures n == 1
    ensures var reply := Serve(lib, sv, req, m).1;
            R.Final(server(k), true) == if reply.Ok? then R.Data(reply.page) else R.Raised(R.Mismatch)
  {
    var reply := Serve(lib, sv, req, m).1;
    assert reply.Http? ==> reply.code in [409, 410] && R.IsMismatch(reply.code, reply.detail);
    assert R.InnerCalls(server, k, 1);
    R.FetchIsUnique(server, k, 1, n);
  }

  // ── The pin survives whatever happens ──────────────────────────────────────

  lemma AdmitPins(lib: Library, sv: Server, m: Moment)
    requires Unique(sv.snapshots) && !Full(lib, sv, m.now)
    ensures var st := Stored(m.token, sv.owner, m.generation, lib.stamp(m.now + LIFETIME), sv.seed, lib.bytesOf(sv.seed));
            Find(Admit(lib, sv, m).snapshots, m.token) == Some(st)
  {
    var kept := Filter(sv.snapshots, Unexpired(lib, m.now));
    var others := Filter(kept, OtherTokens(m.token));
    var st := Stored(m.token, sv.owner, m.generation, lib.stamp(m.now + LIFETIME), sv.seed, lib.bytesOf(sv.seed));
    FilterKeepsUnique(sv.snapshots, Unexpired(lib, m.now));
    FindFiltered(kept, OtherTokens(m.token), m.token);
    if Find(kept, m.token).Some? { FindAbsent(kept, m.token); }
    FindAppended(others, st, m.token);
  }

  lemma {:induction false} EventsKeepPin(lib: Library, sv: Server, events: seq<Event>, st: Stored)
    requires Holds(sv, st) && Fresh(events, st.token)
    ensures Holds(HappenAll(lib, sv, events), st)
    decreases |events|
  {
    if events != [] {
      var e := events[0];
      if e.Request? {
        ServeKeepsUnique(lib, sv, e.req, e.m);
        RequestsKeepPins(lib, sv, e.req, e.m, st.token);
      }
      EventsKeepPin(lib, Happen(lib, sv, e), events[1..], st);
    }
  }

  /** The client's own later requests name the token, so they do not change the server. */
  lemma {:induction false} PinHolds(s: Session, w: World, requests: seq<PageRequest>, k: nat)
    requires Played(s, w, requests) && 1 <= k <= |requests|
    requires requests[0] == RequestFor(requests[0].limit, 0, None) && !Full(s.lib, s.before(0), s.moment(0).now)
    requires forall i :: 1 <= i < |requests| ==> requests[i].snapshot == s.moment(0).token
    ensures Holds(s.before(k), Pinned(s))
  {
    var st := Pinned(s);
    assert Answered(s, w, requests, k - 1);
    if k == 1 {
      AdmitPins(s.lib, s.before(0), s.moment(0));
      ServeKeepsUnique(s.lib, s.before(0), requests[0], s.moment(0));
      EventsKeepPin(s.lib, Serve(s.lib, s.before(0), requests[0], s.moment(0)).0, s.events(0), st);
    } else {
      PinHolds(s, w, requests, k - 1);
      EventsKeepPin(s.lib, s.before(k - 1), s.events(k - 1), st);
    }
  }

  // ── A completed walk delivers the pinned collection ────────────────────────

  /** A page of the server that validates is the slice of the pinned rows at its offset. */
  lemma EnvelopeIsSlice(owner: string, stored: Stored, limit: nat, offset: nat, calendar: Calendar, now: int)
    ensures var p := CheckPage(Envelope(owner, stored, limit, offset), offset, limit, calendar, now);
            p.Some? ==>
              && p.value.pin == SnapshotPin(owner, stored.token, stored.generation, stored.expiry, |stored.rows|)
              && offset + |p.value.rows| <= |stored.rows|
              && p.value.rows == stored.rows[offset..offset + |p.value.rows|]
  {
  }

  ghost predicate SliceAt(pages: seq<CheckedPage>, rows: seq<Json>, i: nat)
    requires i < |pages|
  {
    var o := |Collected(pages[..i])|;
    o + |pages[i].rows| <= |rows| && pages[i].rows == rows[o..o + |pages[i].rows|]
  }

  lemma {:induction false} SlicesCollect(pages: seq<CheckedPage>, rows: seq<Json>)
    requires forall i :: 0 <= i < |pages| ==> SliceAt(pages, rows, i)
    ensures Collected(pages) <= rows
  {
    if pages != [] {
      var n := |pages| - 1;
      forall i | 0 <= i < n ensures SliceAt(pages[..n], rows, i) {
        assert SliceAt(pages, rows, i) && pages[..n][..i] == pages[..i];
      }
      SlicesCollect(pages[..n], rows);
      assert SliceAt(pages, rows, n);
    }
  }

  /** A run of the client against the server: what it yielded, how it ended, what it asked. */
  ghost predicate Synced(s: Session, w: World, limit: nat, pages: seq<CheckedPage>, outcome: Outcome, requests: seq<PageRequest>) {
    && Validating(Fetch(w, limit), limit)
    && (pages, outcome) == Walk(Fetch(w, limit), limit, 0, 0, NoPin())
    && Asked(requests, pages, limit)
    && |requests| == |pages| + (if outcome == Finished then 0 else 1)
    && Played(s, w, requests)
  }

  lemma NewRequestReplies(s: Session, limit: nat)
    requires Unique(s.before(0).snapshots)
    ensures var r := Serve(s.lib, s.before(0), RequestFor(limit, 0, None), s.moment(0)).1;
            r.Ok? ==> !Full(s.lib, s.before(0), s.moment(0).now) && r.page == Envelope(Pinned(s).owner, Pinned(s), limit, 0)
  {
    if !Full(s.lib, s.before(0), s.moment(0).now) {
      AdmitPins(s.lib, s.before(0), s.moment(0));
    }
  }

  lemma FirstPageIsPinned(s: Session, w: World, limit: nat, pages: seq<CheckedPage>, outcome: Outcome, requests: seq<PageRequest>)
    requires Synced(s, w, limit, pages, outcome, requests) && pages != []
    ensures !Full(s.lib, s.before(0), s.moment(0).now) && requests[0] == RequestFor(limit, 0, None)
    ensures SliceAt(pages, s.before(0).seed, 0)
    ensures var st := Pinned(s); pages[0].pin == SnapshotPin(st.owner, st.token, st.generation, st.expiry, |st.rows|)
  {
    WalkYields(Fetch(w, limit), limit, 0, 0, NoPin(), 0);
    assert pages[..0] == [] && Answered(s, w, requests, 0);
    NewRequestReplies(s, limit);
    EnvelopeIsSlice(Pinned(s).owner, Pinned(s), limit, 0, w.calendar, w.now(0));
  }

  lemma LaterRequestsNameToken(s: Session, w: World, limit: nat, pages: seq<CheckedPage>, outcome: Outcome, requests: seq<PageRequest>, i: nat)
    requires Synced(s, w, limit, pages, outcome, requests) && pages != [] && 1 <= i < |requests|
    ensures requests[i] == RequestFor(limit, |Collected(pages[..i])|, Some(pages[0].pin))
    ensures requests[i].snapshot == s.moment(0).token && requests[i].generation == Some(Pinned(s).generation)
  {
    FirstPageIsPinned(s, w, limit, pages, outcome, requests);
    assert pages[..i][0] == pages[0];
  }

  lemma BeforeLaterRequest(s: Session, w: World, limit: nat, pages: seq<CheckedPage>, outcome: Outcome, requests: seq<PageRequest>, i: nat)
    requires Synced(s, w, limit, pages, outcome, requests) && pages != [] && 1 <= i < |requests|
    ensures Holds(s.before(i), Pinned(s))
  {
    FirstPageIsPinned(s, w, limit, pages, outcome, requests);
    forall j | 1 <= j < |requests| ensures requests[j].snapshot == s.moment(0).token {
      LaterRequestsNameToken(s, w, limit, pages, outcome, requests, j);
    }
    PinHolds(s, w, requests, i);
  }

  /** While the token names the pinned entry or nothing, a page of it is a page of that entry. */
  lemma TokenRequestReplies(lib: Library, sv: Server, req: PageRequest, m: Moment, st: Stored)
    requires Holds(sv, st) && req.snapshot == st.token && req.snapshot != "new"
    ensures var r := Serve(lib, sv, req, m).1; r.Ok? ==> r.page == Envelope(sv.owner, st, req.limit, req.offset)
  {
  }

  lemma LaterReply(s: Session, w: World, limit: nat, pages: seq<CheckedPage>, outcome: Outcome, requests: seq<PageRequest>, i: nat)
    requires Synced(s, w, limit, pages, outcome, requests) && pages != [] && 1 <= i < |requests|
    ensures w.answer(i).Page? ==>
              w.answer(i).page == Envelope(s.before(i).owner, Pinned(s), limit, |Collected(pages[..i])|)
  {
    LaterRequestsNameToken(s, w, limit, pages, outcome, requests, i);
    BeforeLaterRequest(s, w, limit, pages, outcome, requests, i);
    assert Answered(s, w, requests, i);
    TokenRequestReplies(s.lib, s.before(i), requests[i], s.moment(i), Pinned(s));
  }

  /** A page that came of a reply with the pinned rows is a slice of them. */
  lemma FetchedIsSlice(w: World, limit: nat, i: nat, pages: seq<CheckedPage>, owner: string, st: Stored)
    requires PageAt(pages, Fetch(w, limit), 0, 0, i)
    requires w.answer(i).Page? ==> w.answer(i).page == Envelope(owner, st, limit, |Collected(pages[..i])|)
    ensures SliceAt(pages, st.rows, i)
  {
    EnvelopeIsSlice(owner, st, limit, |Collected(pages[..i])|, w.calendar, w.now(i));
  }

  lemma PageIsPinned(s: Session, w: World, limit: nat, pages: seq<CheckedPage>, outcome: Outcome, requests: seq<PageRequest>, i: nat)
    requires Synced(s, w, limit, pages, outcome, requests) && i < |pages|
    ensures SliceAt(pages, s.before(0).seed, i)
  {
    if i == 0 {
      FirstPageIsPinned(s, w, limit, pages, outcome, requests);
    } else {
      LaterReply(s, w, limit, pages, outcome, requests, i);
      WalkYields(Fetch(w, limit), limit, 0, 0, NoPin(), i);
      FetchedIsSlice(w, limit, i, pages, s.before(i).owner, Pinned(s));
    }
  }

  /** Whatever happens at the server between pages, the rows delivered are a prefix of the
      collection as it was at the "new" request, and all of it when iteration completes. */
  lemma SyncIsExact(s: Session, w: World, limit: nat, pages: seq<CheckedPage>, outcome: Outcome, requests: seq<PageRequest>)
    requires Synced(s, w, limit, pages, outcome, requests)
    ensures Collected(pages) <= s.before(0).seed
    ensures outcome == Finished ==> Collected(pages) == s.before(0).seed
  {
    forall i | 0 <= i < |pages| ensures SliceAt(pages, s.before(0).seed, i) {
      PageIsPinned(s, w, limit, pages, outcome, requests, i);
    }
    SlicesCollect(pages, s.before(0).seed);
    CompletedWalkIsWhole(Fetch(w, limit), limit);
    if outcome == Finished {
      FirstPageIsPinned(s, w, limit, pages, outcome, requests);
    }
  }

  // ── When the walk does complete ────────────────────────────────────────────

  function Deadline(s: Session): (t: int) { s.moment(0).now + LIFETIME }

  predicate CalmEvent(e: Event, owner: string, deadline: int) {
    match e
    case Configure(_, o) => o == owner
    case Request(_, m) => m.now < deadline
  }

  /** Nobody hands the collection to another owner or reaches the expiry of the pin. */
  ghost predicate Calm(events: seq<Event>, owner: string, deadline: int) {
    forall e :: e in events ==> CalmEvent(e, owner, deadline)
  }

  ghost predicate Timely(s: Session, w: World, k: nat) {
    s.moment(k).check < Deadline(s) && w.now(k) < Deadline(s) && Calm(s.events(k), s.before(0).owner, Deadline(s))
  }

  /** The "new" request is admitted, its draws and the seed are well formed, and every request is
      made and checked before the snapshot expires. */
  ghost predicate Favourable(s: Session, w: World, requests: seq<PageRequest>) {
    && !Full(s.lib, s.before(0), s.moment(0).now)
    && s.lib.Stamps(Deadline(s))
    && AllObjects(s.before(0).seed) && CanonicalUuid(Str(s.before(0).owner))
    && CanonicalUuid(Str(s.moment(0).generation)) && TokenText(Str(s.moment(0).token))
    && forall k :: 0 <= k < |requests| ==> Timely(s, w, k)
  }

  ghost predicate Keeps(sv: Server, st: Stored) {
    Unique(sv.snapshots) && sv.owner == st.owner && Find(sv.snapshots, st.token) == Some(st)
  }

  lemma {:induction false} CalmEventsKeep(lib: Library, sv: Server, events: seq<Event>, st: Stored, deadline: int)
    requires Keeps(sv, st) && Fresh(events, st.token) && Calm(events, st.owner, deadline)
    requires lib.calendar(st.expiry) == Some(deadline)
    ensures Keeps(HappenAll(lib, sv, events), st)
    decreases |events|
  {
    if events != [] {
      var e := events[0];
      assert CalmEvent(e, st.owner, deadline);
      if e.Request? {
        ServeKeepsUnique(lib, sv, e.req, e.m);
        RequestsKeepPins(lib, sv, e.req, e.m, st.token);
      }
      CalmEventsKeep(lib, Happen(lib, sv, e), events[1..], st, deadline);
    }
  }

  lemma {:induction false} PinKept(s: Session, w: World, requests: seq<PageRequest>, k: nat)
    requires Played(s, w, requests) && Favourable(s, w, requests) && 1 <= k <= |requests|
    requires requests[0] == RequestFor(requests[0].limit, 0, None)
    requires forall i :: 1 <= i < |requests| ==> requests[i].snapshot == s.moment(0).token
    ensures Keeps(s.before(k), Pinned(s))
  {
    var st := Pinned(s);
    assert Answered(s, w, requests, k - 1) && Timely(s, w, k - 1);
    if k == 1 {
      AdmitPins(s.lib, s.before(0), s.moment(0));
      ServeKeepsUnique(s.lib, s.before(0), requests[0], s.moment(0));
      CalmEventsKeep(s.lib, Serve(s.lib, s.before(0), requests[0], s.moment(0)).0, s.events(0), st, Deadline(s));
    } else {
      PinKept(s, w, requests, k - 1);
      CalmEventsKeep(s.lib, s.before(k - 1), s.events(k - 1), st, Deadline(s));
    }
  }

  lemma EnvelopeChecks(stored: Stored, limit: nat, offset: nat, calendar: Calendar, now: int)
    requires offset <= |stored.rows| && AllObjects(stored.rows)
    requires CanonicalUuid(Str(stored.owner)) && CanonicalUuid(Str(stored.generation)) && TokenText(Str(stored.token))
    requires FreshExpiry(Str(stored.expiry), calendar, now)
    ensures CheckPage(Envelope(stored.owner, stored, limit, offset), offset, limit, calendar, now).Some?
  {
  }

  lemma LastReplyIsPage(s: Session, w: World, limit: nat, pages: seq<CheckedPage>, outcome: Outcome, requests: seq<PageRequest>)
    requires Synced(s, w, limit, pages, outcome, requests) && Favourable(s, w, requests) && outcome != Finished
    ensures w.answer(|pages|) == Page(Envelope(Pinned(s).owner, Pinned(s), limit, |Collected(pages)|))
  {
    var i := |pages|;
    assert pages[..i] == pages && Answered(s, w, requests, i) && Timely(s, w, i);
    if i == 0 {
      AdmitPins(s.lib, s.before(0), s.moment(0));
    } else {
      FirstPageIsPinned(s, w, limit, pages, outcome, requests);
      forall j | 1 <= j < |requests| ensures requests[j].snapshot == s.moment(0).token {
        LaterRequestsNameToken(s, w, limit, pages, outcome, requests, j);
      }
      LaterRequestsNameToken(s, w, limit, pages, outcome, requests, i);
      PinKept(s, w, requests, i);
    }
  }

  /** In favourable conditions the walk completes: every row of the pinned collection arrives. */
  lemma SyncCompletes(s: Session, w: World, limit: nat, pages: seq<CheckedPage>, outcome: Outcome, requests: seq<PageRequest>)
    requires Synced(s, w, limit, pages, outcome, requests) && Favourable(s, w, requests)
    ensures outcome == Finished && Collected(pages) == s.before(0).seed
  {
    SyncIsExact(s, w, limit, pages, outcome, requests);
    if outcome != Finished {
      var i, st, offset := |pages|, Pinned(s), |Collected(pages)|;
      LastReplyIsPage(s, w, limit, pages, outcome, requests);
      assert Timely(s, w, i);
      EnvelopeChecks(st, limit, offset, w.calendar, w.now(i));
      EnvelopeIsSlice(st.owner, st, limit, offset, w.calendar, w.now(i));
      WalkBreaks(Fetch(w, limit), limit, 0, 0, NoPin());
      if pages != [] {
        FirstPageIsPinned(s, w, limit, pages, outcome, requests);
      }
    }
  }
}
