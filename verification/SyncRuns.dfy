/** Every server, whatever happens around it, gives the page loop a run, so that the theorems about
    runs speak of all of them. */
module SyncRuns {
  import opened Sequences
  import opened SnapshotPages
  import opened PageClient
  import opened FakeServer
  import opened PinnedSync

  /** A server and everything that happens around a run: the draws and clocks of each request and
      the events after it. */
  datatype Surroundings = Surroundings(
    lib: Library, start: Server, moment: nat -> Moment, events: nat -> seq<Event>, clock: nat -> int)
  {
    /** Tokens are unique and fresh, and "new" is not one. */
    ghost predicate Valid() {
      && Unique(start.snapshots) && moment(0).token != "new"
      && forall k :: Fresh(events(k), moment(0).token)
    }
  }

  /** Where the run stands before a request. */
  datatype Stand = Stand(server: Server, offset: nat, pin: Option<SnapshotPin>)

  function Served(around: Surroundings, limit: nat, at: Stand, k: nat): (r: (Server, Reply)) {
    Serve(around.lib, at.server, RequestFor(limit, at.offset, at.pin), around.moment(k))
  }

  function Checked(around: Surroundings, limit: nat, at: Stand, k: nat): (p: Option<CheckedPage>) {
    match Served(around, limit, at, k).1
    case Http(_, _) => None
    case Ok(page) => CheckPage(page, at.offset, limit, around.lib.calendar, around.clock(k))
  }

  /** A request, its page if it passes, and what happens next. */
  function Advance(around: Surroundings, limit: nat, at: Stand, k: nat): (r: Stand) {
    var server := HappenAll(around.lib, Served(around, limit, at, k).0, around.events(k));
    match Checked(around, limit, at, k)
    case None => Stand(server, at.offset, at.pin)
    case Some(p) => Stand(server, at.offset + |p.rows|, if at.pin.Some? then at.pin else Some(p.pin))
  }

  function Reached(around: Surroundings, limit: nat, k: nat): (r: Stand) {
    if k == 0 then Stand(around.start, 0, None) else Advance(around, limit, Reached(around, limit, k - 1), k - 1)
  }

  function SessionOf(around: Surroundings, limit: nat): (s: Session) {
    Session(around.lib, (k: nat) => Reached(around, limit, k).server, around.moment, around.events)
  }

  function WorldOf(around: Surroundings, limit: nat): (w: World) {
    World((k: nat) => AnswerOf(Served(around, limit, Reached(around, limit, k), k).1), around.clock, around.lib.calendar)
  }

  ghost predicate StandsAt(at: Stand, pages: seq<CheckedPage>) {
    at.offset == |Collected(pages)| && at.pin == HeldPin(pages)
  }

  lemma FetchIsChecked(around: Surroundings, limit: nat, k: nat, p: CheckedPage)
    requires FetchAt(WorldOf(around, limit), limit, k, Reached(around, limit, k).offset) == Valid(p)
    ensures Checked(around, limit, Reached(around, limit, k), k) == Some(p)
  {
  }

  lemma AdvanceCollects(around: Surroundings, limit: nat, at: Stand, k: nat, pages: seq<CheckedPage>, p: CheckedPage, more: seq<CheckedPage>)
    requires StandsAt(at, pages) && Checked(around, limit, at, k) == Some(p) && more == pages + [p]
    ensures var stands := StandsAt(Advance(around, limit, at, k), more); stands
  {
    assert more[..|pages|] == pages;
  }

  lemma TakeNext(pages: seq<CheckedPage>, i: nat)
    requires i < |pages|
    ensures pages[..i + 1] == pages[..i] + [pages[i]]
  {
  }

  lemma PageIsChecked(around: Surroundings, limit: nat, pages: seq<CheckedPage>, i: nat, at: Stand)
    requires at == Reached(around, limit, i) && PageAt(pages, Fetch(WorldOf(around, limit), limit), 0, 0, i)
    requires at.offset == |Collected(pages[..i])|
    ensures Checked(around, limit, at, i) == Some(pages[i])
  {
    FetchIsChecked(around, limit, i, pages[i]);
  }

  lemma LoopAdvances(around: Surroundings, limit: nat, pages: seq<CheckedPage>, i: nat, at: Stand)
    requires at == Reached(around, limit, i) && PageAt(pages, Fetch(WorldOf(around, limit), limit), 0, 0, i)
    requires StandsAt(at, pages[..i])
    ensures var stands := StandsAt(Advance(around, limit, at, i), pages[..i + 1]); stands
  {
    PageIsChecked(around, limit, pages, i, at);
    TakeNext(pages, i);
    AdvanceCollects(around, limit, at, i, pages[..i], pages[i], pages[..i + 1]);
  }

  /** The loop has yielded the pages from the first on. */
  ghost predicate Yielded(pages: seq<CheckedPage>, fetch: (nat, nat) -> Fetched) {
    forall j: nat :: j < |pages| ==> PageAt(pages, fetch, 0, 0, j)
  }

  /** The simulation stands where the page loop does. */
  lemma {:induction false} LoopStands(around: Surroundings, limit: nat, pages: seq<CheckedPage>, i: nat)
    requires i <= |pages| && Yielded(pages, Fetch(WorldOf(around, limit), limit))
    ensures var stands := StandsAt(Reached(around, limit, i), pages[..i]); stands
  {
    if i > 0 {
      LoopStands(around, limit, pages, i - 1);
      LoopAdvances(around, limit, pages, i - 1, Reached(around, limit, i - 1));
    }
  }

  function Requests(limit: nat, pages: seq<CheckedPage>, n: nat): (r: seq<PageRequest>)
    requires n <= |pages| + 1
    ensures |r| == n
    ensures forall i :: 0 <= i < n ==> r[i] == RequestFor(limit, |Collected(pages[..i])|, HeldPin(pages[..i]))
  {
    seq(n, i requires 0 <= i < n => RequestFor(limit, |Collected(pages[..i])|, HeldPin(pages[..i])))
  }

  lemma RequestIsAnswered(around: Surroundings, limit: nat, pages: seq<CheckedPage>, requests: seq<PageRequest>, k: nat)
    requires around.Valid() && k < |requests| && k <= |pages| && StandsAt(Reached(around, limit, k), pages[..k])
    requires requests[k] == RequestFor(limit, |Collected(pages[..k])|, HeldPin(pages[..k]))
    ensures Answered(SessionOf(around, limit), WorldOf(around, limit), requests, k)
  {
  }

  /** For every server, page size and course of events there is a run of the client against it. */
  lemma EverySyncRuns(around: Surroundings, limit: nat) returns (pages: seq<CheckedPage>, outcome: Outcome, requests: seq<PageRequest>)
    requires around.Valid() && limit > 0
    ensures Synced(SessionOf(around, limit), WorldOf(around, limit), limit, pages, outcome, requests)
  {
    var s, w := SessionOf(around, limit), WorldOf(around, limit);
    FetchValidates(w, limit);
    var walk := Walk(Fetch(w, limit), limit, 0, 0, NoPin());
    pages, outcome := walk.0, walk.1;
    requests := Requests(limit, pages, |pages| + if outcome == Finished then 0 else 1);
    forall j: nat | j < |pages| ensures PageAt(pages, Fetch(w, limit), 0, 0, j) {
      WalkYields(Fetch(w, limit), limit, 0, 0, NoPin(), j);
    }
    forall k | 0 <= k < |requests| ensures Answered(s, w, requests, k) {
      LoopStands(around, limit, pages, k);
      RequestIsAnswered(around, limit, pages, requests, k);
    }
  }
}
