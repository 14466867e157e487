/** Page iteration (src/gruvax/discogsography/client.py:285-308) against an arbitrary server. */
module PageClient {
  import opened Sequences
  import opened SnapshotPages

  datatype Error = BadPageSize | SnapshotMismatch | Transport(code: int)

  datatype Outcome = Finished | Raised(error: Error)

  /** The parameters of one GET. */
  datatype PageRequest = PageRequest(limit: nat, offset: nat, snapshot: string, generation: Option<string>)

  /** What the k-th page fetch gave back, after its retries; nothing is assumed of it. */
  datatype Answer = Page(page: Json) | Failed(code: int)

  datatype World = World(answer: nat -> Answer, now: nat -> int, calendar: Calendar)

  function RequestFor(limit: nat, offset: nat, pin: Option<SnapshotPin>): (r: PageRequest) {
    match pin
    case None => PageRequest(limit, offset, "new", None)
    case Some(p) => PageRequest(limit, offset, p.token, Some(p.generation))
  }

  /** The k-th fetch as the client sees it at a given offset. */
  datatype Fetched = Valid(p: CheckedPage) | Invalid | Lost(code: int)

  function FetchAt(w: World, limit: nat, k: nat, offset: nat): (r: Fetched)
    ensures r.Valid? ==> Fits(r.p, offset, limit)
  {
    match w.answer(k)
    case Failed(code) => Lost(code)
    case Page(page) =>
      match CheckPage(page, offset, limit, w.calendar, w.now(k))
      case None => Invalid
      case Some(p) => Valid(p)
  }

  /** The pin iteration goes on with after a fetch under a held pin; None where it raises. */
  function NextPin(r: Fetched, pin: Option<SnapshotPin>): (next: Option<SnapshotPin>) {
    if !r.Valid? || (pin.Some? && r.p.pin != pin.value) then None else Some(r.p.pin)
  }

  /** The pin carried on is exactly the result of validate_page. */
  lemma PinIsValidated(w: World, limit: nat, k: nat, offset: nat, pin: Option<SnapshotPin>)
    requires w.answer(k).Page?
    ensures NextPin(FetchAt(w, limit, k, offset), pin)
            == ValidatePage(w.answer(k).page, offset, limit, pin, w.calendar, w.now(k))
  {
  }

  function Fetch(w: World, limit: nat): (nat, nat) -> Fetched {
    (k: nat, offset: nat) => FetchAt(w, limit, k, offset)
  }

  /** All that iteration needs to know about validation. */
  ghost predicate Validating(fetch: (nat, nat) -> Fetched, limit: nat) {
    limit > 0 && forall k: nat, offset: nat :: fetch(k, offset).Valid? ==> Fits(fetch(k, offset).p, offset, limit)
  }

  lemma FetchValidates(w: World, limit: nat)
    requires limit > 0
    ensures Validating(Fetch(w, limit), limit)
  {
  }

  function NoPin(): (r: Option<SnapshotPin>) { None }

  /** The pages yielded from the k-th fetch on, and how iteration ends. The measure is why it
      ends against any server: a page that promises more is non-empty and its total is pinned. */
  ghost function Walk(fetch: (nat, nat) -> Fetched, limit: nat, k: nat, offset: nat, pin: Option<SnapshotPin>): (r: (seq<CheckedPage>, Outcome))
    requires Validating(fetch, limit)
    decreases if pin.None? then 1 else 0, if pin.Some? && offset <= pin.value.total then pin.value.total - offset else 0
  {
    match fetch(k, offset)
    case Lost(code) => ([], Raised(Transport(code)))
    case Invalid => ([], Raised(SnapshotMismatch))
    case Valid(p) =>
      if NextPin(fetch(k, offset), pin).None? then ([], Raised(SnapshotMismatch))
      else if !p.hasMore then ([p], Finished)
      else
        var rest := Walk(fetch, limit, k + 1, offset + |p.rows|, Some(p.pin));
        ([p] + rest.0, rest.1)
  }

  /** The pin iteration holds after some pages. */
  function HeldPin(pages: seq<CheckedPage>): (pin: Option<SnapshotPin>) {
    if pages == [] then None else Some(pages[0].pin)
  }

  /** Fetches made while yielding `pages`, each at the offset reached and under the held pin. */
  ghost predicate Asked(requests: seq<PageRequest>, pages: seq<CheckedPage>, limit: nat) {
    && |pages| <= |requests| <= |pages| + 1
    && forall i :: 0 <= i < |requests| ==> requests[i] == RequestFor(limit, |Collected(pages[..i])|, HeldPin(pages[..i]))
  }

  lemma AskedSnoc(requests: seq<PageRequest>, pages: seq<CheckedPage>, limit: nat, p: CheckedPage)
    requires Asked(requests, pages, limit) && |requests| == |pages| + 1
    ensures Asked(requests, pages + [p], limit)
  {
    forall i | 0 <= i < |requests| ensures (pages + [p])[..i] == pages[..i] { }
  }

  lemma WalkStep(fetch: (nat, nat) -> Fetched, limit: nat, k: nat, offset: nat, pin: Option<SnapshotPin>, p: CheckedPage)
    requires Validating(fetch, limit) && fetch(k, offset) == Valid(p) && (pin.Some? ==> pin.value == p.pin)
    ensures Walk(fetch, limit, k, offset, pin) ==
              if p.hasMore then
                var rest := Walk(fetch, limit, k + 1, offset + |p.rows|, Some(p.pin));
                ([p] + rest.0, rest.1)
              else ([p], Finished)
  {
  }

  lemma Prepend(done: seq<CheckedPage>, p: CheckedPage, rest: seq<CheckedPage>)
    ensures done + ([p] + rest) == (done + [p]) + rest
  {
  }

  /** Where the loop of iter_pages stands: what it has yielded and asked, and that the rest of
      the reference walk is still to come. */
  ghost predicate Underway(fetch: (nat, nat) -> Fetched, limit: nat, pages: seq<CheckedPage>, requests: seq<PageRequest>,
                           offset: nat, pin: Option<SnapshotPin>)
    requires Validating(fetch, limit)
  {
    && |requests| == |pages| && Asked(requests, pages, limit)
    && offset == |Collected(pages)| && pin == HeldPin(pages)
    && (pin.Some? ==> offset <= pin.value.total)
    && Walk(fetch, limit, 0, 0, NoPin()).0 == pages + Walk(fetch, limit, |pages|, offset, pin).0
    && Walk(fetch, limit, 0, 0, NoPin()).1 == Walk(fetch, limit, |pages|, offset, pin).1
  }

  lemma UnderwayAsks(fetch: (nat, nat) -> Fetched, limit: nat, pages: seq<CheckedPage>, requests: seq<PageRequest>,
                     offset: nat, pin: Option<SnapshotPin>)
    requires Validating(fetch, limit) && Underway(fetch, limit, pages, requests, offset, pin)
    ensures Asked(requests + [RequestFor(limit, offset, pin)], pages, limit)
  {
    assert pages[..|pages|] == pages;
  }

  lemma UnderwaySteps(fetch: (nat, nat) -> Fetched, limit: nat, pages: seq<CheckedPage>, requests: seq<PageRequest>,
                      offset: nat, pin: Option<SnapshotPin>, p: CheckedPage)
    requires Validating(fetch, limit) && Underway(fetch, limit, pages, requests, offset, pin)
    requires fetch(|pages|, offset) == Valid(p) && (pin.Some? ==> pin.value == p.pin)
    ensures var more := requests + [RequestFor(limit, offset, pin)];
            if p.hasMore then Underway(fetch, limit, pages + [p], more, offset + |p.rows|, Some(p.pin))
            else (pages + [p], Finished) == Walk(fetch, limit, 0, 0, NoPin()) && Asked(more, pages + [p], limit)
  {
    UnderwayAsks(fetch, limit, pages, requests, offset, pin);
    WalkStep(fetch, limit, |pages|, offset, pin, p);
    AskedSnoc(requests + [RequestFor(limit, offset, pin)], pages, limit, p);
    Prepend(pages, p, Walk(fetch, limit, |pages| + 1, offset + |p.rows|, Some(p.pin)).0);
    assert (pages + [p])[..|pages|] == pages;
  }

  function FailureOf(r: Fetched): (e: Error) { if r.Lost? then Transport(r.code) else SnapshotMismatch }

  lemma UnderwayFails(fetch: (nat, nat) -> Fetched, limit: nat, pages: seq<CheckedPage>, requests: seq<PageRequest>,
                      offset: nat, pin: Option<SnapshotPin>)
    requires Validating(fetch, limit) && Underway(fetch, limit, pages, requests, offset, pin)
    requires NextPin(fetch(|pages|, offset), pin).None?
    ensures (pages, Raised(FailureOf(fetch(|pages|, offset)))) == Walk(fetch, limit, 0, 0, NoPin())
    ensures Asked(requests + [RequestFor(limit, offset, pin)], pages, limit) && |requests| == |pages|
  {
    UnderwayAsks(fetch, limit, pages, requests, offset, pin);
    assert pages + [] == pages;
  }

  /** The while loop of iter_pages over validated fetches; it terminates for every server.
      `requests` are the fetches it makes. */
  method IterValidated(fetch: (nat, nat) -> Fetched, limit: nat)
    returns (pages: seq<CheckedPage>, outcome: Outcome, ghost requests: seq<PageRequest>)
    requires Validating(fetch, limit)
    ensures (pages, outcome) == Walk(fetch, limit, 0, 0, NoPin())
    ensures Asked(requests, pages, limit) && |requests| == |pages| + if outcome == Finished then 0 else 1
  {
    pages, requests := [], [];
    var offset: nat := 0;
    var pin: Option<SnapshotPin> := None;
    assert [] + Walk(fetch, limit, 0, 0, NoPin()).0 == Walk(fetch, limit, 0, 0, NoPin()).0;
    while true
      invariant var ok := Underway(fetch, limit, pages, requests, offset, pin); ok
      decreases if pin.None? then 1 else 0, if pin.Some? then pin.value.total - offset else 0
    {
      ghost var asked := requests + [RequestFor(limit, offset, pin)];
      var r := fetch(|pages|, offset);
      var next := NextPin(r, pin);
      if next.None? {
        UnderwayFails(fetch, limit, pages, requests, offset, pin);
        return pages, Raised(FailureOf(r)), asked;
      }
      UnderwaySteps(fetch, limit, pages, requests, offset, pin, r.p);
      if !r.p.hasMore {
        return pages + [r.p], Finished, asked;
      }
      pages, requests, pin := pages + [r.p], asked, next;
      offset := offset + |r.p.rows|;
    }
  }

  /** iter_pages */
  method IterPages(w: World, pageSize: int) returns (pages: seq<CheckedPage>, outcome: Outcome, ghost requests: seq<PageRequest>)
    ensures !(1 <= pageSize <= 200) ==> pages == [] && outcome == Raised(BadPageSize)
    ensures 1 <= pageSize <= 200 ==>
              Validating(Fetch(w, pageSize), pageSize) && (pages, outcome) == Walk(Fetch(w, pageSize), pageSize, 0, 0, NoPin())
    ensures !(1 <= pageSize <= 200) ==> requests == []
    ensures 1 <= pageSize <= 200 ==>
              Asked(requests, pages, pageSize) && |requests| == |pages| + if outcome == Finished then 0 else 1
  {
    if !(1 <= pageSize <= 200) {
      return [], Raised(BadPageSize), [];
    }
    FetchValidates(w, pageSize);
    pages, outcome, requests := IterValidated(Fetch(w, pageSize), pageSize);
  }

  /** The i-th page carries the pin and starts where the previous one ended. */
  ghost predicate TileAt(pages: seq<CheckedPage>, limit: nat, offset: nat, pin: SnapshotPin, i: nat) {
    i < |pages| && pages[i].pin == pin && Fits(pages[i], offset + |Collected(pages[..i])|, limit)
  }

  /** Pages that tile from `offset` on under one pin. */
  ghost predicate Tiles(pages: seq<CheckedPage>, limit: nat, offset: nat, pin: SnapshotPin) {
    && offset + |Collected(pages)| <= pin.total
    && forall i :: 0 <= i < |pages| ==> TileAt(pages, limit, offset, pin, i)
  }

  lemma {:induction false} CollectedCons(p: CheckedPage, rest: seq<CheckedPage>)
    ensures Collected([p] + rest) == p.rows + Collected(rest)
  {
    var all := [p] + rest;
    if rest == [] {
      assert all[..0] == [] && all[0] == p;
    } else {
      CollectedCons(p, rest[..|rest| - 1]);
      assert all[..|all| - 1] == [p] + rest[..|rest| - 1];
    }
  }

  lemma TileAtCons(p: CheckedPage, rest: seq<CheckedPage>, limit: nat, offset: nat, pin: SnapshotPin, i: nat)
    requires TileAt(rest, limit, offset + |p.rows|, pin, i)
    ensures TileAt([p] + rest, limit, offset, pin, i + 1)
  {
    assert ([p] + rest)[..i + 1] == [p] + rest[..i];
    CollectedCons(p, rest[..i]);
  }

  lemma TileAtFirst(p: CheckedPage, rest: seq<CheckedPage>, limit: nat, offset: nat)
    requires Fits(p, offset, limit)
    ensures TileAt([p] + rest, limit, offset, p.pin, 0)
  {
    assert ([p] + rest)[..0] == [];
  }

  lemma TilesCons(p: CheckedPage, rest: seq<CheckedPage>, limit: nat, offset: nat, pin: SnapshotPin)
    requires p.pin == pin && Fits(p, offset, limit) && Tiles(rest, limit, offset + |p.rows|, pin)
    ensures Tiles([p] + rest, limit, offset, pin)
  {
    CollectedCons(p, rest);
    forall i: nat | i < |[p] + rest| ensures TileAt([p] + rest, limit, offset, pin, i) {
      if i == 0 {
        TileAtFirst(p, rest, limit, offset);
      } else {
        TileAtCons(p, rest, limit, offset, pin, i - 1);
      }
    }
  }

  /** The pages tile from `offset`, all but the last are full, and completion reaches the end. */
  ghost predicate Whole(pages: seq<CheckedPage>, outcome: Outcome, limit: nat, offset: nat, pin: SnapshotPin) {
    && Tiles(pages, limit, offset, pin)
    && (forall i :: 0 <= i < |pages| - 1 ==> |pages[i].rows| == limit)
    && (outcome == Finished ==> pages != [] && offset + |Collected(pages)| == pin.total)
  }

  lemma WholeCons(p: CheckedPage, rest: seq<CheckedPage>, outcome: Outcome, limit: nat, offset: nat, pin: SnapshotPin)
    requires p.pin == pin && Fits(p, offset, limit) && p.hasMore
    requires Whole(rest, outcome, limit, offset + |p.rows|, pin)
    ensures Whole([p] + rest, outcome, limit, offset, pin)
  {
    TilesCons(p, rest, limit, offset, pin);
    CollectedCons(p, rest);
  }

  lemma WholeLast(p: CheckedPage, limit: nat, offset: nat, pin: SnapshotPin)
    requires p.pin == pin && Fits(p, offset, limit) && !p.hasMore
    ensures Whole([p], Finished, limit, offset, pin)
  {
    TilesCons(p, [], limit, offset, pin);
    CollectedCons(p, []);
    assert [p] + [] == [p];
  }

  /** Whatever the server does, the pages yielded so far tile a prefix of the pinned collection;
      when iteration completes they tile all of it, with no gap and no overlap. */
  lemma {:induction false} WalkTiles(fetch: (nat, nat) -> Fetched, limit: nat, k: nat, offset: nat, pin: SnapshotPin)
    requires Validating(fetch, limit) && offset <= pin.total
    ensures Whole(Walk(fetch, limit, k, offset, Some(pin)).0, Walk(fetch, limit, k, offset, Some(pin)).1, limit, offset, pin)
    decreases pin.total - offset
  {
    var r := Walk(fetch, limit, k, offset, Some(pin));
    if r.0 != [] {
      var p := fetch(k, offset).p;
      WalkStep(fetch, limit, k, offset, Some(pin), p);
      if p.hasMore {
        WalkTiles(fetch, limit, k + 1, offset + |p.rows|, pin);
        var rest := Walk(fetch, limit, k + 1, offset + |p.rows|, Some(pin));
        WholeCons(p, rest.0, rest.1, limit, offset, pin);
      } else {
        WholeLast(p, limit, offset, pin);
      }
    }
  }

  /** Normal completion means one unchanged pin whose whole range [0, total) was delivered, in
      full pages except possibly the last. */
  lemma CompletedWalkIsWhole(fetch: (nat, nat) -> Fetched, limit: nat)
    requires Validating(fetch, limit)
    ensures var r := Walk(fetch, limit, 0, 0, NoPin());
            && (r.0 != [] ==> Whole(r.0, r.1, limit, 0, r.0[0].pin))
            && (r.1 == Finished ==> r.0 != [])
  {
    var r := Walk(fetch, limit, 0, 0, NoPin());
    if r.0 != [] {
      var p := fetch(0, 0).p;
      WalkStep(fetch, limit, 0, 0, NoPin(), p);
      WalkStep(fetch, limit, 0, 0, Some(p.pin), p);
      WalkTiles(fetch, limit, 0, 0, p.pin);
    }
  }

  /** The i-th page is what the fetch at the offset reached gave back. */
  ghost predicate PageAt(pages: seq<CheckedPage>, fetch: (nat, nat) -> Fetched, k: nat, offset: nat, i: nat) {
    i < |pages| && fetch(k + i, offset + |Collected(pages[..i])|) == Valid(pages[i])
  }

  lemma PageAtCons(p: CheckedPage, rest: seq<CheckedPage>, fetch: (nat, nat) -> Fetched, k: nat, offset: nat, i: nat)
    requires PageAt(rest, fetch, k + 1, offset + |p.rows|, i)
    ensures PageAt([p] + rest, fetch, k, offset, i + 1)
  {
    assert ([p] + rest)[..i + 1] == [p] + rest[..i];
    CollectedCons(p, rest[..i]);
    assert k + 1 + i == k + (i + 1);
  }

  lemma PageAtFirst(p: CheckedPage, rest: seq<CheckedPage>, fetch: (nat, nat) -> Fetched, k: nat, offset: nat)
    requires fetch(k, offset) == Valid(p)
    ensures PageAt([p] + rest, fetch, k, offset, 0)
  {
    assert ([p] + rest)[..0] == [];
  }

  /** The pages after the first one. */
  ghost function After(fetch: (nat, nat) -> Fetched, limit: nat, k: nat, offset: nat, p: CheckedPage): (r: seq<CheckedPage>)
    requires Validating(fetch, limit) && fetch(k, offset) == Valid(p)
  {
    if p.hasMore then Walk(fetch, limit, k + 1, offset + |p.rows|, Some(p.pin)).0 else []
  }

  lemma WalkSplits(fetch: (nat, nat) -> Fetched, limit: nat, k: nat, offset: nat, pin: Option<SnapshotPin>)
    requires Validating(fetch, limit) && Walk(fetch, limit, k, offset, pin).0 != []
    ensures fetch(k, offset).Valid?
    ensures var p := fetch(k, offset).p;
            Walk(fetch, limit, k, offset, pin).0 == [p] + After(fetch, limit, k, offset, p)
  {
    WalkStep(fetch, limit, k, offset, pin, fetch(k, offset).p);
  }

  lemma {:induction false} WalkYields(fetch: (nat, nat) -> Fetched, limit: nat, k: nat, offset: nat, pin: Option<SnapshotPin>, i: nat)
    requires Validating(fetch, limit) && i < |Walk(fetch, limit, k, offset, pin).0|
    ensures PageAt(Walk(fetch, limit, k, offset, pin).0, fetch, k, offset, i)
    decreases i
  {
    WalkSplits(fetch, limit, k, offset, pin);
    var p := fetch(k, offset).p;
    if i == 0 {
      PageAtFirst(p, After(fetch, limit, k, offset, p), fetch, k, offset);
    } else {
      WalkYields(fetch, limit, k + 1, offset + |p.rows|, Some(p.pin), i - 1);
      PageAtCons(p, After(fetch, limit, k, offset, p), fetch, k, offset, i - 1);
    }
  }

  /** The fetch after the last yielded page failed, was malformed, or carried another pin. */
  ghost predicate Breaks(fetch: (nat, nat) -> Fetched, k: nat, offset: nat, pin: Option<SnapshotPin>) {
    var r := fetch(k, offset);
    !r.Valid? || (pin.Some? && r.p.pin != pin.value)
  }

  ghost predicate BreaksAfter(pages: seq<CheckedPage>, fetch: (nat, nat) -> Fetched, k: nat, offset: nat, pin: Option<SnapshotPin>) {
    Breaks(fetch, k + |pages|, offset + |Collected(pages)|, if pages == [] then pin else HeldPin(pages))
  }

  lemma BreaksAfterCons(p: CheckedPage, rest: seq<CheckedPage>, fetch: (nat, nat) -> Fetched, k: nat, offset: nat, pin: Option<SnapshotPin>)
    requires BreaksAfter(rest, fetch, k + 1, offset + |p.rows|, Some(p.pin)) && (rest != [] ==> rest[0].pin == p.pin)
    ensures BreaksAfter([p] + rest, fetch, k, offset, pin)
  {
    CollectedCons(p, rest);
    assert k + 1 + |rest| == k + |[p] + rest|;
  }

  lemma {:induction false} WalkBreaks(fetch: (nat, nat) -> Fetched, limit: nat, k: nat, offset: nat, pin: Option<SnapshotPin>)
    requires Validating(fetch, limit) && Walk(fetch, limit, k, offset, pin).1 != Finished
    ensures BreaksAfter(Walk(fetch, limit, k, offset, pin).0, fetch, k, offset, pin)
    ensures var pages := Walk(fetch, limit, k, offset, pin).0; pin.Some? && pages != [] ==> pages[0].pin == pin.value
    decreases |Walk(fetch, limit, k, offset, pin).0|
  {
    if Walk(fetch, limit, k, offset, pin).0 != [] {
      var p := fetch(k, offset).p;
      WalkStep(fetch, limit, k, offset, pin, p);
      WalkBreaks(fetch, limit, k + 1, offset + |p.rows|, Some(p.pin));
      BreaksAfterCons(p, Walk(fetch, limit, k + 1, offset + |p.rows|, Some(p.pin)).0, fetch, k, offset, pin);
    }
  }
}
