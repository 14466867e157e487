/** The nested retry loops behind one page fetch (src/gruvax/discogsography/client.py:53-262). */
module PageRetries {
  import opened Sequences
  import opened SnapshotPages

  const HTTP_MAX_ATTEMPTS := 4
  const NETWORK_MAX_ATTEMPTS := 2

  /** What one call meets: a response (its body if it is JSON, and the error code in its detail),
      a connect, read or write error, or any other exception. */
  datatype Reply = Response(code: nat, detail: string, body: Option<Json>) | Unreachable | Broken

  datatype Failure =
    | PatRejected | Mismatch | BadBody | RateLimitExhausted | ServerError | HttpStatus(code: nat) | NetworkError | OtherError

  datatype Outcome = Data(page: Json) | Raised(failure: Failure)

  predicate IsMismatch(code: nat, detail: string) {
    (code == 409 && detail in ["snapshot_mismatch", "snapshot_scope_mismatch", "snapshot_unavailable"])
    || (code == 410 && detail == "snapshot_expired")
  }

  /** _should_retry_http, for the status errors that reach it. */
  predicate RetriesHttp(r: Reply) { r.Response? && (r.code == 429 || 500 <= r.code < 600) }

  /** _should_retry_network */
  predicate RetriesNetwork(r: Reply) { r.Unreachable? }

  /** What a call means when it is the last one. */
  function Final(r: Reply, snapshot: bool): (o: Outcome) {
    match r
    case Unreachable => Raised(NetworkError)
    case Broken => Raised(OtherError)
    case Response(code, detail, body) =>
      if 200 <= code < 300 then
        if body.Some? then Data(body.value) else Raised(if snapshot then Mismatch else BadBody)
      else if code == 401 || code == 403 then Raised(PatRejected)
      else if snapshot && IsMismatch(code, detail) then Raised(Mismatch)
      else if code == 429 then Raised(RateLimitExhausted)
      else if 500 <= code < 600 then Raised(ServerError)
      else Raised(HttpStatus(code))
  }

  /** One inner loop of n calls from the k-th on: every call but the last is a retried status, and
      the loop stops at the first other reply or after four. */
  ghost predicate InnerCalls(server: nat -> Reply, k: nat, n: nat) {
    && 1 <= n <= HTTP_MAX_ATTEMPTS
    && (forall i :: k <= i < k + n - 1 ==> RetriesHttp(server(i)))
    && (n == HTTP_MAX_ATTEMPTS || !RetriesHttp(server(k + n - 1)))
  }

  /** The inner retry loop; a network error leaves it untranslated. */
  method DoInnerRetry(server: nat -> Reply, k: nat, snapshot: bool) returns (last: Reply, next: nat)
    ensures next > k && InnerCalls(server, k, next - k) && last == server(next - 1)
  {
    next := k;
    while true
      invariant k <= next < k + HTTP_MAX_ATTEMPTS
      invariant forall i :: k <= i < next ==> RetriesHttp(server(i))
      decreases k + HTTP_MAX_ATTEMPTS - next
    {
      last := server(next);
      next := next + 1;
      if !RetriesHttp(last) || next == k + HTTP_MAX_ATTEMPTS {
        return;
      }
    }
  }

  /** A whole fetch: one inner loop, and a second one when the first ended unreachable. */
  ghost predicate FetchCalls(server: nat -> Reply, k: nat, n: nat) {
    || (InnerCalls(server, k, n) && !RetriesNetwork(server(k + n - 1)))
    || exists m :: 1 <= m < n && InnerCalls(server, k, m) && RetriesNetwork(server(k + m - 1)) && InnerCalls(server, k + m, n - m)
  }

  /** _get_page: at most eight calls, against any server. */
  method GetPage(server: nat -> Reply, k: nat, snapshot: bool) returns (o: Outcome, next: nat)
    ensures k < next <= k + 8
    ensures FetchCalls(server, k, next - k) && o == Final(server(next - 1), snapshot)
  {
    next := k;
    var attempt := 1;
    while true
      invariant 1 <= attempt <= NETWORK_MAX_ATTEMPTS
      invariant attempt == 1 ==> next == k
      invariant attempt > 1 ==> k < next <= k + HTTP_MAX_ATTEMPTS && InnerCalls(server, k, next - k) && RetriesNetwork(server(next - 1))
      decreases NETWORK_MAX_ATTEMPTS - attempt
    {
      var last;
      last, next := DoInnerRetry(server, next, snapshot);
      if !RetriesNetwork(last) || attempt == NETWORK_MAX_ATTEMPTS {
        return Final(last, snapshot), next;
      }
      attempt := attempt + 1;
    }
  }

  lemma InnerIsUnique(server: nat -> Reply, k: nat, m: nat, n: nat)
    requires InnerCalls(server, k, m) && InnerCalls(server, k, n)
    ensures m == n
  {
    var (atM, atN) := (server(k + m - 1), server(k + n - 1));
    assert m < n ==> RetriesHttp(atM);
    assert n < m ==> RetriesHttp(atN);
  }

  /** The replies determine how many calls a fetch makes, so nothing is retried needlessly and
      nothing is given up early. */
  lemma FetchIsUnique(server: nat -> Reply, k: nat, m: nat, n: nat)
    requires FetchCalls(server, k, m) && FetchCalls(server, k, n)
    ensures m == n
  {
    forall i, j | InnerCalls(server, k, i) && InnerCalls(server, k, j) ensures i == j {
      InnerIsUnique(server, k, i, j);
    }
    forall f, i, j | InnerCalls(server, f, i) && InnerCalls(server, f, j) ensures i == j {
      InnerIsUnique(server, f, i, j);
    }
  }

  /** Every call but the last met 429, a 5xx status or a network failure, at most one of them a
      network failure. */
  lemma OnlyFailuresAreRetried(server: nat -> Reply, k: nat, n: nat)
    requires FetchCalls(server, k, n)
    ensures 1 <= n <= 8
    ensures forall i :: k <= i < k + n - 1 ==>
              server(i).Unreachable? || (server(i).Response? && (server(i).code == 429 || 500 <= server(i).code < 600))
    ensures forall i, j :: k <= i < j < k + n - 1 && server(i).Unreachable? ==> !server(j).Unreachable?
  {
  }

  /** How many calls a fetch makes: one when the first reply is neither 429 nor 5xx nor a network
      failure, four when these statuses do not stop, two when nothing answers. */
  lemma CallsMade(server: nat -> Reply, k: nat, n: nat)
    requires FetchCalls(server, k, n)
    ensures server(k).Broken? || (server(k).Response? && server(k).code != 429 && !(500 <= server(k).code < 600)) ==> n == 1
    ensures (forall i :: k <= i < k + 4 ==> server(i).Response? && (server(i).code == 429 || 500 <= server(i).code < 600)) ==> n == 4
    ensures server(k).Unreachable? && server(k + 1).Unreachable? ==> n == 2
  {
    if forall i :: k <= i < k + 4 ==> server(i).Response? && (server(i).code == 429 || 500 <= server(i).code < 600) {
      assert InnerCalls(server, k, 4);
      FetchIsUnique(server, k, 4, n);
    } else if server(k).Unreachable? && server(k + 1).Unreachable? {
      assert InnerCalls(server, k, 1) && InnerCalls(server, k + 1, 1);
      FetchIsUnique(server, k, 2, n);
    } else if !RetriesHttp(server(k)) && !server(k).Unreachable? {
      assert InnerCalls(server, k, 1);
      FetchIsUnique(server, k, 1, n);
    }
  }

  /** A fetch ends in a status or network failure only when its retries are used up: the last four
      replies met 429 or 5xx, or two calls met no answer. */
  lemma NothingIsGivenUpEarly(server: nat -> Reply, k: nat, n: nat)
    requires FetchCalls(server, k, n)
    ensures var last := server(k + n - 1);
            && (last.Response? && (last.code == 429 || 500 <= last.code < 600) ==>
                  n >= 4 && forall i :: k + n - 4 <= i < k + n ==>
                    server(i).Response? && (server(i).code == 429 || 500 <= server(i).code < 600))
            && (last.Unreachable? ==> exists i :: k <= i < k + n - 1 && server(i).Unreachable?)
  {
    if InnerCalls(server, k, n) && !RetriesNetwork(server(k + n - 1)) {
    } else {
      var m :| 1 <= m < n && InnerCalls(server, k, m) && RetriesNetwork(server(k + m - 1)) && InnerCalls(server, k + m, n - m);
      assert server(k + m - 1).Unreachable?;
    }
  }

  /** What an outcome says about the last reply, case by case. */
  lemma OutcomesMean(r: Reply, snapshot: bool, page: Json, code: nat)
    ensures Final(r, snapshot) == Data(page) <==> r.Response? && 200 <= r.code < 300 && r.body == Some(page)
    ensures Final(r, snapshot) == Raised(PatRejected) <==> r.Response? && r.code in [401, 403]
    ensures Final(r, snapshot) == Raised(RateLimitExhausted) <==> r.Response? && r.code == 429
    ensures Final(r, snapshot) == Raised(ServerError) <==> r.Response? && 500 <= r.code < 600
    ensures Final(r, snapshot) == Raised(NetworkError) <==> r.Unreachable?
    ensures Final(r, snapshot) == Raised(OtherError) <==> r.Broken?
    ensures Final(r, snapshot) == Raised(BadBody) <==> !snapshot && r.Response? && 200 <= r.code < 300 && r.body.None?
    ensures Final(r, snapshot) == Raised(Mismatch) <==>
              snapshot && r.Response?
              && ((200 <= r.code < 300 && r.body.None?)
                  || (r.code == 409 && r.detail in ["snapshot_mismatch", "snapshot_scope_mismatch", "snapshot_unavailable"])
                  || (r.code == 410 && r.detail == "snapshot_expired"))
    ensures Final(r, snapshot) == Raised(HttpStatus(code)) ==> r.Response? && r.code == code
  {
  }
}
