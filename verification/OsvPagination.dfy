/** The paginated vulnerability query (`query_inner`): rounds of batched requests, one page per
    package still open, until no package has a next page or a page token repeats. */
module OsvPagination {
  import opened OsvChains
  import opened Text
  import opened Wrappers

  const MAX_BATCH_SIZE: nat := 1_000

  /** The advisories of every package's whole page chain. `tokens` only has to contain all tokens the
      service ever hands out; `requested` lists every query sent to the service: no query is sent
      twice, and a successful run sends one for every page of every chain. */
  method QueryIdentifiers<P(!new)>(packages: seq<P>, service: Service<P>, ghost tokens: set<string>)
    returns (r: Result<seq<set<string>>, OsvError>, ghost requested: seq<Request>)
    requires DrawsFrom(service, tokens)
    ensures r.Success? ==> |r.value| == |packages|
                           && forall i :: 0 <= i < |packages| ==> IsAnswer(service, packages[i], r.value[i])
    ensures Outcome(service, packages, r, requested)
  {
    var identifiers: seq<set<string>> := seq(|packages|, _ => {});
    var pending: seq<PendingQuery<P>> :=
      seq(|packages|, i requires 0 <= i < |packages| => PendingQuery(i, packages[i], None));
    FirstRoundStarts(service, packages, identifiers, pending);
    r, requested := ReadRounds(packages, service, tokens, identifiers, pending);
  }

  /** Round after round, until no query is pending. */
  method ReadRounds<P(!new)>(packages: seq<P>, service: Service<P>, ghost tokens: set<string>,
                             none: seq<set<string>>, first: seq<PendingQuery<P>>)
    returns (r: Result<seq<set<string>>, OsvError>, ghost requested: seq<Request>)
    requires DrawsFrom(service, tokens)
    requires BeforeRound(service, packages, 0, none, {}, first, [])
    ensures Outcome(service, packages, r, requested)
  {
    var identifiers, seen, pending := none, {}, first;
    ghost var rounds: nat := 0;
    requested := [];
    while pending != []
      invariant BeforeRound(service, packages, rounds, identifiers, seen, pending, requested)
      decreases |tokens| + 1 - rounds
    {
      RoundsLeft(service, packages, tokens, rounds, identifiers, seen, pending, requested);
      var outcome, next;
      outcome, identifiers, seen, next, requested :=
        RunRound(service, packages, pending, rounds, identifiers, seen, requested);
      if outcome.Some? {
        return Failure(outcome.value), requested;
      }
      rounds := rounds + 1;
      pending := next;
    }
    SuccessEnds(service, packages, rounds, identifiers, seen, requested);
    r := Success(identifiers);
  }

  /** One round: the pending queries in batches. */
  method RunRound<P(!new)>(service: Service<P>, packages: seq<P>, pending: seq<PendingQuery<P>>, ghost r: nat,
                           identifiers: seq<set<string>>, seen: Seen, ghost requested: seq<Request>)
    returns (failure: Option<OsvError>, found: seq<set<string>>, issued: Seen, next: seq<PendingQuery<P>>,
             ghost sent: seq<Request>)
    requires BeforeRound(service, packages, r, identifiers, seen, pending, requested)
    ensures failure.None? ==> BeforeRound(service, packages, r + 1, found, issued, next, sent)
    ensures failure.Some? ==> Outcome(service, packages, Failure(failure.value), sent)
  {
    found, issued, next, sent := identifiers, seen, [], requested;
    RoundBegins(service, packages, r, identifiers, seen);
    var start: nat := 0;
    while start < |pending|
      invariant start <= |pending|
      invariant QueriesDone(service, packages, r, start, found, issued, next)
      invariant sent == SentUpTo(requested, pending, start)
    {
      var end := if start + MAX_BATCH_SIZE < |pending| then start + MAX_BATCH_SIZE else |pending|;
      ghost var before := sent;
      failure, found, issued, next, sent :=
        ReadBatch(service, packages, pending, start, end, r, found, issued, next, before);
      BatchSent(requested, pending, start, end, before, sent);
      if failure.Some? {
        FailureEnds(service, packages, r, sent, failure.value);
        return;
      }
      start := end;
    }
    assert pending[..start] == pending;
    RoundEnds(service, packages, r, found, issued, next);
    failure := None;
  }

  /** One batch of a round, from position `start` to `end` of the pending queries. */
  method ReadBatch<P>(service: Service<P>, packages: seq<P>, pending: seq<PendingQuery<P>>, start: nat, end: nat,
                      ghost r: nat, identifiers: seq<set<string>>, seen: Seen, queued: seq<PendingQuery<P>>,
                      ghost requested: seq<Request>)
    returns (failure: Option<OsvError>, found: seq<set<string>>, issued: Seen, next: seq<PendingQuery<P>>,
             ghost sent: seq<Request>)
    requires pending == RoundUpTo(service, packages, r, |packages|) && start <= end <= |pending|
    requires QueriesDone(service, packages, r, start, identifiers, seen, queued)
    ensures failure.None? ==> QueriesDone(service, packages, r, end, found, issued, next)
    ensures failure.Some? ==> FailsHonestly(service, packages, r, failure.value)
    ensures sent == requested + RequestsOf(pending[start..end])
  {
    var pages;
    pages, sent := QueryBatch(service, pending[start..end], requested);
    found, issued, next := identifiers, seen, queued;
    for position := start to end
      invariant QueriesDone(service, packages, r, position, found, issued, next)
    {
      BatchAnswers(service, packages, r, pending, start, end, pages, position);
      var query, page := pending[position], pages[position - start];
      failure, found, issued, next := ReadQuery(service, packages, query, page, r, position, found, issued, next);
      if failure.Some? {
        return;
      }
    }
    failure := None;
  }

  /** One request to the service: the queries of a batch, each answered by its page. */
  method QueryBatch<P>(service: Service<P>, chunk: seq<PendingQuery<P>>, ghost requested: seq<Request>)
    returns (pages: seq<Page>, ghost sent: seq<Request>)
    ensures PagesFor(service, chunk, pages)
    ensures sent == requested + RequestsOf(chunk)
  {
    pages := seq(|chunk|, k requires 0 <= k < |chunk| => service(chunk[k].package, chunk[k].token));
    sent := requested + RequestsOf(chunk);
  }

  /** One query of a round: its page's identifiers, then its next token. */
  method ReadQuery<P>(ghost service: Service<P>, ghost packages: seq<P>, query: PendingQuery<P>, page: Page,
                      ghost r: nat, ghost position: nat, identifiers: seq<set<string>>, seen: Seen,
                      next: seq<PendingQuery<P>>)
    returns (failure: Option<OsvError>, found: seq<set<string>>, issued: Seen, following: seq<PendingQuery<P>>)
    requires QueriesDone(service, packages, r, position, identifiers, seen, next)
    requires Answered(service, packages, r, position, query, page)
    ensures failure.None? ==> QueriesDone(service, packages, r, position + 1, found, issued, following)
    ensures failure.Some? ==> FailsHonestly(service, packages, r, failure.value)
  {
    QueryHasIndex(service, packages, r, position, identifiers, seen, next, query, page);
    found, issued, following := identifiers, seen, next;
    var gathered := GatherPage(found[query.index], page);
    if gathered.None? {
      BlankIsReal(service, packages, r, position, found, issued, following, query, page);
      return Some(BlankIdentifier), found, issued, following;
    }
    if page.nextToken.Some? && (query.index, page.nextToken.value) in issued {
      TokenIsRepeated(service, packages, r, position, found, issued, following, query, page);
      return Some(RepeatedToken(query.index)), found, issued, following;
    }
    QueryAdvances(service, packages, r, position, found, issued, following, query, page, gathered.value);
    found := found[query.index := gathered.value];
    if page.nextToken.Some? {
      issued := issued + {(query.index, page.nextToken.value)};
      following := following + [PendingQuery(query.index, query.package, page.nextToken)];
    }
    failure := None;
  }

  /** Adds a page's identifiers, unless one of them is blank. */
  method GatherPage(identifiers: set<string>, page: Page) returns (gathered: Option<set<string>>)
    ensures gathered.Some? ==> gathered.value == identifiers + (set id | id in page.identifiers)
    ensures gathered.Some? <==> forall id <- page.identifiers :: !Blank(id)
  {
    var result := identifiers;
    for k := 0 to |page.identifiers|
      invariant result == identifiers + (set id | id in page.identifiers[..k])
      invariant forall id <- page.identifiers[..k] :: !Blank(id)
    {
      var identifier := page.identifiers[k];
      assert identifier in page.identifiers;
      assert page.identifiers[..k + 1] == page.identifiers[..k] + [identifier];
      if Blank(identifier) {
        return None;
      }
      result := result + {identifier};
    }
    assert page.identifiers[..|page.identifiers|] == page.identifiers;
    gathered := Some(result);
  }
}
