/** What the paginated vulnerability query reads: the chain of pages of each package, the queries of
    each round, and what has been gathered after every query. */
module OsvChains {
  import opened Text
  import opened Wrappers

  datatype Page = Page(identifiers: seq<string>, nextToken: Option<string>)

  /** The service, as a function from a package and a page token to a page. */
  type Service<!P> = (P, Option<string>) -> Page

  datatype PendingQuery<P> = PendingQuery(index: nat, package: P, token: Option<string>)

  datatype OsvError = BlankIdentifier | RepeatedToken(index: nat)

  // ------------------------------------------------------------------ page chains

  /** The token of page `k` of a package, counting from zero; `None` when there are fewer pages. */
  function TokenAt<P>(service: Service<P>, package: P, k: nat): Option<Option<string>> {
    if k == 0 then Some(None)
    else
      match TokenAt(service, package, k - 1)
      case None => None
      case Some(token) =>
        match service(package, token).nextToken
        case None => None
        case Some(next) => Some(Some(next))
  }

  ghost predicate OnChain<P>(service: Service<P>, package: P, identifier: string) {
    exists k: nat :: OnPage(service, package, k, identifier)
  }

  predicate OnPage<P>(service: Service<P>, package: P, k: nat, identifier: string) {
    var token := TokenAt(service, package, k);
    token.Some? && identifier in service(package, token.value).identifiers
  }

  ghost predicate Ends<P>(service: Service<P>, package: P) {
    exists k: nat :: TokenAt(service, package, k).None?
  }

  /** Two pages of the chain have the same token. */
  predicate Revisits<P>(service: Service<P>, package: P, j: nat, k: nat) {
    j < k && TokenAt(service, package, k).Some? && TokenAt(service, package, j) == TokenAt(service, package, k)
  }

  /** Page `k` has a token that an earlier page has already had. */
  ghost predicate Repeats<P>(service: Service<P>, package: P, k: nat) {
    exists j: nat :: Revisits(service, package, j, k)
  }

  /** A chain that revisits a token never ends, so it can be read to its end only without repetition. */
  lemma RevisitNeverEnds<P>(service: Service<P>, package: P, j: nat, k: nat)
    requires Revisits(service, package, j, k)
    ensures !Ends(service, package)
  {
    forall m: nat
      ensures TokenAt(service, package, m).Some?
    {
      Repeating(service, package, j, k, m);
    }
  }

  lemma {:induction false} Repeating<P>(service: Service<P>, package: P, j: nat, k: nat, m: nat)
    requires Revisits(service, package, j, k)
    ensures TokenAt(service, package, m).Some?
    decreases m
  {
    if m < k {
      ChainDownward(service, package, m, k);
    } else {
      Shifted(service, package, j, k, m - k);
      Repeating(service, package, j, k, j + (m - k));
    }
  }

  lemma {:induction false} ChainDownward<P>(service: Service<P>, package: P, m: nat, k: nat)
    requires m <= k && TokenAt(service, package, k).Some?
    ensures TokenAt(service, package, m).Some?
    decreases k
  {
    if m < k {
      ChainDownward(service, package, m, k - 1);
    }
  }

  /** From equal tokens on, the chain goes on equally. */
  lemma {:induction false} Shifted<P>(service: Service<P>, package: P, j: nat, k: nat, d: nat)
    requires TokenAt(service, package, j) == TokenAt(service, package, k)
    ensures TokenAt(service, package, j + d) == TokenAt(service, package, k + d)
    decreases d
  {
    if d > 0 {
      Shifted(service, package, j, k, d - 1);
    }
  }

  // ------------------------------------------------------------------ rounds

  /** Page `r` of every package below `bound` that has one, in the packages' order. */
  function RoundUpTo<P>(service: Service<P>, packages: seq<P>, r: nat, bound: nat): seq<PendingQuery<P>>
    requires bound <= |packages|
  {
    if bound == 0 then []
    else
      var package := packages[bound - 1];
      RoundUpTo(service, packages, r, bound - 1)
      + (match TokenAt(service, package, r)
         case None => []
         case Some(token) => [PendingQuery(bound - 1, package, token)])
  }

  lemma {:induction false} RoundPrefix<P>(service: Service<P>, packages: seq<P>, r: nat, i: nat, j: nat)
    requires i <= j <= |packages|
    ensures RoundUpTo(service, packages, r, i) <= RoundUpTo(service, packages, r, j)
    decreases j
  {
    if i < j {
      RoundPrefix(service, packages, r, i, j - 1);
    }
  }

  /** The identifiers on the first `r` pages of a package. */
  function Gathered<P>(service: Service<P>, package: P, r: nat): set<string> {
    if r == 0 then {}
    else
      Gathered(service, package, r - 1)
      + (match TokenAt(service, package, r - 1)
         case None => {}
         case Some(token) => set id | id in service(package, token).identifiers)
  }

  lemma {:induction false} GatheredIs<P>(service: Service<P>, package: P, r: nat)
    ensures forall id :: id in Gathered(service, package, r)
              <==> exists k :: 0 <= k < r && OnPage(service, package, k, id)
  {
    if r > 0 {
      GatheredIs(service, package, r - 1);
      forall id | id in Gathered(service, package, r)
        ensures exists k :: 0 <= k < r && OnPage(service, package, k, id)
      {
        if id !in Gathered(service, package, r - 1) {
          assert OnPage(service, package, r - 1, id);
        }
      }
    }
  }

  /** Whether one of pages 1 to `r` is asked for with this token. */
  ghost predicate Issued<P>(service: Service<P>, package: P, r: nat, token: string) {
    exists k :: 1 <= k <= r && TokenAt(service, package, k) == Some(Some(token))
  }

  ghost predicate NoRevisit<P>(service: Service<P>, package: P, r: nat) {
    forall j, k :: 0 <= j < k <= r ==> !Revisits(service, package, j, k)
  }

  /** In round `r` the packages below `i` have had their page read: how many pages package `m` has behind it. */
  function PagesRead(r: nat, i: nat, m: nat): nat { if m < i then r + 1 else r }

  predicate Blank(identifier: string) { Trim(identifier) == "" }

  type Seen = set<(nat, string)>

  ghost predicate PackageProgress<P>(service: Service<P>, package: P, pages: nat, found: set<string>, index: nat,
                                     seen: Seen) {
    && found == Gathered(service, package, pages)
    && (forall id <- found :: !Blank(id))
    && (forall t :: (index, t) in seen <==> Issued(service, package, pages, t))
    && NoRevisit(service, package, pages)
  }

  ghost predicate Progress<P>(service: Service<P>, packages: seq<P>, r: nat, i: nat,
                              identifiers: seq<set<string>>, seen: Seen) {
    && i <= |packages| == |identifiers|
    && forall m :: 0 <= m < |packages| ==>
         PackageProgress(service, packages[m], PagesRead(r, i, m), identifiers[m], m, seen)
  }

  /** A package without a page `r` has nothing to add. */
  lemma SkipPackage<P>(service: Service<P>, packages: seq<P>, r: nat, i: nat, identifiers: seq<set<string>>, seen: Seen)
    requires Progress(service, packages, r, i, identifiers, seen)
    requires i < |packages| && TokenAt(service, packages[i], r).None?
    ensures Progress(service, packages, r, i + 1, identifiers, seen)
    ensures RoundUpTo(service, packages, r, i + 1) == RoundUpTo(service, packages, r, i)
    ensures RoundUpTo(service, packages, r + 1, i + 1) == RoundUpTo(service, packages, r + 1, i)
  {
    assert TokenAt(service, packages[i], r + 1).None?;
    forall m | 0 <= m < |packages|
      ensures PackageProgress(service, packages[m], PagesRead(r, i + 1, m), identifiers[m], m, seen)
    {
      assert PackageProgress(service, packages[m], PagesRead(r, i, m), identifiers[m], m, seen);
      if m == i {
        SkippedPage(service, packages[m], r, identifiers[m], m, seen);
      }
    }
  }

  lemma SkippedPage<P>(service: Service<P>, package: P, r: nat, found: set<string>, index: nat, seen: Seen)
    requires PackageProgress(service, package, r, found, index, seen) && TokenAt(service, package, r).None?
    ensures PackageProgress(service, package, r + 1, found, index, seen)
  {
    assert TokenAt(service, package, r + 1).None?;
    assert forall t :: Issued(service, package, r + 1, t) <==> Issued(service, package, r, t);
  }

  /** The queries done so far in a round, when the packages below `i` are through. */
  ghost predicate MidRound<P>(service: Service<P>, packages: seq<P>, r: nat, i: nat, position: nat,
                              identifiers: seq<set<string>>, seen: Seen, next: seq<PendingQuery<P>>) {
    && Progress(service, packages, r, i, identifiers, seen)
    && |RoundUpTo(service, packages, r, i)| == position
    && next == RoundUpTo(service, packages, r + 1, i)
  }

  /** The queries of round `r` before `position` are done. */
  ghost predicate QueriesDone<P>(service: Service<P>, packages: seq<P>, r: nat, position: nat,
                                 identifiers: seq<set<string>>, seen: Seen, next: seq<PendingQuery<P>>) {
    exists i: nat :: MidRound(service, packages, r, i, position, identifiers, seen, next)
  }

  /** A query of the round by its place, and the page that answers it. */
  ghost predicate Answered<P>(service: Service<P>, packages: seq<P>, r: nat, position: nat, query: PendingQuery<P>,
                              page: Page) {
    var round := RoundUpTo(service, packages, r, |packages|);
    position < |round| && query == round[position] && page == service(query.package, query.token)
  }

  /** What the service answers to the queries of a batch. */
  ghost predicate PagesFor<P>(service: Service<P>, chunk: seq<PendingQuery<P>>, pages: seq<Page>) {
    && |pages| == |chunk|
    && forall k :: 0 <= k < |chunk| ==> pages[k] == service(chunk[k].package, chunk[k].token)
  }

  lemma BatchAnswers<P>(service: Service<P>, packages: seq<P>, r: nat, pending: seq<PendingQuery<P>>, start: nat,
                        end: nat, pages: seq<Page>, position: nat)
    requires pending == RoundUpTo(service, packages, r, |packages|) && start <= position < end <= |pending|
    requires PagesFor(service, pending[start..end], pages)
    ensures |pages| == end - start
    ensures Answered(service, packages, r, position, pending[position], pages[position - start])
  {
    assert pending[start..end][position - start] == pending[position];
  }

  /** That query belongs to a package that is open, and all before it are through. */
  lemma QueryIsNext<P>(service: Service<P>, packages: seq<P>, r: nat, position: nat, identifiers: seq<set<string>>,
                       seen: Seen, next: seq<PendingQuery<P>>, query: PendingQuery<P>, page: Page)
    requires QueriesDone(service, packages, r, position, identifiers, seen, next)
    requires Answered(service, packages, r, position, query, page)
    ensures query.index < |packages| && MidRound(service, packages, r, query.index, position, identifiers, seen, next)
    ensures query.package == packages[query.index] && TokenAt(service, query.package, r) == Some(query.token)
  {
    var i: nat :| MidRound(service, packages, r, i, position, identifiers, seen, next);
    NextOpen(service, packages, r, i, position, identifiers, seen, next, query);
  }

  /** Finds the package the next pending query belongs to. */
  lemma NextOpen<P>(service: Service<P>, packages: seq<P>, r: nat, i: nat, position: nat,
                    identifiers: seq<set<string>>, seen: Seen, next: seq<PendingQuery<P>>, query: PendingQuery<P>)
    requires MidRound(service, packages, r, i, position, identifiers, seen, next)
    requires position < |RoundUpTo(service, packages, r, |packages|)|
    requires query == RoundUpTo(service, packages, r, |packages|)[position]
    ensures query.index < |packages| && MidRound(service, packages, r, query.index, position, identifiers, seen, next)
    ensures query.package == packages[query.index] && TokenAt(service, query.package, r) == Some(query.token)
    decreases |packages| - i
  {
    if i < |packages| {
      if TokenAt(service, packages[i], r).Some? {
        RoundPrefix(service, packages, r, i + 1, |packages|);
      } else {
        SkipPackage(service, packages, r, i, identifiers, seen);
        NextOpen(service, packages, r, i + 1, position, identifiers, seen, next, query);
      }
    }
  }

  /** Reading page `r` of package `i`: its identifiers are gathered and its next token is issued. */
  lemma ReadPage<P>(service: Service<P>, packages: seq<P>, r: nat, i: nat, identifiers: seq<set<string>>, seen: Seen,
                    found: set<string>)
    requires Progress(service, packages, r, i, identifiers, seen) && i < |packages|
    requires TokenAt(service, packages[i], r).Some?
    requires var page := service(packages[i], TokenAt(service, packages[i], r).value);
             && found == identifiers[i] + (set id | id in page.identifiers)
             && (forall id <- page.identifiers :: !Blank(id))
             && (page.nextToken.Some? ==> (i, page.nextToken.value) !in seen)
    ensures var page := service(packages[i], TokenAt(service, packages[i], r).value);
            var token := if page.nextToken.Some? then {(i, page.nextToken.value)} else {};
            Progress(service, packages, r, i + 1, identifiers[i := found], seen + token)
  {
    var package := packages[i];
    var page := service(package, TokenAt(service, package, r).value);
    var token := if page.nextToken.Some? then {(i, page.nextToken.value)} else {};
    assert PackageProgress(service, package, PagesRead(r, i, i), identifiers[i], i, seen);
    PackageReads(service, package, r, i, identifiers[i], seen, found, token);
    forall m | 0 <= m < |packages| && m != i
      ensures PackageProgress(service, packages[m], PagesRead(r, i + 1, m), identifiers[m], m, seen + token)
    {
      assert PackageProgress(service, packages[m], PagesRead(r, i, m), identifiers[m], m, seen);
      assert forall t :: (m, t) in seen + token <==> (m, t) in seen;
    }
  }

  lemma PackageReads<P>(service: Service<P>, package: P, r: nat, i: nat, before: set<string>, seen: Seen,
                        found: set<string>, token: Seen)
    requires PackageProgress(service, package, r, before, i, seen) && TokenAt(service, package, r).Some?
    requires var page := service(package, TokenAt(service, package, r).value);
             && found == before + (set id | id in page.identifiers)
             && (forall id <- page.identifiers :: !Blank(id))
             && (page.nextToken.Some? ==> (i, page.nextToken.value) !in seen)
             && token == if page.nextToken.Some? then {(i, page.nextToken.value)} else {}
    ensures PackageProgress(service, package, r + 1, found, i, seen + token)
  {
    TokenIssued(service, package, r, i, seen, token);
  }

  lemma TokenIssued<P>(service: Service<P>, package: P, r: nat, i: nat, seen: Seen, token: Seen)
    requires TokenAt(service, package, r).Some? && NoRevisit(service, package, r)
    requires forall t :: (i, t) in seen <==> Issued(service, package, r, t)
    requires var next := service(package, TokenAt(service, package, r).value).nextToken;
             && (next.Some? ==> (i, next.value) !in seen)
             && token == if next.Some? then {(i, next.value)} else {}
    ensures forall t :: (i, t) in seen + token <==> Issued(service, package, r + 1, t)
    ensures NoRevisit(service, package, r + 1)
  {
    var next := service(package, TokenAt(service, package, r).value).nextToken;
    assert TokenAt(service, package, r + 1) == if next.Some? then Some(Some(next.value)) else None;
    forall t
      ensures (i, t) in seen + token <==> Issued(service, package, r + 1, t)
    {
      if Issued(service, package, r + 1, t) && (i, t) !in seen {
        var k :| 1 <= k <= r + 1 && TokenAt(service, package, k) == Some(Some(t));
        assert k == r + 1;
      }
    }
    forall j, k | 0 <= j < k <= r + 1
      ensures !Revisits(service, package, j, k)
    {
      assert next.Some? && j > 0 && TokenAt(service, package, j) == Some(Some(next.value)) && j <= r
             ==> Issued(service, package, r, next.value);
    }
  }

  // ------------------------------------------------------------------ the loop

  /** The service hands out no other tokens. */
  ghost predicate DrawsFrom<P(!new)>(service: Service<P>, tokens: set<string>) {
    forall p, t :: service(p, t).nextToken.Some? ==> service(p, t).nextToken.value in tokens
  }

  /** Without a repetition a package has at most one page more than there are tokens. */
  lemma {:induction false} PagesBounded<P(!new)>(service: Service<P>, package: P, tokens: set<string>, r: nat)
    returns (used: set<string>)
    requires NoRevisit(service, package, r) && TokenAt(service, package, r).Some?
    requires DrawsFrom(service, tokens)
    ensures |used| == r && used <= tokens
    ensures forall t :: t in used <==> Issued(service, package, r, t)
  {
    if r == 0 {
      used := {};
    } else {
      var earlier := PagesBounded(service, package, tokens, r - 1);
      var last := TokenAt(service, package, r).value.value;
      assert !Issued(service, package, r - 1, last) by {
        forall k | 1 <= k <= r - 1
          ensures TokenAt(service, package, k) != TokenAt(service, package, r)
        {
          assert !Revisits(service, package, k, r);
        }
      }
      used := earlier + {last};
      forall t
        ensures t in used <==> Issued(service, package, r, t)
      {
        assert TokenAt(service, package, r) == Some(Some(last));
      }
    }
  }

  lemma RoundBounded<P(!new)>(service: Service<P>, packages: seq<P>, tokens: set<string>, r: nat,
                              identifiers: seq<set<string>>, seen: Seen)
    requires Progress(service, packages, r, 0, identifiers, seen)
    requires RoundUpTo(service, packages, r, |packages|) != []
    requires DrawsFrom(service, tokens)
    ensures r <= |tokens|
  {
    var query := RoundUpTo(service, packages, r, |packages|)[0];
    var i := query.index;
    NextOpen(service, packages, r, 0, 0, identifiers, seen, [], query);
    assert PackageProgress(service, packages[i], PagesRead(r, 0, i), identifiers[i], i, seen);
    var used := PagesBounded(service, packages[i], tokens, r);
    SubsetSize(used, tokens);
  }

  lemma SubsetSize(a: set<string>, b: set<string>)
    requires a <= b
    ensures |a| <= |b|
  {
    assert b == a + (b - a);
  }

  lemma {:induction false} FirstRoundIs<P>(service: Service<P>, packages: seq<P>, bound: nat)
    requires bound <= |packages|
    ensures |RoundUpTo(service, packages, 0, bound)| == bound
    ensures forall i :: 0 <= i < bound
              ==> RoundUpTo(service, packages, 0, bound)[i] == PendingQuery(i, packages[i], None)
  {
    if bound > 0 {
      FirstRoundIs(service, packages, bound - 1);
    }
  }

  lemma NothingRead<P>(service: Service<P>, packages: seq<P>, identifiers: seq<set<string>>)
    requires |identifiers| == |packages| && forall m :: 0 <= m < |packages| ==> identifiers[m] == {}
    ensures Progress(service, packages, 0, 0, identifiers, {})
  {
    forall m | 0 <= m < |packages|
      ensures PackageProgress(service, packages[m], 0, identifiers[m], m, {})
    {
    }
  }

  /** When a round is empty, every chain has ended. */
  lemma NothingLeft<P>(service: Service<P>, packages: seq<P>, r: nat, i: nat)
    requires i < |packages| && RoundUpTo(service, packages, r, |packages|) == []
    ensures TokenAt(service, packages[i], r).None?
  {
    RoundPrefix(service, packages, r, i + 1, |packages|);
  }

  lemma WholeChain<P>(service: Service<P>, package: P, r: nat)
    requires TokenAt(service, package, r).None?
    ensures Ends(service, package)
    ensures forall id :: id in Gathered(service, package, r) <==> OnChain(service, package, id)
  {
    GatheredIs(service, package, r);
    forall id | OnChain(service, package, id)
      ensures id in Gathered(service, package, r)
    {
      var k: nat :| OnPage(service, package, k, id);
      if k >= r {
        ChainDownward(service, package, r, k);
      }
    }
  }

  lemma RepetitionIsReal<P>(service: Service<P>, packages: seq<P>, r: nat, i: nat, identifiers: seq<set<string>>,
                            seen: Seen, token: string)
    requires Progress(service, packages, r, i, identifiers, seen) && i < |packages|
    requires TokenAt(service, packages[i], r).Some?
    requires service(packages[i], TokenAt(service, packages[i], r).value).nextToken == Some(token) && (i, token) in seen
    ensures Repeats(service, packages[i], r + 1)
  {
    assert PackageProgress(service, packages[i], PagesRead(r, i, i), identifiers[i], i, seen);
    var k :| 1 <= k <= r && TokenAt(service, packages[i], k) == Some(Some(token));
    assert Revisits(service, packages[i], k, r + 1);
  }

  lemma NoRevisitYet<P>(service: Service<P>, packages: seq<P>, r: nat, i: nat, identifiers: seq<set<string>>,
                        seen: Seen)
    requires Progress(service, packages, r, i, identifiers, seen)
    ensures forall m :: 0 <= m < |packages| ==> NoRevisit(service, packages[m], r)
  {
    forall m | 0 <= m < |packages|
      ensures NoRevisit(service, packages[m], r)
    {
      assert PackageProgress(service, packages[m], PagesRead(r, i, m), identifiers[m], m, seen);
    }
  }

  /** Once all queries of a round are done, the packages from `i` on have no page in it, nor in the next. */
  lemma NoQueryLeft<P>(service: Service<P>, packages: seq<P>, r: nat, i: nat)
    requires i <= |packages| && |RoundUpTo(service, packages, r, i)| == |RoundUpTo(service, packages, r, |packages|)|
    ensures forall m :: i <= m < |packages| ==> TokenAt(service, packages[m], r).None?
    ensures RoundUpTo(service, packages, r + 1, i) == RoundUpTo(service, packages, r + 1, |packages|)
    decreases |packages| - i
  {
    if i < |packages| {
      RoundPrefix(service, packages, r, i + 1, |packages|);
      assert TokenAt(service, packages[i], r + 1).None?;
      NoQueryLeft(service, packages, r, i + 1);
    }
  }

  lemma FinishRound<P>(service: Service<P>, packages: seq<P>, r: nat, i: nat, identifiers: seq<set<string>>, seen: Seen)
    requires Progress(service, packages, r, i, identifiers, seen)
    requires forall m :: i <= m < |packages| ==> TokenAt(service, packages[m], r).None?
    ensures Progress(service, packages, r + 1, 0, identifiers, seen)
  {
    forall m | 0 <= m < |packages|
      ensures PackageProgress(service, packages[m], PagesRead(r + 1, 0, m), identifiers[m], m, seen)
    {
      assert PackageProgress(service, packages[m], PagesRead(r, i, m), identifiers[m], m, seen);
      if m >= i {
        SkippedPage(service, packages[m], r, identifiers[m], m, seen);
      }
    }
  }

  /** Everything on the package's page chain, which ends, and no blank identifier. */
  ghost predicate IsAnswer<P>(service: Service<P>, package: P, identifiers: set<string>) {
    && Ends(service, package)
    && (forall id :: id in identifiers <==> OnChain(service, package, id))
    && (forall id <- identifiers :: !Blank(id))
  }

  /** Nothing is done at the beginning of a round, and everything at its end. */
  lemma RoundBegins<P>(service: Service<P>, packages: seq<P>, r: nat, identifiers: seq<set<string>>, seen: Seen)
    requires Progress(service, packages, r, 0, identifiers, seen)
    ensures QueriesDone(service, packages, r, 0, identifiers, seen, [])
  {
    assert MidRound(service, packages, r, 0, 0, identifiers, seen, []);
  }

  lemma RoundEnds<P>(service: Service<P>, packages: seq<P>, r: nat, identifiers: seq<set<string>>, seen: Seen,
                     next: seq<PendingQuery<P>>)
    requires QueriesDone(service, packages, r, |RoundUpTo(service, packages, r, |packages|)|, identifiers, seen, next)
    ensures Progress(service, packages, r + 1, 0, identifiers, seen)
    ensures next == RoundUpTo(service, packages, r + 1, |packages|)
  {
    var end := |RoundUpTo(service, packages, r, |packages|)|;
    var i: nat :| MidRound(service, packages, r, i, end, identifiers, seen, next);
    NoQueryLeft(service, packages, r, i);
    FinishRound(service, packages, r, i, identifiers, seen);
  }

  /** A failure in round `r` names a real blank identifier, or a package whose next page repeats
      a token; up to round `r` itself no chain came back to a token. */
  ghost predicate FailsHonestly<P>(service: Service<P>, packages: seq<P>, r: nat, error: OsvError) {
    && (forall m :: 0 <= m < |packages| ==> NoRevisit(service, packages[m], r))
    && (error.RepeatedToken? ==> error.index < |packages| && Repeats(service, packages[error.index], r + 1))
    && (error.BlankIdentifier?
        ==> exists i, id :: 0 <= i < |packages| && OnChain(service, packages[i], id) && Blank(id))
  }

  lemma QueryHasIndex<P>(service: Service<P>, packages: seq<P>, r: nat, position: nat, identifiers: seq<set<string>>,
                         seen: Seen, next: seq<PendingQuery<P>>, query: PendingQuery<P>, page: Page)
    requires QueriesDone(service, packages, r, position, identifiers, seen, next)
    requires Answered(service, packages, r, position, query, page)
    ensures query.index < |identifiers|
  {
    QueryIsNext(service, packages, r, position, identifiers, seen, next, query, page);
  }

  /** A blank identifier on the page is one on the package's chain. */
  lemma BlankIsReal<P>(service: Service<P>, packages: seq<P>, r: nat, position: nat, identifiers: seq<set<string>>,
                       seen: Seen, next: seq<PendingQuery<P>>, query: PendingQuery<P>, page: Page)
    requires QueriesDone(service, packages, r, position, identifiers, seen, next)
    requires Answered(service, packages, r, position, query, page)
    requires exists id :: id in page.identifiers && Blank(id)
    ensures FailsHonestly(service, packages, r, BlankIdentifier)
  {
    QueryIsNext(service, packages, r, position, identifiers, seen, next, query, page);
    NoRevisitYet(service, packages, r, query.index, identifiers, seen);
    var blank :| blank in page.identifiers && Blank(blank);
    assert OnPage(service, packages[query.index], r, blank);
  }

  /** A next token that was handed out before makes the chain repeat. */
  lemma TokenIsRepeated<P>(service: Service<P>, packages: seq<P>, r: nat, position: nat, identifiers: seq<set<string>>,
                           seen: Seen, next: seq<PendingQuery<P>>, query: PendingQuery<P>, page: Page)
    requires QueriesDone(service, packages, r, position, identifiers, seen, next)
    requires Answered(service, packages, r, position, query, page)
    requires page.nextToken.Some? && (query.index, page.nextToken.value) in seen
    ensures FailsHonestly(service, packages, r, RepeatedToken(query.index))
  {
    QueryIsNext(service, packages, r, position, identifiers, seen, next, query, page);
    NoRevisitYet(service, packages, r, query.index, identifiers, seen);
    RepetitionIsReal(service, packages, r, query.index, identifiers, seen, page.nextToken.value);
  }

  /** Otherwise the query is done once its identifiers are gathered and its next token is issued. */
  lemma QueryAdvances<P>(service: Service<P>, packages: seq<P>, r: nat, position: nat, identifiers: seq<set<string>>,
                         seen: Seen, next: seq<PendingQuery<P>>, query: PendingQuery<P>, page: Page,
                         gathered: set<string>)
    requires QueriesDone(service, packages, r, position, identifiers, seen, next)
    requires Answered(service, packages, r, position, query, page)
    requires query.index < |identifiers|
    requires gathered == identifiers[query.index] + (set id | id in page.identifiers)
    requires forall id <- page.identifiers :: !Blank(id)
    requires page.nextToken.Some? ==> (query.index, page.nextToken.value) !in seen
    ensures var issued := if page.nextToken.Some? then seen + {(query.index, page.nextToken.value)} else seen;
            var following := if page.nextToken.None? then next
                             else next + [PendingQuery(query.index, query.package, page.nextToken)];
            QueriesDone(service, packages, r, position + 1, identifiers[query.index := gathered], issued, following)
  {
    QueryIsNext(service, packages, r, position, identifiers, seen, next, query, page);
    PackageAdvances(service, packages, r, query.index, position, identifiers, seen, next, gathered, page);
    assert seen + {} == seen && next + [] == next;
  }

  lemma PackageAdvances<P>(service: Service<P>, packages: seq<P>, r: nat, i: nat, position: nat,
                           identifiers: seq<set<string>>, seen: Seen, next: seq<PendingQuery<P>>,
                           gathered: set<string>, page: Page)
    requires MidRound(service, packages, r, i, position, identifiers, seen, next) && i < |packages|
    requires TokenAt(service, packages[i], r).Some?
    requires page == service(packages[i], TokenAt(service, packages[i], r).value)
    requires gathered == identifiers[i] + (set id | id in page.identifiers)
    requires forall id <- page.identifiers :: !Blank(id)
    requires page.nextToken.Some? ==> (i, page.nextToken.value) !in seen
    ensures var issued := seen + if page.nextToken.Some? then {(i, page.nextToken.value)} else {};
            var following :=
              next + if page.nextToken.Some? then [PendingQuery(i, packages[i], page.nextToken)] else [];
            QueriesDone(service, packages, r, position + 1, identifiers[i := gathered], issued, following)
  {
    ReadPage(service, packages, r, i, identifiers, seen, gathered);
    RoundGrows(service, packages, r, i);
    var issued := seen + if page.nextToken.Some? then {(i, page.nextToken.value)} else {};
    var following := next + if page.nextToken.Some? then [PendingQuery(i, packages[i], page.nextToken)] else [];
    assert MidRound(service, packages, r, i + 1, position + 1, identifiers[i := gathered], issued, following);
  }

  lemma RoundGrows<P>(service: Service<P>, packages: seq<P>, r: nat, i: nat)
    requires i < |packages| && TokenAt(service, packages[i], r).Some?
    ensures |RoundUpTo(service, packages, r, i + 1)| == |RoundUpTo(service, packages, r, i)| + 1
    ensures var page := service(packages[i], TokenAt(service, packages[i], r).value);
            RoundUpTo(service, packages, r + 1, i + 1)
            == RoundUpTo(service, packages, r + 1, i)
               + if page.nextToken.Some? then [PendingQuery(i, packages[i], page.nextToken)] else []
  {
    var page := service(packages[i], TokenAt(service, packages[i], r).value);
    assert TokenAt(service, packages[i], r + 1)
        == if page.nextToken.Some? then Some(page.nextToken) else None;
  }

  /** An error names a package whose chain comes back to a token, or there is a blank identifier. */
  ghost predicate IsReal<P>(service: Service<P>, packages: seq<P>, error: OsvError) {
    match error
    case RepeatedToken(index) => index < |packages| && exists k: nat :: Repeats(service, packages[index], k)
    case BlankIdentifier => exists i, id :: 0 <= i < |packages| && OnChain(service, packages[i], id) && Blank(id)
  }

  // ------------------------------------------------------------------ the requests made

  /** A query of a batch, by the package's position and the page token. */
  datatype Request = Request(index: nat, token: Option<string>)

  function RequestsOf<P>(queries: seq<PendingQuery<P>>): (requests: seq<Request>)
    ensures |requests| == |queries|
  {
    seq(|queries|, k requires 0 <= k < |queries| => Request(queries[k].index, queries[k].token))
  }

  function AllRounds<P>(service: Service<P>, packages: seq<P>, rounds: nat): seq<Request> {
    if rounds == 0 then []
    else AllRounds(service, packages, rounds - 1) + RequestsOf(RoundUpTo(service, packages, rounds - 1, |packages|))
  }

  predicate Distinct(requests: seq<Request>) {
    forall i, j :: 0 <= i < j < |requests| ==> requests[i] != requests[j]
  }

  /** The request asks for page `k` of its package's chain. */
  predicate AsksFor<P>(service: Service<P>, packages: seq<P>, request: Request, k: nat) {
    request.index < |packages| && TokenAt(service, packages[request.index], k) == Some(request.token)
  }

  ghost predicate AsksForPage<P>(service: Service<P>, packages: seq<P>, request: Request) {
    exists k: nat :: AsksFor(service, packages, request, k)
  }

  lemma {:induction false} RoundAsks<P>(service: Service<P>, packages: seq<P>, r: nat, bound: nat)
    requires bound <= |packages|
    ensures Distinct(RequestsOf(RoundUpTo(service, packages, r, bound)))
    ensures forall q :: q in RequestsOf(RoundUpTo(service, packages, r, bound))
                        <==> q.index < bound && AsksFor(service, packages, q, r)
  {
    if bound > 0 {
      RoundAsks(service, packages, r, bound - 1);
      var before := RoundUpTo(service, packages, r, bound - 1);
      var token := TokenAt(service, packages[bound - 1], r);
      if token.Some? {
        var query := PendingQuery(bound - 1, packages[bound - 1], token.value);
        assert RequestsOf(before + [query]) == RequestsOf(before) + [Request(bound - 1, token.value)];
        AppendOne(RequestsOf(before), Request(bound - 1, token.value));
      } else {
        assert before + [] == before;
      }
    }
  }

  lemma AppendOne(requests: seq<Request>, request: Request)
    requires Distinct(requests) && request !in requests
    ensures Distinct(requests + [request])
    ensures forall q :: q in requests + [request] <==> q in requests || q == request
  {
  }

  lemma AppendDistinct(one: seq<Request>, other: seq<Request>)
    requires Distinct(one) && Distinct(other) && forall q :: q in one ==> q !in other
    ensures Distinct(one + other)
    ensures forall q :: q in one + other <==> q in one || q in other
  {
    var all := one + other;
    forall i, j | 0 <= i < j < |all|
      ensures all[i] != all[j]
    {
      if i < |one| <= j {
        assert all[i] in one && all[j] == other[j - |one|];
      }
    }
  }

  /** While no chain comes back to a token, the rounds ask for every page they reach, once. */
  lemma {:induction false} RoundsAsk<P>(service: Service<P>, packages: seq<P>, rounds: nat)
    requires forall m :: 0 <= m < |packages| ==> NoRevisit(service, packages[m], rounds)
    ensures Distinct(AllRounds(service, packages, rounds))
    ensures forall q :: q in AllRounds(service, packages, rounds)
                        <==> exists k: nat :: k < rounds && AsksFor(service, packages, q, k)
  {
    if rounds > 0 {
      var earlier := AllRounds(service, packages, rounds - 1);
      var latest := RequestsOf(RoundUpTo(service, packages, rounds - 1, |packages|));
      RoundsAsk(service, packages, rounds - 1);
      RoundAsks(service, packages, rounds - 1, |packages|);
      forall q | q in earlier
        ensures q !in latest
      {
        NotAskedAgain(service, packages, q, rounds - 1);
      }
      AppendDistinct(earlier, latest);
    }
  }

  lemma NotAskedAgain<P>(service: Service<P>, packages: seq<P>, request: Request, r: nat)
    requires exists k: nat :: k < r && AsksFor(service, packages, request, k)
    requires request.index < |packages| && NoRevisit(service, packages[request.index], r)
    ensures !AsksFor(service, packages, request, r)
  {
    var k: nat :| k < r && AsksFor(service, packages, request, k);
    assert !Revisits(service, packages[request.index], k, r);
  }

  /** Requests up to somewhere in the last round. */
  lemma PartOfRounds<P>(service: Service<P>, packages: seq<P>, r: nat, requested: seq<Request>)
    requires forall m :: 0 <= m < |packages| ==> NoRevisit(service, packages[m], r)
    requires requested <= AllRounds(service, packages, r + 1)
    ensures Distinct(requested) && forall q <- requested :: AsksForPage(service, packages, q)
  {
    var all, latest := AllRounds(service, packages, r + 1), RequestsOf(RoundUpTo(service, packages, r, |packages|));
    RoundsAsk(service, packages, r);
    RoundAsks(service, packages, r, |packages|);
    forall q | q in AllRounds(service, packages, r)
      ensures q !in latest
    {
      NotAskedAgain(service, packages, q, r);
    }
    AppendDistinct(AllRounds(service, packages, r), latest);
    forall q | q in requested
      ensures AsksForPage(service, packages, q)
    {
      assert q in all;
    }
  }

  /** When every chain has ended, the rounds have asked for all pages. */
  lemma AllPagesAsked<P>(service: Service<P>, packages: seq<P>, rounds: nat)
    requires forall m :: 0 <= m < |packages| ==>
               NoRevisit(service, packages[m], rounds) && TokenAt(service, packages[m], rounds).None?
    ensures Distinct(AllRounds(service, packages, rounds))
    ensures forall q :: q in AllRounds(service, packages, rounds) <==> AsksForPage(service, packages, q)
  {
    RoundsAsk(service, packages, rounds);
    forall q | AsksForPage(service, packages, q)
      ensures q in AllRounds(service, packages, rounds)
    {
      var k: nat :| AsksFor(service, packages, q, k);
      if k >= rounds {
        ChainDownward(service, packages[q.index], rounds, k);
      }
    }
  }

  /** What a run of the query may end with. */
  ghost predicate Outcome<P(!new)>(service: Service<P>, packages: seq<P>, r: Result<seq<set<string>>, OsvError>,
                                   requested: seq<Request>) {
    && Distinct(requested) && (forall q <- requested :: AsksForPage(service, packages, q))
    && ((r.Failure? && IsReal(service, packages, r.error))
        || (r.Success? && AllAnswered(service, packages, r.value, requested)))
  }

  ghost predicate AllAnswered<P(!new)>(service: Service<P>, packages: seq<P>, identifiers: seq<set<string>>,
                                       requested: seq<Request>) {
    && |identifiers| == |packages|
    && (forall i :: 0 <= i < |packages| ==> IsAnswer(service, packages[i], identifiers[i]))
    && (forall q :: AsksForPage(service, packages, q) ==> q in requested)
  }

  /** At the beginning of a round. */
  ghost predicate BeforeRound<P>(service: Service<P>, packages: seq<P>, rounds: nat, identifiers: seq<set<string>>,
                                 seen: Seen,
                                 pending: seq<PendingQuery<P>>, requested: seq<Request>) {
    && Progress(service, packages, rounds, 0, identifiers, seen)
    && pending == RoundUpTo(service, packages, rounds, |packages|)
    && requested == AllRounds(service, packages, rounds)
  }

  lemma RoundsLeft<P(!new)>(service: Service<P>, packages: seq<P>, tokens: set<string>, rounds: nat,
                            identifiers: seq<set<string>>,
                            seen: Seen, pending: seq<PendingQuery<P>>, requested: seq<Request>)
    requires DrawsFrom(service, tokens)
    requires BeforeRound(service, packages, rounds, identifiers, seen, pending, requested) && pending != []
    ensures rounds <= |tokens|
  {
    RoundBounded(service, packages, tokens, rounds, identifiers, seen);
  }

  lemma FirstRoundStarts<P>(service: Service<P>, packages: seq<P>, identifiers: seq<set<string>>,
                            pending: seq<PendingQuery<P>>)
    requires |identifiers| == |packages| == |pending|
    requires forall i :: 0 <= i < |packages|
              ==> identifiers[i] == {} && pending[i] == PendingQuery(i, packages[i], None)
    ensures BeforeRound(service, packages, 0, identifiers, {}, pending, [])
  {
    FirstRoundIs(service, packages, |packages|);
    NothingRead(service, packages, identifiers);
    assert pending == RoundUpTo(service, packages, 0, |packages|);
  }

  lemma FailureEnds<P(!new)>(service: Service<P>, packages: seq<P>, r: nat, requested: seq<Request>, error: OsvError)
    requires FailsHonestly(service, packages, r, error) && requested <= AllRounds(service, packages, r + 1)
    ensures Outcome(service, packages, Failure(error), requested)
  {
    PartOfRounds(service, packages, r, requested);
  }

  lemma SuccessEnds<P(!new)>(service: Service<P>, packages: seq<P>, rounds: nat, identifiers: seq<set<string>>,
                             seen: Seen,
                             requested: seq<Request>)
    requires BeforeRound(service, packages, rounds, identifiers, seen, [], requested)
    ensures Outcome(service, packages, Success(identifiers), requested)
  {
    forall i | 0 <= i < |packages|
      ensures IsAnswer(service, packages[i], identifiers[i]) && NoRevisit(service, packages[i], rounds)
      ensures TokenAt(service, packages[i], rounds).None?
    {
      assert PackageProgress(service, packages[i], PagesRead(rounds, 0, i), identifiers[i], i, seen);
      NothingLeft(service, packages, rounds, i);
      WholeChain(service, packages[i], rounds);
    }
    AllPagesAsked(service, packages, rounds);
  }

  ghost function SentUpTo<P>(requested: seq<Request>, pending: seq<PendingQuery<P>>, n: nat): seq<Request>
    requires n <= |pending|
  {
    requested + RequestsOf(pending[..n])
  }

  lemma BatchSent<P>(requested: seq<Request>, pending: seq<PendingQuery<P>>, start: nat, end: nat,
                     before: seq<Request>, sent: seq<Request>)
    requires start <= end <= |pending|
    requires before == SentUpTo(requested, pending, start) && sent == before + RequestsOf(pending[start..end])
    ensures sent == SentUpTo(requested, pending, end)
    ensures sent <= requested + RequestsOf(pending)
  {
    assert RequestsOf(pending[..start]) + RequestsOf(pending[start..end]) == RequestsOf(pending[..end]);
    assert RequestsOf(pending) == RequestsOf(pending[..end]) + RequestsOf(pending[end..]);
  }
}
