/** The incremental graph of which documents reference which declarations, and the worklist
    that finds the documents a change may affect. */
module DocumentDependencies {
  import opened Digraph
  import opened Semantic

  datatype DocumentFacts = DocumentFacts(declarations: set<string>, references: set<string>)

  function Identity(symbol: SemanticSymbol<string>): string {
    if symbol.symbolId == "" then symbol.qualifiedName else symbol.symbolId
  }

  /** The identities of the symbols that play `role`, nameless symbols left out. */
  function Identities(symbols: seq<SemanticSymbol<string>>, role: string): set<string> {
    set symbol | symbol in symbols && symbol.role == role && Identity(symbol) != "" :: Identity(symbol)
  }

  /** The symbol plays this role under this identity: its identifier, or its qualified name when it has none. */
  predicate Plays(symbol: SemanticSymbol<string>, role: string, identity: string) {
    && symbol.role == role && identity != ""
    && (symbol.symbolId == identity || (symbol.symbolId == "" && symbol.qualifiedName == identity))
  }

  lemma IdentitiesAre(symbols: seq<SemanticSymbol<string>>, role: string)
    ensures forall identity :: identity in Identities(symbols, role)
                               <==> exists k :: 0 <= k < |symbols| && Plays(symbols[k], role, identity)
  {
    forall k | 0 <= k < |symbols|
      ensures forall identity :: Plays(symbols[k], role, identity) ==> identity in Identities(symbols, role)
    {
      assert symbols[k] in symbols;
    }
  }

  method FactsOf(result: SemanticResult<string>) returns (facts: DocumentFacts)
    ensures facts.declarations == Identities(result.symbols, "declaration")
    ensures facts.references == Identities(result.symbols, "reference")
  {
    facts := DocumentFacts({}, {});
    var symbols := result.symbols;
    for k := 0 to |symbols|
      invariant facts.declarations == Identities(symbols[..k], "declaration")
      invariant facts.references == Identities(symbols[..k], "reference")
    {
      var symbol := symbols[k];
      assert symbols[..k + 1] == symbols[..k] + [symbol];
      var identity := Identity(symbol);
      if identity != "" {
        if symbol.role == "declaration" {
          facts := facts.(declarations := facts.declarations + {identity});
        } else if symbol.role == "reference" {
          facts := facts.(references := facts.references + {identity});
        }
      }
    }
    assert symbols[..|symbols|] == symbols;
  }

  type Documents = map<string, DocumentFacts>

  /** The documents that reference `declaration`. */
  function Referencing(documents: Documents, declaration: string): set<string> {
    set d | d in documents && declaration in documents[d].references
  }

  /** The dependents expected midway: declarations in `pending` still follow `before`. */
  function Staged(before: Documents, after: Documents, pending: set<string>, declaration: string): set<string> {
    Referencing(if declaration in pending then before else after, declaration)
  }

  /** `referencedBy` has `dependents` at `declaration`, and no entry when there are none. */
  predicate Holds(referencedBy: map<string, set<string>>, declaration: string, dependents: set<string>) {
    && (declaration in referencedBy <==> dependents != {})
    && (declaration in referencedBy ==> referencedBy[declaration] == dependents)
  }

  /** `referencedBy` is exactly the inverse of the documents' reference sets. */
  ghost predicate InverseOf(documents: Documents, referencedBy: map<string, set<string>>) {
    forall r :: Holds(referencedBy, r, Referencing(documents, r))
  }

  /** The inverse is determined by the documents: two indexes over the same documents are equal. */
  lemma InverseUnique(documents: Documents, one: map<string, set<string>>, other: map<string, set<string>>)
    requires InverseOf(documents, one) && InverseOf(documents, other)
    ensures one == other
  {
    forall r
      ensures r in one <==> r in other
      ensures r in one ==> one[r] == other[r]
    {
      assert Holds(one, r, Referencing(documents, r)) && Holds(other, r, Referencing(documents, r));
    }
  }

  /** Whether `declaration` counts as changed once the documents of `affected` are affected. */
  ghost predicate Suspect(documents: Documents, changed: string, declarations: set<string>, affected: set<string>,
                          declaration: string) {
    || declaration in declarations
    || exists a :: a in affected && a != changed && a in documents && declaration in documents[a].declarations
  }

  ghost predicate AffectedClosed(documents: Documents, changed: string, declarations: set<string>,
                                 affected: set<string>) {
    && changed in affected
    && forall d, r ::
         d in Referencing(documents, r) && Suspect(documents, changed, declarations, affected, r) ==> d in affected
  }

  /** The least set that contains the changed document and every document that references a
      changed declaration, or a declaration of an affected document other than the changed one. */
  ghost predicate LeastAffected(documents: Documents, changed: string, declarations: set<string>,
                                affected: set<string>) {
    && AffectedClosed(documents, changed, declarations, affected)
    && forall others :: AffectedClosed(documents, changed, declarations, others) ==> affected <= others
  }

  /** The declarations an update adds or removes; all of them for a document that is new. */
  function ChangedDeclarations(documents: Documents, document: string, facts: DocumentFacts): set<string> {
    if document in documents
    then (facts.declarations - documents[document].declarations)
         + (documents[document].declarations - facts.declarations)
    else facts.declarations
  }

  /** What counts as changed is declared before or after the update, and not both. */
  lemma ChangedAre(documents: Documents, document: string, facts: DocumentFacts, declaration: string)
    ensures declaration in ChangedDeclarations(documents, document, facts)
            <==> (declaration in facts.declarations)
                 != (document in documents && declaration in documents[document].declarations)
  {
  }

  /** Whoever references such a declaration is affected. */
  lemma ChangedReach(documents: Documents, document: string, facts: DocumentFacts, affected: set<string>)
    requires LeastAffected(documents, document, ChangedDeclarations(documents, document, facts), affected)
    ensures forall d, r :: d in documents && r in documents[d].references
                           && ((r in facts.declarations)
                               != (document in documents && r in documents[document].declarations))
              ==> d in affected
  {
    forall d, r | d in documents && r in documents[d].references
                  && ((r in facts.declarations) != (document in documents && r in documents[document].declarations))
      ensures d in affected
    {
      ChangedAre(documents, document, facts, r);
      assert d in Referencing(documents, r);
      assert Suspect(documents, document, ChangedDeclarations(documents, document, facts), affected, r);
    }
  }

  function Declared(documents: Documents): set<string> {
    set d, t | d in documents && t in documents[d].declarations :: t
  }

  /** Document `a` influences `d` when `d` references something `a` declares. The changed
      document passes nothing on beyond its changed declarations. */
  function Influence(documents: Documents, changed: string): Graph<string> {
    map a | a in documents && a != changed ::
      set d | d in documents && documents[a].declarations * documents[d].references != {}
  }

  ghost predicate ReferencesAny(documents: Documents, declarations: set<string>, d: string) {
    exists r :: r in declarations && d in Referencing(documents, r)
  }

  /** Reachability account of a change: a direct dependent, or one that a direct dependent influences. */
  ghost predicate Influenced(documents: Documents, changed: string, declarations: set<string>, d: string) {
    || d == changed
    || ReferencesAny(documents, declarations, d)
    || exists e :: ReferencesAny(documents, declarations, e) && Reaches(Influence(documents, changed), e, d)
  }

  /** The least affected set is exactly what the change influences along chains of references. */
  lemma AffectedIsInfluenced(documents: Documents, changed: string, declarations: set<string>, affected: set<string>)
    requires LeastAffected(documents, changed, declarations, affected)
    ensures forall d :: d in affected <==> Influenced(documents, changed, declarations, d)
  {
    var influenced := set d | d in documents.Keys + {changed} && Influenced(documents, changed, declarations, d);
    forall d, r | d in Referencing(documents, r) && Suspect(documents, changed, declarations, influenced, r)
      ensures d in influenced
    {
      InfluencePropagates(documents, changed, declarations, influenced, d, r);
    }
    assert affected <= influenced;
    forall d | Influenced(documents, changed, declarations, d)
      ensures d in affected
    {
      InfluencedIsAffected(documents, changed, declarations, affected, d);
    }
  }

  lemma InfluencePropagates(documents: Documents, changed: string, declarations: set<string>, influenced: set<string>,
                            d: string, r: string)
    requires forall e <- influenced :: Influenced(documents, changed, declarations, e)
    requires d in Referencing(documents, r) && Suspect(documents, changed, declarations, influenced, r)
    ensures Influenced(documents, changed, declarations, d)
  {
    if r in declarations {
      assert ReferencesAny(documents, declarations, d);
    } else {
      var g := Influence(documents, changed);
      var a :| a in influenced && a != changed && a in documents && r in documents[a].declarations;
      assert r in documents[a].declarations * documents[d].references;
      assert Edge(g, a, d);
      if ReferencesAny(documents, declarations, a) {
        ReachesEdge(g, a, d);
      } else {
        var e :| ReferencesAny(documents, declarations, e) && Reaches(g, e, a);
        ReachesThenEdge(g, e, a, d);
      }
    }
  }

  lemma InfluencedIsAffected(documents: Documents, changed: string, declarations: set<string>, affected: set<string>,
                             d: string)
    requires AffectedClosed(documents, changed, declarations, affected)
    requires Influenced(documents, changed, declarations, d)
    ensures d in affected
  {
    var g := Influence(documents, changed);
    forall e | ReferencesAny(documents, declarations, e)
      ensures e in affected
    {
      var r :| r in declarations && e in Referencing(documents, r);
      assert Suspect(documents, changed, declarations, affected, r);
    }
    forall a, b | a in affected && Edge(g, a, b)
      ensures b in affected
    {
      var r :| r in documents[a].declarations * documents[b].references;
      assert b in Referencing(documents, r) && Suspect(documents, changed, declarations, affected, r);
    }
    if d != changed && !ReferencesAny(documents, declarations, d) {
      var e :| ReferencesAny(documents, declarations, e) && Reaches(g, e, d);
      ClosedContainsReached(g, e, affected);
    }
  }

  /** The elements of a hash set, in whatever order it iterates. */
  method Elements(s: set<string>) returns (listing: seq<string>)
    ensures forall x :: x in listing <==> x in s
  {
    listing := [];
    var rest := s;
    while rest != {}
      invariant rest <= s && forall x :: x in listing <==> x in s - rest
    {
      var x :| x in rest;
      listing := listing + [x];
      rest := rest - {x};
    }
  }

  class DependencyGraph {
    var documents: Documents
    var referencedBy: map<string, set<string>>

    ghost predicate Valid()
      reads this
    {
      InverseOf(documents, referencedBy)
    }

    constructor ()
      ensures Valid() && documents == map[]
    {
      documents, referencedBy := map[], map[];
    }

    method UpdateDocument(document: string, result: SemanticResult<string>) returns (affected: set<string>)
      requires Valid()
      modifies this
      ensures Valid()
      ensures var facts := DocumentFacts(Identities(result.symbols, "declaration"),
                                         Identities(result.symbols, "reference"));
              && documents == old(documents)[document := facts]
              && LeastAffected(old(documents), document, ChangedDeclarations(old(documents), document, facts), affected)
      ensures forall identity :: identity in documents[document].references
                                 <==> exists k :: 0 <= k < |result.symbols|
                                                  && Plays(result.symbols[k], "reference", identity)
      ensures forall identity :: identity in documents[document].declarations
                                 <==> exists k :: 0 <= k < |result.symbols|
                                                  && Plays(result.symbols[k], "declaration", identity)
      ensures forall d, r :: d in old(documents) && r in old(documents)[d].references
                             && ((r in documents[document].declarations)
                                 != (document in old(documents) && r in old(documents)[document].declarations))
                ==> d in affected
    {
      IdentitiesAre(result.symbols, "declaration");
      IdentitiesAre(result.symbols, "reference");
      var facts := FactsOf(result);
      affected := AffectedDocuments(document, ChangedDeclarations(documents, document, facts));
      ChangedReach(documents, document, facts, affected);
      RemoveEdges(document);
      AddEdges(document, facts);
      documents := documents[document := facts];
    }

    method RemoveDocument(document: string) returns (affected: set<string>)
      requires Valid()
      modifies this
      ensures Valid() && documents == old(documents) - {document}
      ensures LeastAffected(old(documents), document,
                            if document in old(documents) then old(documents)[document].declarations else {}, affected)
    {
      var declarations := if document in documents then documents[document].declarations else {};
      affected := AffectedDocuments(document, declarations);
      RemoveEdges(document);
      documents := documents - {document};
    }

    /** Drops `document` from the dependents of everything it references, and empty entries with it. */
    method RemoveEdges(document: string)
      requires Valid()
      modifies this`referencedBy
      ensures InverseOf(documents - {document}, referencedBy)
    {
      var without := documents - {document};
      if document !in documents {
        assert without == documents;
        return;
      }
      var pending := documents[document].references;
      forall r | r !in pending
        ensures Referencing(without, r) == Referencing(documents, r)
      {
      }
      while pending != {}
        invariant pending <= documents[document].references
        invariant forall r :: Holds(referencedBy, r, Staged(documents, without, pending, r))
      {
        var reference :| reference in pending;
        assert document in Referencing(documents, reference);
        ghost var was, todo := referencedBy, pending;
        assert Holds(was, reference, Staged(documents, without, todo, reference));
        assert Referencing(without, reference) == Referencing(documents, reference) - {document};
        var dependents := referencedBy[reference] - {document};
        referencedBy := if dependents == {} then referencedBy - {reference} else referencedBy[reference := dependents];
        pending := pending - {reference};
        forall r
          ensures Holds(referencedBy, r, Staged(documents, without, pending, r))
        {
          assert Holds(was, r, Staged(documents, without, todo, r));
        }
      }
      assert forall r :: Staged(documents, without, pending, r) == Referencing(without, r);
    }

    /** Adds `document` to the dependents of everything `facts` references. */
    method AddEdges(document: string, facts: DocumentFacts)
      requires InverseOf(documents - {document}, referencedBy)
      modifies this`referencedBy
      ensures InverseOf(documents[document := facts], referencedBy)
    {
      ghost var without, with := documents - {document}, documents[document := facts];
      var pending := facts.references;
      forall r
        ensures Referencing(with, r) == Referencing(without, r) + (if r in facts.references then {document} else {})
      {
      }
      while pending != {}
        invariant pending <= facts.references
        invariant forall r :: Holds(referencedBy, r, Staged(without, with, pending, r))
      {
        var reference :| reference in pending;
        ghost var was, todo := referencedBy, pending;
        assert Holds(was, reference, Staged(without, with, todo, reference));
        var dependents := if reference in referencedBy then referencedBy[reference] else {};
        referencedBy := referencedBy[reference := dependents + {document}];
        pending := pending - {reference};
        forall r
          ensures Holds(referencedBy, r, Staged(without, with, pending, r))
        {
          assert Holds(was, r, Staged(without, with, todo, r));
        }
      }
      assert forall r :: Staged(without, with, pending, r) == Referencing(with, r);
    }

    /** The invalidation worklist computes the least affected set. */
    method AffectedDocuments(changed: string, declarations: set<string>) returns (affected: set<string>)
      requires Valid()
      ensures LeastAffected(documents, changed, declarations, affected)
    {
      affected := {changed};
      var queue := Elements(declarations);
      var visited: set<string> := {};
      while queue != []
        invariant changed in affected
        invariant forall v, d :: v in visited && d in Referencing(documents, v) ==> d in affected
        invariant forall t :: Suspect(documents, changed, declarations, affected, t) ==> t in visited || t in queue
        invariant visited <= declarations + Declared(documents)
        invariant forall t <- queue :: t in declarations + Declared(documents)
        invariant forall others :: AffectedClosed(documents, changed, declarations, others) ==>
                                     affected <= others
                                       && forall t <- queue :: Suspect(documents, changed, declarations, others, t)
        decreases declarations + Declared(documents) - visited, |queue|
      {
        var declaration := queue[0];
        assert declaration in queue && queue == [declaration] + queue[1..];
        queue := queue[1..];
        if declaration !in visited {
          visited := visited + {declaration};
          assert Holds(referencedBy, declaration, Referencing(documents, declaration));
          if declaration in referencedBy {
            affected, queue := Enlarge(changed, declarations, declaration, affected, queue);
          }
        }
      }
    }

    /** One declaration's dependents become affected, and what they declare is queued. */
    method Enlarge(changed: string, ghost declarations: set<string>, declaration: string, affected: set<string>,
                   queue: seq<string>)
      returns (larger: set<string>, longer: seq<string>)
      requires Valid() && declaration in referencedBy && changed in affected
      requires forall t <- queue :: t in declarations + Declared(documents)
      requires forall others :: AffectedClosed(documents, changed, declarations, others) ==>
                                  && affected <= others
                                     && Suspect(documents, changed, declarations, others, declaration)
                                  && forall t <- queue :: Suspect(documents, changed, declarations, others, t)
      ensures affected <= larger && Referencing(documents, declaration) <= larger
      ensures forall t <- queue :: t in longer
      ensures forall a, t :: a in larger - affected && a in documents && t in documents[a].declarations ==> t in longer
      ensures forall t <- longer :: t in declarations + Declared(documents)
      ensures forall others :: AffectedClosed(documents, changed, declarations, others) ==>
                                 larger <= others
                                   && forall t <- longer :: Suspect(documents, changed, declarations, others, t)
    {
      larger, longer := affected, queue;
      assert Holds(referencedBy, declaration, Referencing(documents, declaration));
      var pending := referencedBy[declaration];
      while pending != {}
        invariant pending <= Referencing(documents, declaration)
        invariant affected <= larger && Referencing(documents, declaration) - pending <= larger
        invariant forall t <- queue :: t in longer
        invariant forall a, t :: a in larger - affected && a in documents && t in documents[a].declarations
                    ==> t in longer
        invariant forall t <- longer :: t in declarations + Declared(documents)
        invariant forall others :: AffectedClosed(documents, changed, declarations, others) ==>
                                     larger <= others
                                       && forall t <- longer :: Suspect(documents, changed, declarations, others, t)
      {
        var dependent :| dependent in pending;
        if dependent !in larger {
          larger := larger + {dependent};
          if dependent in documents {
            var declared := Elements(documents[dependent].declarations);
            longer := longer + declared;
          }
        }
        pending := pending - {dependent};
      }
    }
  }
}
