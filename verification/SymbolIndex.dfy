/** The incremental symbol index: definitions and references by symbol, override families, and the
    rename edits read off them. */
module SymbolIndexing {
  import opened Wrappers
  import opened Order
  import opened Semantic

  datatype SymbolLocation = SymbolLocation(
    document: string, role: string, kind: string, name: string, qualifiedName: string, symbolId: string,
    start: nat, end: nat)

  datatype Relation = Relation(symbolId: string, family: string)

  type Documents = map<string, seq<SymbolLocation>>

  type Index = map<string, seq<SymbolLocation>>

  function Get(index: map<string, seq<SymbolLocation>>, key: string): seq<SymbolLocation> {
    if key in index then index[key] else []
  }

  // ------------------------------------------------------------------ what one result contributes

  /** Symbols with a qualified name, except override relations; a missing identifier is replaced by
      the qualified name. */
  function LocationsOf(document: string, symbols: seq<SemanticSymbol<string>>): seq<SymbolLocation> {
    if symbols == [] then []
    else
      var s := symbols[0];
      (if s.qualifiedName == "" || s.role == "override_family" then []
       else [SymbolLocation(document, s.role, s.kind, s.name, s.qualifiedName,
                            if s.symbolId == "" then s.qualifiedName else s.symbolId, s.start, s.end)])
      + LocationsOf(document, symbols[1..])
  }

  function RelationsOf(symbols: seq<SemanticSymbol<string>>): seq<Relation> {
    if symbols == [] then []
    else
      (if symbols[0].role == "override_family" then [Relation(symbols[0].symbolId, symbols[0].qualifiedName)] else [])
      + RelationsOf(symbols[1..])
  }

  lemma {:induction false} LocationsBelong(document: string, symbols: seq<SemanticSymbol<string>>)
    ensures Belong(document, LocationsOf(document, symbols))
  {
    if symbols != [] {
      LocationsBelong(document, symbols[1..]);
    }
  }

  predicate Belong(document: string, locations: seq<SymbolLocation>) {
    forall l :: l in locations ==> l.document == document
  }

  predicate IsDeclaration(l: SymbolLocation) {
    l.role == "declaration"
  }

  /** The locations of a listing with one identifier, declarations or all others, in order. */
  function Selected(locations: seq<SymbolLocation>, declared: bool, id: string): seq<SymbolLocation> {
    if locations == [] then []
    else
      var last := locations[|locations| - 1];
      Selected(locations[..|locations| - 1], declared, id)
      + if IsDeclaration(last) == declared && last.symbolId == id then [last] else []
  }

  /** The locations of a listing that lie in one document, or in any other, in order. */
  function InDocument(locations: seq<SymbolLocation>, document: string, inside: bool): seq<SymbolLocation> {
    if locations == [] then []
    else
      var last := locations[|locations| - 1];
      InDocument(locations[..|locations| - 1], document, inside)
      + if (last.document == document) == inside then [last] else []
  }

  // ------------------------------------------------------------------ an index and the documents

  /** An index agrees with the documents: for every identifier, what it lists from a document is what
      that document says about the identifier, in that order, and it keeps no empty entries. */
  ghost predicate Indexed(index: Index, documents: Documents, declared: bool) {
    && NoEmpty(index)
    && forall id, d: string :: Listed(index, id, d) == Selected(Get(documents, d), declared, id)
  }

  predicate NoEmpty(index: Index) {
    forall id :: id in index ==> index[id] != []
  }

  function Listed(index: Index, id: string, document: string): seq<SymbolLocation> {
    InDocument(Get(index, id), document, true)
  }

  /** `push` into the entry of an identifier. */
  function Pushed(index: Index, l: SymbolLocation): Index {
    index[l.symbolId := Get(index, l.symbolId) + [l]]
  }

  /** `retain` in the entry of an identifier, dropping the entry when nothing is left. */
  function Dropped(index: Index, id: string, document: string): Index {
    if id !in index then index
    else
      var kept := InDocument(index[id], document, false);
      if kept == [] then map other | other in index && other != id :: index[other] else index[id := kept]
  }

  lemma {:induction false} SplitDocuments(locations: seq<SymbolLocation>, document: string, d: string)
    ensures InDocument(InDocument(locations, document, false), d, true)
            == if d == document then [] else InDocument(locations, d, true)
  {
    if locations != [] {
      var front, last := locations[..|locations| - 1], locations[|locations| - 1];
      SplitDocuments(front, document, d);
      if last.document != document {
        var kept := InDocument(front, document, false);
        assert (kept + [last])[..|kept|] == kept;
      } else {
        assert InDocument(front, document, false) + [] == InDocument(front, document, false);
      }
    }
  }

  lemma DroppedLists(index: Index, id: string, document: string, other: string, d: string)
    ensures Listed(Dropped(index, id, document), other, d)
            == if other == id && d == document then [] else Listed(index, other, d)
  {
    SplitDocuments(Get(index, id), document, d);
  }

  lemma PushedLists(index: Index, l: SymbolLocation, id: string, d: string)
    ensures Listed(Pushed(index, l), id, d)
            == Listed(index, id, d) + if id == l.symbolId && d == l.document then [l] else []
  {
    var entry := Get(index, l.symbolId);
    assert (entry + [l])[..|entry|] == entry;
  }

  /** The retains that removing the locations of a document performs on the index of one role. */
  function Drops(index: Index, locations: seq<SymbolLocation>, declared: bool, document: string): Index {
    if locations == [] then index
    else
      var last := locations[|locations| - 1];
      var before := Drops(index, locations[..|locations| - 1], declared, document);
      if IsDeclaration(last) == declared then Dropped(before, last.symbolId, document) else before
  }

  /** The pushes that adding locations performs on the index of one role. */
  function Pushes(index: Index, locations: seq<SymbolLocation>, declared: bool): Index {
    if locations == [] then index
    else
      var last := locations[|locations| - 1];
      var before := Pushes(index, locations[..|locations| - 1], declared);
      if IsDeclaration(last) == declared then Pushed(before, last) else before
  }

  lemma {:induction false} DropsList(index: Index, locations: seq<SymbolLocation>, declared: bool, document: string,
                                     id: string, d: string)
    ensures Listed(Drops(index, locations, declared, document), id, d)
            == if d == document && Selected(locations, declared, id) != [] then [] else Listed(index, id, d)
  {
    if locations != [] {
      var front, last := locations[..|locations| - 1], locations[|locations| - 1];
      DropsList(index, front, declared, document, id, d);
      DroppedLists(Drops(index, front, declared, document), last.symbolId, document, id, d);
    }
  }

  lemma {:induction false} PushesLeaveNoneEmpty(index: Index, locations: seq<SymbolLocation>, declared: bool)
    requires NoEmpty(index)
    ensures NoEmpty(Pushes(index, locations, declared))
  {
    if locations != [] {
      PushesLeaveNoneEmpty(index, locations[..|locations| - 1], declared);
    }
  }

  lemma {:induction false} DropsLeaveNoneEmpty(index: Index, locations: seq<SymbolLocation>, declared: bool,
                                               document: string)
    requires NoEmpty(index)
    ensures NoEmpty(Drops(index, locations, declared, document))
  {
    if locations != [] {
      DropsLeaveNoneEmpty(index, locations[..|locations| - 1], declared, document);
    }
  }

  lemma {:induction false} PushesList(index: Index, locations: seq<SymbolLocation>, declared: bool, document: string,
                                      id: string, d: string)
    requires Belong(document, locations)
    ensures Listed(Pushes(index, locations, declared), id, d)
            == Listed(index, id, d) + if d == document then Selected(locations, declared, id) else []
  {
    if locations != [] {
      var front, last := locations[..|locations| - 1], locations[|locations| - 1];
      assert last in locations;
      PushesList(index, front, declared, document, id, d);
      PushedLists(Pushes(index, front, declared), last, id, d);
    }
  }

  /** Dropping all locations of a document leaves the index of the other documents. */
  lemma RemovalKeepsIndex(index: Index, documents: Documents, declared: bool, document: string)
    requires Indexed(index, documents, declared)
    ensures Indexed(Drops(index, Get(documents, document), declared, document), documents - {document}, declared)
  {
    var after := Drops(index, Get(documents, document), declared, document);
    DropsLeaveNoneEmpty(index, Get(documents, document), declared, document);
    forall id, d: string
      ensures Listed(after, id, d) == Selected(Get(documents - {document}, d), declared, id)
    {
      DropsList(index, Get(documents, document), declared, document, id, d);
      assert Listed(index, id, d) == Selected(Get(documents, d), declared, id);
    }
  }

  /** Pushing the locations of a new document extends the index by it. */
  lemma AdditionKeepsIndex(index: Index, documents: Documents, declared: bool, document: string,
                           locations: seq<SymbolLocation>)
    requires Indexed(index, documents, declared) && document !in documents && Belong(document, locations)
    ensures Indexed(Pushes(index, locations, declared), documents[document := locations], declared)
  {
    PushesLeaveNoneEmpty(index, locations, declared);
    forall id, d: string
      ensures Listed(Pushes(index, locations, declared), id, d)
              == Selected(Get(documents[document := locations], d), declared, id)
    {
      assert Listed(index, id, d) == Selected(Get(documents, d), declared, id);
      AdditionLists(index, documents, declared, document, locations, id, d);
    }
  }

  lemma AdditionLists(index: Index, documents: Documents, declared: bool, document: string,
                      locations: seq<SymbolLocation>, id: string, d: string)
    requires document !in documents && Belong(document, locations)
    requires Listed(index, id, d) == Selected(Get(documents, d), declared, id)
    ensures Listed(Pushes(index, locations, declared), id, d)
            == Selected(Get(documents[document := locations], d), declared, id)
  {
    PushesList(index, locations, declared, document, id, d);
    GetAfter(documents, document, locations, d);
    if d == document {
      assert Listed(index, id, d) == [];
    }
  }

  lemma GetAfter(documents: Documents, document: string, locations: seq<SymbolLocation>, d: string)
    ensures Get(documents[document := locations], d) == if d == document then locations else Get(documents, d)
  {
  }

  lemma {:induction false} CountInDocument(locations: seq<SymbolLocation>, l: SymbolLocation)
    ensures multiset(InDocument(locations, l.document, true))[l] == multiset(locations)[l]
  {
    if locations != [] {
      CountInDocument(locations[..|locations| - 1], l);
      assert locations == locations[..|locations| - 1] + [locations[|locations| - 1]];
    }
  }

  lemma {:induction false} CountSelected(locations: seq<SymbolLocation>, declared: bool, id: string, l: SymbolLocation)
    ensures multiset(Selected(locations, declared, id))[l]
            == if IsDeclaration(l) == declared && l.symbolId == id then multiset(locations)[l] else 0
  {
    if locations != [] {
      var front, last := locations[..|locations| - 1], locations[|locations| - 1];
      CountSelected(front, declared, id, l);
      assert locations == front + [last];
      CountOneMore(front, last, l);
      CountOneMore(Selected(front, declared, id), last, l);
    }
  }

  lemma CountOneMore(front: seq<SymbolLocation>, last: SymbolLocation, l: SymbolLocation)
    ensures multiset(front + [last])[l] == multiset(front)[l] + if last == l then 1 else 0
    ensures multiset(front + [])[l] == multiset(front)[l]
  {
    assert front + [] == front;
  }

  predicate AllBelong(documents: Documents) {
    forall d :: d in documents ==> Belong(d, documents[d])
  }

  /** As a multiset, the entry of an identifier holds every location of the documents with that
      identifier and role as often as its document does, and nothing else. */
  lemma IndexCounts(index: Index, documents: Documents, declared: bool, id: string, l: SymbolLocation)
    requires Indexed(index, documents, declared)
    ensures multiset(Get(index, id))[l]
            == if IsDeclaration(l) == declared && l.symbolId == id then multiset(Get(documents, l.document))[l] else 0
  {
    CountInDocument(Get(index, id), l);
    CountSelected(Get(documents, l.document), declared, id, l);
    assert Listed(index, id, l.document) == Selected(Get(documents, l.document), declared, id);
  }

  /** An identifier has an entry exactly when some document declares it (or mentions it otherwise). */
  lemma EntryIffMentioned(index: Index, documents: Documents, declared: bool, id: string)
    requires Indexed(index, documents, declared) && AllBelong(documents)
    ensures id in index <==>
              exists d, l :: d in documents && l in documents[d] && IsDeclaration(l) == declared && l.symbolId == id
  {
    if id in index {
      var l := index[id][0];
      assert l in Get(index, id) && multiset(Get(index, id))[l] > 0;
      IndexCounts(index, documents, declared, id, l);
      assert l in multiset(Get(documents, l.document));
    }
    forall d, l | d in documents && l in documents[d] && IsDeclaration(l) == declared && l.symbolId == id
      ensures id in index
    {
      IndexCounts(index, documents, declared, id, l);
      assert l in multiset(Get(documents, l.document));
      assert multiset(Get(index, id))[l] > 0;
    }
  }

  // ------------------------------------------------------------------ override families

  type Families = map<string, string>

  /** Every relation's identifier has a family, and every family comes from a relation. */
  predicate Fits(families: Families, relations: set<Relation>) {
    && (forall id :: id in families ==> Relation(id, families[id]) in relations)
    && forall r :: r in relations ==> r.symbolId in families
  }

  function Relations(byDocument: map<string, seq<Relation>>): set<Relation> {
    set d, r | d in byDocument && r in byDocument[d] :: r
  }

  predicate ConflictFree(relations: set<Relation>) {
    forall r, q :: r in relations && q in relations && r.symbolId == q.symbolId ==> r.family == q.family
  }

  /** Without conflicts the families are exactly the relations. */
  lemma FamiliesAreRelations(families: Families, relations: set<Relation>)
    requires Fits(families, relations)
    ensures ConflictFree(relations) <==> relations == set id | id in families :: Relation(id, families[id])
  {
    if ConflictFree(relations) {
      forall r | r in relations
        ensures r.symbolId in families && r == Relation(r.symbolId, families[r.symbolId])
      {
        assert Relation(r.symbolId, families[r.symbolId]) in relations;
      }
    }
  }

  lemma RelationsAfter(byDocument: map<string, seq<Relation>>, document: string, relationships: seq<Relation>)
    requires document !in byDocument
    ensures Relations(byDocument[document := relationships])
            == Relations(byDocument) + set r | r in relationships
  {
    var after := byDocument[document := relationships];
    forall r | r in Relations(byDocument)
      ensures r in Relations(after)
    {
      var d :| d in byDocument && r in byDocument[d];
      assert d in after && r in after[d];
    }
    assert document in after && after[document] == relationships;
  }

  lemma RelationsNext(byDocument: map<string, seq<Relation>>, remaining: set<string>, d: string)
    requires d in remaining && d in byDocument
    ensures Relations(byDocument - (remaining - {d}))
            == Relations(byDocument - remaining) + set r | r in byDocument[d]
  {
    assert byDocument - (remaining - {d}) == (byDocument - remaining)[d := byDocument[d]];
    RelationsAfter(byDocument - remaining, d, byDocument[d]);
  }

  /** Identifiers in one family, with the family's own name. */
  function RelatedSet(families: Families, family: string): set<string> {
    (set id | id in families && families[id] == family) + {family}
  }

  function FamilyOf(families: Families, id: string): string {
    if id in families then families[id] else id
  }

  /** All identifiers related to one have the same relatives. */
  predicate RelativesAgree(families: Families, id: string) {
    var relatives := RelatedSet(families, FamilyOf(families, id));
    forall other :: other in relatives ==> RelatedSet(families, FamilyOf(families, other)) == relatives
  }

  /** They do exactly when the family's name is filed under no other family, or these two families
      have no members but each other's names. */
  lemma RelativesAgreeExactly(families: Families, id: string)
    ensures var f := FamilyOf(families, id);
            var g := FamilyOf(families, f);
            RelativesAgree(families, id)
            <==> f == g || (RelatedSet(families, f) == {f, g} && RelatedSet(families, g) == {f, g})
  {
    var f := FamilyOf(families, id);
    var g := FamilyOf(families, f);
    if RelativesAgree(families, id) && f != g {
      assert f in RelatedSet(families, f);
      assert RelatedSet(families, g) == RelatedSet(families, f);
      forall other | other in RelatedSet(families, f)
        ensures other in {f, g}
      {
        assert other in RelatedSet(families, g);
      }
      assert g in RelatedSet(families, g);
      assert RelatedSet(families, f) == {f, g};
    }
  }

  /** A family filed under another one: `b` is related to `a`, but not the other way about. */
  lemma NestedFamiliesDisagree()
    ensures var families := map["a" := "b", "b" := "c"];
            && "b" in RelatedSet(families, FamilyOf(families, "a"))
            && "a" !in RelatedSet(families, FamilyOf(families, "b"))
            && !RelativesAgree(families, "a")
  {
    var families := map["a" := "b", "b" := "c"];
    assert "a" in families && families["a"] == "b" && families["b"] == "c";
    assert "a" != "b" && "b" != "c" && "a" != "c";
    assert "a" in RelatedSet(families, "b") && "b" in RelatedSet(families, "b");
  }

  // ------------------------------------------------------------------ rename edits

  datatype RenameEdit = RenameEdit(document: string, start: nat, end: nat, newText: string)

  datatype RenameError = InvalidIdentifier | DefinitionNotFound | AmbiguousDefinition

  datatype Range = Range(document: string, start: nat, end: nat)

  function RangeOf(l: SymbolLocation): Range {
    Range(l.document, l.start, l.end)
  }

  /** By document, then start, then end. */
  predicate RangeLess(a: Range, b: Range) {
    Less(a.document, b.document)
    || (a.document == b.document && (a.start < b.start || (a.start == b.start && a.end < b.end)))
  }

  lemma RangeTrichotomy(a: Range, b: Range)
    ensures !RangeLess(a, a)
    ensures RangeLess(a, b) || a == b || RangeLess(b, a)
    ensures !(RangeLess(a, b) && RangeLess(b, a))
  {
    LessTrichotomy(a.document, b.document);
  }

  lemma RangeTransitive(a: Range, b: Range, c: Range)
    requires RangeLess(a, b) && RangeLess(b, c)
    ensures RangeLess(a, c)
  {
    if Less(a.document, b.document) && Less(b.document, c.document) {
      LessTransitive(a.document, b.document, c.document);
    }
  }

  /** The stable sort by range. */
  function Sorted(locations: seq<SymbolLocation>): seq<SymbolLocation> {
    if locations == [] then [] else Inserted(locations[0], Sorted(locations[1..]))
  }

  function Inserted(l: SymbolLocation, sorted: seq<SymbolLocation>): seq<SymbolLocation> {
    if sorted == [] || !RangeLess(RangeOf(sorted[0]), RangeOf(l)) then [l] + sorted
    else [sorted[0]] + Inserted(l, sorted[1..])
  }

  /** `dedup_by` on equal ranges: the first of each run stays. */
  function Deduped(locations: seq<SymbolLocation>): seq<SymbolLocation>
    decreases |locations|
  {
    if |locations| < 2 then locations
    else if RangeOf(locations[0]) == RangeOf(locations[1]) then Deduped([locations[0]] + locations[2..])
    else [locations[0]] + Deduped(locations[1..])
  }

  predicate Ordered(locations: seq<SymbolLocation>) {
    forall i, j :: 0 <= i < j < |locations| ==> !RangeLess(RangeOf(locations[j]), RangeOf(locations[i]))
  }

  predicate StrictlyOrdered(locations: seq<SymbolLocation>) {
    forall i, j :: 0 <= i < j < |locations| ==> RangeLess(RangeOf(locations[i]), RangeOf(locations[j]))
  }

  lemma {:induction false} InsertedOrdered(l: SymbolLocation, sorted: seq<SymbolLocation>)
    requires Ordered(sorted)
    ensures Ordered(Inserted(l, sorted))
    ensures multiset(Inserted(l, sorted)) == multiset(sorted) + multiset{l}
  {
    if sorted == [] {
    } else if RangeLess(RangeOf(sorted[0]), RangeOf(l)) {
      InsertedOrdered(l, sorted[1..]);
      var rest := Inserted(l, sorted[1..]);
      assert sorted == [sorted[0]] + sorted[1..];
      RangeTrichotomy(RangeOf(sorted[0]), RangeOf(l));
      forall j | 0 <= j < |rest|
        ensures !RangeLess(RangeOf(rest[j]), RangeOf(sorted[0]))
      {
        assert rest[j] in multiset(rest);
        assert rest[j] == l || rest[j] in sorted[1..];
      }
    } else {
      forall j | 0 <= j < |sorted|
        ensures !RangeLess(RangeOf(sorted[j]), RangeOf(l))
      {
        NotLessChain(RangeOf(l), RangeOf(sorted[0]), RangeOf(sorted[j]));
      }
    }
  }

  lemma NotLessChain(a: Range, b: Range, c: Range)
    requires !RangeLess(b, a) && (!RangeLess(c, b) || c == b)
    ensures !RangeLess(c, a)
  {
    RangeTrichotomy(a, b);
    RangeTrichotomy(b, c);
    RangeTrichotomy(a, c);
    if RangeLess(a, b) && RangeLess(b, c) {
      RangeTransitive(a, b, c);
    }
  }

  lemma {:induction false} SortedOrders(locations: seq<SymbolLocation>)
    ensures Ordered(Sorted(locations))
    ensures multiset(Sorted(locations)) == multiset(locations)
  {
    if locations != [] {
      SortedOrders(locations[1..]);
      InsertedOrdered(locations[0], Sorted(locations[1..]));
      assert locations == [locations[0]] + locations[1..];
    }
  }

  function Ranges(locations: seq<SymbolLocation>): set<Range> {
    set l | l in locations :: RangeOf(l)
  }

  lemma {:induction false} DedupedIsStrict(locations: seq<SymbolLocation>)
    requires Ordered(locations)
    ensures StrictlyOrdered(Deduped(locations))
    ensures Ranges(Deduped(locations)) == Ranges(locations)
    ensures locations != [] ==> Deduped(locations) != [] && Deduped(locations)[0] == locations[0]
    decreases |locations|
  {
    if |locations| >= 2 {
      var first, second := RangeOf(locations[0]), RangeOf(locations[1]);
      if first == second {
        DedupedIsStrict([locations[0]] + locations[2..]);
        assert locations == [locations[0], locations[1]] + locations[2..];
        assert Ranges(locations) == {first, second} + Ranges(locations[2..]);
        assert Ranges([locations[0]] + locations[2..]) == {first} + Ranges(locations[2..]);
      } else {
        DedupedIsStrict(locations[1..]);
        RangeTrichotomy(first, second);
        StrictFront(locations[0], Deduped(locations[1..]));
        assert locations == [locations[0]] + locations[1..];
        assert Ranges([locations[0]] + Deduped(locations[1..])) == {first} + Ranges(Deduped(locations[1..]));
      }
    }
  }

  lemma StrictFront(l: SymbolLocation, rest: seq<SymbolLocation>)
    requires StrictlyOrdered(rest)
    requires rest != [] ==> RangeLess(RangeOf(l), RangeOf(rest[0]))
    ensures StrictlyOrdered([l] + rest)
  {
    forall j | 0 <= j < |rest|
      ensures RangeLess(RangeOf(l), RangeOf(rest[j]))
    {
      if j > 0 {
        RangeTransitive(RangeOf(l), RangeOf(rest[0]), RangeOf(rest[j]));
      }
    }
  }

  function Edits(locations: seq<SymbolLocation>, newName: string): seq<RenameEdit> {
    seq(|locations|, i requires 0 <= i < |locations| =>
      RenameEdit(locations[i].document, locations[i].start, locations[i].end, newName))
  }

  function EditRange(e: RenameEdit): Range {
    Range(e.document, e.start, e.end)
  }

  function EditRanges(edits: seq<RenameEdit>): set<Range> {
    set e | e in edits :: EditRange(e)
  }

  predicate StrictlyAscending(edits: seq<RenameEdit>) {
    forall i, j :: 0 <= i < j < |edits| ==> RangeLess(EditRange(edits[i]), EditRange(edits[j]))
  }

  lemma EditsKeepRanges(locations: seq<SymbolLocation>, newName: string)
    requires StrictlyOrdered(locations)
    ensures StrictlyAscending(Edits(locations, newName))
    ensures EditRanges(Edits(locations, newName)) == Ranges(locations)
  {
    var edits := Edits(locations, newName);
    assert forall i :: 0 <= i < |edits| ==> EditRange(edits[i]) == RangeOf(locations[i]);
    forall r | r in Ranges(locations)
      ensures r in EditRanges(edits)
    {
      var i :| 0 <= i < |locations| && RangeOf(locations[i]) == r;
      assert edits[i] in edits;
    }
  }

  /** The ranges at which some document mentions a symbol, in whatever role. */
  function Mentions(documents: Documents, id: string): set<Range> {
    set d, l | d in documents && l in documents[d] && l.symbolId == id :: RangeOf(l)
  }

  lemma RangesAreMentions(definitions: Index, references: Index, documents: Documents, id: string)
    requires AllBelong(documents) && Indexed(definitions, documents, true) && Indexed(references, documents, false)
    ensures Ranges(Get(definitions, id) + Get(references, id)) == Mentions(documents, id)
  {
    var locations := Get(definitions, id) + Get(references, id);
    forall l
      ensures l in locations <==> l in Get(documents, l.document) && l.symbolId == id
    {
      IndexCounts(definitions, documents, true, id, l);
      IndexCounts(references, documents, false, id, l);
      assert l in Get(definitions, id) <==> multiset(Get(definitions, id))[l] > 0;
      assert l in Get(references, id) <==> multiset(Get(references, id))[l] > 0;
      assert l in Get(documents, l.document) <==> multiset(Get(documents, l.document))[l] > 0;
    }
  }

  // ------------------------------------------------------------------ in the results' own terms

  /** The last result of every document that has one. */
  type Results = map<string, seq<SemanticSymbol<string>>>

  /** What the index keeps of each document is what its last result says. */
  ghost predicate Reflects(documents: Documents, relations: map<string, seq<Relation>>, results: Results) {
    forall d :: ReflectsAt(documents, relations, results, d)
  }

  ghost predicate ReflectsAt(documents: Documents, relations: map<string, seq<Relation>>, results: Results, d: string) {
    && (d in documents <==> d in results) && (d in relations <==> d in results)
    && (d in results ==> documents[d] == LocationsOf(d, results[d]) && relations[d] == RelationsOf(results[d]))
  }

  lemma ReflectsUpdate(documents: Documents, relations: map<string, seq<Relation>>, results: Results, document: string,
                       symbols: seq<SemanticSymbol<string>>)
    requires Reflects(documents, relations, results)
    ensures Reflects(documents[document := LocationsOf(document, symbols)],
                     relations[document := RelationsOf(symbols)], results[document := symbols])
  {
    var documents', relations' := documents[document := LocationsOf(document, symbols)],
                                  relations[document := RelationsOf(symbols)];
    var results' := results[document := symbols];
    forall d
      ensures ReflectsAt(documents', relations', results', d)
    {
      assert ReflectsAt(documents, relations, results, d);
    }
  }

  lemma Reinserted<V>(m: map<string, V>, key: string, value: V)
    ensures (m - {key})[key := value] == m[key := value]
  {
  }

  lemma ReflectsRemoval(documents: Documents, relations: map<string, seq<Relation>>, results: Results,
                        document: string)
    requires Reflects(documents, relations, results)
    ensures Reflects(documents - {document}, relations - {document}, results - {document})
  {
    forall d
      ensures ReflectsAt(documents - {document}, relations - {document}, results - {document}, d)
    {
      assert ReflectsAt(documents, relations, results, d);
    }
  }

  /** The symbol is a mention of this identifier: not an override relation, not without a qualified
      name, which stands in for a missing identifier. */
  predicate Names(s: SemanticSymbol<string>, id: string) {
    && s.role != "override_family" && s.qualifiedName != ""
    && (if s.symbolId == "" then s.qualifiedName == id else s.symbolId == id)
  }

  ghost predicate MentionedAt(results: Results, id: string, r: Range) {
    exists d, k :: d in results && 0 <= k < |results[d]| && Names(results[d][k], id)
                   && r == Range(d, results[d][k].start, results[d][k].end)
  }

  /** The symbol at this position of a document's result declares the identifier. */
  predicate DeclaredAt(results: Results, id: string, d: string, k: int) {
    d in results && 0 <= k < |results[d]| && Names(results[d][k], id) && results[d][k].role == "declaration"
  }

  function LocationAt(document: string, s: SemanticSymbol<string>): SymbolLocation {
    SymbolLocation(document, s.role, s.kind, s.name, s.qualifiedName,
                   if s.symbolId == "" then s.qualifiedName else s.symbolId, s.start, s.end)
  }

  lemma {:induction false} LocationsAre(document: string, symbols: seq<SemanticSymbol<string>>, l: SymbolLocation)
    ensures l in LocationsOf(document, symbols)
            <==> exists k :: 0 <= k < |symbols| && Names(symbols[k], l.symbolId)
                             && l == LocationAt(document, symbols[k])
  {
    if symbols != [] {
      LocationsAre(document, symbols[1..], l);
      assert forall k :: 0 < k < |symbols| ==> symbols[k] == symbols[1..][k - 1];
    }
  }

  lemma {:induction false} RelationsAre(symbols: seq<SemanticSymbol<string>>, r: Relation)
    ensures r in RelationsOf(symbols)
            <==> exists k :: 0 <= k < |symbols| && Relates(symbols[k], r.symbolId, r.family)
  {
    if symbols != [] {
      RelationsAre(symbols[1..], r);
      assert forall k :: 0 < k < |symbols| ==> symbols[k] == symbols[1..][k - 1];
    }
  }

  predicate Relates(s: SemanticSymbol<string>, id: string, family: string) {
    s.role == "override_family" && s.symbolId == id && s.qualifiedName == family
  }

  ghost predicate RelatedIn(results: Results, id: string, family: string) {
    exists d, k :: d in results && 0 <= k < |results[d]| && Relates(results[d][k], id, family)
  }

  /** An identifier has a family exactly when the last result of a document relates it to one, and
      then it is one that it is related to. */
  lemma FamiliesAreReported(families: Families, documents: Documents, relations: map<string, seq<Relation>>,
                            results: Results, id: string)
    requires Reflects(documents, relations, results) && Fits(families, Relations(relations))
    ensures id in families <==> exists family :: RelatedIn(results, id, family)
    ensures id in families ==> RelatedIn(results, id, families[id])
  {
    forall family
      ensures Relation(id, family) in Relations(relations) <==> RelatedIn(results, id, family)
    {
      RelationsAreReported(documents, relations, results, id, family);
    }
  }

  lemma RelationsAreReported(documents: Documents, relations: map<string, seq<Relation>>, results: Results, id: string,
                             family: string)
    requires Reflects(documents, relations, results)
    ensures Relation(id, family) in Relations(relations) <==> RelatedIn(results, id, family)
  {
    if Relation(id, family) in Relations(relations) {
      var d :| d in relations && Relation(id, family) in relations[d];
      assert ReflectsAt(documents, relations, results, d);
      RelationsAre(results[d], Relation(id, family));
    }
    if RelatedIn(results, id, family) {
      var d, k :| d in results && 0 <= k < |results[d]| && Relates(results[d][k], id, family);
      assert ReflectsAt(documents, relations, results, d);
      RelationsAre(results[d], Relation(id, family));
    }
  }

  /** The ranges the documents mention are those of the results. */
  lemma MentionsAreReported(documents: Documents, relations: map<string, seq<Relation>>, results: Results, id: string)
    requires Reflects(documents, relations, results)
    ensures forall r :: r in Mentions(documents, id) <==> MentionedAt(results, id, r)
  {
    forall r
      ensures r in Mentions(documents, id) <==> MentionedAt(results, id, r)
    {
      if r in Mentions(documents, id) {
        MentionIsReported(documents, relations, results, id, r);
      }
      if MentionedAt(results, id, r) {
        ReportIsMentioned(documents, relations, results, id, r);
      }
    }
  }

  lemma MentionIsReported(documents: Documents, relations: map<string, seq<Relation>>, results: Results, id: string,
                          r: Range)
    requires Reflects(documents, relations, results) && r in Mentions(documents, id)
    ensures MentionedAt(results, id, r)
  {
    var d, l :| d in documents && l in documents[d] && l.symbolId == id && r == RangeOf(l);
    assert ReflectsAt(documents, relations, results, d);
    LocationsAre(d, results[d], l);
  }

  lemma ReportIsMentioned(documents: Documents, relations: map<string, seq<Relation>>, results: Results, id: string,
                          r: Range)
    requires Reflects(documents, relations, results) && MentionedAt(results, id, r)
    ensures r in Mentions(documents, id)
  {
    var d, k :| d in results && 0 <= k < |results[d]| && Names(results[d][k], id)
                && r == Range(d, results[d][k].start, results[d][k].end);
    assert ReflectsAt(documents, relations, results, d);
    LocationsAre(d, results[d], LocationAt(d, results[d][k]));
  }

  // ------------------------------------------------------------------ how many declarations

  lemma {:induction false} SelectedFront(l: SymbolLocation, locations: seq<SymbolLocation>, id: string)
    ensures Selected([l] + locations, true, id)
            == (if IsDeclaration(l) && l.symbolId == id then [l] else []) + Selected(locations, true, id)
    decreases |locations|
  {
    var longer := [l] + locations;
    if locations == [] {
      assert longer == [l] && longer[..0] == [];
    } else {
      var n := |locations| - 1;
      SelectedFront(l, locations[..n], id);
      assert longer[..|locations|] == [l] + locations[..n];
    }
  }

  /** From this position on, a document's result declares the identifier, or declares it twice. */
  ghost predicate OnceFrom(results: Results, id: string, d: string, from: int) {
    exists k :: from <= k && DeclaredAt(results, id, d, k)
  }

  ghost predicate TwiceFrom(results: Results, id: string, d: string, from: int) {
    exists j, k :: from <= j < k && DeclaredAt(results, id, d, j) && DeclaredAt(results, id, d, k)
  }

  lemma FromNext(results: Results, id: string, d: string, from: int)
    ensures OnceFrom(results, id, d, from)
            <==> DeclaredAt(results, id, d, from) || OnceFrom(results, id, d, from + 1)
    ensures TwiceFrom(results, id, d, from)
            <==> (DeclaredAt(results, id, d, from) && OnceFrom(results, id, d, from + 1))
                 || TwiceFrom(results, id, d, from + 1)
  {
    if TwiceFrom(results, id, d, from) {
      var j, k :| from <= j < k && DeclaredAt(results, id, d, j) && DeclaredAt(results, id, d, k);
      assert j == from || from + 1 <= j;
    }
  }

  /** The declarations of an identifier a document lists, by the positions of its result. */
  lemma {:induction false} DeclarationsCounted(results: Results, d: string, from: nat, id: string)
    requires d in results && from <= |results[d]|
    ensures var n := |Selected(LocationsOf(d, results[d][from..]), true, id)|;
            (n >= 1 <==> OnceFrom(results, id, d, from)) && (n >= 2 <==> TwiceFrom(results, id, d, from))
    decreases |results[d]| - from
  {
    if from < |results[d]| {
      FirstCounted(d, results[d][from], results[d][from + 1..], id);
      assert results[d][from..] == [results[d][from]] + results[d][from + 1..];
      DeclarationsCounted(results, d, from + 1, id);
      FromNext(results, id, d, from);
    }
  }

  lemma FirstCounted(d: string, s: SemanticSymbol<string>, rest: seq<SemanticSymbol<string>>, id: string)
    ensures |Selected(LocationsOf(d, [s] + rest), true, id)|
            == (if Names(s, id) && s.role == "declaration" then 1 else 0) + |Selected(LocationsOf(d, rest), true, id)|
  {
    assert ([s] + rest)[1..] == rest;
    var others := LocationsOf(d, rest);
    if s.qualifiedName == "" || s.role == "override_family" {
      assert [] + others == others;
    } else {
      SelectedFront(LocationAt(d, s), others, id);
    }
  }

  lemma {:induction false} ListedTwice(locations: seq<SymbolLocation>, d: string)
    ensures |InDocument(locations, d, true)| <= |locations|
    ensures (exists i :: 0 <= i < |locations| && locations[i].document == d) ==> |InDocument(locations, d, true)| >= 1
    ensures (exists i, j :: 0 <= i < j < |locations| && locations[i].document == d == locations[j].document) ==>
              |InDocument(locations, d, true)| >= 2
    ensures InDocument(locations, d, true) != [] ==> exists i :: 0 <= i < |locations| && locations[i].document == d
  {
    if locations != [] {
      var front := locations[..|locations| - 1];
      ListedTwice(front, d);
      assert forall i :: 0 <= i < |front| ==> front[i] == locations[i];
    }
  }

  /** Two symbols of the results declare the identifier. */
  ghost predicate DeclaredTwice(results: Results, id: string) {
    exists d, k, d', k' ::
      DeclaredAt(results, id, d, k) && DeclaredAt(results, id, d', k') && (d != d' || k != k')
  }

  ghost predicate DeclaredOnce(results: Results, id: string) {
    exists d, k :: DeclaredAt(results, id, d, k)
  }

  /** How many locations an entry has from a document says how often its result declares the identifier. */
  ghost predicate Tallies(entry: seq<SymbolLocation>, results: Results, id: string, d: string) {
    var n := |InDocument(entry, d, true)|;
    (n >= 1 <==> OnceFrom(results, id, d, 0)) && (n >= 2 <==> TwiceFrom(results, id, d, 0))
  }

  lemma EntryTallies(definitions: Index, documents: Documents, relations: map<string, seq<Relation>>,
                     results: Results, id: string, d: string)
    requires Reflects(documents, relations, results) && Indexed(definitions, documents, true)
    ensures Tallies(Get(definitions, id), results, id, d)
  {
    assert Listed(definitions, id, d) == Selected(Get(documents, d), true, id);
    assert ReflectsAt(documents, relations, results, d);
    if d in results {
      DeclarationsCounted(results, d, 0, id);
      assert results[d][0..] == results[d];
    }
  }

  /** An identifier has an entry exactly when a result declares it, and more than one location exactly
      when it is declared twice. */
  lemma DeclarationsReported(definitions: Index, documents: Documents, relations: map<string, seq<Relation>>,
                             results: Results, id: string)
    requires Reflects(documents, relations, results) && Indexed(definitions, documents, true)
    ensures |Get(definitions, id)| >= 1 <==> DeclaredOnce(results, id)
    ensures |Get(definitions, id)| >= 2 <==> DeclaredTwice(results, id)
  {
    var entry := Get(definitions, id);
    forall d
      ensures Tallies(entry, results, id, d)
    {
      EntryTallies(definitions, documents, relations, results, id, d);
    }
    forall d, k | DeclaredAt(results, id, d, k)
      ensures HasFrom(entry, d)
    {
      assert OnceFrom(results, id, d, 0) && Tallies(entry, results, id, d);
      ListedTwice(entry, d);
    }
    if entry != [] {
      EntryDeclares(entry, results, id, 0);
    }
    if |entry| >= 2 {
      TwoDeclare(entry, results, id);
    }
    if DeclaredTwice(results, id) {
      TwoListed(entry, results, id);
    }
  }

  ghost predicate HasFrom(entry: seq<SymbolLocation>, d: string) {
    exists i :: 0 <= i < |entry| && entry[i].document == d
  }

  lemma EntryDeclares(entry: seq<SymbolLocation>, results: Results, id: string, i: nat)
    requires i < |entry| && Tallies(entry, results, id, entry[i].document)
    ensures exists k :: DeclaredAt(results, id, entry[i].document, k)
  {
    ListedTwice(entry, entry[i].document);
    assert OnceFrom(results, id, entry[i].document, 0);
  }

  lemma TwoDeclare(entry: seq<SymbolLocation>, results: Results, id: string)
    requires |entry| >= 2 && forall d :: Tallies(entry, results, id, d)
    ensures DeclaredTwice(results, id)
  {
    var d, d' := entry[0].document, entry[1].document;
    if d == d' {
      ListedTwice(entry, d);
      assert Tallies(entry, results, id, d);
      var j, k :| 0 <= j < k && DeclaredAt(results, id, d, j) && DeclaredAt(results, id, d, k);
    } else {
      assert Tallies(entry, results, id, d) && Tallies(entry, results, id, d');
      EntryDeclares(entry, results, id, 0);
      EntryDeclares(entry, results, id, 1);
    }
  }

  lemma TwoListed(entry: seq<SymbolLocation>, results: Results, id: string)
    requires DeclaredTwice(results, id) && forall d :: Tallies(entry, results, id, d)
    requires forall d, k :: DeclaredAt(results, id, d, k) ==> HasFrom(entry, d)
    ensures |entry| >= 2
  {
    var d, k, d', k' :|
      DeclaredAt(results, id, d, k) && DeclaredAt(results, id, d', k') && (d != d' || k != k');
    if d == d' {
      assert Tallies(entry, results, id, d);
      assert TwiceFrom(results, id, d, 0) by {
        assert k < k' || k' < k;
      }
      ListedTwice(entry, d);
    } else {
      assert HasFrom(entry, d) && HasFrom(entry, d');
    }
  }

  const KEYWORDS: set<string> := {
    "_", "abstract", "assert", "boolean", "break", "byte", "case", "catch", "char", "class", "const", "continue",
    "default", "do", "double", "else", "enum", "extends", "false", "final", "finally", "float", "for", "goto", "if",
    "implements", "import", "instanceof", "int", "interface", "long", "native", "new", "null", "package", "private",
    "protected", "public", "record", "return", "sealed", "short", "static", "strictfp", "super", "switch",
    "synchronized", "this", "throw", "throws", "transient", "true", "try", "var", "void", "volatile", "while", "yield"
  }

  /** The Unicode classes `is_alphabetic` and `is_alphanumeric` are given from outside. */
  datatype Alphabet = Alphabet(alphabetic: char -> bool, alphanumeric: char -> bool)

  predicate IsJavaIdentifier(value: string, alphabet: Alphabet) {
    && value !in KEYWORDS
    && value != ""
    && (value[0] == '_' || value[0] == '$' || alphabet.alphabetic(value[0]))
    && forall i :: 1 <= i < |value| ==> value[i] == '_' || value[i] == '$' || alphabet.alphanumeric(value[i])
  }

  // ------------------------------------------------------------------ the index

  class SymbolIndex {
    var documents: Documents
    var definitions: Index
    var references: Index
    var overrideFamilies: Families
    var documentOverrideFamilies: map<string, seq<Relation>>
    ghost var results: Results

    ghost predicate Valid()
      reads this
    {
      && AllBelong(documents)
      && Indexed(definitions, documents, true)
      && Indexed(references, documents, false)
      && documentOverrideFamilies.Keys == documents.Keys
      && Fits(overrideFamilies, Relations(documentOverrideFamilies))
      && Reflects(documents, documentOverrideFamilies, results)
    }

    constructor ()
      ensures Valid() && documents == map[] && documentOverrideFamilies == map[] && results == map[]
    {
      documents, definitions, references := map[], map[], map[];
      overrideFamilies, documentOverrideFamilies, results := map[], map[], map[];
    }

    method UpdateDocument(document: string, result: SemanticResult<string>)
      requires Valid()
      modifies this
      ensures Valid()
      ensures documents == old(documents)[document := LocationsOf(document, result.symbols)]
      ensures documentOverrideFamilies == old(documentOverrideFamilies)[document := RelationsOf(result.symbols)]
      ensures results == old(results)[document := result.symbols]
    {
      RemoveDocument(document);
      LocationsBelong(document, result.symbols);
      Reinserted(old(documents), document, LocationsOf(document, result.symbols));
      Reinserted(old(documentOverrideFamilies), document, RelationsOf(result.symbols));
      Reinserted(old(results), document, result.symbols);
      AddDocument(document, LocationsOf(document, result.symbols), RelationsOf(result.symbols), result.symbols);
    }

    /** What an update does once the former state of the document is gone. */
    method AddDocument(document: string, locations: seq<SymbolLocation>, relationships: seq<Relation>,
                       ghost symbols: seq<SemanticSymbol<string>>)
      requires Valid() && document !in documents && Belong(document, locations)
      requires locations == LocationsOf(document, symbols) && relationships == RelationsOf(symbols)
      modifies this
      ensures Valid() && results == old(results)[document := symbols]
      ensures documents == old(documents)[document := locations]
      ensures documentOverrideFamilies == old(documentOverrideFamilies)[document := relationships]
    {
      AdditionKeepsIndex(definitions, documents, true, document, locations);
      AdditionKeepsIndex(references, documents, false, document, locations);
      RelationsAfter(documentOverrideFamilies, document, relationships);
      ReflectsUpdate(documents, documentOverrideFamilies, results, document, symbols);
      PushLocations(locations);
      InsertRelationships(relationships, Relations(documentOverrideFamilies));
      documentOverrideFamilies := documentOverrideFamilies[document := relationships];
      documents, results := documents[document := locations], results[document := symbols];
    }

    method PushLocations(locations: seq<SymbolLocation>)
      modifies this`definitions, this`references
      ensures definitions == Pushes(old(definitions), locations, true)
      ensures references == Pushes(old(references), locations, false)
    {
      var i := 0;
      while i < |locations|
        invariant 0 <= i <= |locations|
        invariant definitions == Pushes(old(definitions), locations[..i], true)
        invariant references == Pushes(old(references), locations[..i], false)
      {
        assert locations[..i + 1][..i] == locations[..i];
        var l := locations[i];
        if l.role == "declaration" {
          definitions := Pushed(definitions, l);
        } else {
          references := Pushed(references, l);
        }
        i := i + 1;
      }
      assert locations[..i] == locations;
    }

    method InsertRelationships(relationships: seq<Relation>, ghost known: set<Relation>)
      requires Fits(overrideFamilies, known)
      modifies this`overrideFamilies
      ensures Fits(overrideFamilies, known + set r | r in relationships)
    {
      var i := 0;
      while i < |relationships|
        invariant 0 <= i <= |relationships|
        invariant Fits(overrideFamilies, known + set r | r in relationships[..i])
      {
        var r := relationships[i];
        overrideFamilies := overrideFamilies[r.symbolId := r.family];
        assert relationships[..i + 1] == relationships[..i] + [r];
        i := i + 1;
      }
      assert relationships[..i] == relationships;
    }

    method RemoveDocument(document: string)
      requires Valid()
      modifies this
      ensures Valid()
      ensures documents == old(documents) - {document}
      ensures documentOverrideFamilies == old(documentOverrideFamilies) - {document}
      ensures results == old(results) - {document}
    {
      assert ReflectsAt(documents, documentOverrideFamilies, results, document);
      ReflectsRemoval(documents, documentOverrideFamilies, results, document);
      documentOverrideFamilies := documentOverrideFamilies - {document};
      if document !in documents {
        assert documents - {document} == documents && results - {document} == results;
        return;
      }
      RemovalKeepsIndex(definitions, documents, true, document);
      RemovalKeepsIndex(references, documents, false, document);
      DropLocations(document, documents[document]);
      documents, results := documents - {document}, results - {document};
      RebuildOverrideFamilies();
    }

    method DropLocations(document: string, locations: seq<SymbolLocation>)
      modifies this`definitions, this`references
      ensures definitions == Drops(old(definitions), locations, true, document)
      ensures references == Drops(old(references), locations, false, document)
    {
      var i := 0;
      while i < |locations|
        invariant 0 <= i <= |locations|
        invariant definitions == Drops(old(definitions), locations[..i], true, document)
        invariant references == Drops(old(references), locations[..i], false, document)
      {
        assert locations[..i + 1][..i] == locations[..i];
        var l := locations[i];
        if l.role == "declaration" {
          definitions := Dropped(definitions, l.symbolId, document);
        } else {
          references := Dropped(references, l.symbolId, document);
        }
        i := i + 1;
      }
      assert locations[..i] == locations;
    }

    /** The documents are visited in any order. */
    method RebuildOverrideFamilies()
      modifies this`overrideFamilies
      ensures Fits(overrideFamilies, Relations(documentOverrideFamilies))
    {
      overrideFamilies := map[];
      ghost var inserted: set<Relation> := {};
      var remaining := documentOverrideFamilies.Keys;
      while remaining != {}
        invariant remaining <= documentOverrideFamilies.Keys
        invariant Fits(overrideFamilies, inserted)
        invariant inserted == Relations(documentOverrideFamilies - remaining)
        decreases |remaining|
      {
        var d :| d in remaining;
        InsertRelationships(documentOverrideFamilies[d], inserted);
        RelationsNext(documentOverrideFamilies, remaining, d);
        inserted := inserted + set r | r in documentOverrideFamilies[d];
        remaining := remaining - {d};
      }
      assert documentOverrideFamilies - remaining == documentOverrideFamilies;
    }

    /** The identifiers in the family of a symbol, sorted. */
    function RelatedSymbolIds(symbolId: string): (related: seq<string>)
      reads this
      ensures StrictlySorted(related)
      ensures forall id :: id in related <==> id in RelatedSet(overrideFamilies, FamilyOf(overrideFamilies, symbolId))
      ensures symbolId in overrideFamilies ==>
                forall id :: id in related <==>
                  id == overrideFamilies[symbolId]
                  || (id in overrideFamilies && overrideFamilies[id] == overrideFamilies[symbolId])
      ensures symbolId !in overrideFamilies ==>
                forall id :: id in related <==>
                  id == symbolId || (id in overrideFamilies && overrideFamilies[id] == symbolId)
    {
      Ascending(RelatedSet(overrideFamilies, FamilyOf(overrideFamilies, symbolId)))
    }

    /** A rename needs a legal name and exactly one declaration. Its edits are in strictly ascending
        order and cover exactly the ranges at which the last result of a document mentions the symbol. */
    method PrepareRename(qualifiedName: string, newName: string, alphabet: Alphabet)
      returns (result: Result<seq<RenameEdit>, RenameError>)
      requires Valid()
      ensures result == Failure(InvalidIdentifier) <==> !IsJavaIdentifier(newName, alphabet)
      ensures result == Failure(DefinitionNotFound)
              <==> IsJavaIdentifier(newName, alphabet) && !DeclaredOnce(results, qualifiedName)
      ensures result == Failure(AmbiguousDefinition)
              <==> IsJavaIdentifier(newName, alphabet) && DeclaredTwice(results, qualifiedName)
      ensures result.Success? ==> StrictlyAscending(result.value)
      ensures result.Success? ==> forall e :: e in result.value ==> e.newText == newName
      ensures result.Success? ==>
                forall r :: r in EditRanges(result.value) <==> MentionedAt(results, qualifiedName, r)
    {
      DeclarationsReported(definitions, documents, documentOverrideFamilies, results, qualifiedName);
      MentionsAreReported(documents, documentOverrideFamilies, results, qualifiedName);
      if !IsJavaIdentifier(newName, alphabet) {
        return Failure(InvalidIdentifier);
      }
      var declarations := Get(definitions, qualifiedName);
      if |declarations| == 0 {
        return Failure(DefinitionNotFound);
      }
      if |declarations| > 1 {
        return Failure(AmbiguousDefinition);
      }
      var locations := declarations + Get(references, qualifiedName);
      RangesAreMentions(definitions, references, documents, qualifiedName);
      SortedOrders(locations);
      assert Ranges(Sorted(locations)) == Ranges(locations) by {
        assert forall l :: l in Sorted(locations) <==> l in multiset(locations);
      }
      DedupedIsStrict(Sorted(locations));
      var kept := Deduped(Sorted(locations));
      EditsKeepRanges(kept, newName);
      return Success(Edits(kept, newName));
    }
  }
}
