/** What merging many property files, or many property-list files, into one entry amounts to, and
    exactly when: each merge but the first reads its own printed text back. */
module RegistryUnions {
  import opened Wrappers
  import opened Text
  import opened Order
  import opened PropertyText
  import opened FatArchives

  // ------------------------------------------------------------------ what the files say

  function PropertiesIn(text: string): seq<Property> {
    if Entries(text).Success? then Entries(text).value else []
  }

  predicate Readable(texts: seq<string>) {
    forall text :: text in texts ==> Entries(text).Success?
  }

  /** No key or value read from the texts ends in an odd run of backslashes. */
  predicate StableTexts(texts: seq<string>) {
    forall text, p :: text in texts && p in PropertiesIn(text) ==> Stable(p)
  }

  function FactsOf(texts: seq<string>): set<Property> {
    set text, p | text in texts && p in PropertiesIn(text) :: p
  }

  function MapOf(facts: set<Property>): map<string, string>
    requires Agreeing(facts)
  {
    map p | p in facts :: p.key := p.value
  }

  /** All texts but the last, which is never read back. */
  function Front(texts: seq<string>): seq<string>
    requires texts != []
  {
    texts[..|texts| - 1]
  }

  lemma OneTextMore(texts: seq<string>, last: string)
    ensures FactsOf(texts + [last]) == FactsOf(texts) + Collected(PropertiesIn(last))
    ensures Readable(texts + [last]) <==> Readable(texts) && Entries(last).Success?
  {
    var more := texts + [last];
    assert forall text :: text in more <==> text in texts || text == last;
  }

  lemma FactsAreShaped(texts: seq<string>)
    ensures forall p :: p in FactsOf(texts) ==> KeyShape(p.key) && ValueShape(p.value)
  {
    forall text, p | text in texts && p in PropertiesIn(text)
      ensures KeyShape(p.key) && ValueShape(p.value)
    {
      ReaderShapes(text);
    }
  }

  lemma MapOfFacts(m: map<string, string>)
    ensures Agreeing(Facts(m)) && MapOf(Facts(m)) == m
  {
    assert forall k :: k in m ==> Property(k, m[k]) in Facts(m);
  }

  lemma FactsOfMap(facts: set<Property>)
    requires Agreeing(facts)
    ensures Facts(MapOf(facts)) == facts
  {
    forall p
      ensures p in Facts(MapOf(facts)) <==> p in facts
    {
      if p.key in MapOf(facts) {
        var q :| q in facts && q.key == p.key;
        assert MapOf(facts)[p.key] == q.value;
        assert p == q <==> p.value == q.value;
      }
    }
  }

  // ------------------------------------------------------------------ plain properties

  /** A merge of readable files that agree is printed from the facts; any other merge fails. */
  predicate IsUnion(merged: Result<Option<string>, FatError>, texts: seq<string>, facts: set<Property>) {
    && (merged.Success? <==> Readable(texts) && Agreeing(facts))
    && (merged.Success? ==> merged.value == Some(Printed(MapOf(facts))))
  }

  function MergedProperties(name: string, texts: seq<string>): Result<Option<string>, FatError> {
    MergedAll(PlainProperties, name, None, texts)
  }

  predicate MergesToUnion(name: string, texts: seq<string>) {
    IsUnion(MergedProperties(name, texts), texts, FactsOf(texts))
  }

  lemma UnionOfOne(name: string, text: string)
    ensures MergesToUnion(name, [text])
  {
    OneTextMore([], text);
    assert [] + [text] == [text] && FactsOf([]) == {};
    MergedAllNext(PlainProperties, name, None, [], text);
    if Entries(text).Success? {
      AddingIsUnion(map[], Entries(text).value);
      assert Facts(map[]) + Collected(PropertiesIn(text)) == FactsOf([text]);
      if ParsedInto(map[], text).Success? {
        MapOfFacts(ParsedInto(map[], text).value);
      }
    }
  }

  /** When the text so far reads back, one file more is added to what it says. */
  lemma UnionGrows(name: string, texts: seq<string>, m: map<string, string>, last: string)
    requires MergedProperties(name, texts) == Success(Some(Printed(m)))
    requires Readable(texts) && Facts(m) == FactsOf(texts) && ParsedInto(map[], Printed(m)) == Success(m)
    ensures MergesToUnion(name, texts + [last])
  {
    OneTextMore(texts, last);
    MergedAllNext(PlainProperties, name, None, texts, last);
    if Entries(last).Success? {
      AddingIsUnion(m, Entries(last).value);
      if ParsedInto(m, last).Success? {
        MapOfFacts(ParsedInto(m, last).value);
      }
    }
  }

  /** When the texts so far cannot be merged, neither can more. */
  lemma UnionStaysFailed(name: string, texts: seq<string>, last: string)
    requires MergesToUnion(name, texts) && MergedProperties(name, texts).Failure?
    ensures MergesToUnion(name, texts + [last])
  {
    OneTextMore(texts, last);
    FailureIsFinal(PlainProperties, name, None, texts, texts + [last]);
  }

  lemma StableFactsReadBack(texts: seq<string>)
    requires StableTexts(texts) && Agreeing(FactsOf(texts))
    ensures ParsedInto(map[], Printed(MapOf(FactsOf(texts)))) == Success(MapOf(FactsOf(texts)))
  {
    var m := MapOf(FactsOf(texts));
    FactsOfMap(FactsOf(texts));
    FactsAreShaped(texts);
    forall k | k in m
      ensures KeyShape(k) && ValueShape(m[k]) && Stable(Property(k, m[k]))
    {
      assert Property(k, m[k]) in Facts(m);
    }
    PropertiesRoundTrip(m);
  }

  /** Merging property files one at a time, with a parse of the printed result in between, is the
      union of what the files say; it fails exactly when a file is unreadable or two statements about
      one key differ. Only the last file may hold keys or values with a dangling backslash. */
  lemma {:induction false} PropertyMergesAreUnion(name: string, texts: seq<string>)
    requires texts != [] && StableTexts(Front(texts))
    ensures MergesToUnion(name, texts)
    decreases |texts|
  {
    var front, last := Front(texts), texts[|texts| - 1];
    assert texts == front + [last];
    if front == [] {
      UnionOfOne(name, last);
    } else {
      PropertyMergesAreUnion(name, front);
      if MergedProperties(name, front).Success? {
        FactsOfMap(FactsOf(front));
        StableFactsReadBack(front);
        UnionGrows(name, front, MapOf(FactsOf(front)), last);
      } else {
        UnionStaysFailed(name, front, last);
      }
    }
  }

  /** A file whose reading gives just this property. */
  lemma Saying(p: Property) returns (text: string)
    requires KeyShape(p.key) && ValueShape(p.value)
    ensures Entries(text) == Success([p])
  {
    text := SourceOf(p);
    EveryShapeArises(p);
  }

  lemma NothingSaid()
    ensures Entries("") == Success([])
  {
  }

  function OtherValue(value: string): (other: string)
    ensures other != value && ValueShape(other)
  {
    if value == "" then "x" else ""
  }

  /** A file that sets this key to another value than the given one. */
  lemma Contradicting(key: string, value: string) returns (text: string)
    requires KeyShape(key)
    ensures Entries(text) == Success([Property(key, OtherValue(value))])
  {
    text := Saying(Property(key, OtherValue(value)));
  }

  lemma MergingOne(text: string, read: map<string, string>, last: string, p: Property)
    requires ParsedInto(map[], text) == Success(read) && Entries(last) == Success([p])
    ensures PropertiesMerged(Some(text), last).Success? <==> (p.key in read ==> read[p.key] == p.value)
  {
    AddingIsUnion(read, [p]);
    AgreeingWithOne(read, p);
  }

  lemma AgreeingWithOne(m: map<string, string>, p: Property)
    ensures Agreeing(Facts(m) + Collected([p])) <==> (p.key in m ==> m[p.key] == p.value)
  {
    assert Collected([p]) == {p};
    if p.key in m {
      assert Property(p.key, m[p.key]) in Facts(m);
    }
  }

  /** Once the printed text does not read back, some next file is merged wrongly: an empty one, or
      one that contradicts a property which was lost or made up. */
  lemma UnstableMapBreaks(m: map<string, string>) returns (last: string)
    requires ShapedMap(m) && !StableMap(m)
    ensures Entries(last).Success?
    ensures PropertiesMerged(Some(Printed(m)), last).Success? <==> !Agreeing(Facts(m) + Collected(Entries(last).value))
  {
    var parsed := ParsedInto(map[], Printed(m));
    if parsed.Failure? {
      last := "";
      NothingSaid();
      MapOfFacts(m);
      assert Facts(m) + Collected([]) == Facts(m);
    } else {
      var key, value := DifferingKey(m, parsed.value);
      var p := Property(key, OtherValue(value));
      last := Contradicting(key, value);
      MergingOne(Printed(m), parsed.value, last, p);
      AgreeingWithOne(m, p);
    }
  }

  /** A key that only one of the maps has, with its value there. */
  lemma DifferingKey(m: map<string, string>, read: map<string, string>) returns (key: string, value: string)
    requires ShapedMap(m) && !StableMap(m) && ParsedInto(map[], Printed(m)) == Success(read)
    ensures KeyShape(key) && (key in m <==> key !in read)
    ensures value == if key in m then m[key] else read[key]
  {
    var ps := Entries(Printed(m)).value;
    UnstableLosesKeys(m);
    AddingKeys(map[], ps);
    key :| key in m.Keys <==> key !in KeysOf(ps);
    value := if key in m then m[key] else read[key];
    ReaderShapes(Printed(m));
    if key !in m {
      var p :| p in ps && p.key == key;
    }
  }

  /** The condition is exact. For readable files that agree, every merge of some first files with any
      one more is the union, if and only if none of the first files holds a key or value that ends in
      an odd run of backslashes. */
  lemma UnionExactlyWhenStable(name: string, texts: seq<string>)
    requires Readable(texts) && Agreeing(FactsOf(texts))
    ensures (forall n, last :: 0 < n <= |texts| ==> MergesToUnion(name, texts[..n] + [last])) <==> StableTexts(texts)
  {
    if StableTexts(texts) {
      forall n, last | 0 < n <= |texts|
        ensures MergesToUnion(name, texts[..n] + [last])
      {
        assert Front(texts[..n] + [last]) == texts[..n];
        PropertyMergesAreUnion(name, texts[..n] + [last]);
      }
    } else {
      var n := FirstUnstable(texts);
      UnstablePrefixBreaks(name, texts[..n]);
    }
  }

  lemma FirstUnstable(texts: seq<string>) returns (n: nat)
    requires !StableTexts(texts)
    ensures 0 < n <= |texts| && !StableTexts(texts[..n]) && StableTexts(Front(texts[..n]))
    decreases |texts|
  {
    if StableTexts(Front(texts)) {
      n := |texts|;
      assert texts[..n] == texts;
    } else {
      n := FirstUnstable(Front(texts));
      assert Front(texts)[..n] == texts[..n];
    }
  }

  lemma UnstablePrefixBreaks(name: string, texts: seq<string>)
    requires texts != [] && !StableTexts(texts) && StableTexts(Front(texts))
    requires Readable(texts) && Agreeing(FactsOf(texts))
    ensures exists last :: !MergesToUnion(name, texts + [last])
  {
    PropertyMergesAreUnion(name, texts);
    var m := MapOf(FactsOf(texts));
    FactsOfMap(FactsOf(texts));
    UnstableMap(texts);
    var last := UnstableMapBreaks(m);
    WrongStep(name, texts, m, last);
  }

  lemma WrongStep(name: string, texts: seq<string>, m: map<string, string>, last: string)
    requires MergedProperties(name, texts) == Success(Some(Printed(m)))
    requires Readable(texts) && Facts(m) == FactsOf(texts) && Entries(last).Success?
    requires PropertiesMerged(Some(Printed(m)), last).Success? <==> !Agreeing(Facts(m) + Collected(Entries(last).value))
    ensures !MergesToUnion(name, texts + [last])
  {
    OneTextMore(texts, last);
    MergedAllNext(PlainProperties, name, None, texts, last);
  }

  lemma UnstableMap(texts: seq<string>)
    requires !StableTexts(texts) && Agreeing(FactsOf(texts))
    ensures ShapedMap(MapOf(FactsOf(texts))) && !StableMap(MapOf(FactsOf(texts)))
  {
    var m := MapOf(FactsOf(texts));
    FactsOfMap(FactsOf(texts));
    FactsAreShaped(texts);
    forall k | k in m
      ensures KeyShape(k) && ValueShape(m[k])
    {
      assert Property(k, m[k]) in Facts(m);
    }
    var text, p :| text in texts && p in PropertiesIn(text) && !Stable(p);
    assert p in Facts(m);
  }

  const DANGLING: string := "a=b\\ "

  /** Order does matter for the others: a file whose value ends in a backslash can be the last of two,
      but not the first. */
  lemma OrderMatters(name: string)
    ensures MergedProperties(name, [DANGLING, ""]).Failure?
    ensures MergedProperties(name, ["", DANGLING]).Success?
  {
    UnreadableAfterPrinting();
    NothingSaid();
    DanglingFirst(name, DANGLING);
    DanglingLast(name, DANGLING);
  }

  lemma DanglingFirst(name: string, text: string)
    requires ParsedInto(map[], text) == Success(map["a" := "b\\"])
    ensures MergedProperties(name, [text, ""]).Failure?
  {
    MergedAllNext(PlainProperties, name, None, [], text);
    assert [] + [text] == [text] && [text] + [""] == [text, ""];
    MergedAllNext(PlainProperties, name, None, [text], "");
    NothingReadable();
  }

  lemma DanglingLast(name: string, text: string)
    requires ParsedInto(map[], text).Success? && Entries("") == Success([])
    ensures MergedProperties(name, ["", text]).Success?
  {
    assert Front(["", text]) == [""];
    PropertyMergesAreUnion(name, ["", text]);
    AddingIsUnion(map[], Entries(text).value);
    assert Facts(map[]) + Collected(PropertiesIn(text)) == Collected(PropertiesIn(text));
    SameAsAlone(text);
  }

  lemma SameAsAlone(text: string)
    requires Entries("") == Success([])
    ensures FactsOf(["", text]) == Collected(PropertiesIn(text))
    ensures Readable(["", text]) <==> Entries(text).Success?
  {
    OneTextMore([""], text);
    assert [""] + [text] == ["", text] && FactsOf([""]) == {};
  }

  lemma NothingReadable()
    ensures ParsedInto(map[], Printed(map["a" := "b\\"])).Failure?
  {
    var m := map["a" := "b\\"];
    var p := Property("a", "b\\");
    OddValue(m);
    PrintedEntries(m);
    assert |Listing(m)| == 1 && p in Listing(m) && Listing(m) == [p];
    assert Rows([p]) == [Row(p)];
    TailAfterEquals(p.key, p.value);
    assert OddTail(Row(p)) && |Row(p)| == 4;
  }

  lemma OddValue(m: map<string, string>)
    requires m == map["a" := "b\\"]
    ensures ShapedMap(m) && OddTail("b\\")
  {
    assert "b\\"[..1] == "b" && !OddTail("b");
    assert "a"[..0] == "";
  }

  // ------------------------------------------------------------------ property lists

  function ItemsUnder(facts: set<Property>, key: string): set<string> {
    set p, item | p in facts && p.key == key && item in Items(p.value) :: item
  }

  function KeysUnder(facts: set<Property>): set<string> {
    set p | p in facts :: p.key
  }

  /** Lists joined, key by key, with all the items that the facts give. */
  function JoinedWith(known: Lists, facts: set<Property>): Lists {
    map k | k in known.Keys + KeysUnder(facts) :: Get(known, k) + ItemsUnder(facts, k)
  }

  lemma AddListsJoins(known: Lists, ps: seq<Property>)
    ensures AddLists(known, ps) == JoinedWith(known, Collected(ps))
  {
    forall k: string
      ensures SameAt(AddLists(known, ps), JoinedWith(known, Collected(ps)), k)
    {
      AddListsJoinsAt(known, ps, k);
    }
    SameEverywhere(AddLists(known, ps), JoinedWith(known, Collected(ps)));
  }

  lemma AddListsJoinsAt(known: Lists, ps: seq<Property>, key: string)
    ensures SameAt(AddLists(known, ps), JoinedWith(known, Collected(ps)), key)
  {
    AddingLists(known, ps, key);
    assert KeysUnder(Collected(ps)) == KeysOf(ps);
    forall item
      ensures item in ItemsFor(ps, key) <==> item in ItemsUnder(Collected(ps), key)
    {
      ItemsForIs(ps, key, item);
    }
    if key !in known && key !in KeysOf(ps) {
      assert ItemsUnder(Collected(ps), key) == {};
    }
  }

  lemma JoinedTwice(known: Lists, f: set<Property>, g: set<Property>)
    ensures JoinedWith(JoinedWith(known, f), g) == JoinedWith(known, f + g)
  {
    forall k: string
      ensures SameAt(JoinedWith(JoinedWith(known, f), g), JoinedWith(known, f + g), k)
    {
      assert KeysUnder(f + g) == KeysUnder(f) + KeysUnder(g);
      assert ItemsUnder(f + g, k) == ItemsUnder(f, k) + ItemsUnder(g, k);
      assert k !in KeysUnder(f) ==> ItemsUnder(f, k) == {};
    }
    SameEverywhere(JoinedWith(JoinedWith(known, f), g), JoinedWith(known, f + g));
  }

  lemma JoinedWithNothing(known: Lists)
    ensures JoinedWith(known, {}) == known
  {
    forall k: string
      ensures SameAt(JoinedWith(known, {}), known, k)
    {
    }
    SameEverywhere(JoinedWith(known, {}), known);
  }

  /** A merge of readable files is printed from the lists; any other merge fails. */
  predicate IsJoin(merged: Result<Option<string>, FatError>, texts: seq<string>, lists: Lists) {
    && (merged.Success? <==> Readable(texts))
    && (merged.Success? ==> merged.value == Some(Printed(Flat(lists))))
  }

  function MergedLists(name: string, texts: seq<string>): Result<Option<string>, FatError> {
    MergedAll(PropertyLists, name, None, texts)
  }

  /** All the items that the texts give, by key. */
  function ListsOf(texts: seq<string>): Lists {
    JoinedWith(map[], FactsOf(texts))
  }

  predicate MergesToJoin(name: string, texts: seq<string>) {
    IsJoin(MergedLists(name, texts), texts, ListsOf(texts))
  }

  /** The joined lists of every beginning of the texts read back: no key and no greatest item of a
      list ends in an odd run of backslashes. */
  predicate StableJoins(texts: seq<string>) {
    forall n :: 0 < n <= |texts| ==> StableLists(ListsOf(texts[..n]))
  }

  lemma ListsGrow(texts: seq<string>, last: string)
    ensures ListsOf(texts + [last]) == JoinedWith(ListsOf(texts), Collected(PropertiesIn(last)))
  {
    OneTextMore(texts, last);
    JoinedTwice(map[], FactsOf(texts), Collected(PropertiesIn(last)));
  }

  lemma ListsAreShaped(texts: seq<string>)
    ensures ShapedLists(ListsOf(texts))
  {
    FactsAreShaped(texts);
    forall p, item | p in FactsOf(texts) && item in Items(p.value)
      ensures ItemShape(item)
    {
      ItemsAreShaped(p.value);
    }
  }

  lemma JoinOfOne(name: string, text: string)
    ensures MergesToJoin(name, [text])
  {
    OneTextMore([], text);
    ListsGrow([], text);
    JoinedWithNothing(map[]);
    assert [] + [text] == [text] && FactsOf([]) == {};
    MergedAllNext(PropertyLists, name, None, [], text);
    if Entries(text).Success? {
      AddListsJoins(map[], Entries(text).value);
    }
  }

  /** When the text so far reads back, one file more is added to its lists. */
  lemma JoinGrows(name: string, texts: seq<string>, last: string)
    requires texts != [] && MergesToJoin(name, texts) && MergedLists(name, texts).Success?
    requires StableLists(ListsOf(texts))
    ensures MergesToJoin(name, texts + [last])
  {
    OneTextMore(texts, last);
    ListsGrow(texts, last);
    MergedAllNext(PropertyLists, name, None, texts, last);
    ListsAreShaped(texts);
    ListsRoundTrip(ListsOf(texts));
    if Entries(last).Success? {
      AddListsJoins(ListsOf(texts), Entries(last).value);
    }
  }

  /** Merging property lists gives, for every key, the union of its items over all files; it fails
      only when a file is unreadable. What matters for reading back is the greatest item of each list
      and the keys, and the last file is free. */
  lemma {:induction false} ListMergesAreUnion(name: string, texts: seq<string>)
    requires texts != [] && StableJoins(Front(texts))
    ensures MergesToJoin(name, texts)
    decreases |texts|
  {
    var front, last := Front(texts), texts[|texts| - 1];
    assert texts == front + [last];
    if front == [] {
      JoinOfOne(name, last);
    } else {
      assert forall n :: 0 < n <= |Front(front)| ==> Front(front)[..n] == front[..n];
      ListMergesAreUnion(name, front);
      if MergedLists(name, front).Success? {
        assert front[..|front|] == front;
        JoinGrows(name, front, last);
      } else {
        OneTextMore(front, last);
        FailureIsFinal(PropertyLists, name, None, front, texts);
      }
    }
  }

  /** A printed text has one line for the header and one for each key. */
  lemma PrintedSize(m: map<string, string>)
    requires ShapedMap(m)
    ensures |Lines(Printed(m))| == |m| + 1
  {
    assert Trimmed(HEADER) && '\n' !in HEADER;
    FirstLine(HEADER, PrintRows(Rows(Listing(m))));
    PrintedLines(Listing(m));
  }

  lemma ReadListsAreShaped(text: string)
    requires Entries(text).Success?
    ensures ShapedLists(AddLists(map[], Entries(text).value))
  {
    OneTextMore([], text);
    assert [] + [text] == [text] && FactsOf([]) == {};
    AddListsJoins(map[], Entries(text).value);
    ListsAreShaped([text]);
  }

  lemma UnstableListsLoseKeys(lists: Lists)
    requires ShapedLists(lists) && !StableLists(lists) && Entries(Printed(Flat(lists))).Success?
    ensures AddLists(map[], Entries(Printed(Flat(lists))).value).Keys != lists.Keys
  {
    var ps := Entries(Printed(Flat(lists))).value;
    FlatShape(lists);
    UnstableLosesKeys(Flat(lists));
    var key :| key in KeysOf(ps) <==> key !in Flat(lists).Keys;
    AddingLists(map[], ps, key);
  }

  /** A map of the same size with other keys misses one of them. */
  lemma MissingKey(lists: Lists, read: Lists) returns (key: string)
    requires |read| == |lists| && read.Keys != lists.Keys
    ensures key in lists && key !in read
  {
    if lists.Keys <= read.Keys {
      SameSize(lists.Keys, read.Keys);
    }
    key :| key in lists.Keys && key !in read.Keys;
  }

  lemma SameSize(a: set<string>, b: set<string>)
    requires a <= b && |a| == |b|
    ensures a == b
  {
    assert |b - a| == |b| - |a|;
  }

  /** Once the printed lists do not read back, some next file is merged wrongly: an empty one, or one
      that adds no item to a key that was lost. */
  lemma UnstableListsBreak(lists: Lists) returns (last: string)
    requires ShapedLists(lists) && !StableLists(lists)
    ensures Entries(last).Success?
    ensures ListsMerged(Some(Printed(Flat(lists))), last)
            != Success(Printed(Flat(JoinedWith(lists, Collected(Entries(last).value)))))
  {
    var text := Printed(Flat(lists));
    if Entries(text).Failure? || Printed(Flat(AddLists(map[], Entries(text).value))) != text {
      last := "";
      NothingSaid();
      assert Collected([]) == {};
      JoinedWithNothing(lists);
    } else {
      var read := AddLists(map[], Entries(text).value);
      ReadListsAreShaped(text);
      if |read| != |lists| {
        PrintedSizesDiffer(read, lists);
      }
      UnstableListsLoseKeys(lists);
      var key := MissingKey(lists, read);
      last := Saying(Property(key, ""));
      EmptyEntryAddsRow(lists, read, key, last);
    }
  }

  lemma SameKeys(lists: Lists)
    ensures |Flat(lists)| == |lists|
  {
    assert Flat(lists).Keys == lists.Keys;
  }

  lemma EmptyEntryAddsRow(lists: Lists, read: Lists, key: string, last: string)
    requires ShapedLists(lists) && ShapedLists(read) && |read| == |lists| && key in lists && key !in read
    requires ListsParsedInto(map[], Printed(Flat(lists))) == Success(read)
    requires Entries(last) == Success([Property(key, "")])
    ensures ListsMerged(Some(Printed(Flat(lists))), last)
            != Success(Printed(Flat(JoinedWith(lists, Collected(Entries(last).value)))))
  {
    MergingOneList(Printed(Flat(lists)), read, last, Property(key, ""));
    AddingEmpty(read, key);
    GrownLists(read, key);
    PrintedSizesDiffer(read[key := {}], lists);
    JoinedWithEmpty(lists, key);
  }

  lemma MergingOneList(text: string, read: Lists, last: string, p: Property)
    requires ListsParsedInto(map[], text) == Success(read) && Entries(last) == Success([p])
    ensures ListsMerged(Some(text), last) == Success(Printed(Flat(AddLists(read, [p]))))
  {
  }

  lemma GrownLists(read: Lists, key: string)
    requires ShapedLists(read) && key !in read && KeyShape(key)
    ensures ShapedLists(read[key := {}]) && |read[key := {}]| == |read| + 1
  {
    assert read[key := {}].Keys == read.Keys + {key};
  }

  lemma AddingEmpty(read: Lists, key: string)
    requires key !in read
    ensures AddLists(read, [Property(key, "")]) == read[key := {}]
  {
    var p := Property(key, "");
    assert Items("") == {};
    assert Get(read, key) + Items(p.value) == {} && [p][1..] == [];
    assert AddLists(read[key := {}], []) == read[key := {}];
  }

  lemma PrintedSizesDiffer(one: Lists, other: Lists)
    requires ShapedLists(one) && ShapedLists(other) && |one| != |other|
    ensures Printed(Flat(one)) != Printed(Flat(other))
  {
    FlatShape(one);
    FlatShape(other);
    SameKeys(one);
    SameKeys(other);
    PrintedSize(Flat(one));
    PrintedSize(Flat(other));
  }

  lemma JoinedWithEmpty(lists: Lists, key: string)
    requires key in lists
    ensures JoinedWith(lists, Collected([Property(key, "")])) == lists
  {
    assert Items("") == {};
    var facts := Collected([Property(key, "")]);
    assert facts == {Property(key, "")};
    forall k: string
      ensures SameAt(JoinedWith(lists, facts), lists, k)
    {
      assert ItemsUnder(facts, k) == {};
    }
    SameEverywhere(JoinedWith(lists, facts), lists);
  }

  /** The condition is exact for lists too: for readable files, every merge of some first files with
      any one more is the join, if and only if the joined lists of every beginning read back. */
  lemma JoinExactlyWhenStable(name: string, texts: seq<string>)
    requires Readable(texts)
    ensures (forall n, last :: 0 < n <= |texts| ==> MergesToJoin(name, texts[..n] + [last])) <==> StableJoins(texts)
  {
    if StableJoins(texts) {
      forall n, last | 0 < n <= |texts|
        ensures MergesToJoin(name, texts[..n] + [last])
      {
        assert Front(texts[..n] + [last]) == texts[..n];
        assert forall k :: 0 < k <= n ==> texts[..n][..k] == texts[..k];
        ListMergesAreUnion(name, texts[..n] + [last]);
      }
    } else {
      var m :| 0 < m <= |texts| && !StableLists(ListsOf(texts[..m]));
      var n := FirstUnstableJoin(texts, m);
      StableBeginnings(texts, n);
      UnstableJoinBreaks(name, texts[..n]);
    }
  }

  lemma FirstUnstableJoin(texts: seq<string>, n: nat) returns (first: nat)
    requires 0 < n <= |texts| && !StableLists(ListsOf(texts[..n]))
    ensures 0 < first <= n && !StableLists(ListsOf(texts[..first]))
    ensures forall k :: 0 < k < first ==> StableLists(ListsOf(texts[..k]))
  {
    if k :| 0 < k < n && !StableLists(ListsOf(texts[..k])) {
      first := FirstUnstableJoin(texts, k);
    } else {
      first := n;
    }
  }

  lemma StableBeginnings(texts: seq<string>, n: nat)
    requires 0 < n <= |texts| && forall k :: 0 < k < n ==> StableLists(ListsOf(texts[..k]))
    ensures StableJoins(Front(texts[..n]))
  {
    assert forall k :: 0 < k < n ==> Front(texts[..n])[..k] == texts[..k];
  }

  lemma UnstableJoinBreaks(name: string, texts: seq<string>)
    requires texts != [] && !StableLists(ListsOf(texts)) && StableJoins(Front(texts)) && Readable(texts)
    ensures exists last :: !MergesToJoin(name, texts + [last])
  {
    ListMergesAreUnion(name, texts);
    ListsAreShaped(texts);
    var last := UnstableListsBreak(ListsOf(texts));
    WrongJoin(name, texts, last);
  }

  lemma WrongJoin(name: string, texts: seq<string>, last: string)
    requires MergedLists(name, texts) == Success(Some(Printed(Flat(ListsOf(texts)))))
    requires Readable(texts) && Entries(last).Success?
    requires ListsMerged(Some(Printed(Flat(ListsOf(texts)))), last)
             != Success(Printed(Flat(JoinedWith(ListsOf(texts), Collected(Entries(last).value)))))
    ensures !MergesToJoin(name, texts + [last])
  {
    OneTextMore(texts, last);
    ListsGrow(texts, last);
    MergedListsNext(name, texts, Printed(Flat(ListsOf(texts))), last);
  }

  lemma MergedListsNext(name: string, texts: seq<string>, text: string, last: string)
    requires MergedLists(name, texts) == Success(Some(text))
    ensures MergedLists(name, texts + [last])
            == match Lifted(ListsMerged(Some(text), last))
               case Success(contents) => Success(Some(contents))
               case Failure(error) => Failure(error)
  {
    MergedAllNext(PropertyLists, name, None, texts, last);
  }

  // ------------------------------------------------------------------ order

  /** Reordering or repeating the files changes neither the verdict nor the text of a registry: of a
      line registry always, of the others when all but the last file of either order are stable. */
  lemma OrderAndRepetitionDoNotMatter(name: string, texts: seq<string>, others: seq<string>)
    requires texts != [] && others != [] && forall text :: text in texts <==> text in others
    ensures MergedAll(LineRegistry, name, None, texts) == MergedAll(LineRegistry, name, None, others)
    ensures StableTexts(Front(texts)) && StableTexts(Front(others)) ==>
              MergedProperties(name, texts).ToOption() == MergedProperties(name, others).ToOption()
    ensures StableJoins(Front(texts)) && StableJoins(Front(others)) ==>
              MergedLists(name, texts).ToOption() == MergedLists(name, others).ToOption()
  {
    LineMergesAreUnion(name, texts);
    LineMergesAreUnion(name, others);
    assert AllLines(texts) == AllLines(others);
    assert FactsOf(texts) == FactsOf(others);
    if StableTexts(Front(texts)) && StableTexts(Front(others)) {
      PropertyMergesAreUnion(name, texts);
      PropertyMergesAreUnion(name, others);
    }
    if StableJoins(Front(texts)) && StableJoins(Front(others)) {
      ListMergesAreUnion(name, texts);
      ListMergesAreUnion(name, others);
    }
  }
}
