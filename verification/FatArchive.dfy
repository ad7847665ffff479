/** Fat JARs: merging entries of many sources under one name (`merge_fat_entry` and the four
    strategies behind it). Registries are parsed back from their own printed form at each merge. */
module FatArchives {
  import opened Wrappers
  import opened Text
  import opened Order
  import opened PropertyText

  datatype Strategy = KeepFirst | LineRegistry | PlainProperties | PropertyLists

  datatype FatEntry = FatEntry(contents: string, source: string)

  datatype FatError = ConflictingClass | Registry(error: PropertyError)

  datatype Warning = Ignored(name: string, kept: string, ignored: string)

  datatype Input = Input(name: string, contents: string, source: string)

  predicate EndsWith(s: string, suffix: string) {
    |suffix| <= |s| && s[|s| - |suffix|..] == suffix
  }

  function StrategyOf(name: string): Strategy {
    if "META-INF/services/" <= name
       || ("META-INF/spring/" <= name && (EndsWith(name, ".imports") || EndsWith(name, ".includes")))
    then LineRegistry
    else if name in {"META-INF/spring.factories", "META-INF/spring/aot.factories", "META-INF/spring.components"}
    then PropertyLists
    else if name in {"META-INF/io.netty.versions.properties", "META-INF/spring.handlers", "META-INF/spring.schemas",
                     "META-INF/spring.tooling", "META-INF/spring-autoconfigure-metadata.properties"}
    then PlainProperties
    else KeepFirst
  }

  function Lowercase(s: string): string {
    seq(|s|, i requires 0 <= i < |s| => if 'A' <= s[i] <= 'Z' then s[i] - 'A' + 'a' else s[i])
  }

  function FileName(path: string): string {
    if path == [] || path[|path| - 1] == '/' then "" else FileName(path[..|path| - 1]) + [path[|path| - 1]]
  }

  /** The extension is `class`, in any case; a file called just `.class` has none. */
  predicate IsClassFile(name: string) {
    var file := FileName(name);
    |file| > |".class"| && EndsWith(Lowercase(file), ".class")
  }

  /** The name starts and ends like this, with something between. */
  predicate Framed(name: string, prefix: string, middle: string, suffix: string) {
    name == prefix + middle + suffix
  }

  ghost predicate LiesBetween(name: string, prefix: string, suffix: string) {
    exists middle :: Framed(name, prefix, middle, suffix)
  }

  lemma FramedBy(name: string, prefix: string, suffix: string)
    requires forall k :: 0 <= k < |prefix| ==> prefix[k] != '.'
    requires suffix != [] ==> suffix[0] == '.'
    ensures prefix <= name && EndsWith(name, suffix) <==> LiesBetween(name, prefix, suffix)
  {
    if prefix <= name && EndsWith(name, suffix) {
      var cut := |name| - |suffix|;
      assert forall k :: 0 <= k < |prefix| ==> name[k] == prefix[k];
      assert suffix != [] ==> name[cut] == name[cut..][0] == '.';
      assert Framed(name, prefix, name[|prefix|..cut], suffix);
    }
    if LiesBetween(name, prefix, suffix) {
      var middle :| Framed(name, prefix, middle, suffix);
      assert name[|name| - |suffix|..] == suffix && name[..|prefix|] == prefix;
    }
  }

  /** Which names are merged as what: service registries and Spring's imports and includes line by line,
      three Spring registries as lists, five property files as properties, and no others. */
  lemma StrategyNames(name: string)
    ensures StrategyOf(name).LineRegistry? <==>
              || LiesBetween(name, "META-INF/services/", "")
              || LiesBetween(name, "META-INF/spring/", ".imports")
              || LiesBetween(name, "META-INF/spring/", ".includes")
    ensures StrategyOf(name).PropertyLists? <==>
              || name == "META-INF/spring.factories" || name == "META-INF/spring/aot.factories"
              || name == "META-INF/spring.components"
    ensures StrategyOf(name).PlainProperties? <==>
              || name == "META-INF/io.netty.versions.properties" || name == "META-INF/spring.handlers"
              || name == "META-INF/spring.schemas" || name == "META-INF/spring.tooling"
              || name == "META-INF/spring-autoconfigure-metadata.properties"
  {
    LineNames(name);
    ListNames();
    PropertyNames();
    ToolingName();
    MetadataName();
  }

  lemma LineNames(name: string)
    ensures StrategyOf(name).LineRegistry? <==>
              || LiesBetween(name, "META-INF/services/", "")
              || LiesBetween(name, "META-INF/spring/", ".imports")
              || LiesBetween(name, "META-INF/spring/", ".includes")
  {
    FramedBy(name, "META-INF/services/", "");
    FramedBy(name, "META-INF/spring/", ".imports");
    FramedBy(name, "META-INF/spring/", ".includes");
    assert EndsWith(name, "");
  }

  /** The name is not of the kind that is merged line by line. */
  predicate NoLines(name: string) {
    !("META-INF/services/" <= name) && !EndsWith(name, ".imports") && !EndsWith(name, ".includes")
  }

  lemma ListNames()
    ensures NoLines("META-INF/spring.factories") && NoLines("META-INF/spring/aot.factories")
    ensures NoLines("META-INF/spring.components")
  {
    NotLineRegistry("META-INF/spring.factories");
    NotLineRegistry("META-INF/spring/aot.factories");
    NotLineRegistry("META-INF/spring.components");
  }

  lemma PropertyNames()
    ensures NoLines("META-INF/io.netty.versions.properties") && NoLines("META-INF/spring.handlers")
    ensures NoLines("META-INF/spring.schemas")
  {
    NotLineRegistry("META-INF/io.netty.versions.properties");
    NotLineRegistry("META-INF/spring.handlers");
    NotLineRegistry("META-INF/spring.schemas");
  }

  lemma ToolingName()
    ensures NoLines("META-INF/spring.tooling")
  {
    NotLineRegistry("META-INF/spring.tooling");
  }

  lemma MetadataName()
    ensures NoLines("META-INF/spring-autoconfigure-metadata.properties")
  {
    NotLineRegistry("META-INF/spring-autoconfigure-metadata.properties");
  }

  /** A name that begins otherwise than service registries, and ends otherwise than imports and includes. */
  lemma NotLineRegistry(name: string)
    requires |name| > 10 && (name[9] != 's' || name[10] != 'e')
    requires name[|name| - 3] != 'r' && name[|name| - 3] != 'd'
    ensures NoLines(name)
  {
    assert "META-INF/services/"[9] == 's' && "META-INF/services/"[10] == 'e';
    EndOf(name, ".imports");
    EndOf(name, ".includes");
    assert ".imports"[5] == 'r' && ".includes"[6] == 'd';
  }

  lemma EndOf(name: string, suffix: string)
    requires |suffix| >= 3 && |name| >= 3
    ensures EndsWith(name, suffix) ==> name[|name| - 3] == suffix[|suffix| - 3]
  {
    if EndsWith(name, suffix) {
      assert name[|name| - |suffix|..][|suffix| - 3] == name[|name| - 3];
    }
  }

  lemma {:induction false} FileNameIs(path: string)
    ensures FileName(path) <= path || |FileName(path)| <= |path|
    ensures |FileName(path)| <= |path| && path[|path| - |FileName(path)|..] == FileName(path)
    ensures '/' !in FileName(path)
    ensures |FileName(path)| < |path| ==> path[|path| - |FileName(path)| - 1] == '/'
  {
    if path != [] && path[|path| - 1] != '/' {
      FileNameIs(path[..|path| - 1]);
    }
  }

  /** `class`, in any case. */
  predicate SpellsClass(extension: string) {
    |extension| == 5 && forall k :: 0 <= k < 5 ==> extension[k] == "class"[k] || extension[k] == "CLASS"[k]
  }

  predicate IsClassName(name: string, directory: string, stem: string, extension: string) {
    && name == directory + stem + "." + extension
    && (directory != [] ==> directory[|directory| - 1] == '/') && '/' !in stem
    && stem != [] && SpellsClass(extension)
  }

  /** A class file has a stem, and the extension `class` in any case, in any directory. */
  lemma ClassNames(name: string)
    ensures IsClassFile(name) <==> exists directory, stem, extension :: IsClassName(name, directory, stem, extension)
  {
    if IsClassFile(name) {
      ClassHasParts(name);
    }
    if directory, stem, extension :| IsClassName(name, directory, stem, extension) {
      PartsMakeClass(name, directory, stem, extension);
    }
  }

  lemma ClassHasParts(name: string)
    requires IsClassFile(name)
    ensures exists directory, stem, extension :: IsClassName(name, directory, stem, extension)
  {
    var file := FileName(name);
    FileNameIs(name);
    ClassEnds(file);
    var directory, stem, extension := name[..|name| - |file|], file[..|file| - 6], file[|file| - 5..];
    Parts(file, |file| - 6);
    Cut(name, |name| - |file|);
    RegroupPath(directory, stem, ".", extension);
    assert IsClassName(name, directory, stem, extension);
  }

  lemma Parts(file: string, n: nat)
    requires n < |file| && file[n] == '.'
    ensures file == file[..n] + "." + file[n + 1..]
  {
  }

  lemma Cut(name: string, n: nat)
    requires n <= |name|
    ensures name == name[..n] + name[n..]
  {
  }

  lemma RegroupPath(a: string, b: string, c: string, e: string)
    ensures a + (b + c + e) == a + b + c + e
  {
  }

  lemma PartsMakeClass(name: string, directory: string, stem: string, extension: string)
    requires IsClassName(name, directory, stem, extension)
    ensures IsClassFile(name)
  {
    var file := stem + "." + extension;
    RegroupPath(directory, stem, ".", extension);
    assert forall k :: 0 <= k < 5 ==> extension[k] != '/';
    LastPart(directory, file);
    assert file[|file| - 5..] == extension && file[|file| - 6] == '.';
    ClassEnds(file);
  }

  lemma ClassEnds(file: string)
    requires |file| > 6
    ensures EndsWith(Lowercase(file), ".class") <==> file[|file| - 6] == '.' && SpellsClass(file[|file| - 5..])
  {
    var lower, n := Lowercase(file), |file| - 6;
    var tail, extension := lower[n..], file[n + 1..];
    assert tail == [lower[n], lower[n + 1], lower[n + 2], lower[n + 3], lower[n + 4], lower[n + 5]];
    assert lower[n] == '.' <==> file[n] == '.';
    assert lower[n + 1] == 'c' <==> extension[0] == 'c' || extension[0] == 'C';
    assert lower[n + 2] == 'l' <==> extension[1] == 'l' || extension[1] == 'L';
    assert lower[n + 3] == 'a' <==> extension[2] == 'a' || extension[2] == 'A';
    assert lower[n + 4] == 's' <==> extension[3] == 's' || extension[3] == 'S';
    assert lower[n + 5] == 's' <==> extension[4] == 's' || extension[4] == 'S';
    SpelledOut(extension);
  }

  lemma SpelledOut(extension: string)
    requires |extension| == 5
    ensures SpellsClass(extension) <==>
              && (extension[0] == 'c' || extension[0] == 'C') && (extension[1] == 'l' || extension[1] == 'L')
              && (extension[2] == 'a' || extension[2] == 'A') && (extension[3] == 's' || extension[3] == 'S')
              && (extension[4] == 's' || extension[4] == 'S')
  {
    if SpellsClass(extension) {
      assert extension[0] == "class"[0] || extension[0] == "CLASS"[0];
      assert extension[1] == "class"[1] || extension[1] == "CLASS"[1];
      assert extension[2] == "class"[2] || extension[2] == "CLASS"[2];
      assert extension[3] == "class"[3] || extension[3] == "CLASS"[3];
      assert extension[4] == "class"[4] || extension[4] == "CLASS"[4];
    }
  }

  lemma {:induction false} LastPart(directory: string, file: string)
    requires (directory != [] ==> directory[|directory| - 1] == '/') && '/' !in file
    ensures FileName(directory + file) == file
  {
    var path := directory + file;
    if file == [] {
      assert path == directory;
    } else {
      LastPart(directory, file[..|file| - 1]);
      assert path[..|path| - 1] == directory + file[..|file| - 1];
      assert file[|file| - 1] in file;
    }
  }

  // ------------------------------------------------------------------ merging two contents

  /** The lines that a service registry declares. */
  function LineSet(text: string): set<string> {
    set line | line in Lines(text) && Declares(Trim(line)) :: Trim(line)
  }

  predicate Declares(line: string) {
    line != [] && line[0] != '#'
  }

  /** The sorted lines, each ended by a line feed. */
  function Registered(lines: set<string>): string {
    PrintRows(Ascending(lines))
  }

  function LinesMerged(existing: Option<string>, text: string): string {
    Registered(LineSet(if existing.Some? then existing.value else "") + LineSet(text))
  }

  function PropertiesMerged(existing: Option<string>, text: string): Result<string, PropertyError> {
    var known :- if existing.Some? then ParsedInto(map[], existing.value) else Success(map[]);
    var properties :- ParsedInto(known, text);
    Success(Printed(properties))
  }

  function ListsMerged(existing: Option<string>, text: string): Result<string, PropertyError> {
    var known :- if existing.Some? then ListsParsedInto(map[], existing.value) else Success(map[]);
    var lists :- ListsParsedInto(known, text);
    Success(Printed(Flat(lists)))
  }

  function Lifted(result: Result<string, PropertyError>): Result<string, FatError> {
    match result
    case Success(text) => Success(text)
    case Failure(error) => Failure(Registry(error))
  }

  /** The contents under a name after one more source brings its own. */
  function Merged(strategy: Strategy, name: string, existing: Option<string>, text: string): Result<string, FatError> {
    match strategy
    case LineRegistry => Success(LinesMerged(existing, text))
    case PlainProperties => Lifted(PropertiesMerged(existing, text))
    case PropertyLists => Lifted(ListsMerged(existing, text))
    case KeepFirst =>
      if existing.None? then Success(text)
      else if existing.value != text && IsClassFile(name) then Failure(ConflictingClass)
      else Success(existing.value)
  }

  /** All sources of a name, one at a time. */
  function MergedAll(strategy: Strategy, name: string, existing: Option<string>, texts: seq<string>)
    : Result<Option<string>, FatError>
    decreases |texts|
  {
    if texts == [] then Success(existing)
    else
      var next :- Merged(strategy, name, existing, texts[0]);
      MergedAll(strategy, name, Some(next), texts[1..])
  }

  function TextsFor(inputs: seq<Input>, name: string): seq<string> {
    if inputs == [] then []
    else
      var last := inputs[|inputs| - 1];
      TextsFor(inputs[..|inputs| - 1], name) + if last.name == name then [last.contents] else []
  }

  lemma {:induction false} MergedAllThen(
      strategy: Strategy, name: string, existing: Option<string>, texts: seq<string>, more: seq<string>)
    ensures MergedAll(strategy, name, existing, texts + more)
            == match MergedAll(strategy, name, existing, texts)
               case Success(reached) => MergedAll(strategy, name, reached, more)
               case Failure(error) => Failure(error)
    decreases |texts|
  {
    if texts == [] {
      assert texts + more == more;
    } else {
      assert (texts + more)[1..] == texts[1..] + more;
      var next := Merged(strategy, name, existing, texts[0]);
      if next.Success? {
        MergedAllThen(strategy, name, Some(next.value), texts[1..], more);
      }
    }
  }

  /** One more text, after all the others. */
  lemma MergedAllNext(strategy: Strategy, name: string, existing: Option<string>, texts: seq<string>, text: string)
    requires MergedAll(strategy, name, existing, texts).Success?
    ensures MergedAll(strategy, name, existing, texts + [text])
            == match Merged(strategy, name, MergedAll(strategy, name, existing, texts).value, text)
               case Success(contents) => Success(Some(contents))
               case Failure(error) => Failure(error)
  {
    MergedAllThen(strategy, name, existing, texts, [text]);
    assert [text][1..] == [];
  }

  lemma FailureIsFinal(strategy: Strategy, name: string, existing: Option<string>, texts: seq<string>, all: seq<string>)
    requires texts <= all && MergedAll(strategy, name, existing, texts).Failure?
    ensures MergedAll(strategy, name, existing, all).Failure?
  {
    assert all == texts + all[|texts|..];
    MergedAllThen(strategy, name, existing, texts, all[|texts|..]);
  }

  lemma {:induction false} TextsOfPrefix(inputs: seq<Input>, i: nat, name: string)
    requires i <= |inputs|
    ensures TextsFor(inputs[..i], name) <= TextsFor(inputs, name)
    decreases |inputs|
  {
    if i < |inputs| {
      assert inputs[..|inputs| - 1][..i] == inputs[..i];
      TextsOfPrefix(inputs[..|inputs| - 1], i, name);
    } else {
      assert inputs[..i] == inputs;
    }
  }

  // ------------------------------------------------------------------ the archive

  type EntryMap = map<string, FatEntry>

  function ContentsIn(entries: EntryMap, name: string): Option<string> {
    if name in entries then Some(entries[name].contents) else None
  }

  function SourceAfter(entries: EntryMap, input: Input): string {
    match StrategyOf(input.name)
    case LineRegistry => "merged line registry"
    case PlainProperties => "merged properties"
    case PropertyLists => "merged property list registry"
    case KeepFirst => if input.name in entries then entries[input.name].source else input.source
  }

  /** The entries after one more input; only the entry of that name can change. */
  function After(entries: EntryMap, input: Input): Result<EntryMap, FatError> {
    var contents :- Merged(StrategyOf(input.name), input.name, ContentsIn(entries, input.name), input.contents);
    Success(entries[input.name := FatEntry(contents, SourceAfter(entries, input))])
  }

  /** A resource that is kept although a later source has other contents is reported. */
  function WarningsFor(entries: EntryMap, input: Input): seq<Warning> {
    if StrategyOf(input.name).KeepFirst? && input.name in entries
       && entries[input.name].contents != input.contents && !IsClassFile(input.name)
    then [Ignored(input.name, entries[input.name].source, input.source)]
    else []
  }

  lemma AfterMerged(entries: EntryMap, input: Input, strategy: Strategy, merged: Result<string, FatError>)
    requires strategy == StrategyOf(input.name) && !strategy.KeepFirst?
    requires merged == Merged(strategy, input.name, ContentsIn(entries, input.name), input.contents)
    ensures After(entries, input)
            == match merged
               case Success(contents) => Success(entries[input.name := FatEntry(contents, SourceAfter(entries, input))])
               case Failure(error) => Failure(error)
  {
  }

  method MergeProperties(existing: Option<string>, text: string) returns (result: Result<string, PropertyError>)
    ensures result == PropertiesMerged(existing, text)
  {
    var properties: map<string, string> := map[];
    if existing.Some? {
      var known := ParseProperties(properties, existing.value);
      if known.Failure? {
        return Failure(known.error);
      }
      properties := known.value;
    }
    var all := ParseProperties(properties, text);
    if all.Failure? {
      return Failure(all.error);
    }
    var merged := Print(all.value);
    return Success(merged);
  }

  method MergePropertyLists(existing: Option<string>, text: string) returns (result: Result<string, PropertyError>)
    ensures result == ListsMerged(existing, text)
  {
    var lists: Lists := map[];
    if existing.Some? {
      var known := ParsePropertyLists(lists, existing.value);
      if known.Failure? {
        return Failure(known.error);
      }
      lists := known.value;
    }
    var all := ParsePropertyLists(lists, text);
    if all.Failure? {
      return Failure(all.error);
    }
    var merged := Print(Flat(all.value));
    return Success(merged);
  }

  class FatArchive {
    var entries: EntryMap
    var warnings: seq<Warning>

    constructor ()
      ensures entries == map[] && warnings == []
    {
      entries := map[];
      warnings := [];
    }

    method MergeFatEntry(input: Input) returns (result: Result<(), FatError>)
      modifies this
      ensures result.Failure? ==> After(old(entries), input) == Failure(result.error)
                                  && entries == old(entries) && warnings == old(warnings)
      ensures result.Success? ==> After(old(entries), input) == Success(entries)
                                  && warnings == old(warnings) + WarningsFor(old(entries), input)
    {
      match StrategyOf(input.name)
      case KeepFirst => result := InsertFatEntry(input);
      case LineRegistry =>
        MergeLineEntry(input);
        result := Success(());
      case PlainProperties => result := MergePropertiesEntry(input);
      case PropertyLists => result := MergePropertyListEntry(input);
    }

    method MergeLineEntry(input: Input)
      requires StrategyOf(input.name).LineRegistry?
      modifies this`entries
      ensures Success(entries) == After(old(entries), input)
    {
      var existing := if input.name in entries then entries[input.name].contents else "";
      var lines := LineSet(existing) + LineSet(input.contents);
      entries := entries[input.name := FatEntry(Registered(lines), "merged line registry")];
    }

    method MergePropertiesEntry(input: Input) returns (result: Result<(), FatError>)
      requires StrategyOf(input.name).PlainProperties?
      modifies this`entries
      ensures result.Failure? ==> After(old(entries), input) == Failure(result.error) && entries == old(entries)
      ensures result.Success? ==> After(old(entries), input) == Success(entries)
    {
      ghost var before := entries;
      var merged := MergeProperties(ContentsIn(entries, input.name), input.contents);
      AfterMerged(before, input, PlainProperties, Lifted(merged));
      if merged.Failure? {
        return Failure(Registry(merged.error));
      }
      entries := entries[input.name := FatEntry(merged.value, "merged properties")];
      return Success(());
    }

    method MergePropertyListEntry(input: Input) returns (result: Result<(), FatError>)
      requires StrategyOf(input.name).PropertyLists?
      modifies this`entries
      ensures result.Failure? ==> After(old(entries), input) == Failure(result.error) && entries == old(entries)
      ensures result.Success? ==> After(old(entries), input) == Success(entries)
    {
      ghost var before := entries;
      var merged := MergePropertyLists(ContentsIn(entries, input.name), input.contents);
      AfterMerged(before, input, PropertyLists, Lifted(merged));
      if merged.Failure? {
        return Failure(Registry(merged.error));
      }
      entries := entries[input.name := FatEntry(merged.value, "merged property list registry")];
      return Success(());
    }

    method InsertFatEntry(input: Input) returns (result: Result<(), FatError>)
      requires StrategyOf(input.name).KeepFirst?
      modifies this
      ensures result.Failure? ==> After(old(entries), input) == Failure(result.error)
                                  && entries == old(entries) && warnings == old(warnings)
      ensures result.Success? ==> After(old(entries), input) == Success(entries)
                                  && warnings == old(warnings) + WarningsFor(old(entries), input)
    {
      if input.name in entries {
        var existing := entries[input.name];
        assert entries[input.name := existing] == entries;
        if existing.contents == input.contents {
          return Success(());
        }
        if IsClassFile(input.name) {
          return Failure(ConflictingClass);
        }
        warnings := warnings + [Ignored(input.name, existing.source, input.source)];
        return Success(());
      }
      entries := entries[input.name := FatEntry(input.contents, input.source)];
      return Success(());
    }

    /** The entries of one jar, in order. It succeeds exactly when every name can be merged on its
        own; then every name holds what its own inputs merge to, whatever lies between them. */
    method MergeDependencyJar(inputs: seq<Input>) returns (result: Result<(), FatError>)
      modifies this
      ensures result.Success? <==>
                forall name :: Mergeable(old(entries), name, TextsFor(inputs, name))
      ensures result.Success? ==>
                forall name :: MergedAll(StrategyOf(name), name, ContentsIn(old(entries), name), TextsFor(inputs, name))
                               == Success(ContentsIn(entries, name))
    {
      ghost var before := entries;
      var i := 0;
      while i < |inputs|
        invariant 0 <= i <= |inputs|
        invariant MergedSoFar(before, inputs[..i], entries)
      {
        ghost var reached := entries;
        result := MergeFatEntry(inputs[i]);
        if result.Failure? {
          FailureStops(before, inputs, i, reached);
          return;
        }
        MergeStep(before, inputs, i, reached);
        i := i + 1;
      }
      assert inputs[..i] == inputs;
      assert forall name :: MergedAll(StrategyOf(name), name, ContentsIn(before, name), TextsFor(inputs, name))
                            == Success(ContentsIn(entries, name));
      return Success(());
    }
  }

  ghost predicate MergedSoFar(before: EntryMap, inputs: seq<Input>, reached: EntryMap) {
    forall name ::
      MergedAll(StrategyOf(name), name, ContentsIn(before, name), TextsFor(inputs, name))
      == Success(ContentsIn(reached, name))
  }

  lemma MergeStep(before: EntryMap, inputs: seq<Input>, i: nat, reached: EntryMap)
    requires i < |inputs| && MergedSoFar(before, inputs[..i], reached)
    requires After(reached, inputs[i]).Success?
    ensures MergedSoFar(before, inputs[..i + 1], After(reached, inputs[i]).value)
  {
    var input, next := inputs[i], After(reached, inputs[i]).value;
    forall name
      ensures MergedAll(StrategyOf(name), name, ContentsIn(before, name), TextsFor(inputs[..i + 1], name))
              == Success(ContentsIn(next, name))
    {
      TextsForNext(inputs, i, name);
      var texts := TextsFor(inputs[..i], name);
      if input.name == name {
        MergedAllNext(StrategyOf(name), name, ContentsIn(before, name), texts, input.contents);
      } else {
        assert texts + [] == texts;
      }
    }
  }

  lemma TextsForNext(inputs: seq<Input>, i: nat, name: string)
    requires i < |inputs|
    ensures TextsFor(inputs[..i + 1], name)
            == TextsFor(inputs[..i], name) + if inputs[i].name == name then [inputs[i].contents] else []
  {
    assert inputs[..i + 1][..i] == inputs[..i];
  }

  predicate Mergeable(before: EntryMap, name: string, texts: seq<string>) {
    MergedAll(StrategyOf(name), name, ContentsIn(before, name), texts).Success?
  }

  lemma FailureStops(before: EntryMap, inputs: seq<Input>, i: nat, reached: EntryMap)
    requires i < |inputs| && MergedSoFar(before, inputs[..i], reached)
    requires After(reached, inputs[i]).Failure?
    ensures !Mergeable(before, inputs[i].name, TextsFor(inputs, inputs[i].name))
  {
    TextsUpTo(inputs, i);
    FailureOfInput(before, inputs[i], TextsFor(inputs[..i], inputs[i].name), TextsFor(inputs, inputs[i].name), reached);
  }

  lemma TextsUpTo(inputs: seq<Input>, i: nat)
    requires i < |inputs|
    ensures TextsFor(inputs[..i], inputs[i].name) + [inputs[i].contents] <= TextsFor(inputs, inputs[i].name)
  {
    TextsForNext(inputs, i, inputs[i].name);
    TextsOfPrefix(inputs, i + 1, inputs[i].name);
  }

  lemma FailureOfInput(before: EntryMap, input: Input, texts: seq<string>, all: seq<string>, reached: EntryMap)
    requires texts + [input.contents] <= all
    requires MergedAll(StrategyOf(input.name), input.name, ContentsIn(before, input.name), texts)
             == Success(ContentsIn(reached, input.name))
    requires After(reached, input).Failure?
    ensures !Mergeable(before, input.name, all)
  {
    FailureStopsName(StrategyOf(input.name), input.name, ContentsIn(before, input.name),
                     ContentsIn(reached, input.name),
                     input.contents, texts, all);
  }

  lemma FailureStopsName(strategy: Strategy, name: string, before: Option<string>, reached: Option<string>,
                         text: string,
                         texts: seq<string>, all: seq<string>)
    requires MergedAll(strategy, name, before, texts) == Success(reached)
    requires Merged(strategy, name, reached, text).Failure? && texts + [text] <= all
    ensures MergedAll(strategy, name, before, all).Failure?
  {
    MergedAllNext(strategy, name, before, texts, text);
    FailureIsFinal(strategy, name, before, texts + [text], all);
  }

  // ------------------------------------------------------------------ what merging many files means

  predicate LineShape(line: string) {
    Declares(line) && Trimmed(line) && '\n' !in line
  }

  lemma LineSetShape(text: string)
    ensures forall line :: line in LineSet(text) ==> LineShape(line)
  {
    LinesHaveNoFeed(text);
    forall line | line in LineSet(text)
      ensures LineShape(line)
    {
      var raw :| raw in Lines(text) && Trim(raw) == line;
      TrimKeepsMiddle(raw);
      TrimAddsNothing(raw, '\n');
    }
  }

  lemma {:induction false} RegistryLines(listing: seq<string>)
    requires forall line :: line in listing ==> LineShape(line)
    ensures Lines(PrintRows(listing)) == listing
  {
    if listing != [] {
      assert listing[0] in listing;
      FirstLine(listing[0], PrintRows(listing[1..]));
      RegistryLines(listing[1..]);
    }
  }

  /** A printed line registry declares exactly the lines it was printed from. */
  lemma LineRegistryRoundTrip(lines: set<string>)
    requires forall line :: line in lines ==> LineShape(line)
    ensures LineSet(Registered(lines)) == lines
  {
    RegistryLines(Ascending(lines));
    forall line | line in lines
      ensures Trim(line) == line
    {
      TrimKeepsMiddle(line);
    }
  }

  function AllLines(texts: seq<string>): set<string> {
    set text, line | text in texts && line in LineSet(text) :: line
  }

  lemma AllLinesOfFirst(texts: seq<string>)
    requires texts != []
    ensures AllLines(texts) == LineSet(texts[0]) + AllLines(texts[1..])
  {
    assert texts == [texts[0]] + texts[1..];
  }

  lemma {:induction false} LinesFrom(name: string, known: set<string>, texts: seq<string>)
    requires forall line :: line in known ==> LineShape(line)
    ensures MergedAll(LineRegistry, name, Some(Registered(known)), texts)
            == Success(Some(Registered(known + AllLines(texts))))
    decreases |texts|
  {
    if texts == [] {
      assert known + AllLines(texts) == known;
    } else {
      LineSetShape(texts[0]);
      LineRegistryRoundTrip(known);
      LinesFrom(name, known + LineSet(texts[0]), texts[1..]);
      AllLinesOfFirst(texts);
      assert known + AllLines(texts) == known + LineSet(texts[0]) + AllLines(texts[1..]);
    }
  }

  /** Merging line registries never fails and gives the union of their lines, so neither the order
      nor the repetition of the files matters. */
  lemma LineMergesAreUnion(name: string, texts: seq<string>)
    requires texts != []
    ensures MergedAll(LineRegistry, name, None, texts) == Success(Some(Registered(AllLines(texts))))
  {
    LineSetShape(texts[0]);
    var first := {} + LineSet(texts[0]);
    assert LineSet("") == {};
    LinesFrom(name, first, texts[1..]);
    AllLinesOfFirst(texts);
    assert first + AllLines(texts[1..]) == AllLines(texts);
  }

  predicate AllSay(texts: seq<string>, contents: string) {
    forall k :: 0 <= k < |texts| ==> texts[k] == contents
  }

  /** Other resources keep the first contents; for a class every source must agree with the first. */
  lemma FirstContentsAreKept(name: string, texts: seq<string>)
    requires texts != []
    ensures var merged := MergedAll(KeepFirst, name, None, texts);
            && (merged.Success? <==> !IsClassFile(name) || AllSay(texts, texts[0]))
            && (merged.Success? ==> merged.value == Some(texts[0]))
  {
    KeptFrom(name, texts[0], texts[1..]);
    AllSayFirst(texts, texts[0]);
  }

  lemma AllSayFirst(texts: seq<string>, contents: string)
    requires texts != []
    ensures AllSay(texts, contents) <==> texts[0] == contents && AllSay(texts[1..], contents)
  {
    var rest := texts[1..];
    assert forall k :: 1 <= k < |texts| ==> texts[k] == rest[k - 1];
    assert forall k :: 0 <= k < |rest| ==> rest[k] == texts[k + 1];
  }

  lemma {:induction false} KeptFrom(name: string, kept: string, texts: seq<string>)
    ensures var merged := MergedAll(KeepFirst, name, Some(kept), texts);
            && (merged.Success? <==> !IsClassFile(name) || AllSay(texts, kept))
            && (merged.Success? ==> merged.value == Some(kept))
    decreases |texts|
  {
    if texts != [] {
      KeptFrom(name, kept, texts[1..]);
      AllSayFirst(texts, kept);
    }
  }
}
