/** Property files as the fat-JAR merger reads and prints them (`property_entries`,
    `parse_property_entry`, `parse_properties`, `parse_property_lists` and the two printers). */
module PropertyText {
  import opened Wrappers
  import opened Text
  import opened Order

  datatype Property = Property(key: string, value: string)

  datatype PropertyError = UnsupportedSyntax | EmptyKey | UnterminatedContinuation | ConflictingProperty

  /** The text ends in an odd run of backslashes. */
  predicate OddTail(s: string) {
    s != [] && s[|s| - 1] == '\\' && !OddTail(s[..|s| - 1])
  }

  // ------------------------------------------------------------------ one entry

  predicate IsSeparator(c: char) {
    c == '=' || c == ':' || IsWhitespace(c)
  }

  /** The search for the separator: a backslash escapes the character after it. */
  function FindSeparator(line: string, from: nat, escaped: bool): (index: nat)
    requires from <= |line|
    ensures index <= |line|
    decreases |line| - from
  {
    if from == |line| then from
    else if escaped then FindSeparator(line, from + 1, false)
    else if line[from] == '\\' then FindSeparator(line, from + 1, true)
    else if IsSeparator(line[from]) then from
    else FindSeparator(line, from + 1, false)
  }

  predicate SeparatorAt(line: string, i: int) {
    0 <= i < |line| && IsSeparator(line[i]) && !OddTail(line[..i])
  }

  /** The search finds the first separator that no odd run of backslashes precedes. */
  lemma {:induction false} FirstUnescaped(line: string, from: nat)
    requires from <= |line|
    ensures var index := FindSeparator(line, from, OddTail(line[..from]));
            && from <= index
            && (index < |line| ==> SeparatorAt(line, index))
            && forall i :: from <= i < index ==> !SeparatorAt(line, i)
    decreases |line| - from
  {
    if from < |line| {
      assert line[..from + 1][..from] == line[..from];
      FirstUnescaped(line, from + 1);
    }
  }

  function ParseEntry(raw: string): Result<Option<Property>, PropertyError> {
    var line := Trim(raw);
    if line == [] || line[0] == '#' || line[0] == '!' then Success(None)
    else
      var index := FindSeparator(line, 0, false);
      if index == |line| then Failure(UnsupportedSyntax)
      else
        var key := TrimEnd(line[..index]);
        if key == [] then Failure(EmptyKey)
        else
          var value := line[index + 1..];
          Success(Some(Property(key, Trim(if IsWhitespace(line[index]) then AfterBlank(value) else value))))
  }

  /** A blank separator may be followed by more blanks and one `=` or `:`. */
  function AfterBlank(value: string): string {
    var trimmed := TrimStart(value);
    if trimmed != [] && (trimmed[0] == '=' || trimmed[0] == ':') then trimmed[1..] else trimmed
  }

  /** What the reader can produce as a key. */
  predicate KeyShape(key: string) {
    && key != [] && Trimmed(key) && key[0] != '#' && key[0] != '!' && '\n' !in key
    && forall i :: 0 <= i < |key| ==> !SeparatorAt(key, i)
  }

  /** What the reader can produce as a value. */
  predicate ValueShape(value: string) {
    Trimmed(value) && '\n' !in value
  }

  lemma KeyIsShaped(line: string, index: nat)
    requires line != [] && Trimmed(line) && '\n' !in line && line[0] != '#' && line[0] != '!'
    requires index == FindSeparator(line, 0, false) && index < |line|
    requires TrimEnd(line[..index]) != []
    ensures KeyShape(TrimEnd(line[..index]))
  {
    assert line[..0] == [];
    FirstUnescaped(line, 0);
    var key := TrimEnd(line[..index]);
    TrimEndIsPrefix(line[..index]);
    assert key[0] == line[0];
    forall i | 0 <= i < |key|
      ensures !SeparatorAt(key, i)
    {
      assert key[..i] == line[..i] && key[i] == line[i] && !SeparatorAt(line, i);
    }
  }

  lemma ValueIsShaped(text: string)
    requires '\n' !in text
    ensures ValueShape(Trim(text)) && '\n' !in AfterBlank(text)
  {
    TrimKeepsMiddle(text);
    TrimAddsNothing(text, '\n');
  }

  lemma EntryShape(raw: string)
    requires '\n' !in raw
    requires ParseEntry(raw).Success? && ParseEntry(raw).value.Some?
    ensures KeyShape(ParseEntry(raw).value.value.key) && ValueShape(ParseEntry(raw).value.value.value)
  {
    var line := Trim(raw);
    ValueIsShaped(raw);
    var index := FindSeparator(line, 0, false);
    KeyIsShaped(line, index);
    var rest := line[index + 1..];
    ValueIsShaped(rest);
    ValueIsShaped(AfterBlank(rest));
  }

  function Row(p: Property): string {
    p.key + "=" + p.value
  }

  lemma {:induction false} TailAfterEquals(prefix: string, value: string)
    ensures OddTail(prefix + "=" + value) == OddTail(value)
  {
    var s := prefix + "=" + value;
    if value == [] {
      assert s[|s| - 1] == '=';
    } else {
      TailAfterEquals(prefix, value[..|value| - 1]);
      assert s[..|s| - 1] == prefix + "=" + value[..|value| - 1];
    }
  }

  /** Text without a separator, not ending in a pending escape, is read up to the `=` after it. */
  lemma SeparatorAfter(head: string, value: string)
    requires !OddTail(head) && forall i :: 0 <= i < |head| ==> !SeparatorAt(head, i)
    ensures var line := head + "=" + value;
            && FindSeparator(line, 0, false) == |head|
            && line[|head|] == '=' && line[..|head|] == head && line[|head| + 1..] == value
  {
    NoneInHead(head, value);
    EqualsAfter(head, value);
    SeparatorFound(head + "=" + value, |head|);
  }

  lemma EqualsAfter(head: string, value: string)
    requires !OddTail(head)
    ensures var line := head + "=" + value;
            && SeparatorAt(line, |head|)
            && line[|head|] == '=' && line[..|head|] == head && line[|head| + 1..] == value
  {
    CutAtEquals(head, value);
  }

  lemma CutAtEquals(head: string, value: string)
    ensures var line := head + "=" + value;
            line[|head|] == '=' && line[..|head|] == head && line[|head| + 1..] == value
  {
  }

  lemma NoneInHead(head: string, value: string)
    requires forall i :: 0 <= i < |head| ==> !SeparatorAt(head, i)
    ensures forall i :: 0 <= i < |head| ==> !SeparatorAt(head + "=" + value, i)
  {
    forall i | 0 <= i < |head|
      ensures !SeparatorAt(head + "=" + value, i)
    {
      SeparatorInHead(head, value, i);
    }
  }

  lemma SeparatorFound(line: string, n: nat)
    requires SeparatorAt(line, n) && forall i :: 0 <= i < n ==> !SeparatorAt(line, i)
    ensures FindSeparator(line, 0, false) == n
  {
    assert line[..0] == [];
    FirstUnescaped(line, 0);
  }

  lemma SeparatorInHead(head: string, value: string, i: nat)
    requires i < |head|
    ensures SeparatorAt(head + "=" + value, i) == SeparatorAt(head, i)
  {
    var line := head + "=" + value;
    assert line[..i] == head[..i] && line[i] == head[i];
  }

  /** A printed row reads back as the property it was printed from, unless the key dangles: then
      the `=` is taken into the key, and what is read, if anything, has a longer key. */
  lemma RowReadsBack(p: Property)
    requires KeyShape(p.key) && ValueShape(p.value)
    ensures !OddTail(p.key) ==> ParseEntry(Row(p)) == Success(Some(p))
    ensures OddTail(p.key) && ParseEntry(Row(p)).Success? ==>
              ParseEntry(Row(p)).value.Some? && |ParseEntry(Row(p)).value.value.key| > |p.key|
  {
    if OddTail(p.key) {
      if ParseEntry(Row(p)).Success? {
        DanglingRowGrows(p);
      }
    } else {
      PlainRowReadsBack(p);
    }
  }

  lemma EntryCut(raw: string, index: nat)
    requires index < |Trim(raw)| && Trim(raw)[0] != '#' && Trim(raw)[0] != '!'
    requires FindSeparator(Trim(raw), 0, false) == index && !IsWhitespace(Trim(raw)[index])
    requires TrimEnd(Trim(raw)[..index]) != []
    ensures ParseEntry(raw)
            == Success(Some(Property(TrimEnd(Trim(raw)[..index]), Trim(Trim(raw)[index + 1..]))))
  {
  }

  lemma RowIsTrimmed(p: Property)
    requires KeyShape(p.key) && ValueShape(p.value)
    ensures Trim(Row(p)) == Row(p) && Row(p)[0] == p.key[0]
  {
    assert Trimmed(Row(p));
    TrimKeepsMiddle(Row(p));
  }

  lemma PlainRowReadsBack(p: Property)
    requires KeyShape(p.key) && ValueShape(p.value) && !OddTail(p.key)
    ensures ParseEntry(Row(p)) == Success(Some(p))
  {
    RowIsTrimmed(p);
    SeparatorAfter(p.key, p.value);
    TrimEndIsPrefix(p.key);
    TrimKeepsMiddle(p.value);
    EntryCut(Row(p), |p.key|);
  }

  lemma DanglingRowGrows(p: Property)
    requires KeyShape(p.key) && ValueShape(p.value) && OddTail(p.key) && ParseEntry(Row(p)).Success?
    ensures ParseEntry(Row(p)).value.Some? && |ParseEntry(Row(p)).value.value.key| > |p.key|
  {
    RowIsTrimmed(p);
    DanglingKeyGrows(p.key, p.value);
    TrimEndIsPrefix(Row(p)[..FindSeparator(Row(p), 0, false)]);
  }

  lemma DanglingKeyGrows(key: string, value: string)
    requires KeyShape(key) && OddTail(key)
    ensures var line := key + "=" + value;
            var index := FindSeparator(line, 0, false);
            index > |key| && line[..index][|key|] == '='
  {
    var line := key + "=" + value;
    assert line[..0] == [] && line[..|key|] == key;
    FirstUnescaped(line, 0);
    forall i | 0 <= i <= |key|
      ensures !SeparatorAt(line, i)
    {
      if i < |key| {
        assert line[..i] == key[..i] && line[i] == key[i] && !SeparatorAt(key, i);
      }
    }
  }

  // ------------------------------------------------------------------ a whole file

  /** Joining continued lines: a line whose text so far ends in an odd run of backslashes loses the
      last of them and goes on with the next line. */
  function EntriesFrom(lines: seq<string>, logical: string): Result<seq<Property>, PropertyError>
    decreases |lines|
  {
    if lines == [] then
      if logical == [] then Success([]) else Failure(UnterminatedContinuation)
    else
      var joined := if logical == [] then lines[0] else logical + TrimStart(lines[0]);
      if OddTail(joined) then EntriesFrom(lines[1..], joined[..|joined| - 1])
      else
        var entry :- ParseEntry(joined);
        Prepend(Found(entry), EntriesFrom(lines[1..], []))
  }

  function Entries(text: string): Result<seq<Property>, PropertyError> {
    EntriesFrom(Lines(text), [])
  }

  function Prepend(front: seq<Property>, rest: Result<seq<Property>, PropertyError>)
    : Result<seq<Property>, PropertyError>
  {
    if rest.Success? then Success(front + rest.value) else rest
  }

  lemma PrependTwice(front: seq<Property>, middle: seq<Property>, rest: Result<seq<Property>, PropertyError>)
    ensures Prepend(front, Prepend(middle, rest)) == Prepend(front + middle, rest)
    ensures Prepend([], rest) == rest
  {
    if rest.Success? {
      assert front + (middle + rest.value) == front + middle + rest.value;
      assert [] + rest.value == rest.value;
    }
  }

  function Found(entry: Option<Property>): seq<Property> {
    if entry.Some? then [entry.value] else []
  }

  /** One physical line, joined to what is pending: what is pending then, and what was found. */
  function ReadLine(logical: string, line: string): Result<(string, seq<Property>), PropertyError> {
    var joined := if logical == [] then line else logical + TrimStart(line);
    if OddTail(joined) then Success((joined[..|joined| - 1], []))
    else
      var entry :- ParseEntry(joined);
      Success(([], Found(entry)))
  }

  lemma NextLine(lines: seq<string>, i: nat, logical: string, entries: seq<Property>)
    requires i < |lines|
    ensures Prepend(entries, EntriesFrom(lines[i..], logical))
            == match ReadLine(logical, lines[i])
               case Success(read) => Prepend(entries + read.1, EntriesFrom(lines[i + 1..], read.0))
               case Failure(error) => Failure(error)
  {
    assert lines[i..][1..] == lines[i + 1..];
    var read := ReadLine(logical, lines[i]);
    if read.Success? {
      PrependTwice(entries, read.value.1, EntriesFrom(lines[i + 1..], read.value.0));
      assert entries + [] == entries;
    }
  }

  method PropertyEntries(text: string) returns (result: Result<seq<Property>, PropertyError>)
    ensures result == Entries(text)
  {
    var lines, logical, entries := Lines(text), "", [];
    PrependTwice([], [], Entries(text));
    assert lines[0..] == lines;
    for i := 0 to |lines|
      invariant Entries(text) == Prepend(entries, EntriesFrom(lines[i..], logical))
    {
      NextLine(lines, i, logical, entries);
      var read := ReadLine(logical, lines[i]);
      if read.Failure? {
        return Failure(read.error);
      }
      logical, entries := read.value.0, entries + read.value.1;
    }
    assert entries + [] == entries;
    result := if logical == [] then Success(entries) else Failure(UnterminatedContinuation);
  }

  /** Whatever the reader produces has the shape of keys and values. */
  lemma {:induction false} EntriesShape(lines: seq<string>, logical: string)
    requires '\n' !in logical
    requires forall line :: line in lines ==> '\n' !in line
    requires EntriesFrom(lines, logical).Success?
    ensures forall p :: p in EntriesFrom(lines, logical).value ==> KeyShape(p.key) && ValueShape(p.value)
    decreases |lines|
  {
    if lines != [] {
      TrimAddsNothing(lines[0], '\n');
      var joined := if logical == [] then lines[0] else logical + TrimStart(lines[0]);
      if OddTail(joined) {
        EntriesShape(lines[1..], joined[..|joined| - 1]);
      } else {
        EntriesShape(lines[1..], []);
        if ParseEntry(joined).value.Some? {
          EntryShape(joined);
        }
      }
    }
  }

  lemma ReaderShapes(text: string)
    requires Entries(text).Success?
    ensures forall p :: p in Entries(text).value ==> KeyShape(p.key) && ValueShape(p.value)
  {
    LinesHaveNoFeed(text);
    EntriesShape(Lines(text), []);
  }

  lemma {:induction false} NoMoreEntriesThanLines(lines: seq<string>, logical: string)
    requires EntriesFrom(lines, logical).Success?
    ensures |EntriesFrom(lines, logical).value| <= |lines|
    decreases |lines|
  {
    if lines != [] {
      var joined := if logical == [] then lines[0] else logical + TrimStart(lines[0]);
      NoMoreEntriesThanLines(lines[1..], if OddTail(joined) then joined[..|joined| - 1] else []);
    }
  }

  // ------------------------------------------------------------------ printing

  const HEADER := "# Merged by JMAN"

  function Rows(ps: seq<Property>): (rows: seq<string>)
    ensures |rows| == |ps|
  {
    if ps == [] then [] else [Row(ps[0])] + Rows(ps[1..])
  }

  function PrintRows(rows: seq<string>): string {
    if rows == [] then "" else rows[0] + "\n" + PrintRows(rows[1..])
  }

  /** The properties of a map by ascending key. */
  function Listing(m: map<string, string>): (ps: seq<Property>)
    ensures |ps| == |m|
    ensures forall p :: p in ps <==> p.key in m && m[p.key] == p.value
  {
    var keys := Ascending(m.Keys);
    var ps := seq(|keys|, i requires 0 <= i < |keys| => Property(keys[i], m[keys[i]]));
    assert forall p :: p in ps ==> p.key in m && m[p.key] == p.value;
    assert forall p: Property :: p.key in m && m[p.key] == p.value ==> p in ps by {
      forall p: Property | p.key in m && m[p.key] == p.value
        ensures p in ps
      {
        assert p.key in keys;
        var i :| 0 <= i < |keys| && keys[i] == p.key;
        assert ps[i] == p;
      }
    }
    ps
  }

  function Printed(m: map<string, string>): string {
    HEADER + "\n" + PrintRows(Rows(Listing(m)))
  }

  method Print(m: map<string, string>) returns (text: string)
    ensures text == Printed(m)
  {
    text := HEADER + "\n";
    var keys := Ascending(m.Keys);
    var i := 0;
    assert Rows(Listing(m))[0..] == Rows(Listing(m));
    while i < |keys|
      invariant 0 <= i <= |keys|
      invariant text + PrintRows(Rows(Listing(m))[i..]) == Printed(m)
    {
      NextRow(m, i, text);
      text := text + keys[i] + "=" + m[keys[i]] + "\n";
      i := i + 1;
    }
  }

  lemma NextRow(m: map<string, string>, i: nat, text: string)
    requires i < |m|
    ensures var rows, key := Rows(Listing(m)), Ascending(m.Keys)[i];
            text + PrintRows(rows[i..]) == text + key + "=" + m[key] + "\n" + PrintRows(rows[i + 1..])
  {
    var rows, key := Rows(Listing(m)), Ascending(m.Keys)[i];
    RowsAt(Listing(m), i);
    assert rows[i..][1..] == rows[i + 1..];
    RowAppended(text, key, m[key], PrintRows(rows[i + 1..]));
  }

  lemma RowAppended(text: string, key: string, value: string, after: string)
    ensures text + key + "=" + value + "\n" + after == text + ((key + "=" + value) + "\n" + after)
  {
  }

  lemma {:induction false} RowsAt(ps: seq<Property>, i: nat)
    requires i < |ps|
    ensures Rows(ps)[i] == Row(ps[i])
  {
    if i > 0 {
      RowsAt(ps[1..], i - 1);
    }
  }

  predicate ShapedMap(m: map<string, string>) {
    forall k :: k in m ==> KeyShape(k) && ValueShape(m[k])
  }

  predicate StableMap(m: map<string, string>) {
    forall k :: k in m ==> !OddTail(k) && !OddTail(m[k])
  }

  predicate Shaped(ps: seq<Property>) {
    forall p :: p in ps ==> KeyShape(p.key) && ValueShape(p.value)
  }

  predicate Stable(p: Property) {
    !OddTail(p.key) && !OddTail(p.value)
  }

  lemma {:induction false} PrintedLines(ps: seq<Property>)
    requires Shaped(ps)
    ensures Lines(PrintRows(Rows(ps))) == Rows(ps)
  {
    if ps != [] {
      var p := ps[0];
      assert p in ps;
      assert Row(p)[0] == p.key[0];
      assert Trimmed(Row(p)) && '\n' !in Row(p);
      FirstLine(Row(p), PrintRows(Rows(ps[1..])));
      PrintedLines(ps[1..]);
    }
  }

  lemma HeaderIsSkipped(rows: seq<string>)
    ensures EntriesFrom([HEADER] + rows, []) == EntriesFrom(rows, [])
  {
    assert Trimmed(HEADER);
    TrimKeepsMiddle(HEADER);
    assert ([HEADER] + rows)[1..] == rows;
    assert HEADER[|HEADER| - 1] == 'N' && HEADER[0] == '#';
    assert ParseEntry(HEADER) == Success(None);
    PrependTwice([], [], EntriesFrom(rows, []));
  }

  lemma PrintedEntries(m: map<string, string>)
    requires ShapedMap(m)
    ensures Shaped(Listing(m)) && Entries(Printed(m)) == EntriesFrom(Rows(Listing(m)), [])
  {
    var rows := Rows(Listing(m));
    assert Trimmed(HEADER) && '\n' !in HEADER;
    FirstLine(HEADER, PrintRows(rows));
    PrintedLines(Listing(m));
    HeaderIsSkipped(rows);
  }

  /** A printed map is the header and then a row for each key, ascending, one to a line. */
  lemma PrintedMapLines(m: map<string, string>)
    requires ShapedMap(m)
    ensures Lines(Printed(m)) == ["# Merged by JMAN"] + Rows(Listing(m))
    ensures forall i :: 0 <= i < |m| ==> Rows(Listing(m))[i] == Ascending(m.Keys)[i] + "=" + m[Ascending(m.Keys)[i]]
  {
    var rows := Rows(Listing(m));
    assert Trimmed(HEADER) && '\n' !in HEADER;
    FirstLine(HEADER, PrintRows(rows));
    PrintedLines(Listing(m));
    forall i | 0 <= i < |m|
      ensures rows[i] == Ascending(m.Keys)[i] + "=" + m[Ascending(m.Keys)[i]]
    {
      RowsAt(Listing(m), i);
    }
  }

  /** Rows of stable properties read back one by one. */
  lemma {:induction false} StableRowsReadBack(ps: seq<Property>)
    requires Shaped(ps) && forall p :: p in ps ==> Stable(p)
    ensures EntriesFrom(Rows(ps), []) == Success(ps)
  {
    if ps != [] {
      var p := ps[0];
      assert p in ps;
      TailAfterEquals(p.key, p.value);
      RowReadsBack(p);
      StableRowsReadBack(ps[1..]);
      assert [p] + ps[1..] == ps;
    }
  }

  /** What is read from the row of `p`: `p` itself, or something with a longer key. */
  predicate ReadFrom(p: Property, q: Property) {
    if OddTail(p.key) then |q.key| > |p.key| else q == p
  }

  predicate AllReadFrom(ps: seq<Property>, read: seq<Property>) {
    |read| == |ps| && forall i :: 0 <= i < |ps| ==> ReadFrom(ps[i], read[i])
  }

  /** A value with a dangling backslash swallows the next row; otherwise the rows are read one by
      one and each dangling key grows. */
  lemma {:induction false} RowsReadBack(ps: seq<Property>)
    requires Shaped(ps) && EntriesFrom(Rows(ps), []).Success?
    ensures var read := EntriesFrom(Rows(ps), []).value;
            && |read| <= |ps|
            && ((exists p :: p in ps && OddTail(p.value)) ==> |read| < |ps|)
            && (|read| == |ps| ==> AllReadFrom(ps, read))
  {
    if ps != [] {
      if OddTail(ps[0].value) {
        FirstRowSwallows(ps);
      } else {
        FirstRowReads(ps);
        RowsReadBack(ps[1..]);
        assert forall p :: p in ps ==> p == ps[0] || p in ps[1..];
        ReadFromRest(ps, EntriesFrom(Rows(ps), []).value);
      }
    }
  }

  lemma ReadFromRest(ps: seq<Property>, read: seq<Property>)
    requires ps != [] && read != [] && ReadFrom(ps[0], read[0])
    ensures AllReadFrom(ps[1..], read[1..]) ==> AllReadFrom(ps, read)
  {
    assert forall i :: 0 < i < |ps| ==> ps[i] == ps[1..][i - 1];
    assert forall i :: 0 < i < |read| ==> read[i] == read[1..][i - 1];
  }

  lemma FirstRowSwallows(ps: seq<Property>)
    requires ps != [] && OddTail(ps[0].value) && EntriesFrom(Rows(ps), []).Success?
    ensures |EntriesFrom(Rows(ps), []).value| < |ps|
  {
    TailAfterEquals(ps[0].key, ps[0].value);
    ContinuedLineSwallows(Rows(ps));
  }

  lemma ContinuedLineSwallows(lines: seq<string>)
    requires lines != [] && OddTail(lines[0]) && EntriesFrom(lines, []).Success?
    ensures |EntriesFrom(lines, []).value| < |lines|
  {
    NoMoreEntriesThanLines(lines[1..], lines[0][..|lines[0]| - 1]);
  }

  lemma FirstRowReads(ps: seq<Property>)
    requires Shaped(ps) && ps != [] && !OddTail(ps[0].value) && EntriesFrom(Rows(ps), []).Success?
    ensures EntriesFrom(Rows(ps[1..]), []).Success?
    ensures var read, rest := EntriesFrom(Rows(ps), []).value, EntriesFrom(Rows(ps[1..]), []).value;
            |read| == 1 + |rest| && ReadFrom(ps[0], read[0]) && read[1..] == rest
  {
    var p := ps[0];
    assert p in ps;
    TailAfterEquals(p.key, p.value);
    RowReadsBack(p);
  }

  function KeysOf(ps: seq<Property>): set<string> {
    set p | p in ps :: p.key
  }

  lemma {:induction false} FewKeys(ps: seq<Property>)
    ensures |KeysOf(ps)| <= |ps|
  {
    if ps != [] {
      FewKeys(ps[1..]);
      assert KeysOf(ps) == {ps[0].key} + KeysOf(ps[1..]);
    }
  }

  /** Some dangling key is shortest. */
  lemma ShortestDangling(ps: seq<Property>, p: Property) returns (shortest: Property)
    requires p in ps && OddTail(p.key)
    ensures shortest in ps && OddTail(shortest.key)
    ensures forall q :: q in ps && OddTail(q.key) ==> |q.key| >= |shortest.key|
    decreases |p.key|
  {
    if q :| q in ps && OddTail(q.key) && |q.key| < |p.key| {
      shortest := ShortestDangling(ps, q);
    } else {
      shortest := p;
    }
  }

  /** When every row was read on its own and some key dangles, the shortest such key is gone. */
  lemma DanglingKeyIsLost(ps: seq<Property>, read: seq<Property>, dangling: Property) returns (lost: Property)
    requires |read| == |ps| && forall i :: 0 <= i < |ps| ==> ReadFrom(ps[i], read[i])
    requires dangling in ps && OddTail(dangling.key)
    ensures lost in ps && lost.key !in KeysOf(read)
  {
    lost := ShortestDangling(ps, dangling);
    forall i | 0 <= i < |read|
      ensures read[i].key != lost.key
    {
      assert ReadFrom(ps[i], read[i]) && ps[i] in ps;
    }
  }

  /** With an unstable property in the map, the printed text never reads back with the same keys. */
  lemma UnstableLosesKeys(m: map<string, string>)
    requires ShapedMap(m) && !StableMap(m)
    requires Entries(Printed(m)).Success?
    ensures KeysOf(Entries(Printed(m)).value) != m.Keys
  {
    var ps := Listing(m);
    var k :| k in m && (OddTail(k) || OddTail(m[k]));
    var p := Property(k, m[k]);
    assert p in ps;
    PrintedEntries(m);
    RowsReadBack(ps);
    var read := Entries(Printed(m)).value;
    FewKeys(read);
    assert |m.Keys| == |ps|;
    if |read| == |ps| {
      var lost := DanglingKeyIsLost(ps, read, p);
      assert lost.key in m.Keys;
    }
  }

  /** Without one, it reads back as the properties in order. */
  lemma StableReadsBack(m: map<string, string>)
    requires ShapedMap(m) && StableMap(m)
    ensures Entries(Printed(m)) == Success(Listing(m))
  {
    PrintedEntries(m);
    StableRowsReadBack(Listing(m));
  }

  // ------------------------------------------------------------------ property maps

  predicate Agreeing(facts: set<Property>) {
    forall p, q :: p in facts && q in facts && p.key == q.key ==> p.value == q.value
  }

  function Facts(m: map<string, string>): (facts: set<Property>)
    ensures forall p :: p in facts <==> p.key in m && m[p.key] == p.value
  {
    set k | k in m :: Property(k, m[k])
  }

  function Collected(ps: seq<Property>): set<Property> {
    set p | p in ps
  }

  /** Adding properties to a map; a key that is there already must have the same value. */
  function AddProperties(known: map<string, string>, ps: seq<Property>): Result<map<string, string>, PropertyError>
    decreases |ps|
  {
    if ps == [] then Success(known)
    else if ps[0].key in known && known[ps[0].key] != ps[0].value then Failure(ConflictingProperty)
    else AddProperties(known[ps[0].key := ps[0].value], ps[1..])
  }

  function ParsedInto(known: map<string, string>, text: string): Result<map<string, string>, PropertyError> {
    var ps :- Entries(text);
    AddProperties(known, ps)
  }

  method ParseProperties(known: map<string, string>, text: string)
    returns (result: Result<map<string, string>, PropertyError>)
    ensures result == ParsedInto(known, text)
  {
    var entries := PropertyEntries(text);
    if entries.Failure? {
      return Failure(entries.error);
    }
    var ps, properties := entries.value, known;
    var i := 0;
    assert ps[0..] == ps;
    while i < |ps|
      invariant 0 <= i <= |ps|
      invariant ParsedInto(known, text) == AddProperties(properties, ps[i..])
    {
      assert ps[i..][1..] == ps[i + 1..];
      var p := ps[i];
      if p.key in properties {
        if properties[p.key] != p.value {
          return Failure(ConflictingProperty);
        }
        assert properties[p.key := p.value] == properties;
      } else {
        properties := properties[p.key := p.value];
      }
      i := i + 1;
    }
    return Success(properties);
  }

  /** Adding succeeds exactly when the properties agree with the map and with each other, and then
      the map holds both. */
  lemma {:induction false} AddingIsUnion(known: map<string, string>, ps: seq<Property>)
    ensures AddProperties(known, ps).Success? <==> Agreeing(Facts(known) + Collected(ps))
    ensures AddProperties(known, ps).Success? ==>
              Facts(AddProperties(known, ps).value) == Facts(known) + Collected(ps)
    decreases |ps|
  {
    if ps != [] {
      var p := ps[0];
      assert Collected(ps) == {p} + Collected(ps[1..]);
      if p.key in known && known[p.key] != p.value {
        assert Property(p.key, known[p.key]) in Facts(known) && p in Collected(ps);
      } else {
        FactsAfter(known, p);
        assert Facts(known) + Collected(ps) == Facts(known[p.key := p.value]) + Collected(ps[1..]);
        AddingIsUnion(known[p.key := p.value], ps[1..]);
      }
    } else {
      assert Facts(known) + Collected(ps) == Facts(known);
    }
  }

  lemma FactsAfter(known: map<string, string>, p: Property)
    requires p.key in known ==> known[p.key] == p.value
    ensures Facts(known[p.key := p.value]) == Facts(known) + {p}
  {
    forall q: Property
      ensures q in Facts(known[p.key := p.value]) <==> q in Facts(known) || q == p
    {
      assert q == p <==> q.key == p.key && q.value == p.value;
    }
  }

  lemma FactsDetermine(a: map<string, string>, b: map<string, string>)
    requires Facts(a) == Facts(b)
    ensures a == b
  {
    assert forall k :: k in a ==> Property(k, a[k]) in Facts(a);
    assert forall k :: k in b ==> Property(k, b[k]) in Facts(b);
  }

  /** The round trip of property maps: parsing a printed map gives the map back exactly when no
      key and no value in it ends in an odd run of backslashes. */
  lemma PropertiesRoundTrip(m: map<string, string>)
    requires ShapedMap(m)
    ensures ParsedInto(map[], Printed(m)) == Success(m) <==> StableMap(m)
  {
    if StableMap(m) {
      StableReadsBack(m);
      AddingListing(m);
    } else if Entries(Printed(m)).Success? {
      UnstableLosesKeys(m);
      var read := Entries(Printed(m)).value;
      if AddProperties(map[], read).Success? {
        AddingKeys(map[], read);
      }
    }
  }

  /** The text a property can come from: the final blank hides a dangling backslash of the value from
      the continuation rule, and the blank after a dangling key is escaped and then trimmed away. */
  function SourceOf(p: Property): string {
    p.key + (if OddTail(p.key) then " =" else "=") + p.value + " "
  }

  lemma TrimDropsBlank(line: string)
    requires line != [] && Trimmed(line)
    ensures Trim(line + " ") == line
  {
    assert (line + " ")[..|line|] == line;
    assert TrimStart(line + " ") == line + " ";
    TrimEndIsPrefix(line);
  }

  lemma SourceParses(p: Property)
    requires KeyShape(p.key) && ValueShape(p.value)
    ensures ParseEntry(SourceOf(p)) == Success(Some(p))
  {
    var head := p.key + if OddTail(p.key) then " " else "";
    var line := head + "=" + p.value;
    assert line[0] == p.key[0] && Trimmed(line);
    TrimDropsBlank(line);
    assert SourceOf(p) == line + " ";
    HeadIsClosed(p.key);
    SeparatorAfter(head, p.value);
    HeadTrims(p.key);
    TrimKeepsMiddle(p.value);
    EntryCut(SourceOf(p), |head|);
  }

  lemma HeadTrims(key: string)
    requires KeyShape(key)
    ensures TrimEnd(key + if OddTail(key) then " " else "") == key
  {
    var head := key + if OddTail(key) then " " else "";
    TrimEndIsPrefix(key);
    assert head[..|key|] == key;
  }

  lemma HeadIsClosed(key: string)
    requires KeyShape(key)
    ensures var head := key + if OddTail(key) then " " else "";
            !OddTail(head) && forall i :: 0 <= i < |head| ==> !SeparatorAt(head, i)
  {
    var head := key + if OddTail(key) then " " else "";
    forall i | 0 <= i < |head|
      ensures !SeparatorAt(head, i)
    {
      if i < |key| {
        assert head[..i] == key[..i] && head[i] == key[i] && !SeparatorAt(key, i);
      } else {
        assert head[..i] == key;
      }
    }
    assert if OddTail(key) then head[|head| - 1] == ' ' else head == key;
  }

  /** The shapes are exact: every property of that shape, the unstable ones included, is read from
      some file. */
  lemma EveryShapeArises(p: Property)
    requires KeyShape(p.key) && ValueShape(p.value)
    ensures Entries(SourceOf(p)) == Success([p])
  {
    var raw := SourceOf(p);
    SourceParses(p);
    OneLine(raw);
    assert raw[|raw| - 1] == ' ';
    assert EntriesFrom([raw][1..], []) == Success([]);
    assert [p] + [] == [p];
  }

  /** So reading, printing and reading again can fail: one file with such a value. */
  lemma UnreadableAfterPrinting()
    ensures var m := map["a" := "b\\"];
            && ParsedInto(map[], "a=b\\ ") == Success(m)
            && ParsedInto(map[], Printed(m)) != Success(m)
  {
    var m := map["a" := "b\\"];
    var p := Property("a", "b\\");
    assert p.key[..0] == [] && p.value[..1] == "b";
    assert !OddTail("a") && !OddTail("b") && OddTail(p.value);
    assert SourceOf(p) == "a=b\\ ";
    EveryShapeArises(p);
    assert AddProperties(map[], [p]) == Success(m);
    PropertiesRoundTrip(m);
  }

  lemma AddingListing(m: map<string, string>)
    ensures AddProperties(map[], Listing(m)) == Success(m)
  {
    assert Facts(m) == Collected(Listing(m));
    AddingIsUnion(map[], Listing(m));
    assert Facts(map[]) + Collected(Listing(m)) == Facts(m);
    FactsDetermine(AddProperties(map[], Listing(m)).value, m);
  }

  lemma AddingKeys(known: map<string, string>, ps: seq<Property>)
    requires AddProperties(known, ps).Success?
    ensures AddProperties(known, ps).value.Keys == known.Keys + KeysOf(ps)
  {
    AddingIsUnion(known, ps);
    var after := AddProperties(known, ps).value;
    assert forall k :: k in after ==> Property(k, after[k]) in Facts(after);
    assert forall k :: k in known ==> Property(k, known[k]) in Facts(after);
  }

  // ------------------------------------------------------------------ property lists

  type Lists = map<string, set<string>>

  /** The items of a comma-separated list. */
  function Items(value: string): set<string> {
    set piece | piece in SplitCommas(value) && Trim(piece) != [] :: Trim(piece)
  }

  predicate ItemShape(item: string) {
    item != [] && Trimmed(item) && ',' !in item && '\n' !in item
  }

  predicate ShapedLists(lists: Lists) {
    forall k :: k in lists ==> KeyShape(k) && forall item :: item in lists[k] ==> ItemShape(item)
  }

  function Get(lists: Lists, key: string): set<string> {
    if key in lists then lists[key] else {}
  }

  function AddLists(known: Lists, ps: seq<Property>): Lists
    decreases |ps|
  {
    if ps == [] then known
    else AddLists(known[ps[0].key := Get(known, ps[0].key) + Items(ps[0].value)], ps[1..])
  }

  function ListsParsedInto(known: Lists, text: string): Result<Lists, PropertyError> {
    var ps :- Entries(text);
    Success(AddLists(known, ps))
  }

  method ParsePropertyLists(known: Lists, text: string) returns (result: Result<Lists, PropertyError>)
    ensures result == ListsParsedInto(known, text)
  {
    var entries := PropertyEntries(text);
    if entries.Failure? {
      return Failure(entries.error);
    }
    var ps, lists := entries.value, known;
    var i := 0;
    assert ps[0..] == ps;
    while i < |ps|
      invariant 0 <= i <= |ps|
      invariant AddLists(known, ps) == AddLists(lists, ps[i..])
    {
      assert ps[i..][1..] == ps[i + 1..];
      lists := lists[ps[i].key := Get(lists, ps[i].key) + Items(ps[i].value)];
      i := i + 1;
    }
    return Success(lists);
  }

  /** The items that some property of the listing gives to a key. */
  function ItemsFor(ps: seq<Property>, key: string): set<string>
    decreases |ps|
  {
    if ps == [] then {} else (if ps[0].key == key then Items(ps[0].value) else {}) + ItemsFor(ps[1..], key)
  }

  /** Lists collect, per key, the items of every property with that key. */
  lemma {:induction false} AddingLists(known: Lists, ps: seq<Property>, key: string)
    ensures key in AddLists(known, ps) <==> key in known || key in KeysOf(ps)
    ensures Get(AddLists(known, ps), key) == Get(known, key) + ItemsFor(ps, key)
    decreases |ps|
  {
    if ps != [] {
      var p := ps[0];
      AddingLists(known[p.key := Get(known, p.key) + Items(p.value)], ps[1..], key);
      assert KeysOf(ps) == {p.key} + KeysOf(ps[1..]);
    }
  }

  /** An item of a key comes from some property with that key. */
  lemma {:induction false} ItemsForIs(ps: seq<Property>, key: string, item: string)
    ensures item in ItemsFor(ps, key) <==> exists p :: p in ps && p.key == key && item in Items(p.value)
  {
    if ps != [] {
      ItemsForIs(ps[1..], key, item);
      assert ps == [ps[0]] + ps[1..];
    }
  }

  /** The map of strings that a map of lists is printed as. */
  function Flat(lists: Lists): map<string, string> {
    map k | k in lists :: JoinCommas(Ascending(lists[k]))
  }

  lemma {:induction false} JoinedShape(items: seq<string>)
    requires forall item :: item in items ==> ItemShape(item)
    ensures ValueShape(JoinCommas(items))
    ensures items != [] ==> ItemShape(items[0]) && JoinCommas(items) != [] && JoinCommas(items)[0] == items[0][0]
    ensures items != [] ==> OddTail(JoinCommas(items)) == OddTail(Last(items))
  {
    if |items| > 1 {
      assert items[0] in items;
      JoinedShape(items[1..]);
      TailAfterComma(items[0], JoinCommas(items[1..]));
    } else if |items| == 1 {
      assert items[0] in items;
    }
  }

  lemma {:induction false} TailAfterComma(prefix: string, value: string)
    ensures OddTail(prefix + "," + value) == OddTail(value)
  {
    var s := prefix + "," + value;
    if value == [] {
      assert s[|s| - 1] == ',';
    } else {
      TailAfterComma(prefix, value[..|value| - 1]);
      assert s[..|s| - 1] == prefix + "," + value[..|value| - 1];
    }
  }

  lemma ItemsOfJoined(items: set<string>)
    requires forall item :: item in items ==> ItemShape(item)
    ensures Items(JoinCommas(Ascending(items))) == items
  {
    var listing := Ascending(items);
    if listing != [] {
      SplitJoined(listing);
      forall item | item in listing
        ensures Trim(item) == item && item != []
      {
        assert ItemShape(item);
        TrimKeepsMiddle(item);
      }
    } else {
      assert items == {};
      assert SplitCommas("") == [""];
    }
  }

  function Last(items: seq<string>): string
    requires items != []
  {
    items[|items| - 1]
  }

  /** No key dangles, and neither does the greatest item of any list: the only item that is printed
      at the end of a line. */
  predicate StableLists(lists: Lists) {
    forall k :: k in lists ==>
      !OddTail(k) && (Ascending(lists[k]) != [] ==> !OddTail(Last(Ascending(lists[k]))))
  }

  lemma FlatShape(lists: Lists)
    requires ShapedLists(lists)
    ensures ShapedMap(Flat(lists))
    ensures StableLists(lists) <==> StableMap(Flat(lists))
  {
    forall k | k in lists
      ensures ValueShape(Flat(lists)[k])
      ensures (Ascending(lists[k]) != [] ==> !OddTail(Last(Ascending(lists[k])))) <==> !OddTail(Flat(lists)[k])
    {
      JoinedShape(Ascending(lists[k]));
    }
  }

  /** The round trip of property lists. */
  lemma ListsRoundTrip(lists: Lists)
    requires ShapedLists(lists)
    ensures ListsParsedInto(map[], Printed(Flat(lists))) == Success(lists) <==> StableLists(lists)
  {
    var flat := Flat(lists);
    FlatShape(lists);
    if StableLists(lists) {
      StableReadsBack(flat);
      ListingLists(lists);
    } else if Entries(Printed(flat)).Success? {
      UnstableLosesKeys(flat);
      var read := Entries(Printed(flat)).value;
      var k :| k in KeysOf(read) <==> k !in flat.Keys;
      AddingLists(map[], read, k);
      assert k in AddLists(map[], read) <==> k !in lists;
    }
  }

  lemma KeysOfListing(m: map<string, string>)
    ensures KeysOf(Listing(m)) == m.Keys
  {
    assert forall k :: k in m ==> Property(k, m[k]) in Listing(m);
  }

  lemma ListingLists(lists: Lists)
    requires ShapedLists(lists)
    ensures AddLists(map[], Listing(Flat(lists))) == lists
  {
    forall k: string
      ensures SameAt(AddLists(map[], Listing(Flat(lists))), lists, k)
    {
      ListingListsAt(lists, k);
    }
    SameEverywhere(AddLists(map[], Listing(Flat(lists))), lists);
  }

  predicate SameAt(a: Lists, b: Lists, key: string) {
    (key in a <==> key in b) && Get(a, key) == Get(b, key)
  }

  lemma SameEverywhere(a: Lists, b: Lists)
    requires forall k: string :: SameAt(a, b, k)
    ensures a == b
  {
    forall k: string
      ensures k in a <==> k in b
      ensures k in a && k in b ==> a[k] == b[k]
    {
      assert SameAt(a, b, k);
    }
  }

  lemma ListingListsAt(lists: Lists, key: string)
    requires ShapedLists(lists)
    ensures SameAt(AddLists(map[], Listing(Flat(lists))), lists, key)
  {
    var ps := Listing(Flat(lists));
    KeysOfListing(Flat(lists));
    AddingLists(map[], ps, key);
    if key in lists {
      ListedItems(lists, key);
    } else {
      ItemsNeedKey(ps, key);
    }
  }

  lemma {:induction false} ItemsNeedKey(ps: seq<Property>, key: string)
    requires key !in KeysOf(ps)
    ensures ItemsFor(ps, key) == {}
  {
    if ps != [] {
      assert ps[0].key in KeysOf(ps) && KeysOf(ps[1..]) <= KeysOf(ps);
      ItemsNeedKey(ps[1..], key);
    }
  }

  lemma ListedItems(lists: Lists, key: string)
    requires ShapedLists(lists) && key in lists
    ensures ItemsFor(Listing(Flat(lists)), key) == lists[key]
  {
    var ps := Listing(Flat(lists));
    var p := Property(key, Flat(lists)[key]);
    assert p in ps;
    ItemsOfJoined(lists[key]);
    forall item
      ensures item in ItemsFor(ps, key) <==> item in lists[key]
    {
      ItemsForIs(ps, key, item);
      assert forall q :: q in ps && q.key == key ==> q == p;
    }
  }

  lemma ItemsAreShaped(value: string)
    requires '\n' !in value
    ensures forall item :: item in Items(value) ==> ItemShape(item)
  {
    forall item | item in Items(value)
      ensures ItemShape(item)
    {
      var piece :| piece in SplitCommas(value) && Trim(piece) == item;
      PiecesComeFrom(value, '\n');
      TrimKeepsMiddle(piece);
      TrimAddsNothing(piece, '\n');
      TrimAddsNothing(piece, ',');
    }
  }
}
