/** The lines of a service registry, read off its text. */
module RegistryLines {
  import opened Order
  import opened Text
  import opened Wrappers
  import opened PropertyLines
  import opened FatArchives

  /** A line of the text is this one between blanks. */
  predicate StandsIn(text: string, before: string, left: string, line: string, right: string, after: string) {
    && text == before + (left + (line + right) + after) && FullLines(before) && EndsLine(after)
    && AllBlank(left) && AllBlank(right) && Trimmed(line)
    && '\n' !in left && '\n' !in line && '\n' !in right
  }

  /** A registry declares exactly what stands alone on a line of it, is not empty and is no comment. */
  lemma DeclaredLines(text: string, line: string)
    ensures line in LineSet(text)
            <==> line != [] && line[0] != '#'
                 && exists before, left, right, after :: StandsIn(text, before, left, line, right, after)
  {
    if line in LineSet(text) {
      var raw :| raw in Lines(text) && Declares(Trim(raw)) && Trim(raw) == line;
      LineStands(text, raw);
    }
    if before, left, right, after :| StandsIn(text, before, left, line, right, after) && line != [] {
      StandingIsRead(text, before, left, line, right, after);
    }
  }

  /** A printed registry has exactly its lines, ascending, one to a line. */
  lemma RegisteredInOrder(lines: set<string>)
    requires forall line <- lines :: LineShape(line)
    ensures Lines(Registered(lines)) == Ascending(lines)
  {
    FatArchives.RegistryLines(Ascending(lines));
  }

  /** The entry of a service registry declares what the entry had declared and what the new text does. */
  lemma ServiceEntriesUnite(name: string, existing: Option<string>, text: string, line: string)
    requires LiesBetween(name, "META-INF/services/", "") || LiesBetween(name, "META-INF/spring/", ".imports")
             || LiesBetween(name, "META-INF/spring/", ".includes")
    ensures Merged(StrategyOf(name), name, existing, text).Success?
    ensures line in LineSet(Merged(StrategyOf(name), name, existing, text).value)
            <==> line in LineSet(text) || (existing.Some? && line in LineSet(existing.value))
  {
    LineNames(name);
    var former := if existing.Some? then existing.value else "";
    LineSetShape(former);
    LineSetShape(text);
    LineRegistryRoundTrip(LineSet(former) + LineSet(text));
  }

  lemma LineStands(text: string, raw: string)
    requires raw in Lines(text)
    ensures exists before, left, right, after :: StandsIn(text, before, left, Trim(raw), right, after)
  {
    var before, whole, after := PlaceOf(text, raw);
    var left, right := TrimParts(raw);
    TrimKeepsMiddle(raw);
    var end := EndAfter(left, Trim(raw), right, raw, whole);
    assert StandsIn(text, before, left, Trim(raw), end, after);
  }

  lemma EndAfter(left: string, middle: string, right: string, raw: string, whole: string) returns (end: string)
    requires raw == left + (middle + right) && (whole == raw || whole == raw + "\r")
    requires AllBlank(right) && '\n' !in raw
    ensures whole == left + (middle + end) && AllBlank(end) && '\n' !in end
  {
    end := if whole == raw then right else right + "\r";
    Regroup(left, middle + right, "\r");
    Regroup(middle, right, "\r");
  }

  /** Where a line that is read stands in the text. */
  lemma {:induction false} PlaceOf(text: string, raw: string) returns (before: string, whole: string, after: string)
    requires raw in Lines(text)
    ensures text == before + (whole + after) && FullLines(before) && EndsLine(after) && '\n' !in whole
    ensures whole == raw || whole == raw + "\r"
    decreases |text|
  {
    var n := LineLength(text);
    if n == |text| {
      before, whole, after := "", text, "";
      assert text[..n] == text;
    } else if raw == DropReturn(text[..n]) {
      before, whole, after := "", text[..n], text[n..];
    } else {
      var rest;
      rest, whole, after := PlaceOf(text[n + 1..], raw);
      before := text[..n + 1] + rest;
      AfterFirst(text, n, rest, whole + after);
    }
  }

  lemma AfterFirst(text: string, n: nat, rest: string, end: string)
    requires n < |text| && text[n] == '\n' && text[n + 1..] == rest + end && FullLines(rest)
    ensures text == text[..n + 1] + rest + end && FullLines(text[..n + 1] + rest)
  {
  }

  lemma StandingIsRead(text: string, before: string, left: string, line: string, right: string, after: string)
    requires StandsIn(text, before, left, line, right, after) && line != []
    ensures exists raw :: raw in Lines(text) && Trim(raw) == line
  {
    var whole := left + (line + right);
    LinesAfter(before, whole + after);
    LineEnds(whole, after);
    var raw := Ended(whole, after);
    assert raw in Lines(whole + after);
    ReturnIsOutside(left, line, right);
    TrimExact(left, line, right);
    TrimExact(left, line, DropReturn(right));
  }

  lemma ReturnIsOutside(left: string, line: string, right: string)
    requires line != [] && Trimmed(line)
    ensures DropReturn(left + (line + right)) == left + (line + DropReturn(right))
  {
    if right == [] {
      assert line + right == line;
    } else {
      var whole := left + (line + right);
      assert whole[..|whole| - 1] == left + (line + right[..|right| - 1]);
    }
  }
}
