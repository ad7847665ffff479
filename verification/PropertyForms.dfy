/** The forms a property can be written in: what one logical line says, read off the line. */
module PropertyForms {
  import opened Wrappers
  import opened Text
  import opened PropertyText
  import opened PropertyLines

  /** Neither blank nor a comment. */
  predicate Says(line: string) {
    line != [] && line[0] != '#' && line[0] != '!'
  }

  /** Key and value with what separates them: blanks, then perhaps one `=` or `:`, then blanks. After a
      key that ends in an odd run of backslashes the first blank is escaped: it separates nothing, but it
      does not belong to the key either. Without `=` or `:` the value cannot begin with one. */
  predicate Splits(line: string, key: string, left: string, mark: string, right: string, value: string) {
    && line == key + (left + (mark + (right + value)))
    && AllBlank(left) && AllBlank(right)
    && (mark == "" || mark == "=" || mark == ":")
    && (mark == "" ==> left != [] && right == [] && value != [] && value[0] != '=' && value[0] != ':')
    && (OddTail(key) ==> left != [] && (mark == "" ==> |left| >= 2))
  }

  ghost predicate Spells(line: string, key: string, value: string) {
    exists left, mark, right :: Splits(line, key, left, mark, right, value)
  }

  // ------------------------------------------------------------------ where the key ends

  /** The place of the separator behind a key. */
  function KeyEnd(key: string): nat {
    if OddTail(key) then |key| + 1 else |key|
  }

  lemma SeparatorBehindKey(line: string, key: string, left: string, mark: string, right: string, value: string)
    requires KeyShape(key) && Splits(line, key, left, mark, right, value)
    ensures KeyEnd(key) < |line| && FindSeparator(line, 0, false) == KeyEnd(key)
    ensures line[..KeyEnd(key)] == key + left[..KeyEnd(key) - |key|]
  {
    var gap := left + (mark + (right + value));
    assert line[..|key|] == key && line[|key|..] == gap;
    forall i | 0 <= i < |key|
      ensures !SeparatorAt(line, i)
    {
      assert line[..i] == key[..i] && line[i] == key[i] && !SeparatorAt(key, i);
    }
    if OddTail(key) {
      BehindEscape(line, key, left, mark, right, value);
    } else {
      assert line[|key|] == gap[0];
    }
    SeparatorFound(line, KeyEnd(key));
  }

  lemma BehindEscape(line: string, key: string, left: string, mark: string, right: string, value: string)
    requires KeyShape(key) && OddTail(key) && Splits(line, key, left, mark, right, value)
    ensures |key| + 1 < |line| && !SeparatorAt(line, |key|) && SeparatorAt(line, |key| + 1)
    ensures line[..|key| + 1] == key + left[..1]
  {
    var gap := left + (mark + (right + value));
    assert line[..|key|] == key && line[|key|] == gap[0] == left[0] && line[|key| + 1] == gap[1];
    var front := line[..|key| + 1];
    assert front == key + left[..1] && front[|front| - 1] == left[0];
  }

  /** What an entry is once the place of the separator is known. */
  function EntryAt(line: string, index: nat): Result<Option<Property>, PropertyError>
    requires index <= |line|
  {
    if index == |line| then Failure(UnsupportedSyntax)
    else
      var key, value := TrimEnd(line[..index]), line[index + 1..];
      if key == [] then Failure(EmptyKey)
      else Success(Some(Property(key, Trim(if IsWhitespace(line[index]) then AfterBlank(value) else value))))
  }

  lemma EntryIsAt(raw: string)
    requires Says(Trim(raw))
    ensures ParseEntry(raw) == EntryAt(Trim(raw), FindSeparator(Trim(raw), 0, false))
  {
  }

  // ------------------------------------------------------------------ what is spelled is read

  lemma SpellingIsRead(raw: string, p: Property)
    requires KeyShape(p.key) && ValueShape(p.value) && Spells(Trim(raw), p.key, p.value)
    ensures ParseEntry(raw) == Success(Some(p))
  {
    var line := Trim(raw);
    var left, mark, right :| Splits(line, p.key, left, mark, right, p.value);
    SplitsSay(line, p, left, mark, right);
    EntryIsAt(raw);
    SplitIsRead(line, p, left, mark, right);
  }

  lemma SplitsSay(line: string, p: Property, left: string, mark: string, right: string)
    requires KeyShape(p.key) && Splits(line, p.key, left, mark, right, p.value)
    ensures Says(line)
  {
    assert line[0] == p.key[0];
  }

  lemma SplitIsRead(line: string, p: Property, left: string, mark: string, right: string)
    requires KeyShape(p.key) && ValueShape(p.value) && Splits(line, p.key, left, mark, right, p.value)
    ensures EntryAt(line, FindSeparator(line, 0, false)) == Success(Some(p))
  {
    SeparatorBehindKey(line, p.key, left, mark, right, p.value);
    KeyIsRead(p.key, left[..KeyEnd(p.key) - |p.key|]);
    ValueIsRead(line, p.key, left, mark, right, p.value);
  }

  lemma KeyIsRead(key: string, blanks: string)
    requires KeyShape(key) && AllBlank(blanks)
    ensures TrimEnd(key + blanks) == key
  {
    TrimEndDropsBlank(key, blanks);
    TrimEndIsPrefix(key);
  }

  lemma ValueIsRead(line: string, key: string, left: string, mark: string, right: string, value: string)
    requires KeyShape(key) && ValueShape(value) && Splits(line, key, left, mark, right, value)
    requires KeyEnd(key) < |line|
    ensures var rest := line[KeyEnd(key) + 1..];
            Trim(if IsWhitespace(line[KeyEnd(key)]) then AfterBlank(rest) else rest) == value
  {
    var skipped := KeyEnd(key) - |key|;
    var gap := left + (mark + (right + value));
    assert line[KeyEnd(key)] == gap[skipped] && line[KeyEnd(key) + 1..] == gap[skipped + 1..];
    if skipped < |left| {
      assert gap[skipped + 1..] == left[skipped + 1..] + (mark + (right + value));
      BehindBlanks(left[skipped + 1..], mark, right, value);
    } else {
      assert gap[skipped + 1..] == right + value;
      ValueBehind(right, value);
    }
  }

  lemma ValueBehind(right: string, value: string)
    requires AllBlank(right) && Trimmed(value)
    ensures Trim(right + value) == value
  {
    TrimExact(right, value, "");
    assert value + "" == value;
  }

  lemma BehindBlanks(left: string, mark: string, right: string, value: string)
    requires AllBlank(left) && AllBlank(right) && Trimmed(value)
    requires mark == "" || mark == "=" || mark == ":"
    requires mark == "" ==> right == [] && value != [] && value[0] != '=' && value[0] != ':'
    ensures Trim(AfterBlank(left + (mark + (right + value)))) == value
  {
    var rest := mark + (right + value);
    TrimStartBlank(left);
    TrimStartBefore(left, rest);
    assert [] + rest == rest;
    ValueBehind(right, value);
    if mark == "" {
      assert rest == value;
    } else {
      assert rest[1..] == right + value;
    }
  }

  // ------------------------------------------------------------------ what is read is spelled

  lemma EntryIsSpelled(raw: string, p: Property)
    requires ParseEntry(raw) == Success(Some(p))
    ensures Spells(Trim(raw), p.key, p.value)
  {
    var line := Trim(raw);
    EntryIsAt(raw);
    TrimKeepsMiddle(raw);
    SeparatorFoundIs(line);
    ReadIsSpelled(line, FindSeparator(line, 0, false), p);
  }

  lemma SeparatorFoundIs(line: string)
    ensures var index := FindSeparator(line, 0, false); index < |line| ==> SeparatorAt(line, index)
  {
    assert line[..0] == [];
    FirstUnescaped(line, 0);
  }

  lemma ReadIsSpelled(line: string, index: nat, p: Property)
    requires Trimmed(line) && index < |line| && SeparatorAt(line, index) && EntryAt(line, index) == Success(Some(p))
    ensures Spells(line, p.key, p.value)
  {
    var blanks := TrimEndParts(line[..index]);
    var rest := line[index + 1..];
    CutAt(line, index);
    Regroup(p.key, blanks, [line[index]] + rest);
    assert blanks == [] ==> p.key + blanks == p.key;
    if IsWhitespace(line[index]) {
      BlankIsSpelled(line, p.key, blanks, line[index], rest, p.value);
    } else {
      MarkIsSpelled(line, p.key, blanks, [line[index]], rest, p.value);
    }
  }

  lemma FirstAndRest(s: string)
    requires s != []
    ensures s == [s[0]] + s[1..]
  {
  }

  lemma NoMark(s: string)
    ensures "" + ("" + s) == s
  {
  }

  lemma CutAt(line: string, index: nat)
    requires index < |line|
    ensures line == line[..index] + ([line[index]] + line[index + 1..])
  {
  }

  lemma MarkIsSpelled(line: string, key: string, blanks: string, mark: string, rest: string, value: string)
    requires line == key + (blanks + (mark + rest)) && AllBlank(blanks) && (mark == "=" || mark == ":")
    requires (OddTail(key) ==> blanks != []) && value == Trim(rest)
    requires rest != [] ==> !IsWhitespace(rest[|rest| - 1])
    ensures Spells(line, key, value)
  {
    var right := TrimStartParts(rest);
    LastStays(rest);
    assert Splits(line, key, blanks, mark, right, value);
  }

  /** Text that does not end in a blank is only trimmed in front. */
  lemma LastStays(s: string)
    requires s != [] ==> !IsWhitespace(s[|s| - 1])
    ensures Trim(s) == TrimStart(s)
  {
    TrimStartIsSuffix(s);
    TrimEndIsPrefix(TrimStart(s));
  }

  lemma BlankRuns(blanks: string, blank: char, more: string)
    requires AllBlank(blanks) && IsWhitespace(blank) && AllBlank(more)
    ensures AllBlank(blanks + ([blank] + more)) && |blanks + ([blank] + more)| >= |blanks| + 1
  {
  }

  lemma EndStays(s: string)
    requires s != [] && !IsWhitespace(s[|s| - 1])
    ensures TrimStart(s) != [] && TrimStart(s)[|TrimStart(s)| - 1] == s[|s| - 1] && !IsWhitespace(TrimStart(s)[0])
  {
    var left := TrimStartParts(s);
    TrimStartIsSuffix(s);
    assert TrimStart(s) == [] ==> left == s;
  }

  lemma BlankIsSpelled(line: string, key: string, blanks: string, blank: char, rest: string, value: string)
    requires line == key + (blanks + ([blank] + rest)) && AllBlank(blanks) && IsWhitespace(blank)
    requires (OddTail(key) ==> blanks != []) && value == Trim(AfterBlank(rest))
    requires rest != [] && !IsWhitespace(rest[|rest| - 1])
    ensures Spells(line, key, value)
  {
    var more := TrimStartParts(rest);
    var trimmed, left := TrimStart(rest), blanks + ([blank] + more);
    Regroup([blank], more, trimmed);
    Regroup(blanks, [blank] + more, trimmed);
    BlankRuns(blanks, blank, more);
    EndStays(rest);
    if trimmed[0] == '=' || trimmed[0] == ':' {
      FirstAndRest(trimmed);
      MarkIsSpelled(line, key, left, [trimmed[0]], trimmed[1..], value);
    } else {
      LastStays(trimmed);
      NoMark(trimmed);
      assert Splits(line, key, left, "", "", value);
    }
  }

  // ------------------------------------------------------------------ one logical line

  /** What a logical line says: the property it spells; nothing when it is blank or a comment; an error
      when it begins with a separator, or has none that is not escaped. */
  lemma EntryExact(raw: string)
    requires '\n' !in raw
    ensures forall p: Property ::
              ParseEntry(raw) == Success(Some(p))
              <==> Says(Trim(raw)) && KeyShape(p.key) && ValueShape(p.value) && Spells(Trim(raw), p.key, p.value)
    ensures ParseEntry(raw) == Success(None) <==> !Says(Trim(raw))
    ensures ParseEntry(raw) == Failure(EmptyKey) <==> Says(Trim(raw)) && (Trim(raw)[0] == '=' || Trim(raw)[0] == ':')
    ensures ParseEntry(raw) == Failure(UnsupportedSyntax)
            <==> Says(Trim(raw)) && forall i :: 0 <= i < |Trim(raw)| ==> !SeparatorAt(Trim(raw), i)
  {
    forall p: Property
      ensures ParseEntry(raw) == Success(Some(p))
              <==> Says(Trim(raw)) && KeyShape(p.key) && ValueShape(p.value) && Spells(Trim(raw), p.key, p.value)
    {
      if ParseEntry(raw) == Success(Some(p)) {
        EntryShape(raw);
        EntryIsSpelled(raw, p);
      } else if KeyShape(p.key) && ValueShape(p.value) && Spells(Trim(raw), p.key, p.value) {
        SpellingIsRead(raw, p);
      }
    }
    var line := Trim(raw);
    TrimKeepsMiddle(raw);
    assert line[..0] == [];
    FirstUnescaped(line, 0);
    if Says(line) {
      EmptyKeyWhenFirst(line, FindSeparator(line, 0, false));
    }
  }

  lemma EmptyKeyWhenFirst(line: string, index: nat)
    requires Says(line) && Trimmed(line) && index <= |line| && FindSeparator(line, 0, false) == index
    ensures index < |line| ==> (TrimEnd(line[..index]) == [] <==> line[0] == '=' || line[0] == ':')
    ensures line[0] == '=' || line[0] == ':' ==> index == 0
  {
    TrimEndIsPrefix(line[..index]);
    assert line[..0] == [];
    FirstUnescaped(line, 0);
    if line[0] == '=' || line[0] == ':' {
      assert SeparatorAt(line, 0);
      SeparatorFound(line, 0);
    }
    assert forall k :: 0 <= k < index ==> line[..index][k] == line[k];
  }
}
