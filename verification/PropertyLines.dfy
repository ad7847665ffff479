/** Properties that are continued over several physical lines: reading them is reading the text in
    which they stand on one line. */
module PropertyLines {
  import opened Wrappers
  import opened Text
  import opened PropertyText

  predicate AllBlank(s: string) {
    forall i :: 0 <= i < |s| ==> IsWhitespace(s[i])
  }

  /** The text is empty or ends in a line feed. */
  predicate FullLines(text: string) {
    text != [] ==> text[|text| - 1] == '\n'
  }

  /** What follows a line: nothing, or a line feed and more. */
  predicate EndsLine(after: string) {
    after != [] ==> after[0] == '\n'
  }

  // ------------------------------------------------------------------ runs of backslashes

  lemma {:induction false} TailOfJoined(front: string, s: string)
    requires !OddTail(front)
    ensures OddTail(front + s) == OddTail(s)
  {
    if s == [] {
      assert front + s == front;
    } else {
      var joined := front + s;
      TailOfJoined(front, s[..|s| - 1]);
      assert joined[..|joined| - 1] == front + s[..|s| - 1];
    }
  }

  lemma {:induction false} TailOfTrimmed(s: string)
    ensures OddTail(TrimStart(s)) == OddTail(s)
  {
    if s != [] && IsWhitespace(s[0]) {
      TailOfTrimmed(s[1..]);
      TailOfJoined([s[0]], s[1..]);
      assert s == [s[0]] + s[1..];
    }
  }

  // ------------------------------------------------------------------ trimming

  lemma {:induction false} TrimStartBefore(s: string, rest: string)
    requires rest != [] ==> !IsWhitespace(rest[0])
    ensures TrimStart(s + rest) == TrimStart(s) + rest
  {
    if s != [] {
      assert (s + rest)[1..] == s[1..] + rest;
      TrimStartBefore(s[1..], rest);
    } else {
      assert s + rest == rest;
    }
  }

  lemma {:induction false} TrimStartBlank(s: string)
    requires AllBlank(s)
    ensures TrimStart(s) == []
  {
    if s != [] {
      TrimStartBlank(s[1..]);
    }
  }

  lemma {:induction false} TrimStartAddsBlank(s: string, blank: char)
    requires IsWhitespace(blank)
    ensures TrimStart(s + [blank]) == if TrimStart(s) == [] then [] else TrimStart(s) + [blank]
  {
    if s == [] {
      assert s + [blank] == [blank];
      assert [blank][1..] == [];
    } else {
      assert (s + [blank])[1..] == s[1..] + [blank];
      TrimStartAddsBlank(s[1..], blank);
    }
  }

  lemma TrimDropsLast(s: string, blank: char)
    requires IsWhitespace(blank)
    ensures Trim(s + [blank]) == Trim(s)
  {
    TrimStartAddsBlank(s, blank);
    var start := TrimStart(s);
    assert (start + [blank])[..|start|] == start;
  }

  lemma LastOfJoined(s: string, t: string)
    requires t != []
    ensures var joined := s + t;
            joined != [] && joined[|joined| - 1] == t[|t| - 1] && joined[..|joined| - 1] == s + t[..|t| - 1]
  {
  }

  lemma {:induction false} TrimEndDropsBlank(s: string, blanks: string)
    requires AllBlank(blanks)
    ensures TrimEnd(s + blanks) == TrimEnd(s)
    decreases |blanks|
  {
    if blanks == [] {
      assert s + blanks == s;
    } else {
      var n := |blanks| - 1;
      TrimEndDropsBlank(s, blanks[..n]);
      LastOfJoined(s, blanks);
    }
  }

  /** Trimming takes off exactly the blanks around. */
  lemma TrimExact(left: string, middle: string, right: string)
    requires AllBlank(left) && AllBlank(right) && Trimmed(middle)
    ensures Trim(left + (middle + right)) == middle
  {
    TrimStartBlank(left);
    if middle == [] {
      assert middle + right == right;
      TrimStartBlank(left + right);
    } else {
      TrimStartBefore(left, middle + right);
      assert [] + (middle + right) == middle + right;
      TrimEndDropsBlank(middle, right);
      TrimEndIsPrefix(middle);
    }
  }

  lemma FrontGrows(s: string, rest: string, end: string)
    requires s != [] && s[1..] == rest + end
    ensures s == [s[0]] + rest + end && [s[0]] + rest <= s
  {
  }

  lemma {:induction false} TrimStartParts(s: string) returns (left: string)
    ensures AllBlank(left) && left <= s && s == left + TrimStart(s)
  {
    if s != [] && IsWhitespace(s[0]) {
      var rest := TrimStartParts(s[1..]);
      left := [s[0]] + rest;
      FrontGrows(s, rest, TrimStart(s));
    } else {
      left := [];
    }
  }

  lemma TrimParts(s: string) returns (left: string, right: string)
    ensures AllBlank(left) && AllBlank(right) && s == left + (Trim(s) + right)
  {
    left := TrimStartParts(s);
    right := TrimEndParts(TrimStart(s));
  }

  lemma TrimEndParts(s: string) returns (right: string)
    ensures AllBlank(right) && s == TrimEnd(s) + right
  {
    TrimEndIsPrefix(s);
    right := s[|TrimEnd(s)|..];
    forall k | 0 <= k < |right|
      ensures IsWhitespace(right[k])
    {
      assert right[k] == s[|TrimEnd(s)| + k];
    }
  }

  // ------------------------------------------------------------------ one continued line

  /** What reading does with a logical line as far as it is joined, and the lines after it. */
  function ReadOn(joined: string, more: seq<string>): Result<seq<Property>, PropertyError> {
    if OddTail(joined) then EntriesFrom(more, joined[..|joined| - 1])
    else
      var entry :- ParseEntry(joined);
      Prepend(Found(entry), EntriesFrom(more, []))
  }

  lemma ReadsOn(line: string, more: seq<string>, logical: string)
    ensures EntriesFrom([line] + more, logical) == ReadOn(Follow(logical, line), more)
  {
    FirstReads([line] + more, logical);
    assert ([line] + more)[1..] == more;
  }

  lemma FirstReads(lines: seq<string>, logical: string)
    requires lines != []
    ensures EntriesFrom(lines, logical) == ReadOn(Follow(logical, lines[0]), lines[1..])
  {
  }

  /** What a logical line leaves pending: nothing, or what comes before a continuing backslash. */
  function Pending(joined: string): (pending: string)
    ensures !OddTail(pending)
  {
    if OddTail(joined) then joined[..|joined| - 1] else []
  }

  lemma ReadsOnAlike(joined: string, one: seq<string>, other: seq<string>)
    requires EntriesFrom(one, Pending(joined)) == EntriesFrom(other, Pending(joined))
    ensures ReadOn(joined, one) == ReadOn(joined, other)
  {
  }

  function Follow(logical: string, line: string): string {
    if logical == [] then line else logical + TrimStart(line)
  }

  lemma FollowAdds(logical: string, head: string, tail: string)
    requires tail != [] ==> !IsWhitespace(tail[0])
    ensures Follow(logical, head + tail) == Follow(logical, head) + tail
  {
    TrimStartBefore(head, tail);
    Regroup(logical, TrimStart(head), tail);
  }

  lemma Regroup(a: string, b: string, c: string)
    ensures a + (b + c) == a + b + c
  {
  }

  lemma FollowsEvenly(logical: string, head: string)
    requires !OddTail(head) && !OddTail(logical)
    ensures !OddTail(Follow(logical, head))
  {
    TailOfTrimmed(head);
    TailOfJoined(logical, TrimStart(head));
  }

  /** A line that ends in a continuing backslash, and the line after it, are read as one line. */
  lemma JoinedLines(head: string, blanks: string, tail: string, more: seq<string>, logical: string)
    requires head != [] && !OddTail(head) && AllBlank(blanks) && !OddTail(logical)
    requires tail != [] ==> !IsWhitespace(tail[0])
    ensures EntriesFrom([head + "\\"] + ([blanks + tail] + more), logical)
            == EntriesFrom([head + tail] + more, logical)
  {
    var pending := Follow(logical, head);
    FollowsEvenly(logical, head);
    FollowAdds(logical, head, "\\");
    Continues(head + "\\", pending, [blanks + tail] + more, logical);
    FollowAdds(logical, head, tail);
    BlanksFollow(pending, blanks, tail);
    SameFollow(blanks + tail, pending, head + tail, logical, more);
  }

  lemma BlanksFollow(pending: string, blanks: string, tail: string)
    requires pending != [] && AllBlank(blanks)
    requires tail != [] ==> !IsWhitespace(tail[0])
    ensures Follow(pending, blanks + tail) == pending + tail
  {
    TrimStartBlank(blanks);
    TrimStartBefore(blanks, tail);
    assert [] + tail == tail;
  }

  lemma Continues(line: string, pending: string, more: seq<string>, logical: string)
    requires Follow(logical, line) == pending + "\\" && !OddTail(pending)
    ensures EntriesFrom([line] + more, logical) == EntriesFrom(more, pending)
  {
    ReadsOn(line, more, logical);
    assert (pending + "\\")[..|pending|] == pending;
  }

  lemma SameFollow(line: string, logical: string, other: string, logical': string, more: seq<string>)
    requires Follow(logical, line) == Follow(logical', other)
    ensures EntriesFrom([line] + more, logical) == EntriesFrom([other] + more, logical')
  {
    ReadsOn(line, more, logical);
    ReadsOn(other, more, logical');
  }

  /** A carriage return at the end of a line does not show, unless backslashes before it come to light. */
  lemma ReturnDropped(line: string, more: seq<string>, logical: string)
    requires !OddTail(DropReturn(line)) && !OddTail(line) && !OddTail(logical)
    ensures EntriesFrom([line] + more, logical) == EntriesFrom([DropReturn(line)] + more, logical)
  {
    if DropReturn(line) != line {
      var short := DropReturn(line);
      assert line == short + "\r";
      var joined, other := Follow(logical, line), Follow(logical, short);
      TailOfTrimmed(line);
      TailOfTrimmed(short);
      TailOfJoined(logical, TrimStart(line));
      TailOfJoined(logical, TrimStart(short));
      TrimStartAddsBlank(short, '\r');
      TrimDropsLast(other, '\r');
      assert joined == other || joined == other + "\r";
      SameEntry(line, logical, short, logical, more);
    }
  }

  lemma SameEntry(line: string, logical: string, other: string, logical': string, more: seq<string>)
    requires Trim(Follow(logical, line)) == Trim(Follow(logical', other))
    requires !OddTail(Follow(logical, line)) && !OddTail(Follow(logical', other))
    ensures EntriesFrom([line] + more, logical) == EntriesFrom([other] + more, logical')
  {
    ReadsOn(line, more, logical);
    ReadsOn(other, more, logical');
    assert ParseEntry(Follow(logical, line)) == ParseEntry(Follow(logical', other));
  }

  /** Whatever is pending before these lines and those, they are read alike. */
  ghost predicate ReadAlike(one: seq<string>, other: seq<string>) {
    forall l :: !OddTail(l) ==> EntriesFrom(one, l) == EntriesFrom(other, l)
  }

  lemma HeadOff(front: seq<string>, more: seq<string>)
    requires front != []
    ensures front + more == [front[0]] + (front[1..] + more)
  {
  }

  /** Lines before make no difference, whatever they leave pending. */
  lemma {:induction false} AfterLines(front: seq<string>, one: seq<string>, other: seq<string>, logical: string)
    requires ReadAlike(one, other) && !OddTail(logical)
    ensures EntriesFrom(front + one, logical) == EntriesFrom(front + other, logical)
    decreases |front|
  {
    if front == [] {
      assert front + one == one && front + other == other;
    } else {
      var joined := Follow(logical, front[0]);
      AfterLines(front[1..], one, other, Pending(joined));
      ReadsOnAlike(joined, front[1..] + one, front[1..] + other);
      ReadsOn(front[0], front[1..] + one, logical);
      ReadsOn(front[0], front[1..] + other, logical);
      HeadOff(front, one);
      HeadOff(front, other);
    }
  }

  // ------------------------------------------------------------------ texts

  lemma AtFeed(text: string, n: nat)
    requires n < |text| && text[n] == '\n'
    ensures text == text[..n] + ("\n" + text[n + 1..])
  {
  }

  lemma FullLine(line: string, more: string)
    requires '\n' !in line
    ensures Lines(line + ("\n" + more)) == [DropReturn(line)] + Lines(more)
  {
    var text := line + "\n" + more;
    FirstFeed(line, more);
    assert text[..|line|] == line && text[|line| + 1..] == more;
    Regroup(line, "\n", more);
  }

  lemma OneLineMore(line: string, others: string, rest: string)
    requires '\n' !in line && Lines(others + rest) == Lines(others) + Lines(rest)
    ensures Lines(line + ("\n" + others) + rest) == Lines(line + ("\n" + others)) + Lines(rest)
  {
    Regroup(line, "\n" + others, rest);
    Regroup("\n", others, rest);
    FullLine(line, others);
    FullLine(line, others + rest);
    RegroupLines([DropReturn(line)], Lines(others), Lines(rest));
  }

  lemma RegroupLines(a: seq<string>, b: seq<string>, c: seq<string>)
    ensures a + (b + c) == a + b + c
  {
  }

  lemma {:induction false} LinesAfter(before: string, rest: string)
    requires FullLines(before)
    ensures Lines(before + rest) == Lines(before) + Lines(rest)
    decreases |before|
  {
    if before == [] {
      assert before + rest == rest;
    } else {
      var n := LineLength(before);
      assert before[|before| - 1] in before && before[..|before|] == before;
      var line, others := before[..n], before[n + 1..];
      LinesAfter(others, rest);
      OneLineMore(line, others, rest);
      AtFeed(before, n);
    }
  }

  /** How a line is read that `after` follows. */
  function Ended(line: string, after: string): string {
    if after == [] then line else DropReturn(line)
  }

  function Beyond(after: string): string {
    if after == [] then [] else after[1..]
  }

  lemma LineEnds(line: string, after: string)
    requires '\n' !in line && EndsLine(after) && line + after != []
    ensures Lines(line + after) == [Ended(line, after)] + Lines(Beyond(after))
  {
    if after == [] {
      assert line + after == line;
      OneLine(line);
    } else {
      assert line + after == line + "\n" + after[1..];
      FirstFeed(line, after[1..]);
      assert (line + after)[..|line|] == line && (line + after)[|line| + 1..] == after[1..];
    }
  }

  /** The line `head`, continued by `blanks + tail`, which `after` follows. When the continuing line is
      blank, what ends the joined line is the end of `head`: a carriage return there is not read, and
      must not leave a continuing backslash behind. */
  predicate Continuable(head: string, blanks: string, tail: string, after: string) {
    && head != [] && '\n' !in head && !OddTail(head)
    && AllBlank(blanks) && '\n' !in blanks
    && '\n' !in tail && (tail != [] ==> !IsWhitespace(tail[0]))
    && EndsLine(after) && blanks + tail + after != []
    && (tail == [] && after != [] ==> !OddTail(DropReturn(head)))
  }

  /** Whatever stands before and after, a line ending in a continuing backslash and the line after it
      are read as the one line they spell: the same properties, or the same error. */
  lemma ContinuationJoins(before: string, head: string, blanks: string, tail: string, after: string)
    requires FullLines(before) && Continuable(head, blanks, tail, after)
    ensures Entries(before + (head + ("\\" + ("\n" + (blanks + (tail + after))))))
            == Entries(before + (head + (tail + after)))
  {
    var spread, joined := head + ("\\" + ("\n" + (blanks + (tail + after)))), head + (tail + after);
    LinesAfter(before, spread);
    LinesAfter(before, joined);
    SpreadLines(head, blanks, tail, after);
    Regroup(head, tail, after);
    LineEnds(head + tail, after);
    var more := Lines(Beyond(after));
    forall l | !OddTail(l)
      ensures EntriesFrom(Lines(spread), l) == EntriesFrom(Lines(joined), l)
    {
      EndedLinesJoin(head, blanks, tail, after, more, l);
    }
    AfterLines(Lines(before), Lines(spread), Lines(joined), "");
  }

  lemma SpreadLines(head: string, blanks: string, tail: string, after: string)
    requires Continuable(head, blanks, tail, after)
    ensures Lines(head + ("\\" + ("\n" + (blanks + (tail + after)))))
            == [head + "\\"] + ([Ended(blanks + tail, after)] + Lines(Beyond(after)))
  {
    var rest := blanks + (tail + after);
    Regroup(blanks, tail, after);
    Regroup(head, "\\", "\n" + rest);
    LineEnds(head + "\\", "\n" + rest);
    assert Beyond("\n" + rest) == rest;
    LineEnds(blanks + tail, after);
  }

  lemma EndedLinesJoin(head: string, blanks: string, tail: string, after: string, more: seq<string>, logical: string)
    requires Continuable(head, blanks, tail, after) && !OddTail(logical)
    ensures EntriesFrom([head + "\\"] + ([Ended(blanks + tail, after)] + more), logical)
            == EntriesFrom([Ended(head + tail, after)] + more, logical)
  {
    if tail != [] {
      assert Ended(blanks + tail, after) == blanks + Ended(tail, after);
      assert Ended(head + tail, after) == head + Ended(tail, after);
      JoinedLines(head, blanks, Ended(tail, after), more, logical);
    } else {
      assert blanks + tail == blanks && head + tail == head;
      var left := Ended(blanks, after);
      assert left + "" == left && head + "" == head;
      JoinedLines(head, left, "", more, logical);
      if after != [] {
        ReturnDropped(head, more, logical);
      }
    }
  }

  // ------------------------------------------------------------------ any number of lines

  /** Each further line, on its own physical line behind blanks, and then `after`. */
  function Spread(blanks: seq<string>, parts: seq<string>, after: string): string
    requires |blanks| == |parts|
    decreases |parts|
  {
    if parts == [] then after
    else "\\" + ("\n" + (blanks[0] + (parts[0] + Spread(blanks[1..], parts[1..], after))))
  }

  function Joined(parts: seq<string>): string {
    if parts == [] then "" else parts[0] + Joined(parts[1..])
  }

  /** Every line but the last ends in a continuing backslash; what comes before that does not itself
      end in an odd run of them. */
  predicate AllContinuable(head: string, blanks: seq<string>, parts: seq<string>, after: string)
    requires |blanks| == |parts|
    decreases |parts|
  {
    parts != [] ==>
      && Continuable(head, blanks[0], parts[0] + (if |parts| == 1 then "" else "\\"),
                     if |parts| == 1 then after else "\n")
      && EndsLine(after)
      && AllContinuable(head + parts[0], blanks[1..], parts[1..], after)
  }

  /** The same for any number of continued lines. */
  lemma {:induction false} ContinuationsJoin(before: string, head: string, blanks: seq<string>, parts: seq<string>,
                                             after: string)
    requires FullLines(before) && |blanks| == |parts| && AllContinuable(head, blanks, parts, after)
    ensures Entries(before + (head + Spread(blanks, parts, after)))
            == Entries(before + (head + (Joined(parts) + after)))
    decreases |parts|
  {
    if parts == [] {
      assert Joined(parts) + after == after;
    } else {
      var part, rest := parts[0], Spread(blanks[1..], parts[1..], after);
      FirstJoins(before, head, blanks, parts, after);
      ContinuationsJoin(before, head + part, blanks[1..], parts[1..], after);
      Regroup(head, part, Joined(parts[1..]) + after);
      Regroup(part, Joined(parts[1..]), after);
    }
  }

  lemma FirstJoins(before: string, head: string, blanks: seq<string>, parts: seq<string>, after: string)
    requires FullLines(before) && |blanks| == |parts| > 0 && AllContinuable(head, blanks, parts, after)
    ensures Entries(before + (head + Spread(blanks, parts, after)))
            == Entries(before + (head + parts[0] + Spread(blanks[1..], parts[1..], after)))
  {
    var part, rest := parts[0], Spread(blanks[1..], parts[1..], after);
    Regroup(head, part, rest);
    if |parts| == 1 {
      assert part + "" == part;
      ContinuationJoins(before, head, blanks[0], part, after);
    } else {
      var beyond := "\n" + (blanks[1..][0] + (parts[1..][0] + Spread(blanks[1..][1..], parts[1..][1..], after)));
      Regroup(part, "\\", beyond);
      ContinuationJoins(before, head, blanks[0], part + "\\", beyond);
    }
  }

  // ------------------------------------------------------------------ a property on several lines

  /** A property whose value is written over several lines is read with the parts put together. */
  lemma ContinuedProperty(key: string, first: string, blanks: seq<string>, parts: seq<string>)
    requires |blanks| == |parts| && AllContinuable(key + "=" + first, blanks, parts, "\n")
    requires KeyShape(key) && !OddTail(key)
    requires ValueShape(first + Joined(parts)) && !OddTail(first + Joined(parts))
    ensures Entries(key + "=" + first + Spread(blanks, parts, "\n"))
            == Success([Property(key, first + Joined(parts))])
  {
    var line := key + "=" + first;
    ContinuationsJoin("", line, blanks, parts, "\n");
    assert "" + (line + Spread(blanks, parts, "\n")) == line + Spread(blanks, parts, "\n");
    assert "" + (line + (Joined(parts) + "\n")) == line + (Joined(parts) + "\n");
    Regroup(line, Joined(parts), "\n");
    Regroup(key + "=", first, Joined(parts));
    OneRow(Property(key, first + Joined(parts)));
  }

  lemma OneRow(p: Property)
    requires KeyShape(p.key) && ValueShape(p.value) && !OddTail(p.key) && !OddTail(p.value)
    ensures Entries(Row(p) + "\n") == Success([p])
  {
    RowIsTrimmed(p);
    RowReadsBack(p);
    TailAfterEquals(p.key, p.value);
    TrimKeepsMiddle(Row(p));
    FirstLine(Row(p), "");
    assert Row(p) + "\n" + "" == Row(p) + "\n";
    OnlyEntry(Row(p), p);
  }

  lemma OnlyEntry(line: string, p: Property)
    requires !OddTail(line) && ParseEntry(line) == Success(Some(p))
    ensures EntriesFrom([line] + [], "") == Success([p])
  {
    assert ([line] + [])[1..] == [];
    assert [p] + [] == [p];
  }
}
