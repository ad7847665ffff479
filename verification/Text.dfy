/** White space and trimming as Rust's `str` has them. */
module Text {

  /** The Unicode property White_Space, which `char::is_whitespace` tests. */
  predicate IsWhitespace(c: char) {
    || '\t' <= c <= '\r' || c == ' ' || c == '\U{85}' || c == '\U{A0}' || c == '\U{1680}'
    || '\U{2000}' <= c <= '\U{200A}' || c == '\U{2028}' || c == '\U{2029}' || c == '\U{202F}'
    || c == '\U{205F}' || c == '\U{3000}'
  }

  function TrimStart(s: string): string {
    if s != [] && IsWhitespace(s[0]) then TrimStart(s[1..]) else s
  }

  function TrimEnd(s: string): string {
    if s != [] && IsWhitespace(s[|s| - 1]) then TrimEnd(s[..|s| - 1]) else s
  }

  function Trim(s: string): string {
    TrimEnd(TrimStart(s))
  }

  predicate Trimmed(s: string) {
    s != [] ==> !IsWhitespace(s[0]) && !IsWhitespace(s[|s| - 1])
  }

  lemma {:induction false} TrimStartIsSuffix(s: string)
    ensures exists i :: 0 <= i <= |s| && TrimStart(s) == s[i..]
    ensures TrimStart(s) != [] ==> !IsWhitespace(TrimStart(s)[0])
    ensures s != [] && !IsWhitespace(s[0]) ==> TrimStart(s) == s
  {
    if s != [] && IsWhitespace(s[0]) {
      TrimStartIsSuffix(s[1..]);
      var i :| 0 <= i <= |s| - 1 && TrimStart(s[1..]) == s[1..][i..];
      assert TrimStart(s) == s[i + 1..];
    } else {
      assert TrimStart(s) == s[0..];
    }
  }

  lemma {:induction false} TrimEndIsPrefix(s: string)
    ensures TrimEnd(s) <= s
    ensures TrimEnd(s) != [] ==> !IsWhitespace(TrimEnd(s)[|TrimEnd(s)| - 1])
    ensures forall k :: |TrimEnd(s)| <= k < |s| ==> IsWhitespace(s[k])
    ensures s != [] && !IsWhitespace(s[|s| - 1]) ==> TrimEnd(s) == s
  {
    if s != [] && IsWhitespace(s[|s| - 1]) {
      TrimEndIsPrefix(s[..|s| - 1]);
    }
  }

  /** Trimming leaves a piece of the text with no white space at either end, and leaves text alone
      that has none there. */
  lemma TrimKeepsMiddle(s: string)
    ensures Trimmed(Trim(s))
    ensures exists i, j :: 0 <= i <= j <= |s| && Trim(s) == s[i..j]
    ensures Trimmed(s) ==> Trim(s) == s
  {
    TrimStartIsSuffix(s);
    TrimEndIsPrefix(TrimStart(s));
    var i :| 0 <= i <= |s| && TrimStart(s) == s[i..];
    assert Trim(s) == s[i..i + |Trim(s)|];
  }

  lemma TrimAddsNothing(s: string, c: char)
    requires c !in s
    ensures c !in Trim(s) && c !in TrimStart(s)
  {
    TrimKeepsMiddle(s);
    TrimStartIsSuffix(s);
  }

  // ------------------------------------------------------------------ lines

  /** Where the first line feed stands, or the length of the text. */
  function LineLength(text: string): (n: nat)
    ensures n <= |text|
    ensures '\n' !in text[..n]
    ensures n < |text| ==> text[n] == '\n'
  {
    if text == [] || text[0] == '\n' then 0
    else
      assert forall n :: 0 <= n < |text| ==> text[..n + 1] == [text[0]] + text[1..][..n];
      1 + LineLength(text[1..])
  }

  function DropReturn(line: string): string {
    if line != [] && line[|line| - 1] == '\r' then line[..|line| - 1] else line
  }

  /** `str::lines`: a line ends in a line feed, with or without a carriage return before it; the
      last line may lack both. */
  function Lines(text: string): seq<string> {
    if text == [] then []
    else
      var n := LineLength(text);
      if n == |text| then [text] else [DropReturn(text[..n])] + Lines(text[n + 1..])
  }

  lemma {:induction false} LinesHaveNoFeed(text: string)
    ensures forall line :: line in Lines(text) ==> '\n' !in line
  {
    if text != [] {
      var n := LineLength(text);
      assert text[..n] == text[..n][..n];
      if n < |text| {
        LinesHaveNoFeed(text[n + 1..]);
      }
    }
  }

  lemma {:induction false} FirstFeed(line: string, rest: string)
    requires '\n' !in line
    ensures LineLength(line + "\n" + rest) == |line|
  {
    if line != [] {
      FirstFeed(line[1..], rest);
      assert (line + "\n" + rest)[1..] == line[1..] + "\n" + rest;
    }
  }

  lemma {:induction false} OneLine(text: string)
    requires '\n' !in text
    ensures LineLength(text) == |text|
    ensures text != [] ==> Lines(text) == [text]
  {
    if text != [] {
      OneLine(text[1..]);
    }
  }

  /** A trimmed line written out and ended by a line feed is read back as it was. */
  lemma FirstLine(line: string, rest: string)
    requires Trimmed(line) && '\n' !in line
    ensures Lines(line + "\n" + rest) == [line] + Lines(rest)
  {
    var text := line + "\n" + rest;
    FirstFeed(line, rest);
    assert text[..|line|] == line && text[|line| + 1..] == rest;
  }

  // ------------------------------------------------------------------ commas

  /** `split(',')`. */
  function SplitCommas(s: string): (pieces: seq<string>)
    ensures pieces != []
  {
    if s == [] then [""]
    else if s[0] == ',' then [""] + SplitCommas(s[1..])
    else
      var rest := SplitCommas(s[1..]);
      [[s[0]] + rest[0]] + rest[1..]
  }

  function JoinCommas(pieces: seq<string>): string {
    if pieces == [] then "" else if |pieces| == 1 then pieces[0] else pieces[0] + "," + JoinCommas(pieces[1..])
  }

  lemma {:induction false} SplitPiece(piece: string)
    requires ',' !in piece
    ensures SplitCommas(piece) == [piece]
  {
    if piece != [] {
      SplitPiece(piece[1..]);
      assert piece[0] in piece && [piece[0]] + piece[1..] == piece;
    }
  }

  lemma {:induction false} SplitFirst(piece: string, rest: string)
    requires ',' !in piece
    ensures SplitCommas(piece + "," + rest) == [piece] + SplitCommas(rest)
  {
    var s := piece + "," + rest;
    if piece == [] {
      assert s[1..] == rest;
    } else {
      SplitFirst(piece[1..], rest);
      assert s[1..] == piece[1..] + "," + rest;
      assert s[0] == piece[0] && piece[0] in piece && [piece[0]] + piece[1..] == piece;
    }
  }

  lemma {:induction false} SplitJoined(pieces: seq<string>)
    requires pieces != []
    requires forall piece :: piece in pieces ==> ',' !in piece
    ensures SplitCommas(JoinCommas(pieces)) == pieces
  {
    if |pieces| == 1 {
      SplitPiece(pieces[0]);
    } else {
      SplitFirst(pieces[0], JoinCommas(pieces[1..]));
      SplitJoined(pieces[1..]);
    }
  }

  lemma {:induction false} PiecesComeFrom(s: string, c: char)
    requires c !in s
    ensures forall piece :: piece in SplitCommas(s) ==> c !in piece && ',' !in piece
  {
    if s != [] {
      PiecesComeFrom(s[1..], c);
      assert SplitCommas(s[1..])[0] in SplitCommas(s[1..]);
    }
  }
}
