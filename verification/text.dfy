/** Strings as the Go standard library sees them: blanks, trimming, splitting on one separator. */
module Text {

  /** unicode.IsSpace. */
  predicate IsSpace(c: char) {
    || c in "\t\n\U{0B}\U{0C}\r \U{85}\U{A0}\U{1680}\U{2028}\U{2029}\U{202F}\U{205F}\U{3000}"
    || '\U{2000}' <= c <= '\U{200A}'
  }

  /** The characters with the property White_Space in Unicode, by code point. */
  lemma SpacesByCodePoint(c: char)
    ensures IsSpace(c) <==>
              var n := c as int;
              || 0x09 <= n <= 0x0D || 0x2000 <= n <= 0x200A
              || n in {0x20, 0x85, 0xA0, 0x1680, 0x2028, 0x2029, 0x202F, 0x205F, 0x3000}
  {
  }

  function TrimLeft(s: string): (r: string)
    ensures |r| <= |s|
    ensures r == "" || !IsSpace(r[0])
  {
    if s != "" && IsSpace(s[0]) then TrimLeft(s[1..]) else s
  }

  function TrimRight(s: string): (r: string)
    ensures r <= s
    ensures r == "" || !IsSpace(r[|r| - 1])
  {
    if s != "" && IsSpace(s[|s| - 1]) then TrimRight(s[..|s| - 1]) else s
  }

  /** strings.TrimSpace. */
  function Trim(s: string): string {
    TrimRight(TrimLeft(s))
  }

  predicate Blank(s: string) {
    Trim(s) == ""
  }

  lemma TrimIsTight(s: string)
    ensures Trim(s) == "" || (!IsSpace(Trim(s)[0]) && !IsSpace(Trim(s)[|Trim(s)| - 1]))
    ensures Trim(Trim(s)) == Trim(s)
  {
  }

  predicate AllSpace(s: string) {
    forall i :: 0 <= i < |s| ==> IsSpace(s[i])
  }

  lemma {:induction false} TrimLeftSkips(a: string, s: string)
    requires AllSpace(a)
    ensures TrimLeft(a + s) == TrimLeft(s)
  {
    hide IsSpace;
    if a == "" {
      assert a + s == s;
    } else {
      assert (a + s)[1..] == a[1..] + s;
      assert IsSpace(a[0]);
      TrimLeftSkips(a[1..], s);
    }
  }

  lemma {:induction false} TrimRightSkips(s: string, b: string)
    requires AllSpace(b)
    ensures TrimRight(s + b) == TrimRight(s)
  {
    hide IsSpace;
    if b == "" {
      assert s + b == s;
    } else {
      var front := b[..|b| - 1];
      assert (s + b)[..|s + b| - 1] == s + front;
      assert IsSpace(b[|b| - 1]);
      TrimRightSkips(s, front);
    }
  }

  lemma TrimIsUnique(a: string, text: string, b: string)
    requires AllSpace(a) && AllSpace(b)
    requires text == "" || (!IsSpace(text[0]) && !IsSpace(text[|text| - 1]))
    ensures Trim(a + text + b) == text
  {
    hide IsSpace, AllSpace;
    assert a + text + b == a + (text + b);
    TrimLeftSkips(a, text + b);
    if text == "" {
      assert text + b == b + "";
      TrimLeftSkips(b, "");
    } else {
      TrimRightSkips(text, b);
    }
  }

  lemma {:induction false} TrimLeftPart(s: string) returns (a: string)
    ensures AllSpace(a) && s == a + TrimLeft(s)
  {
    hide IsSpace;
    if s != "" && IsSpace(s[0]) {
      var rest := TrimLeftPart(s[1..]);
      a := [s[0]] + rest;
    } else {
      a := "";
    }
  }

  lemma {:induction false} TrimRightPart(s: string) returns (b: string)
    ensures AllSpace(b) && s == TrimRight(s) + b
  {
    hide IsSpace;
    if s != "" && IsSpace(s[|s| - 1]) {
      var rest := TrimRightPart(s[..|s| - 1]);
      b := rest + [s[|s| - 1]];
    } else {
      b := "";
    }
  }

  lemma TrimParts(s: string) returns (a: string, b: string)
    ensures AllSpace(a) && AllSpace(b) && s == a + Trim(s) + b
  {
    hide AllSpace, TrimLeft, TrimRight;
    a := TrimLeftPart(s);
    b := TrimRightPart(TrimLeft(s));
    assert a + (Trim(s) + b) == a + Trim(s) + b;
  }

  // ------------------------------------------------------------ bytes

  /** How many bytes a character takes in UTF-8. */
  function Utf8(c: char): nat {
    if c < '\U{80}' then 1 else if c < '\U{800}' then 2 else if c < '\U{10000}' then 3 else 4
  }

  /** The bytes of a character in UTF-8, section 3 of RFC 3629. */
  function Encode(c: char): seq<int> {
    var n := c as int;
    if n < 0x80 then [n]
    else if n < 0x800 then [0xC0 + n / 0x40, 0x80 + n % 0x40]
    else if n < 0x10000 then [0xE0 + n / 0x1000, 0x80 + n / 0x40 % 0x40, 0x80 + n % 0x40]
    else [0xF0 + n / 0x40000, 0x80 + n / 0x1000 % 0x40, 0x80 + n / 0x40 % 0x40, 0x80 + n % 0x40]
  }

  /** How many bytes follow each first byte, and what they say together. */
  function Decoded(bytes: seq<int>): int {
    if |bytes| == 1 then bytes[0]
    else if |bytes| == 2 then (bytes[0] - 0xC0) * 0x40 + (bytes[1] - 0x80)
    else if |bytes| == 3 then (bytes[0] - 0xE0) * 0x1000 + (bytes[1] - 0x80) * 0x40 + (bytes[2] - 0x80)
    else if |bytes| == 4 then
      (bytes[0] - 0xF0) * 0x40000 + (bytes[1] - 0x80) * 0x1000 + (bytes[2] - 0x80) * 0x40 + (bytes[3] - 0x80)
    else -1
  }

  /** The size counted for a character is that of its encoding, from which it can be read back. */
  lemma SizeIsThatOfTheEncoding(c: char)
    ensures |Encode(c)| == Utf8(c) && Decoded(Encode(c)) == c as int
    ensures forall i :: 0 <= i < |Encode(c)| ==> Encode(c)[i] < 0x100
    ensures forall i :: 0 < i < |Encode(c)| ==> 0x80 <= Encode(c)[i] < 0xC0
  {
    var n := c as int;
    assert n < 0x110000;
    assert n / 0x40 % 0x40 + n / 0x1000 * 0x40 == n / 0x40;
    assert n / 0x1000 % 0x40 + n / 0x40000 * 0x40 == n / 0x1000;
  }

  function Size(s: string): nat {
    if s == "" then 0 else Utf8(s[0]) + Size(s[1..])
  }

  lemma {:induction false} SizeAtLeast(s: string)
    ensures |s| <= Size(s)
  {
    if s != "" {
      SizeAtLeast(s[1..]);
    }
  }

  lemma {:induction false} SizeConcat(a: string, b: string)
    ensures Size(a + b) == Size(a) + Size(b)
  {
    if a == "" {
      assert a + b == b;
    } else {
      assert (a + b)[1..] == a[1..] + b;
      SizeConcat(a[1..], b);
    }
  }

  /** What a seek leaves for the last bytes of a text, from the first whole character on. */
  function Tail(s: string, bytes: nat): (r: string)
    ensures |r| <= |s| && r == s[|s| - |r|..] && Size(r) <= bytes
  {
    if Size(s) <= bytes then s else Tail(s[1..], bytes)
  }

  /** The last bytes reach back to where there are too many, somewhere in the part before a text that is small enough. */
  lemma {:induction false} TailReachesBack(a: string, b: string, bytes: nat) returns (j: nat)
    requires Size(b) <= bytes
    ensures j <= |a| && Tail(a + b, bytes) == a[j..] + b
  {
    if Size(a + b) <= bytes {
      j := 0;
    } else {
      assert a == "" ==> a + b == b;
      assert (a + b)[1..] == a[1..] + b;
      var k := TailReachesBack(a[1..], b, bytes);
      j := k + 1;
    }
  }

  /** strings.Split for a one-character separator. */
  function Split(s: string, sep: char): (parts: seq<string>)
    ensures |parts| >= 1
  {
    if s == "" then [""]
    else if s[0] == sep then [""] + Split(s[1..], sep)
    else Lengthen(s[0], Split(s[1..], sep))
  }

  /** The same pieces with one more character at the front of the first. */
  function Lengthen(c: char, parts: seq<string>): (r: seq<string>)
    requires |parts| >= 1
    ensures |r| == |parts| && r[0] == [c] + parts[0]
    ensures forall i :: 1 <= i < |r| ==> r[i] == parts[i]
  {
    [[c] + parts[0]] + parts[1..]
  }

  lemma {:induction false} SplitPieces(s: string, sep: char)
    ensures forall i :: 0 <= i < |Split(s, sep)| ==> sep !in Split(s, sep)[i]
  {
    if s != "" {
      SplitPieces(s[1..], sep);
    }
  }

  /** strings.Join for a one-character separator. */
  function Join(parts: seq<string>, sep: char): string {
    if |parts| == 0 then ""
    else if |parts| == 1 then parts[0]
    else parts[0] + [sep] + Join(parts[1..], sep)
  }

  lemma {:induction false} SplitPiece(s: string, sep: char)
    requires sep !in s
    ensures Split(s, sep) == [s]
  {
    if s != "" {
      SplitPiece(s[1..], sep);
      assert [s[0]] + s[1..] == s;
    }
  }

  /** The pieces of a text with one more character in front. */
  lemma SplitCons(c: char, s: string, sep: char)
    ensures Split([c] + s, sep) == if c == sep then [""] + Split(s, sep) else Lengthen(c, Split(s, sep))
  {
    assert ([c] + s)[1..] == s;
  }

  /** Splitting distributes over a separator. */
  lemma {:induction false} SplitConcat(a: string, b: string, sep: char)
    ensures Split(a + [sep] + b, sep) == Split(a, sep) + Split(b, sep)
  {
    hide Split;
    if a == "" {
      SplitCons(sep, b, sep);
      SplitPiece("", sep);
      assert "" + [sep] + b == [sep] + b;
    } else {
      var tail := a[1..];
      SplitConcat(tail, b, sep);
      SplitCons(a[0], tail, sep);
      SplitCons(a[0], tail + [sep] + b, sep);
      assert a + [sep] + b == [a[0]] + (tail + [sep] + b);
      assert [a[0]] + tail == a;
      var rest, more := Split(tail, sep), Split(b, sep);
      assert ([""] + rest) + more == [""] + (rest + more);
      if |rest| > 0 {
        assert Lengthen(a[0], rest + more) == Lengthen(a[0], rest) + more;
      }
    }
  }

  lemma {:induction false} JoinOfSplit(s: string, sep: char)
    ensures Join(Split(s, sep), sep) == s
  {
    if s != "" {
      JoinOfSplit(s[1..], sep);
      var rest := Split(s[1..], sep);
      assert Split(s, sep)[1..] == if s[0] == sep then rest else rest[1..];
      assert [s[0]] + s[1..] == s;
    }
  }

  lemma {:induction false} SplitOfJoin(parts: seq<string>, sep: char)
    requires |parts| >= 1
    requires forall i :: 0 <= i < |parts| ==> sep !in parts[i]
    ensures Split(Join(parts, sep), sep) == parts
  {
    SplitPiece(parts[0], sep);
    if |parts| > 1 {
      SplitConcat(parts[0], Join(parts[1..], sep), sep);
      SplitOfJoin(parts[1..], sep);
    } else {
      assert parts == [parts[0]];
    }
  }

  /** The text of a sequence of newline-terminated lines. */
  function Unlines(lines: seq<string>): string {
    if |lines| == 0 then "" else lines[0] + "\n" + Unlines(lines[1..])
  }

  predicate IsLine(line: string) {
    '\n' !in line
  }

  predicate AreLines(lines: seq<string>) {
    forall i :: 0 <= i < |lines| ==> IsLine(lines[i])
  }

  lemma {:induction false} SplitUnlines(lines: seq<string>, rest: string)
    requires AreLines(lines)
    ensures Split(Unlines(lines) + rest, '\n') == lines + Split(rest, '\n')
  {
    if |lines| == 0 {
      assert Unlines(lines) + rest == rest;
    } else {
      hide Split, Unlines;
      var head, tail := lines[0], Unlines(lines[1..]) + rest;
      assert IsLine(head);
      FirstLine(lines, rest);
      SplitConcat(head, tail, '\n');
      SplitPiece(head, '\n');
      SplitUnlines(lines[1..], rest);
      FirstAndRest(lines, Split(rest, '\n'));
    }
  }

  lemma FirstLine(lines: seq<string>, rest: string)
    requires |lines| > 0
    ensures Unlines(lines) + rest == lines[0] + ['\n'] + (Unlines(lines[1..]) + rest)
  {
  }

  lemma FirstAndRest(lines: seq<string>, more: seq<string>)
    requires |lines| > 0
    ensures [lines[0]] + (lines[1..] + more) == lines + more
  {
  }

  lemma {:induction false} UnlinesConcat(a: seq<string>, b: seq<string>)
    ensures Unlines(a + b) == Unlines(a) + Unlines(b)
  {
    if |a| == 0 {
      assert a + b == b;
    } else {
      assert (a + b)[1..] == a[1..] + b;
      UnlinesConcat(a[1..], b);
    }
  }

  lemma {:induction false} UnlinesPieces(s: string)
    ensures var parts := Split(s, '\n'); s == Unlines(parts[..|parts| - 1]) + parts[|parts| - 1]
    ensures AreLines(Split(s, '\n'))
  {
    SplitPieces(s, '\n');
    JoinOfSplit(s, '\n');
    UnlinesJoin(Split(s, '\n'));
  }

  lemma {:induction false} UnlinesJoin(lines: seq<string>)
    requires |lines| >= 1
    ensures Join(lines, '\n') == Unlines(lines[..|lines| - 1]) + lines[|lines| - 1]
  {
    if |lines| > 1 {
      UnlinesJoin(lines[1..]);
      assert lines[1..][..|lines| - 2] == lines[..|lines| - 1][1..];
    }
  }
}
