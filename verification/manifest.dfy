/** The checksum manifest of a release: what its lines list, and the one digest taken from it. */
module Manifest {
  import opened Seqs
  import opened Text
  import opened ReleaseArchive

  type Digest = seq<nat>

  /** One manifest line after trimming: blank, malformed, or a digest and a path. */
  datatype Line = BlankLine | Malformed | Listed(digest: Digest, name: string)

  /** strings.Fields. */
  function Fields(s: string): seq<string>
    decreases |s|
  {
    var t := TrimLeft(s);
    if t == "" then [] else var word := Word(t); [word] + Fields(t[|word|..])
  }

  predicate NoSpace(s: string) {
    forall i :: 0 <= i < |s| ==> !IsSpace(s[i])
  }

  function Word(s: string): (w: string)
    ensures w <= s && NoSpace(w)
    ensures |w| < |s| ==> IsSpace(s[|w|])
    ensures s != "" && !IsSpace(s[0]) ==> w != ""
  {
    if s == "" || IsSpace(s[0]) then "" else [s[0]] + Word(s[1..])
  }

  function HexValue(c: char): (v: Option<nat>)
    ensures v.Some? ==> v.value < 16
  {
    if '0' <= c <= '9' then Some((c - '0') as nat)
    else if 'a' <= c <= 'f' then Some((c - 'a') as nat + 10)
    else if 'A' <= c <= 'F' then Some((c - 'A') as nat + 10)
    else None
  }

  /** hex.DecodeString. */
  function DecodeHex(s: string): Option<Digest> {
    if |s| == 0 then Some([])
    else if |s| == 1 then None
    else
      match (HexValue(s[0]), HexValue(s[1]), DecodeHex(s[2..]))
      case (Some(high), Some(low), Some(rest)) => Some([16 * high + low] + rest)
      case _ => None
  }

  function ParseLine(raw: string): Line {
    var fields := Fields(Trim(raw));
    if Trim(raw) == "" then BlankLine
    else if |fields| != 2 then Malformed
    else
      var name := if "*" <= fields[1] then fields[1][1..] else fields[1];
      var digest := DecodeHex(fields[0]);
      if !SafeArchivePath(name) || digest.None? || |digest.value| != 32 then Malformed else Listed(digest.value, name)
  }

  function Targets(target: string): string -> Option<Digest> {
    raw => match ParseLine(raw)
           case Listed(digest, name) => if name == target then Some(digest) else None
           case _ => None
  }

  ghost predicate WellFormed(lines: seq<string>) {
    forall i :: 0 <= i < |lines| ==> !ParseLine(lines[i]).Malformed?
  }

  /** A checksum is found exactly when no line is malformed and the target is listed once. */
  method ParseChecksum(manifest: string, target: string) returns (found: Option<Digest>)
    ensures var digests := FilterMap(Split(manifest, '\n'), Targets(target));
            found.Some? <==> WellFormed(Split(manifest, '\n')) && |digests| == 1
    ensures found.Some? ==> FilterMap(Split(manifest, '\n'), Targets(target)) == [found.value]
    ensures forall digest: Digest :: found == Some(digest) <==> ListsOnce(manifest, target, digest)
  {
    hide ParseLine, FilterMap, Split, ListsOnce;
    forall digest: Digest
      ensures WellFormed(Split(manifest, '\n')) && FilterMap(Split(manifest, '\n'), Targets(target)) == [digest]
              <==> ListsOnce(manifest, target, digest)
    {
      ListedOnceExactly(manifest, target, digest);
    }
    var lines := Split(manifest, '\n');
    NothingListed(target);
    var matches, last, i := 0, [], 0;
    while i < |lines|
      invariant 0 <= i <= |lines|
      invariant WellFormed(lines[..i])
      invariant matches == |FilterMap(lines[..i], Targets(target))|
      invariant matches > 0 ==> last == FilterMap(lines[..i], Targets(target))[matches - 1]
    {
      FilterMapStep(lines, i, Targets(target));
      match ParseLine(lines[i]) {
        case BlankLine =>
        case Malformed => return None;
        case Listed(digest, name) =>
          if name == target {
            last := digest;
            matches := matches + 1;
          }
      }
      i := i + 1;
    }
    assert lines[..i] == lines;
    found := if matches == 1 then Some(last) else None;
  }

  lemma NothingListed(target: string)
    ensures FilterMap([], Targets(target)) == []
  {
  }

  // ------------------------------------------------------------ what a line denotes

  const DIGITS: string := "0123456789abcdef"
  const CAPITALS: string := "0123456789ABCDEF"

  /** The character is the hexadecimal digit of a value, in either case. */
  predicate Digit(c: char, v: nat) {
    v < 16 && (c == DIGITS[v] || c == CAPITALS[v])
  }

  /** Each byte as two digits, the high one first. */
  ghost predicate Spells(s: string, bytes: Digest) {
    && |s| == 2 * |bytes|
    && forall i :: 0 <= i < |bytes| ==>
         bytes[i] < 256 && Digit(s[2 * i], bytes[i] / 16) && Digit(s[2 * i + 1], bytes[i] % 16)
  }

  lemma HexValueExactly(c: char, v: nat)
    ensures HexValue(c) == Some(v) <==> Digit(c, v)
  {
  }

  function ByteOf(high: Option<nat>, low: Option<nat>): Option<nat> {
    if high.Some? && low.Some? then Some(16 * high.value + low.value) else None
  }

  lemma OneByte(h: char, l: char, v: nat)
    ensures ByteOf(HexValue(h), HexValue(l)) == Some(v) <==> v < 256 && Digit(h, v / 16) && Digit(l, v % 16)
  {
    hide Digit, HexValue;
    HexValueExactly(h, v / 16);
    HexValueExactly(l, v % 16);
    if ByteOf(HexValue(h), HexValue(l)) == Some(v) {
      var high, low := HexValue(h).value, HexValue(l).value;
      assert v / 16 == high && v % 16 == low;
    }
  }

  /** Only a text of pairs of digits decodes, and to the bytes they spell. */
  lemma {:induction false} DecodesExactlyWhatIsSpelled(s: string, bytes: Digest)
    ensures DecodeHex(s) == Some(bytes) <==> Spells(s, bytes)
  {
    hide Digit, HexValue;
    if |s| < 2 {
      assert |bytes| == 0 ==> bytes == [];
    } else if |bytes| > 0 {
      var rest := s[2..];
      DecodesExactlyWhatIsSpelled(rest, bytes[1..]);
      OneByte(s[0], s[1], bytes[0]);
      SpellsStep(s, bytes);
      assert bytes == [bytes[0]] + bytes[1..];
    }
  }

  lemma SpellsStep(s: string, bytes: Digest)
    requires |s| >= 2 && |bytes| > 0
    ensures Spells(s, bytes)
            <==> bytes[0] < 256 && Digit(s[0], bytes[0] / 16) && Digit(s[1], bytes[0] % 16) && Spells(s[2..], bytes[1..])
  {
    hide Digit;
    var rest, tail := s[2..], bytes[1..];
    assert forall i :: 0 <= i < |tail| ==> tail[i] == bytes[i + 1];
    assert forall i :: 0 <= i < |tail| && |s| == 2 * |bytes| ==>
      rest[2 * i] == s[2 * (i + 1)] && rest[2 * i + 1] == s[2 * (i + 1) + 1];
    if Spells(rest, tail) {
      assert forall i :: 1 <= i < |bytes| ==> bytes[i] == tail[i - 1];
    }
  }

  // ------------------------------------------------------------ what a manifest lists

  /** The spelled digest, blanks, a star or none, and a safe name, with blanks around it all. */
  ghost predicate Denotes(raw: string, digest: Digest, name: string) {
    && |digest| == 32 && SafeArchivePath(name) && NoSpace(name)
    && exists hex: string, star: string :: DenotesBy(raw, digest, name, hex, star)
  }

  ghost predicate DenotesBy(raw: string, digest: Digest, name: string, hex: string, star: string) {
    && Spells(hex, digest) && (star == "*" || (star == "" && !("*" <= name)))
    && exists a: string, gap: string, b: string :: Spaced(raw, a, hex, gap, star + name, b)
  }

  /** Two words with blanks between them, and perhaps around them. */
  ghost predicate Spaced(raw: string, a: string, first: string, gap: string, second: string, b: string) {
    AllSpace(a) && AllSpace(gap) && AllSpace(b) && gap != "" && raw == a + first + gap + second + b
  }

  ghost predicate IsWord(s: string) {
    s != "" && NoSpace(s)
  }

  lemma {:induction false} WordOf(w: string, rest: string)
    requires NoSpace(w) && (rest == "" || IsSpace(rest[0]))
    ensures Word(w + rest) == w
  {
    hide IsSpace;
    if w == "" {
      assert w + rest == rest;
    } else {
      assert (w + rest)[1..] == w[1..] + rest;
      WordOf(w[1..], rest);
    }
  }

  /** The fields of blanks, a word and what follows it. */
  lemma FieldsStep(a: string, w: string, rest: string)
    requires AllSpace(a) && IsWord(w) && (rest == "" || IsSpace(rest[0]))
    ensures Fields(a + (w + rest)) == [w] + Fields(rest)
  {
    hide IsSpace;
    TrimLeftSkips(a, w + rest);
    assert (w + rest)[0] == w[0];
    WordOf(w, rest);
    assert (w + rest)[|w|..] == rest;
  }

  lemma NoFields(b: string)
    ensures Fields(b) == [] <==> AllSpace(b)
  {
    hide IsSpace;
    var a := TrimLeftPart(b);
    if AllSpace(b) {
      TrimLeftSkips(b, "");
      assert b + "" == b;
    }
    assert a + "" == a;
  }

  lemma TwoFields(gap: string, first: string, second: string)
    requires AllSpace(gap) && gap != "" && IsWord(first) && IsWord(second)
    ensures Fields(first + gap + second) == [first, second]
  {
    hide IsSpace, Fields;
    FieldsStep("", first, gap + second);
    FieldsStep(gap, second, "");
    NoFields("");
    assert "" + (first + (gap + second)) == first + gap + second;
    assert gap + (second + "") == gap + second;
    assert [second] + [] == [second] && [first] + [second] == [first, second];
  }

  lemma FieldsSplit(s: string) returns (a: string, rest: string)
    requires |Fields(s)| > 0
    ensures IsWord(Fields(s)[0]) && AllSpace(a) && s == a + Fields(s)[0] + rest
    ensures Fields(s)[1..] == Fields(rest) && (rest == "" || IsSpace(rest[0]))
  {
    hide IsSpace, TrimLeft;
    a := TrimLeftPart(s);
    var t := TrimLeft(s);
    var w := Word(t);
    rest := t[|w|..];
    assert t == w + rest && a + (w + rest) == a + w + rest;
  }

  lemma SpacedHasTwoFields(raw: string, a: string, first: string, gap: string, second: string, b: string)
    requires Spaced(raw, a, first, gap, second, b) && IsWord(first) && IsWord(second)
    ensures Trim(raw) != "" && Fields(Trim(raw)) == [first, second]
  {
    hide IsSpace, Fields, Trim, AllSpace;
    var text := first + gap + second;
    assert raw == a + text + b;
    assert text[0] == first[0] && text[|text| - 1] == second[|second| - 1];
    TrimIsUnique(a, text, b);
    TwoFields(gap, first, second);
  }

  lemma Regrouped(left: string, front: string, first: string, gap: string, second: string, end: string, right: string)
    ensures left + (front + first + (gap + second + end)) + right == (left + front) + first + gap + second + (end + right)
  {
  }

  /** The text of two fields, without the blanks around the whole line. */
  lemma TwoFieldsOfText(text: string) returns (front: string, gap: string, end: string)
    requires |Fields(text)| == 2
    ensures AllSpace(front) && AllSpace(gap) && AllSpace(end) && gap != ""
    ensures IsWord(Fields(text)[0]) && IsWord(Fields(text)[1])
    ensures text == front + Fields(text)[0] + (gap + Fields(text)[1] + end)
  {
    hide IsSpace, Fields, AllSpace, IsWord;
    var more, last;
    front, more := FieldsSplit(text);
    gap, last := FieldsSplit(more);
    NoFields(last);
    BetweenIsNotEmpty(gap, Fields(text)[1], more, last);
    end := last;
  }

  lemma TwoFieldsAreSpaced(raw: string) returns (a: string, gap: string, b: string)
    requires |Fields(Trim(raw))| == 2
    ensures var fields := Fields(Trim(raw));
            Spaced(raw, a, fields[0], gap, fields[1], b) && IsWord(fields[0]) && IsWord(fields[1])
  {
    hide *;
    var text := Trim(raw);
    var left, right := TrimParts(raw);
    var front, between, end := TwoFieldsOfText(text);
    BlanksJoin(left, front);
    BlanksJoin(end, right);
    Regrouped(left, front, Fields(text)[0], between, Fields(text)[1], end, right);
    a, gap, b := left + front, between, end + right;
    IsSpaced(raw, a, Fields(text)[0], gap, Fields(text)[1], b);
  }

  lemma IsSpaced(raw: string, a: string, first: string, gap: string, second: string, b: string)
    requires AllSpace(a) && AllSpace(gap) && AllSpace(b) && gap != "" && raw == a + first + gap + second + b
    ensures Spaced(raw, a, first, gap, second, b)
  {
    hide AllSpace;
  }

  lemma BetweenIsNotEmpty(gap: string, word: string, text: string, rest: string)
    requires text == gap + word + rest && IsWord(word) && (text == "" || IsSpace(text[0]))
    ensures gap != ""
  {
    hide IsSpace;
    assert (gap + word + rest)[|gap|] == word[0];
  }

  lemma BlanksJoin(a: string, b: string)
    requires AllSpace(a) && AllSpace(b)
    ensures AllSpace(a + b)
  {
  }

  lemma SpelledIsWord(hex: string, digest: Digest)
    requires Spells(hex, digest) && |digest| > 0
    ensures IsWord(hex)
  {
    hide IsSpace, Digit;
    forall i | 0 <= i < |hex| ensures !IsSpace(hex[i]) {
      var k := i / 2;
      assert 0 <= k < |digest| && (i == 2 * k || i == 2 * k + 1);
      DigitIsNoSpace(hex[2 * k], digest[k] / 16);
      DigitIsNoSpace(hex[2 * k + 1], digest[k] % 16);
    }
  }

  lemma DigitIsNoSpace(c: char, v: nat)
    requires Digit(c, v)
    ensures !IsSpace(c)
  {
  }

  lemma StarredIsWord(star: string, name: string)
    requires (star == "*" || star == "") && SafeArchivePath(name) && NoSpace(name)
    ensures IsWord(star + name)
  {
    hide IsSpace, SafeArchivePath;
    assert name != "" by { SafeIsNotEmpty(name); }
    StarIsNoSpace();
  }

  lemma StarIsNoSpace()
    ensures !IsSpace('*')
  {
  }

  lemma DenotedIsListed(raw: string, digest: Digest, name: string)
    requires Denotes(raw, digest, name)
    ensures ParseLine(raw) == Listed(digest, name)
  {
    hide IsSpace, Fields, Trim, SafeArchivePath, Spells, DecodeHex, Spaced, IsWord, NoSpace;
    var hex: string, star: string :| DenotesBy(raw, digest, name, hex, star);
    var a: string, gap: string, b: string :| Spaced(raw, a, hex, gap, star + name, b);
    SpelledIsWord(hex, digest);
    StarredIsWord(star, name);
    SpacedHasTwoFields(raw, a, hex, gap, star + name, b);
    DecodesExactlyWhatIsSpelled(hex, digest);
    assert ("*" + name)[1..] == name && "" + name == name;
  }

  lemma ListedIsDenoted(raw: string, digest: Digest, name: string)
    requires ParseLine(raw) == Listed(digest, name)
    ensures Denotes(raw, digest, name)
  {
    hide IsSpace, Fields, Trim, SafeArchivePath, Spells, DecodeHex, Spaced;
    var fields := Fields(Trim(raw));
    var a, gap, b := TwoFieldsAreSpaced(raw);
    DecodesExactlyWhatIsSpelled(fields[0], digest);
    var star := if "*" <= fields[1] then "*" else "";
    assert star + name == fields[1];
    assert DenotesBy(raw, digest, name, fields[0], star);
    assert forall i :: 0 <= i < |name| ==> name[i] == fields[1][|star| + i];
  }

  /** A line lists a digest and a name exactly when it is the one spelled, blanks, and the other. */
  lemma ListedExactlyWhenDenoted(raw: string, digest: Digest, name: string)
    ensures ParseLine(raw) == Listed(digest, name) <==> Denotes(raw, digest, name)
  {
    hide ParseLine, Denotes;
    if ParseLine(raw) == Listed(digest, name) {
      ListedIsDenoted(raw, digest, name);
    }
    if Denotes(raw, digest, name) {
      DenotedIsListed(raw, digest, name);
    }
  }

  /** Every line is blank or lists something, and exactly one lists the name, with the digest. */
  ghost predicate ListsOnce(manifest: string, name: string, digest: Digest) {
    var lines := Split(manifest, '\n');
    && (forall i :: 0 <= i < |lines| ==> Blank(lines[i]) || exists d: Digest, n: string :: Denotes(lines[i], d, n))
    && exists k :: OnlyLine(lines, name, digest, k)
  }

  ghost predicate OnlyLine(lines: seq<string>, name: string, digest: Digest, k: int) {
    && 0 <= k < |lines| && Denotes(lines[k], digest, name)
    && forall i: int, d: Digest :: 0 <= i < |lines| && i != k ==> !Denotes(lines[i], d, name)
  }

  lemma MalformedExactly(raw: string)
    ensures ParseLine(raw).Malformed? <==> !Blank(raw) && forall d: Digest, n: string :: !Denotes(raw, d, n)
  {
    hide Fields, Trim, SafeArchivePath, DecodeHex, Denotes;
    if ParseLine(raw).Listed? {
      ListedExactlyWhenDenoted(raw, ParseLine(raw).digest, ParseLine(raw).name);
    } else {
      forall d: Digest, n: string ensures !Denotes(raw, d, n) {
        ListedExactlyWhenDenoted(raw, d, n);
      }
    }
  }

  lemma TargetsExactly(raw: string, name: string, digest: Digest)
    ensures Targets(name)(raw) == Some(digest) <==> Denotes(raw, digest, name)
  {
    hide ParseLine, Denotes;
    ListedExactlyWhenDenoted(raw, digest, name);
  }

  /** A manifest is well formed and gives one digest for a name exactly when one line lists it and all are in order. */
  lemma ListedOnceExactly(manifest: string, name: string, digest: Digest)
    ensures WellFormed(Split(manifest, '\n')) && FilterMap(Split(manifest, '\n'), Targets(name)) == [digest]
            <==> ListsOnce(manifest, name, digest)
  {
    hide ParseLine, Denotes, FilterMap, Split, Targets, Blank;
    var lines := Split(manifest, '\n');
    forall i | 0 <= i < |lines|
      ensures ParseLine(lines[i]).Malformed?
              <==> !(Blank(lines[i]) || exists d: Digest, n: string :: Denotes(lines[i], d, n))
    {
      MalformedExactly(lines[i]);
    }
    OneImageExactly(lines, Targets(name), digest);
    forall k ensures OnlyImage(lines, Targets(name), digest, k) <==> OnlyLine(lines, name, digest, k) {
      OneLine(lines, name, digest, k);
    }
  }

  lemma TargetsSomething(raw: string, name: string)
    ensures Targets(name)(raw).None? <==> forall d: Digest :: !Denotes(raw, d, name)
  {
    hide ParseLine, Denotes, Targets;
    if Targets(name)(raw).Some? {
      TargetsExactly(raw, name, Targets(name)(raw).value);
    }
    forall d: Digest | Denotes(raw, d, name) ensures Targets(name)(raw) == Some(d) {
      TargetsExactly(raw, name, d);
    }
  }

  lemma OneLine(lines: seq<string>, name: string, digest: Digest, k: int)
    ensures OnlyImage(lines, Targets(name), digest, k) <==> OnlyLine(lines, name, digest, k)
  {
    hide ParseLine, Denotes, Targets;
    if 0 <= k < |lines| {
      TargetsExactly(lines[k], name, digest);
      forall i | 0 <= i < |lines|
        ensures Targets(name)(lines[i]).None? <==> forall d: Digest :: !Denotes(lines[i], d, name)
      {
        TargetsSomething(lines[i], name);
      }
    }
  }
}
