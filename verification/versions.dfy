/** Stable release versions: parsing, writing and the order of section 11 of Semantic Versioning 2.0.0. */
module Versions {
  import opened Seqs
  import opened Text

  /** Major, minor and patch; each fits a 64-bit word. */
  datatype Version = Version(major: nat, minor: nat, patch: nat)

  const WORD: nat := 0x1_0000_0000_0000_0000

  predicate Fits(v: Version) {
    v.major < WORD && v.minor < WORD && v.patch < WORD
  }

  predicate IsDigit(c: char) {
    '0' <= c <= '9'
  }

  predicate AllDigits(s: string) {
    |s| > 0 && forall i :: 0 <= i < |s| ==> IsDigit(s[i])
  }

  function Value(s: string): nat
    requires forall i :: 0 <= i < |s| ==> IsDigit(s[i])
  {
    if |s| == 0 then 0
    else
      assert IsDigit(s[|s| - 1]);
      Value(s[..|s| - 1]) * 10 + (s[|s| - 1] - '0') as nat
  }

  /** strconv.ParseUint with base 10 and 64 bits, on digits. */
  function ParseUint(s: string): Option<nat> {
    if AllDigits(s) && Value(s) < WORD then Some(Value(s)) else None
  }

  function WithoutV(s: string): string {
    if |s| > 0 && s[0] == 'v' then s[1..] else s
  }

  /** The pattern of three runs of digits, each within 64 bits, after an optional v. */
  function Parsed(s: string): Option<Version> {
    var parts := Split(WithoutV(s), '.');
    if |parts| != 3 then None
    else
      match (ParseUint(parts[0]), ParseUint(parts[1]), ParseUint(parts[2]))
      case (Some(a), Some(b), Some(c)) => Some(Version(a, b, c))
      case _ => None
  }

  // ------------------------------------------------------------ reading back what was written

  function Digits(n: nat): (s: string)
    ensures AllDigits(s)
  {
    if n < 10 then ['0' + n as char] else Digits(n / 10) + ['0' + (n % 10) as char]
  }

  lemma {:induction false} ValueOfDigits(n: nat)
    ensures Value(Digits(n)) == n
  {
    if n >= 10 {
      ValueOfDigits(n / 10);
      assert Digits(n)[..|Digits(n)| - 1] == Digits(n / 10);
    }
  }

  function Rendered(v: Version): string {
    Join([Digits(v.major), Digits(v.minor), Digits(v.patch)], '.')
  }

  lemma JoinedStart(parts: seq<string>)
    requires |parts| > 1 && |parts[0]| > 0
    ensures |Join(parts, '.')| > 0 && Join(parts, '.')[0] == parts[0][0]
  {
  }

  /** A written version is read back as itself, with or without a v in front. */
  lemma RenderedIsParsed(v: Version)
    requires Fits(v)
    ensures Parsed(Rendered(v)) == Some(v) && Parsed("v" + Rendered(v)) == Some(v)
  {
    hide Join, Split, Value, Digits;
    var parts := [Digits(v.major), Digits(v.minor), Digits(v.patch)];
    forall i | 0 <= i < 3 ensures '.' !in parts[i] {
      assert AllDigits(parts[i]);
    }
    SplitOfJoin(parts, '.');
    ValueOfDigits(v.major);
    ValueOfDigits(v.minor);
    ValueOfDigits(v.patch);
    JoinedStart(parts);
    assert IsDigit(parts[0][0]);
    assert WithoutV(Rendered(v)) == Rendered(v);
    assert WithoutV("v" + Rendered(v)) == Rendered(v);
  }

  // ------------------------------------------------------------ the order

  /** Precedence compares major, minor and patch numerically, in this order. */
  predicate Precedes(a: Version, b: Version) {
    || a.major < b.major
    || (a.major == b.major && a.minor < b.minor)
    || (a.major == b.major && a.minor == b.minor && a.patch < b.patch)
  }

  method ParseStableVersion(version: string) returns (parsed: Option<seq<nat>>)
    ensures parsed.Some? <==> Parsed(version).Some?
    ensures parsed.Some? ==> var v := Parsed(version).value; parsed.value == [v.major, v.minor, v.patch]
  {
    hide Split, Value, WithoutV;
    var parts := Split(WithoutV(version), '.');
    if |parts| != 3 || !AllDigits(parts[0]) || !AllDigits(parts[1]) || !AllDigits(parts[2]) {
      return None;
    }
    var values: seq<nat> := [];
    for i := 0 to 3
      invariant |values| == i
      invariant forall k :: 0 <= k < i ==> ParseUint(parts[k]) == Some(values[k])
    {
      var value := ParseUint(parts[i]);
      if value.None? {
        return None;
      }
      values := values + [value.value];
    }
    return Some(values);
  }

  /** None when either is not a stable version; otherwise whether latest has precedence over current. */
  method NewerStableVersion(current: string, latest: string) returns (newer: Option<bool>)
    ensures newer.Some? <==> Parsed(current).Some? && Parsed(latest).Some?
    ensures newer.Some? ==> (newer.value <==> Precedes(Parsed(current).value, Parsed(latest).value))
  {
    hide Parsed;
    var currentParts := ParseStableVersion(current);
    if currentParts.None? {
      return None;
    }
    var latestParts := ParseStableVersion(latest);
    if latestParts.None? {
      return None;
    }
    for i := 0 to 3
      invariant forall k :: 0 <= k < i ==> latestParts.value[k] == currentParts.value[k]
    {
      if latestParts.value[i] != currentParts.value[i] {
        assert i > 0 ==> latestParts.value[0] == currentParts.value[0];
        assert i > 1 ==> latestParts.value[1] == currentParts.value[1];
        return Some(latestParts.value[i] > currentParts.value[i]);
      }
    }
    assert latestParts.value == currentParts.value;
    return Some(false);
  }

  predicate Newer(current: string, latest: string) {
    Parsed(current).Some? && Parsed(latest).Some? && Precedes(Parsed(current).value, Parsed(latest).value)
  }

  /** Precedence is a strict order that tells all versions apart; an offered version is never offered back. */
  lemma NewerIsStrictOrder(a: string, b: string, c: string)
    ensures Newer(a, b) && Newer(b, c) ==> Newer(a, c)
    ensures !(Newer(a, b) && Newer(b, a))
    ensures Parsed(a).Some? && Parsed(b).Some? && Parsed(a) != Parsed(b) ==> Newer(a, b) || Newer(b, a)
  {
    hide Parsed;
  }

  /** Zeros in front of a number do not count. */
  lemma {:induction false} LeadingZeroIsNothing(s: string)
    requires forall i :: 0 <= i < |s| ==> IsDigit(s[i])
    ensures Value("0" + s) == Value(s)
  {
    if |s| == 0 {
      assert "0" + s == "0" && "0"[..0] == "";
    } else {
      LeadingZeroIsNothing(s[..|s| - 1]);
      assert ("0" + s)[..|s|] == "0" + s[..|s| - 1];
    }
  }

  /** Three runs of digits with a point between them. */
  ghost predicate Dotted(s: string, a: string, b: string, c: string) {
    s == a + "." + b + "." + c && AllDigits(a) && AllDigits(b) && AllDigits(c)
  }

  ghost predicate VDotted(s: string, a: string, b: string, c: string) {
    |s| > 0 && s[0] == 'v' && Dotted(s[1..], a, b, c)
  }

  lemma DottedStart(s: string, a: string, b: string, c: string)
    requires Dotted(s, a, b, c)
    ensures |s| > 0 && s[0] != 'v'
  {
    assert s[0] == a[0] && IsDigit(a[0]);
  }

  /** Nothing else is a stable version: no suffix, no fourth number, no number of 2^64 or more. */
  lemma ParsedExactlyWhenDotted(s: string, v: Version)
    ensures Parsed(s) == Some(v) <==>
              && Fits(v)
              && exists a: string, b: string, c: string ::
                   (Dotted(s, a, b, c) || VDotted(s, a, b, c)) && v == Version(Value(a), Value(b), Value(c))
  {
    hide Value, Split, Join;
    var text := WithoutV(s);
    var parts := Split(text, '.');
    JoinOfSplit(text, '.');
    if Parsed(s) == Some(v) {
      JoinOfThree(parts);
      assert Dotted(text, parts[0], parts[1], parts[2]);
    }
    forall a: string, b: string, c: string
      ensures Dotted(text, a, b, c) <==> Dotted(s, a, b, c) || VDotted(s, a, b, c)
    {
      if Dotted(s, a, b, c) { DottedStart(s, a, b, c); }
    }
    forall a: string, b: string, c: string | Dotted(text, a, b, c) ensures parts == [a, b, c] {
      NoPoint(a);
      NoPoint(b);
      NoPoint(c);
      JoinOfThree([a, b, c]);
      SplitOfJoin([a, b, c], '.');
    }
  }

  lemma NoPoint(s: string)
    requires AllDigits(s)
    ensures '.' !in s
  {
    assert !IsDigit('.');
  }

  lemma JoinOfThree(parts: seq<string>)
    requires |parts| == 3
    ensures Join(parts, '.') == parts[0] + "." + parts[1] + "." + parts[2]
  {
    var rest := parts[1..];
    assert rest[1..] == [parts[2]];
    assert Join(rest[1..], '.') == parts[2];
    assert Join(rest, '.') == parts[1] + ['.'] + Join(rest[1..], '.');
    assert parts[0] + "." + (parts[1] + "." + parts[2]) == parts[0] + "." + parts[1] + "." + parts[2];
  }

  /** Of two written versions the one with the larger number is newer, at the first place where they differ. */
  lemma WrittenVersionsCompare(v: Version, w: Version)
    requires Fits(v) && Fits(w)
    ensures v.major != w.major ==> (Newer(Rendered(v), Rendered(w)) <==> v.major < w.major)
    ensures v.major == w.major && v.minor != w.minor ==> (Newer(Rendered(v), Rendered(w)) <==> v.minor < w.minor)
    ensures v.major == w.major && v.minor == w.minor ==> (Newer(Rendered(v), Rendered(w)) <==> v.patch < w.patch)
  {
    hide Parsed, Rendered;
    RenderedIsParsed(v);
    RenderedIsParsed(w);
  }
}
