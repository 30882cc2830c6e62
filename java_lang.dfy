/**
 * The pieces of java.lang behaviour that the Java programs rely on: nullable
 * strings, String.trim, ASCII case mapping, startsWith, split on whitespace,
 * Integer.parseInt (over the notation of module Decimal) and String.compareTo.
 */
module JavaLang {
  import opened Decimal

  datatype Option<T> = None | Some(value: T)

  /** A Java String reference: either null or a character sequence. */
  datatype JString = Null | Str(chars: string)

  /** What string concatenation prints for a String reference ("null" for null). */
  function Show(j: JString): string
  {
    match j
    case Null => "null"
    case Str(s) => s
  }

  const INT_MIN: int := -0x8000_0000
  const INT_MAX: int := 0x7fff_ffff

  predicate InInt32(n: int) { INT_MIN <= n <= INT_MAX }

  // ---------------------------------------------------------------------------
  // String.trim
  // ---------------------------------------------------------------------------

  /** String.trim drops every leading and trailing character at or below U+0020. */
  predicate IsTrimmable(c: char) { c <= ' ' }

  function TrimStart(s: string): (r: string)
    ensures |r| <= |s|
    ensures r != [] ==> !IsTrimmable(r[0])
  {
    if s != [] && IsTrimmable(s[0]) then TrimStart(s[1..]) else s
  }

  /** TrimStart drops a prefix made only of trimmable characters. */
  lemma {:induction false} TrimStartDrops(s: string)
    ensures var r := TrimStart(s);
      r == s[|s| - |r|..] && forall i :: 0 <= i < |s| - |r| ==> IsTrimmable(s[i])
    decreases |s|
  {
    if s != [] && IsTrimmable(s[0]) {
      TrimStartDrops(s[1..]);
      var r := TrimStart(s);
      forall i | 0 <= i < |s| - |r| ensures IsTrimmable(s[i]) {
        if i > 0 {
          assert s[i] == s[1..][i - 1];
        }
      }
    }
  }

  function TrimEnd(s: string): (r: string)
    ensures |r| <= |s|
    ensures r != [] ==> !IsTrimmable(r[|r| - 1])
  {
    if s != [] && IsTrimmable(s[|s| - 1]) then TrimEnd(s[..|s| - 1]) else s
  }

  /** TrimEnd drops a suffix made only of trimmable characters. */
  lemma {:induction false} TrimEndDrops(s: string)
    ensures var r := TrimEnd(s);
      r == s[..|r|] && forall i :: |r| <= i < |s| ==> IsTrimmable(s[i])
    decreases |s|
  {
    if s != [] && IsTrimmable(s[|s| - 1]) {
      TrimEndDrops(s[..|s| - 1]);
      var r := TrimEnd(s);
      forall i | |r| <= i < |s| ensures IsTrimmable(s[i]) {
        if i < |s| - 1 {
          assert s[i] == s[..|s| - 1][i];
        }
      }
    }
  }

  /** String.trim: the longest infix of s that starts and ends with a non-trimmable character. */
  function Trim(s: string): (r: string)
    ensures |r| <= |s|
    ensures r != [] ==> !IsTrimmable(r[0]) && !IsTrimmable(r[|r| - 1])
  {
    var t := TrimStart(s);
    TrimEndDrops(t);
    TrimEnd(t)
  }

  /**
   * Trim removes exactly the trimmable characters at both ends: the result
   * is the infix of s that starts where TrimStart's result starts.
   */
  lemma TrimInfix(s: string)
    ensures var r, a := Trim(s), |s| - |TrimStart(s)|;
      0 <= a <= |s| - |r| && r == s[a..a + |r|] &&
      (forall i :: 0 <= i < a ==> IsTrimmable(s[i])) &&
      (forall i :: a + |r| <= i < |s| ==> IsTrimmable(s[i]))
  {
    var t := TrimStart(s);
    TrimStartDrops(s);
    TrimEndDrops(t);
    var r := Trim(s);
    var a := |s| - |t|;
    assert r == s[a..a + |r|];
    forall i | a + |r| <= i < |s| ensures IsTrimmable(s[i]) {
      assert s[i] == t[i - a];
    }
  }

  /** A string without a trimmable character is its own trim. */
  lemma TrimNothingToTrim(s: string)
    requires forall i :: 0 <= i < |s| ==> !IsTrimmable(s[i])
    ensures Trim(s) == s
  {
    TrimStartDrops(s);
    TrimEndDrops(s);
  }

  /** Trimming a trimmed string changes nothing. */
  lemma TrimIdempotent(s: string)
    ensures Trim(Trim(s)) == Trim(s)
  {
    var r := Trim(s);
    if r != [] {
      assert TrimStart(r) == r;
      assert TrimEnd(r) == r;
    }
  }

  // ---------------------------------------------------------------------------
  // Case mapping (ASCII letters only)
  // ---------------------------------------------------------------------------

  function UpperAscii(c: char): (u: char)
    ensures 'a' <= c <= 'z' ==> 'A' <= u <= 'Z'
    ensures !('a' <= c <= 'z') ==> u == c
  {
    if 'a' <= c <= 'z' then (c as int - 32) as char else c
  }

  /** String.toUpperCase restricted to ASCII letters. */
  function ToUpper(s: string): (r: string)
    ensures |r| == |s|
  {
    if s == [] then [] else [UpperAscii(s[0])] + ToUpper(s[1..])
  }

  lemma {:induction false} ToUpperAt(s: string, i: int)
    requires 0 <= i < |s|
    ensures ToUpper(s)[i] == UpperAscii(s[i])
  {
    if i > 0 {
      ToUpperAt(s[1..], i - 1);
    }
  }

  /** String.equalsIgnoreCase restricted to ASCII letters: equal lengths and equal letters up to case. */
  predicate EqualsIgnoreCase(a: string, b: string)
  {
    |a| == |b| && (a == [] || (UpperAscii(a[0]) == UpperAscii(b[0]) && EqualsIgnoreCase(a[1..], b[1..])))
  }

  /** Comparing ignoring case is comparing the upper-cased strings. */
  lemma {:induction false} EqualsIgnoreCaseUpper(a: string, b: string)
    ensures EqualsIgnoreCase(a, b) <==> ToUpper(a) == ToUpper(b)
  {
    if a != [] && b != [] {
      EqualsIgnoreCaseUpper(a[1..], b[1..]);
      assert ToUpper(a) == [UpperAscii(a[0])] + ToUpper(a[1..]);
      assert ToUpper(b) == [UpperAscii(b[0])] + ToUpper(b[1..]);
      if ToUpper(a) == ToUpper(b) {
        assert ToUpper(a)[0] == ToUpper(b)[0];
        assert ToUpper(a)[1..] == ToUpper(b)[1..];
      }
    }
  }

  /** String.startsWith. */
  predicate StartsWith(s: string, prefix: string)
  {
    prefix == [] || (s != [] && s[0] == prefix[0] && StartsWith(s[1..], prefix[1..]))
  }

  lemma {:induction false} StartsWithPrefix(s: string, prefix: string)
    ensures StartsWith(s, prefix) <==> |prefix| <= |s| && s[..|prefix|] == prefix
  {
    if prefix != [] && s != [] {
      StartsWithPrefix(s[1..], prefix[1..]);
      if |prefix| <= |s| && s[..|prefix|] == prefix {
        assert s[1..][..|prefix| - 1] == s[..|prefix|][1..];
      }
      if StartsWith(s, prefix) {
        assert s[..|prefix|] == [s[0]] + s[1..][..|prefix| - 1];
      }
    }
  }

  // ---------------------------------------------------------------------------
  // String.split("\\s+") on a trimmed, non-empty line
  // ---------------------------------------------------------------------------

  /** The characters of the regular-expression class \s. */
  predicate IsSpace(c: char)
  {
    c == ' ' || c == '\t' || c == '\n' || c == '\U{B}' || c == '\U{C}' || c == '\r'
  }

  /** s without its leading \s characters. */
  function DropSpaces(s: string): (r: string)
    ensures |r| <= |s|
    ensures r != [] ==> !IsSpace(r[0])
  {
    if s != [] && IsSpace(s[0]) then DropSpaces(s[1..]) else s
  }

  /** The longest prefix of s without a \s character. */
  function TakeWord(s: string): (w: string)
    ensures |w| <= |s| && w == s[..|w|]
    ensures |w| < |s| ==> IsSpace(s[|w|])
  {
    if s == [] || IsSpace(s[0]) then [] else [s[0]] + TakeWord(s[1..])
  }

  /** The maximal runs of non-\s characters, left to right. */
  function Words(s: string): seq<string>
    decreases |s|
  {
    var t := DropSpaces(s);
    if t == [] then []
    else
      var w := TakeWord(t);
      assert w != [] by { assert !IsSpace(t[0]); }
      [w] + Words(t[|w|..])
  }

  /** No character of w is a \s character (checked from the first one on). */
  predicate NoSpace(w: string)
  {
    w == [] || (!IsSpace(w[0]) && NoSpace(w[1..]))
  }

  lemma {:induction false} NoSpaceEach(w: string)
    ensures NoSpace(w) <==> forall i :: 0 <= i < |w| ==> !IsSpace(w[i])
  {
    if w != [] {
      NoSpaceEach(w[1..]);
      assert forall i :: 0 < i < |w| ==> w[i] == w[1..][i - 1];
    }
  }

  /** A field of the split: a non-empty run of non-\s characters. */
  predicate IsWord(w: string)
  {
    w != [] && NoSpace(w)
  }

  /** TakeWord stops at the first \s character: what it takes has none. */
  lemma {:induction false} TakeWordHasNoSpace(s: string)
    ensures NoSpace(TakeWord(s))
  {
    if s != [] && !IsSpace(s[0]) {
      TakeWordHasNoSpace(s[1..]);
      assert ([s[0]] + TakeWord(s[1..]))[1..] == TakeWord(s[1..]);
    }
  }

  /** Every field of the split is a word: non-empty, without a \s character. */
  lemma {:induction false} WordsAreWords(s: string)
    ensures forall k :: 0 <= k < |Words(s)| ==> IsWord(Words(s)[k])
    decreases |s|
  {
    var t := DropSpaces(s);
    if t != [] {
      var w := TakeWord(t);
      assert !IsSpace(t[0]);
      TakeWordHasNoSpace(t);
      WordsAreWords(t[|w|..]);
      var ws := Words(s);
      assert ws == [w] + Words(t[|w|..]);
      forall k | 0 <= k < |ws| ensures IsWord(ws[k]) {
        if k > 0 {
          assert ws[k] == Words(t[|w|..])[k - 1];
        }
      }
    }
  }

  /**
   * String.split("\\s+") with limit 0. Java keeps a leading empty field when
   * the string starts with a separator and drops trailing empty fields; a
   * trimmed non-empty string has neither, so its fields are exactly its words.
   */
  function SplitWhitespace(s: string): (tokens: seq<string>)
    requires s != [] && !IsTrimmable(s[0])
    ensures |tokens| >= 1 && tokens[0] == TakeWord(s)
  {
    assert DropSpaces(s) == s;
    Words(s)
  }

  lemma {:induction false} TakeWordOfWord(w: string, rest: string)
    requires NoSpace(w)
    requires rest == [] || IsSpace(rest[0])
    ensures TakeWord(w + rest) == w
  {
    if w != [] {
      assert (w + rest)[1..] == w[1..] + rest;
      TakeWordOfWord(w[1..], rest);
    } else {
      assert w + rest == rest;
    }
  }

  lemma WordsOfWord(w: string)
    requires IsWord(w)
    ensures Words(" " + w) == [w]
  {
    var t := " " + w;
    assert t[1..] == w;
    assert DropSpaces(t) == w;
    TakeWordOfWord(w, []);
    assert w + [] == w;
    assert w[|w|..] == [];
    assert Words(w[|w|..]) == [];
  }

  /** A string that starts with a non-\s character splits into its first word and the split of the rest. */
  lemma WordsCons(t: string)
    requires t != [] && !IsSpace(t[0])
    ensures Words(t) == [TakeWord(t)] + Words(t[|TakeWord(t)|..])
  {
    assert DropSpaces(t) == t;
  }

  /** Splitting two words joined by one space gives back the two words. */
  lemma SplitTwoWords(a: string, b: string)
    requires IsWord(a) && IsWord(b) && !IsTrimmable(a[0])
    ensures SplitWhitespace(a + " " + b) == [a, b]
  {
    var rest := " " + b;
    var s := a + rest;
    assert a + " " + b == s;
    assert s[0] == a[0];
    TakeWordOfWord(a, rest);
    WordsCons(s);
    assert s[|a|..] == rest;
    WordsOfWord(b);
  }

  // ---------------------------------------------------------------------------
  // Integer.parseInt
  // ---------------------------------------------------------------------------

  /**
   * Integer.parseInt: an optional '+' or '-', then one or more ASCII digits,
   * and a value in the 32-bit range; anything else is a NumberFormatException
   * (None).
   */
  function ParseInt(s: string): Option<int>
  {
    if s == [] then None
    else
      var signed := s[0] == '-' || s[0] == '+';
      var ds := if signed then s[1..] else s;
      if ds == [] || !AllDigits(ds) then None
      else
        var mag: int := DigitsValue(ds);
        var v := if s[0] == '-' then -mag else mag;
        if InInt32(v) then Some(v) else None
  }

  /** Integer.toString prints a single field: a '-' and digits, never a \s character. */
  lemma IntToStringIsWord(n: int)
    ensures IsWord(IntToString(n))
  {
    var ds := DigitsOf(if n < 0 then -n else n);
    AllDigitsEach(ds);
    var t := IntToString(n);
    assert forall i :: 0 <= i < |t| ==> t[i] == '-' || IsDigit(t[i]);
    NoSpaceEach(t);
  }

  /** Integer.parseInt reads back what Integer.toString prints. */
  lemma ParseIntToString(n: int)
    requires InInt32(n)
    ensures ParseInt(IntToString(n)) == Some(n)
  {
    var m := if n < 0 then -n else n;
    DigitsRoundTrip(m);
    var ds := DigitsOf(m);
    AllDigitsEach(ds);
    if n < 0 {
      assert IntToString(n)[1..] == ds;
    } else {
      assert IntToString(n)[0] == ds[0];
    }
  }

  // ---------------------------------------------------------------------------
  // String.compareTo
  // ---------------------------------------------------------------------------

  /**
   * The UTF-16 code units of one character: itself below U+10000, otherwise
   * a high surrogate followed by a low surrogate.
   */
  function Units(c: char): (u: seq<int>)
    ensures |u| == 1 <==> c as int < 0x1_0000
    ensures |u| == 1 || |u| == 2
    ensures |u| == 1 ==> u[0] == c as int && !(0xD800 <= u[0] < 0xE000)
    ensures |u| == 2 ==> 0xD800 <= u[0] < 0xDC00 && 0xDC00 <= u[1] < 0xE000
  {
    if c as int < 0x1_0000 then [c as int]
    else
      var v := c as int - 0x1_0000;
      [0xD800 + v / 0x400, 0xDC00 + v % 0x400]
  }

  /** The UTF-16 code units of a string: what a Java String holds. */
  function Utf16(s: string): seq<int>
  {
    if s == [] then [] else Units(s[0]) + Utf16(s[1..])
  }

  /** The encoding of a character is not the start of the encoding of another. */
  lemma UnitsPrefix(c: char, d: char, x: seq<int>, y: seq<int>)
    requires Units(c) + x == Units(d) + y
    ensures c == d && x == y
  {
    var u, w := Units(c), Units(d);
    assert (u + x)[0] == u[0] && (w + y)[0] == w[0];
    if |u| == 2 {
      assert (u + x)[1] == u[1] && (w + y)[1] == w[1];
    }
    assert u == w;
    assert x == (u + x)[|u|..] && y == (w + y)[|w|..];
  }

  /** Different strings have different UTF-16 encodings. */
  lemma {:induction false} Utf16Injective(a: string, b: string)
    requires Utf16(a) == Utf16(b)
    ensures a == b
    decreases |a|
  {
    if a != [] && b != [] {
      UnitsPrefix(a[0], b[0], Utf16(a[1..]), Utf16(b[1..]));
      Utf16Injective(a[1..], b[1..]);
      assert a == [a[0]] + a[1..] && b == [b[0]] + b[1..];
    }
  }

  /**
   * Lexicographic comparison of code units: the difference of the first
   * pair that differs, or else the difference of the lengths.
   */
  function CompareUnits(a: seq<int>, b: seq<int>): int
  {
    if a == [] || b == [] then |a| - |b|
    else if a[0] != b[0] then a[0] - b[0]
    else CompareUnits(a[1..], b[1..])
  }

  /** String.compareTo: compares the UTF-16 code units, not the characters. */
  function CompareStrings(a: string, b: string): int
  {
    CompareUnits(Utf16(a), Utf16(b))
  }

  /**
   * An emoji (a surrogate pair starting 0xD83D) sorts before U+FFFD, though
   * its code point is larger.
   */
  lemma SurrogatesSortLow()
    ensures CompareStrings("\U{1F600}", "\U{FFFD}") < 0
    ensures "\U{1F600}"[0] as int > "\U{FFFD}"[0] as int
  {
    assert Utf16("\U{1F600}") == [0xD83D, 0xDE00] by {
      assert Utf16("\U{1F600}"[1..]) == [];
    }
    assert Utf16("\U{FFFD}") == [0xFFFD] by {
      assert Utf16("\U{FFFD}"[1..]) == [];
    }
  }

  function Sign(n: int): int { if n < 0 then -1 else if n > 0 then 1 else 0 }

  lemma {:induction false} CompareUnitsZero(a: seq<int>, b: seq<int>)
    ensures CompareUnits(a, b) == 0 <==> a == b
    decreases |a|
  {
    if a != [] && b != [] && a[0] == b[0] {
      CompareUnitsZero(a[1..], b[1..]);
      assert a == [a[0]] + a[1..] && b == [b[0]] + b[1..];
    }
  }

  lemma CompareStringsZero(a: string, b: string)
    ensures CompareStrings(a, b) == 0 <==> a == b
  {
    CompareUnitsZero(Utf16(a), Utf16(b));
    if Utf16(a) == Utf16(b) {
      Utf16Injective(a, b);
    }
  }

  lemma {:induction false} CompareUnitsAntisymmetric(a: seq<int>, b: seq<int>)
    ensures Sign(CompareUnits(a, b)) == -Sign(CompareUnits(b, a))
    decreases |a|
  {
    if a != [] && b != [] && a[0] == b[0] {
      CompareUnitsAntisymmetric(a[1..], b[1..]);
    }
  }

  lemma CompareStringsAntisymmetric(a: string, b: string)
    ensures Sign(CompareStrings(a, b)) == -Sign(CompareStrings(b, a))
  {
    CompareUnitsAntisymmetric(Utf16(a), Utf16(b));
  }

  lemma {:induction false} CompareUnitsTransitive(a: seq<int>, b: seq<int>, c: seq<int>)
    requires CompareUnits(a, b) <= 0 && CompareUnits(b, c) <= 0
    ensures CompareUnits(a, c) <= 0
    decreases |a|
  {
    if a != [] && b != [] && c != [] && a[0] == b[0] && b[0] == c[0] {
      CompareUnitsTransitive(a[1..], b[1..], c[1..]);
    }
  }

  lemma CompareStringsTransitive(a: string, b: string, c: string)
    requires CompareStrings(a, b) <= 0 && CompareStrings(b, c) <= 0
    ensures CompareStrings(a, c) <= 0
  {
    CompareUnitsTransitive(Utf16(a), Utf16(b), Utf16(c));
  }

  lemma CompareStringsTotal(a: string, b: string)
    ensures CompareStrings(a, b) <= 0 || CompareStrings(b, a) <= 0
  {
    CompareStringsAntisymmetric(a, b);
  }
}
