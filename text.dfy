/** Character and string helpers the scrapers share: whitespace trimming, substring search,
    splitting on a separator, ASCII case mapping, and decimal integer printing and parsing. */
module Text {
  import opened Wrappers

  /** The white-space characters that `String.Trim`, `str.strip` and `int.TryParse` skip, restricted to ASCII. */
  predicate IsWhite(c: char) {
    c == ' ' || c == '\t' || c == '\n' || c == '\r' || c == '\U{000B}' || c == '\U{000C}'
  }

  predicate IsDigit(c: char) { '0' <= c <= '9' }
  predicate IsUpper(c: char) { 'A' <= c <= 'Z' }
  predicate IsLower(c: char) { 'a' <= c <= 'z' }
  predicate IsLetter(c: char) { IsUpper(c) || IsLower(c) }

  predicate AllDigits(s: string) { forall i :: 0 <= i < |s| ==> IsDigit(s[i]) }

  /** `\s*`: drops leading white space, leaving a suffix of `s` that does not start with it. */
  function TrimStart(s: string): (r: string)
    ensures |r| <= |s|
    ensures r == [] || !IsWhite(r[0])
    decreases |s|
  {
    if |s| > 0 && IsWhite(s[0]) then TrimStart(s[1..]) else s
  }

  /** `String.Trim()` and `str.strip()`: a piece of `s` that starts and ends with a non-white character. */
  function Trim(s: string): (r: string)
    ensures r == [] || (!IsWhite(r[0]) && !IsWhite(r[|r| - 1]))
    decreases |s|
  {
    if |s| > 0 && IsWhite(s[0]) then Trim(s[1..])
    else if |s| > 0 && IsWhite(s[|s| - 1]) then Trim(s[..|s| - 1])
    else s
  }

  lemma TrimUnchanged(s: string)
    requires s == [] || (!IsWhite(s[0]) && !IsWhite(s[|s| - 1]))
    ensures Trim(s) == s
  {
  }

  predicate StartsWith(s: string, p: string) {
    |p| <= |s| && s[..|p|] == p
  }

  /** `t` occurs in `s` starting at index `i`. */
  predicate OccursAt(s: string, t: string, i: int) {
    0 <= i && i + |t| <= |s| && s[i..i + |t|] == t
  }

  /** `s.Contains(t)` and Python's `t in s`. */
  predicate Contains(s: string, t: string)
    decreases |s|
  {
    StartsWith(s, t) || (|s| > 0 && Contains(s[1..], t))
  }

  /** The scanning definition of `Contains` agrees with "occurs at some index", in both directions. */
  lemma {:induction false} ContainsIff(s: string, t: string)
    ensures Contains(s, t) <==> exists i :: OccursAt(s, t, i)
    decreases |s|
  {
    if StartsWith(s, t) {
      assert OccursAt(s, t, 0);
    } else if |s| > 0 {
      ContainsIff(s[1..], t);
      if Contains(s[1..], t) {
        var i :| OccursAt(s[1..], t, i);
        assert s[i + 1..i + 1 + |t|] == s[1..][i..i + |t|];
        assert OccursAt(s, t, i + 1);
      }
      if exists i :: OccursAt(s, t, i) {
        var i :| OccursAt(s, t, i);
        assert i != 0;
        assert s[1..][i - 1..i - 1 + |t|] == s[i..i + |t|];
        assert OccursAt(s[1..], t, i - 1);
      }
    } else {
      assert forall i :: !OccursAt(s, t, i);
    }
  }

  /** The index of the first `c` in `s`, or `|s|` when there is none. */
  function IndexOf(s: string, c: char): (i: nat)
    ensures i <= |s|
    ensures i < |s| ==> s[i] == c
    ensures forall j :: 0 <= j < i ==> s[j] != c
  {
    if s == [] then 0 else if s[0] == c then 0 else 1 + IndexOf(s[1..], c)
  }

  /** `s.Split(c)` and `s.split(c)`: the pieces between the separators, empty pieces kept. */
  function Split(s: string, c: char): (r: seq<string>)
    ensures |r| >= 1
    ensures forall k :: 0 <= k < |r| ==> c !in r[k]
    decreases |s|
  {
    if s == [] then [""]
    else
      var rest := Split(s[1..], c);
      if s[0] == c then [""] + rest else [[s[0]] + rest[0]] + rest[1..]
  }

  /** The pieces put back together with `c` between them. */
  function Join(parts: seq<string>, c: char): string
  {
    if parts == [] then "" else if |parts| == 1 then parts[0] else parts[0] + [c] + Join(parts[1..], c)
  }

  /** Splitting loses nothing: joining the pieces gives the original string back. */
  lemma {:induction false} JoinSplit(s: string, c: char)
    ensures Join(Split(s, c), c) == s
    decreases |s|
  {
    if s != [] {
      var rest := Split(s[1..], c);
      JoinSplit(s[1..], c);
      if s[0] == c {
        assert s == [c] + s[1..];
      } else if |rest| == 1 {
        assert s == [s[0]] + s[1..];
      } else {
        var r := [[s[0]] + rest[0]] + rest[1..];
        assert r[1..] == rest[1..];
        assert Join(rest, c) == rest[0] + [c] + Join(rest[1..], c);
        assert s == [s[0]] + s[1..];
      }
    }
  }

  /** A separator splits the string into the pieces on its left followed by those on its right. */
  lemma {:induction false} SplitAround(a: string, b: string, c: char)
    ensures Split(a + [c] + b, c) == Split(a, c) + Split(b, c)
    decreases |a|
  {
    if a == [] {
      assert a + [c] + b == [c] + b;
      assert ([c] + b)[1..] == b;
    } else {
      var s := a + [c] + b;
      assert s[0] == a[0];
      assert s[1..] == a[1..] + [c] + b;
      SplitAround(a[1..], b, c);
    }
  }

  /** A string without the separator is a single piece. */
  lemma {:induction false} SplitSingle(s: string, c: char)
    requires c !in s
    ensures Split(s, c) == [s]
    decreases |s|
  {
    if s != [] {
      assert c !in s[1..];
      SplitSingle(s[1..], c);
      assert s == [s[0]] + s[1..];
    }
  }

  /** One separator between two separator-free strings splits them apart. */
  lemma SplitPair(a: string, b: string, c: char)
    requires c !in a && c !in b
    ensures Split(a + [c] + b, c) == [a, b]
  {
    SplitAround(a, b, c);
    SplitSingle(a, c);
    SplitSingle(b, c);
  }

  /** A string holding the separator splits into at least two pieces. */
  lemma {:induction false} SplitMany(s: string, c: char)
    requires c in s
    ensures |Split(s, c)| >= 2
    decreases |s|
  {
    if s[0] != c {
      assert c in s[1..];
      SplitMany(s[1..], c);
    }
  }

  function DigitValue(c: char): nat
    requires IsDigit(c)
  {
    c as int - '0' as int
  }

  function DigitChar(d: nat): char
    requires d < 10
  {
    ('0' as int + d) as char
  }

  /** The value of a string of decimal digits, most significant first. */
  function ParseDigits(s: string): nat
    requires AllDigits(s)
    decreases |s|
  {
    if s == [] then 0 else ParseDigits(s[..|s| - 1]) * 10 + DigitValue(s[|s| - 1])
  }

  /** The decimal representation of `n`, without leading zeros. */
  function NatToString(n: nat): (r: string)
    ensures |r| >= 1 && AllDigits(r)
    ensures |r| > 1 ==> r[0] != '0'
  {
    if n < 10 then [DigitChar(n)] else NatToString(n / 10) + [DigitChar(n % 10)]
  }

  /** Printing and then reading a natural number gives it back. */
  lemma {:induction false} ParseNatToString(n: nat)
    ensures ParseDigits(NatToString(n)) == n
  {
    if n >= 10 {
      var s := NatToString(n);
      assert s[..|s| - 1] == NatToString(n / 10);
      ParseNatToString(n / 10);
    }
  }

  /** `int.ToString()`: an optional minus sign and the decimal digits. */
  function IntToString(i: int): string {
    if i < 0 then "-" + NatToString(-i) else NatToString(i)
  }

  /** `ToString("D2")`: at least two digits, zero-padded, the sign kept in front. */
  function PadTwo(i: int): string {
    var digits := NatToString(if i < 0 then -i else i);
    var padded := if |digits| < 2 then "0" + digits else digits;
    if i < 0 then "-" + padded else padded
  }

  const Int32Min: int := -0x8000_0000
  const Int32Max: int := 0x7FFF_FFFF

  /** `int.TryParse(s, out v)` with the default integer style: surrounding white space, an
      optional '+' or '-', one or more ASCII digits, and a value that fits in 32 bits. */
  function TryParseInt32(s: string): (r: Option<int>)
    ensures r.Some? ==> Int32Min <= r.value <= Int32Max
  {
    var t := Trim(s);
    var signed := |t| > 0 && (t[0] == '-' || t[0] == '+');
    var body := if signed then t[1..] else t;
    if body == [] || !AllDigits(body) then None
    else
      var v: int := if signed && t[0] == '-' then -(ParseDigits(body) as int) else ParseDigits(body);
      if Int32Min <= v <= Int32Max then Some(v) else None
  }

  /** Every 32-bit integer printed by `IntToString` is read back by `TryParseInt32`. */
  lemma TryParseIntToString(i: int)
    requires Int32Min <= i <= Int32Max
    ensures TryParseInt32(IntToString(i)) == Some(i)
  {
    var n: nat := if i < 0 then -i else i;
    var d := NatToString(n);
    ParseNatToString(n);
    var s := IntToString(i);
    assert s == if i < 0 then "-" + d else d;
    assert !IsWhite(s[0]) && !IsWhite(s[|s| - 1]) by {
      assert IsDigit(d[|d| - 1]) && IsDigit(d[0]);
      assert s[|s| - 1] == d[|d| - 1];
    }
    assert Trim(s) == s by {
      TrimUnchanged(s);
    }
    var body := if |s| > 0 && (s[0] == '-' || s[0] == '+') then s[1..] else s;
    assert body == d by {
      if i < 0 {
        assert s[1..] == d;
      } else {
        assert IsDigit(s[0]);
      }
    }
  }

  function LowerChar(c: char): char {
    if IsUpper(c) then (c as int + 32) as char else c
  }

  function UpperChar(c: char): char {
    if IsLower(c) then (c as int - 32) as char else c
  }

  /** `ToLower()` and `lower()`, ASCII letters only. */
  function ToLower(s: string): string {
    seq(|s|, i requires 0 <= i < |s| => LowerChar(s[i]))
  }

  /** The largest element of a non-empty sequence. */
  function MaxOf(xs: seq<int>): (m: int)
    requires |xs| > 0
    ensures m in xs && forall i :: 0 <= i < |xs| ==> xs[i] <= m
  {
    if |xs| == 1 then xs[0]
    else
      var m := MaxOf(xs[1..]);
      if xs[0] >= m then xs[0] else m
  }

  /** Characters that carry a word of `TextInfo.ToTitleCase` on once a letter has opened it. */
  predicate InWordMark(c: char) {
    IsDigit(c) || c == '\''
  }

  /** A word is open just before position `i`: a letter came earlier, followed only by letters,
      digits and apostrophes. Every other character ends a word. */
  predicate WordOpen(s: string, i: nat)
    requires i <= |s|
  {
    i > 0 && (IsLetter(s[i - 1]) || (InWordMark(s[i - 1]) && WordOpen(s, i - 1)))
  }

  /** `TextInfo.ToTitleCase` on ASCII text without upper-case letters, which is what both of
      its callers pass (they lower-case first): the letter that opens a word is upper case and
      every other letter lower case. */
  function TitleCase(s: string): string {
    seq(|s|, i requires 0 <= i < |s| =>
      if IsLetter(s[i]) && !WordOpen(s, i) then UpperChar(s[i]) else LowerChar(s[i]))
  }

  /** Neither a digit nor an apostrophe occurs: the text on which a word is a run of letters. */
  predicate Plain(s: string) {
    forall k :: 0 <= k < |s| ==> !InWordMark(s[k])
  }

  /** On plain text a word is open exactly after a letter. */
  lemma PlainWordOpen(s: string, i: nat)
    requires i <= |s| && Plain(s)
    ensures WordOpen(s, i) <==> i > 0 && IsLetter(s[i - 1])
  {
  }

  /** Whether a word is open depends only on where the letters, digits and apostrophes are. */
  lemma {:induction false} WordOpenSameShape(s: string, t: string, i: nat)
    requires i <= |s| == |t|
    requires forall k :: 0 <= k < i ==> (IsLetter(s[k]) <==> IsLetter(t[k])) && (InWordMark(s[k]) <==> InWordMark(t[k]))
    ensures WordOpen(s, i) <==> WordOpen(t, i)
    decreases i
  {
    if i > 0 {
      WordOpenSameShape(s, t, i - 1);
    }
  }

  /** Case mapping keeps letters letters and every other character as it is. */
  lemma CaseMapping(c: char)
    ensures IsLetter(LowerChar(c)) <==> IsLetter(c)
    ensures IsLetter(UpperChar(c)) <==> IsLetter(c)
    ensures IsLetter(c) ==> IsLower(LowerChar(c)) && IsUpper(UpperChar(c))
    ensures !IsLetter(c) ==> LowerChar(c) == c && UpperChar(c) == c
    ensures LowerChar(LowerChar(c)) == LowerChar(c) && LowerChar(UpperChar(c)) == LowerChar(c)
  {
  }

  /** Title case changes the case of letters only: lower-casing its result undoes it. */
  lemma TitleCaseLetters(s: string)
    ensures |TitleCase(s)| == |s|
    ensures ToLower(TitleCase(s)) == ToLower(s)
    ensures forall i :: 0 <= i < |s| ==>
      (IsLetter(TitleCase(s)[i]) <==> IsLetter(s[i])) && (InWordMark(TitleCase(s)[i]) <==> InWordMark(s[i]))
  {
    var t := TitleCase(s);
    forall i | 0 <= i < |s|
      ensures ToLower(t)[i] == ToLower(s)[i]
      ensures (IsLetter(t[i]) <==> IsLetter(s[i])) && (InWordMark(t[i]) <==> InWordMark(s[i]))
    {
      CaseMapping(s[i]);
    }
  }

  /** Lower-casing twice is lower-casing once. */
  lemma ToLowerIdempotent(s: string)
    ensures ToLower(ToLower(s)) == ToLower(s)
  {
    forall i | 0 <= i < |s|
      ensures ToLower(ToLower(s))[i] == ToLower(s)[i]
    {
      CaseMapping(s[i]);
    }
  }
}
