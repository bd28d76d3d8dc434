/** String operations the value coercion relies on: Rust's `str::trim`,
    ASCII lower-casing, character removal (`str::replace` with an empty
    replacement) and the decimal rendering of an integer. */
module Text {

  /** Rust's `char::is_whitespace`: the Unicode White_Space property. */
  predicate IsWhitespace(c: char) {
    var n := c as int;
    (0x09 <= n <= 0x0D) || n == 0x20 || n == 0x85 || n == 0xA0 || n == 0x1680
    || (0x2000 <= n <= 0x200A) || n == 0x2028 || n == 0x2029 || n == 0x202F
    || n == 0x205F || n == 0x3000
  }

  /** Every character of `s` is whitespace (the empty string included). */
  predicate IsBlank(s: string) {
    forall i :: 0 <= i < |s| ==> IsWhitespace(s[i])
  }

  /** Drops leading whitespace: the result is the suffix of `s` that starts
      at its first non-whitespace character. */
  function TrimStart(s: string): (r: string)
    ensures |r| <= |s| && r == s[|s| - |r|..]
    ensures forall i :: 0 <= i < |s| - |r| ==> IsWhitespace(s[i])
    ensures |r| > 0 ==> !IsWhitespace(r[0])
  {
    if |s| > 0 && IsWhitespace(s[0]) then TrimStart(s[1..]) else s
  }

  /** Drops trailing whitespace: the result is the prefix of `s` that ends
      at its last non-whitespace character. */
  function TrimEnd(s: string): (r: string)
    ensures |r| <= |s| && r == s[..|r|]
    ensures forall i :: |r| <= i < |s| ==> IsWhitespace(s[i])
    ensures |r| > 0 ==> !IsWhitespace(r[|r| - 1])
  {
    if |s| > 0 && IsWhitespace(s[|s| - 1]) then TrimEnd(s[..|s| - 1]) else s
  }

  /** What `TrimStart` cuts off is blank. */
  lemma LeadBlank(s: string)
    ensures IsBlank(s[..|s| - |TrimStart(s)|])
  {
    var n := |s| - |TrimStart(s)|;
    assert forall k :: 0 <= k < n ==> s[..n][k] == s[k];
  }

  /** What `TrimEnd` cuts off is blank. */
  lemma TrailBlank(s: string)
    ensures IsBlank(s[|TrimEnd(s)|..])
  {
    var n := |TrimEnd(s)|;
    assert forall k :: 0 <= k < |s| - n ==> s[n..][k] == s[n + k];
  }

  /** Rust's `str::trim`: `s` with leading and trailing whitespace removed.
      The result is a slice of `s` bounded by non-whitespace characters, and
      everything cut off on either side is whitespace. */
  function Trim(s: string): (r: string)
    ensures exists i, j {:trigger s[i..j]} :: 0 <= i <= j <= |s| && r == s[i..j]
                  && IsBlank(s[..i]) && IsBlank(s[j..])
    ensures |r| > 0 ==> !IsWhitespace(r[0]) && !IsWhitespace(r[|r| - 1])
  {
    var a := TrimStart(s);
    var r := TrimEnd(a);
    var i := |s| - |a|;
    var j := i + |r|;
    LeadBlank(s);
    TrailBlank(a);
    PrefixOfSuffix(s, i, |r|);
    r
  }

  /** A prefix of a suffix of `s` is a slice of `s`, and what follows it in
      the suffix is what follows the slice in `s`. */
  lemma PrefixOfSuffix(s: string, i: nat, n: nat)
    requires i + n <= |s|
    ensures s[i..][..n] == s[i..i + n]
    ensures s[i..][n..] == s[i + n..]
  {
  }

  /** `trim().is_empty()` holds exactly for the strings made of whitespace
      alone. */
  lemma {:induction false} TrimEmptyIffBlank(s: string)
    ensures |Trim(s)| == 0 <==> IsBlank(s)
  {
    var a := TrimStart(s);
    var cut := |s| - |a|;
    // a blank string leaves nothing after its leading whitespace
    assert |a| > 0 ==> a[0] == s[cut];
    // a non-whitespace character survives both trims
    forall k | 0 <= k < |s| && !IsWhitespace(s[k])
      ensures |Trim(s)| > 0
    {
      assert cut <= k;
      assert a[k - cut] == s[k];
    }
  }

  /** ASCII lower-casing of one character; other characters are kept. */
  function LowerChar(c: char): char {
    if 'A' <= c <= 'Z' then (c as int - 'A' as int + 'a' as int) as char else c
  }

  /** ASCII lower-casing of a string, character by character. */
  function Lower(s: string): (r: string)
    ensures |r| == |s|
    ensures forall i :: 0 <= i < |s| ==> r[i] == LowerChar(s[i])
  {
    seq(|s|, i requires 0 <= i < |s| => LowerChar(s[i]))
  }

  /** Rust's `str::replace` of each character in `drop` by the empty string.
      That every other character is kept, in order, is `RemoveCharsOne` with
      `RemoveCharsAppend`; `RemoveCharsKeeps` and `RemoveCharsCounts` follow. */
  function RemoveChars(s: string, drop: set<char>): (r: string)
    ensures |r| <= |s|
    ensures forall i :: 0 <= i < |r| ==> r[i] !in drop
  {
    if |s| == 0 then ""
    else if s[0] in drop then RemoveChars(s[1..], drop)
    else [s[0]] + RemoveChars(s[1..], drop)
  }

  /** A single character is dropped exactly when it is in `drop`. */
  lemma RemoveCharsOne(c: char, drop: set<char>)
    ensures RemoveChars([c], drop) == if c in drop then [] else [c]
  {
    assert [c][1..] == [];
  }

  /** Stripping works piece by piece: the stripped pieces of a text,
      concatenated in order, are the stripped text. With `RemoveCharsOne`
      this pins the result down to the kept characters in their order. */
  lemma {:induction false} RemoveCharsAppend(a: string, b: string, drop: set<char>)
    ensures RemoveChars(a + b, drop) == RemoveChars(a, drop) + RemoveChars(b, drop)
    decreases |a|
  {
    if |a| > 0 {
      assert (a + b)[1..] == a[1..] + b;
      RemoveCharsAppend(a[1..], b, drop);
    } else {
      assert a + b == b;
    }
  }

  /** `RemoveChars` leaves none of `drop`, and text without any of `drop`
      comes back unchanged. */
  lemma {:induction false} RemoveCharsKeeps(s: string, drop: set<char>)
    ensures var r := RemoveChars(s, drop);
            && |r| <= |s|
            && (forall i :: 0 <= i < |r| ==> r[i] !in drop)
            && ((forall i :: 0 <= i < |s| ==> s[i] !in drop) ==> r == s)
  {
    if |s| > 0 {
      RemoveCharsKeeps(s[1..], drop);
      if s[0] !in drop {
        var rest := RemoveChars(s[1..], drop);
        assert forall i :: 1 <= i < |rest| + 1 ==> ([s[0]] + rest)[i] == rest[i - 1];
      }
    }
  }

  /** `RemoveChars` keeps every character outside `drop` as often as it
      occurs in `s`. */
  lemma {:induction false} RemoveCharsCounts(s: string, drop: set<char>, c: char)
    requires c !in drop
    ensures multiset(RemoveChars(s, drop))[c] == multiset(s)[c]
  {
    if |s| > 0 {
      RemoveCharsCounts(s[1..], drop, c);
      assert s == [s[0]] + s[1..];
      assert multiset(s) == multiset([s[0]]) + multiset(s[1..]);
      if s[0] !in drop {
        var rest := RemoveChars(s[1..], drop);
        assert multiset([s[0]] + rest) == multiset([s[0]]) + multiset(rest);
      }
    }
  }

  /** The character of the decimal digit `d`. */
  function DigitChar(d: int): char
    requires 0 <= d < 10
  {
    ('0' as int + d) as char
  }

  predicate IsDigit(c: char) {
    '0' <= c <= '9'
  }

  /** The value of a decimal digit character. */
  function DigitValue(c: char): (d: int)
    requires IsDigit(c)
    ensures 0 <= d < 10 && DigitChar(d) == c
  {
    c as int - '0' as int
  }

  /** The value of a string of decimal digits, most significant first. */
  function NatValue(s: string): (n: nat)
    requires forall i :: 0 <= i < |s| ==> IsDigit(s[i])
  {
    if |s| == 0 then 0 else NatValue(s[..|s| - 1]) * 10 + DigitValue(s[|s| - 1])
  }

  /** Shortest decimal rendering of a natural number. */
  function NatToDecimal(n: nat): (r: string)
    ensures |r| > 0
    ensures forall i :: 0 <= i < |r| ==> IsDigit(r[i])
    ensures r[0] == '0' ==> n == 0 && |r| == 1
    ensures NatValue(r) == n
  {
    if n < 10 then [DigitChar(n)]
    else
      var r := NatToDecimal(n / 10) + [DigitChar(n % 10)];
      assert r[..|r| - 1] == NatToDecimal(n / 10);
      r
  }

  /** Decimal rendering of an integer, with a leading `-` when negative.
      Rust's `Display` of an integer-valued `f64` prints the same digits
      when the magnitude is at most 2^53; above that it prints the shortest
      digits that identify the double, padded with zeros. */
  function IntToDecimal(n: int): (r: string)
    ensures |r| > 0
    // a sign exactly for negative numbers
    ensures r[0] == '-' <==> n < 0
    // then the shortest digits of the magnitude
    ensures var digits := if n < 0 then r[1..] else r;
            && |digits| > 0
            && (forall i :: 0 <= i < |digits| ==> IsDigit(digits[i]))
            && (digits[0] == '0' ==> n == 0 && |digits| == 1)
            && NatValue(digits) == if n < 0 then -n else n
  {
    if n < 0 then
      var r := "-" + NatToDecimal(-n);
      assert r[1..] == NatToDecimal(-n);
      r
    else NatToDecimal(n)
  }
}
