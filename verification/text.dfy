/** String primitives the pages rely on: `toLowerCase` / `toUpperCase` on ASCII letters,
    `String.prototype.includes`, and decimal numerals as produced by `Number.prototype.toString`
    and read back by `parseInt`. */
module Text {

  predicate IsUpper(c: char) {
    'A' <= c <= 'Z'
  }

  predicate IsLower(c: char) {
    'a' <= c <= 'z'
  }

  predicate IsDigit(c: char) {
    '0' <= c <= '9'
  }

  /** `toLowerCase` on one character; only ASCII letters are folded. */
  function LowerChar(c: char): char {
    if IsUpper(c) then (c as int + 32) as char else c
  }

  /** `toUpperCase` on one character; only ASCII letters are folded. */
  function UpperChar(c: char): char {
    if IsLower(c) then (c as int - 32) as char else c
  }

  /** `s.toLowerCase()` over ASCII. */
  function Lower(s: string): string {
    seq(|s|, i requires 0 <= i < |s| => LowerChar(s[i]))
  }

  /** Lowercasing twice is lowercasing once, so a query that is already lowercase
      is left as it is. */
  lemma LowerIdempotent(s: string)
    ensures Lower(Lower(s)) == Lower(s)
  {
  }

  /** A lowercased string holds no uppercase ASCII letter. */
  lemma LowerHasNoUpper(s: string)
    ensures forall i :: 0 <= i < |Lower(s)| ==> !IsUpper(Lower(s)[i])
  {
  }

  /** A lowercase letter absent from `s` in both of its cases is absent from `Lower(s)`. */
  lemma LowerAvoids(s: string, c: char)
    requires IsLower(c) && c !in s && UpperChar(c) !in s
    ensures c !in Lower(s)
  {
    forall i | 0 <= i < |s|
      ensures Lower(s)[i] != c
    {
      assert s[i] != c && s[i] != UpperChar(c);
    }
  }

  /** `s.includes(q)`: `q` occurs somewhere in `s`, found by trying every start position. */
  predicate Includes(s: string, q: string)
    decreases |s|
  {
    q <= s || (|s| > 0 && Includes(s[1..], q))
  }

  /** `q` occurs in `s` starting at index `i`. */
  predicate OccursAt(s: string, q: string, i: int) {
    0 <= i && i + |q| <= |s| && s[i..i + |q|] == q
  }

  lemma {:induction false} IncludesHasOccurrence(s: string, q: string)
    requires Includes(s, q)
    ensures exists i :: OccursAt(s, q, i)
    decreases |s|
  {
    if q <= s {
      assert OccursAt(s, q, 0);
    } else {
      IncludesHasOccurrence(s[1..], q);
      var i :| OccursAt(s[1..], q, i);
      assert s[1..][i..i + |q|] == s[i + 1..i + 1 + |q|];
      assert OccursAt(s, q, i + 1);
    }
  }

  lemma {:induction false} OccurrenceIncludes(s: string, q: string, i: int)
    requires OccursAt(s, q, i)
    ensures Includes(s, q)
    decreases i
  {
    if i == 0 {
      assert s[..|q|] == q;
    } else {
      assert s[1..][i - 1..i - 1 + |q|] == s[i..i + |q|];
      OccurrenceIncludes(s[1..], q, i - 1);
    }
  }

  /** The scanning definition of `includes` agrees with "some slice of `s` equals `q`". */
  lemma IncludesIff(s: string, q: string)
    ensures Includes(s, q) <==> exists i :: OccursAt(s, q, i)
  {
    if Includes(s, q) {
      IncludesHasOccurrence(s, q);
    }
    if exists i :: OccursAt(s, q, i) {
      var i :| OccursAt(s, q, i);
      OccurrenceIncludes(s, q, i);
    }
  }

  /** Every string includes the empty string. */
  lemma IncludesEmpty(s: string)
    ensures Includes(s, "")
  {
  }

  /** If a character of `q` does not occur in `s`, then `q` does not occur in `s`. */
  lemma NotIncludesByChar(s: string, q: string, c: char)
    requires c in q && c !in s
    ensures !Includes(s, q)
  {
    var k :| 0 <= k < |q| && q[k] == c;
    forall i: int
      ensures !OccursAt(s, q, i)
    {
      if 0 <= i && i + |q| <= |s| {
        assert s[i..i + |q|][k] == s[i + k] != c;
      }
    }
    IncludesIff(s, q);
  }

  /** `s.includes(c)` for a one-character string is membership of the character. */
  lemma IncludesChar(s: string, c: char)
    ensures Includes(s, [c]) <==> c in s
  {
    IncludesIff(s, [c]);
    if c in s {
      var i :| 0 <= i < |s| && s[i] == c;
      assert OccursAt(s, [c], i);
    }
    if Includes(s, [c]) {
      var i :| OccursAt(s, [c], i);
      assert s[i] == s[i..i + 1][0] == c;
    }
  }

  /** A non-empty string made only of digits 0-9. */
  predicate IsDecimal(s: string) {
    |s| > 0 && forall i :: 0 <= i < |s| ==> IsDigit(s[i])
  }

  function DigitValue(c: char): nat
    requires IsDigit(c)
  {
    c as int - '0' as int
  }

  function DigitChar(d: nat): (c: char)
    requires d < 10
    ensures IsDigit(c) && DigitValue(c) == d
  {
    ('0' as int + d) as char
  }

  /** The number a string of digits denotes in base 10 (`parseInt` on a decimal numeral). */
  function DecimalValue(s: string): nat
    requires forall i :: 0 <= i < |s| ==> IsDigit(s[i])
  {
    if |s| == 0 then 0
    else DecimalValue(s[..|s| - 1]) * 10 + DigitValue(s[|s| - 1])
  }

  /** `n.toString()` for a natural number: its base-10 numeral without leading zeros,
      which reads back as `n`. */
  function NatToDecimal(n: nat): (r: string)
    ensures IsDecimal(r)
    ensures DecimalValue(r) == n
    ensures |r| > 1 ==> r[0] != '0'
    ensures n > 0 ==> r[0] != '0'
  {
    if n < 10 then [DigitChar(n)]
    else
      var prefix := NatToDecimal(n / 10);
      var r := prefix + [DigitChar(n % 10)];
      assert r[..|r| - 1] == prefix;
      r
  }
}
