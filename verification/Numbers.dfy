/**
  Numbers on the wire: printf's %lu and %d, and the C library's strtoul and strtoll in
  base 10 (sections 7.21.6.1 and 7.22.1.4 of C11).
*/
module Numbers {
  const WORD32: nat := 0x1_0000_0000
  const WORD64: nat := 0x1_0000_0000_0000_0000

  predicate IsDigit(c: char) { '0' <= c <= '9' }

  predicate AllDigits(t: string) { forall k :: 0 <= k < |t| ==> IsDigit(t[k]) }

  predicate IsSpace(c: char) { c == ' ' || 9 as char <= c <= 13 as char }

  function DigitChar(d: nat): char
    requires d < 10
  {
    '0' + d as char
  }

  /** What %lu prints. */
  function Digits(n: nat): (t: string)
    ensures t != "" && AllDigits(t)
  {
    if n < 10 then [DigitChar(n)] else Digits(n / 10) + [DigitChar(n % 10)]
  }

  lemma DigitsArePlain(n: nat)
    ensures forall c :: c in Digits(n) ==> IsDigit(c) && c !in {';', ',', ' ', '\0'}
  {
  }

  /** How many leading characters are digits, and the number they spell. */
  function DigitCount(t: string): (n: nat)
    ensures n <= |t|
  {
    if t == "" || !IsDigit(t[0]) then 0 else 1 + DigitCount(t[1..])
  }

  function Value(t: string): nat
    requires AllDigits(t)
  {
    if t == "" then 0 else 10 * Value(t[..|t| - 1]) + (t[|t| - 1] - '0') as nat
  }

  lemma {:induction false} LeadingDigits(t: string)
    ensures AllDigits(t[..DigitCount(t)]) && (DigitCount(t) < |t| ==> !IsDigit(t[DigitCount(t)]))
  {
    if t != "" && IsDigit(t[0]) {
      LeadingDigits(t[1..]);
      var n := DigitCount(t[1..]);
      forall k | 0 <= k < n + 1 ensures IsDigit(t[k]) {
        assert k > 0 ==> t[k] == t[1..][..n][k - 1];
      }
    }
  }

  function LeadingValue(t: string): nat {
    LeadingDigits(t);
    Value(t[..DigitCount(t)])
  }

  function SkipSpaces(t: string): string {
    if t == "" || !IsSpace(t[0]) then t else SkipSpaces(t[1..])
  }

  /** strtoul: white space, an optional sign, digits; saturates, and negates modulo the word. */
  function StrToUl(t: string, word: nat): (n: nat)
    requires word > 0
    ensures n < word
  {
    var u := SkipSpaces(t);
    var minus := u != "" && u[0] == '-';
    var digits := if u != "" && (u[0] == '-' || u[0] == '+') then u[1..] else u;
    var v := LeadingValue(digits);
    if v >= word then word - 1 else if minus then (word - v) % word else v
  }

  /** The Windows wrapper: strtoll of a whole string, cut to a DWORD; None is its exit. */
  datatype Parsed = Invalid | Number(value: nat)

  function StrToDword(t: string): Parsed {
    var u := SkipSpaces(t);
    var minus := u != "" && u[0] == '-';
    var digits := if u != "" && (u[0] == '-' || u[0] == '+') then u[1..] else u;
    if digits == "" || DigitCount(digits) != |digits| then Invalid
    else
      var v: int := LeadingValue(digits);
      var clamped: int := if minus then (if v > WORD64 / 2 then -(WORD64 / 2) else -v)
                          else if v >= WORD64 / 2 then WORD64 / 2 - 1 else v;
      Number(clamped % WORD32)
  }

  /** atoi of text that spells an int. */
  function Atoi(t: string): int {
    var u := SkipSpaces(t);
    var minus := u != "" && u[0] == '-';
    var digits := if u != "" && (u[0] == '-' || u[0] == '+') then u[1..] else u;
    var v: int := LeadingValue(digits);
    if minus then -v else v
  }

  // ----------------------------------------------------------------- round trips

  lemma {:induction false} CountMore(t: string, rest: string)
    requires AllDigits(t)
    ensures DigitCount(t + rest) == |t| + DigitCount(rest)
  {
    if t == "" {
      assert t + rest == rest;
    } else {
      assert (t + rest)[1..] == t[1..] + rest;
      CountMore(t[1..], rest);
    }
  }

  lemma {:induction false} ValueOfDigits(n: nat)
    ensures Value(Digits(n)) == n
  {
    if n >= 10 {
      ValueOfDigits(n / 10);
      assert Digits(n)[..|Digits(n)| - 1] == Digits(n / 10);
    } else {
      assert Digits(n)[..0] == "";
    }
  }

  lemma LeadingValueOfDigits(n: nat, rest: string)
    requires rest == "" || !IsDigit(rest[0])
    ensures LeadingValue(Digits(n) + rest) == n && DigitCount(Digits(n) + rest) == |Digits(n)|
  {
    CountMore(Digits(n), rest);
    ValueOfDigits(n);
    assert (Digits(n) + rest)[..|Digits(n)|] == Digits(n);
  }

  /** The number itself, or the largest word. */
  function Saturated(n: nat, word: nat): nat
    requires word > 0
  {
    if n < word then n else word - 1
  }

  /** Printing a number and parsing it back gives the number if it is a word, and the
      largest word otherwise, whatever follows the digits. */
  lemma PrintParse(n: nat, rest: string, word: nat)
    requires word > 0 && (rest == "" || !IsDigit(rest[0]))
    ensures StrToUl(Digits(n) + rest, word) == Saturated(n, word)
  {
    assert IsDigit(Digits(n)[0]) && (Digits(n) + rest)[0] == Digits(n)[0];
    LeadingValueOfDigits(n, rest);
  }

  /** The same for atoi. */
  lemma AtoiReads(n: nat, rest: string)
    requires rest == "" || !IsDigit(rest[0])
    ensures Atoi(Digits(n) + rest) == n
  {
    assert IsDigit(Digits(n)[0]) && (Digits(n) + rest)[0] == Digits(n)[0];
    LeadingValueOfDigits(n, rest);
  }

  lemma PrintAtoi(n: nat)
    ensures Atoi(Digits(n)) == n
  {
    assert Digits(n) + "" == Digits(n);
    AtoiReads(n, "");
  }

  lemma {:induction false} SkipsSpaces(white: string, t: string)
    requires (forall c :: c in white ==> c == ' ' || 9 as char <= c <= 13 as char)
    requires t == "" || !IsSpace(t[0])
    ensures SkipSpaces(white + t) == t
  {
    if white == "" {
      assert white + t == t;
    } else {
      assert (white + t)[1..] == white[1..] + t && white[0] in white;
      forall c | c in white[1..] ensures c == ' ' || 9 as char <= c <= 13 as char {
        assert c in white;
      }
      SkipsSpaces(white[1..], t);
    }
  }

  lemma SmallMod(x: nat, word: nat)
    requires x < word
    ensures x % word == x
  {
  }

  function Signed(sign: char, n: nat): int { if sign == '-' then -(n as int) else n }

  lemma SignedText(white: string, sign: char, digits: string)
    requires (forall c :: c in white ==> c == ' ' || 9 as char <= c <= 13 as char) && (sign == '-' || sign == '+')
    ensures var u := SkipSpaces(white + ([sign] + digits)); u == [sign] + digits && u[1..] == digits
  {
    SkipsSpaces(white, [sign] + digits);
  }

  /** White space and a sign before the digits: negative numbers wrap in a word, and what is
      no word is taken for the largest. */
  lemma SignedParse(white: string, sign: char, n: nat, rest: string, word: nat)
    requires (forall c :: c in white ==> c == ' ' || 9 as char <= c <= 13 as char) && (sign == '-' || sign == '+')
    requires word > 0 && (rest == "" || !IsDigit(rest[0]))
    ensures var t := white + ([sign] + (Digits(n) + rest));
      && Atoi(t) == Signed(sign, n)
      && StrToUl(t, word) == if n >= word then word - 1 else if sign == '-' && n > 0 then word - n else n
  {
    hide Digits, SkipSpaces, LeadingValue;
    SmallMod(0, word);
    SignedText(white, sign, Digits(n) + rest);
    LeadingValueOfDigits(n, rest);
    if 0 < n < word {
      SmallMod(word - n, word);
    }
  }

  /** The Windows wrapper saturates to a long long, and cuts that to a DWORD. */
  lemma SignedParseDword(white: string, sign: char, n: nat)
    requires (forall c :: c in white ==> c == ' ' || 9 as char <= c <= 13 as char) && (sign == '-' || sign == '+')
    ensures StrToDword(white + ([sign] + Digits(n))) ==
      Number((if n < WORD64 / 2 then Signed(sign, n) else if sign == '-' then -0x8000_0000_0000_0000
              else 0x7fff_ffff_ffff_ffff) % WORD32)
  {
    hide Digits, SkipSpaces, LeadingValue, DigitCount;
    SignedText(white, sign, Digits(n));
    assert Digits(n) + "" == Digits(n);
    LeadingValueOfDigits(n, "");
  }

  /** The Windows wrapper takes nothing behind the digits. */
  lemma TrailingInvalid(n: nat, rest: string)
    requires rest != "" && !IsDigit(rest[0])
    ensures StrToDword(Digits(n) + rest) == Invalid
  {
    assert IsDigit(Digits(n)[0]) && (Digits(n) + rest)[0] == Digits(n)[0];
    LeadingValueOfDigits(n, rest);
  }

  lemma PrintParseDword(n: nat)
    ensures StrToDword(Digits(n)) == Number(Saturated(n, WORD64 / 2) % WORD32)
  {
    assert IsDigit(Digits(n)[0]) && Digits(n) + "" == Digits(n);
    LeadingValueOfDigits(n, "");
  }

  function Power10(k: nat): (p: nat)
    ensures p > 0
  {
    if k == 0 then 1 else 10 * Power10(k - 1)
  }

  lemma {:induction false} ValueJoins(t: string, more: string)
    requires AllDigits(t) && AllDigits(more)
    ensures AllDigits(t + more) && Value(t + more) == Value(t) * Power10(|more|) + Value(more)
  {
    if more == "" {
      assert t + more == t;
    } else {
      var n := |more| - 1;
      assert (t + more)[..|t| + n] == t + more[..n];
      ValueJoins(t, more[..n]);
      OneMoreDigit(Value(t), Power10(n));
      hide Power10;
      assert Value(t + more) == 10 * Value(t + more[..n]) + (more[n] - '0') as nat;
      assert Value(more) == 10 * Value(more[..n]) + (more[n] - '0') as nat;
    }
  }

  lemma OneMoreDigit(v: nat, p: nat)
    ensures 10 * (v * p) == v * (10 * p)
  {
  }

  lemma Grows(a: nat, b: nat)
    requires b > 0
    ensures a * b >= a
  {
  }

  lemma AtoiIsLeading(n: nat, rest: string)
    ensures Atoi(Digits(n) + rest) == LeadingValue(Digits(n) + rest)
  {
    assert IsDigit(Digits(n)[0]) && (Digits(n) + rest)[0] == Digits(n)[0];
    hide LeadingValue, Digits;
  }

  lemma LeadingJoins(n: nat, rest: string)
    ensures LeadingValue(Digits(n) + rest) == n * Power10(DigitCount(rest)) + LeadingValue(rest)
  {
    hide Digits, Power10;
    var t := Digits(n) + rest;
    CountMore(Digits(n), rest);
    LeadingDigits(rest);
    var more := rest[..DigitCount(rest)];
    assert t[..|Digits(n)| + |more|] == Digits(n) + more;
    ValueJoins(Digits(n), more);
    ValueOfDigits(n);
  }

  /** Further digits join the number, which therefore never gets smaller. */
  lemma AtoiGrows(n: nat, rest: string)
    ensures Atoi(Digits(n) + rest) == n * Power10(DigitCount(rest)) + LeadingValue(rest) >= n
  {
    hide Digits, Power10, LeadingValue, DigitCount, Atoi;
    AtoiIsLeading(n, rest);
    LeadingJoins(n, rest);
    Grows(n, Power10(DigitCount(rest)));
  }

  lemma {:induction false} DigitsLength(n: nat, k: nat)
    requires k > 0 && n < Power10(k)
    ensures |Digits(n)| <= k
  {
    if n >= 10 {
      assert k > 1;
      DigitsLength(n / 10, k - 1);
    }
  }

  /** A 64-bit word takes at most 20 digits. */
  lemma WordLength(n: nat)
    requires n < WORD64
    ensures 1 <= |Digits(n)| <= 20
  {
    assert Power10(5) == 100_000;
    assert Power10(10) == 100_000 * Power10(5);
    assert Power10(15) == 100_000 * Power10(10);
    assert Power10(20) == 100_000 * Power10(15);
    DigitsLength(n, 20);
  }
}
