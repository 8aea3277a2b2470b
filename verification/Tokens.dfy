/**
  generateToken, on the 64-bit `unsigned long` of Linux and the 32-bit DWORD of Windows.
*/
module Tokens {
  import opened Numbers
  import opened Protocol

  const MAX_MUL_TOKEN: nat := 1240000

  /** The platforms' plain char is signed. */
  type CChar = c: int | -128 <= c < 128

  predicate Ascii(p: seq<CChar>) { forall k :: 0 <= k < |p| ==> p[k] >= 0 }

  /** One round: token += passphrase[i] * (token % MAX_MUL_TOKEN), modulo the word. */
  function Round(token: nat, c: CChar, word: nat): nat
    requires word > 0
  {
    (token + c * (token % MAX_MUL_TOKEN)) % word
  }

  function Rounds(p: seq<CChar>, word: nat): nat
    requires word > 0
  {
    if p == [] then 1 else Round(Rounds(p[..|p| - 1], word), p[|p| - 1], word)
  }

  function TokenOf(p: seq<CChar>, word: nat): (t: nat)
    requires word > 0
    ensures t < word
  {
    (Rounds(p, word) + |p|) % word
  }

  /** The loop, for a NUL-free passphrase; Windows keeps its length in a SHORT. */
  method GenerateToken(passphrase: seq<CChar>, word: nat) returns (token: nat)
    requires word > 1 && |passphrase| < 0x8000
    ensures token == TokenOf(passphrase, word)
  {
    token := 1;
    for i := 0 to |passphrase|
      invariant token == Rounds(passphrase[..i], word)
    {
      assert passphrase[..i + 1][..i] == passphrase[..i];
      token := (token + passphrase[i] * (token % MAX_MUL_TOKEN)) % word;
    }
    assert passphrase[..|passphrase|] == passphrase;
    token := (token + |passphrase|) % word;
  }

  /** Equal modulo the word. */
  predicate Congruent(a: int, b: int, word: nat)
    requires word > 0
  {
    a % word == b % word
  }

  lemma ModKeeps(x: int, k: int, word: nat)
    requires word > 0
    ensures Congruent(x % word + k, x + k, word) && Congruent(x % word, x, word)
  {
    var q := x / word;
    assert x + k == (x % word + k) + word * q;
    AddMultiple(x % word + k, q, word);
  }

  lemma AddMultiple(x: int, q: int, word: nat)
    requires word > 0
    ensures (x + word * q) % word == x % word
  {
    var y := x + word * q;
    var d := x / word + q;
    assert y == word * d + x % word;
    QuotientUnique(y, word, d, x % word);
  }

  lemma QuotientUnique(y: int, word: nat, d: int, r: int)
    requires word > 0 && 0 <= r < word && y == word * d + r
    ensures y % word == r
  {
    var e := y / word;
    assert y == word * e + y % word;
    assert e > d ==> word * e >= word * (d + 1);
    assert e < d ==> word * d >= word * (e + 1);
  }

  /** The word before the length is added to it. */
  predicate SumOf(p: seq<CChar>, word: nat, sum: nat)
    requires word > 0
  {
    sum < word && Congruent(TokenOf(p, word), sum + |p|, word)
  }

  predicate Continues(p: seq<CChar>, c: CChar, word: nat, sum: nat)
    requires word > 0
  {
    Congruent(TokenOf(p + [c], word), sum + c * (sum % 1240000) + |p| + 1, word)
  }

  /** The token of no characters is 1.  With one more character, the sum before the length
      is added grows by the product, modulo the word, whatever the sign of the character. */
  lemma TokenLaw(p: seq<CChar>, c: CChar, word: nat)
    requires word > 1
    ensures TokenOf([], word) == 1
    ensures exists sum: nat :: SumOf(p, word, sum) && Continues(p, c, word, sum)
  {
    var q := p + [c];
    assert q[..|q| - 1] == p;
    var sum := Rounds(p, word);
    RoundsAreWords(p, word);
    ModKeeps(sum + |p|, 0, word);
    ModKeeps(sum + c * (sum % 1240000), |q|, word);
    ModKeeps(sum + c * (sum % 1240000) + |q|, 0, word);
    SmallMod(1, word);
    assert SumOf(p, word, sum) && Continues(p, c, word, sum);
  }

  lemma RoundsAreWords(p: seq<CChar>, word: nat)
    requires word > 1
    ensures 0 <= Rounds(p, word) < word
  {
  }

  /** The token a machine word of unlimited width would accumulate. */
  function Unbounded(p: seq<CChar>): int {
    if p == [] then 1
    else var t := Unbounded(p[..|p| - 1]); t + p[|p| - 1] * (t % MAX_MUL_TOKEN)
  }

  lemma TermBound(c: int, x: int)
    requires 0 <= c <= 127 && 0 <= x <= 1239999
    ensures 0 <= c * x <= 157479873
  {
    assert c * x <= 127 * x;
  }

  /** For ASCII the token only grows, by at most 127 * 1239999 a character. */
  lemma {:induction false} UnboundedBound(p: seq<CChar>)
    requires Ascii(p)
    ensures 1 <= Unbounded(p) <= 1 + 157479873 * |p|
    ensures p != [] ==> Unbounded(p[..|p| - 1]) <= Unbounded(p)
  {
    if p != [] {
      UnboundedBound(p[..|p| - 1]);
      TermBound(p[|p| - 1], Unbounded(p[..|p| - 1]) % MAX_MUL_TOKEN);
    }
  }

  lemma {:induction false} NoWrap(p: seq<CChar>, word: nat)
    requires Ascii(p) && word > 0 && Unbounded(p) < word
    ensures Rounds(p, word) == Unbounded(p)
  {
    UnboundedBound(p);
    if p != [] {
      NoWrap(p[..|p| - 1], word);
      SmallMod(Unbounded(p), word);
      assert Rounds(p, word) == Round(Unbounded(p[..|p| - 1]), p[|p| - 1], word) == Unbounded(p) % word;
    }
  }

  /** The first character that takes the sum past the word, or below 0, wraps it round. */
  lemma FirstWrap(p: seq<CChar>, word: nat)
    requires word > 1 && p != [] && Ascii(p[..|p| - 1]) && Unbounded(p[..|p| - 1]) < word
    ensures TokenOf(p, word) == (Unbounded(p) + |p|) % word
  {
    NoWrap(p[..|p| - 1], word);
    ModKeeps(Unbounded(p), |p|, word);
  }

  /** Up to the 254 characters read at most, the 64-bit token never wraps. */
  lemma LinuxNeverWraps(p: seq<CChar>)
    requires Ascii(p) && |p| < MAX_TOKEN_LENGTH
    ensures TokenOf(p, WORD64) == Unbounded(p) + |p| > 0
  {
    hide Unbounded, Rounds;
    UnboundedBound(p);
    NoWrap(p, WORD64);
    SmallMod(Unbounded(p) + |p|, WORD64);
  }

  /** The two platforms compute the same token exactly when it fits 32 bits. */
  lemma TokensAgreeIff(p: seq<CChar>)
    requires Ascii(p) && |p| < MAX_TOKEN_LENGTH
    ensures TokenOf(p, WORD32) == TokenOf(p, WORD64) <==> TokenOf(p, WORD64) < WORD32
  {
    hide Unbounded, Rounds;
    LinuxNeverWraps(p);
    if TokenOf(p, WORD64) < WORD32 {
      NoWrap(p, WORD32);
      SmallMod(Unbounded(p) + |p|, WORD32);
    }
  }

  /** A round multiplies a small token by 128 at most. */
  lemma RoundBound(t: int, c: CChar, bound: int)
    requires 1 <= t <= bound && c >= 0
    ensures t + c * (t % MAX_MUL_TOKEN) <= 128 * bound
    ensures t + c * (t % MAX_MUL_TOKEN) <= bound + 157479873
  {
    TermBound(c, t % MAX_MUL_TOKEN);
    assert t % MAX_MUL_TOKEN <= t;
    assert c * (t % MAX_MUL_TOKEN) <= 127 * (t % MAX_MUL_TOKEN);
  }

  /** The first three characters cannot make the token large. */
  lemma {:induction false} StartBound(p: seq<CChar>)
    requires Ascii(p)
    ensures |p| == 1 ==> Unbounded(p) <= 128
    ensures |p| == 2 ==> Unbounded(p) <= 16384
    ensures |p| >= 3 ==> Unbounded(p) <= 2097152 + 157479873 * (|p| - 3)
  {
    if p != [] {
      var front := p[..|p| - 1];
      StartBound(front);
      UnboundedBound(front);
      RoundBound(Unbounded(front), p[|p| - 1],
        if |p| == 1 then 1 else if |p| == 2 then 128 else if |p| == 3 then 16384
        else 2097152 + 157479873 * (|p| - 4));
    }
  }

  /** Every ASCII passphrase of at most 30 characters has the same token on both. */
  lemma ShortPassphrasesAgree(p: seq<CChar>)
    requires Ascii(p) && |p| <= 30
    ensures TokenOf(p, WORD32) == TokenOf(p, WORD64) < WORD32
  {
    hide Unbounded, Rounds;
    UnboundedBound(p);
    StartBound(p);
    LinuxNeverWraps(p);
    TokensAgreeIff(p);
  }

  function Braces(k: nat): seq<CChar> { [79, 123, 123] + seq(k, _ => 125) }

  lemma BracesRemainder(k: nat)
    ensures (1230080 + 153760000 * k) % MAX_MUL_TOKEN == 1230080
  {
    assert 153760000 * k == MAX_MUL_TOKEN * (124 * k);
  }

  lemma {:induction false} BracesToken(k: nat)
    ensures Unbounded(Braces(k)) == 1230080 + 153760000 * k
  {
    if k == 0 {
      assert Braces(0) == [79, 123, 123];
      assert [79, 123, 123][..2] == [79, 123] && [79, 123][..1] == [79] && [79][..0] == [];
      assert Unbounded([79]) == 80;
      assert Unbounded([79, 123]) == 9920;
    } else {
      BracesToken(k - 1);
      assert Braces(k)[..|Braces(k)| - 1] == Braces(k - 1);
      BracesRemainder(k - 1);
    }
  }

  /** For every greater length here is one on which they differ. */
  lemma LongPassphrasesDisagree(n: nat) returns (p: seq<CChar>)
    requires 31 <= n < MAX_TOKEN_LENGTH
    ensures p == Braces(n - 3) && |p| == n && Ascii(p)
    ensures TokenOf(p, WORD32) != TokenOf(p, WORD64) && TokenOf(p, WORD64) >= WORD32
  {
    hide Unbounded, Rounds;
    p := Braces(n - 3);
    BracesToken(n - 3);
    LinuxNeverWraps(p);
    TokensAgreeIff(p);
  }

  /** All passphrases of this length have the same token on both platforms. */
  ghost predicate LengthAgrees(n: nat) {
    forall p: seq<CChar> :: Ascii(p) && |p| == n ==> TokenOf(p, WORD32) == TokenOf(p, WORD64)
  }

  /** The platforms agree on a length, up to the 254 characters read at most, exactly
      when it is 30 or less. */
  lemma LengthAgreesIff(n: nat)
    requires n < MAX_TOKEN_LENGTH
    ensures LengthAgrees(n) <==> n <= 30
  {
    hide TokenOf;
    if n <= 30 {
      forall p: seq<CChar> | Ascii(p) && |p| == n ensures TokenOf(p, WORD32) == TokenOf(p, WORD64) {
        ShortPassphrasesAgree(p);
      }
    } else {
      var p := LongPassphrasesDisagree(n);
    }
  }
}
