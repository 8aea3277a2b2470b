/**
  The challenge-response handshake, client and server, on Linux and on Windows.
*/
module Handshake {
  import opened CStrings
  import opened Tokenizer
  import opened Numbers
  import opened Tokens
  import opened Network
  import opened Protocol
  import opened Words

  /** One past the largest `unsigned long` of Linux, or DWORD of Windows. */
  function WordOf(os: Os): nat { if os.Linux? then WORD64 else WORD32 }

  // -------------------------------------------------------------------- the server

  /** The server recovers what it takes for the client's token and tests the challenge. */
  predicate Consistent(token: nat, challenge: nat, enc1: nat, enc2: nat) {
    Xor(Xor(Xor(token, challenge), enc1), enc2) == challenge
  }

  /** What the server's answer to an AUTH request depends on.  Linux rejects a zero in
      either number and looks only at the first four letters of the command. */
  predicate AuthPasses(os: Os, message: string, token: nat, challenge: nat) {
    && |message| >= 8
    && First(message, SPACE) < |message|
    && var cmd := Token(message, SPACE);
    && (if os.Linux? then AUTH <= cmd else AUTH == cmd)
    && var numbers := Rest(message, SPACE);
    && First(numbers, SEMICOLON) < |numbers|
    && var enc1 := StrToUl(Token(numbers, SEMICOLON), WordOf(os));
    && (os.Linux? ==> enc1 != 0)
    && var second := Rest(numbers, SEMICOLON);
    && First(second, SEMICOLON) < |second|
    && var enc2 := StrToUl(Token(second, SEMICOLON), WordOf(os));
    && (os.Linux? ==> enc2 != 0)
    && Consistent(token, challenge, enc1, enc2)
  }

  /** Another command word than AUTH is refused, and so is a request without two numbers. */
  lemma OthersRefused(os: Os, message: string, token: nat, challenge: nat)
    ensures !("AUTH" <= Token(message, SPACE)) ==> !AuthPasses(os, message, token, challenge)
    ensures os.Windows? && Token(message, SPACE) != "AUTH" ==> !AuthPasses(os, message, token, challenge)
    ensures Rest(message, SPACE) == "" || Rest(Rest(message, SPACE), SEMICOLON) == "" ==>
      !AuthPasses(os, message, token, challenge)
  {
    hide Token, Rest, Last, SpanIn, SpanOut, Consistent, StrToUl;
    assert First("", SEMICOLON) == 0;
  }

  /** The AUTH request is split in place in the receive buffer. */
  method CheckAuth(os: Os, buf: array<char>, length: nat, token: nat, challenge: nat) returns (passes: bool)
    requires length < buf.Length && NulFree(buf[..length]) && buf[length] == NUL
    modifies buf
    ensures passes == AuthPasses(os, old(buf[..length]), token, challenge)
  {
    hide Str, SpanIn, SpanOut, First, Last, Token, Rest, StrToUl, Consistent;
    ghost var message := buf[..length];
    StrIs(buf[..], 0, message);
    if length < |AUTH| + 4 {
      return false;
    }
    var cmd, enc1, enc2, save;
    cmd, save := NextToken(buf, Some(0), 0, SPACE, message);
    if cmd == None {
      return false;
    }
    if !(if os.Linux? then AUTH <= cmd.value else AUTH == cmd.value) {
      return false;
    }
    ghost var numbers := Rest(message, SPACE);
    enc1, save := NextToken(buf, None, save, SEMICOLON, numbers);
    if enc1 == None {
      return false;
    }
    var enc1C := StrToUl(enc1.value, WordOf(os));
    if os.Linux? && enc1C == 0 {
      return false;
    }
    ghost var second := Rest(numbers, SEMICOLON);
    enc2, save := NextToken(buf, None, save, SEMICOLON, second);
    if enc2 == None {
      return false;
    }
    var enc2C := StrToUl(enc2.value, WordOf(os));
    if os.Linux? && enc2C == 0 {
      return false;
    }
    return Consistent(token, challenge, enc1C, enc2C);
  }

  /** strtok_r, and a look at the token it returns. */
  method NextToken(buf: array<char>, s: Option<nat>, savePtr: nat, delim: set<char>, ghost text: string)
    returns (token: Option<string>, save: nat)
    requires var start := if s.Some? then s.value else savePtr;
      start <= buf.Length && Terminated(buf[..], start) && Str(buf[..], start) == text
    requires NUL !in delim
    modifies buf
    ensures token == if First(text, delim) < |text| then Some(Token(text, delim)) else None
    ensures save <= buf.Length && Terminated(buf[..], save)
    ensures Str(buf[..], save) == if token == None then "" else Rest(text, delim)
  {
    hide SpanIn, SpanOut, Str;
    ghost var before := buf[..];
    var at;
    at, save := StrtokS(buf, s, savePtr, delim);
    CutStrings(before, if s.Some? then s.value else savePtr, delim, buf[..], at, save);
    StrParts(before, if s.Some? then s.value else savePtr);
    token := if at == None then None else Some(Str(buf[..], at.value));
  }

  // -------------------------------------------------------------------- the client

  /** The two numbers of an honest client, from the challenge it received. */
  function Enc1(typed: nat, own: nat, received: nat): nat {
    var challenge := Xor(typed, received);
    Xor(Xor(typed, challenge), own)
  }

  function Enc2(typed: nat, own: nat, received: nat): nat {
    var challenge := Xor(typed, received);
    Xor(own, challenge)
  }

  function AuthMessage(enc1: nat, enc2: nat): string {
    AUTH + " " + Digits(enc1) + ";" + Digits(enc2)
  }

  lemma AuthFits(enc1: nat, enc2: nat)
    requires enc1 < WORD64 && enc2 < WORD64
    ensures var message := AuthMessage(enc1, enc2);
      8 <= |message| <= |AUTH| + 2 * MAX_TOKEN_LENGTH && NulFree(message)
  {
    hide Digits;
    DigitsArePlain(enc1);
    DigitsArePlain(enc2);
    WordLength(enc1);
    WordLength(enc2);
  }

  lemma AuthParses(enc1: nat, enc2: nat)
    ensures var message := AuthMessage(enc1, enc2);
      && First(message, SPACE) < |message| && Token(message, SPACE) == AUTH
      && var numbers := Rest(message, SPACE);
      && First(numbers, SEMICOLON) < |numbers| && Token(numbers, SEMICOLON) == Digits(enc1)
      && var second := Rest(numbers, SEMICOLON);
      && First(second, SEMICOLON) < |second| && Token(second, SEMICOLON) == Digits(enc2)
  {
    hide SpanIn, SpanOut, First, Last, Token, Rest, Digits;
    var message := AuthMessage(enc1, enc2);
    var numbers := Digits(enc1) + ";" + Digits(enc2);
    DigitsArePlain(enc1);
    DigitsArePlain(enc2);
    assert message == AUTH + (" " + numbers);
    FirstWord(AUTH, " " + numbers, SPACE);
    assert (" " + numbers)[1..] == numbers;
    assert numbers == Digits(enc1) + (";" + Digits(enc2));
    FirstWord(Digits(enc1), ";" + Digits(enc2), SEMICOLON);
    assert (";" + Digits(enc2))[1..] == Digits(enc2);
    assert Digits(enc2) + "" == Digits(enc2);
    FirstWord(Digits(enc2), "", SEMICOLON);
  }

  /** The request's length passes the server's gate and fits its read; splitting and
      parsing it gives back the numbers that are words of the server, and the largest
      word for others. */
  lemma AuthRoundTrip(os: Os, enc1: nat, enc2: nat, token: nat, challenge: nat)
    requires enc1 < WORD64 && enc2 < WORD64
    ensures var message := AuthMessage(enc1, enc2);
      && 8 <= |message| <= |AUTH| + 2 * MAX_TOKEN_LENGTH && NulFree(message)
      && (AuthPasses(os, message, token, challenge) <==>
          && (os.Linux? ==> enc1 != 0 && enc2 != 0)
          && Consistent(token, challenge, Saturated(enc1, WordOf(os)), Saturated(enc2, WordOf(os))))
  {
    hide First, Last, Token, Rest, Digits, StrToUl, Consistent, AuthMessage;
    AuthFits(enc1, enc2);
    AuthParses(enc1, enc2);
    PrintParse(enc1, "", WordOf(os));
    PrintParse(enc2, "", WordOf(os));
    assert Digits(enc2) + "" == Digits(enc2) && Digits(enc1) + "" == Digits(enc1);
  }

  // ------------------------------------------------------------------ both together

  /** The server's test compares its token with the exclusive or of the two numbers. */
  lemma ConsistentIff(token: nat, challenge: nat, enc1: nat, enc2: nat)
    ensures Consistent(token, challenge, enc1, enc2) <==> token == Xor(enc1, enc2)
  {
    hide Xor;
    var sum := Xor(enc1, enc2);
    XorAssociates(Xor(token, challenge), enc1, enc2);
    XorCommutes(token, challenge);
    XorAssociates(challenge, token, sum);
    XorCancels(challenge, Xor(token, sum));
    XorSelf(challenge);
    XorZero(token, sum);
  }

  lemma HonestSum(typed: nat, own: nat, received: nat)
    ensures Enc1(typed, own, received) == Xor(received, own)
    ensures Enc2(typed, own, received) == Xor(Xor(own, typed), received)
    ensures Xor(Enc1(typed, own, received), Enc2(typed, own, received)) == typed
  {
    hide Xor;
    XorCancels(typed, received);
    XorAssociates(own, typed, received);
    XorMiddle(received, own, Xor(typed, received));
    XorCommutes(typed, received);
    XorCancels(received, typed);
  }

  /** An honest client's numbers pass the server's test exactly when the tokens are equal,
      whatever challenge was sent and whatever the client read of it; each number is zero
      for one value of the client's own token.  What the server recovers from enc1 is that
      token only after another exclusive or with the server's. */
  lemma HonestNumbers(token: nat, typed: nat, own: nat, sent: nat, received: nat)
    ensures Consistent(token, sent, Enc1(typed, own, received), Enc2(typed, own, received)) <==> token == typed
    ensures Enc1(typed, own, received) == 0 <==> own == received
    ensures Enc2(typed, own, received) == 0 <==> own == Xor(typed, received)
    ensures received == sent ==> Xor(Xor(token, sent), Enc1(typed, own, received)) == Xor(token, own)
  {
    hide Xor, Enc1, Enc2;
    HonestSum(typed, own, received);
    ConsistentIff(token, sent, Enc1(typed, own, received), Enc2(typed, own, received));
    XorZero(received, own);
    XorAssociates(own, typed, received);
    XorZero(own, Xor(typed, received));
    XorMiddle(token, sent, own);
  }

  lemma WordPowers()
    ensures Power2(32) == WORD32 && Power2(64) == WORD64
  {
    assert Power2(4) == 16;
    hide Power2;
    Power2Adds(4, 4);
    Power2Adds(8, 8);
    assert Power2(16) == 0x1_0000;
    Power2Adds(16, 16);
    assert Power2(32) == 0x1_0000_0000;
    Power2Adds(32, 32);
  }

  lemma WordsStayWords(os: Os, a: nat, b: nat)
    requires a < WordOf(os) && b < WordOf(os)
    ensures Xor(a, b) < WordOf(os)
  {
    hide Xor, Power2;
    WordPowers();
    XorBound(a, b, if os.Linux? then 64 else 32);
  }

  const ONES: nat := WORD32 - 1

  /** Whether a server with this token accepts an honest client.  The last three cases are
      a Linux client's words too wide for a Windows server, which reads all ones instead
      of a number of 2^32 or more. */
  predicate Accepts(server: Os, token: nat, typed: nat, own: nat, random: nat) {
    if server.Linux? then typed == token && own != random && own != Xor(token, random)
    else if typed < WORD32 && own < WORD32 then typed == token
    else if own < WORD32 then Xor(own, random) == ONES
    else if own / WORD32 == typed / WORD32 then Xor(Xor(own, typed), random) == ONES
    else token == 0
  }

  /** An honest client's numbers as a Windows server parses them. */
  lemma WindowsAccepts(token: nat, typed: nat, own: nat, random: nat)
    requires token < WORD32 && random < WORD32
    ensures
      var challenge := Xor(token, random);
      var enc1, enc2 := Enc1(typed, own, challenge), Enc2(typed, own, challenge);
      Consistent(token, challenge, Saturated(enc1, WORD32), Saturated(enc2, WORD32)) <==>
      Accepts(Windows, token, typed, own, random)
  {
    hide Xor, Power2, Consistent, Enc1, Enc2;
    var challenge := Xor(token, random);
    var enc1, enc2 := Enc1(typed, own, challenge), Enc2(typed, own, challenge);
    HonestSum(typed, own, challenge);
    ConsistentIff(token, challenge, Saturated(enc1, WORD32), Saturated(enc2, WORD32));
    WordPowers();
    WordsStayWords(Windows, token, random);
    XorFits(challenge, own, 32);
    XorFits(own, typed, 32);
    XorFits(Xor(own, typed), challenge, 32);
    XorCommutes(challenge, own);
    TokenCancels(token, random, own);
    TokenCancels(token, random, Xor(own, typed));
    XorCommutes(ONES, Xor(own, challenge));
    XorZero(ONES, ONES);
  }

  lemma TokenCancels(token: nat, random: nat, x: nat)
    ensures token == Xor(ONES, Xor(x, Xor(token, random))) <==> Xor(x, random) == ONES
  {
    hide Xor;
    var y := Xor(x, random);
    XorCommutes(token, random);
    XorAssociates(x, random, token);
    XorAssociates(ONES, y, token);
    XorCommutes(Xor(ONES, y), token);
    XorCancels(token, Xor(ONES, y));
    XorSelf(token);
    XorZero(ONES, y);
  }

  /** The challenge as the client parses it; None is the Windows client's exit. */
  function ParseChallenge(os: Os, text: string): Option<nat> {
    if os.Linux? then Some(StrToUl(text, WORD64))
    else match StrToDword(text)
      case Invalid => None
      case Number(n) => Some(n)
  }

  /** What a client reads of a challenge: a Windows client saturates it to a long long and
      cuts it to a DWORD. */
  function Received(client: Os, challenge: nat): (n: nat)
    ensures challenge < WORD32 ==> n == challenge
    ensures challenge < WORD64 ==> n < WORD64
  {
    if client.Linux? then challenge else Saturated(challenge, WORD64 / 2) % WORD32
  }

  lemma ChallengeRoundTrip(client: Os, challenge: nat)
    requires challenge < WORD64
    ensures ParseChallenge(client, Digits(challenge)) == Some(Received(client, challenge))
  {
    hide Digits, StrToUl, StrToDword;
    assert Digits(challenge) + "" == Digits(challenge);
    PrintParse(challenge, "", WORD64);
    PrintParseDword(challenge);
  }

  /** Each side's numbers are words of its machine; the C library's random numbers are
      at most RAND_MAX, which is below 2^31 on both platforms. */
  predicate AreWords(server: Os, client: Os, token: nat, typed: nat, own: nat, random: nat) {
    && token < WordOf(server) && typed < WordOf(client) && own < WordOf(client)
    && random < if server == client then WordOf(server) else INT_LIMIT
  }

  /** A Linux server parses every number an honest client prints. */
  lemma LinuxAccepts(client: Os, token: nat, typed: nat, own: nat, random: nat)
    requires AreWords(Linux, client, token, typed, own, random)
    ensures
      var challenge := Xor(token, random);
      var received := Received(client, challenge);
      var enc1, enc2 := Enc1(typed, own, received), Enc2(typed, own, received);
      enc1 != 0 && enc2 != 0 && Consistent(token, challenge, enc1, enc2) <==>
      Accepts(Linux, token, typed, own, random)
  {
    hide Xor, Consistent, Enc1, Enc2;
    var challenge := Xor(token, random);
    HonestNumbers(token, typed, own, challenge, Received(client, challenge));
    if typed == token {
      if client.Windows? {
        WordsStayWords(Windows, token, random);
      }
      XorCancels(token, random);
    }
  }

  /** The client's numbers are words of the wider machine. */
  lemma NumbersAreWords(typed: nat, own: nat, received: nat)
    requires typed < WORD64 && own < WORD64 && received < WORD64
    ensures Enc1(typed, own, received) < WORD64 && Enc2(typed, own, received) < WORD64
  {
    hide Xor, Enc1, Enc2;
    HonestSum(typed, own, received);
    WordsStayWords(Linux, received, own);
    WordsStayWords(Linux, own, typed);
    WordsStayWords(Linux, Xor(own, typed), received);
  }

  /** Everything a session prints is short enough to be read at once, parses back, and
      passes or fails the server's test as Accepts says. */
  lemma SessionFacts(server: Os, client: Os, token: nat, typed: nat, own: nat, random: nat)
    requires AreWords(server, client, token, typed, own, random)
    ensures
      var challenge := Xor(token, random);
      var received := Received(client, challenge);
      var message := AuthMessage(Enc1(typed, own, received), Enc2(typed, own, received));
      && 0 < |Digits(challenge)| <= MAX_TOKEN_LENGTH
      && ParseChallenge(client, Digits(challenge)) == Some(received)
      && 0 < |message| <= |AUTH| + 2 * MAX_TOKEN_LENGTH && NulFree(message)
      && (AuthPasses(server, message, token, challenge) <==> Accepts(server, token, typed, own, random))
  {
    hide Xor, AuthPasses, Consistent, Digits, StrToUl, AuthMessage, ParseChallenge, Enc1, Enc2, Accepts;
    var challenge := Xor(token, random);
    WordsStayWords(server, token, random);
    WordLength(challenge);
    ChallengeRoundTrip(client, challenge);
    var received := Received(client, challenge);
    NumbersAreWords(typed, own, received);
    AuthRoundTrip(server, Enc1(typed, own, received), Enc2(typed, own, received), token, challenge);
    if server.Linux? {
      LinuxAccepts(client, token, typed, own, random);
    } else {
      WindowsAccepts(token, typed, own, random);
    }
  }

  lemma AuthText(typed: nat, own: nat, received: nat)
    ensures AuthMessage(Enc1(typed, own, received), Enc2(typed, own, received)) ==
      "AUTH " + Digits(Xor(received, own)) + ";" + Digits(Xor(Xor(own, typed), received))
  {
    hide Xor, Enc1, Enc2, Digits;
    HonestSum(typed, own, received);
    assert AUTH + " " == "AUTH ";
  }

  /** A whole handshake, and what each side writes: both programs' statements in the only
      order their reads allow:
      every read but the client's two after HELO waits for the other side's next write,
      and those two may find "300" and the challenge delivered together. */
  method Session(server: Os, client: Os, token: nat, typed: nat, own: nat, random: nat)
    returns (serverStatus: bool, clientStatus: bool, ghost upward: seq<string>, ghost downward: seq<string>)
    requires AreWords(server, client, token, typed, own, random)
    ensures serverStatus <==> Accepts(server, token, typed, own, random)
    ensures clientStatus <==> serverStatus
    ensures
      var received := Received(client, Xor(token, random));
      upward == ["HELO",
        "AUTH " + Digits(Xor(received, own)) + ";" + Digits(Xor(Xor(own, typed), received))]
    ensures downward == ["300", Digits(Xor(token, random)), if serverStatus then "200" else "400"]
  {
    hide Xor, Enc1, Enc2, AuthPasses, Consistent, Digits, StrToUl, StrToDword, AuthMessage, ParseChallenge, Delivers;
    var up := new Pipe();
    var down := new Pipe();
    serverStatus, clientStatus := false, false;
    // client
    up.Write(HELO);
    upward, downward := [HELO], [];
    assert up.pending == [HELO];
    // server
    var got := up.Read(4);
    DeliversOnly(HELO, 4, got, up.pending);
    if got != HELO {
      return;
    }
    down.Write(CONTINUE);
    var challenge := Xor(token, random);
    down.Write(Digits(challenge));
    downward := [CONTINUE, Digits(challenge)];
    assert down.pending == [CONTINUE, Digits(challenge)];
    // client
    var code := down.Read(3);
    DeliversFirst(CONTINUE, Digits(challenge), code, down.pending);
    if code != CONTINUE {
      return;
    }
    var text := down.Read(MAX_TOKEN_LENGTH);
    SessionFacts(server, client, token, typed, own, random);
    DeliversOnly(Digits(challenge), MAX_TOKEN_LENGTH, text, down.pending);
    var received := ParseChallenge(client, text);
    if received == None {
      return;
    }
    var enc1, enc2 := Enc1(typed, own, received.value), Enc2(typed, own, received.value);
    up.Write(AuthMessage(enc1, enc2));
    upward := upward + [AuthMessage(enc1, enc2)];
    AuthText(typed, own, received.value);
    assert up.pending == [AuthMessage(enc1, enc2)];
    // server
    var message := up.Read(|AUTH| + 2 * MAX_TOKEN_LENGTH);
    DeliversOnly(AuthMessage(enc1, enc2), |AUTH| + 2 * MAX_TOKEN_LENGTH, message, up.pending);
    serverStatus := Verify(server, message, token, challenge);
    down.Write(if serverStatus then OK else ABORT);
    downward := downward + [if serverStatus then OK else ABORT];
    assert down.pending == [if serverStatus then OK else ABORT];
    // client
    code := down.Read(3);
    DeliversOnly(if serverStatus then OK else ABORT, 3, code, down.pending);
    clientStatus := code == OK;
  }

  /** The server's receive buffer holds zeros behind the request. */
  method Verify(os: Os, message: string, token: nat, challenge: nat) returns (passes: bool)
    requires |message| < BUFF_SIZE && NulFree(message)
    ensures passes == AuthPasses(os, message, token, challenge)
  {
    var buf := new char[BUFF_SIZE](i requires 0 <= i < BUFF_SIZE => if i < |message| then message[i] else NUL);
    assert buf[..|message|] == message;
    passes := CheckAuth(os, buf, |message|, token, challenge);
  }

  // ------------------------------------------------------------------ passphrases

  /** A typed line, without its line feed. */
  predicate IsLine(line: seq<CChar>) { 10 !in line && 0 !in line }

  predicate IsWhite(c: CChar) { c == 32 || 9 <= c <= 13 }

  /** A line whose first character is not white, or nothing. */
  function AfterWhite(line: seq<CChar>): seq<CChar> {
    if line != [] && IsWhite(line[0]) then AfterWhite(line[1..]) else line
  }

  function UntilWhite(line: seq<CChar>): (word: seq<CChar>)
    ensures |word| <= |line|
  {
    if line == [] || IsWhite(line[0]) then [] else [line[0]] + UntilWhite(line[1..])
  }

  /** What a program of this platform makes of the line: Linux keeps its first 254
      characters (fgets), Windows its first word (scanf's %s). */
  function Reads(os: Os, line: seq<CChar>): seq<CChar> {
    if os.Windows? then UntilWhite(AfterWhite(line))
    else if |line| < MAX_TOKEN_LENGTH then line else line[..MAX_TOKEN_LENGTH - 1]
  }

  /** A Windows program goes on waiting while there is no word, and its buffer holds
      words of up to 254 characters. */
  predicate Takes(os: Os, line: seq<CChar>) {
    IsLine(line) && (os.Windows? ==> 0 < |Reads(os, line)| < MAX_TOKEN_LENGTH)
  }

  function TokenTyped(os: Os, line: seq<CChar>): nat { TokenOf(Reads(os, line), WordOf(os)) }

  predicate NoWhite(line: seq<CChar>) { forall k :: 0 <= k < |line| ==> !IsWhite(line[k]) }

  /** One word of at most 30 ASCII characters. */
  predicate Plain(line: seq<CChar>) { Ascii(line) && NoWhite(line) && |line| <= 30 }

  /** Whether a session is accepted, from the lines typed at both sides. */
  predicate Outcome(server: Os, client: Os, serverLine: seq<CChar>, typedLine: seq<CChar>,
                    ownLine: seq<CChar>, random: nat)
  {
    Accepts(server, TokenTyped(server, serverLine), TokenTyped(client, typedLine), TokenTyped(client, ownLine), random)
  }

  lemma {:induction false} WordIsWhole(line: seq<CChar>)
    requires NoWhite(line)
    ensures AfterWhite(line) == line && UntilWhite(line) == line
  {
    if line != [] {
      WordIsWhole(line[1..]);
    }
  }

  lemma PlainTokens(line: seq<CChar>)
    requires Plain(line)
    ensures TokenTyped(Linux, line) == TokenTyped(Windows, line)
  {
    hide TokenOf;
    WordIsWhole(line);
    ShortPassphrasesAgree(line);
  }

  /** Of a long line Linux keeps the first 254 characters. */
  lemma LineRead(line: seq<CChar>)
    ensures Reads(Linux, line) <= line && |Reads(Linux, line)| == if |line| <= 254 then |line| else 254
  {
  }

  /** Windows keeps the first word, up to any white space. */
  lemma {:induction false} WordRead(white: seq<CChar>, word: seq<CChar>, rest: seq<CChar>)
    requires forall k :: 0 <= k < |white| ==> white[k] == 32 || 9 <= white[k] <= 13
    requires forall k :: 0 <= k < |word| ==> word[k] != 32 && !(9 <= word[k] <= 13)
    requires word != [] && (rest == [] || rest[0] == 32 || 9 <= rest[0] <= 13)
    ensures Reads(Windows, white + (word + rest)) == word
    decreases |white|
  {
    if white == [] {
      assert white + (word + rest) == word + rest;
      UntilEnd(word, rest);
    } else {
      assert (white + (word + rest))[1..] == white[1..] + (word + rest);
      WordRead(white[1..], word, rest);
    }
  }

  lemma {:induction false} UntilEnd(word: seq<CChar>, rest: seq<CChar>)
    requires NoWhite(word) && (rest == [] || IsWhite(rest[0]))
    ensures UntilWhite(word + rest) == word
  {
    if word == [] {
      assert word + rest == rest;
    } else {
      assert (word + rest)[1..] == word[1..] + rest;
      UntilEnd(word[1..], rest);
    }
  }

  /** A session as its users see it: a line typed at the server, two at the client, and a
      random number.  When both platforms are the same, or all lines are plain, it is
      decided as on the server's own platform. */
  method PassphraseSession(server: Os, client: Os, serverLine: seq<CChar>, typedLine: seq<CChar>,
                           ownLine: seq<CChar>, random: nat)
    returns (serverStatus: bool, clientStatus: bool)
    requires Takes(server, serverLine) && Takes(client, typedLine) && Takes(client, ownLine)
    requires random < INT_LIMIT
    ensures clientStatus <==> serverStatus
    ensures serverStatus <==> Outcome(server, client, serverLine, typedLine, ownLine, random)
    ensures server == client || (Plain(serverLine) && Plain(typedLine) && Plain(ownLine)) ==>
      (serverStatus <==> Outcome(server, server, serverLine, typedLine, ownLine, random))
    ensures typedLine == serverLine && server.Windows? && client.Windows? ==> serverStatus
    ensures typedLine == serverLine && server.Windows? && Plain(serverLine) && Plain(ownLine) ==> serverStatus
  {
    hide TokenOf, UntilWhite, AfterWhite;
    if Plain(serverLine) && Plain(typedLine) && Plain(ownLine) {
      PlainTokens(serverLine);
      PlainTokens(typedLine);
      PlainTokens(ownLine);
    }
    var token := GenerateToken(Reads(server, serverLine), WordOf(server));
    var typed := GenerateToken(Reads(client, typedLine), WordOf(client));
    var own := GenerateToken(Reads(client, ownLine), WordOf(client));
    ghost var upward, downward;
    serverStatus, clientStatus, upward, downward := Session(server, client, token, typed, own, random);
  }

  /** An ASCII line of up to n characters that both platforms take for a passphrase. */
  predicate Typed(line: seq<CChar>, n: nat, spaces: bool) {
    Ascii(line) && |line| <= n && Takes(Linux, line) && Takes(Windows, line) && (spaces || NoWhite(line))
  }

  /** With lines of up to n ASCII characters, with or without white space in them, and the
      server's line repeated at the client, a client of the other platform is treated as
      one of the server's own. */
  ghost predicate MixedOperation(server: Os, client: Os, n: nat, spaces: bool) {
    forall p: seq<CChar>, q: seq<CChar>, random: nat ::
      Typed(p, n, spaces) && Typed(q, n, spaces) && random < INT_LIMIT ==>
      (Outcome(server, client, p, p, q, random) <==> Outcome(server, server, p, p, q, random))
  }

  /** The promise of mixed operation is kept for words of up to 30 characters, and not
      beyond; with white space allowed, only for lines of one character. */
  lemma MixedOperationIff(server: Os, client: Os, n: nat, spaces: bool)
    requires server != client && n < MAX_TOKEN_LENGTH
    ensures MixedOperation(server, client, n, spaces) <==> n <= if spaces then 1 else 30
  {
    hide Accepts, TokenTyped, Takes;
    if n <= if spaces then 1 else 30 {
      forall p: seq<CChar>, q: seq<CChar>, random: nat
        | Typed(p, n, spaces) && Typed(q, n, spaces) && random < INT_LIMIT
        ensures Outcome(server, client, p, p, q, random) <==> Outcome(server, server, p, p, q, random)
      {
        TypedIsPlain(p, n, spaces);
        TypedIsPlain(q, n, spaces);
        PlainTokens(p);
        PlainTokens(q);
      }
    } else {
      var p: seq<CChar>, q: seq<CChar>;
      if spaces {
        p, q := TrailingSpaceRefused(server, client);
      } else {
        p, q := LongWordRefused(server, client);
      }
      assert Typed(p, n, spaces) && Typed(q, n, spaces);
      assert Outcome(server, client, p, p, q, 0) != Outcome(server, server, p, p, q, 0);
    }
  }

  lemma TypedIsPlain(line: seq<CChar>, n: nat, spaces: bool)
    requires Typed(line, n, spaces) && n <= if spaces then 1 else 30
    ensures Plain(line)
  {
    if line != [] {
      WhiteIsNoWord(line[0]);
      assert |line| == 1 ==> line == [line[0]];
    }
  }

  lemma WhiteIsNoWord(c: CChar)
    ensures IsWhite(c) ==> Reads(Windows, [c]) == []
  {
    var none: seq<CChar> := [];
    assert [c][1..] == none && UntilWhite(AfterWhite(none)) == none;
    assert IsWhite(c) ==> AfterWhite([c]) == AfterWhite(none);
  }

  /** The smallest token of a line is not all ones. */
  lemma SmallOwn(own: nat)
    requires 0 < own < ONES
    ensures Xor(own, 0) != ONES
  {
    XorSelf(own);
  }

  /** A server token other than the client's, and a client's own that is small: refused
      from the other platform, accepted from the server's own. */
  lemma DifferentRefused(server: Os, client: Os, p: seq<CChar>, q: seq<CChar>)
    requires server != client && TokenTyped(server, p) != TokenTyped(client, p)
    requires TokenTyped(server, q) == TokenTyped(client, q) < 1000
    requires 0 < TokenTyped(server, q) && (server.Linux? ==> TokenTyped(server, q) != TokenTyped(server, p))
    ensures !Outcome(server, client, p, p, q, 0) && Outcome(server, server, p, p, q, 0)
  {
    hide TokenOf, Xor, Reads;
    SmallOwn(TokenTyped(server, q));
    XorSelf(TokenTyped(server, p));
  }

  const OWN: seq<CChar> := [98]

  lemma OwnTokens()
    ensures Typed(OWN, 1, false) && Plain(OWN)
    ensures TokenTyped(Linux, OWN) == TokenTyped(Windows, OWN) == 100
  {
    WordIsWhole(OWN);
    PlainTokens(OWN);
    LetterToken(98);
  }

  lemma LetterToken(c: CChar)
    requires 0 <= c
    ensures Rounds([c], WORD64) == 1 + c && TokenOf([c], WORD64) == 2 + c
  {
    assert [c][..0] == [];
    assert Rounds([c], WORD64) == Round(Rounds([], WORD64), c, WORD64) == 1 + c;
  }

  lemma BracesTyped(k: nat)
    requires k + 3 < MAX_TOKEN_LENGTH
    ensures Typed(Braces(k), k + 3, false)
    ensures Reads(Linux, Braces(k)) == Reads(Windows, Braces(k)) == Braces(k)
  {
    WordIsWhole(Braces(k));
  }

  lemma LongWordRefused(server: Os, client: Os) returns (p: seq<CChar>, q: seq<CChar>)
    requires server != client
    ensures Typed(p, 31, false) && Typed(q, 1, false)
    ensures !Outcome(server, client, p, p, q, 0) && Outcome(server, server, p, p, q, 0)
  {
    p := LongPassphrasesDisagree(31);
    q := OWN;
    hide TokenOf, Braces, Reads;
    BracesTyped(28);
    OwnTokens();
    DifferentRefused(server, client, p, q);
  }

  lemma OneMore(p: seq<CChar>, c: CChar)
    ensures Rounds(p + [c], WORD64) == Round(Rounds(p, WORD64), c, WORD64)
  {
    assert (p + [c])[..|p|] == p;
  }

  /** The first word of a line that starts with `a` and a space. */
  lemma FirstLetter(rest: seq<CChar>)
    ensures Reads(Windows, [97, 32] + rest) == [97] && TokenTyped(Windows, [97, 32] + rest) == 99
  {
    var line := [97, 32] + rest;
    assert line[1..][0] == 32;
    assert UntilWhite(line) == [97] + UntilWhite(line[1..]) == [97];
    hide UntilWhite;
    ShortPassphrasesAgree([97]);
    LetterToken(97);
  }

  const SPACED: seq<CChar> := [97, 32, 98] // a b

  const TRAILING: seq<CChar> := [97, 32]

  /** Linux keeps the whole line, Windows its first word. */
  lemma SpacedTokens()
    ensures Typed(TRAILING, 2, true) && Typed(SPACED, 3, true)
    ensures TokenTyped(Linux, TRAILING) == 3236 && TokenTyped(Windows, TRAILING) == 99
    ensures TokenTyped(Linux, SPACED) == 320169 && TokenTyped(Windows, SPACED) == 99
  {
    hide Rounds, AfterWhite, UntilWhite;
    FirstLetter([]);
    FirstLetter([98]);
    assert [97, 32] + [] == TRAILING && [97, 32] + [98] == SPACED;
    LetterToken(97);
    OneMore([97], 32);
    OneMore(TRAILING, 98);
    assert [97] + [32] == TRAILING && TRAILING + [98] == SPACED;
  }

  /** The line `a b`, typed at a Linux server and at a Windows client, is refused whatever
      the client's own line and the random number. */
  lemma SpacedRefused(own: seq<CChar>, random: nat)
    ensures !Outcome(Linux, Windows, SPACED, SPACED, own, random)
  {
    hide TokenTyped;
    SpacedTokens();
  }

  lemma TrailingSpaceRefused(server: Os, client: Os) returns (p: seq<CChar>, q: seq<CChar>)
    requires server != client
    ensures Typed(p, 2, true) && Typed(q, 2, true)
    ensures !Outcome(server, client, p, p, q, 0) && Outcome(server, server, p, p, q, 0)
  {
    p, q := TRAILING, OWN;
    hide TokenTyped, Takes;
    SpacedTokens();
    OwnTokens();
    DifferentRefused(server, client, p, q);
  }

  /** Between Linux programs, with the server's passphrase typed correctly, a client is
      refused whose own token equals the server's random number. */
  lemma HonestClientRefused() returns (phrase: seq<CChar>, own: seq<CChar>, random: nat)
    ensures Plain(phrase) && Plain(own) && phrase != own && random < INT_LIMIT
    ensures !Outcome(Linux, Linux, phrase, phrase, own, random)
  {
    phrase, own, random := [98], [97], 99;
    LetterToken(97);
  }
}
