/**
  DOWNLOAD between the Linux programs, as the product of two machines over two byte
  streams: the request with the size, at once followed by the file, then the
  acknowledgement.

  The server counts on reading the request by itself, but nothing separates it from the
  file.  In the model its read returns the whole request and as much of what follows as
  the connection has brought.
*/
module DownloadSession {
  import opened CStrings
  import opened Files
  import opened Numbers
  import opened Protocol
  import opened Requests
  import opened Tokenizer

  datatype ClientPc = Ask | Sending | AwaitAck | ClientClosed

  /** Undefined: atoi was given a number that is no int, and anything may follow. */
  datatype ServerPc = AwaitRequest | Receive | Acknowledge | ServerClosed | Undefined

  datatype State = State(
    client: ClientPc,
    fileSize: nat,        // the client's size_t counter
    position: nat,        // in the file being read
    server: ServerPc,
    fileName: string,
    fileLength: int,      // the server's int counter
    stored: string,
    c2s: string,          // unread bytes, client to server
    s2c: string,
    lost: nat             // bytes of the file the server reads with the request
  )

  /** What a session is run on: the destination, what stat says of the client's file and
      what fread gets from it. */
  datatype Setting = Setting(path: string, size: nat, content: string)

  const PATH_MAX: nat := 4096

  /** A path the request can carry and fopen can take, and a size that is an int. */
  predicate ValidSetting(x: Setting) {
    && x.path != "" && ' ' !in x.path && ';' !in x.path && NulFree(x.path)
    && x.size < INT_LIMIT && |x.path| < PATH_MAX
  }

  const START := State(Ask, 0, 0, AwaitRequest, "", 0, "", "", "", 0)

  function RequestOf(x: Setting): string { DownloadRequest(x.path, x.size) }

  // ---------------------------------------------------------------------- client

  /** `n` is how many bytes a read of the acknowledgement returns. */
  predicate ClientEnabled(s: State, n: nat) {
    match s.client
    case AwaitAck => 1 <= n <= |s.s2c| && n <= 3
    case ClientClosed => false
    case _ => true
  }

  function NextClient(x: Setting, s: State, n: nat): State
    requires ClientEnabled(s, n)
  {
    match s.client
    case Ask => s.(client := Sending, fileSize := x.size, position := 0, c2s := s.c2s + RequestOf(x))
    case Sending =>
      var chunk := Fread(x.content, s.position, BUFF_SIZE - 1);
      if s.fileSize == 0 || chunk == "" then s.(client := AwaitAck)
      else s.(fileSize := (s.fileSize + WORD64 - |chunk|) % WORD64, position := s.position + |chunk|,
              c2s := s.c2s + chunk)
    case AwaitAck =>
      s.(client := if s.s2c[..n] <= OK then ClientClosed else AwaitAck, s2c := s.s2c[n..])
  }

  // ---------------------------------------------------------------------- server

  /** `n` is how many bytes a read returns. */
  predicate ServerEnabled(x: Setting, s: State, n: nat) {
    match s.server
    case AwaitRequest => |RequestOf(x)| <= n <= |s.c2s| && n < BUFF_SIZE
    case Receive =>
      s.fileLength != 0 ==> 1 <= n <= |s.c2s| && n < BUFF_SIZE && (s.fileLength > 0 ==> n <= s.fileLength)
    case Acknowledge => true
    case _ => false
  }

  /** The path and the size the server splits off what it has read, behind which its buffer
      holds zeros. */
  function NameIn(message: string): string { Token(Rest(Str(message, 0), SPACE), SEMICOLON) }

  function SizeIn(message: string): int {
    Atoi(Token(Rest(Rest(Str(message, 0), SPACE), SEMICOLON), SEMICOLON))
  }

  function NextServer(x: Setting, s: State, n: nat): State
    requires ServerEnabled(x, s, n)
  {
    match s.server
    case AwaitRequest =>
      var message := s.c2s[..n];
      var length := SizeIn(message);
      var read := s.(c2s := s.c2s[n..], lost := n - |RequestOf(x)|);
      if !("DOWNLOAD" <= Token(Str(message, 0), SPACE)) then read.(server := ServerClosed)
      else if !(0 - INT_LIMIT <= length < INT_LIMIT) then read.(server := Undefined)
      else read.(server := Receive, fileName := NameIn(message), fileLength := length)
    case Receive =>
      if s.fileLength == 0 then s.(server := Acknowledge)
      else s.(stored := s.stored + s.c2s[..n], fileLength := s.fileLength - n, c2s := s.c2s[n..])
    case Acknowledge => s.(server := ServerClosed, s2c := s.s2c + OK)
  }

  /** A read may bring any piece that is there and fits: of the file, of an acknowledgement,
      and of what lies behind the request. */
  lemma AnyPiece(x: Setting, s: State, n: nat)
    ensures s.server == Receive && 1 <= n <= |s.c2s| && n <= s.fileLength && n <= 65534 ==> ServerEnabled(x, s, n)
    ensures s.server == AwaitRequest && |RequestOf(x)| <= n <= |s.c2s| && n <= 65534 ==> ServerEnabled(x, s, n)
    ensures s.client == AwaitAck && 1 <= n <= |s.s2c| && n <= 3 ==> ClientEnabled(s, n)
  {
  }

  /** Nothing but a beginning of the code 200 is an acknowledgement. */
  lemma OnlyAcknowledged(x: Setting, s: State, n: nat)
    requires s.client == AwaitAck && ClientEnabled(s, n)
    ensures NextClient(x, s, n).client == ClientClosed <==> s.s2c[..n] in {"2", "20", "200"}
  {
    assert OK[..1] == "2" && OK[..2] == "20" && OK[..3] == "200";
    var piece := s.s2c[..n];
    assert piece <= OK <==> piece == OK[..n];
    assert n == 1 || n == 2 || n == 3;
  }

  // ------------------------------------------------------------------------ runs

  datatype Step = Client(n: nat) | Server(n: nat)

  predicate Enabled(x: Setting, s: State, step: Step) {
    if step.Client? then ClientEnabled(s, step.n) else ServerEnabled(x, s, step.n)
  }

  function Next(x: Setting, s: State, step: Step): State
    requires Enabled(x, s, step)
  {
    if step.Client? then NextClient(x, s, step.n) else NextServer(x, s, step.n)
  }

  predicate Possible(x: Setting, s: State, steps: seq<Step>)
    decreases |steps|
  {
    steps == [] || (Enabled(x, s, steps[0]) && Possible(x, Next(x, s, steps[0]), steps[1..]))
  }

  function Run(x: Setting, s: State, steps: seq<Step>): State
    requires Possible(x, s, steps)
    decreases |steps|
  {
    if steps == [] then s else Run(x, Next(x, s, steps[0]), steps[1..])
  }

  // --------------------------------------------------------- what will be sent

  /** Where in its file the client stops: it counts down from the announced size by whole
      buffers, so that it sends all there is, unless its counter meets 0. */
  function StopsAt(content: string, fileSize: nat, position: nat): nat
    decreases if position <= |content| then |content| - position else 0
  {
    var chunk := Fread(content, position, BUFF_SIZE - 1);
    if fileSize == 0 || chunk == "" then position
    else StopsAt(content, (fileSize + WORD64 - |chunk|) % WORD64, position + |chunk|)
  }

  function Total(x: Setting): nat { StopsAt(x.content, x.size, 0) }

  /** The size the server makes of the request when it comes with this much of the file. */
  function SizeRead(x: Setting, lost: nat): int { SizeIn(RequestOf(x) + Fread(x.content, 0, lost)) }

  lemma {:induction false} StopsInside(content: string, fileSize: nat, position: nat)
    requires position <= |content|
    ensures position <= StopsAt(content, fileSize, position) <= |content|
    ensures fileSize < WORD64 && fileSize <= |content| - position ==>
      StopsAt(content, fileSize, position) >= position + fileSize
    decreases |content| - position
  {
    var chunk := Fread(content, position, BUFF_SIZE - 1);
    if fileSize != 0 && chunk != "" {
      var left := (fileSize + WORD64 - |chunk|) % WORD64;
      assert |chunk| <= fileSize < WORD64 ==> left == fileSize - |chunk|;
      StopsInside(content, left, position + |chunk|);
    }
  }

  /** The client sends at least the size it announced exactly when there is as much to read. */
  lemma TotalIsEnough(x: Setting)
    requires ValidSetting(x)
    ensures x.size <= Total(x) <==> x.size <= |x.content|
    ensures Total(x) <= |x.content|
  {
    StopsInside(x.content, x.size, 0);
  }

  /** The counter meets 0 at the end of a whole buffer or of the file, and at no other place. */
  lemma {:induction false} StopsExactly(content: string, fileSize: nat, position: nat)
    requires position <= |content| && fileSize < WORD64 && |content| - position < WORD64
    ensures StopsAt(content, fileSize, position) ==
      if fileSize <= |content| - position && (fileSize % 65534 == 0 || fileSize == |content| - position)
      then position + fileSize else |content|
    decreases |content| - position
  {
    var chunk := Fread(content, position, BUFF_SIZE - 1);
    if fileSize != 0 && chunk != "" {
      var left := (fileSize + WORD64 - |chunk|) % WORD64;
      if |chunk| <= fileSize {
        assert left == fileSize - |chunk|;
      } else {
        assert left == fileSize + WORD64 - |chunk|;
      }
      StopsExactly(content, left, position + |chunk|);
    }
  }

  /** The client sends all there is to read, also past the announced size, unless that size
      is a multiple of its buffer. */
  lemma TotalIs(x: Setting)
    requires ValidSetting(x) && |x.content| < WORD64
    ensures Total(x) == if x.size <= |x.content| && x.size % 65534 == 0 then x.size else |x.content|
  {
    StopsExactly(x.content, x.size, 0);
  }

  // ------------------------------------------------------------------- invariant

  predicate ClientOk(x: Setting, s: State) {
    && s.position <= |x.content|
    && (s.client == Ask ==> s.position == 0)
    && (s.client == Sending ==> StopsAt(x.content, s.fileSize, s.position) == Total(x))
    && (s.client == AwaitAck || s.client == ClientClosed ==> s.position == Total(x))
  }

  /** The bytes lost, stored and on the wire are those the client has read of its file. */
  predicate Delivered(x: Setting, s: State) {
    && s.lost + |s.stored| + |s.c2s| == s.position <= |x.content|
    && s.stored == x.content[s.lost..s.lost + |s.stored|]
    && s.c2s == x.content[s.lost + |s.stored|..s.position]
  }

  predicate ServerOk(x: Setting, s: State)
    requires s.position <= |x.content|
  {
    match s.server
    case AwaitRequest =>
      && s.lost == 0 && s.stored == "" && s.s2c == "" && s.client != ClientClosed
      && s.c2s == (if s.client == Ask then "" else RequestOf(x) + x.content[..s.position])
    case Receive =>
      && s.client != Ask && s.client != ClientClosed && s.s2c == "" && s.fileName == x.path
      && Delivered(x, s) && s.fileLength >= 0 && |s.stored| + s.fileLength == SizeRead(x, s.lost)
    case Acknowledge =>
      && s.client != Ask && s.client != ClientClosed && s.s2c == "" && s.fileName == x.path
      && Delivered(x, s) && |s.stored| == SizeRead(x, s.lost)
    case ServerClosed =>
      && s.client != Ask && (s.client != ClientClosed ==> s.s2c == OK) && s.fileName == x.path
      && Delivered(x, s) && |s.stored| == SizeRead(x, s.lost)
    case Undefined =>
      && s.client != Ask && s.client != ClientClosed && s.s2c == ""
      && SizeRead(x, s.lost) >= INT_LIMIT
  }

  predicate Together(x: Setting, s: State) {
    && ClientOk(x, s)
    && ServerOk(x, s)
    && s.lost <= s.position
    && |RequestOf(x)| + s.lost < BUFF_SIZE
  }

  // ----------------------------------------------------------------- the request

  lemma RequestFits(x: Setting)
    requires ValidSetting(x)
    ensures NulFree(RequestOf(x)) && 0 < |RequestOf(x)| < BUFF_SIZE - 1
  {
    hide Digits;
    DigitsArePlain(x.size);
    WordLength(x.size);
  }

  /** The request read together with `more`: the name is right, and the size is, or is
      too large, because digits of the file have joined it. */
  lemma RequestRead(x: Setting, more: string)
    requires ValidSetting(x)
    ensures
      var message := RequestOf(x) + more;
      && Token(Str(message, 0), SPACE) == "DOWNLOAD" && NameIn(message) == x.path
      && SizeIn(message) >= x.size && (more == "" ==> SizeIn(message) == x.size)
  {
    hide Digits, Atoi, First, Last, Token, Rest, Str, SpanOut;
    RequestFits(x);
    StrOfAppend(RequestOf(x), more);
    var tail := Str(more, 0);
    DownloadRequestParses(x.path, x.size, tail);
    AtoiGrows(x.size, tail[..SpanOut(tail, SEMICOLON)]);
    if more == "" {
      StrParts(more, 0);
      assert tail == "" && Digits(x.size) + "" == Digits(x.size);
      PrintAtoi(x.size);
    }
  }

  lemma SizeReadBounds(x: Setting, lost: nat)
    requires ValidSetting(x) && lost <= |x.content|
    ensures SizeRead(x, lost) >= x.size && SizeRead(x, 0) == x.size
  {
    hide RequestOf, Str, Token, Rest, Atoi;
    RequestRead(x, Fread(x.content, 0, lost));
    RequestRead(x, Fread(x.content, 0, 0));
  }

  // ---------------------------------------------------------------- preservation

  /** The client sends the bytes up to p, or goes on to wait. */
  lemma SendStep(x: Setting, s: State, n: nat) returns (p: nat)
    requires ClientOk(x, s) && s.client == Sending
    ensures s.position <= p <= |x.content|
    ensures
      var s' := NextClient(x, s, n);
      && ClientOk(x, s')
      && s' == s.(client := s'.client, fileSize := s'.fileSize, position := p, c2s := s.c2s + x.content[s.position..p])
      && (s'.client == Sending || s'.client == AwaitAck)
  {
    p := NextClient(x, s, n).position;
    assert s.c2s + x.content[s.position..s.position] == s.c2s;
  }

  lemma ClientKeeps(x: Setting, s: State, n: nat)
    requires ValidSetting(x) && Together(x, s) && ClientEnabled(s, n)
    ensures Together(x, NextClient(x, s, n))
  {
    hide RequestOf, Delivered, SizeRead, StopsAt;
    match s.client
    case Ask =>
      assert "" + RequestOf(x) == RequestOf(x) + x.content[..0];
    case Sending => SendKeeps(x, s, n);
    case AwaitAck =>
      assert OK[..n] <= OK;
      SameDelivered(x, s, NextClient(x, s, n));
  }

  lemma SameDelivered(x: Setting, s: State, s': State)
    requires s'.position == s.position && s'.c2s == s.c2s && s'.stored == s.stored && s'.lost == s.lost
    ensures Delivered(x, s) ==> Delivered(x, s')
  {
  }

  /** A chunk moves from the client's file to the wire. */
  lemma SendKeeps(x: Setting, s: State, n: nat)
    requires ValidSetting(x) && Together(x, s) && s.client == Sending
    ensures Together(x, NextClient(x, s, n))
  {
    hide RequestOf, Delivered, NextClient, SizeRead, StopsAt;
    var p := SendStep(x, s, n);
    var s' := NextClient(x, s, n);
    if Delivered(x, s) {
      MoreDelivered(x, s, s');
    }
    if s.server == AwaitRequest {
      assert x.content[..s.position] + x.content[s.position..p] == x.content[..p];
      assert RequestOf(x) + x.content[..s.position] + x.content[s.position..p] == RequestOf(x) + x.content[..p];
    }
  }

  lemma MoreDelivered(x: Setting, s: State, s': State)
    requires Delivered(x, s) && s.position <= s'.position <= |x.content|
    requires s'.c2s == s.c2s + x.content[s.position..s'.position] && s'.stored == s.stored && s'.lost == s.lost
    ensures Delivered(x, s')
  {
    var at := s.lost + |s.stored|;
    assert x.content[at..s.position] + x.content[s.position..s'.position] == x.content[at..s'.position];
  }

  lemma ServerKeeps(x: Setting, s: State, n: nat)
    requires ValidSetting(x) && Together(x, s) && ServerEnabled(x, s, n)
    ensures Together(x, NextServer(x, s, n))
  {
    hide RequestOf, SizeRead, StopsAt;
    match s.server
    case AwaitRequest => RequestKeeps(x, s, n);
    case Receive => ReceiveKeeps(x, s, n);
    case Acknowledge =>
      assert "" + OK == OK;
  }

  lemma RequestKeeps(x: Setting, s: State, n: nat)
    requires ValidSetting(x) && Together(x, s) && ServerEnabled(x, s, n) && s.server == AwaitRequest
    ensures Together(x, NextServer(x, s, n))
  {
    hide RequestOf, Str, Token, NameIn, SizeIn, StopsAt;
    RequestFits(x);
    var request := RequestOf(x);
    var lost := n - |request|;
    var more := Fread(x.content, 0, lost);
    assert s.c2s == request + x.content[..s.position];
    assert s.c2s[..n] == request + more;
    assert s.c2s[n..] == x.content[lost..s.position];
    RequestRead(x, more);
  }

  /** A read takes the first n bytes of a piece of the file. */
  lemma Pieces(content: string, a: nat, b: nat, c: nat, n: nat)
    requires a <= b && b + n <= c <= |content|
    ensures content[b..c][n..] == content[b + n..c]
    ensures content[a..b] + content[b..c][..n] == content[a..b + n]
  {
  }

  lemma ReceiveKeeps(x: Setting, s: State, n: nat)
    requires ValidSetting(x) && Together(x, s) && ServerEnabled(x, s, n) && s.server == Receive
    ensures Together(x, NextServer(x, s, n))
  {
    hide RequestOf, SizeRead, StopsAt;
    if s.fileLength != 0 {
      Pieces(x.content, s.lost, s.lost + |s.stored|, s.position, n);
    }
  }

  lemma StepKeeps(x: Setting, s: State, step: Step)
    requires ValidSetting(x) && Together(x, s) && Enabled(x, s, step)
    ensures Together(x, Next(x, s, step))
  {
    hide Together, ValidSetting, ClientEnabled, ServerEnabled, NextClient, NextServer;
    if step.Client? {
      ClientKeeps(x, s, step.n);
    } else {
      ServerKeeps(x, s, step.n);
    }
  }

  lemma {:induction false} RunKeeps(x: Setting, s: State, steps: seq<Step>)
    requires ValidSetting(x) && Together(x, s) && Possible(x, s, steps)
    ensures Together(x, Run(x, s, steps))
    decreases |steps|
  {
    hide Together, ValidSetting, Enabled, Next;
    if steps != [] {
      StepKeeps(x, s, steps[0]);
      RunKeeps(x, Next(x, s, steps[0]), steps[1..]);
    }
  }

  lemma StartTogether(x: Setting)
    requires ValidSetting(x)
    ensures Together(x, START)
  {
    RequestFits(x);
  }

  lemma Reached(x: Setting, steps: seq<Step>)
    requires ValidSetting(x) && Possible(x, START, steps)
    ensures Together(x, Run(x, START, steps))
  {
    StartTogether(x);
    RunKeeps(x, START, steps);
  }

  // -------------------------------------------------------------------- theorems

  predicate BothClosed(s: State) { s.client == ClientClosed && s.server == ServerClosed }

  /** How far into the client's file the server has to come. */
  function Needs(x: Setting, s: State): int {
    match s.server
    case AwaitRequest => x.size
    case Undefined => Total(x) + 1
    case _ => s.lost + SizeRead(x, s.lost)
  }

  lemma PositionBound(x: Setting, s: State)
    requires ClientOk(x, s)
    ensures s.position <= Total(x)
  {
    if s.client == Ask {
      StopsInside(x.content, x.size, 0);
    } else if s.client == Sending {
      StopsInside(x.content, s.fileSize, s.position);
    }
  }

  /** While the client has what the server needs, one of them can move. */
  lemma NotStuck(x: Setting, s: State) returns (step: Step)
    requires ValidSetting(x) && Together(x, s) && Needs(x, s) <= Total(x) && !BothClosed(s)
    ensures Enabled(x, s, step)
    ensures step.Server? && s.server == AwaitRequest ==> step.n == |RequestOf(x)|
  {
    RequestFits(x);
    hide RequestOf, SizeRead, Total;
    if s.client == Ask || s.client == Sending || s.server == ServerClosed {
      step := Client(1);
    } else if s.server == AwaitRequest {
      step := Server(|RequestOf(x)|);
    } else {
      step := Server(1);
    }
  }

  /** A session that ends has stored what the server took for the size, from where it began
      to read, under the path asked for. */
  lemma ClosedStored(x: Setting, s: State)
    requires Together(x, s) && BothClosed(s)
    ensures s.fileName == x.path && |s.stored| == SizeRead(x, s.lost) && Needs(x, s) <= Total(x) <= |x.content|
    ensures s.stored == x.content[s.lost..s.lost + |s.stored|]
  {
    hide SizeRead, Total;
  }

  /** A session is not stuck while the client has what the server needs; and if the request
      was read by itself, both sides closed means that the announced size was there, and
      that many bytes of the file are stored under the path asked for. */
  lemma SessionSafe(x: Setting, steps: seq<Step>)
    requires ValidSetting(x) && Possible(x, START, steps)
    ensures var s := Run(x, START, steps);
      && (Needs(x, s) <= Total(x) && !BothClosed(s) ==> exists step: Step :: Enabled(x, s, step))
      && (BothClosed(s) ==> s.fileName == x.path && Needs(x, s) <= Total(x))
      && (BothClosed(s) && s.lost == 0 ==> x.size <= |x.content| && s.stored == x.content[..x.size])
  {
    Reached(x, steps);
    var s := Run(x, START, steps);
    hide RequestOf, SizeRead, Total, Together, ServerOk, ClientOk, Enabled;
    if BothClosed(s) {
      ClosedStored(x, s);
      SizeReadBounds(x, 0);
    } else if Needs(x, s) <= Total(x) {
      var step := NotStuck(x, s);
    }
  }

  // ------------------------------------------------------------------- the bound

  function ClientRank(pc: ClientPc): nat {
    match pc
    case Ask => 3
    case Sending => 2
    case AwaitAck => 1
    case ClientClosed => 0
  }

  function ServerRank(pc: ServerPc): nat {
    match pc
    case AwaitRequest => 3
    case Receive => 2
    case Acknowledge => 1
    case ServerClosed => 0
    case Undefined => 0
  }

  function Unsent(x: Setting, s: State): nat {
    if s.position <= |x.content| then |x.content| - s.position else 0
  }

  function Measure(x: Setting, s: State): nat {
    (|RequestOf(x)| + 4) * (ClientRank(s.client) + ServerRank(s.server)) + 2 * Unsent(x, s) + |s.c2s| + |s.s2c|
  }

  lemma RankStep(k: nat, before: nat, after: nat)
    requires after < before
    ensures k * after + k <= k * before
  {
    assert k * (after + 1) <= k * before;
  }

  lemma StepDecreases(x: Setting, s: State, step: Step)
    requires ValidSetting(x) && Together(x, s) && Enabled(x, s, step)
    ensures Measure(x, Next(x, s, step)) < Measure(x, s)
  {
    hide RequestOf, NameIn, SizeIn, SizeRead, StopsAt, Token, Str, Delivered;
    RequestFits(x);
    var s' := Next(x, s, step);
    var before, after := ClientRank(s.client) + ServerRank(s.server), ClientRank(s'.client) + ServerRank(s'.server);
    if after < before {
      RankStep(|RequestOf(x)| + 4, before, after);
    }
  }

  /** Every session takes a bounded number of steps, however they interleave. */
  lemma {:induction false} SessionBounded(x: Setting, s: State, steps: seq<Step>)
    requires ValidSetting(x) && Together(x, s) && Possible(x, s, steps)
    ensures |steps| + Measure(x, Run(x, s, steps)) <= Measure(x, s)
    decreases |steps|
  {
    hide Together, ValidSetting, Measure, Enabled, Next;
    if steps != [] {
      StepDecreases(x, s, steps[0]);
      StepKeeps(x, s, steps[0]);
      SessionBounded(x, Next(x, s, steps[0]), steps[1..]);
    }
  }

  // --------------------------------------------------------- sessions without end

  /** Whatever happens next, the session does not end. */
  ghost predicate NeverEnds(x: Setting, s: State) {
    forall steps: seq<Step> :: Possible(x, s, steps) ==> !BothClosed(Run(x, s, steps))
  }

  /** The need never shrinks below what the client has. */
  lemma NeedStays(x: Setting, s: State, step: Step)
    requires ValidSetting(x) && Together(x, s) && Enabled(x, s, step) && Needs(x, s) > Total(x)
    ensures Needs(x, Next(x, s, step)) > Total(x)
  {
    hide RequestOf, NameIn, SizeIn, SizeRead, StopsAt, Token, Str, Total;
    if step.Server? && s.server == AwaitRequest {
      RequestKeeps(x, s, step.n);
      SizeReadBounds(x, step.n - |RequestOf(x)|);
    }
  }

  lemma {:induction false} NeedsStay(x: Setting, s: State, steps: seq<Step>)
    requires ValidSetting(x) && Together(x, s) && Possible(x, s, steps) && Needs(x, s) > Total(x)
    ensures Together(x, Run(x, s, steps)) && Needs(x, Run(x, s, steps)) > Total(x)
    decreases |steps|
  {
    hide Together, ValidSetting, Needs, Enabled, Next, Total;
    if steps != [] {
      NeedStays(x, s, steps[0]);
      StepKeeps(x, s, steps[0]);
      NeedsStay(x, Next(x, s, steps[0]), steps[1..]);
    }
  }

  lemma LackNeverEnds(x: Setting, s: State)
    requires ValidSetting(x) && Together(x, s) && Needs(x, s) > Total(x)
    ensures NeverEnds(x, s)
  {
    hide Together, ValidSetting, Needs, Total;
    forall steps: seq<Step> | Possible(x, s, steps) ensures !BothClosed(Run(x, s, steps)) {
      NeedsStay(x, s, steps);
      if BothClosed(Run(x, s, steps)) {
        ClosedStored(x, Run(x, s, steps));
      }
    }
  }

  lemma NeedKept(x: Setting, s: State, step: Step)
    requires ValidSetting(x) && Together(x, s) && Enabled(x, s, step) && Needs(x, s) <= Total(x)
    requires step.Server? && s.server == AwaitRequest ==> step.n == |RequestOf(x)|
    ensures Needs(x, Next(x, s, step)) <= Total(x)
  {
    hide RequestOf, NameIn, SizeIn, SizeRead, StopsAt, Token, Str, Total;
    if step.Server? && s.server == AwaitRequest {
      RequestKeeps(x, s, step.n);
      SizeReadBounds(x, 0);
    }
  }

  /** While the client has what the server needs, the session can be brought to its end. */
  lemma {:induction false} CanEnd(x: Setting, s: State) returns (steps: seq<Step>)
    requires ValidSetting(x) && Together(x, s) && Needs(x, s) <= Total(x)
    ensures Possible(x, s, steps) && BothClosed(Run(x, s, steps))
    decreases Measure(x, s)
  {
    hide Together, ValidSetting, Needs, Measure, Enabled, Next, Total, RequestOf;
    if BothClosed(s) {
      steps := [];
    } else {
      var step := NotStuck(x, s);
      StepDecreases(x, s, step);
      StepKeeps(x, s, step);
      NeedKept(x, s, step);
      var rest := CanEnd(x, Next(x, s, step));
      steps := [step] + rest;
      assert steps[1..] == rest;
    }
  }

  /** At any time the session can no longer end if and only if the server needs more than
      the client has. */
  lemma NeverEndsIff(x: Setting, steps: seq<Step>)
    requires ValidSetting(x) && Possible(x, START, steps)
    ensures var s := Run(x, START, steps); NeverEnds(x, s) <==> Needs(x, s) > Total(x)
  {
    hide Together, Needs, Total;
    var s := Run(x, START, steps);
    Reached(x, steps);
    if Needs(x, s) > Total(x) {
      LackNeverEnds(x, s);
    } else {
      var more := CanEnd(x, s);
    }
  }

  /** Some schedule leads to a state from which no schedule ends the session. */
  ghost predicate CanHang(x: Setting) {
    exists steps: seq<Step> :: Possible(x, START, steps) && NeverEnds(x, Run(x, START, steps))
  }

  /** This much of the file can be read with the request, and then the rest of it is less
      than the size that the server has read, which may be no int at all. */
  predicate Spoils(x: Setting, lost: nat) {
    && 0 < lost <= Total(x)
    && |RequestOf(x)| + lost < BUFF_SIZE
    && (lost + SizeRead(x, lost) > Total(x) || SizeRead(x, lost) >= INT_LIMIT)
  }

  lemma {:induction false} RunThen(x: Setting, s: State, steps: seq<Step>, last: Step)
    requires Possible(x, s, steps) && Enabled(x, Run(x, s, steps), last)
    ensures Possible(x, s, steps + [last]) && Run(x, s, steps + [last]) == Next(x, Run(x, s, steps), last)
    decreases |steps|
  {
    hide Enabled, Next;
    if steps == [] {
      assert steps + [last] == [last] && [last][1..] == [];
    } else {
      assert (steps + [last])[0] == steps[0] && (steps + [last])[1..] == steps[1..] + [last];
      RunThen(x, Next(x, s, steps[0]), steps[1..], last);
    }
  }

  /** The request and p bytes of the file are on the wire, and unread. */
  predicate Unread(x: Setting, s: State, p: nat) {
    && s.server == AwaitRequest && ClientOk(x, s) && s.position == p
    && s.c2s == RequestOf(x) + x.content[..p]
  }

  lemma SendMore(x: Setting, s: State) returns (p: nat)
    requires Unread(x, s, s.position) && s.client == Sending
    ensures Unread(x, NextClient(x, s, 0), p)
    ensures NextClient(x, s, 0).client == Sending ==> p > s.position
    ensures NextClient(x, s, 0).client == Sending || NextClient(x, s, 0).client == AwaitAck
  {
    hide RequestOf, StopsAt;
    p := SendStep(x, s, 0);
    assert x.content[..s.position] + x.content[s.position..p] == x.content[..p];
    assert RequestOf(x) + x.content[..s.position] + x.content[s.position..p] == RequestOf(x) + x.content[..p];
  }

  lemma {:induction false} SendAll(x: Setting, s: State) returns (steps: seq<Step>)
    requires Unread(x, s, s.position) && s.client == Sending
    ensures Possible(x, s, steps) && Unread(x, Run(x, s, steps), Total(x))
    decreases |x.content| - s.position
  {
    var p := SendMore(x, s);
    var s' := NextClient(x, s, 0);
    hide RequestOf, StopsAt, NextClient;
    var rest := [];
    if s'.client == Sending {
      rest := SendAll(x, s');
    }
    steps := [Client(0)] + rest;
    assert steps[1..] == rest;
  }

  lemma SpoilingRun(x: Setting, lost: nat) returns (steps: seq<Step>)
    requires ValidSetting(x) && Spoils(x, lost)
    ensures Possible(x, START, steps) && Needs(x, Run(x, START, steps)) > Total(x)
  {
    hide StopsAt, RequestOf, SizeRead;
    var s1 := NextClient(x, START, 0);
    assert START.c2s + RequestOf(x) == RequestOf(x) + x.content[..0];
    var rest := SendAll(x, s1);
    var first := [Client(0)] + rest;
    assert first[1..] == rest;
    Reached(x, first);
    SpoilingStep(x, Run(x, START, first), lost);
    RunThen(x, START, first, Server(|RequestOf(x)| + lost));
    steps := first + [Server(|RequestOf(x)| + lost)];
  }

  lemma SpoilingStep(x: Setting, s: State, lost: nat)
    requires ValidSetting(x) && Spoils(x, lost) && Together(x, s) && s.server == AwaitRequest
    requires |s.c2s| == |RequestOf(x)| + Total(x)
    ensures Enabled(x, s, Server(|RequestOf(x)| + lost))
    ensures Needs(x, Next(x, s, Server(|RequestOf(x)| + lost))) > Total(x)
  {
    hide RequestOf, NameIn, SizeIn, SizeRead, StopsAt, Token, Str, Total;
    RequestKeeps(x, s, |RequestOf(x)| + lost);
  }

  /** A DOWNLOAD can hang exactly when there is less to read than the announced size, or
      enough of the file can come with the request to spoil the rest. */
  lemma HangsIff(x: Setting)
    requires ValidSetting(x)
    ensures CanHang(x) <==> |x.content| < x.size || exists lost: nat :: Spoils(x, lost)
  {
    TotalIsEnough(x);
    hide RequestOf, SizeRead, Total;
    if |x.content| < x.size {
      assert Possible(x, START, []) && Run(x, START, []) == START;
      NeverEndsIff(x, []);
    } else if lost: nat :| Spoils(x, lost) {
      var steps := SpoilingRun(x, lost);
      NeverEndsIff(x, steps);
    } else {
      forall steps: seq<Step> | Possible(x, START, steps) ensures !NeverEnds(x, Run(x, START, steps)) {
        NeverEndsIff(x, steps);
        Reached(x, steps);
        UnspoiltNeeds(x, Run(x, START, steps));
      }
    }
  }

  lemma UnspoiltNeeds(x: Setting, s: State)
    requires ValidSetting(x) && Together(x, s) && x.size <= Total(x) && !Spoils(x, s.lost)
    ensures Needs(x, s) <= Total(x)
  {
    hide RequestOf, SizeRead, Total;
    PositionBound(x, s);
    SizeReadBounds(x, 0);
  }

  /** A regular file, whose size is what there is to read, can hang exactly when it is not
      empty; and then at any time the session can no longer end if and only if the server
      has read a byte of it with the request. */
  lemma RegularHangsIff(x: Setting, steps: seq<Step>)
    requires ValidSetting(x) && x.size == |x.content| && Possible(x, START, steps)
    ensures CanHang(x) <==> x.content != ""
    ensures NeverEnds(x, Run(x, START, steps)) <==> Run(x, START, steps).lost > 0
  {
    TotalIsEnough(x);
    RequestFits(x);
    hide RequestOf, SizeRead, Total;
    HangsIff(x);
    if x.content != "" {
      SizeReadBounds(x, 1);
      assert Spoils(x, 1);
    }
    Reached(x, steps);
    NeverEndsIff(x, steps);
    RegularNeeds(x, Run(x, START, steps));
  }

  lemma RegularNeeds(x: Setting, s: State)
    requires ValidSetting(x) && Together(x, s) && x.size == Total(x) == |x.content|
    ensures Needs(x, s) > Total(x) <==> s.lost > 0
  {
    hide RequestOf, SizeRead, Total;
    SizeReadBounds(x, s.lost);
  }
}
