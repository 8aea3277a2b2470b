/**
  The two-phase UPLOAD between the Linux programs, as the product of two machines over
  two byte streams: SIZE, 300, the size, UPLOAD, the bytes, the acknowledgement.

  A request is read whole, and so are a response code and the size; the file's bytes and
  the acknowledgement may be cut anywhere.
*/
module UploadSession {
  import opened Files
  import opened Numbers
  import opened Protocol
  import opened Requests
  import opened Tokenizer

  datatype ClientPc = AskSize | AwaitCode | AwaitSize | AskFile | Receive | Acknowledge | ClientClosed
  datatype ServerPc = AwaitRequest | TellSize | AwaitUpload | Send | AwaitAck | ServerClosed | ServerExited

  datatype State = State(
    client: ClientPc,
    fileSize: nat,        // the client's size_t counter
    stored: string,
    server: ServerPc,
    announced: Announced,
    fileName: string,
    fileLength: int,      // the server's int counter
    position: nat,        // in the file being read
    c2s: string,          // unread bytes, client to server
    s2c: string
  )

  datatype Announced = Nothing | Size(n: nat)

  /** What stat says of a path and what fread gets from it, which for a directory, a device
      or a file that changes are not the same. */
  datatype File = File(size: nat, content: string)

  /** What a session is run on: the path asked for, and the server's files. */
  datatype Setting = Setting(path: string, files: map<string, File>)

  /** A path the requests can carry, and sizes that fit an int. */
  predicate ValidSetting(x: Setting) {
    && x.path != "" && ' ' !in x.path && ',' !in x.path
    && forall f <- x.files :: x.files[f].size < INT_LIMIT
  }

  const START := State(AskSize, 0, "", AwaitRequest, Nothing, "", 0, 0, "", "")

  // ---------------------------------------------------------------------- client

  /** `n` is how many bytes a read of file data returns. */
  predicate ClientEnabled(s: State, n: nat) {
    match s.client
    case AwaitCode => |s.s2c| >= 3
    case AwaitSize => s.s2c != ""
    case Receive => s.fileSize != 0 ==> 1 <= n <= |s.s2c| && n <= BUFF_SIZE
    case ClientClosed => false
    case _ => true
  }

  function NextClient(x: Setting, s: State, n: nat): State
    requires ClientEnabled(s, n)
  {
    match s.client
    case AskSize => s.(client := AwaitCode, c2s := s.c2s + SizeRequest(x.path))
    case AwaitCode =>
      s.(client := if s.s2c[..3] == CONTINUE then AwaitSize else ClientClosed, s2c := s.s2c[3..])
    case AwaitSize => s.(client := AskFile, fileSize := Atoi(s.s2c) % WORD64, s2c := "")
    case AskFile => s.(client := Receive, c2s := s.c2s + UploadRequest(x.path, s.fileSize))
    case Receive =>
      if s.fileSize == 0 then s.(client := Acknowledge)
      else s.(fileSize := (s.fileSize + WORD64 - n) % WORD64, stored := s.stored + s.s2c[..n], s2c := s.s2c[n..])
    case Acknowledge => s.(client := ClientClosed, c2s := s.c2s + OK)
  }

  // ---------------------------------------------------------------------- server

  /** `n` is how many bytes a read of the acknowledgement returns. */
  predicate ServerEnabled(s: State, n: nat) {
    match s.server
    case AwaitRequest => s.c2s != ""
    case AwaitUpload => s.c2s != ""
    case AwaitAck => 1 <= n <= |s.c2s| && n <= 3
    case ServerClosed => false
    case ServerExited => false
    case _ => true
  }

  function NextServer(x: Setting, s: State, n: nat): State
    requires ServerEnabled(s, n)
  {
    match s.server
    case AwaitRequest =>
      var argument := Rest(s.c2s, SPACE);
      if Token(s.c2s, SPACE) != "SIZE" then s.(server := ServerClosed, c2s := "")
      else if argument !in x.files then s.(server := ServerClosed, c2s := "", s2c := s.s2c + ABORT)
      else s.(server := TellSize, c2s := "", fileLength := x.files[argument].size, s2c := s.s2c + CONTINUE)
    case TellSize =>
      s.(server := AwaitUpload, announced := Size(AsNat(s.fileLength)), s2c := s.s2c + Digits(AsNat(s.fileLength)))
    case AwaitUpload =>
      var arguments := if |s.c2s| >= 7 then s.c2s[7..] else "";
      var name := Token(arguments, COMMA);
      if !("UPLOAD" <= s.c2s) || name !in x.files then s.(server := ServerClosed, c2s := "")
      else s.(server := Send, c2s := "", fileName := name, position := 0,
              fileLength := Atoi(Token(Rest(arguments, COMMA), COMMA)))
    case Send =>
      if s.fileLength == 0 then s.(server := AwaitAck)
      else
        var count := if s.fileLength > BUFF_SIZE - 1 then BUFF_SIZE - 1 else AsNat(s.fileLength);
        var chunk := Fread(Readable(x, s.fileName), s.position, count);
        // Write of no bytes ends the whole server
        if chunk == "" then s.(server := ServerExited)
        else s.(position := s.position + |chunk|, fileLength := s.fileLength - |chunk|, s2c := s.s2c + chunk)
    case AwaitAck =>
      s.(server := if s.c2s[..n] <= OK then ServerClosed else AwaitAck, c2s := s.c2s[n..])
  }

  function AsNat(n: int): nat { if n < 0 then 0 else n }

  /** What there is to read under this name. */
  function Readable(x: Setting, name: string): string { if name in x.files then x.files[name].content else "" }

  /** A read may bring any piece that is there and fits, of the file and of an
      acknowledgement. */
  lemma AnyPiece(s: State, n: nat)
    ensures s.client == Receive && 1 <= n <= |s.s2c| && n <= 65535 ==> ClientEnabled(s, n)
    ensures s.server == AwaitAck && 1 <= n <= |s.c2s| && n <= 3 ==> ServerEnabled(s, n)
  {
  }

  /** Nothing but a beginning of the code 200 is an acknowledgement. */
  lemma OnlyAcknowledged(x: Setting, s: State, n: nat)
    requires s.server == AwaitAck && ServerEnabled(s, n)
    ensures NextServer(x, s, n).server == ServerClosed <==> s.c2s[..n] in {"2", "20", "200"}
  {
    assert OK[..1] == "2" && OK[..2] == "20" && OK[..3] == "200";
    var piece := s.c2s[..n];
    assert piece <= OK <==> piece == OK[..n];
    assert n == 1 || n == 2 || n == 3;
  }

  // ------------------------------------------------------------------------ runs

  datatype Step = Client(n: nat) | Server(n: nat)

  predicate Enabled(s: State, step: Step) {
    if step.Client? then ClientEnabled(s, step.n) else ServerEnabled(s, step.n)
  }

  function Next(x: Setting, s: State, step: Step): State
    requires Enabled(s, step)
  {
    if step.Client? then NextClient(x, s, step.n) else NextServer(x, s, step.n)
  }

  predicate Possible(x: Setting, s: State, steps: seq<Step>)
    decreases |steps|
  {
    steps == [] || (Enabled(s, steps[0]) && Possible(x, Next(x, s, steps[0]), steps[1..]))
  }

  function Run(x: Setting, s: State, steps: seq<Step>): State
    requires Possible(x, s, steps)
    decreases |steps|
  {
    if steps == [] then s else Run(x, Next(x, s, steps[0]), steps[1..])
  }

  // ------------------------------------------------------------------- invariant

  /** There is no such file, or it has a size, and as many bytes to read. */
  predicate Full(x: Setting) {
    x.path in x.files ==> 0 < x.files[x.path].size <= |x.files[x.path].content|
  }

  /** What the server takes the size 0 for when the acknowledgement 200 follows at once. */
  const COALESCED: nat := 200

  /** There is no such file, or enough to read for whatever size the server may take. */
  predicate Enough(x: Setting) {
    x.path in x.files ==>
      var f := x.files[x.path];
      f.size <= |f.content| && (f.size == 0 ==> COALESCED <= |f.content|)
  }

  function FileSize(x: Setting): nat { if x.path in x.files then x.files[x.path].size else 0 }

  function Content(x: Setting): string { Readable(x, x.path) }

  /** Where the two machines can be together, and what is then on the wire. */
  predicate Together(x: Setting, s: State) {
    var found := x.path in x.files;
    var size := FileSize(x);
    match s.client
    case AskSize => s == START
    case AwaitCode =>
      && s.stored == ""
      && (match s.server
         case AwaitRequest => s.c2s == SizeRequest(x.path) && s.s2c == "" && s.announced == Nothing
         case TellSize => found && s.c2s == "" && s.s2c == CONTINUE && s.fileLength == size
         case AwaitUpload => found && s.c2s == "" && s.s2c == CONTINUE + Digits(size) && s.announced == Size(size)
         case ServerClosed => !found && s.c2s == "" && s.s2c == ABORT && s.announced == Nothing
         case _ => false)
    case AwaitSize =>
      && s.stored == "" && found && s.c2s == ""
      && (match s.server
         case TellSize => s.s2c == "" && s.fileLength == size
         case AwaitUpload => s.s2c == Digits(size) && s.announced == Size(size)
         case _ => false)
    case AskFile =>
      && s.stored == "" && found && s.c2s == "" && s.s2c == "" && s.server == AwaitUpload
      && s.fileSize == size && s.announced == Size(size)
    case _ =>
      if !found then
        && s.client == ClientClosed && s.server == ServerClosed
        && s.announced == Nothing && s.stored == "" && s.c2s == "" && s.s2c == ""
      else
        && s.announced == Size(size) && size <= |Content(x)|
        && if size == 0 then ServingNothing(x, s) else Serving(x, s, size, Content(x))
  }

  /** The client has asked for a file that has a size. */
  predicate Serving(x: Setting, s: State, size: nat, content: string)
    requires size <= |content|
  {
    match s.client
    case Receive =>
      && s.fileSize == size - |s.stored|
      && if s.server == AwaitUpload then s.stored == "" && s.s2c == "" && s.c2s == UploadRequest(x.path, size)
         else Streaming(x, s, size, content) && s.c2s == ""
    case Acknowledge => s.stored == content[..size] && Streaming(x, s, size, content) && s.c2s == ""
    case ClientClosed =>
      && s.stored == content[..size]
      && (if s.server == ServerClosed then s.position == size && s.s2c == ""
          else Streaming(x, s, size, content) && s.c2s == OK)
    case _ => false
  }

  /** The server is sending the file, or has: the bytes stored, those on the wire and
      those still to send are what was announced. */
  predicate Streaming(x: Setting, s: State, size: nat, content: string)
    requires size <= |content|
  {
    && (s.server == Send || (s.server == AwaitAck && s.fileLength == 0))
    && s.fileName == x.path
    && s.position <= size && s.fileLength == size - s.position
    && s.stored + s.s2c == content[..s.position]
  }

  /** The client has asked for a file of size 0, and acknowledges without waiting. */
  predicate ServingNothing(x: Setting, s: State) {
    && s.fileSize == 0 && s.stored == ""
    && match s.server
       case AwaitUpload => s.c2s == UploadRequest(x.path, 0) + if s.client == ClientClosed then OK else ""
       case Send =>
         && s.fileName == x.path
         && if s.position == 0 then s.fileLength == 0 || s.fileLength == COALESCED
            else s.position == COALESCED && s.fileLength == 0
       case AwaitAck => true
       case ServerClosed => true
       case _ => false
  }

  /** The request alone, and with the acknowledgement behind it. */
  lemma ZeroParses(path: string)
    requires path != "" && ',' !in path
    ensures var read := UploadRequest(path, 0) + OK;
      && |read| >= 7 && "UPLOAD" <= read
      && Token(read[7..], COMMA) == path && Atoi(Token(Rest(read[7..], COMMA), COMMA)) == COALESCED
  {
    hide Atoi, First, Last, Token, Rest, SpanIn, SpanOut;
    ZeroDigits();
    var read := UploadRequest(path, 0) + OK;
    assert read[..6] == "UPLOAD";
    assert read[7..] == path + (",0" + OK) && ",0" + OK == ",0200";
    FirstWord(path, ",0200", COMMA);
    assert ",0200"[1..] == "0200" && "0200" + "" == "0200";
    FirstWord("0200", "", COMMA);
  }

  lemma ZeroDigits()
    ensures Digits(0) == "0" && Atoi("0200") == COALESCED
  {
    assert "0200"[..0] == "" && "0200"[1..] == "200" && "200"[1..] == "00" && "00"[1..] == "0" && "0"[1..] == "";
    assert DigitCount("0200") == 4 && "0200"[..4] == "0200";
    assert "0200"[..3] == "020" && "020"[..2] == "02" && "02"[..1] == "0" && "0"[..0] == "";
    assert Value("0") == 0 && Value("02") == 2 && Value("020") == 20 && Value("0200") == 200;
  }

  lemma ClientKeeps(x: Setting, s: State, n: nat)
    requires ValidSetting(x) && Enough(x) && Together(x, s) && ClientEnabled(s, n)
    ensures Together(x, NextClient(x, s, n))
  {
    hide Atoi, Digits, Token, Rest, UploadRequest;
    var size := FileSize(x);
    match s.client
    case AwaitCode =>
      assert CONTINUE[0] != ABORT[0];
      assert (CONTINUE + Digits(size))[..3] == CONTINUE && (CONTINUE + Digits(size))[3..] == Digits(size);
      assert CONTINUE[..3] == CONTINUE && CONTINUE[3..] == "" && ABORT[..3] == ABORT && ABORT[3..] == "";
    case AwaitSize =>
      PrintAtoi(size);
      assert size % WORD64 == size;
    case AskFile =>
      assert "" + UploadRequest(x.path, size) == UploadRequest(x.path, size) + "" == UploadRequest(x.path, size);
    case Receive => ReceiveKeeps(x, s, n);
    case Acknowledge =>
      assert "" + OK == OK && UploadRequest(x.path, size) + "" == UploadRequest(x.path, size);
    case _ =>
  }

  /** A read moves bytes from the wire to the client's file. */
  lemma ReceiveKeeps(x: Setting, s: State, n: nat)
    requires ValidSetting(x) && Enough(x) && Together(x, s) && ClientEnabled(s, n) && s.client == Receive
    ensures Together(x, NextClient(x, s, n))
  {
    hide Atoi, Digits, Token, Rest, UploadRequest;
    var size, content := FileSize(x), Content(x);
    if s.fileSize != 0 {
      assert s.stored + s.s2c[..n] + s.s2c[n..] == s.stored + s.s2c;
      assert |s.stored| + |s.s2c| == s.position <= size;
      assert (s.fileSize + WORD64 - n) % WORD64 == s.fileSize - n;
    } else if size > 0 {
      assert |s.stored| == size == s.position && s.s2c == "";
      assert s.stored + s.s2c == s.stored;
    }
  }

  lemma ServerKeeps(x: Setting, s: State, n: nat)
    requires ValidSetting(x) && Enough(x) && Together(x, s) && ServerEnabled(s, n)
    ensures Together(x, NextServer(x, s, n))
  {
    hide Atoi, Digits, Token, Rest, SizeRequest, UploadRequest;
    var size := FileSize(x);
    match s.server
    case AwaitRequest =>
      SizeRequestParses(x.path);
      assert "" + ABORT == ABORT && "" + CONTINUE == CONTINUE;
    case TellSize =>
      assert "" + Digits(size) == Digits(size);
    case AwaitUpload =>
      UploadRequestParses(x.path, size);
      ZeroParses(x.path);
      assert UploadRequest(x.path, 0) + "" == UploadRequest(x.path, 0);
    case Send => SendKeeps(x, s, n);
    case AwaitAck => AckKeeps(x, s, n);
  }

  lemma AckKeeps(x: Setting, s: State, n: nat)
    requires ValidSetting(x) && Enough(x) && Together(x, s) && ServerEnabled(s, n) && s.server == AwaitAck
    ensures Together(x, NextServer(x, s, n))
  {
    hide Atoi, Digits, Token, Rest, SizeRequest, UploadRequest;
    assert OK[..n] <= OK;
    if FileSize(x) > 0 {
      assert |s.stored| + |s.s2c| == s.position;
    }
  }

  /** A chunk moves from the file to the wire. */
  lemma SendKeeps(x: Setting, s: State, n: nat)
    requires ValidSetting(x) && Enough(x) && Together(x, s) && s.server == Send
    ensures Together(x, NextServer(x, s, n))
  {
    hide Atoi, Digits, Token, Rest, SizeRequest, UploadRequest;
    var content := Content(x);
    if s.fileLength != 0 && FileSize(x) > 0 {
      var s' := NextServer(x, s, n);
      var chunk := content[s.position..s'.position];
      assert s'.s2c == s.s2c + chunk;
      assert content[..s.position] + chunk == content[..s'.position];
      assert s.stored + (s.s2c + chunk) == (s.stored + s.s2c) + chunk;
    }
  }

  lemma StepKeeps(x: Setting, s: State, step: Step)
    requires ValidSetting(x) && Enough(x) && Together(x, s) && Enabled(s, step)
    ensures Together(x, Next(x, s, step))
  {
    hide Together, ClientEnabled, ServerEnabled, NextClient, NextServer, ValidSetting, Enough;
    if step.Client? {
      ClientKeeps(x, s, step.n);
    } else {
      ServerKeeps(x, s, step.n);
    }
  }

  lemma {:induction false} RunKeeps(x: Setting, s: State, steps: seq<Step>)
    requires ValidSetting(x) && Enough(x) && Together(x, s) && Possible(x, s, steps)
    ensures Together(x, Run(x, s, steps))
    decreases |steps|
  {
    hide Together, Enabled, Next, ValidSetting, Enough;
    if steps != [] {
      StepKeeps(x, s, steps[0]);
      RunKeeps(x, Next(x, s, steps[0]), steps[1..]);
    }
  }

  // -------------------------------------------------------------------- theorems

  predicate BothClosed(s: State) { s.client == ClientClosed && s.server == ServerClosed }

  /** The server has not ended, and serves the size it announced. */
  predicate Orderly(s: State) {
    && s.server != ServerExited
    && (s.server == Send ==> s.announced.Size? && s.announced.n == s.position + s.fileLength)
  }

  /** A request is on the wire only while the server waits for it. */
  predicate OneOutstanding(x: Setting, s: State) {
    s.c2s != "" && s.server != ServerClosed ==>
      || (s.server == AwaitRequest && s.c2s == SizeRequest(x.path))
      || (s.server == AwaitUpload && s.c2s == UploadRequest(x.path, FileSize(x)))
      || (s.client == ClientClosed && s.c2s == OK)
  }

  lemma TogetherOrderly(x: Setting, s: State)
    requires Full(x) && Together(x, s)
    ensures Orderly(s) && OneOutstanding(x, s)
  {
    hide SizeRequest, UploadRequest, Digits;
  }

  lemma NotStuck(x: Setting, s: State)
    requires ValidSetting(x) && Full(x) && Together(x, s) && !BothClosed(s)
    ensures ClientEnabled(s, 1) || ServerEnabled(s, 1)
  {
    hide SizeRequest, UploadRequest, Digits;
    SizeRequestParses(x.path);
    UploadRequestParses(x.path, FileSize(x));
    assert Digits(FileSize(x)) != "";
    if s.client == Receive && s.server == AwaitAck {
      assert |s.stored| + |s.s2c| == s.position;
    }
  }

  /** At any time: unless both are done one of them can move; a request is on the wire
      only while the server waits for one; and the server serves the size it announced. */
  lemma SessionSafe(x: Setting, steps: seq<Step>)
    requires ValidSetting(x) && Full(x) && Possible(x, START, steps)
    ensures var s := Run(x, START, steps);
      && (!BothClosed(s) ==> ClientEnabled(s, 1) || ServerEnabled(s, 1))
      && Orderly(s) && OneOutstanding(x, s)
  {
    RunKeeps(x, START, steps);
    hide Together, Orderly, OneOutstanding, ClientEnabled, ServerEnabled;
    var s := Run(x, START, steps);
    TogetherOrderly(x, s);
    if !BothClosed(s) {
      NotStuck(x, s);
    }
  }

  /** When both are closed the client has what was announced of the server's file, which
      is all of it if its size is, or there was none. */
  lemma SessionOutcome(x: Setting, steps: seq<Step>)
    requires ValidSetting(x) && Full(x) && Possible(x, START, steps) && BothClosed(Run(x, START, steps))
    ensures var s := Run(x, START, steps);
      if x.path in x.files
      then
        && s.stored == x.files[x.path].content[..FileSize(x)]
        && s.announced == Size(s.position) && s.position == |s.stored|
      else s.stored == "" && s.announced == Nothing
  {
    RunKeeps(x, START, steps);
  }

  /** The server answers the SIZE request with 300 and the size, or with 400. */
  lemma SizeAnswered(x: Setting, steps: seq<Step>)
    requires ValidSetting(x) && Enough(x) && Possible(x, START, steps)
    ensures var s := Run(x, START, steps);
      s.client == AwaitCode && s.server != AwaitRequest ==>
        if x.path !in x.files then s.server == ServerClosed && s.s2c == "400"
        else s.s2c == if s.server == TellSize then "300" else "300" + Digits(x.files[x.path].size)
  {
    hide Digits, SizeRequest, UploadRequest;
    RunKeeps(x, START, steps);
  }

  function ClientRank(pc: ClientPc): nat {
    match pc
    case AskSize => 6
    case AwaitCode => 5
    case AwaitSize => 4
    case AskFile => 3
    case Receive => 2
    case Acknowledge => 1
    case ClientClosed => 0
  }

  function ServerRank(pc: ServerPc): nat {
    match pc
    case AwaitRequest => 5
    case TellSize => 4
    case AwaitUpload => 3
    case Send => 2
    case AwaitAck => 1
    case ServerClosed => 0
    case ServerExited => 0
  }

  /** Bytes of the file the server has not sent. */
  function Due(x: Setting, s: State): nat {
    if s.server == AwaitRequest || s.server == TellSize || s.server == AwaitUpload
    then FileSize(x)
    else if s.server == Send then AsNat(s.fileLength) else 0
  }

  function Measure(x: Setting, s: State): nat {
    40 * (ClientRank(s.client) + ServerRank(s.server)) + 2 * Due(x, s) + |s.s2c|
  }

  lemma SizeLength(n: nat)
    requires n < INT_LIMIT
    ensures 1 <= |Digits(n)| <= 10
  {
    assert Power10(5) == 100_000;
    assert Power10(10) == 100_000 * Power10(5);
    DigitsLength(n, 10);
  }

  lemma ClientDecreases(x: Setting, s: State, n: nat)
    requires ValidSetting(x) && Full(x) && Together(x, s) && ClientEnabled(s, n)
    ensures Measure(x, NextClient(x, s, n)) < Measure(x, s)
  {
    hide SizeRequest, UploadRequest, Digits, Atoi, Token, Rest;
  }

  lemma ServerDecreases(x: Setting, s: State, n: nat)
    requires ValidSetting(x) && Full(x) && Together(x, s) && ServerEnabled(s, n)
    ensures Measure(x, NextServer(x, s, n)) < Measure(x, s)
  {
    hide SizeRequest, UploadRequest, Digits, Atoi, Token, Rest;
    var size := FileSize(x);
    SizeLength(size);
    SizeRequestParses(x.path);
    UploadRequestParses(x.path, size);
  }

  lemma StepDecreases(x: Setting, s: State, step: Step)
    requires ValidSetting(x) && Full(x) && Together(x, s) && Enabled(s, step)
    ensures Measure(x, Next(x, s, step)) < Measure(x, s)
  {
    hide Together, Measure, ClientEnabled, ServerEnabled, NextClient, NextServer;
    if step.Client? {
      ClientDecreases(x, s, step.n);
    } else {
      ServerDecreases(x, s, step.n);
    }
  }

  /** Every session is over after a bounded number of steps, however they interleave. */
  lemma {:induction false} SessionBounded(x: Setting, s: State, steps: seq<Step>)
    requires ValidSetting(x) && Full(x) && Together(x, s) && Possible(x, s, steps)
    ensures |steps| + Measure(x, Run(x, s, steps)) <= Measure(x, s)
    decreases |steps|
  {
    if steps != [] {
      StepDecreases(x, s, steps[0]);
      StepKeeps(x, s, steps[0]);
      SessionBounded(x, Next(x, s, steps[0]), steps[1..]);
    }
  }

  // ---------------------------------------------------------------- bad endings

  /** s' is where these steps lead from s. */
  ghost predicate Leads(x: Setting, s: State, steps: seq<Step>, s': State) {
    Possible(x, s, steps) && Run(x, s, steps) == s'
  }

  lemma Prepend(x: Setting, s: State, step: Step, s1: State, rest: seq<Step>, s': State)
    requires Enabled(s, step) && Next(x, s, step) == s1 && Leads(x, s1, rest, s')
    ensures Leads(x, s, [step] + rest, s')
  {
    assert ([step] + rest)[1..] == rest;
  }

  lemma {:induction false} Append(x: Setting, s: State, first: seq<Step>, middle: State, second: seq<Step>, s': State)
    requires Leads(x, s, first, middle) && Leads(x, middle, second, s')
    ensures Leads(x, s, first + second, s')
    decreases |first|
  {
    if first == [] {
      assert first + second == second;
    } else {
      var s1 := Next(x, s, first[0]);
      Append(x, s1, first[1..], middle, second, s');
      Prepend(x, s, first[0], s1, first[1..] + second, s');
      assert first + second == [first[0]] + (first[1..] + second);
    }
  }

  /** The client knows the size, and has asked for the file. */
  function Asked(x: Setting): State {
    var size := FileSize(x);
    START.(client := Receive, fileSize := size, server := AwaitUpload, announced := Size(size), fileLength := size,
           c2s := UploadRequest(x.path, size))
  }

  lemma AskingLeads(x: Setting) returns (steps: seq<Step>)
    requires ValidSetting(x) && x.path in x.files
    ensures Leads(x, START, steps, Asked(x))
  {
    hide UploadRequest, SizeRequest, Token, Rest, Digits, Atoi;
    SizeRequestParses(x.path);
    var size := FileSize(x);
    PrintAtoi(size);
    assert size % WORD64 == size;
    var s1 := START.(client := AwaitCode, c2s := SizeRequest(x.path));
    assert "" + SizeRequest(x.path) == SizeRequest(x.path);
    var s2 := s1.(server := TellSize, c2s := "", s2c := CONTINUE, fileLength := size);
    assert "" + CONTINUE == CONTINUE && CONTINUE[..3] == CONTINUE && CONTINUE[3..] == "";
    var s3 := s2.(client := AwaitSize, s2c := "");
    assert "" + Digits(size) == Digits(size);
    var s4 := s3.(server := AwaitUpload, announced := Size(size), s2c := Digits(size));
    var s5 := s4.(client := AskFile, fileSize := size, s2c := "");
    assert "" + UploadRequest(x.path, size) == UploadRequest(x.path, size);
    var s6 := Asked(x);
    assert Leads(x, s6, [], s6);
    Prepend(x, s5, Client(0), s6, [], s6);
    Prepend(x, s4, Client(0), s5, [Client(0)] + [], s6);
    var late := [Client(0)] + ([Client(0)] + []);
    Prepend(x, s3, Server(0), s4, late, s6);
    Prepend(x, s2, Client(0), s3, [Server(0)] + late, s6);
    var most := [Client(0)] + ([Server(0)] + late);
    Prepend(x, s1, Server(0), s2, most, s6);
    Prepend(x, START, Client(0), s1, [Server(0)] + most, s6);
    steps := [Client(0)] + ([Server(0)] + most);
  }

  /** The server has read the request, alone or with the acknowledgement behind it. */
  function Sending(x: Setting, length: nat): State {
    var size := FileSize(x);
    if length == size then Asked(x).(server := Send, c2s := "", fileName := x.path)
    else Asked(x).(client := ClientClosed, server := Send, c2s := "", fileName := x.path, fileLength := length)
  }

  lemma RequestLeads(x: Setting) returns (steps: seq<Step>)
    requires ValidSetting(x) && x.path in x.files
    ensures Leads(x, START, steps, Sending(x, FileSize(x)))
  {
    hide UploadRequest, Token, Rest, Digits, Atoi;
    UploadRequestParses(x.path, FileSize(x));
    var first := AskingLeads(x);
    var s := Sending(x, FileSize(x));
    assert Leads(x, s, [], s);
    Prepend(x, Asked(x), Server(0), s, [], s);
    Append(x, START, first, Asked(x), [Server(0)] + [], s);
    steps := first + ([Server(0)] + []);
  }

  lemma CoalescedLeads(x: Setting) returns (steps: seq<Step>)
    requires ValidSetting(x) && x.path in x.files && FileSize(x) == 0
    ensures Leads(x, START, steps, Sending(x, COALESCED))
  {
    hide UploadRequest, Token, Rest, Digits, Atoi;
    ZeroParses(x.path);
    var first := AskingLeads(x);
    var s0 := Asked(x);
    var s1 := s0.(client := Acknowledge);
    var s2 := s1.(client := ClientClosed, c2s := UploadRequest(x.path, 0) + OK);
    var s := Sending(x, COALESCED);
    assert Leads(x, s, [], s);
    Prepend(x, s2, Server(0), s, [], s);
    Prepend(x, s1, Client(0), s2, [Server(0)] + [], s);
    var late := [Client(0)] + ([Server(0)] + []);
    Prepend(x, s0, Client(0), s1, late, s);
    Append(x, START, first, s0, [Client(0)] + late, s);
    steps := first + ([Client(0)] + late);
  }

  /** With more to send than there is to read, the server comes to write no bytes. */
  lemma {:induction false} SendingExits(x: Setting, s: State) returns (steps: seq<Step>, s': State)
    requires s.server == Send && s.fileName == x.path && x.path in x.files
    requires s.position <= |Content(x)| && s.fileLength > |Content(x)| - s.position
    ensures Leads(x, s, steps, s') && s'.server == ServerExited
    decreases |Content(x)| - s.position
  {
    var s1 := NextServer(x, s, 0);
    if s1.server == ServerExited {
      s', steps := s1, [];
      assert Leads(x, s1, [], s1);
    } else {
      steps, s' := SendingExits(x, s1);
    }
    Prepend(x, s, Server(0), s1, steps, s');
    steps := [Server(0)] + steps;
  }

  /** Some schedule ends the server. */
  ghost predicate CanExit(x: Setting) {
    exists steps: seq<Step> :: Possible(x, START, steps) && Run(x, START, steps).server == ServerExited
  }

  lemma ShortExits(x: Setting, length: nat, first: seq<Step>)
    requires x.path in x.files && length > |Content(x)| && Leads(x, START, first, Sending(x, length))
    ensures CanExit(x)
  {
    var second, s := SendingExits(x, Sending(x, length));
    Append(x, START, first, Sending(x, length), second, s);
    assert Possible(x, START, first + second) && Run(x, START, first + second).server == ServerExited;
  }

  /** Uploading an existing file can end the server exactly when there is less to read than
      the size announced, or than 200 bytes when that size is 0: the client acknowledges
      a size of 0 at once, and if the server finds the acknowledgement together with the
      request, it reads the size 0200. */
  lemma UploadExitsIff(x: Setting)
    requires ValidSetting(x) && x.path in x.files
    ensures CanExit(x) <==>
      var f := x.files[x.path];
      |f.content| < f.size || (f.size == 0 && |f.content| < COALESCED)
  {
    var size := FileSize(x);
    if |Content(x)| < size {
      var first := RequestLeads(x);
      ShortExits(x, size, first);
    } else if size == 0 && |Content(x)| < COALESCED {
      var first := CoalescedLeads(x);
      ShortExits(x, COALESCED, first);
    } else {
      forall steps: seq<Step> | Possible(x, START, steps) ensures Run(x, START, steps).server != ServerExited {
        RunKeeps(x, START, steps);
      }
    }
  }

  /** Every schedule of an upload is orderly exactly when the file has a size, and as many
      bytes to read. */
  lemma UploadSafeIff(x: Setting)
    requires ValidSetting(x) && x.path in x.files
    ensures 0 < x.files[x.path].size <= |x.files[x.path].content| <==>
      forall steps: seq<Step> :: Possible(x, START, steps) ==> Orderly(Run(x, START, steps))
  {
    if Full(x) {
      forall steps: seq<Step> | Possible(x, START, steps) ensures Orderly(Run(x, START, steps)) {
        SessionSafe(x, steps);
      }
    } else if FileSize(x) == 0 {
      var steps := CoalescedLeads(x);
      assert Possible(x, START, steps) && !Orderly(Run(x, START, steps));
    } else {
      UploadExitsIff(x);
      var steps: seq<Step> :| Possible(x, START, steps) && Run(x, START, steps).server == ServerExited;
      assert !Orderly(Run(x, START, steps));
    }
  }
}
