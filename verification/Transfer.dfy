/**
  Sending a file in chunks and receiving it, in the four programs.  The receiver's view
  of the connection is a byte stream that each read may cut anywhere.
*/
module Transfer {
  import opened Files
  import opened Network
  import opened Numbers
  import opened Protocol
  import opened Requests
  import opened Tokenizer

  // --------------------------------------------------------------------- senders

  /** The Linux server, UPLOAD: the first `size` bytes of the file. */
  method LinuxServerSend(file: Source, size: nat, down: Stream)
    requires file.Valid() && file.at == 0 && size <= |file.content| && size < INT_LIMIT
    modifies file, down
    ensures down.bytes == old(down.bytes) + file.content[..size]
  {
    ghost var before := down.bytes;
    var fileLength: int := size;
    while fileLength != 0
      invariant 0 <= fileLength <= size && file.Valid() && file.at == size - fileLength
      invariant down.bytes == before + file.content[..file.at]
      decreases fileLength
    {
      var chunk;
      ghost var at := file.at;
      if fileLength > BUFF_SIZE - 1 {
        chunk := file.Read(BUFF_SIZE - 1);
      } else {
        chunk := file.Read(fileLength);
      }
      assert file.content[..at] + chunk == file.content[..file.at];
      down.Write(chunk);
      fileLength := fileLength - |chunk|;
    }
  }

  /** The Linux client, DOWNLOAD: the file, whose size stat has just told. */
  method LinuxClientSend(file: Source, size: nat, up: Stream)
    requires file.Valid() && file.at == 0 && size == |file.content| < INT_LIMIT
    modifies file, up
    ensures up.bytes == old(up.bytes) + file.content
  {
    ghost var before := up.bytes;
    var fileSize := size;
    while fileSize != 0
      invariant file.Valid() && fileSize == size - file.at
      invariant up.bytes == before + file.content[..file.at]
      decreases fileSize
    {
      ghost var at := file.at;
      var chunk := file.Read(BUFF_SIZE - 1);
      if chunk == "" {
        break;
      }
      fileSize := (fileSize + WORD64 - |chunk|) % WORD64;
      assert file.content[..at] + chunk == file.content[..file.at];
      up.Write(chunk);
    }
    assert file.content[..|file.content|] == file.content;
  }

  /** The Windows programs, both directions: one piece, or whole buffers and a rest. */
  method WindowsSend(file: Source, size: nat, out: Stream)
    requires file.Valid() && file.at == 0 && size <= |file.content| && size < WORD32
    modifies file, out
    ensures out.bytes == old(out.bytes) + file.content[..size]
  {
    ghost var before := out.bytes;
    if size < BUFF_SIZE {
      var line := file.Read(size);
      out.Write(line);
    } else {
      var parts, rem := size / BUFF_SIZE, size % BUFF_SIZE;
      var i := 0;
      while i < parts
        invariant i <= parts && file.Valid() && file.at == i * BUFF_SIZE
        invariant out.bytes == before + file.content[..file.at]
      {
        ghost var at := file.at;
        var line := file.Read(BUFF_SIZE);
        assert file.content[..at] + line == file.content[..file.at];
        out.Write(line);
        i := i + 1;
      }
      ghost var at := file.at;
      var lastLine := file.Read(rem);
      assert file.content[..at] + lastLine == file.content[..size];
      out.Write(lastLine);
    }
  }

  // ------------------------------------------------------------------- receivers

  /** The Linux server, DOWNLOAD: it never reads past the announced size. */
  method LinuxServerReceive(up: Stream, size: nat) returns (file: string)
    requires size <= |up.bytes| && size < INT_LIMIT
    modifies up
    ensures file == old(up.bytes)[..size] && up.bytes == old(up.bytes)[size..]
  {
    ghost var all := up.bytes;
    file := "";
    var fileLength: int := size;
    while fileLength != 0
      invariant 0 <= fileLength <= size && |file| == size - fileLength
      invariant all == file + up.bytes
      decreases fileLength
    {
      var chunk;
      if fileLength > BUFF_SIZE - 1 {
        chunk := up.Read(BUFF_SIZE - 1);
      } else {
        chunk := up.Read(fileLength);
      }
      file := file + chunk;
      fileLength := fileLength - |chunk|;
    }
  }

  /** The Linux client, UPLOAD.  It reads up to a whole buffer whatever is still due, so
      its size_t counter reaches 0 only if the peer sends nothing after the file. */
  method LinuxClientReceive(down: Stream, size: nat) returns (file: string)
    requires |down.bytes| == size < INT_LIMIT
    modifies down
    ensures file == old(down.bytes) && down.bytes == ""
  {
    ghost var all := down.bytes;
    file := "";
    var fileSize := size;
    while fileSize != 0
      invariant all == file + down.bytes && fileSize == |down.bytes|
      decreases fileSize
    {
      var chunk := down.Read(BUFF_SIZE);
      if chunk == "" {
        break;
      }
      fileSize := (fileSize + WORD64 - |chunk|) % WORD64;
      file := file + chunk;
    }
  }

  /** The Windows programs, both directions: 254 bytes at a time, a DWORD counter. */
  method WindowsReceive(incoming: Stream, announced: nat) returns (file: string)
    requires |incoming.bytes| == announced < WORD32
    modifies incoming
    ensures file == old(incoming.bytes) && incoming.bytes == ""
  {
    ghost var all := incoming.bytes;
    file := "";
    var size := announced;
    while 0 < size
      invariant all == file + incoming.bytes && size == |incoming.bytes|
      decreases size
    {
      var line := incoming.Read(254);
      size := (size + WORD32 - |line|) % WORD32;
      file := file + line;
    }
  }

  // ------------------------------------------------------------------ end to end

  /** The last piece read, from i to n, begins as "200" does, and is empty only at the end. */
  predicate Acknowledged(all: string, i: nat, n: nat, unread: string) {
    && i <= n <= |all| && n - i <= |OK|
    && all[i..n] <= OK && (i == n ==> n == |all|)
    && unread == all[n..]
  }

  /** Waiting for the acknowledgement: until a read returns a beginning of "200", so the
      loop ends at the first piece of it, or at the end of the stream. */
  method WriteAck(incoming: Stream)
    modifies incoming
    ensures exists i: nat, n: nat :: Acknowledged(old(incoming.bytes), i, n, incoming.bytes)
    ensures old(incoming.bytes) == OK ==> |incoming.bytes| < |OK|
  {
    ghost var all := incoming.bytes;
    ghost var n: nat := 0;
    while true
      invariant n <= |all| && incoming.bytes == all[n..]
      decreases |incoming.bytes|
    {
      ghost var i := n;
      var response := incoming.Read(|OK|);
      n := i + |response|;
      assert all == all[..i] + (response + incoming.bytes);
      assert all[i..n] == response;
      if response <= OK {
        assert Acknowledged(all, i, n, incoming.bytes);
        break;
      }
    }
  }

  /** A size as the program of this platform parses it. */
  method ReadSize(os: Os, text: string) returns (size: Parsed)
    ensures forall n: nat :: n < INT_LIMIT && text == Digits(n) ==> size == Number(n)
  {
    size := if os.Linux? then Number(Atoi(text) % WORD64) else StrToDword(text);
    forall n: nat | n < INT_LIMIT && text == Digits(n) ensures size == Number(n) {
      PrintAtoi(n);
      PrintParseDword(n);
    }
  }

  /** UPLOAD, server to client: the server prints the size, the client parses it and sends
      it back with the path, and the server parses that.  For every file and every way the
      stream is cut, the client stores the server's file, and is acknowledged. */
  method Upload(server: Os, client: Os, path: string, content: string) returns (asked: string, stored: string)
    requires |content| < INT_LIMIT && path != "" && ' ' !in path && ',' !in path
    ensures asked == path && stored == content
  {
    hide Digits, First, Last, Token, Rest, Atoi, StrToDword;
    var announced := Digits(|content|);
    // client
    UploadRequestParses(path, |content|);
    var size := ReadSize(client, announced);
    var request := UploadRequest(path, size.value);
    if client.Windows? {
      request := "UPLOAD " + path + "," + announced;
    }
    // server
    assert request == UploadRequest(path, |content|);
    var argument := if server.Linux? then request[7..] else Rest(request, SPACE);
    asked := Token(argument, COMMA);
    var second := if server.Linux? then Token(Rest(argument, COMMA), COMMA) else Rest(argument, COMMA);
    var due := ReadSize(server, second);
    var file := new Source(content);
    var down := new Stream("");
    var up := new Stream("");
    if server.Linux? {
      LinuxServerSend(file, due.value, down);
    } else {
      WindowsSend(file, due.value, down);
    }
    assert content[..|content|] == content && down.bytes == content;
    // client
    if client.Linux? {
      stored := LinuxClientReceive(down, size.value);
    } else {
      stored := WindowsReceive(down, size.value);
    }
    up.Write(OK);
    WriteAck(up);
  }

  /** DOWNLOAD, client to server: the request names the destination and the size. */
  method Download(server: Os, client: Os, path: string, content: string) returns (name: string, stored: string)
    requires |content| < INT_LIMIT && path != "" && ' ' !in path && ';' !in path
    ensures name == path && stored == content
  {
    hide Digits, First, Last, Token, Rest, Atoi, StrToDword, SpanOut;
    var file := new Source(content);
    var down := new Stream("");
    var up := new Stream("");
    var request := DownloadRequest(path, |content|);
    if client.Linux? {
      LinuxClientSend(file, |content|, up);
    } else {
      WindowsSend(file, |content|, up);
    }
    assert content[..|content|] == content && up.bytes == content;
    // server
    DownloadRequestParses(path, |content|, "");
    DownloadArgument(path, |content|);
    assert request + "" == request && Digits(|content|) + "" == Digits(|content|);
    var argument := Rest(request, SPACE);
    if server.Windows? {
      argument := Token(argument, SPACE);
    }
    name := Token(argument, SEMICOLON);
    var due := ReadSize(server, Token(Rest(argument, SEMICOLON), SEMICOLON));
    if server.Linux? {
      stored := LinuxServerReceive(up, due.value);
    } else {
      stored := WindowsReceive(up, due.value);
    }
    down.Write(OK);
    WriteAck(down);
  }
}
