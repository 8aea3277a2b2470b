/**
  The requests that name files and sizes, as the clients print and the servers split them.
*/
module Requests {
  import opened Numbers
  import opened Protocol
  import opened Tokenizer

  function SizeRequest(path: string): string { "SIZE " + path }

  function UploadRequest(path: string, size: nat): string { "UPLOAD " + path + "," + Digits(size) }

  function DownloadRequest(path: string, size: nat): string { "DOWNLOAD " + path + ";" + Digits(size) }

  lemma SizeRequestParses(path: string)
    requires path != ""
    ensures Token(SizeRequest(path), SPACE) == "SIZE" && Rest(SizeRequest(path), SPACE) == path
    ensures SizeRequest(path) != ""
  {
    assert SizeRequest(path) == "SIZE" + (" " + path);
    FirstWord("SIZE", " " + path, SPACE);
    assert (" " + path)[1..] == path;
  }

  /** The Linux server knows how long the command is; the Windows server splits it off. */
  lemma UploadRequestParses(path: string, size: nat)
    requires path != "" && ',' !in path
    ensures var request := UploadRequest(path, size);
      && |request| >= 7 && "UPLOAD" <= request
      && Token(request, SPACE) == "UPLOAD" && Rest(request, SPACE) == request[7..]
      && Token(request[7..], COMMA) == path
      && Rest(request[7..], COMMA) == Token(Rest(request[7..], COMMA), COMMA) == Digits(size)
      && Atoi(Token(Rest(request[7..], COMMA), COMMA)) == size
  {
    hide Digits, Atoi, First, Last, Token, Rest, SpanIn, SpanOut;
    var request, digits := UploadRequest(path, size), Digits(size);
    assert request[..6] == "UPLOAD";
    var argument := path + ("," + digits);
    assert request[7..] == argument;
    assert request == "UPLOAD" + (" " + argument);
    FirstWord("UPLOAD", " " + argument, SPACE);
    assert (" " + argument)[1..] == argument;
    FirstWord(path, "," + digits, COMMA);
    assert ("," + digits)[1..] == digits && digits + "" == digits;
    DigitsArePlain(size);
    FirstWord(digits, "", COMMA);
    PrintAtoi(size);
  }

  /** Whatever follows the size is taken for a part of it, up to the next semicolon. */
  lemma DownloadRequestParses(path: string, size: nat, more: string)
    requires path != "" && ';' !in path
    ensures var message := DownloadRequest(path, size) + more;
      && Token(message, SPACE) == "DOWNLOAD"
      && var argument := Rest(message, SPACE);
      && Token(argument, SEMICOLON) == path
      && Rest(argument, SEMICOLON) == Digits(size) + more
      && Token(Rest(argument, SEMICOLON), SEMICOLON) == Digits(size) + more[..SpanOut(more, SEMICOLON)]
  {
    hide Digits, First, Last, Token, Rest, SpanIn, SpanOut;
    var message, digits := DownloadRequest(path, size) + more, Digits(size);
    var argument := path + ";" + digits + more;
    assert message == "DOWNLOAD" + (" " + argument);
    FirstWord("DOWNLOAD", " " + argument, SPACE);
    assert (" " + argument)[1..] == argument;
    var sizes := digits + more;
    assert argument == path + (";" + sizes);
    FirstWord(path, ";" + sizes, SEMICOLON);
    assert (";" + sizes)[1..] == sizes;
    DigitsArePlain(size);
    LongerWord(digits, more, SEMICOLON);
  }

  /** The Windows server splits the whole argument off before it looks for the semicolon. */
  lemma DownloadArgument(path: string, size: nat)
    requires path != "" && ' ' !in path
    ensures var argument := Rest(DownloadRequest(path, size), SPACE); Token(argument, SPACE) == argument
  {
    hide Digits, First, Last, Token, Rest, SpanIn, SpanOut;
    var argument := path + ";" + Digits(size);
    assert DownloadRequest(path, size) == "DOWNLOAD" + (" " + argument);
    FirstWord("DOWNLOAD", " " + argument, SPACE);
    assert (" " + argument)[1..] == argument;
    DigitsArePlain(size);
    FirstWord(argument, "", SPACE);
    assert argument + "" == argument;
  }
}
