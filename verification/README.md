# Verified model of the remote-control system

The system is a server on the machine to be controlled and a client on the controlling
machine, each for Linux and for Windows. A client proves that it knows the server's
passphrase by a challenge-response handshake, sends one command (list a directory, run a
program, upload or download a file) and disconnects. The Linux server hands connections
to a pool of threads, which it rebuilds when SIGHUP makes it read its configuration again.

`dafny verify dfyconfig.toml` checks the whole project.

| file | what it models |
|---|---|
| PoolModel | the thread pool as an interleaving transition system, one step a statement: main, the workers, the semaphore, the slot mutexes, the SIGHUP handler |
| PoolInvariant, PoolSafety | the invariant of the pool, and that every step and every run keeps it |
| PoolTheorems | accepting: permits, the mutex as a hand-off token, the scan, service, the connection budget, restarts |
| PoolDrain | closing a pool: when the joins return, exactly when they may not, and concrete runs that show both exceptions |
| CStrings, Tokenizer | C strings in buffers, and `strtok_s` in place against an independent definition of a split |
| Words, Numbers, Tokens | exclusive or on machine words, decimal printing and parsing, `generateToken` on 64 and 32 bits |
| Protocol, Network, Handshake | shared constants; connections whose reads coalesce or cut what was written; the handshake of both programs together |
| Requests, Files, Transfer | the requests that name files and sizes, and the file transfer loops of the four programs |
| UploadSession | the two-phase UPLOAD of the Linux programs, as a product of two machines |
| DownloadSession | the DOWNLOAD of the Linux programs, likewise, with the request and the file on one stream |
| Response | the answer to LSF and EXEC, framed by the server and reassembled by the client |
| Exec | EXEC from the client's argv to the shell command rebuilt in the server's buffer |
| Settings | the settings and their sources, before and after a reload |

## Assumptions of the thread pool

- A worker's dialogue with its client ends; it is one step of the model.
- The settings change only as `Settings.SettingsAlwaysValid` allows.
- No signal lands while a pool is set up (Linux/server/source_server.c:752-789), nor
  between the test that closes the old listening socket and the one that opens the next
  (829-764). This is the guard of `PoolModel.HangupEnabled`.
- `sem_wait` and `accept` fail only because SIGHUP interrupted them.

Nothing is assumed of how a drain's unlocks fall, nor of the live `threads_number` during
a scan. What can go wrong there is proved with its exact condition.

## Where the code does not do what it is for

Each is kept in the model as the code has it.

- **Closing a pool can hang.** If a connection is dispatched and its worker has not yet
  taken the mutex when the drain gets there, the drain's unlock merges with the
  dispatcher's, the worker sleeps for ever after serving, and main sleeps in
  `pthread_join`. A drain is certain to end if and only if every mutex is locked at its
  start (`PoolDrain.DrainEndsIffTaken`). It can happen at a restart
  (`PoolDrain.MergeIsReachable`, one thread and one connection) and, with no signal at
  all, at the server's ordinary end, as the drain follows the last dispatch at once
  (`PoolDrain.LastDispatchCanHang`, `PoolDrain.EndHangIsReachable`).
- **A reload can drop a connection.** A scan that finds no free slot below the live
  `threads_number` falls through: the accepted socket is never served nor closed, and its
  permit is lost. `PoolTheorems.DropsIff` says exactly from which states of the scan some
  schedule does so, without and with further signals; `PoolDrain.DropIsReachable` is a
  run; it happens at most once a pool (`PoolTheorems.OneDropPerGeneration`).
- **An honest Linux client can be refused.** The Linux server takes a zero in either number
  of the AUTH request for a parse error. This happens exactly when the client's own token
  equals the server's random number, or that number exclusive-or the server's token;
  `Handshake.HonestClientRefused` has passphrases and a random number.
- **Mixed operation needs short words.** README.md:1 promises that Linux and Windows can be
  mixed. There are two reasons why the programs may take one typed passphrase for
  different tokens. Linux keeps the line, Windows its first word: the line `a b`, typed at
  a Linux server and at a Windows client, is always refused (`Handshake.SpacedRefused`). And the two `generateToken`
  agree on all ASCII strings of a length exactly up to 30 (`Tokens.LengthAgreesIff`). So
  for lines of up to n ASCII characters the promise is kept if and only if n is at most
  30, for words, or 1, if white space may be typed (`Handshake.MixedOperationIff`). What
  a mixed session with wider tokens does is stated as exactly: a Windows server reads
  every number of 2^32 or more as all ones.
- **What the server calls the client's token is not.** It computes `T_s ^ challenge ^ enc1`
  as `T_c_i`, which for an honest client is its token exclusive-or the server's
  (`Handshake.HonestNumbers`). The final test is right all the same.
- **Uploading can end the server.** The server sends until it has sent the announced size,
  and a write of no bytes exits the process. That happens if there is less to read than
  `stat` says, as for a directory, and also if the size is 0 and there are fewer than 200
  bytes to read: the client acknowledges a size of 0 without waiting, and if the request and
  the acknowledgement are read together, `0` followed by `200` is parsed as 200. These
  are the only cases (`UploadSession.UploadExitsIff`); every schedule serves what was
  announced if and only if the size is neither 0 nor more than there is to read
  (`UploadSession.UploadSafeIff`).
- **Downloading can hang.** Nothing separates the request from the file that follows it. A
  session can no longer end if and only if the server needs more of the file than the
  client will send (`DownloadSession.NeverEndsIff`): because there is less to read than
  `stat` says, or because part of the file was read with the request, whose size then
  also grows by the digits the file begins with. A regular file can hang exactly when it is
  not empty, by one byte read with the request (`DownloadSession.RegularHangsIff`).
- **An answer can be shown wrongly.** The client clears its buffer after each 65534 bytes.
  It shows an answer once and whole under every fragmentation if and only if the last,
  partial buffer holds the terminator at its end and no buffer holds another one
  (`Response.AlwaysWholeIff`). If it has no other terminator at all, that is if and
  only if the answer's length modulo 65534 is at least six (`Response.ShownAlways`);
  `Response.ShownWrongly` has an output that it cuts.
- A command that fails sends its output as well, and the exit status, directly after the
  output, before the terminator (Linux/server/source_server.c:558-577).

LSF's rewriting of line ends replaces the last character of whatever `fgets` returned. It
is right if and only if the output is whole lines that fit the buffer
(`Response.LsfConvertsIff`), which the records that `awk` prints are, unless one is longer
than the buffer (`Response.RecordsConvertIff`).

## Model

| member | source | states |
|---|---|---|
| PoolSafety.RunKeepsInv | Linux/server/source_server.c:585-840 | every sequence of steps of main, workers and signals keeps the pool's invariant |
| PoolTheorems.PermitsConserved | Linux/server/source_server.c:791-813 | while accepting, semaphore value, main's permit, permits leaked by dropped connections, busy slots and workers about to post add up to the pool size, also while a slot is reused before its former worker has posted |
| PoolTheorems.HandoffToken | Linux/server/source_server.c:756-808 | while accepting, a slot's mutex is unlocked if and only if the slot is dispatched and its worker has not taken it; a dispatch never unlocks an unlocked mutex |
| PoolTheorems.NoUninitialisedFd | Linux/server/source_server.c:589-593 | no worker tests an `fd` that was never written, and a worker serves only a socket dispatched to it and to nobody else |
| PoolTheorems.MainStaysInBounds | Linux/server/source_server.c:801-826 | whatever the handler has made of `threads_number`, main never touches a slot outside the allocated array |
| PoolTheorems.ScanOutcome | Linux/server/source_server.c:801-813 | a scan always has a free slot ahead; main running alone claims the first free one if the live `threads_number` covers it, and otherwise drops the connection and its permit |
| PoolTheorems.DropsIff | Linux/server/source_server.c:801-813 | over all schedules of main and workers, a scan can drop its connection if and only if the first free slot ahead is not below `threads_number`; with signals, if and only if it has passed slot 0 or finds it busy |
| PoolTheorems.NoConnectionDropped | Linux/server/source_server.c:789-813 | in every run whose scans see at least the pool size in `threads_number`, each accepted connection is dispatched to exactly one slot, or still in main's hands, and no permit is lost |
| PoolTheorems.OneDropPerGeneration | Linux/server/source_server.c:794-813 | without that condition a pool drops one connection at most, and accepts none after it |
| PoolTheorems.AcceptNotStuck | Linux/server/source_server.c:791-813 | while accepting, main can move, or waits for a permit and a worker that will give one back can move |
| PoolTheorems.PostsEverySixth | Linux/server/source_server.c:589-651 | while accepting, a worker posts with every sixth step of its own, so a dispatched one gives its permit back within six, whatever the others do |
| PoolTheorems.ServedAtMostOnce | Linux/server/source_server.c:585-658 | at any time a connection has been dispatched, served and closed at most once each, by the same worker of the same pool; unfinished connections are in different slots |
| PoolTheorems.PoolFinished | Linux/server/source_server.c:816-827 | when all joins have returned, every dispatched connection has been served and closed exactly once, and no worker can take a step |
| PoolTheorems.BudgetConserved | Linux/server/source_server.c:833-839 | across all pools `max` and the dispatched connections add up to MAX_ACCEPT; the outer loop ends exactly when `max` is 0, and restarts change neither |
| PoolTheorems.FreshGeneration | Linux/server/source_server.c:750-789 | a pool starts with as many permits as slots and as the setting says, all slots idle with their mutex held, and every earlier connection closed |
| PoolTheorems.OneListener | Linux/server/source_server.c:764-783 | while accepting there is exactly one listening socket, on `last_port_number`; never more than one |
| PoolTheorems.NoMoreAccepts | Linux/server/source_server.c:791-797 | while a restart is due main accepts no connection but the one it may be waiting for, in every run |
| PoolTheorems.InterruptedDrains | Linux/server/source_server.c:256-275 | a due restart interrupts `sem_wait` and `accept`; main's next statement at the latest starts the drain, and nothing is accepted before the restart |
| PoolTheorems.SettingsInForce | Linux/server/source_server.c:750-789 | while accepting with no restart due, the pool is as large as the settings say and listens on their port |
| PoolTheorems.ReloadTakesEffect | Linux/server/source_server.c:144-150 | after a reload with some settings and no other one, main accepts either with the restart still due or with a pool of that size on that port |
| PoolDrain.DrainBounded | Linux/server/source_server.c:816-825 | a drain takes no more steps than its measure, whatever the scheduler does |
| PoolDrain.DrainNotStuck | Linux/server/source_server.c:821-824 | as long as no unlocks have merged, main or the worker it joins can move, be that worker idle, serving or about to post |
| PoolDrain.MergesExactlyWhenUntaken | Linux/server/source_server.c:821 | a drain unlock hits an unlocked mutex if and only if the slot is dispatched and its worker has not yet taken the lock |
| PoolDrain.MergedNeverReturns | Linux/server/source_server.c:591-823 | after such a merge no run gets main out of that `pthread_join` |
| PoolDrain.UntakenCanMerge | Linux/server/source_server.c:816-825 | from any point of a drain with an unlocked mutex ahead, some schedule merges two unlocks |
| PoolDrain.DrainEndsIffTaken | Linux/server/source_server.c:816-825 | a drain ends under every schedule if and only if each worker has taken its mutex when the drain starts |
| PoolDrain.RestartCompletes | Linux/server/source_server.c:816-839 | a restart whose drain starts with every mutex taken can be completed: main accepts again, with a new pool by the settings and as many connections left |
| PoolDrain.SignalAnywhere | Linux/server/source_server.c:144-150 | a signal may land whenever main accepts or takes a pool down, and leave any valid settings |
| PoolDrain.MergeIsReachable | Linux/server/source_server.c:791-823 | a run from the start of the server to a restart that never happens |
| PoolDrain.LastDispatchCanHang | Linux/server/source_server.c:808-823 | from every reachable state in which main makes its last dispatch, steps of main and workers alone can lead to a `pthread_join` that never returns |
| PoolDrain.EndHangIsReachable | Linux/server/source_server.c:791-823 | a run without any signal from the start of the server to an end that never comes |
| PoolDrain.DropIsReachable | Linux/server/source_server.c:801-813 | a run from the start of the server to a dropped connection, with a slot free |
| Tokenizer.StrtokS | Windows/functions.c:35-64 | one call in the buffer: skip delimiters, return the token's start, turn one delimiter into NUL and nothing else, move the cursor behind it |
| Tokenizer.CutStrings | Windows/functions.c:54-63 | after a call the token and the unread rest are the C strings at the returned pointer and at the cursor, which has not passed the original NUL, so the delimiters may change between calls |
| Tokenizer.RunsAreTheSplit | Windows/functions.c:35-64 | the tokens of repeated calls are all the maximal delimiter-free runs, in order, and nothing else |
| Tokenizer.Tokenize | Windows/functions.c:35-64 | repeated calls return exactly those runs and end at an empty string, where NULL is returned from then on; only the delimiters that end a run are overwritten |
| Tokens.GenerateToken | Linux/common.c:175-186 | the loop, with the word's wrap-around, against the recursive definition |
| Tokens.TokenLaw | Linux/common.c:180-183 | the token of nothing is 1; with one more character, of either sign, the sum before the length is added grows by the product modulo the word |
| Tokens.FirstWrap | Windows/functions.c:27-30 | the first character that takes the sum past the word, or below 0, wraps it round |
| Tokens.LinuxNeverWraps | Linux/common.c:175-186 | up to 254 ASCII characters the 64-bit token is the one of unbounded arithmetic |
| Tokens.LengthAgreesIff | Windows/functions.c:21-33 | all ASCII passphrases of a length have the same token on both platforms if and only if the length is at most 30 |
| Tokens.ShortPassphrasesAgree | Linux/common.c:175-186 | up to 30 ASCII characters both tokens are equal and fit 32 bits |
| Tokens.LongPassphrasesDisagree | Linux/common.c:175-186 | for every length from 31 to 254 an ASCII passphrase on which the tokens differ |
| Numbers.PrintParse | Linux/server/source_server.c:301-315 | printing a number with `%lu` and parsing it with `strtoul` gives it back if it is a word, and the largest word otherwise, whatever follows the digits |
| Numbers.PrintParseDword | Windows/functions.c:128-138 | the same for the Windows wrapper, which saturates to a `long long` and cuts to 32 bits |
| Numbers.AtoiReads | Linux/server/source_server.c:127 | `atoi` reads a printed number back, whatever that is no digit follows it |
| Numbers.SignedParse | Linux/server/source_server.c:311-315 | white space and a sign before the digits, for `atoi` and `strtoul` |
| Numbers.SignedParseDword | Windows/functions.c:128-138 | the same for the Windows wrapper |
| Numbers.TrailingInvalid | Windows/functions.c:134-135 | the Windows wrapper takes nothing behind the digits |
| Handshake.CheckAuth | Linux/server/source_server.c:305-324 | splitting the request in the receive buffer decides exactly the pure predicate on the message |
| Handshake.OthersRefused | Linux/server/source_server.c:306-315 | a request with another command word, or without two numbers, is refused |
| Network.MayCoalesce | Linux/client/source_client.c:184-187 | two writes may be read one by one, together, or as much of both as fits |
| Handshake.AuthRoundTrip | Linux/client/source_client.c:193 | every AUTH request passes the server's length gate, fits its read, and is decided by the two numbers that were printed, saturated to the server's word |
| Handshake.AuthParses | Linux/client/source_client.c:193 | the server's three splits of a request give the command and the two numbers, in the order they were printed |
| Words.XorBits | Linux/client/source_client.c:189-191 | exclusive or is set in exactly the bits in which two words differ |
| Handshake.ConsistentIff | Linux/server/source_server.c:317-320 | whatever the challenge, the server's test compares its token with the exclusive or of the two numbers |
| Handshake.HonestNumbers | Linux/client/source_client.c:188-191 | an honest client's numbers satisfy the server's test if and only if the tokens are equal, whatever challenge was sent and read; when each is zero; what the server really recovers from the first |
| Handshake.WindowsAccepts | Windows/Server/server.c:100-110 | exactly when a Windows server accepts an honest client whose words may be wider than its own |
| Handshake.Session | Linux/server/source_server.c:277-334 | the two programs together, for the four pairings and all their words, however `300` and the challenge are coalesced: every message either side writes; both sides agree, and accept exactly as `Accepts` says; between Linux programs if and only if the tokens are equal and neither number is zero, between Windows programs if and only if they are equal |
| Handshake.LineRead | Linux/common.c:194-227 | of a long line Linux keeps the first 254 characters |
| Handshake.WordRead | Windows/Client/client.c:213-222 | Windows keeps the first word of a line, up to any white space |
| Handshake.PassphraseSession | Windows/Client/client.c:213-225 | the same from the three lines typed, as each platform reads them; decided as on the server's own platform if the platforms are the same or all lines are words of up to 30 ASCII characters; a Windows server then accepts every client that types its passphrase |
| Handshake.MixedOperationIff | README.md:1 | with lines of up to n ASCII characters a client of the other platform is treated as one of the server's own if and only if n is at most 30 for words, and at most 1 if lines may have white space |
| Handshake.SpacedRefused | Windows/Server/server.c:597 | the line `a b`, typed at a Linux server and a Windows client, is refused for every own line and random number |
| Handshake.HonestClientRefused | Linux/server/source_server.c:311-315 | passphrases and a random number with which a Linux server refuses an honest Linux client |
| Transfer.LinuxServerSend | Linux/server/source_server.c:491-506 | the stream receives exactly the first `size` bytes of the file |
| Transfer.LinuxServerReceive | Linux/server/source_server.c:519-535 | for every fragmentation the stored file is exactly the announced bytes, and what follows them stays unread |
| Transfer.LinuxClientSend | Linux/client/source_client.c:270-281 | the stream receives exactly the file |
| Transfer.LinuxClientReceive | Linux/client/source_client.c:283-294 | for every fragmentation the stored file is the stream; the `size_t` counter does not wrap and reaches 0 |
| Transfer.WindowsSend | Windows/Client/client.c:324-344 | one piece, or whole buffers and a rest, concatenate to the same bytes as the Linux chunks |
| Transfer.WindowsReceive | Windows/Server/server.c:362-367 | 254 bytes at a time, for every fragmentation, the stored file is the stream |
| Transfer.WriteAck | Linux/common.c:38-42 | waiting for the acknowledgement ends for every stream and fragmentation, at a piece that begins as the code does or at the end of the stream |
| Transfer.Upload | Linux/server/source_server.c:474-506 | for the four pairings of platforms the size survives being printed, parsed, sent back with the path and parsed again, and the client stores exactly the server's file |
| Transfer.Download | Linux/server/source_server.c:516-535 | for the four pairings of platforms the server splits path and size off the request and stores exactly the client's file under that path |
| UploadSession.SessionSafe | Linux/server/source_server.c:467-514 | in every interleaving: no deadlock, one outstanding request at most, and the size served is the size announced, for a missing file or one with a size and as many bytes to read |
| UploadSession.SizeAnswered | Linux/server/source_server.c:467-476 | the SIZE request is answered with 300 and the size, or with 400 |
| UploadSession.AnyPiece | Linux/client/source_client.c:285 | a read of the file or of an acknowledgement may bring any piece that is there and fits |
| UploadSession.OnlyAcknowledged | Linux/common.c:38-42 | the server closes exactly when it reads a beginning of the code 200 |
| UploadSession.SessionBounded | Linux/client/source_client.c:227-294 | every session on a missing file, or one with a size and as many bytes to read, ends after a bounded number of steps |
| UploadSession.SessionOutcome | Linux/client/source_client.c:283-294 | when both sides are closed the client has as many bytes of the server's file as were announced, or there was none and it stored nothing |
| UploadSession.UploadExitsIff | Linux/server/source_server.c:477-505 | uploading an existing path can end the server if and only if there is less to read than the announced size, or than 200 bytes when that is 0 |
| UploadSession.UploadSafeIff | Linux/server/source_server.c:477-505 | every schedule of an upload serves the announced size and does not end the server if and only if that size is not 0 and there is as much to read |
| DownloadSession.SessionSafe | Linux/server/source_server.c:516-535 | in every interleaving: a session is not stuck while the client has what the server needs, and both sides closed after a request read by itself means the announced size of the file is stored under the path asked for |
| DownloadSession.AnyPiece | Linux/server/source_server.c:520-525 | a read of the file, of an acknowledgement, or of the request with what lies behind it may bring any piece that is there and fits |
| DownloadSession.TotalIs | Linux/client/source_client.c:272-278 | the client sends all there is to read, also past the announced size, unless that is a multiple of its buffer |
| DownloadSession.OnlyAcknowledged | Linux/common.c:38-42 | the client closes exactly when it reads a beginning of the code 200 |
| DownloadSession.SessionBounded | Linux/client/source_client.c:270-281 | every session takes a bounded number of steps |
| DownloadSession.NeverEndsIff | Linux/server/source_server.c:607-623 | at any time the session can no longer end if and only if the server needs more of the file than the client will send |
| DownloadSession.HangsIff | Linux/server/source_server.c:516-535 | a download can hang if and only if there is less to read than the announced size, or enough of the file can come with the request to leave less than the size then read |
| DownloadSession.RegularHangsIff | Linux/server/source_server.c:516-535 | a regular file can hang if and only if it is not empty, and has hung if and only if a byte of it was read with the request |
| Response.Serve | Linux/server/source_server.c:555-577 | the bytes sent are the code, the output, converted line by line for LSF, and the trailer |
| Response.AnswerText | Linux/server/source_server.c:571-577 | between output and terminator an answer has nothing when the command succeeded, and otherwise text that `atoi` reads as its exit status |
| Response.LsfConvertsIff | Linux/server/source_server.c:557-568 | LSF's rewriting turns line feeds into CR LF, and changes nothing else, if and only if the output is whole lines that fit the buffer |
| Response.RecordsConvertIff | Linux/server/source_server.c:544-568 | an answer made of records, as `awk` prints them, is converted exactly if and only if none is longer than 65532 characters |
| Response.LastLineCut | Linux/server/source_server.c:561-563 | a last line without a line feed loses its last character to the CR LF |
| Response.OccursAtEnd | Linux/client/source_client.c:308 | in any piece of an answer `strstr` finds the terminator exactly when the piece reaches the end of the answer and is as long as the terminator |
| Response.Show | Linux/client/source_client.c:297-312 | the loop in the buffer prints what the pure account of its reads says, for every fragmentation of every stream without NUL |
| Response.ShownAlways | Linux/client/source_client.c:297-312 | for every fragmentation of an answer with its only terminator at the end, the client stops having read everything, and shows the answer once and whole if and only if its length modulo the buffer is at least six |
| Response.AlwaysWholeIff | Linux/client/source_client.c:297-312 | any answer is shown once and whole under every fragmentation if and only if its last, partial buffer holds the terminator at the end and no buffer holds another one |
| Response.ShownWrongly | Linux/client/source_client.c:299-311 | an output of which the client shows all but the end of the terminator |
| Response.Command | Linux/client/source_client.c:295-313 | the server's and the client's part together: the client goes on exactly when one read brought the whole code, and then shows what ShownAlways and AlwaysWholeIff say |
| Exec.SetCommand | Linux/client/source_client.c:82-102 | the grown buffer holds the arguments joined by single spaces, with sixteen bytes more than the text |
| Exec.BuildRequest | Linux/client/source_client.c:258-266 | the request is the command, the count of spaces and the joined arguments, and fits the buffer |
| Exec.RequestText | Linux/client/source_client.c:258-266 | its text, when no argument contains a space: the count is that of the arguments after the command |
| Exec.JoinSplits | Linux/client/source_client.c:90-101 | splitting undoes the joining of arguments that are words |
| Exec.CountIsArguments | Linux/client/source_client.c:259-260 | the count is the number of arguments after the command, when no argument contains a space |
| Exec.ExecCommand | Linux/server/source_server.c:76-77 | copy becomes cp, remove rm and printworkdir pwd; every other command stays |
| Exec.CopyForward | Linux/server/source_server.c:542 | copying a string forwards inside its own buffer: the write index stays below the read index and every byte arrives |
| Exec.RebuildCommand | Linux/server/source_server.c:536-542 | splitting and rebuilding in one buffer leaves the renamed command, a space and the unsplit rest, inside the allocation |
| Exec.ServeExec | Linux/server/source_server.c:607-623 | the same from the request as it was read |
| Exec.ExecEndToEnd | Linux/client/source_client.c:258-266 | from argv to the shell: the command, under those names, a space and the other arguments joined |
| Settings.Server.GetParametersFromConfig | Linux/server/source_server.c:113-142 | reading the file is applying its lines in order |
| Settings.Server.HandlerSighup | Linux/server/source_server.c:144-150 | a reload applies the lines with the defaults no longer protected, and asks for a restart |
| Settings.Server.Apply | Linux/server/source_server.c:86-150 | an option or the signal does to the server what the histories below say |
| Settings.LineSays | Linux/server/source_server.c:124-132 | a name, an equals sign and a printed number give the parameter of that name that number, whatever comes behind the digits |
| Settings.ShippedFile | Linux/server/config:1-2 | the file that comes with the server takes the defaults of 10 threads and port 8888 to 20 threads and port 9000 |
| Settings.SettingsAlwaysValid | Linux/server/source_server.c:86-150 | after any history of options and reloads there are 1 to 256 threads and a port from 1 to 65535 |
| Settings.OptionWins | Linux/server/source_server.c:86-111 | until the first reload the last valid option for a field decides it, in whatever order options and files come, unless it asks for the default |
| Settings.FileBeforeReload | Linux/server/source_server.c:86-111 | before a reload a file changes only settings at their default, by its first valid other value |
| Settings.FileAfterReload | Linux/server/source_server.c:86-150 | after a reload the last valid value of each parameter wins |
| Settings.ReloadWins | Linux/server/source_server.c:144-150 | right after a reload, after any history, a field has the last valid value the file gives it, or what it had |

## Left out

- The Windows thread pool (suspend and resume of threads): only its handshake and transfer loops are modelled.
- The pool's in-place form: slots, mutexes and the semaphore are fields of one state value that steps replace, so aliasing of `threads[i]` pointers is not captured beyond the bounds of the array.
- A mutex unlocked by a thread that does not hold it, which POSIX leaves undefined, is a binary token, as the program uses it.
- The SIGHUP handler is one step; its lines being applied while another thread runs is not modelled.
- Failures of the operating system (sockets, popen, stat, fopen, fork, malloc), short writes, a peer that disappears in the middle of a command, reads at the end of a session's stream, and what becomes of bytes written to a side that has closed.
- Handshake.PassphraseSession: lines without NUL, and words that fit the 255 bytes of the Windows buffer; white space is that of ASCII.
- Commands unknown to the server's table, command-line options, IP addresses, log files, console messages, daemonisation, and the STDOUT_TOKEN parameter.
- PoolTheorems.NoConnectionDropped: holds for runs whose scans see a `threads_number` of at least the pool size; DropsIff says what each scan can do otherwise.
- Handshake.Session: each read of a whole message or code is not cut by the network, as the program counts on; messages may be delivered together.
- PoolTheorems.ScanOutcome: one schedule of each scan, in which main runs alone; DropsIff speaks of all of them.
- Tokens.LinuxNeverWraps: for ASCII passphrases, and so are LengthAgreesIff and MixedOperationIff; `GenerateToken` and `PassphraseSession` cover signed characters.
- Handshake.AreWords: in a mixed session the random number is below 2^31, as RAND_MAX is on both platforms.
- Transfer.LinuxClientReceive: the stream holds the file and nothing after it, as the loop reads a whole buffer whatever is still due; the same for WindowsReceive.
- Transfer.Download: the request line is read on its own before the file's bytes, as the server counts on (Linux/server/source_server.c:607); DownloadSession has the other case for the Linux programs. A Windows server's request buffer is taken to hold zeros behind the request, which it does not ensure (Windows/Server/server.c:138-147).
- Transfer.Upload, Transfer.Download: regular files, whose size is what there is to read; the sessions of the Linux programs have the others.
- DownloadSession.SessionSafe: a size beyond int, which leaves `atoi` undefined, ends the model of the server; the request is not cut.
- The Windows loop that waits for an acknowledgement compares an uninitialised buffer and the wrong way round; it decides nothing about the file and is replaced by the Linux one.
- UploadSession.SessionSafe: requests, codes and the size are read whole; paths contain no space or comma, which would make them other requests.
- Response.Command: outputs without NUL.
- Exec.BuildRequest: joined arguments shorter than the 1024 bytes of `extra_args`, beyond which the program overruns it.
- Exec.ExecEndToEnd: a command word that is not empty and has no space in it; the other arguments are arbitrary.
- Settings.Server.GetParametersFromConfig: every line with a parameter has a value, as the program dereferences it, which is an int, as `atoi` is undefined for others; FileBeforeReload and FileAfterReload read such values as the numbers they spell.
- LSF's shell command line, and what the shell does with any command.
- The strength of the token and of the handshake as cryptography.
