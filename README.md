# FTP protocol handler: a verified model

This project models the FTP protocol handler of NetExec (`nxc/protocols/ftp.py`) in Dafny. The
handler probes one host at a time. It connects and reads the server's welcome text. It takes the
server version from that text, prints it, and then tries credentials one at a time. Each login
result is recorded in a result store and reported to the user.

The model has two parts.

- **Text processing of FTP replies** (`ftp_text.dfy`, module `FtpText`). FTP replies are the
  three-digit codes of section 4.2 of RFC 959: 220 means service ready, 230 means user logged in.
  This module covers:
  - extracting the banner from the welcome text: the text after the first "220", stripped;
  - the 230 success test, which is a substring test anywhere in the reply;
  - parsing the HELP reply into the supported commands;
  - the anonymous-credential test.

  The Python string operations these use are written out in full: substring search, `strip()`
  with Python's whitespace set, `split()` and `split("\n")`.
- **The per-host session** (`ftp_session.dfy`, class `FtpSession.Ftp`). The class has these
  fields:
  - `connOpen`: whether a control socket is open;
  - `remoteVersion`: the banner, None until it is captured;
  - `trace`: an append-only list of everything the handler sends to the result store and the
    reporter, plus each close of the connection.

  Whatever the network did is an input to the methods:
  - whether connect succeeded;
  - the welcome text;
  - whether login raised or what it replied;
  - the lines a LIST returns;
  - the ids the store hands back.

  `ftp_events.dfy` (module `FtpEvents`) defines the events and the function `LoginEvents`, which
  gives the events of one login attempt. `PlaintextLogin` is proved to append exactly those
  events. The lemmas beside `LoginEvents` prove what the attempt writes, reports, lists and
  closes.

Three behaviours of the code are easy to misread:

- The banner of `"220-Welcome to test FTP  "` is `"-Welcome to test FTP"`. The split happens at
  "220", so the leading `-` stays. See `BannerExample`.
- A welcome text without "220" makes the code index past the end of the split, which raises
  IndexError. `Banner` returns None there, and `ProtoFlow` ends in `Faulted`.
- The directory listing depends only on login not raising and `ls` being set. It does not depend
  on a 230 reply. See `ListingOfLogin`.

On the continue-on-success path, the connection is still closed, and the function returns
nothing (Python's None).

## Model

| member | source | states |
|---|---|---|
| FtpText.FindFirst | nxc/protocols/ftp.py:38 | The result is the leftmost index where the pattern occurs. None means the pattern occurs nowhere. |
| FtpText.Contains | nxc/protocols/ftp.py:68 | The pattern test holds exactly when the pattern occurs at some index, anywhere in the text. |
| FtpText.LoginAccepted | nxc/protocols/ftp.py:68 | A reply counts as a successful login exactly when "230" occurs somewhere in it. It need not be a prefix. |
| FtpText.Strip | nxc/protocols/ftp.py:38 | The result is a slice of the input. Only whitespace comes before and after it, and it neither starts nor ends with whitespace. |
| FtpText.StripFramed | nxc/protocols/ftp.py:38 | Any text that neither starts nor ends with whitespace, framed by whitespace, strips back to exactly that text. |
| FtpText.StripIdempotent | nxc/protocols/ftp.py:38 | Stripping twice gives the same result as stripping once. |
| FtpText.Banner | nxc/protocols/ftp.py:38 | There is no banner (the source faults) exactly when "220" is absent. Otherwise the banner is the stripped text after the first "220". |
| FtpText.BannerAfterFirst | nxc/protocols/ftp.py:38 | If `a` has no "220", the banner of `a + "220" + b` is `b` stripped. Any later "220" in `b` is kept. |
| FtpText.BannerOfFramed | nxc/protocols/ftp.py:38 | "220", then a version that neither starts nor ends with whitespace, then trailing whitespace, gives exactly that version. This holds whatever character the version starts with. |
| FtpText.BannerExample | nxc/protocols/ftp.py:38 | The welcome text "220-Welcome to test FTP  " gives the banner "-Welcome to test FTP". |
| FtpText.Words | nxc/protocols/ftp.py:102 | Every token of `split()` is non-empty and contains no whitespace. |
| FtpText.WordsKeepText | nxc/protocols/ftp.py:102 | The tokens, concatenated, are exactly the non-whitespace characters of the line, in order. |
| FtpText.WordsAtSpace | nxc/protocols/ftp.py:102 | A whitespace character separates tokens: the tokens of `a + c + b` are those of `a` followed by those of `b`. |
| FtpText.WordsOfJoined | nxc/protocols/ftp.py:102 | `split()` inverts joining a list of tokens with single spaces. |
| FtpText.SplitLines | nxc/protocols/ftp.py:102 | `split("\n")` yields at least one piece and no piece contains a newline. Joining the pieces with newlines gives back the input. |
| FtpText.SplitLinesOfJoined | nxc/protocols/ftp.py:102 | `split("\n")` inverts joining newline-free pieces with newlines. |
| FtpText.MiddleLines | nxc/protocols/ftp.py:102 | The reply's lines without the first and the last, in order. Replies with fewer than three lines give none. |
| FtpText.SupportedCommands | nxc/protocols/ftp.py:100-104 | Replies with fewer than three lines give no commands. Otherwise every command is a non-empty token without whitespace. |
| FtpText.FlatWordsOfJoined | nxc/protocols/ftp.py:102 | Tokenising each line and flattening the results gives the tokens of the lines joined by newlines. |
| FtpText.SupportedCommandsAreInnerWords | nxc/protocols/ftp.py:100-104 | The commands are exactly the tokens of the reply's inner lines, in order. Together they spell all of those lines' non-whitespace characters, none dropped or invented. |
| FtpText.IsAnonymousLogin | nxc/protocols/ftp.py:77 | Exactly four credentials are anonymous: user "anonymous" or "" with password "" or "-". `ReportsOfLogin` states that the success report's anonymous marker follows exactly this condition. |
| FtpEvents.BannerLine | nxc/protocols/ftp.py:42-44 | The printed line is "Banner: " followed by the version, or by "None" when no version was captured. |
| FtpEvents.Highlights | nxc/protocols/ftp.py:85-86 | Each listed line gets one highlight, in order. |
| FtpEvents.HighlightsRoundTrip | nxc/protocols/ftp.py:85-86 | Reading back the highlighted lines gives exactly the listed lines. |
| FtpEvents.LoginEvents | nxc/protocols/ftp.py:55-91 | Every login attempt's events end with a close. |
| FtpEvents.LoginReturn | nxc/protocols/ftp.py:55-91 | The attempt returns false exactly when login raised. It returns true exactly when it did not raise and continue-on-success is off. It returns None exactly when it did not raise and continue-on-success is on. |
| FtpEvents.StoreWritesOfLogin | nxc/protocols/ftp.py:68-75 | The store receives exactly three writes, in this order: host with port and version, credential, relation between credential id and first host id. This happens exactly when login replied with "230"; otherwise the store receives nothing, including when login raised. |
| FtpEvents.ReportsOfLogin | nxc/protocols/ftp.py:62-80 | A raised login gives exactly one fail report, carrying the error. An accepted reply gives exactly one success report, marked anonymous exactly for user "anonymous" or "" with password "" or "-". Any other reply gives no report. |
| FtpEvents.ListingOfLogin | nxc/protocols/ftp.py:82-86 | The highlighted lines are exactly the LIST lines, in order, under one "Directory Listing" heading. This happens exactly when login did not raise and `ls` is set, whatever the reply. |
| FtpEvents.ClosedOnceAtEnd | nxc/protocols/ftp.py:55-91 | Every attempt whose LIST and store calls return normally closes the connection exactly once, and the close is its last event. |
| FtpSession.Ftp.constructor | nxc/protocols/ftp.py:11-15 | A new session has no connection, no remote version and an empty trace. |
| FtpSession.Ftp.CreateConnObj | nxc/protocols/ftp.py:46-53 | Returns false exactly when connect raised. The socket is treated as open exactly when connect succeeded (see "Left out"). Version and trace are unchanged. |
| FtpSession.Ftp.EnumHostInfo | nxc/protocols/ftp.py:35-40 | With a "220" in the welcome text, it stores the banner as the remote version and returns true. Without one, it raises and nothing changes. |
| FtpSession.Ftp.PrintHostInfo | nxc/protocols/ftp.py:42-44 | Appends one banner display line and returns true. |
| FtpSession.Ftp.ProtoFlow | nxc/protocols/ftp.py:27-33 | A failed connect stops the flow with no event. A welcome text without "220" faults before anything is printed. Otherwise the version is the banner, one banner line is displayed, and the credential loop is reached. |
| FtpSession.Ftp.ListDirectoryFull | nxc/protocols/ftp.py:93-98 | Returns every line the LIST delivers, in order. |
| FtpSession.Ftp.CloseConn | nxc/protocols/ftp.py:88-91 | The socket is closed and one close is recorded. |
| FtpSession.Ftp.RecordLogin | nxc/protocols/ftp.py:68-80 | Appends the three store writes, then the success report with its anonymous marker. |
| FtpSession.Ftp.ReportListing | nxc/protocols/ftp.py:82-86 | Appends the heading, then one highlight per file, in order. |
| FtpSession.Ftp.HandleRaised | nxc/protocols/ftp.py:62-65 | Appends one fail report and a close, leaves the socket closed and returns false. |
| FtpSession.Ftp.HandleReply | nxc/protocols/ftp.py:67-91 | Appends exactly the events `LoginEvents` gives for the reply and leaves the socket closed. Returns true, or None with continue-on-success. |
| FtpSession.Ftp.PlaintextLogin | nxc/protocols/ftp.py:55-91 | Appends exactly the events `LoginEvents` gives for the attempt and returns `LoginReturn`. When the LIST and store calls return normally, the socket ends closed. The remote version is unchanged. A reconnect is attempted exactly once if there was no socket, and its result does not matter. |

## Left out

- The FTP client library (`ftplib.FTP`) is not part of this model: sockets, timeouts, `getwelcome`, `login`, `retrlines` and `sendcmd`. What they deliver is passed to the methods as inputs.
- The result store is a sink: each call to it is an event in the trace. The id of the host's first record and the new credential's id are inputs, in `StoreIds`.
- Debug logging, `proto_logger` and the formatting of report lines are left out; a success report carries the anonymous marker as a boolean rather than as highlighted text.
- `process_secret` is an arbitrary function given to the session; the model does not define how secrets are masked.
- The `connection` base class is not part of this model. That includes the `login()` loop over credentials and the concurrency across hosts, so `ProtoFlow` ends when that loop is reached.
- FtpSession.Ftp.PlaintextLogin: the LIST call and the store writes are assumed to return normally. In the source, a LIST that fails (a 4xx/5xx reply or a broken data connection), or a store call that raises, propagates out of `plaintext_login` uncaught. The rest of the attempt is then skipped: no listing heading, no close, no return value. `ListDirectoryFull`, `LoginEvents` and `ClosedOnceAtEnd` describe only the attempts where those calls return.
- FtpSession.Ftp.CreateConnObj: ftplib's connect can raise after the socket exists, when reading the welcome fails, and leave the socket set. The model treats the socket as open exactly when connect returned, so in that case `connOpen` is an abstraction of the source's state.
- FtpSession.Ftp.PlaintextLogin: the login outcome is an independent input, so the model does not force login to raise when the reconnect failed and there is no socket.
- Ports and ids are unbounded integers; nothing in the handler depends on their width.
- Each connect creates a fresh client object; the model keeps only whether a socket is open, not the object's identity.
