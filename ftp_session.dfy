/**
  The per-host FTP session of the protocol handler: connect, capture the
  banner, print it, and test one credential at a time. The FTP client library
  is not modelled; what it did (connected or not, the welcome text, whether
  login raised or what it replied, the lines of a LIST) is passed in.
 */
module FtpSession {
  import opened Wrappers
  import opened FtpText
  import opened FtpEvents

  /** A step of the flow either returns a value or raises IndexError (a welcome text without "220"). */
  datatype Step = Returned(value: bool) | IndexErrorRaised

  /** How far `proto_flow` got: a step returned false, a step raised, or the credential loop was reached. */
  datatype FlowEnd = Stopped | Faulted | LoginReached

  class Ftp {
    const host: string
    const port: int
    const ls: bool
    const continueOnSuccess: bool
    /** The secret-masking helper applied to passwords before they are reported. */
    const processSecret: string -> string

    /** Whether the FTP client holds an open control socket. */
    var connOpen: bool
    /** The server version taken from the banner; None until it is captured. */
    var remoteVersion: Option<string>
    /** Every store write and report so far, oldest first. */
    var trace: seq<Event>
    /** How many times a control connection was set up. */
    ghost var connects: nat

    /** The command-line options this session was created with. */
    function CurrentSettings(): Settings {
      Settings(host, port, ls, continueOnSuccess)
    }

    constructor (host: string, port: int, ls: bool, continueOnSuccess: bool, processSecret: string -> string)
      ensures this.host == host && this.port == port && this.ls == ls
      ensures this.continueOnSuccess == continueOnSuccess && this.processSecret == processSecret
      ensures !connOpen && remoteVersion == None && trace == [] && connects == 0
    {
      this.host := host;
      this.port := port;
      this.ls := ls;
      this.continueOnSuccess := continueOnSuccess;
      this.processSecret := processSecret;
      connOpen := false;
      remoteVersion := None;
      trace := [];
      connects := 0;
    }

    /**
      `create_conn_obj`: a new client, then connect; `connectOk` says whether
      connect returned rather than raised. False exactly when it raised.
     */
    method CreateConnObj(connectOk: bool) returns (ok: bool)
      modifies this
      ensures ok == connectOk
      ensures connOpen == connectOk
      ensures connects == old(connects) + 1
      ensures remoteVersion == old(remoteVersion) && trace == old(trace)
    {
      connects := connects + 1;
      connOpen := connectOk;
      ok := connectOk;
    }

    /**
      `enum_host_info`: the remote version is the banner of the welcome text
      (after its first "220", stripped). Without a "220" there is no banner:
      the indexing raises and nothing changes.
     */
    method EnumHostInfo(welcome: string) returns (r: Step)
      modifies this`remoteVersion
      ensures Banner(welcome).Some? ==> r == Returned(true) && remoteVersion == Banner(welcome)
      ensures Banner(welcome).None? ==> r == IndexErrorRaised && remoteVersion == old(remoteVersion)
    {
      match Banner(welcome)
      case None =>
        r := IndexErrorRaised;
      case Some(version) =>
        remoteVersion := Some(version);
        r := Returned(true);
    }

    /** `print_host_info`: one banner line, and always true. */
    method PrintHostInfo() returns (ok: bool)
      modifies this`trace
      ensures ok
      ensures trace == old(trace) + [Display(BannerLine(remoteVersion))]
    {
      trace := trace + [Display(BannerLine(remoteVersion))];
      ok := true;
    }

    /**
      `proto_flow` up to the credential loop: each step runs only if the one
      before returned true. A failed connect leaves no event; a welcome text
      without "220" raises before anything is printed.
     */
    method ProtoFlow(connectOk: bool, welcome: string) returns (r: FlowEnd)
      modifies this
      ensures connects == old(connects) + 1 && connOpen == connectOk
      ensures !connectOk ==> r == Stopped && trace == old(trace) && remoteVersion == old(remoteVersion)
      ensures connectOk && Banner(welcome).None? ==>
        r == Faulted && trace == old(trace) && remoteVersion == old(remoteVersion)
      ensures connectOk && Banner(welcome).Some? ==>
        r == LoginReached && remoteVersion == Banner(welcome)
        && trace == old(trace) + [Display(BannerLine(Banner(welcome)))]
    {
      var connected := CreateConnObj(connectOk);
      if !connected {
        return Stopped;
      }
      var info := EnumHostInfo(welcome);
      if info.IndexErrorRaised? {
        return Faulted;
      }
      var printed := PrintHostInfo();
      if printed {
        r := LoginReached;
      } else {
        r := Stopped;
      }
    }

    /** `list_directory_full`: every line the LIST command delivers to the callback, in order. */
    method ListDirectoryFull(serverLines: seq<string>) returns (files: seq<string>)
      ensures files == serverLines
    {
      files := [];
      var i := 0;
      while i < |serverLines|
        invariant 0 <= i <= |serverLines|
        invariant files == serverLines[..i]
      {
        files := files + [serverLines[i]];
        i := i + 1;
      }
    }

    /** `conn.close()`: the socket is gone and the close is recorded. */
    method CloseConn()
      modifies this`connOpen, this`trace
      ensures !connOpen && trace == old(trace) + [Close]
    {
      connOpen := false;
      trace := trace + [Close];
    }

    /**
      The "230" block of `plaintext_login`: store the host with its version,
      then the credential, then the relation between the credential and the
      host's first record, then report the success, marked anonymous for the
      anonymous credentials.
     */
    method RecordLogin(username: string, password: string, ids: StoreIds)
      modifies this`trace
      ensures trace == old(trace) + LoggedInEvents(CurrentSettings(), remoteVersion, username, password,
                                                   processSecret(password), ids)
    {
      trace := trace + [AddHost(host, port, remoteVersion)];
      trace := trace + [AddCredential(username, password)];
      trace := trace + [AddLoggedinRelation(ids.credId, ids.hostId)];
      trace := trace + [Success(username, processSecret(password), IsAnonymousLogin(username, password))];
    }

    /** The listing block of `plaintext_login`: a heading, then one highlight per file, in order. */
    method ReportListing(files: seq<string>)
      modifies this`trace
      ensures trace == old(trace) + [Display(ListingHeading)] + Highlights(files)
    {
      trace := trace + [Display(ListingHeading)];
      var i := 0;
      while i < |files|
        invariant 0 <= i <= |files|
        invariant trace == old(trace) + [Display(ListingHeading)] + Highlights(files[..i])
      {
        trace := trace + [Highlight(files[i])];
        i := i + 1;
      }
      assert files[..i] == files;
    }

    /**
      `plaintext_login`: reconnect first if there is no socket (and ignore
      whether that worked), then try the credential. An exception reports a
      failure, closes and returns false; a reply is handled by `HandleReply`.
     */
    method PlaintextLogin(username: string, password: string, reconnectOk: bool,
                          outcome: LoginOutcome, ids: StoreIds, serverLines: seq<string>)
      returns (r: Option<bool>)
      modifies this
      ensures trace == old(trace) + LoginEvents(CurrentSettings(), old(remoteVersion), username, password,
                                                processSecret(password), outcome, ids, serverLines)
      ensures r == LoginReturn(CurrentSettings(), outcome)
      ensures !connOpen && remoteVersion == old(remoteVersion)
      ensures connects == old(connects) + (if old(connOpen) then 0 else 1)
    {
      if !connOpen {
        var _ := CreateConnObj(reconnectOk);
      }
      match outcome
      case Raised(error) =>
        r := HandleRaised(username, password, error);
      case Reply(resp) =>
        r := HandleReply(username, password, resp, ids, serverLines);
    }

    /** The `except` block of `plaintext_login`: report the failure, close, return false. */
    method HandleRaised(username: string, password: string, error: string) returns (r: Option<bool>)
      modifies this`trace, this`connOpen
      ensures trace == old(trace) + [Fail(username, processSecret(password), error), Close]
      ensures r == Some(false)
      ensures !connOpen
    {
      trace := trace + [Fail(username, processSecret(password), error)];
      CloseConn();
      return Some(false);
    }

    /**
      What `plaintext_login` does once login returned `resp`: a reply
      containing "230" is stored and reported, the listing follows when `ls`
      is set (whatever the reply), the connection is closed, and the result
      is true unless continue-on-success is set (then None).
     */
    method HandleReply(username: string, password: string, resp: string, ids: StoreIds,
                       serverLines: seq<string>)
      returns (r: Option<bool>)
      modifies this`trace, this`connOpen
      ensures trace == old(trace) + LoginEvents(CurrentSettings(), remoteVersion, username, password,
                                                processSecret(password), Reply(resp), ids, serverLines)
      ensures r == (if continueOnSuccess then None else Some(true))
      ensures !connOpen
    {
      ghost var accepted := AcceptedEvents(CurrentSettings(), remoteVersion, username, password,
                                           processSecret(password), resp, ids);
      ghost var listing := ListingEvents(CurrentSettings(), serverLines);
      if LoginAccepted(resp) {
        RecordLogin(username, password, ids);
      }
      assert trace == old(trace) + accepted;
      if ls {
        var files := ListDirectoryFull(serverLines);
        ReportListing(files);
        AppendAssoc(old(trace) + accepted, [Display(ListingHeading)], Highlights(files));
      }
      assert trace == old(trace) + accepted + listing;
      if !continueOnSuccess {
        CloseConn();
        r := Some(true);
      } else {
        CloseConn();
        r := None;
      }
      AppendAssoc(old(trace), accepted, listing);
      AppendAssoc(old(trace), accepted + listing, [Close]);
      assert LoginEvents(CurrentSettings(), remoteVersion, username, password, processSecret(password),
                         Reply(resp), ids, serverLines) == accepted + listing + [Close];
    }
  }
}
