/**
  What one FTP login attempt leaves behind: the writes to the result store and
  the reports to the user, in the order `plaintext_login` makes them, and the
  value it returns. The store and the reporter are sinks; each call to them is
  an `Event`.
 */
module FtpEvents {
  import opened Wrappers
  import opened FtpText

  datatype Event =
    | AddHost(host: string, port: int, remoteVersion: Option<string>)  // db.add_host
    | AddCredential(username: string, password: string)                // db.add_credential
    | AddLoggedinRelation(credId: int, hostId: int)                    // db.add_loggedin_relation
    | Success(username: string, shownSecret: string, anonymous: bool)  // logger.success
    | Fail(username: string, shownSecret: string, response: string)   // logger.fail
    | Display(text: string)                                            // logger.display
    | Highlight(text: string)                                          // logger.highlight
    | Close                                                            // conn.close

  /** What the FTP client's login call did: raised an exception, or returned the server's reply. */
  datatype LoginOutcome = Raised(error: string) | Reply(text: string)

  /** What the result store hands back: the new credential's id and the id of the first host record for the host. */
  datatype StoreIds = StoreIds(credId: int, hostId: int)

  /** The command-line options the handler reads. */
  datatype Settings = Settings(host: string, port: int, ls: bool, continueOnSuccess: bool)

  /** The heading printed before a directory listing. */
  const ListingHeading := "Directory Listing"

  /** The text of `print_host_info`; Python formats a missing version as "None". */
  function BannerLine(version: Option<string>): (line: string)
    ensures version.Some? ==> line == "Banner: " + version.value
    ensures version.None? ==> line == "Banner: None"
  {
    "Banner: " + match version case Some(v) => v case None => "None"
  }

  predicate IsStoreWrite(e: Event) {
    e.AddHost? || e.AddCredential? || e.AddLoggedinRelation?
  }

  predicate IsReport(e: Event) {
    e.Success? || e.Fail?
  }

  /** One highlight per listed line, in the server's order. */
  function Highlights(files: seq<string>): (r: seq<Event>)
    ensures |r| == |files|
    ensures forall i :: 0 <= i < |r| ==> r[i] == Highlight(files[i])
  {
    seq(|files|, i requires 0 <= i < |files| => Highlight(files[i]))
  }

  /** The three store writes and the success report of an accepted login. */
  function LoggedInEvents(s: Settings, version: Option<string>, username: string, password: string,
                          shownSecret: string, ids: StoreIds): seq<Event>
  {
    [ AddHost(s.host, s.port, version),
      AddCredential(username, password),
      AddLoggedinRelation(ids.credId, ids.hostId),
      Success(username, shownSecret, IsAnonymousLogin(username, password)) ]
  }

  /**
    Everything `plaintext_login` sends to the store and the reporter, given
    what the transport did. `version` is the remote version captured earlier,
    `shownSecret` the password as the secret-masking helper renders it.
   */
  function LoginEvents(s: Settings, version: Option<string>, username: string, password: string,
                       shownSecret: string, outcome: LoginOutcome, ids: StoreIds,
                       files: seq<string>): (t: seq<Event>)
    ensures t != [] && t[|t| - 1] == Close
  {
    match outcome
    case Raised(error) => [Fail(username, shownSecret, error), Close]
    case Reply(resp) =>
      AcceptedEvents(s, version, username, password, shownSecret, resp, ids) + ListingEvents(s, files) + [Close]
  }

  /** On a reply without an exception: the store writes and success report, made only when it contains "230". */
  function AcceptedEvents(s: Settings, version: Option<string>, username: string, password: string,
                          shownSecret: string, resp: string, ids: StoreIds): seq<Event>
  {
    if LoginAccepted(resp) then LoggedInEvents(s, version, username, password, shownSecret, ids) else []
  }

  /** On a reply without an exception: the listing, reported only when `ls` is set. */
  function ListingEvents(s: Settings, files: seq<string>): seq<Event> {
    if s.ls then [Display(ListingHeading)] + Highlights(files) else []
  }

  /**
    What `plaintext_login` returns: False after an exception, True when
    continue-on-success is off, and otherwise nothing (Python's None).
   */
  function LoginReturn(s: Settings, outcome: LoginOutcome): (r: Option<bool>)
    ensures r == Some(false) <==> outcome.Raised?
    ensures r == Some(true) <==> outcome.Reply? && !s.continueOnSuccess
    ensures r == None <==> outcome.Reply? && s.continueOnSuccess
  {
    if outcome.Raised? then Some(false)
    else if !s.continueOnSuccess then Some(true)
    else None
  }

  // ---------------------------------------------------------------------------
  // Views of a trace
  // ---------------------------------------------------------------------------

  /** The events of `t` that satisfy `p`, in order. */
  function Filter(t: seq<Event>, p: Event -> bool): (r: seq<Event>)
    ensures |r| <= |t|
    ensures forall i :: 0 <= i < |r| ==> p(r[i])
  {
    if t == [] then [] else (if p(t[0]) then [t[0]] else []) + Filter(t[1..], p)
  }

  /** The lines the reporter highlighted, in order. */
  function HighlightedLines(t: seq<Event>): seq<string> {
    if t == [] then [] else (if t[0].Highlight? then [t[0].text] else []) + HighlightedLines(t[1..])
  }

  function Count(t: seq<Event>, e: Event): nat {
    if t == [] then 0 else (if t[0] == e then 1 else 0) + Count(t[1..], e)
  }

  lemma {:induction false} FilterAppend(a: seq<Event>, b: seq<Event>, p: Event -> bool)
    ensures Filter(a + b, p) == Filter(a, p) + Filter(b, p)
    decreases |a|
  {
    if a == [] {
      assert a + b == b;
    } else {
      assert (a + b)[1..] == a[1..] + b;
      FilterAppend(a[1..], b, p);
    }
  }

  lemma {:induction false} FilterNone(t: seq<Event>, p: Event -> bool)
    requires forall i :: 0 <= i < |t| ==> !p(t[i])
    ensures Filter(t, p) == []
    decreases |t|
  {
    if t != [] {
      FilterNone(t[1..], p);
    }
  }

  lemma {:induction false} HighlightedLinesAppend(a: seq<Event>, b: seq<Event>)
    ensures HighlightedLines(a + b) == HighlightedLines(a) + HighlightedLines(b)
    decreases |a|
  {
    if a == [] {
      assert a + b == b;
    } else {
      assert (a + b)[1..] == a[1..] + b;
      HighlightedLinesAppend(a[1..], b);
    }
  }

  lemma {:induction false} CountAppend(a: seq<Event>, b: seq<Event>, e: Event)
    ensures Count(a + b, e) == Count(a, e) + Count(b, e)
    decreases |a|
  {
    if a == [] {
      assert a + b == b;
    } else {
      assert (a + b)[1..] == a[1..] + b;
      CountAppend(a[1..], b, e);
    }
  }

  /** Reading the highlights back gives the listed lines, none dropped, none reordered. */
  lemma {:induction false} HighlightsRoundTrip(files: seq<string>)
    ensures HighlightedLines(Highlights(files)) == files
    decreases |files|
  {
    if files != [] {
      assert Highlights(files) == [Highlight(files[0])] + Highlights(files[1..]);
      HighlightedLinesAppend([Highlight(files[0])], Highlights(files[1..]));
      HighlightsRoundTrip(files[1..]);
    }
  }

  lemma {:induction false} HighlightsFilter(files: seq<string>, p: Event -> bool)
    requires forall f :: !p(Highlight(f))
    ensures Filter(Highlights(files), p) == []
  {
    FilterNone(Highlights(files), p);
  }

  lemma {:induction false} HighlightsCount(files: seq<string>, e: Event)
    requires !e.Highlight?
    ensures Count(Highlights(files), e) == 0
    decreases |files|
  {
    if files != [] {
      assert Highlights(files) == [Highlight(files[0])] + Highlights(files[1..]);
      CountAppend([Highlight(files[0])], Highlights(files[1..]), e);
      HighlightsCount(files[1..], e);
    }
  }

  // ---------------------------------------------------------------------------
  // What one login attempt does
  // ---------------------------------------------------------------------------

  lemma {:induction false} SingleViews(e: Event, p: Event -> bool, x: Event)
    ensures Filter([e], p) == if p(e) then [e] else []
    ensures HighlightedLines([e]) == if e.Highlight? then [e.text] else []
    ensures Count([e], x) == if e == x then 1 else 0
  {
    assert [e][1..] == [];
  }

  /** The store writes among the events of an accepted login. */
  lemma {:induction false} LoggedInStoreWrites(s: Settings, version: Option<string>, username: string, password: string,
                            shownSecret: string, ids: StoreIds)
    ensures Filter(LoggedInEvents(s, version, username, password, shownSecret, ids), IsStoreWrite)
         == LoggedInEvents(s, version, username, password, shownSecret, ids)[..3]
  {
    var t := LoggedInEvents(s, version, username, password, shownSecret, ids);
    AppendViews4(t[0], t[1], t[2], t[3], IsStoreWrite, Close);
    assert t == [t[0]] + ([t[1]] + ([t[2]] + [t[3]]));
    SingleViews(t[0], IsStoreWrite, Close);
    SingleViews(t[1], IsStoreWrite, Close);
    SingleViews(t[2], IsStoreWrite, Close);
    SingleViews(t[3], IsStoreWrite, Close);
    assert t[..3] == [t[0]] + [t[1]] + [t[2]];
  }

  /** The reports among the events of an accepted login. */
  lemma {:induction false} LoggedInReports(s: Settings, version: Option<string>, username: string, password: string,
                        shownSecret: string, ids: StoreIds)
    ensures Filter(LoggedInEvents(s, version, username, password, shownSecret, ids), IsReport)
         == LoggedInEvents(s, version, username, password, shownSecret, ids)[3..]
  {
    var t := LoggedInEvents(s, version, username, password, shownSecret, ids);
    AppendViews4(t[0], t[1], t[2], t[3], IsReport, Close);
    assert t == [t[0]] + ([t[1]] + ([t[2]] + [t[3]]));
    SingleViews(t[0], IsReport, Close);
    SingleViews(t[1], IsReport, Close);
    SingleViews(t[2], IsReport, Close);
    SingleViews(t[3], IsReport, Close);
    assert t[3..] == [t[3]];
  }

  /** An accepted login highlights nothing, prints no listing heading and does not close. */
  lemma {:induction false} LoggedInQuiet(s: Settings, version: Option<string>, username: string, password: string,
                      shownSecret: string, ids: StoreIds, x: Event)
    requires x.Display? || x.Close?
    ensures HighlightedLines(LoggedInEvents(s, version, username, password, shownSecret, ids)) == []
    ensures Count(LoggedInEvents(s, version, username, password, shownSecret, ids), x) == 0
  {
    var t := LoggedInEvents(s, version, username, password, shownSecret, ids);
    AppendViews4(t[0], t[1], t[2], t[3], IsReport, x);
    assert t == [t[0]] + ([t[1]] + ([t[2]] + [t[3]]));
    SingleViews(t[0], IsReport, x);
    SingleViews(t[1], IsReport, x);
    SingleViews(t[2], IsReport, x);
    SingleViews(t[3], IsReport, x);
  }

  lemma {:induction false} AppendViews4(a: Event, b: Event, c: Event, d: Event, p: Event -> bool, x: Event)
    ensures var t := [a] + ([b] + ([c] + [d]));
      && Filter(t, p) == Filter([a], p) + Filter([b], p) + Filter([c], p) + Filter([d], p)
      && HighlightedLines(t) == HighlightedLines([a]) + HighlightedLines([b]) + HighlightedLines([c]) + HighlightedLines([d])
      && Count(t, x) == Count([a], x) + Count([b], x) + Count([c], x) + Count([d], x)
  {
    FilterAppend([a], [b] + ([c] + [d]), p);
    FilterAppend([b], [c] + [d], p);
    FilterAppend([c], [d], p);
    HighlightedLinesAppend([a], [b] + ([c] + [d]));
    HighlightedLinesAppend([b], [c] + [d]);
    HighlightedLinesAppend([c], [d]);
    CountAppend([a], [b] + ([c] + [d]), x);
    CountAppend([b], [c] + [d], x);
    CountAppend([c], [d], x);
  }

  /** The views of the listing block: a heading and the highlighted lines. */
  lemma {:induction false} ListingViews(files: seq<string>)
    ensures var t := [Display(ListingHeading)] + Highlights(files);
      Filter(t, IsStoreWrite) == [] && Filter(t, IsReport) == []
      && HighlightedLines(t) == files && Count(t, Display(ListingHeading)) == 1 && Count(t, Close) == 0
  {
    var t := [Display(ListingHeading)] + Highlights(files);
    assert t[1..] == Highlights(files);
    HighlightsFilter(files, IsStoreWrite);
    HighlightsFilter(files, IsReport);
    HighlightsRoundTrip(files);
    HighlightsCount(files, Display(ListingHeading));
    HighlightsCount(files, Close);
  }

  /**
    The store sees exactly three writes, host then credential then relation,
    when the reply contains "230", and none otherwise; an exception writes
    nothing.
   */
  lemma {:induction false} StoreWritesOfLogin(s: Settings, version: Option<string>, username: string, password: string,
                           shownSecret: string, outcome: LoginOutcome, ids: StoreIds, files: seq<string>)
    ensures Filter(LoginEvents(s, version, username, password, shownSecret, outcome, ids, files), IsStoreWrite)
         == if outcome.Reply? && LoginAccepted(outcome.text)
            then [AddHost(s.host, s.port, version), AddCredential(username, password),
                  AddLoggedinRelation(ids.credId, ids.hostId)]
            else []
  {
    match outcome
    case Raised(_) =>
    case Reply(resp) =>
      var accepted := AcceptedEvents(s, version, username, password, shownSecret, resp, ids);
      var listing := ListingEvents(s, files);
      FilterAppend(accepted + listing, [Close], IsStoreWrite);
      FilterAppend(accepted, listing, IsStoreWrite);
      SingleViews(Close, IsStoreWrite, Close);
      if LoginAccepted(resp) {
        LoggedInStoreWrites(s, version, username, password, shownSecret, ids);
      }
      if s.ls {
        ListingViews(files);
      }
  }

  /**
    Exactly one success report follows an accepted login, carrying the
    anonymous marker exactly for the anonymous credentials; an exception
    gives exactly one fail report; any other reply gives no report at all.
   */
  lemma {:induction false} ReportsOfLogin(s: Settings, version: Option<string>, username: string, password: string,
                       shownSecret: string, outcome: LoginOutcome, ids: StoreIds, files: seq<string>)
    ensures Filter(LoginEvents(s, version, username, password, shownSecret, outcome, ids, files), IsReport)
         == match outcome
            case Raised(error) => [Fail(username, shownSecret, error)]
            case Reply(resp) =>
              if LoginAccepted(resp)
              then [Success(username, shownSecret,
                            (username == "anonymous" || username == "") && (password == "" || password == "-"))]
              else []
  {
    match outcome
    case Raised(_) =>
    case Reply(resp) =>
      var accepted := AcceptedEvents(s, version, username, password, shownSecret, resp, ids);
      var listing := ListingEvents(s, files);
      FilterAppend(accepted + listing, [Close], IsReport);
      FilterAppend(accepted, listing, IsReport);
      SingleViews(Close, IsReport, Close);
      if LoginAccepted(resp) {
        LoggedInReports(s, version, username, password, shownSecret, ids);
      }
      if s.ls {
        ListingViews(files);
      }
  }

  /**
    The listing is reported whenever login did not raise and `ls` is set,
    whether or not the reply contained "230": the heading once, then every
    listed line in order.
   */
  lemma {:induction false} ListingOfLogin(s: Settings, version: Option<string>, username: string, password: string,
                       shownSecret: string, outcome: LoginOutcome, ids: StoreIds, files: seq<string>)
    ensures HighlightedLines(LoginEvents(s, version, username, password, shownSecret, outcome, ids, files))
         == if outcome.Reply? && s.ls then files else []
    ensures Count(LoginEvents(s, version, username, password, shownSecret, outcome, ids, files), Display(ListingHeading))
         == if outcome.Reply? && s.ls then 1 else 0
  {
    match outcome
    case Raised(_) =>
    case Reply(resp) =>
      var accepted := AcceptedEvents(s, version, username, password, shownSecret, resp, ids);
      var listing := ListingEvents(s, files);
      HighlightedLinesAppend(accepted + listing, [Close]);
      HighlightedLinesAppend(accepted, listing);
      CountAppend(accepted + listing, [Close], Display(ListingHeading));
      CountAppend(accepted, listing, Display(ListingHeading));
      SingleViews(Close, IsReport, Display(ListingHeading));
      if LoginAccepted(resp) {
        LoggedInQuiet(s, version, username, password, shownSecret, ids, Display(ListingHeading));
      }
      if s.ls {
        ListingViews(files);
      }
  }

  /** Every attempt closes the connection exactly once, as its last act. */
  lemma {:induction false} ClosedOnceAtEnd(s: Settings, version: Option<string>, username: string, password: string,
                        shownSecret: string, outcome: LoginOutcome, ids: StoreIds, files: seq<string>)
    ensures Count(LoginEvents(s, version, username, password, shownSecret, outcome, ids, files), Close) == 1
  {
    match outcome
    case Raised(_) =>
    case Reply(resp) =>
      var accepted := AcceptedEvents(s, version, username, password, shownSecret, resp, ids);
      var listing := ListingEvents(s, files);
      CountAppend(accepted + listing, [Close], Close);
      CountAppend(accepted, listing, Close);
      SingleViews(Close, IsReport, Close);
      if LoginAccepted(resp) {
        LoggedInQuiet(s, version, username, password, shownSecret, ids, Close);
      }
      if s.ls {
        ListingViews(files);
      }
  }
}
