/** The decisions the search window makes: which scopes it offers, when
    the search button is enabled, how a sweep over the hosts of a scope
    filters, stamps and collects sessions and where it stops, which one
    notice a failure produces, and what the single-host check reports.

    Everything the window reaches outside itself is a parameter: the host
    lists (Active Directory or a DHCP scope) and what probing each host
    gives, `String.Trim`, `Char.ToLowerInvariant`, and the moment
    cancellation is requested. */
module MainWindow {
  import opened Outcomes
  import opened Text
  import opened Sessions

  // ---------------------------------------------------------------------
  // Scope list

  /** The entry that stands for every computer in the directory. */
  const AllComputers: string := "All Computers"

  /** The scope drop-down: its items and `SelectedIndex` (-1 for none). */
  datatype ScopeBox = ScopeBox(items: seq<string>, selectedIndex: int)

  /** `SelectedItem`: the item at the selected index, or null. */
  function SelectedItem(box: ScopeBox): (r: Option<string>)
    ensures r.Some? <==> 0 <= box.selectedIndex < |box.items|
    ensures r.Some? ==> r.value in box.items
  {
    if 0 <= box.selectedIndex < |box.items| then Some(box.items[box.selectedIndex]) else None
  }

  /** `LoadDhcpScopes`: the scopes of the DHCP server followed by the
      all-computers entry, the first item selected when there is one. */
  function LoadScopes(scopes: seq<string>): (box: ScopeBox)
    ensures |box.items| == |scopes| + 1 && box.items[..|scopes|] == scopes
    ensures box.items[|scopes|] == AllComputers
    ensures box.selectedIndex == 0
    ensures SelectedItem(box) == Some(box.items[0])
  {
    var items := scopes + [AllComputers];
    assert items[..|scopes|] == scopes;
    ScopeBox(items, if |items| > 0 then 0 else -1)
  }

  /** Which provider lists the hosts to sweep. */
  datatype HostSource = AllHosts | ScopeHosts(scope: string)

  /** The scope name decides the provider: the all-computers entry goes to
      the directory query, any other text to the DHCP lease query. */
  function HostSourceOf(scope: string): (h: HostSource)
    ensures h == AllHosts <==> scope == AllComputers
    ensures h.ScopeHosts? ==> h.scope == scope
  {
    if scope == AllComputers then AllHosts else ScopeHosts(scope)
  }

  /** Choosing an entry of a loaded list: the last entry sweeps every
      computer, any other sweeps its own scope unless that scope happens to
      be named like the all-computers entry. */
  lemma LoadedScopeDispatch(scopes: seq<string>, i: nat)
    requires i <= |scopes|
    ensures var item := LoadScopes(scopes).items[i];
            && (i == |scopes| ==> HostSourceOf(item) == AllHosts)
            && (i < |scopes| && scopes[i] != AllComputers ==> HostSourceOf(item) == ScopeHosts(scopes[i]))
  {
    assert LoadScopes(scopes).items[..|scopes|] == scopes;
    if i < |scopes| {
      assert LoadScopes(scopes).items[i] == LoadScopes(scopes).items[..|scopes|][i];
    }
  }

  // ---------------------------------------------------------------------
  // Form validation

  /** `ValidateForm`: search is possible when the trimmed user name is not
      empty and a scope is selected. */
  predicate SearchEnabled(usernameText: string, selected: Option<string>, trim: string -> string)
    ensures trim(usernameText) == [] ==> !SearchEnabled(usernameText, selected, trim)
    ensures selected.None? ==> !SearchEnabled(usernameText, selected, trim)
  {
    trim(usernameText) != [] && selected.Some?
  }

  /** Once the scopes are loaded a scope is always selected, so the button
      follows the user name alone. */
  lemma LoadedFormFollowsUsername(scopes: seq<string>, usernameText: string, trim: string -> string)
    ensures SearchEnabled(usernameText, SelectedItem(LoadScopes(scopes)), trim) <==> trim(usernameText) != []
  {
  }

  // ---------------------------------------------------------------------
  // Notices

  /** A message box: an error or a warning. */
  datatype Notice = ErrorBox(text: string) | WarningBox(text: string)

  const ServerDownText: string :=
    "Unable to contact the Active Directory server. Please ensure you are connected to the network and try again."
  const LdapText: string :=
    "The LDAP server is unavailable. Please check your network connection and try again."
  const CanceledText: string := "The operation was canceled."
  const UnexpectedLead: string := "An unexpected error occurred: "

  /** The message box each kind of failure raises. */
  function NoticeFor(f: Fault): (n: Notice)
    ensures n.WarningBox? <==> f.Canceled?
    ensures (f.AccessDenied? || f.Failed?) ==> n == ErrorBox(UnexpectedLead + f.message)
    ensures f.ServerDown? ==> n == ErrorBox(ServerDownText)
    ensures f.LdapUnavailable? ==> n == ErrorBox(LdapText)
    ensures f.Canceled? ==> n == WarningBox(CanceledText)
  {
    match f
    case ServerDown(_) => ErrorBox(ServerDownText)
    case LdapUnavailable(_) => ErrorBox(LdapText)
    case Canceled => WarningBox(CanceledText)
    case AccessDenied(m) => ErrorBox(UnexpectedLead + m)
    case Failed(m) => ErrorBox(UnexpectedLead + m)
  }

  /** What `HandleException` does: whether the exception is swallowed, the
      new value of the shown flag, the notice raised, and whether the input
      boxes are cleared. */
  datatype Handling = Handling(swallowed: bool, shown: bool, notice: Option<Notice>, clearsInputs: bool)

  /** `HandleException`: the first failure of a search raises its notice
      and sets the flag; later ones raise nothing. Every failure is
      swallowed. */
  function HandleException(shown: bool, f: Fault): (h: Handling)
    ensures h.swallowed && h.shown
    ensures h.notice.Some? <==> !shown
    ensures h.notice.Some? ==> h.notice.value == NoticeFor(f)
    ensures h.clearsInputs <==> h.notice.Some?
  {
    if shown then Handling(true, true, None, false)
    else Handling(true, true, Some(NoticeFor(f)), true)
  }

  /** The notices raised by handling the failures in turn with one flag. */
  function NoticesOf(shown: bool, faults: seq<Fault>): seq<Notice>
    decreases |faults|
  {
    if faults == [] then []
    else
      var h := HandleException(shown, faults[0]);
      (if h.notice.Some? then [h.notice.value] else []) + NoticesOf(h.shown, faults[1..])
  }

  /** However many failures one flag sees, at most one notice is raised:
      the first failure's, and none once the flag is set. */
  lemma {:induction false} AtMostOneNotice(shown: bool, faults: seq<Fault>)
    ensures shown ==> NoticesOf(shown, faults) == []
    ensures !shown && faults != [] ==> NoticesOf(shown, faults) == [NoticeFor(faults[0])]
    ensures |NoticesOf(shown, faults)| <= 1
    decreases |faults|
  {
    if faults != [] {
      AtMostOneNotice(true, faults[1..]);
    }
  }

  // ---------------------------------------------------------------------
  // Filtering and stamping

  /** The filter test: the lower-cased user name contains the lower-cased
      filter. */
  predicate UsernameMatches(username: string, filter: string, lower: char -> char) {
    Contains(MapChars(username, lower), MapChars(filter, lower))
  }

  /** The copy of a session that records the host it came from. */
  function Stamp(s: UserSession, host: string): (r: UserSession)
    ensures r.computerName == Some(host)
    ensures r.(computerName := s.computerName) == s
  {
    s.(computerName := Some(host))
  }

  /** The sessions of one host that pass the filter, stamped, in order. */
  function KeepAndStamp(ss: seq<UserSession>, host: string, filter: string, lower: char -> char)
    : (r: seq<UserSession>)
    ensures |r| <= |ss|
    ensures forall k :: 0 <= k < |r| ==>
              r[k].computerName == Some(host) && UsernameMatches(r[k].username, filter, lower)
    decreases |ss|
  {
    if ss == [] then []
    else
      var rest := KeepAndStamp(ss[1..], host, filter, lower);
      if UsernameMatches(ss[0].username, filter, lower) then [Stamp(ss[0], host)] + rest else rest
  }

  /** A stamped session is kept exactly when some session of the host
      passes the filter and stamps to it. */
  lemma {:induction false} KeepAndStampMembers(ss: seq<UserSession>, host: string, filter: string,
                                               lower: char -> char, x: UserSession)
    ensures x in KeepAndStamp(ss, host, filter, lower) <==>
            exists j :: 0 <= j < |ss| && UsernameMatches(ss[j].username, filter, lower) && x == Stamp(ss[j], host)
    decreases |ss|
  {
    if ss != [] {
      KeepAndStampMembers(ss[1..], host, filter, lower, x);
      if exists j :: 0 <= j < |ss[1..]| && UsernameMatches(ss[1..][j].username, filter, lower)
                     && x == Stamp(ss[1..][j], host) {
        var j :| 0 <= j < |ss[1..]| && UsernameMatches(ss[1..][j].username, filter, lower)
                 && x == Stamp(ss[1..][j], host);
        assert ss[j + 1] == ss[1..][j];
      }
      if exists j :: 0 <= j < |ss| && UsernameMatches(ss[j].username, filter, lower) && x == Stamp(ss[j], host) {
        var j :| 0 <= j < |ss| && UsernameMatches(ss[j].username, filter, lower) && x == Stamp(ss[j], host);
        if j > 0 {
          assert ss[1..][j - 1] == ss[j];
        }
      }
    }
  }

  /** Filtering works session by session, so it keeps tool-output order. */
  lemma {:induction false} KeepAndStampAppend(a: seq<UserSession>, b: seq<UserSession>, host: string,
                                              filter: string, lower: char -> char)
    ensures KeepAndStamp(a + b, host, filter, lower)
         == KeepAndStamp(a, host, filter, lower) + KeepAndStamp(b, host, filter, lower)
    decreases |a|
  {
    if a == [] {
      assert a + b == b;
    } else {
      assert (a + b)[0] == a[0];
      assert (a + b)[1..] == a[1..] + b;
      KeepAndStampAppend(a[1..], b, host, filter, lower);
    }
  }

  // ---------------------------------------------------------------------
  // The sweep

  /** A host of the list together with what probing it gives: its
      sessions, or the exception `GetLoggedInUsers` throws. */
  datatype Probe = Probe(host: string, outcome: Result<seq<UserSession>, Fault>)

  /** Why a sweep ended early. */
  datatype Halt = CancelSeen | ProbeFailed(fault: Fault)

  /** The state of a sweep: the matches shown so far, the progress counter
      and, once the loop has been left, why. */
  datatype Progress = Progress(matches: seq<UserSession>, processed: nat, halt: Option<Halt>)

  /** The exception that reaches the handler when a sweep halts. */
  function HaltFault(h: Halt): (f: Fault)
    ensures h.CancelSeen? ==> f == Canceled
  {
    match h
    case CancelSeen => Canceled
    case ProbeFailed(f) => f
  }

  /** Cancellation, requested before the check at host `cancelAt` (or
      never), is seen by the check before host `i`. */
  predicate CancelSeenAt(cancelAt: Option<nat>, i: nat) {
    cancelAt.Some? && cancelAt.value <= i
  }

  /** One turn of the loop over hosts, the `i`-th: check for cancellation,
      probe, filter and stamp, append, count. A halted sweep stays as it
      is. */
  function Step(p: Progress, i: nat, probe: Probe, filter: string, lower: char -> char,
                cancelAt: Option<nat>): Progress
  {
    if p.halt.Some? then p
    else if CancelSeenAt(cancelAt, i) then p.(halt := Some(CancelSeen))
    else match probe.outcome
      case Failure(f) => p.(halt := Some(ProbeFailed(f)))
      case Success(_) => Progress(p.matches + HostMatches(probe, filter, lower), p.processed + 1, None)
  }

  /** The loop over the hosts as a left fold. */
  function Sweep(probes: seq<Probe>, filter: string, lower: char -> char, cancelAt: Option<nat>)
    : (p: Progress)
    ensures p.processed <= |probes|
    ensures p.halt.None? <==> p.processed == |probes|
    decreases |probes|
  {
    if probes == [] then Progress([], 0, None)
    else
      var n := |probes| - 1;
      Step(Sweep(probes[..n], filter, lower, cancelAt), n, probes[n], filter, lower, cancelAt)
  }

  /** The host at `i` ends the sweep: cancellation is seen before it, or
      probing it fails. */
  predicate HaltsAt(probes: seq<Probe>, cancelAt: Option<nat>, i: nat)
    requires i < |probes|
  {
    CancelSeenAt(cancelAt, i) || probes[i].outcome.Failure?
  }

  /** Why the host at `i` ends the sweep; cancellation is checked first. */
  function HaltAt(probes: seq<Probe>, cancelAt: Option<nat>, i: nat): Halt
    requires i < |probes| && HaltsAt(probes, cancelAt, i)
  {
    if CancelSeenAt(cancelAt, i) then CancelSeen else ProbeFailed(probes[i].outcome.error)
  }

  /** The matches of the hosts, all of which were probed successfully,
      concatenated in list order. */
  function Gathered(probes: seq<Probe>, filter: string, lower: char -> char): seq<UserSession>
    decreases |probes|
  {
    if probes == [] then []
    else HostMatches(probes[0], filter, lower) + Gathered(probes[1..], filter, lower)
  }

  /** The matches of one host, none if probing it failed. */
  function HostMatches(probe: Probe, filter: string, lower: char -> char): seq<UserSession> {
    match probe.outcome
    case Success(ss) => KeepAndStamp(ss, probe.host, filter, lower)
    case Failure(_) => []
  }

  /** Gathering works host by host: a host appended to the list appends
      its own matches. */
  lemma {:induction false} GatheredSnoc(probes: seq<Probe>, q: Probe, filter: string, lower: char -> char)
    ensures Gathered(probes + [q], filter, lower)
         == Gathered(probes, filter, lower) + HostMatches(q, filter, lower)
    decreases |probes|
  {
    if probes == [] {
      assert [] + [q] == [q];
      assert [q][1..] == [];
    } else {
      assert (probes + [q])[0] == probes[0];
      assert (probes + [q])[1..] == probes[1..] + [q];
      GatheredSnoc(probes[1..], q, filter, lower);
    }
  }

  /** What the sweep's result `p` says about the hosts: it processed the
      hosts before the first one that halts it, halted there for that
      host's reason, and shows the matches of exactly the processed hosts,
      in order. */
  predicate ClosedForm(probes: seq<Probe>, filter: string, lower: char -> char, cancelAt: Option<nat>,
                       p: Progress)
  {
    && p.processed <= |probes|
    && (p.halt.None? <==> p.processed == |probes|)
    && (forall i :: 0 <= i < p.processed ==> !HaltsAt(probes, cancelAt, i))
    && (p.processed < |probes| ==>
          HaltsAt(probes, cancelAt, p.processed) && p.halt == Some(HaltAt(probes, cancelAt, p.processed)))
    && p.matches == Gathered(probes[..p.processed], filter, lower)
  }

  /** The last host is processed: its matches are appended. */
  lemma StepProcesses(probes: seq<Probe>, filter: string, lower: char -> char, cancelAt: Option<nat>,
                      p0: Progress)
    requires probes != []
    requires ClosedForm(probes[..|probes| - 1], filter, lower, cancelAt, p0)
    requires p0.halt.None? && !HaltsAt(probes, cancelAt, |probes| - 1)
    ensures ClosedForm(probes, filter, lower, cancelAt,
                       Step(p0, |probes| - 1, probes[|probes| - 1], filter, lower, cancelAt))
  {
    var n := |probes| - 1;
    var init := probes[..n];
    assert p0.processed == n;
    forall i | 0 <= i < n ensures !HaltsAt(probes, cancelAt, i) {
      assert !HaltsAt(init, cancelAt, i);
      assert init[i] == probes[i];
    }
    assert probes[..n + 1] == init + [probes[n]];
    assert init[..p0.processed] == init;
    GatheredSnoc(init, probes[n], filter, lower);
  }

  /** The sweep had halted already: it stays as it was. */
  lemma StepStays(probes: seq<Probe>, filter: string, lower: char -> char, cancelAt: Option<nat>,
                  p0: Progress)
    requires probes != []
    requires ClosedForm(probes[..|probes| - 1], filter, lower, cancelAt, p0) && p0.halt.Some?
    ensures ClosedForm(probes, filter, lower, cancelAt,
                       Step(p0, |probes| - 1, probes[|probes| - 1], filter, lower, cancelAt))
  {
    var init := probes[..|probes| - 1];
    forall i | 0 <= i <= p0.processed
      ensures init[i] == probes[i] && (HaltsAt(init, cancelAt, i) <==> HaltsAt(probes, cancelAt, i))
    {
    }
    assert probes[..p0.processed] == init[..p0.processed];
  }

  /** The last host halts the sweep: nothing is appended. */
  lemma StepHalts(probes: seq<Probe>, filter: string, lower: char -> char, cancelAt: Option<nat>,
                  p0: Progress)
    requires probes != []
    requires ClosedForm(probes[..|probes| - 1], filter, lower, cancelAt, p0) && p0.halt.None?
    requires HaltsAt(probes, cancelAt, |probes| - 1)
    ensures ClosedForm(probes, filter, lower, cancelAt,
                       Step(p0, |probes| - 1, probes[|probes| - 1], filter, lower, cancelAt))
  {
    var n := |probes| - 1;
    var init := probes[..n];
    assert p0.processed == n;
    forall i | 0 <= i < n ensures !HaltsAt(probes, cancelAt, i) {
      assert !HaltsAt(init, cancelAt, i);
      assert init[i] == probes[i];
    }
    assert init[..p0.processed] == init;
    var p := Step(p0, n, probes[n], filter, lower, cancelAt);
    assert p == p0.(halt := Some(HaltAt(probes, cancelAt, n)));
  }

  /** The sweep in closed form. */
  lemma {:induction false} SweepClosedForm(probes: seq<Probe>, filter: string, lower: char -> char,
                                           cancelAt: Option<nat>)
    ensures ClosedForm(probes, filter, lower, cancelAt, Sweep(probes, filter, lower, cancelAt))
    decreases |probes|
  {
    if probes != [] {
      var n := |probes| - 1;
      var init := probes[..n];
      SweepClosedForm(init, filter, lower, cancelAt);
      var p0 := Sweep(init, filter, lower, cancelAt);
      if p0.halt.Some? {
        StepStays(probes, filter, lower, cancelAt, p0);
      } else if HaltsAt(probes, cancelAt, n) {
        StepHalts(probes, filter, lower, cancelAt, p0);
      } else {
        StepProcesses(probes, filter, lower, cancelAt, p0);
      }
    }
  }

  /** The number of probes a sweep started: the processed hosts and, when
      a probe failed, that one. */
  function ProbesStarted(p: Progress): nat {
    p.processed + if p.halt.Some? && p.halt.value.ProbeFailed? then 1 else 0
  }

  /** Cancellation is checked before each probe, so once it is seen no
      probe starts: the sweep started no probe at or after the host where
      it was requested. */
  lemma NoProbeAfterCancel(probes: seq<Probe>, filter: string, lower: char -> char, c: nat)
    ensures ProbesStarted(Sweep(probes, filter, lower, Some(c))) <= c
    ensures c < |probes| ==> Sweep(probes, filter, lower, Some(c)).processed <= c
  {
    SweepClosedForm(probes, filter, lower, Some(c));
  }

  /** Every session a sweep shows passes the filter and carries the name
      of a processed host that reported it. */
  lemma {:induction false} SweepShowsOnlyMatches(probes: seq<Probe>, filter: string, lower: char -> char,
                                                 cancelAt: Option<nat>, x: UserSession)
    requires x in Sweep(probes, filter, lower, cancelAt).matches
    ensures UsernameMatches(x.username, filter, lower)
    ensures exists i :: 0 <= i < Sweep(probes, filter, lower, cancelAt).processed
                        && x.computerName == Some(probes[i].host)
  {
    var p := Sweep(probes, filter, lower, cancelAt);
    SweepClosedForm(probes, filter, lower, cancelAt);
    var i := GatheredSource(probes[..p.processed], filter, lower, x);
    assert probes[..p.processed][i] == probes[i];
  }

  /** Each gathered session comes from one of the hosts. */
  lemma {:induction false} GatheredSource(probes: seq<Probe>, filter: string, lower: char -> char,
                                          x: UserSession) returns (i: nat)
    requires x in Gathered(probes, filter, lower)
    ensures i < |probes| && x.computerName == Some(probes[i].host)
    ensures UsernameMatches(x.username, filter, lower)
    decreases |probes|
  {
    var head := HostMatches(probes[0], filter, lower);
    assert Gathered(probes, filter, lower) == head + Gathered(probes[1..], filter, lower);
    if x in head {
      var k :| 0 <= k < |head| && head[k] == x;
      i := 0;
    } else {
      var j := GatheredSource(probes[1..], filter, lower, x);
      assert probes[1..][j] == probes[j + 1];
      i := j + 1;
    }
  }

  // ---------------------------------------------------------------------
  // The search

  /** How a search request ends. */
  datatype SearchEnd =
    | NeedsUsername(warning: string)            // the empty-filter guard
    | NoScopeSelected                           // `SelectedItem` is null: NullReferenceException
    | Finished(processed: nat, notice: Option<Notice>)

  /** The warning the empty-filter guard shows. */
  const UsernamePrompt: string := "Please enter a username."

  /** The sessions shown after a request and how it ended. */
  datatype SearchState = SearchState(shown: seq<UserSession>, end: SearchEnd)

  /** `SearchButton_ClickAsync`: validate the filter, clear the results,
      fetch the host list from the provider the scope names, sweep it, and
      hand the one failure, if any, to `HandleException` with a fresh flag. */
  function Search(usernameText: string, selected: Option<string>, trim: string -> string,
                  lower: char -> char, hostList: HostSource -> Result<seq<Probe>, Fault>,
                  cancelAt: Option<nat>, previous: seq<UserSession>): (r: SearchState)
    ensures r.end.NeedsUsername? <==> trim(usernameText) == []
    ensures r.end.NeedsUsername? ==> r.end.warning == UsernamePrompt
    ensures r.end.Finished? <==> SearchEnabled(usernameText, selected, trim)
    ensures !r.end.Finished? ==> r.shown == previous
    ensures r.end.Finished? && hostList(HostSourceOf(selected.value)).Failure? ==>
              r.shown == [] && r.end.processed == 0
              && r.end.notice == Some(NoticeFor(hostList(HostSourceOf(selected.value)).error))
  {
    var filter := trim(usernameText);
    if filter == [] then SearchState(previous, NeedsUsername(UsernamePrompt))
    else if selected.None? then SearchState(previous, NoScopeSelected)
    else match hostList(HostSourceOf(selected.value))
      case Failure(f) =>
        SearchState([], Finished(0, HandleException(false, f).notice))
      case Success(probes) =>
        var p := Sweep(probes, filter, lower, cancelAt);
        var notice := if p.halt.Some? then HandleException(false, HaltFault(p.halt.value)).notice else None;
        SearchState(p.matches, Finished(p.processed, notice))
  }

  /** A sweep that runs shows the matches of the hosts processed before the
      first halting one, and raises a notice exactly when it halted, for
      that host's reason. */
  lemma SearchShowsSweep(usernameText: string, scope: string, trim: string -> string, lower: char -> char,
                         hostList: HostSource -> Result<seq<Probe>, Fault>, cancelAt: Option<nat>,
                         previous: seq<UserSession>)
    requires trim(usernameText) != [] && hostList(HostSourceOf(scope)).Success?
    ensures var probes := hostList(HostSourceOf(scope)).value;
            var r := Search(usernameText, Some(scope), trim, lower, hostList, cancelAt, previous);
            var n := r.end.processed;
            && r.end.Finished? && n <= |probes|
            && r.shown == Gathered(probes[..n], trim(usernameText), lower)
            && (forall i :: 0 <= i < n ==> !HaltsAt(probes, cancelAt, i))
            && (r.end.notice.Some? <==> n < |probes|)
            && (n < |probes| ==> HaltsAt(probes, cancelAt, n)
                                 && r.end.notice == Some(NoticeFor(HaltFault(HaltAt(probes, cancelAt, n)))))
  {
    var probes := hostList(HostSourceOf(scope)).value;
    SweepClosedForm(probes, trim(usernameText), lower, cancelAt);
  }

  // ---------------------------------------------------------------------
  // The single-host check

  /** The user names of the sessions, in order. */
  function Usernames(users: seq<UserSession>): (r: seq<string>)
    ensures |r| == |users| && forall k :: 0 <= k < |users| ==> r[k] == users[k].username
  {
    seq(|users|, k requires 0 <= k < |users| => users[k].username)
  }

  const LoggedIntoLead: string := "Users are logged into "
  const NoUsersLead: string := "No users are currently logged into "

  /** The line `UpdateComputerCheckResultTextBlock` shows: the user names
      separated by ", ", or a sentence saying there are none. */
  function Summary(users: seq<UserSession>, name: string): (r: string)
    ensures users != [] ==> LoggedIntoLead + name + ": " <= r
    ensures users == [] ==> r == NoUsersLead + name + "."
  {
    if users != [] then LoggedIntoLead + name + ": " + Join(Usernames(users), ", ")
    else NoUsersLead + name + "."
  }

  /** The loop with its `StringBuilder`: each name, followed by ", " unless
      it is the last. */
  method BuildSummary(users: seq<UserSession>, name: string) returns (text: string)
    ensures text == Summary(users, name)
  {
    if |users| == 0 {
      return NoUsersLead + name + ".";
    }
    var lead := LoggedIntoLead + name + ": ";
    var names := Usernames(users);
    text := lead;
    var i := 0;
    while i < |users|
      invariant 0 <= i <= |users|
      invariant i == 0 ==> text == lead
      invariant 0 < i ==> text == lead + Join(names[..i], ", ") + (if i < |users| then ", " else [])
    {
      var before := text;
      text := text + users[i].username;
      if i < |users| - 1 {
        text := text + ", ";
      }
      if i > 0 {
        JoinSnoc(names[..i], names[i], ", ");
        assert names[..i + 1] == names[..i] + [names[i]];
      } else {
        assert names[..1] == [names[0]];
      }
      i := i + 1;
    }
    assert names[..|users|] == names;
  }

  /** The summary of a non-empty list reads back as its user names: what
      follows the lead splits on ", " into exactly the names, in order,
      since parsed user names hold no whitespace. */
  lemma SummaryListsUsernames(users: seq<UserSession>, name: string)
    requires users != []
    requires forall k :: 0 <= k < |users| ==> NoWhiteSpace(users[k].username)
    ensures var lead := LoggedIntoLead + name + ": ";
            var text := Summary(users, name);
            lead <= text && Split(text[|lead|..], ", ") == Usernames(users)
  {
    var lead := LoggedIntoLead + name + ": ";
    var names := Usernames(users);
    forall k | 0 <= k < |names| ensures Separated(names[k], ", ") {
      NoWhiteSpaceSeparated(names[k]);
    }
    SplitJoin(names, ", ");
    assert Summary(users, name)[|lead|..] == Join(names, ", ");
  }

  /** The warning the empty-name guard shows. */
  const ComputerNamePrompt: string := "Please enter a computer name."

  /** How a single-host check ends. */
  datatype CheckEnd =
    | NeedsComputerName(warning: string)  // the empty-name guard
    | Reported(text: string)              // the summary line
    | Unhandled(fault: Fault)             // the probe's exception escapes the handler

  /** `CheckComputerButton_ClickAsync`: trim the name, refuse an empty one,
      otherwise probe the host and report its users. */
  function CheckComputer(computerText: string, trim: string -> string,
                         probe: string -> Result<seq<UserSession>, Fault>): (r: CheckEnd)
    ensures r.NeedsComputerName? <==> trim(computerText) == []
    ensures r.NeedsComputerName? ==> r.warning == ComputerNamePrompt
    ensures r.Reported? <==> trim(computerText) != [] && probe(trim(computerText)).Success?
    ensures r.Reported? ==> r.text == Summary(probe(trim(computerText)).value, trim(computerText))
  {
    var name := trim(computerText);
    if name == [] then NeedsComputerName(ComputerNamePrompt)
    else match probe(name)
      case Failure(f) => Unhandled(f)
      case Success(users) => Reported(Summary(users, name))
  }
}
