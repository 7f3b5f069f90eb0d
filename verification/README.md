# UserLoginChecker, modelled in Dafny

UserLoginChecker is a WPF tool for Windows administrators. It finds which
computers a user is logged into. It takes the hosts of a DHCP scope, or every
computer in Active Directory, runs `quser /server:<host>` against each one,
parses the tool's text table into session records, keeps the sessions whose
user name contains the typed filter, and shows them with the host name
stamped on. A second button checks a single computer and prints one summary
line.

This project models the decisions inside that plumbing as pure Dafny
functions over strings and sequences, and proves what they guarantee.

- `outcomes.dfy` (`Outcomes`): `Option`, `Result`, and the exception kinds
  the window tells apart (`Fault`).
- `text.dfy` (`Text`):
  - the .NET character classes `\s` (the same set as `Char.IsWhiteSpace`)
    and `\d`;
  - ordinal `String.Contains`;
  - `String.Split` with one string separator, and `String.Join`;
  - `RemoveEmptyEntries`;
  - the lemmas tying these together, such as the split/join round trip.
- `user_session.dfy` (`Sessions`): the seven-field `UserSession` record.
- `quser_line.dfy` (`QUserLine`): what the quser line pattern means.
  - `Shape` states when a choice of capture-group boundaries is a match.
  - `LeftmostGreedy` states which match .NET reports: the leftmost start,
    then greedy quantifiers.
  - `Match` is a token scanner, proved to compute exactly that match.
  - `ParseQUserLine` builds the record from it.
  - Layout lemmas show that a session printed in quser's columns parses back
    to itself (`ParseColumns`).
  - `SlidesPastWord` shows that an extra first word whose window does not fit
    is skipped. One consequence: a disconnected session that quser prints
    without a session name is read with the ID as its user name when its
    idle time is all digits. When the idle time is not all digits (`none`,
    `.`, `1:05`) and the logon date starts with a non-numeric token such as
    `6/1/2024`, no window has a numeric third token, so the line is dropped.
    That second case is described here, not proved.
- `user_search_service.dfy` (`UserSearchService`): how `GetLoggedInUsers`
  reads the tool's standard output and standard error.
  - The output is cut into non-empty lines.
  - The header line is skipped.
  - The other lines are parsed in order.
  - Standard error is classified into access denied or a generic failure.
- `main_window.dfy` (`MainWindow`):
  - the scope list and the all-computers dispatch;
  - search-button enablement;
  - the sweep, as a left fold over the host list, with cancellation
    observed at a host index;
  - the one-shot notice flag of `HandleException`;
  - the search request end to end;
  - the single-host check and its summary line.
- `utility.dfy` (`Utility`): the `quser.exe` path search. It tries three
  system locations, then each `PATH` entry, and returns the first that
  exists.

Things the model receives as parameters, because they are calls into .NET or
the machine that the program only consumes:

- `Environment.NewLine`;
- `String.Trim` and `Char.ToLowerInvariant`;
- `Path.Combine` and `File.Exists`;
- the special folders and the `PATH` variable;
- the host-list providers;
- the outcome of probing each host;
- the point at which cancellation is requested.

Some behaviour one might expect of such a tool is not in the code, so it is
not in the model either:

- the ID column must be all digits, with no placeholder accepted;
- hosts are swept one after another, not with bounded concurrency;
- the first failing host ends the whole sweep, and is not recorded while
  the sweep goes on;
- there are no retries or per-host timeouts;
- the tool's exit code is never read, only standard error;
- the `PATH` search splits on `;` without dropping empty entries.

Two notes on reachability. Neither changes what the model computes.

- The Active Directory and DHCP host-list calls wrap every exception in a
  plain `Exception` (UserLoginChecker/UserSearchService.cs:74-77 and 96-99).
  So the server-down and LDAP notices of `HandleException` cannot be reached
  from a search. `NoticeFor` models all four sections of the switch; its five arms split
  `default` into the access-denied and generic failures, which show the same
  "An unexpected error occurred: " text.
- The `catch … when` that calls `HandleException` sits outside the loop over
  hosts, and the shown flag is fresh for every search. So the flag is always
  clear when `HandleException` is entered. `Search` passes `false`, and the
  many-failures case of `AtMostOneNotice` describes the handler, not
  something a search can produce.

## Model

| member | source | states |
|---|---|---|
| `Text.Contains` | UserLoginChecker/UserSearchService.cs:161 | true exactly when the needle occurs at some index of the text |
| `Text.RemoveEmpty` | UserLoginChecker/UserSearchService.cs:148 | keeps exactly the non-empty entries: every kept entry is non-empty and came from the input, and every non-empty input entry is kept |
| `Text.RemoveEmptyAppend` | UserLoginChecker/UserSearchService.cs:148 | dropping empty entries works entry by entry, so the order of the surviving lines is the output order |
| `Text.Split` | UserLoginChecker/UserSearchService.cs:148 | `String.Split` on one string separator gives at least one piece and loses nothing but the separators: joining the pieces again gives the original string |
| `Text.SplitJoin` | UserLoginChecker/UserSearchService.cs:148 | lines that do not run into the separator, once joined, split back into exactly those lines |
| `Text.SplitPiecesFree` | UserLoginChecker/UserSearchService.cs:148 | no piece of a split contains the separator |
| `QUserLine.FirstMatchFrom` | UserLoginChecker/UserSearchService.cs:191 | the scan from a position, when it finds anything, finds a match of the pattern whose USERNAME starts at or after that position |
| `QUserLine.Match` | UserLoginChecker/UserSearchService.cs:191 | `Regex.Match` on the line: anything it reports is a match of the pattern (which one is fixed by `MatchIsLeftmostGreedy`) |
| `QUserLine.MatchAt` | UserLoginChecker/UserSearchService.cs:187 | a window starting at a given token, when it exists, is a match of the pattern whose USERNAME starts there |
| `QUserLine.MatchAtCovers` | UserLoginChecker/UserSearchService.cs:187 | any match whose USERNAME starts inside a token forces the window at that token to exist, with the same token boundaries and a LOGONTIME at least as far right and as long |
| `QUserLine.FirstMatchFromIsLeftmost` | UserLoginChecker/UserSearchService.cs:191 | if any match starts at or after a position, the scan from there finds one that is preferred to it |
| `QUserLine.MatchIsLeftmostGreedy` | UserLoginChecker/UserSearchService.cs:187-191 | the scanner's result is a match, and it is the one `Regex.Match` reports: leftmost start, then greedy counts, in both directions |
| `QUserLine.MatchNoneIffNoShape` | UserLoginChecker/UserSearchService.cs:191-193 | the scan finds nothing exactly when no choice of groups matches the pattern |
| `QUserLine.Record` | UserLoginChecker/UserSearchService.cs:193-203 | the record built from a match has five non-empty whitespace-free fields, an all-digit ID, a non-empty LOGONTIME without line feeds, and no computer name |
| `QUserLine.ParseQUserLine` | UserLoginChecker/UserSearchService.cs:189-203 | any record it yields has five non-empty whitespace-free fields, an all-digit ID, a LOGONTIME without line feeds, and no computer name |
| `QUserLine.ParseQUserLineIffShape` | UserLoginChecker/UserSearchService.cs:189-193 | a line yields a record exactly when some choice of groups matches the pattern |
| `QUserLine.UsernameIsWholeToken` | UserLoginChecker/UserSearchService.cs:187-191 | the reported USERNAME starts at a token boundary, never inside a token |
| `QUserLine.LogonRunsToLineEnd` | UserLoginChecker/UserSearchService.cs:187 | LOGONTIME runs to the end of the line or up to a line feed |
| `QUserLine.LogonStartsAtNextToken` | UserLoginChecker/UserSearchService.cs:187 | when a non-whitespace character follows the whitespace after IDLE, LOGONTIME starts at that character |
| `QUserLine.LogonIsSuffix` | UserLoginChecker/UserSearchService.cs:187-201 | on a line without line feeds, LOGONTIME is a non-empty suffix of the line, internal spaces kept |
| `QUserLine.ColumnSlices` | UserLoginChecker/UserSearchService.cs:187 | each column of a row laid out with padding is the slice of the line between its boundaries |
| `QUserLine.ColumnsShape` | UserLoginChecker/UserSearchService.cs:187 | a row laid out in columns, with an all-digit ID and padded gaps, is a match of the pattern with the columns as its groups |
| `QUserLine.MatchAtColumns` | UserLoginChecker/UserSearchService.cs:187 | at the first column of a laid-out row, the window takes the row's columns as its groups, whatever precedes the row |
| `QUserLine.ParseColumns` | UserLoginChecker/UserSearchService.cs:187-203 | layout and parse are inverse: a well-formed session printed in columns under leading whitespace parses back to exactly that session |
| `QUserLine.WindowBeforeRowFails` | UserLoginChecker/UserSearchService.cs:187 | the window starting at an extra word before a row reads the row's session name as its ID, so it fails when that name is not numeric |
| `QUserLine.SlidesPastWord` | UserLoginChecker/UserSearchService.cs:187-203 | matching is unanchored: if the window at the first word fails, the record is the row that starts at the next token |
| `UserSearchService.OutputLines` | UserLoginChecker/UserSearchService.cs:146-148 | every line kept is non-empty, holds no newline, and is one of the pieces of the split output |
| `UserSearchService.SessionLines` | UserLoginChecker/UserSearchService.cs:148 | `Skip(1)`: one line fewer, or none, and the kept lines are the input shifted by one |
| `UserSearchService.ParseAll` | UserLoginChecker/UserSearchService.cs:149-156 | at most one record per line |
| `UserSearchService.ParseAllSource` | UserLoginChecker/UserSearchService.cs:149-156 | every record is the parse of one of the input lines |
| `UserSearchService.ParseAllAppend` | UserLoginChecker/UserSearchService.cs:149-156 | parsing distributes over concatenation of line lists, so records keep output order |
| `UserSearchService.ParseAllKeeps` | UserLoginChecker/UserSearchService.cs:149-156 | every line that parses contributes its record |
| `UserSearchService.ParseAllOfParsed` | UserLoginChecker/UserSearchService.cs:149-156 | lines that each parse give exactly their records, in order |
| `UserSearchService.SessionsFromLines` | UserLoginChecker/UserSearchService.cs:146-156 | every session returned is well formed, has no computer name, and is the parse of a non-empty output line after the header |
| `UserSearchService.GetLoggedInUsers` | UserLoginChecker/UserSearchService.cs:145-183 | succeeds exactly when standard error is empty, with the records of the non-header lines; fails with access denied, message "Access denied to {host}. You must have administrative privileges.", exactly when standard error contains "Access is denied", and otherwise with a generic failure whose message is "Error querying {host}: " followed by standard error |
| `UserSearchService.SessionCountBound` | UserLoginChecker/UserSearchService.cs:146-156 | with empty standard error, the session count is at most the number of non-empty lines minus one |
| `UserSearchService.HeaderIsSkipped` | UserLoginChecker/UserSearchService.cs:146-156 | for a header plus rows, with or without a final newline, the lines read are exactly those, and the result is the parse of the rows alone, whatever the header says |
| `UserSearchService.ReadsPrintedTable` | UserLoginChecker/UserSearchService.cs:146-203 | end to end: sessions printed in columns under a header come back exactly, in order |
| `UserSearchService.ErrorOutputDiscardsSessions` | UserLoginChecker/UserSearchService.cs:159-168 | with non-empty standard error, the result does not depend on the output at all |
| `MainWindow.SelectedItem` | UserLoginChecker/MainWindow.xaml.cs:191 | there is a selected item exactly when the index lies inside the list, and it is one of the items |
| `MainWindow.LoadScopes` | UserLoginChecker/MainWindow.xaml.cs:84-91 | the list is the scopes in order followed by "All Computers", and the first item is selected |
| `MainWindow.HostSourceOf` | UserLoginChecker/MainWindow.xaml.cs:206-208 | the directory is swept exactly when the scope is "All Computers", and any other scope goes to the DHCP query under its own name |
| `MainWindow.LoadedScopeDispatch` | UserLoginChecker/MainWindow.xaml.cs:206-208 | after loading, the last entry sweeps every computer, and any other entry sweeps its own scope unless that scope is itself named "All Computers" |
| `MainWindow.SearchEnabled` | UserLoginChecker/MainWindow.xaml.cs:262-266 | the search button is enabled exactly when the trimmed user name is non-empty and a scope is selected; the contract states the two disabling directions |
| `MainWindow.LoadedFormFollowsUsername` | UserLoginChecker/MainWindow.xaml.cs:264-265 | once the scopes are loaded, search is enabled exactly when the trimmed user name is non-empty |
| `MainWindow.NoticeFor` | UserLoginChecker/MainWindow.xaml.cs:276-290 | only cancellation raises a warning, "The operation was canceled."; server-down and LDAP failures show their fixed error texts; access-denied and generic failures show "An unexpected error occurred: " with their message |
| `MainWindow.HandleException` | UserLoginChecker/MainWindow.xaml.cs:268-297 | every failure is swallowed and leaves the flag set; a notice, the one for the failure, is raised exactly when the flag was clear, and the inputs are cleared exactly then (assuming the log write succeeds, see "## Left out") |
| `MainWindow.AtMostOneNotice` | UserLoginChecker/MainWindow.xaml.cs:268-272 | with one flag, any number of failures raise at most one notice: the first failure's, or none if the flag was already set |
| `MainWindow.Stamp` | UserLoginChecker/MainWindow.xaml.cs:221-230 | the copy carries the host as its computer name and agrees with the original on every other field |
| `MainWindow.KeepAndStamp` | UserLoginChecker/MainWindow.xaml.cs:219-231 | no more sessions than the host reported; each one passes the filter and carries the host name |
| `MainWindow.KeepAndStampMembers` | UserLoginChecker/MainWindow.xaml.cs:219-231 | a session is kept exactly when some reported session passes the case-insensitive filter and stamps to it |
| `MainWindow.KeepAndStampAppend` | UserLoginChecker/MainWindow.xaml.cs:219-231 | filtering works session by session, so kept sessions stay in tool-output order |
| `MainWindow.GatheredSnoc` | UserLoginChecker/MainWindow.xaml.cs:219-241 | gathering works host by host: appending a host appends exactly its own matches |
| `MainWindow.Sweep` | UserLoginChecker/MainWindow.xaml.cs:213-246 | the progress counter never exceeds the number of hosts, and it reaches it exactly when the sweep did not halt |
| `MainWindow.SweepClosedForm` | UserLoginChecker/MainWindow.xaml.cs:213-248 | the sweep processes the hosts before the first one that halts it (cancellation seen, or probe failed), halts there for that reason, and shows the matches of exactly the processed hosts, host by host in order |
| `MainWindow.NoProbeAfterCancel` | UserLoginChecker/MainWindow.xaml.cs:213-217 | with cancellation requested before host c, no probe is started for host c or later, and at most c hosts are processed |
| `MainWindow.GatheredSource` | UserLoginChecker/MainWindow.xaml.cs:219-241 | every gathered session passes the filter and carries the name of one of the hosts |
| `MainWindow.SweepShowsOnlyMatches` | UserLoginChecker/MainWindow.xaml.cs:219-241 | every session a sweep shows passes the filter and is stamped with a processed host |
| `MainWindow.Search` | UserLoginChecker/MainWindow.xaml.cs:182-248 | an empty trimmed filter warns "Please enter a username." and leaves the results untouched; the request runs exactly when search is enabled; a failing host list clears the results and raises its notice without processing any host |
| `MainWindow.SearchShowsSweep` | UserLoginChecker/MainWindow.xaml.cs:195-248 | a running search shows the matches of the hosts before the first halting one, and raises a notice exactly when it halted, the one for that host's reason |
| `MainWindow.Summary` | UserLoginChecker/MainWindow.xaml.cs:330-351 | with users, the line starts with "Users are logged into {host}: " (what follows is read back by `SummaryListsUsernames`); with none, it is the no-users sentence |
| `MainWindow.BuildSummary` | UserLoginChecker/MainWindow.xaml.cs:330-352 | the `StringBuilder` loop produces the summary: the names separated by ", " after the lead, or the no-users sentence |
| `MainWindow.SummaryListsUsernames` | UserLoginChecker/MainWindow.xaml.cs:330-344 | the summary reads back: after the lead, the text splits on ", " into exactly the user names, in order |
| `MainWindow.CheckComputer` | UserLoginChecker/MainWindow.xaml.cs:163-178 | an empty trimmed name warns "Please enter a computer name." and starts no probe; a report is produced exactly when the probe of the trimmed name succeeds, and it is that host's summary |
| `Utility.SystemCandidates` | UserLoginChecker/Utility.cs:11-15 | exactly three candidates, in the order tried: the System folder, `Windows\sysnative`, the SystemX86 folder, each combined with "quser.exe" |
| `Utility.PathCandidates` | UserLoginChecker/Utility.cs:22-24 | one candidate per `;`-separated `PATH` entry, empty entries included, each joined with "quser.exe", in order |
| `Utility.FindQuserPath` | UserLoginChecker/Utility.cs:9-29 | returns the first existing system candidate; only when none exists is `PATH` read, and then it returns the first existing entry candidate or the not-found error; an unset `PATH` is its own error |
| `Utility.FirstHitOrNone` | UserLoginChecker/Utility.cs:17-28 | every candidate list has a first existing candidate or none at all, so the search's result is always determined |

## Left out

- Process spawning and stream reading (`Process.Start`, `ReadToEnd`). Standard output and standard error are inputs.
- UserSearchService.GetLoggedInUsers: does not model an exception raised while starting the process. Such an exception would be wrapped as "Error querying {host}: {message}", or rethrown as access denied. It is left out because it comes from the process layer.
- The host-list providers: the Active Directory `DirectorySearcher`, the PowerShell `Get-DhcpServerv4Lease` script and `GetDhcpScopes`. They are foreign calls and appear only as a provider function returning hosts or a failure.
- MainWindow.LoadScopes: takes the scope list as given. An exception from `GetDhcpScopes` escapes the `Loaded` handler and is not modelled.
- WPF: the dispatcher, message-box captions, the progress bar, the "n of m" progress text, focus, and the Search/Cancel relabelling. A notice models which message box appears and its text.
- Concurrency and timers: `Task.Run`, `async` handlers, and the timeout of the `CancellationTokenSource`. Cancellation is a host index before which it has been requested.
- MainWindow.Search: does not model the outer `catch (OperationCanceledException)` ("Search was canceled."). With the log write succeeding, that path is reached only when the token fires before `Task.Run` starts its body, which is a matter of timing. When the log write fails, a cancellation inside the loop also reaches it (see the logging line below).
- `ValidateDhcpServer` (`IPAddress.TryParse`) and the `int.TryParse` of the timeout setting. These are library parsing.
- MainWindow.HandleException: assumes `Utility.LogError` returns normally. When it throws, the failure is not swallowed; this is effect (b) in the logging line below.
- UserSearchService.GetLoggedInUsers: assumes `Utility.LogError` returns normally. When it throws, its exception replaces the "Error querying" one; this is effect (a) in the logging line below.
- Logging (`Utility.LogError`, `LogErrors`). The model assumes the append to "UserLoginCheckerErrorLog.txt" always succeeds. When it fails, `LogError` throws "Failed to write to log file: …" (UserLoginChecker/Utility.cs:33-44), with two effects the model does not show:
  - (a) in the generic catch of `GetLoggedInUsers` (UserLoginChecker/UserSearchService.cs:176-180) that exception replaces "Error querying {host}: …";
  - (b) `HandleException` runs inside the `catch … when` filter (UserLoginChecker/MainWindow.xaml.cs:248) and logs at its end. An exception thrown in a filter makes the filter false. The message box has already been shown, but the failure is not swallowed: a probe or host-list failure escapes the search, and a cancellation reaches the outer "Search was canceled." catch.
- `DisplayErrorSummary`, which is dead: `errorMessages` is cleared but never filled.
- QUserLine.ParseQUserLine: `\d` is modelled as the ASCII digits. .NET's `\d` also accepts other Unicode decimal digits.
- `String.Trim` and `Char.ToLowerInvariant` are parameters.
- Utility.FindQuserPath: `Path.Combine` is a parameter, so its `ArgumentException` on invalid path characters is not modelled. The three-part `Path.Combine` is taken to be the two-part one applied twice.
- MainWindow.CheckComputer: a failing probe escapes the handler as an unhandled exception (`Unhandled`). What the runtime then does is not modelled.
