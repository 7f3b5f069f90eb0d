/** How `UserSearchService.GetLoggedInUsers` reads what quser printed.

    The process itself is not modelled: its standard output and standard
    error arrive as strings, and `Environment.NewLine` as a parameter. The
    output is cut into lines, empty lines are dropped, the first remaining
    line (the column header) is skipped, every other line goes through
    `ParseQUserLine`, and anything on standard error turns the whole call
    into an exception. The exit code is never looked at. */
module UserSearchService {
  import opened Outcomes
  import opened Text
  import opened Sessions
  import opened QUserLine

  /** The text whose presence on standard error means access was refused. */
  const AccessDeniedMarker: string := "Access is denied"

  /** The message of the access-denied exception, around the host name. */
  const AccessDeniedLead: string := "Access denied to "
  const AccessDeniedTail: string := ". You must have administrative privileges."

  /** The lead of the message of any other query failure. */
  const QueryErrorLead: string := "Error querying "

  /** The non-empty lines of the tool's output, in order: an empty output
      is skipped outright, any other is split on the newline with empty
      entries removed. */
  function OutputLines(output: string, newline: string): (r: seq<string>)
    requires |newline| > 0
    ensures forall k :: 0 <= k < |r| ==> r[k] != [] && !Contains(r[k], newline) && r[k] in Split(output, newline)
  {
    SplitPiecesFree(output, newline);
    if output == [] then [] else RemoveEmpty(Split(output, newline))
  }

  /** `Skip(1)`: every line but the header. */
  function SessionLines(lines: seq<string>): (r: seq<string>)
    ensures |r| == if lines == [] then 0 else |lines| - 1
    ensures forall k :: 0 <= k < |r| ==> r[k] == lines[k + 1]
  {
    if lines == [] then [] else lines[1..]
  }

  /** The records of the lines that parse, in line order; lines that do
      not parse are dropped without a trace. The line parser is a
      parameter so that the properties of this loop stand apart from those
      of the pattern; the service passes `ParseQUserLine`. */
  function ParseAll(lines: seq<string>, parse: string -> Option<UserSession>): (r: seq<UserSession>)
    ensures |r| <= |lines|
    decreases |lines|
  {
    if lines == [] then []
    else match parse(lines[0])
      case None => ParseAll(lines[1..], parse)
      case Some(s) => [s] + ParseAll(lines[1..], parse)
  }

  /** `GetLoggedInUsers` once the process has finished. */
  function GetLoggedInUsers(computerName: string, output: string, errorOutput: string, newline: string)
    : (r: Result<seq<UserSession>, Fault>)
    requires |newline| > 0
    ensures r.Success? <==> errorOutput == []
    ensures r.Success? ==> r.value == ParseAll(SessionLines(OutputLines(output, newline)), ParseQUserLine)
    ensures r.Success? ==> |r.value| <= |SessionLines(OutputLines(output, newline))|
    ensures r.Failure? && r.error.AccessDenied? <==> errorOutput != [] && Contains(errorOutput, AccessDeniedMarker)
    ensures r.Failure? ==> r.error.AccessDenied? || r.error.Failed?
    ensures r.Failure? && r.error.AccessDenied? ==> r.error.message == AccessDeniedLead + computerName + AccessDeniedTail
    ensures r.Failure? && r.error.Failed? ==> r.error.message == QueryErrorLead + computerName + ": " + errorOutput
  {
    var sessions := if output == [] then [] else ParseAll(SessionLines(OutputLines(output, newline)), ParseQUserLine);
    if errorOutput != [] then
      if Contains(errorOutput, AccessDeniedMarker) then
        Failure(AccessDenied(AccessDeniedLead + computerName + AccessDeniedTail))
      else
        Failure(Failed(QueryErrorLead + computerName + ": " + errorOutput))
    else Success(sessions)
  }

  // ---------------------------------------------------------------------
  // Properties

  /** Parsing distributes over concatenation of line lists: each line
      contributes its own record or nothing, in order. */
  lemma {:induction false} ParseAllAppend(a: seq<string>, b: seq<string>, parse: string -> Option<UserSession>)
    ensures ParseAll(a + b, parse) == ParseAll(a, parse) + ParseAll(b, parse)
    decreases |a|
  {
    if a == [] {
      assert a + b == b;
    } else {
      assert (a + b)[0] == a[0];
      assert (a + b)[1..] == a[1..] + b;
      ParseAllAppend(a[1..], b, parse);
    }
  }

  /** Every record comes from one of the lines. */
  lemma {:induction false} ParseAllSource(lines: seq<string>, parse: string -> Option<UserSession>,
                                          x: UserSession) returns (j: nat)
    requires x in ParseAll(lines, parse)
    ensures j < |lines| && parse(lines[j]) == Some(x)
    decreases |lines|
  {
    if parse(lines[0]) == Some(x) {
      j := 0;
    } else {
      assert x in ParseAll(lines[1..], parse);
      var i := ParseAllSource(lines[1..], parse, x);
      assert lines[1..][i] == lines[i + 1];
      j := i + 1;
    }
  }

  /** Every line that parses contributes its record. */
  lemma {:induction false} ParseAllKeeps(lines: seq<string>, parse: string -> Option<UserSession>, j: nat)
    requires j < |lines| && parse(lines[j]).Some?
    ensures parse(lines[j]).value in ParseAll(lines, parse)
    decreases |lines|
  {
    if j > 0 {
      ParseAllKeeps(lines[1..], parse, j - 1);
      assert lines[1..][j - 1] == lines[j];
    }
  }

  /** Lines that each parse give their records in order. */
  lemma {:induction false} ParseAllOfParsed(lines: seq<string>, parse: string -> Option<UserSession>,
                                            rows: seq<UserSession>)
    requires |lines| == |rows|
    requires forall k :: 0 <= k < |lines| ==> parse(lines[k]) == Some(rows[k])
    ensures ParseAll(lines, parse) == rows
    decreases |lines|
  {
    if lines != [] {
      forall k | 0 <= k < |lines[1..]| ensures parse(lines[1..][k]) == Some(rows[1..][k]) {
        assert lines[1..][k] == lines[k + 1];
      }
      ParseAllOfParsed(lines[1..], parse, rows[1..]);
      assert rows == [rows[0]] + rows[1..];
    }
  }

  /** Every session the service returns is well formed and has no computer
      name, and is the parse of a line after the header. */
  lemma SessionsFromLines(computerName: string, output: string, newline: string, x: UserSession)
    requires |newline| > 0
    requires var r := GetLoggedInUsers(computerName, output, [], newline); x in r.value
    ensures WellFormedRow(x)
    ensures var lines := OutputLines(output, newline);
            exists j :: 1 <= j < |lines| && ParseQUserLine(lines[j]) == Some(x)
  {
    var lines := OutputLines(output, newline);
    var j := ParseAllSource(SessionLines(lines), ParseQUserLine, x);
    assert SessionLines(lines)[j] == lines[j + 1];
  }

  /** The count of sessions is bounded by the non-empty lines after the
      header. */
  lemma SessionCountBound(computerName: string, output: string, newline: string)
    requires |newline| > 0
    ensures var r := GetLoggedInUsers(computerName, output, [], newline);
            var lines := OutputLines(output, newline);
            r.Success? && (lines == [] ==> r.value == [])
            && (lines != [] ==> |r.value| <= |lines| - 1)
  {
  }

  /** A table quser printed: a header line and one line per session, each
      ended by the newline or the last one not. The header is never read as
      a session, whatever it says, and the result is the parse of the
      remaining lines in order. */
  lemma {:induction false} HeaderIsSkipped(computerName: string, header: string, rows: seq<string>,
                                           newline: string, trailing: bool)
    requires |newline| > 0
    requires header != [] && Separated(header, newline)
    requires forall k :: 0 <= k < |rows| ==> rows[k] != [] && Separated(rows[k], newline)
    ensures var printed := Join([header] + rows, newline) + (if trailing then newline else []);
            OutputLines(printed, newline) == [header] + rows
            && GetLoggedInUsers(computerName, printed, [], newline) == Success(ParseAll(rows, ParseQUserLine))
  {
    var lines := [header] + rows;
    var printed := Join(lines, newline) + (if trailing then newline else []);
    assert forall k :: 0 <= k < |lines| ==> lines[k] != [] && Separated(lines[k], newline) by {
      forall k | 0 <= k < |lines| ensures lines[k] != [] && Separated(lines[k], newline) {
        if k > 0 { assert lines[k] == rows[k - 1]; }
      }
    }
    RemoveEmptyKeepsNonEmpty(lines);
    if trailing {
      var padded := lines + [[]];
      JoinSnoc(lines, [], newline);
      assert Join(padded, newline) == printed;
      assert forall k :: 0 <= k < |padded| ==> Separated(padded[k], newline) by {
        forall k | 0 <= k < |padded| ensures Separated(padded[k], newline) {
          if k < |lines| {
            assert padded[k] == lines[k];
          } else {
            assert padded[k] == [];
            assert [] + newline == newline;
          }
        }
      }
      SplitJoin(padded, newline);
      RemoveEmptyAppend(lines, [[]]);
      assert RemoveEmpty([[]]) == [];
      assert OutputLines(printed, newline) == lines;
    } else {
      assert printed == Join(lines, newline);
      SplitJoin(lines, newline);
      assert OutputLines(printed, newline) == lines;
    }
    assert printed != [] by { assert |Join(lines, newline)| >= |header| by { JoinPrefix(header, rows, newline); } }
    assert SessionLines(lines) == rows;
  }

  /** The joined lines start with the first one. */
  lemma JoinPrefix(x: string, ys: seq<string>, sep: string)
    ensures x <= Join([x] + ys, sep)
  {
    if ys != [] {
      JoinCons(x, ys, sep);
    }
  }

  /** End to end: sessions laid out in quser's columns under a header are
      read back exactly, in order, each with its computer name unset. */
  lemma {:induction false} ReadsPrintedTable(computerName: string, header: string, rows: seq<UserSession>,
                                             lead: seq<string>, gaps: seq<seq<string>>, newline: string)
    requires |newline| > 0
    requires header != [] && Separated(header, newline)
    requires |lead| == |rows| == |gaps|
    requires forall k :: 0 <= k < |rows| ==> |gaps[k]| == 5 && Padding(lead[k])
    requires forall k :: 0 <= k < |rows| ==> forall i :: 0 <= i < 5 ==> gaps[k][i] != [] && Padding(gaps[k][i])
    requires forall k :: 0 <= k < |rows| ==> WellFormedRow(rows[k]) && !IsWhiteSpace(rows[k].logonTime[0])
    requires forall k :: 0 <= k < |rows| ==> Separated(Columns(lead[k], rows[k], gaps[k]), newline)
    ensures var lines := seq(|rows|, k requires 0 <= k < |rows| => Columns(lead[k], rows[k], gaps[k]));
            GetLoggedInUsers(computerName, Join([header] + lines, newline) + newline, [], newline) == Success(rows)
  {
    var lines := seq(|rows|, k requires 0 <= k < |rows| => Columns(lead[k], rows[k], gaps[k]));
    forall k | 0 <= k < |rows| ensures ParseQUserLine(lines[k]) == Some(rows[k]) && lines[k] != [] {
      ParseColumns(lead[k], rows[k], gaps[k]);
    }
    HeaderIsSkipped(computerName, header, lines, newline, true);
    ParseAllOfParsed(lines, ParseQUserLine, rows);
  }

  /** Anything on standard error discards the parsed sessions, whatever
      the output held. */
  lemma ErrorOutputDiscardsSessions(computerName: string, output1: string, output2: string,
                                    errorOutput: string, newline: string)
    requires |newline| > 0 && errorOutput != []
    ensures GetLoggedInUsers(computerName, output1, errorOutput, newline)
         == GetLoggedInUsers(computerName, output2, errorOutput, newline)
  {
  }
}
