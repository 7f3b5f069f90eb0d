/** What the quser line pattern of UserSearchService means.

    The pattern is

        \s*(?<USERNAME>\S+)\s+(?<SESSIONNAME>\S+)\s+(?<ID>\d+)\s+(?<STATE>\S+)\s+(?<IDLE>\S+)\s+(?<LOGONTIME>.+)

    used with `Regex.Match`: unanchored, so the engine tries start positions
    left to right, and at each one a backtracking search in which every
    quantifier is greedy. For a pattern that is a plain concatenation of
    quantified character classes, that search returns, among the matches at
    the first start that has any, the one whose quantifier counts are
    lexicographically largest.

    `Shape` states when a choice of group boundaries is a match of the
    pattern; `LeftmostGreedy` states which of the matches the engine
    reports. `Match` computes it by scanning whitespace-separated tokens,
    and `MatchIsLeftmostGreedy` proves the two agree. */
module QUserLine {
  import opened Outcomes
  import opened Text
  import opened Sessions

  /** The six capture groups as half-open index ranges of the line. */
  datatype Groups = Groups(
    user: nat, userEnd: nat,
    session: nat, sessionEnd: nat,
    id: nat, idEnd: nat,
    state: nat, stateEnd: nat,
    idle: nat, idleEnd: nat,
    logon: nat, logonEnd: nat)

  /** `s[lo..hi]` is all whitespace (a run of `\s`). */
  predicate Blank(s: string, lo: nat, hi: nat) {
    hi <= |s| && forall i :: lo <= i < hi ==> IsWhiteSpace(s[i])
  }

  /** `s[lo..hi]` has no whitespace (a run of `\S`). */
  predicate Solid(s: string, lo: nat, hi: nat) {
    hi <= |s| && forall i :: lo <= i < hi ==> !IsWhiteSpace(s[i])
  }

  /** `s[lo..hi]` is all decimal digits (a run of `\d`). */
  predicate Numeric(s: string, lo: nat, hi: nat) {
    hi <= |s| && forall i :: lo <= i < hi ==> IsDigit(s[i])
  }

  /** `s[lo..hi]` has no line feed (a run of `.`). */
  predicate OnOneLine(s: string, lo: nat, hi: nat) {
    hi <= |s| && forall i :: lo <= i < hi ==> s[i] != '\n'
  }

  /** The pattern matches `s` with these group boundaries: every group and
      every `\s+` between two groups is a non-empty run of its class. The
      leading `\s*` only decides where the match starts, which the unanchored
      search leaves free. */
  predicate Shape(s: string, g: Groups) {
    && g.user < g.userEnd < g.session < g.sessionEnd < g.id < g.idEnd
       < g.state < g.stateEnd < g.idle < g.idleEnd < g.logon < g.logonEnd <= |s|
    && Solid(s, g.user, g.userEnd) && Blank(s, g.userEnd, g.session)
    && Solid(s, g.session, g.sessionEnd) && Blank(s, g.sessionEnd, g.id)
    && Numeric(s, g.id, g.idEnd) && Blank(s, g.idEnd, g.state)
    && Solid(s, g.state, g.stateEnd) && Blank(s, g.stateEnd, g.idle)
    && Solid(s, g.idle, g.idleEnd) && Blank(s, g.idleEnd, g.logon)
    && OnOneLine(s, g.logon, g.logonEnd)
  }

  /** The same token boundaries for the five whitespace-free groups. */
  predicate SameTokens(a: Groups, b: Groups) {
    && a.userEnd == b.userEnd && a.session == b.session && a.sessionEnd == b.sessionEnd
    && a.id == b.id && a.idEnd == b.idEnd && a.state == b.state && a.stateEnd == b.stateEnd
    && a.idle == b.idle && a.idleEnd == b.idleEnd
  }

  /** `a` is reported in preference to `b`: it starts further left, or it
      starts at the same place and its quantifier counts are at least as
      large, read left to right. (At a fixed start every boundary up to IDLE
      is forced, so only the `\s+` before LOGONTIME, which a longer run makes
      LOGONTIME start later, and LOGONTIME's own length remain.) */
  predicate Precedes(a: Groups, b: Groups) {
    || a.user < b.user
    || (&& a.user == b.user && SameTokens(a, b)
        && (b.logon < a.logon || (b.logon == a.logon && b.logonEnd <= a.logonEnd)))
  }

  /** The match `Regex.Match` reports. */
  ghost predicate LeftmostGreedy(s: string, g: Groups) {
    Shape(s, g) && forall h :: Shape(s, h) ==> Precedes(g, h)
  }

  // ---------------------------------------------------------------------
  // Scanning

  /** The end of the whitespace run starting at `i`. */
  function SkipBlank(s: string, i: nat): (j: nat)
    requires i <= |s|
    ensures i <= j && Blank(s, i, j)
    ensures j < |s| ==> !IsWhiteSpace(s[j])
    decreases |s| - i
  {
    if i < |s| && IsWhiteSpace(s[i]) then SkipBlank(s, i + 1) else i
  }

  /** The end of the whitespace-free run starting at `i`. */
  function SkipSolid(s: string, i: nat): (j: nat)
    requires i <= |s|
    ensures i <= j && Solid(s, i, j)
    ensures j < |s| ==> IsWhiteSpace(s[j])
    decreases |s| - i
  {
    if i < |s| && !IsWhiteSpace(s[i]) then SkipSolid(s, i + 1) else i
  }

  /** The first line feed at or after `i`, or the end of the line. */
  function LineEnd(s: string, i: nat): (j: nat)
    requires i <= |s|
    ensures i <= j && OnOneLine(s, i, j)
    ensures j < |s| ==> s[j] == '\n'
    decreases |s| - i
  {
    if i < |s| && s[i] != '\n' then LineEnd(s, i + 1) else i
  }

  /** Where `.+` can start after IDLE: the greedy `\s+` gives back one
      character at a time from the end of the whitespace run `s[lo..hi]`
      until `.` can match the next one. */
  function LogonStart(s: string, lo: nat, hi: nat): (r: Option<nat>)
    requires lo <= hi <= |s|
    ensures r.Some? ==> lo < r.value <= hi && r.value < |s| && s[r.value] != '\n'
    ensures r.Some? ==> forall j :: r.value < j <= hi && j < |s| ==> s[j] == '\n'
    ensures r.None? ==> forall j :: lo < j <= hi && j < |s| ==> s[j] == '\n'
    decreases hi - lo
  {
    if hi == lo then None
    else if hi < |s| && s[hi] != '\n' then Some(hi)
    else LogonStart(s, lo, hi - 1)
  }

  lemma SkipBlankStopsAt(s: string, i: nat, j: nat)
    requires i <= j <= |s| && Blank(s, i, j) && (j < |s| ==> !IsWhiteSpace(s[j]))
    ensures SkipBlank(s, i) == j
  {
  }

  lemma SkipSolidStopsAt(s: string, i: nat, j: nat)
    requires i <= j <= |s| && Solid(s, i, j) && (j < |s| ==> IsWhiteSpace(s[j]))
    ensures SkipSolid(s, i) == j
  {
  }

  /** The match whose USERNAME starts at `u`, if there is one: each group
      after USERNAME starts where the whitespace after the previous one
      ends, and ends at the next whitespace. */
  function MatchAt(s: string, u: nat): (r: Option<Groups>)
    requires u <= |s|
    ensures r.Some? ==> Shape(s, r.value) && r.value.user == u
    ensures r.Some? ==> r.value.logon <= SkipBlank(s, r.value.idleEnd)
  {
    if u == |s| || IsWhiteSpace(s[u]) then None
    else
      var userEnd := SkipSolid(s, u);
      var session := SkipBlank(s, userEnd);
      if session == userEnd || session == |s| then None
      else
        var sessionEnd := SkipSolid(s, session);
        var id := SkipBlank(s, sessionEnd);
        if id == sessionEnd || id == |s| then None
        else
          var idEnd := SkipSolid(s, id);
          if !Numeric(s, id, idEnd) then None
          else
            var state := SkipBlank(s, idEnd);
            if state == idEnd || state == |s| then None
            else
              var stateEnd := SkipSolid(s, state);
              var idle := SkipBlank(s, stateEnd);
              if idle == stateEnd || idle == |s| then None
              else
                var idleEnd := SkipSolid(s, idle);
                match LogonStart(s, idleEnd, SkipBlank(s, idleEnd))
                case None => None
                case Some(logon) =>
                  Some(Groups(u, userEnd, session, sessionEnd, id, idEnd,
                              state, stateEnd, idle, idleEnd, logon, LineEnd(s, logon)))
  }

  /** The first match whose USERNAME starts at or after `i`: try the token
      that starts there, then the following tokens in turn. */
  function FirstMatchFrom(s: string, i: nat): (r: Option<Groups>)
    requires i <= |s|
    ensures r.Some? ==> Shape(s, r.value) && i <= r.value.user
    decreases |s| - i
  {
    var u := SkipBlank(s, i);
    if u == |s| then None
    else match MatchAt(s, u)
      case Some(g) => Some(g)
      case None =>
        var next := SkipSolid(s, u);
        assert next > u;
        FirstMatchFrom(s, next)
  }

  /** `QUserLineRegex.Match`: the first match found scanning from the
      start of the line. */
  function Match(s: string): (r: Option<Groups>)
    ensures r.Some? ==> Shape(s, r.value)
  {
    FirstMatchFrom(s, 0)
  }

  // ---------------------------------------------------------------------
  // The scan finds the reported match

  /** Scanning from inside USERNAME of a match finds that match's token
      boundaries up to IDLE. */
  lemma CoversTokens(s: string, u: nat, g: Groups)
    requires Shape(s, g) && u <= g.user && Solid(s, u, g.user)
    ensures && SkipSolid(s, u) == g.userEnd && SkipBlank(s, g.userEnd) == g.session
            && SkipSolid(s, g.session) == g.sessionEnd && SkipBlank(s, g.sessionEnd) == g.id
            && SkipSolid(s, g.id) == g.idEnd && SkipBlank(s, g.idEnd) == g.state
            && SkipSolid(s, g.state) == g.stateEnd && SkipBlank(s, g.stateEnd) == g.idle
            && SkipSolid(s, g.idle) == g.idleEnd
  {
    assert Solid(s, u, g.userEnd);
    SkipSolidStopsAt(s, u, g.userEnd);
    SkipBlankStopsAt(s, g.userEnd, g.session);
    SkipSolidStopsAt(s, g.session, g.sessionEnd);
    SkipBlankStopsAt(s, g.sessionEnd, g.id);
    assert Solid(s, g.id, g.idEnd);
    SkipSolidStopsAt(s, g.id, g.idEnd);
    SkipBlankStopsAt(s, g.idEnd, g.state);
    SkipSolidStopsAt(s, g.state, g.stateEnd);
    SkipBlankStopsAt(s, g.stateEnd, g.idle);
    SkipSolidStopsAt(s, g.idle, g.idleEnd);
  }

  /** After a match's IDLE the scan finds a LOGONTIME start no further left
      than the match's, and from the same start a LOGONTIME at least as
      long. */
  lemma CoversLogon(s: string, g: Groups)
    requires Shape(s, g)
    ensures var start := LogonStart(s, g.idleEnd, SkipBlank(s, g.idleEnd));
            && start.Some? && g.logon <= start.value
            && (start.value == g.logon ==> g.logonEnd <= LineEnd(s, g.logon))
  {
    var gap := SkipBlank(s, g.idleEnd);
    assert g.logon <= gap by {
      assert (g.logon < |s| && !IsWhiteSpace(s[g.logon])) || g.logon <= gap;
    }
    assert s[g.logon] != '\n';
    var start := LogonStart(s, g.idleEnd, gap);
    assert start.Some? && g.logon <= start.value;
    if start.value == g.logon {
      var e := LineEnd(s, g.logon);
      assert g.logonEnd <= e by {
        assert e < |s| ==> s[e] == '\n';
      }
    }
  }

  /** Any match whose USERNAME starts inside the token beginning at `u`
      forces the match `MatchAt(s, u)` to exist, with the same token
      boundaries and a LOGONTIME at least as far right and as long. */
  lemma MatchAtCovers(s: string, u: nat, g: Groups)
    requires Shape(s, g) && u <= g.user
    ensures Solid(s, u, g.user) ==>
              MatchAt(s, u).Some? && MatchAt(s, u).value.user == u
              && SameTokens(MatchAt(s, u).value, g)
              && g.logon <= MatchAt(s, u).value.logon
              && (g.logon == MatchAt(s, u).value.logon ==> g.logonEnd <= MatchAt(s, u).value.logonEnd)
  {
    if Solid(s, u, g.user) {
      CoversTokens(s, u, g);
      CoversLogon(s, g);
    }
  }

  lemma FirstMatchFromIsLeftmost(s: string, i: nat, g: Groups)
    requires Shape(s, g) && i <= g.user
    ensures FirstMatchFrom(s, i).Some? && Precedes(FirstMatchFrom(s, i).value, g)
    decreases |s| - i
  {
    var u := SkipBlank(s, i);
    assert !IsWhiteSpace(s[g.user]);
    assert u <= g.user;
    MatchAtCovers(s, u, g);
    match MatchAt(s, u)
    case Some(m) =>
    case None =>
      var next := SkipSolid(s, u);
      assert !Solid(s, u, g.user);
      assert next <= g.user;
      FirstMatchFromIsLeftmost(s, next, g);
  }

  lemma PrecedesAntisymmetric(a: Groups, b: Groups)
    requires Precedes(a, b) && Precedes(b, a)
    ensures a == b
  {
  }

  /** The scan reports exactly the match `Regex.Match` reports. */
  lemma MatchIsLeftmostGreedy(s: string, g: Groups)
    ensures Match(s) == Some(g) <==> LeftmostGreedy(s, g)
  {
    if Match(s) == Some(g) {
      forall h | Shape(s, h) ensures Precedes(g, h) {
        FirstMatchFromIsLeftmost(s, 0, h);
      }
    }
    if LeftmostGreedy(s, g) {
      FirstMatchFromIsLeftmost(s, 0, g);
      var m := Match(s).value;
      assert Shape(s, m);
      PrecedesAntisymmetric(m, g);
    }
  }

  /** The scan finds nothing exactly when the pattern has no match. */
  lemma MatchNoneIffNoShape(s: string)
    ensures Match(s).None? <==> forall h :: !Shape(s, h)
  {
    forall h | Shape(s, h) ensures Match(s).Some? {
      FirstMatchFromIsLeftmost(s, 0, h);
    }
  }

  // ---------------------------------------------------------------------
  // The parsed record

  /** The fields the pattern guarantees of a parsed session. */
  predicate WellFormedRow(r: UserSession) {
    && r.username != [] && NoWhiteSpace(r.username)
    && r.sessionName != [] && NoWhiteSpace(r.sessionName)
    && r.id != [] && AllDigits(r.id)
    && r.state != [] && NoWhiteSpace(r.state)
    && r.idleTime != [] && NoWhiteSpace(r.idleTime)
    && r.logonTime != [] && '\n' !in r.logonTime
    && r.computerName == None
  }

  /** The record built from the capture groups; ComputerName is left unset. */
  function Record(s: string, g: Groups): (r: UserSession)
    requires Shape(s, g)
    ensures WellFormedRow(r)
  {
    UserSession(s[g.user..g.userEnd], s[g.session..g.sessionEnd], s[g.id..g.idEnd],
                s[g.state..g.stateEnd], s[g.idle..g.idleEnd], s[g.logon..g.logonEnd], None)
  }

  /** `ParseQUserLine`: the record of the reported match, if any. */
  function ParseQUserLine(line: string): (r: Option<UserSession>)
    ensures r.Some? ==> WellFormedRow(r.value)
  {
    match Match(line)
    case None => None
    case Some(g) => Some(Record(line, g))
  }

  /** A line yields a record exactly when the pattern matches it. */
  lemma ParseQUserLineIffShape(line: string)
    ensures ParseQUserLine(line).Some? <==> exists g :: Shape(line, g)
  {
    MatchNoneIffNoShape(line);
  }

  /** USERNAME is a whole token: the reported match never starts inside one,
      since starting at the token's first character is tried first. */
  lemma {:induction false} UsernameIsWholeToken(s: string, g: Groups)
    requires Match(s) == Some(g)
    ensures g.user == 0 || IsWhiteSpace(s[g.user - 1])
  {
    MatchIsLeftmostGreedy(s, g);
    var earlier := g.(user := if g.user > 0 then g.user - 1 else 0);
    assert Shape(s, earlier) ==> Precedes(g, earlier);
  }

  /** LOGONTIME runs to the end of the line or up to a line feed. */
  lemma {:induction false} LogonRunsToLineEnd(s: string, g: Groups)
    requires Match(s) == Some(g)
    ensures g.logonEnd == |s| || s[g.logonEnd] == '\n'
  {
    MatchIsLeftmostGreedy(s, g);
    var longer := g.(logonEnd := if g.logonEnd < |s| then g.logonEnd + 1 else g.logonEnd);
    assert Shape(s, longer) ==> Precedes(g, longer);
  }

  /** When a non-whitespace character follows the whitespace after IDLE,
      LOGONTIME starts at it: the greedy `\s+` gives nothing back. */
  lemma {:induction false} LogonStartsAtNextToken(s: string, g: Groups)
    requires Match(s) == Some(g)
    ensures SkipBlank(s, g.idleEnd) < |s| ==> g.logon == SkipBlank(s, g.idleEnd)
  {
    MatchIsLeftmostGreedy(s, g);
    var w := SkipBlank(s, g.idleEnd);
    if w < |s| {
      assert g.logon <= w;
      var later := g.(logon := w, logonEnd := LineEnd(s, w));
      assert Shape(s, later);
      assert Precedes(g, later);
    }
  }

  /** On a line without line feeds, LOGONTIME is a non-empty suffix of the
      line, internal spacing kept. */
  lemma {:induction false} LogonIsSuffix(line: string)
    requires '\n' !in line && ParseQUserLine(line).Some?
    ensures var t := ParseQUserLine(line).value.logonTime;
            0 < |t| <= |line| && t == line[|line| - |t|..]
  {
    var g := Match(line).value;
    LogonRunsToLineEnd(line, g);
    assert g.logonEnd == |line|;
  }

  // ---------------------------------------------------------------------
  // A row laid out in columns parses back to its fields

  /** A non-empty whitespace-free field. */
  predicate Word(x: string) {
    x != [] && NoWhiteSpace(x)
  }

  /** The line quser prints for one session: optional leading padding, the
      five whitespace-free columns and the logon time, each gap padded. */
  function Columns(lead: string, r: UserSession, gaps: seq<string>): string
    requires |gaps| == 5
  {
    lead + r.username + gaps[0] + r.sessionName + gaps[1] + r.id + gaps[2]
    + r.state + gaps[3] + r.idleTime + gaps[4] + r.logonTime
  }

  lemma SliceBlank(s: string, lo: nat, x: string)
    requires lo + |x| <= |s| && s[lo..lo + |x|] == x && Padding(x)
    ensures Blank(s, lo, lo + |x|)
  {
    forall i | lo <= i < lo + |x| ensures IsWhiteSpace(s[i]) {
      assert s[i] == x[i - lo];
    }
  }

  lemma SliceSolid(s: string, lo: nat, x: string)
    requires lo + |x| <= |s| && s[lo..lo + |x|] == x && NoWhiteSpace(x)
    ensures Solid(s, lo, lo + |x|)
  {
    forall i | lo <= i < lo + |x| ensures !IsWhiteSpace(s[i]) {
      assert s[i] == x[i - lo];
    }
  }

  lemma SliceNumeric(s: string, lo: nat, x: string)
    requires lo + |x| <= |s| && s[lo..lo + |x|] == x && AllDigits(x)
    ensures Numeric(s, lo, lo + |x|)
  {
    forall i | lo <= i < lo + |x| ensures IsDigit(s[i]) {
      assert s[i] == x[i - lo];
    }
  }

  lemma SliceOneLine(s: string, lo: nat, x: string)
    requires lo + |x| <= |s| && s[lo..lo + |x|] == x && '\n' !in x
    ensures OnOneLine(s, lo, lo + |x|)
  {
    forall i | lo <= i < lo + |x| ensures s[i] != '\n' {
      assert s[i] == x[i - lo];
    }
  }

  /** A line that starts with `p + x` starts with `p`, and `x` follows it. */
  lemma Peel(line: string, p: string, x: string)
    requires |p| + |x| <= |line| && line[..|p| + |x|] == p + x
    ensures line[..|p|] == p && line[|p|..|p| + |x|] == x
  {
    assert line[..|p|] == (p + x)[..|p|];
    assert line[|p|..|p| + |x|] == (p + x)[|p|..];
  }

  /** The group boundaries of a row laid out by `Columns`. */
  function ColumnGroups(lead: string, r: UserSession, gaps: seq<string>): Groups
    requires |gaps| == 5
  {
    var a1 := |lead| + |r.username|;
    var a2 := a1 + |gaps[0]|;
    var a3 := a2 + |r.sessionName|;
    var a4 := a3 + |gaps[1]|;
    var a5 := a4 + |r.id|;
    var a6 := a5 + |gaps[2]|;
    var a7 := a6 + |r.state|;
    var a8 := a7 + |gaps[3]|;
    var a9 := a8 + |r.idleTime|;
    var a10 := a9 + |gaps[4]|;
    Groups(|lead|, a1, a2, a3, a4, a5, a6, a7, a8, a9, a10, a10 + |r.logonTime|)
  }

  /** The row up to the end of its ID column. */
  function Front(lead: string, r: UserSession, gaps: seq<string>): string
    requires |gaps| == 5
  {
    lead + r.username + gaps[0] + r.sessionName + gaps[1] + r.id
  }

  /** The columns up to ID, as slices of the front part. */
  lemma {:induction false} FrontSlices(lead: string, r: UserSession, gaps: seq<string>)
    requires |gaps| == 5
    ensures var f := Front(lead, r, gaps);
            var g := ColumnGroups(lead, r, gaps);
            && g.idEnd == |f|
            && f[..g.user] == lead
            && f[g.user..g.userEnd] == r.username
            && f[g.userEnd..g.session] == gaps[0]
            && f[g.session..g.sessionEnd] == r.sessionName
            && f[g.sessionEnd..g.id] == gaps[1]
            && f[g.id..g.idEnd] == r.id
  {
    var f := Front(lead, r, gaps);
    var p1 := lead + r.username;
    var p2 := p1 + gaps[0];
    var p3 := p2 + r.sessionName;
    var p4 := p3 + gaps[1];
    assert f[..|p4| + |r.id|] == p4 + r.id;
    Peel(f, p4, r.id);
    Peel(f, p3, gaps[1]);
    Peel(f, p2, r.sessionName);
    Peel(f, p1, gaps[0]);
    Peel(f, lead, r.username);
  }

  /** The columns after ID, as slices of the whole row, which starts with
      the front part. */
  lemma {:induction false} BackSlices(lead: string, r: UserSession, gaps: seq<string>)
    requires |gaps| == 5
    ensures var line := Columns(lead, r, gaps);
            var g := ColumnGroups(lead, r, gaps);
            && g.logonEnd == |line|
            && line[..g.idEnd] == Front(lead, r, gaps)
            && line[g.idEnd..g.state] == gaps[2]
            && line[g.state..g.stateEnd] == r.state
            && line[g.stateEnd..g.idle] == gaps[3]
            && line[g.idle..g.idleEnd] == r.idleTime
            && line[g.idleEnd..g.logon] == gaps[4]
            && line[g.logon..g.logonEnd] == r.logonTime
  {
    var line := Columns(lead, r, gaps);
    var p5 := Front(lead, r, gaps);
    var p6 := p5 + gaps[2];
    var p7 := p6 + r.state;
    var p8 := p7 + gaps[3];
    var p9 := p8 + r.idleTime;
    var p10 := p9 + gaps[4];
    assert line[..|p10| + |r.logonTime|] == p10 + r.logonTime;
    Peel(line, p10, r.logonTime);
    Peel(line, p9, gaps[4]);
    Peel(line, p8, r.idleTime);
    Peel(line, p7, gaps[3]);
    Peel(line, p6, r.state);
  }

  /** A slice inside a prefix is the same slice of the prefix. */
  lemma Within(line: string, f: string, i: nat, j: nat)
    requires |f| <= |line| && line[..|f|] == f && i <= j <= |f|
    ensures line[i..j] == f[i..j]
  {
    forall k | 0 <= k < j - i ensures line[i..j][k] == f[i..j][k] {
      assert line[i + k] == line[..|f|][i + k];
    }
  }

  /** Each column of a laid-out row is the slice between its boundaries. */
  lemma {:induction false} ColumnSlices(lead: string, r: UserSession, gaps: seq<string>)
    requires |gaps| == 5
    ensures var line := Columns(lead, r, gaps);
            var g := ColumnGroups(lead, r, gaps);
            && g.logonEnd == |line|
            && line[..g.user] == lead
            && line[g.user..g.userEnd] == r.username
            && line[g.userEnd..g.session] == gaps[0]
            && line[g.session..g.sessionEnd] == r.sessionName
            && line[g.sessionEnd..g.id] == gaps[1]
            && line[g.id..g.idEnd] == r.id
            && line[g.idEnd..g.state] == gaps[2]
            && line[g.state..g.stateEnd] == r.state
            && line[g.stateEnd..g.idle] == gaps[3]
            && line[g.idle..g.idleEnd] == r.idleTime
            && line[g.idleEnd..g.logon] == gaps[4]
            && line[g.logon..g.logonEnd] == r.logonTime
  {
    var line := Columns(lead, r, gaps);
    var f := Front(lead, r, gaps);
    var g := ColumnGroups(lead, r, gaps);
    FrontSlices(lead, r, gaps);
    BackSlices(lead, r, gaps);
    Within(line, f, 0, g.user);
    Within(line, f, g.user, g.userEnd);
    Within(line, f, g.userEnd, g.session);
    Within(line, f, g.session, g.sessionEnd);
    Within(line, f, g.sessionEnd, g.id);
    Within(line, f, g.id, g.idEnd);
  }

  /** The first five runs of a laid-out row: USERNAME to ID and the gaps
      between them. */
  lemma {:induction false} ColumnsFrontRuns(lead: string, r: UserSession, gaps: seq<string>)
    requires |gaps| == 5
    requires forall k :: 0 <= k < 5 ==> Padding(gaps[k])
    requires NoWhiteSpace(r.username) && NoWhiteSpace(r.sessionName) && AllDigits(r.id)
    ensures var line := Columns(lead, r, gaps);
            var g := ColumnGroups(lead, r, gaps);
            && Solid(line, g.user, g.userEnd) && Blank(line, g.userEnd, g.session)
            && Solid(line, g.session, g.sessionEnd) && Blank(line, g.sessionEnd, g.id)
            && Numeric(line, g.id, g.idEnd)
  {
    var line := Columns(lead, r, gaps);
    var g := ColumnGroups(lead, r, gaps);
    ColumnSlices(lead, r, gaps);
    SliceSolid(line, g.user, r.username);
    SliceBlank(line, g.userEnd, gaps[0]);
    SliceSolid(line, g.session, r.sessionName);
    SliceBlank(line, g.sessionEnd, gaps[1]);
    SliceNumeric(line, g.id, r.id);
  }

  /** The last six runs of a laid-out row: STATE to LOGONTIME and the gaps
      before them. */
  lemma {:induction false} ColumnsBackRuns(lead: string, r: UserSession, gaps: seq<string>)
    requires |gaps| == 5
    requires forall k :: 0 <= k < 5 ==> Padding(gaps[k])
    requires NoWhiteSpace(r.state) && NoWhiteSpace(r.idleTime) && '\n' !in r.logonTime
    ensures var line := Columns(lead, r, gaps);
            var g := ColumnGroups(lead, r, gaps);
            && Blank(line, g.idEnd, g.state)
            && Solid(line, g.state, g.stateEnd) && Blank(line, g.stateEnd, g.idle)
            && Solid(line, g.idle, g.idleEnd) && Blank(line, g.idleEnd, g.logon)
            && OnOneLine(line, g.logon, g.logonEnd)
  {
    var line := Columns(lead, r, gaps);
    var g := ColumnGroups(lead, r, gaps);
    ColumnSlices(lead, r, gaps);
    SliceBlank(line, g.idEnd, gaps[2]);
    SliceSolid(line, g.state, r.state);
    SliceBlank(line, g.stateEnd, gaps[3]);
    SliceSolid(line, g.idle, r.idleTime);
    SliceBlank(line, g.idleEnd, gaps[4]);
    SliceOneLine(line, g.logon, r.logonTime);
  }

  /** A row laid out by `Columns` matches the pattern with its columns as
      the groups. */
  lemma {:induction false} ColumnsShape(lead: string, r: UserSession, gaps: seq<string>)
    requires |gaps| == 5
    requires forall k :: 0 <= k < 5 ==> gaps[k] != [] && Padding(gaps[k])
    requires Word(r.username) && Word(r.sessionName) && Word(r.state) && Word(r.idleTime)
    requires r.id != [] && AllDigits(r.id)
    requires r.logonTime != [] && '\n' !in r.logonTime
    ensures Shape(Columns(lead, r, gaps), ColumnGroups(lead, r, gaps))
  {
    assert gaps[0] != [] && gaps[1] != [] && gaps[2] != [] && gaps[3] != [] && gaps[4] != [];
    ColumnsFrontRuns(lead, r, gaps);
    ColumnsBackRuns(lead, r, gaps);
  }

  /** At the first column of a laid-out row the match takes the row's
      columns as its groups, whatever precedes the row. */
  lemma {:induction false} MatchAtColumns(lead: string, r: UserSession, gaps: seq<string>)
    requires |gaps| == 5
    requires forall k :: 0 <= k < 5 ==> gaps[k] != [] && Padding(gaps[k])
    requires Word(r.username) && Word(r.sessionName) && Word(r.state) && Word(r.idleTime)
    requires r.id != [] && AllDigits(r.id)
    requires r.logonTime != [] && !IsWhiteSpace(r.logonTime[0]) && '\n' !in r.logonTime
    ensures MatchAt(Columns(lead, r, gaps), |lead|) == Some(ColumnGroups(lead, r, gaps))
  {
    var line := Columns(lead, r, gaps);
    var g := ColumnGroups(lead, r, gaps);
    BackSlices(lead, r, gaps);
    ColumnsShape(lead, r, gaps);
    assert line[g.logon] == r.logonTime[0];
    SkipBlankStopsAt(line, g.idleEnd, g.logon);
    MatchAtWhole(line, g);
  }

  /** A match whose LOGONTIME starts at the first non-whitespace character
      after IDLE and runs to the end of the line is the one found from its
      USERNAME. */
  lemma MatchAtWhole(s: string, g: Groups)
    requires Shape(s, g) && g.logonEnd == |s| && SkipBlank(s, g.idleEnd) == g.logon
    ensures MatchAt(s, g.user) == Some(g)
  {
    assert Solid(s, g.user, g.user);
    MatchAtCovers(s, g.user, g);
  }

  /** A session laid out in quser's columns parses back to exactly its
      fields: the layout and the parser are inverse on well-formed rows
      whose logon time starts with a non-whitespace character. */
  lemma {:induction false} ParseColumns(lead: string, r: UserSession, gaps: seq<string>)
    requires |gaps| == 5 && Padding(lead)
    requires forall k :: 0 <= k < 5 ==> gaps[k] != [] && Padding(gaps[k])
    requires Word(r.username) && Word(r.sessionName) && Word(r.state) && Word(r.idleTime)
    requires r.id != [] && AllDigits(r.id)
    requires r.logonTime != [] && !IsWhiteSpace(r.logonTime[0]) && '\n' !in r.logonTime
    requires r.computerName == None
    ensures ParseQUserLine(Columns(lead, r, gaps)) == Some(r)
  {
    var line := Columns(lead, r, gaps);
    var g := ColumnGroups(lead, r, gaps);
    ColumnSlices(lead, r, gaps);
    MatchAtColumns(lead, r, gaps);
    SliceBlank(line, 0, lead);
    assert line[|lead|] == r.username[0];
    SkipBlankStopsAt(line, 0, |lead|);
    assert Match(line) == Some(g);
  }

  /** The five-token window starting at a word put before a row reads the
      row's session name as its ID, so it fails when that is not numeric. */
  lemma {:induction false} WindowBeforeRowFails(x: string, pad: string, r: UserSession, gaps: seq<string>)
    requires Word(x) && pad != [] && Padding(pad)
    requires |gaps| == 5
    requires forall k :: 0 <= k < 5 ==> gaps[k] != [] && Padding(gaps[k])
    requires Word(r.username) && Word(r.sessionName) && Word(r.state) && Word(r.idleTime)
    requires !AllDigits(r.sessionName)
    requires r.id != [] && AllDigits(r.id)
    requires r.logonTime != [] && '\n' !in r.logonTime
    ensures MatchAt(Columns(x + pad, r, gaps), 0) == None
  {
    var lead := x + pad;
    var line := Columns(lead, r, gaps);
    var g := ColumnGroups(lead, r, gaps);
    WordBeforeRow(x, pad, r, gaps);
    ColumnSlices(lead, r, gaps);
    ColumnsFrontRuns(lead, r, gaps);
    SkipSolidStopsAt(line, g.user, g.userEnd);
    SkipBlankStopsAt(line, g.userEnd, g.session);
    SkipSolidStopsAt(line, g.session, g.sessionEnd);
    assert !Numeric(line, g.session, g.sessionEnd) by {
      var k :| 0 <= k < |r.sessionName| && !IsDigit(r.sessionName[k]);
      assert line[g.session + k] == r.sessionName[k];
    }
    ThirdTokenNotNumeric(line, 0, |x|, g.user, g.userEnd, g.session);
  }

  /** A window whose third token is not all digits gives no match. */
  lemma ThirdTokenNotNumeric(s: string, u: nat, a: nat, b: nat, c: nat, d: nat)
    requires u < a < b < c < d < |s| && !IsWhiteSpace(s[u])
    requires SkipSolid(s, u) == a && SkipBlank(s, a) == b
    requires SkipSolid(s, b) == c && SkipBlank(s, c) == d
    requires !Numeric(s, d, SkipSolid(s, d))
    ensures MatchAt(s, u) == None
  {
  }

  /** One step of the scan: the token at `u` gives no match, so the scan
      carries on after it. */
  lemma FirstMatchSkips(s: string, i: nat, u: nat)
    requires i <= u < |s| && SkipBlank(s, i) == u && MatchAt(s, u) == None
    ensures FirstMatchFrom(s, i) == FirstMatchFrom(s, SkipSolid(s, u))
  {
  }

  /** One step of the scan: the token at `u` gives the match. */
  lemma FirstMatchTakes(s: string, i: nat, u: nat, g: Groups)
    requires i <= u < |s| && SkipBlank(s, i) == u && MatchAt(s, u) == Some(g)
    ensures FirstMatchFrom(s, i) == Some(g)
  {
  }

  /** Once the reported match is the row's column layout, the record read
      back is the row. */
  lemma {:induction false} ParseOfColumnMatch(lead: string, r: UserSession, gaps: seq<string>)
    requires |gaps| == 5 && r.computerName == None
    requires Match(Columns(lead, r, gaps)) == Some(ColumnGroups(lead, r, gaps))
    ensures ParseQUserLine(Columns(lead, r, gaps)) == Some(r)
  {
    ColumnSlices(lead, r, gaps);
  }

  /** A word and padding put before a row: the line opens with a token that
      ends where the padding starts, and the row's first column follows. */
  lemma {:induction false} WordBeforeRow(x: string, pad: string, r: UserSession, gaps: seq<string>)
    requires Word(x) && pad != [] && Padding(pad) && |gaps| == 5 && Word(r.username)
    ensures var line := Columns(x + pad, r, gaps);
            && |x + pad| < |line| && !IsWhiteSpace(line[0])
            && SkipBlank(line, 0) == 0 && SkipSolid(line, 0) == |x|
            && SkipBlank(line, |x|) == |x + pad|
  {
    var lead := x + pad;
    var line := Columns(lead, r, gaps);
    ColumnSlices(lead, r, gaps);
    assert line[..|x|] == x by { assert lead[..|x|] == x; }
    assert line[|x|..|lead|] == pad by { assert lead[|x|..] == pad; }
    SliceSolid(line, 0, x);
    SliceBlank(line, |x|, pad);
    assert line[0] == x[0];
    assert line[|x|] == pad[0];
    assert line[|lead|] == r.username[0];
    SkipBlankStopsAt(line, 0, 0);
    SkipSolidStopsAt(line, 0, |x|);
    SkipBlankStopsAt(line, |x|, |lead|);
  }

  /** The search slides: when the window of five tokens starting at a first
      word fails because its third token is not numeric, the match starts
      at the next token. A disconnected session printed without a session
      name and with an all-digit idle time, `bob 2 Disc 5 6/1 9:03 AM`, is
      thereby read with USERNAME `2`. */
  lemma {:induction false} SlidesPastWord(x: string, pad: string, r: UserSession, gaps: seq<string>)
    requires Word(x) && pad != [] && Padding(pad)
    requires |gaps| == 5
    requires forall k :: 0 <= k < 5 ==> gaps[k] != [] && Padding(gaps[k])
    requires Word(r.username) && Word(r.sessionName) && Word(r.state) && Word(r.idleTime)
    requires !AllDigits(r.sessionName)
    requires r.id != [] && AllDigits(r.id)
    requires r.logonTime != [] && !IsWhiteSpace(r.logonTime[0]) && '\n' !in r.logonTime
    requires r.computerName == None
    ensures ParseQUserLine(Columns(x + pad, r, gaps)) == Some(r)
  {
    var lead := x + pad;
    var line := Columns(lead, r, gaps);
    var g := ColumnGroups(lead, r, gaps);
    WordBeforeRow(x, pad, r, gaps);
    WindowBeforeRowFails(x, pad, r, gaps);
    MatchAtColumns(lead, r, gaps);
    FirstMatchSkips(line, 0, 0);
    FirstMatchTakes(line, |x|, |lead|, g);
    ParseOfColumnMatch(lead, r, gaps);
  }
}
