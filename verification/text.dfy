/** The string operations of the .NET base library that the application
    relies on, written out with the meaning the application depends on:
    the whitespace and digit character classes of its regular expression,
    ordinal substring search (`String.Contains`), splitting on a separator
    (`String.Split`) and joining with one. */
module Text {

  /** `\s` of a .NET regular expression, which is also the set
      `Char.IsWhiteSpace` accepts: TAB..CR, SPACE, NEL, NO-BREAK SPACE and
      the Unicode space, line and paragraph separators. */
  predicate IsWhiteSpace(c: char) {
    || ('\t' <= c <= '\r')
    || c == ' ' || c == '\U{85}' || c == '\U{A0}' || c == '\U{1680}'
    || ('\U{2000}' <= c <= '\U{200A}')
    || c == '\U{2028}' || c == '\U{2029}' || c == '\U{202F}' || c == '\U{205F}'
    || c == '\U{3000}'
  }

  /** `\d`, restricted to the ASCII digits. */
  predicate IsDigit(c: char) {
    '0' <= c <= '9'
  }

  predicate NoWhiteSpace(s: string) {
    forall i :: 0 <= i < |s| ==> !IsWhiteSpace(s[i])
  }

  /** All whitespace, as quser pads its columns with. */
  predicate Padding(s: string) {
    forall i :: 0 <= i < |s| ==> IsWhiteSpace(s[i])
  }

  predicate AllDigits(s: string) {
    forall i :: 0 <= i < |s| ==> IsDigit(s[i])
  }

  /** `t` occurs in `s` starting at index `i`. */
  predicate OccursAt(s: string, t: string, i: nat) {
    i + |t| <= |s| && s[i..i + |t|] == t
  }

  lemma OccursAtShift(s: string, t: string, i: nat)
    requires |s| > 0
    ensures OccursAt(s[1..], t, i) <==> OccursAt(s, t, i + 1)
  {
    if i + 1 + |t| <= |s| {
      assert s[1..][i..i + |t|] == s[i + 1..i + 1 + |t|];
    }
  }

  /** Ordinal `String.Contains`: a left-to-right scan for `t`. */
  function Contains(s: string, t: string): (b: bool)
    ensures b <==> exists i: nat :: OccursAt(s, t, i)
    decreases |s|
  {
    if t <= s then
      assert OccursAt(s, t, 0);
      true
    else if |s| == 0 then
      assert forall i: nat :: !OccursAt(s, t, i);
      false
    else
      var rest := Contains(s[1..], t);
      assert !OccursAt(s, t, 0);
      assert rest <==> exists i: nat :: OccursAt(s, t, i) by {
        forall i: nat ensures OccursAt(s[1..], t, i) <==> OccursAt(s, t, i + 1) {
          OccursAtShift(s, t, i);
        }
        if exists i: nat :: OccursAt(s, t, i) {
          var i: nat :| OccursAt(s, t, i);
          assert i > 0;
          assert OccursAt(s[1..], t, i - 1);
        }
      }
      rest
  }

  /** A string mapped character by character (`ToLowerInvariant` is such a
      map; the character function itself is a parameter). */
  function MapChars(s: string, f: char -> char): (r: string)
    ensures |r| == |s|
    ensures forall i :: 0 <= i < |s| ==> r[i] == f(s[i])
  {
    seq(|s|, i requires 0 <= i < |s| => f(s[i]))
  }

  // ---------------------------------------------------------------------
  // Splitting and joining

  /** No occurrence of `sep` in `s` starts before index `n`. */
  predicate NoHitBefore(s: string, sep: string, n: nat) {
    forall i: nat :: i < n ==> !OccursAt(s, sep, i)
  }

  /** `x` can stand before a separator without the separator being found
      earlier than where it was put: no occurrence of `sep` in `x + sep`
      starts inside `x`. */
  predicate Separated(x: string, sep: string) {
    NoHitBefore(x + sep, sep, |x|)
  }

  /** `String.Split` with one non-empty string separator and no options:
      scanning left to right, each occurrence of `sep` ends the current
      piece and is dropped. `piece` is the part of the current piece
      already scanned. */
  function SplitFrom(s: string, sep: string, piece: string): (r: seq<string>)
    requires |sep| > 0
    ensures |r| >= 1
    decreases |s|
  {
    if |s| == 0 then [piece]
    else if sep <= s then [piece] + SplitFrom(s[|sep|..], sep, [])
    else SplitFrom(s[1..], sep, piece + [s[0]])
  }

  /** `String.Split`: splitting loses nothing but the separators, so
      joining the pieces again gives back the string. */
  function Split(s: string, sep: string): (r: seq<string>)
    requires |sep| > 0
    ensures |r| >= 1
    ensures Join(r, sep) == s
  {
    JoinSplitFrom(s, sep, []);
    SplitFrom(s, sep, [])
  }

  /** `String.Join`: the pieces with `sep` between consecutive ones. */
  function Join(xs: seq<string>, sep: string): string
  {
    if |xs| == 0 then []
    else if |xs| == 1 then xs[0]
    else xs[0] + sep + Join(xs[1..], sep)
  }

  /** `StringSplitOptions.RemoveEmptyEntries`: the non-empty pieces, in order. */
  function RemoveEmpty(xs: seq<string>): (r: seq<string>)
    ensures |r| <= |xs|
    ensures forall k :: 0 <= k < |r| ==> r[k] != [] && r[k] in xs
    ensures forall x :: x in xs && x != [] ==> x in r
  {
    if |xs| == 0 then []
    else if xs[0] == [] then RemoveEmpty(xs[1..])
    else [xs[0]] + RemoveEmpty(xs[1..])
  }

  lemma JoinCons(x: string, ys: seq<string>, sep: string)
    requires |ys| >= 1
    ensures Join([x] + ys, sep) == x + sep + Join(ys, sep)
  {
    assert ([x] + ys)[1..] == ys;
  }

  lemma SplitFromScans(s: string, sep: string, piece: string)
    requires |sep| > 0 && |s| > 0 && !(sep <= s)
    ensures SplitFrom(s, sep, piece) == SplitFrom(s[1..], sep, piece + [s[0]])
  {
  }

  lemma ConsumeFirst(s: string, piece: string)
    requires |s| > 0
    ensures piece + [s[0]] + s[1..] == piece + s
  {
  }

  lemma {:induction false} JoinSplitFrom(s: string, sep: string, piece: string)
    requires |sep| > 0
    ensures Join(SplitFrom(s, sep, piece), sep) == piece + s
    decreases |s|
  {
    if |s| == 0 {
      assert piece + s == piece;
    } else if sep <= s {
      JoinSplitFrom(s[|sep|..], sep, []);
      JoinSplitAtSeparator(s, sep, piece);
    } else {
      JoinSplitFrom(s[1..], sep, piece + [s[0]]);
      JoinSplitScanning(s, sep, piece);
    }
  }

  lemma JoinSplitAtSeparator(s: string, sep: string, piece: string)
    requires |sep| > 0 && |s| > 0 && sep <= s
    requires Join(SplitFrom(s[|sep|..], sep, []), sep) == [] + s[|sep|..]
    ensures Join(SplitFrom(s, sep, piece), sep) == piece + s
  {
    var tail := s[|sep|..];
    var rest := SplitFrom(tail, sep, []);
    SplitFromCuts(s, sep, piece);
    PrefixRest(s, sep);
    assert [] + tail == tail;
    JoinPiece(piece, rest, sep, tail);
  }

  /** A piece put before pieces that join to `tail` joins to the piece,
      the separator and `tail`. */
  lemma JoinPiece(piece: string, rest: seq<string>, sep: string, tail: string)
    requires |rest| >= 1 && Join(rest, sep) == tail
    ensures Join([piece] + rest, sep) == piece + (sep + tail)
  {
    JoinCons(piece, rest, sep);
    assert piece + sep + tail == piece + (sep + tail);
  }

  lemma SplitFromCuts(s: string, sep: string, piece: string)
    requires |sep| > 0 && |s| > 0 && sep <= s
    ensures SplitFrom(s, sep, piece) == [piece] + SplitFrom(s[|sep|..], sep, [])
  {
  }

  lemma PrefixRest(s: string, p: string)
    requires p <= s
    ensures s == p + s[|p|..]
  {
  }

  lemma JoinSplitScanning(s: string, sep: string, piece: string)
    requires |sep| > 0 && |s| > 0 && !(sep <= s)
    requires Join(SplitFrom(s[1..], sep, piece + [s[0]]), sep) == piece + [s[0]] + s[1..]
    ensures Join(SplitFrom(s, sep, piece), sep) == piece + s
  {
    SplitFromScans(s, sep, piece);
    ConsumeFirst(s, piece);
  }

  lemma OccursAtPrefix(a: string, b: string, sep: string, i: nat)
    requires |a| <= |b| && a == b[..|a|] && i + |sep| <= |a|
    ensures OccursAt(a, sep, i) <==> OccursAt(b, sep, i)
  {
    assert a[i..i + |sep|] == b[i..i + |sep|];
  }

  lemma {:induction false} SplitFromPiecesFree(s: string, sep: string, piece: string)
    requires |sep| > 0
    requires NoHitBefore(piece + s, sep, |piece|)
    ensures forall k :: 0 <= k < |SplitFrom(s, sep, piece)| ==> !Contains(SplitFrom(s, sep, piece)[k], sep)
    decreases |s|
  {
    // The finished piece holds no occurrence: one would also be an
    // occurrence in `piece + s` starting inside `piece`.
    forall i: nat | OccursAt(piece, sep, i) ensures false {
      OccursAtPrefix(piece, piece + s, sep, i);
    }
    if |s| == 0 {
    } else if sep <= s {
      SplitFromPiecesFree(s[|sep|..], sep, []);
    } else {
      var piece' := piece + [s[0]];
      assert piece' + s[1..] == piece + s;
      assert !OccursAt(piece + s, sep, |piece|) by {
        assert (piece + s)[|piece|..] == s;
        if |piece| + |sep| <= |piece + s| {
          assert (piece + s)[|piece|..|piece| + |sep|] == s[..|sep|];
        }
      }
      SplitFromPiecesFree(s[1..], sep, piece');
    }
  }

  /** No piece of a split contains the separator. */
  lemma {:induction false} SplitPiecesFree(s: string, sep: string)
    requires |sep| > 0
    ensures forall k :: 0 <= k < |Split(s, sep)| ==> !Contains(Split(s, sep)[k], sep)
  {
    SplitFromPiecesFree(s, sep, []);
  }

  lemma {:induction false} SplitFromSkips(x: string, rest: string, sep: string, piece: string)
    requires |sep| > 0
    requires NoHitBefore(x + rest, sep, |x|)
    ensures SplitFrom(x + rest, sep, piece) == SplitFrom(rest, sep, piece + x)
    decreases |x|
  {
    if |x| == 0 {
      assert x + rest == rest;
      assert piece + x == piece;
    } else {
      var s := x + rest;
      assert !OccursAt(s, sep, 0);
      assert !(sep <= s) by {
        if |sep| <= |s| { assert s[..|sep|] == s[0..0 + |sep|]; }
      }
      assert s[1..] == x[1..] + rest;
      forall i: nat | i < |x[1..]| ensures !OccursAt(x[1..] + rest, sep, i) {
        OccursAtShift(s, sep, i);
      }
      SplitFromSkips(x[1..], rest, sep, piece + [s[0]]);
      assert piece + [s[0]] + x[1..] == piece + x;
    }
  }

  /** Splitting a joined list gives the list back, provided no piece lets the
      separator be found earlier than where it was put. */
  lemma {:induction false} SplitJoin(xs: seq<string>, sep: string)
    requires |sep| > 0 && |xs| >= 1
    requires forall k :: 0 <= k < |xs| ==> Separated(xs[k], sep)
    ensures Split(Join(xs, sep), sep) == xs
    decreases |xs|
  {
    var x := xs[0];
    if |xs| == 1 {
      assert x + [] == x;
      forall i: nat | i < |x| ensures !OccursAt(x + [], sep, i) {
        if i + |sep| <= |x| { OccursAtPrefix(x, x + sep, sep, i); }
      }
      SplitFromSkips(x, [], sep, []);
      assert [] + x == x;
      assert SplitFrom([], sep, x) == [x];
      assert Join(xs, sep) == x;
      assert xs == [x];
    } else {
      var tail := Join(xs[1..], sep);
      var s := x + sep + tail;
      assert s == x + (sep + tail);
      forall i: nat | i < |x| ensures !OccursAt(s, sep, i) {
        assert (x + sep) == s[..|x + sep|];
        OccursAtPrefix(x + sep, s, sep, i);
      }
      SplitFromSkips(x, sep + tail, sep, []);
      assert [] + x == x;
      assert sep <= sep + tail;
      SplitFromCuts(sep + tail, sep, x);
      assert (sep + tail)[|sep|..] == tail;
      SplitJoin(xs[1..], sep);
      assert Join(xs, sep) == s;
      assert Split(s, sep) == [x] + xs[1..];
      assert xs == [x] + xs[1..];
    }
  }

  /** A string without whitespace can stand before ", " in a joined list. */
  lemma NoWhiteSpaceSeparated(x: string)
    requires NoWhiteSpace(x)
    ensures Separated(x, ", ")
  {
    forall i: nat | i < |x| ensures !OccursAt(x + ", ", ", ", i) {
      var s := x + ", ";
      assert s[i + 1] != ' ';
      assert s[i..i + 2][1] == s[i + 1];
    }
  }

  /** Removing empty pieces works piece by piece, so it keeps their order. */
  lemma {:induction false} RemoveEmptyAppend(a: seq<string>, b: seq<string>)
    ensures RemoveEmpty(a + b) == RemoveEmpty(a) + RemoveEmpty(b)
    decreases |a|
  {
    if a == [] {
      assert a + b == b;
    } else {
      assert (a + b)[1..] == a[1..] + b;
      RemoveEmptyAppend(a[1..], b);
    }
  }

  /** Pieces that are all non-empty are kept as they are. */
  lemma {:induction false} RemoveEmptyKeepsNonEmpty(xs: seq<string>)
    requires forall k :: 0 <= k < |xs| ==> xs[k] != []
    ensures RemoveEmpty(xs) == xs
    decreases |xs|
  {
    if xs != [] {
      RemoveEmptyKeepsNonEmpty(xs[1..]);
      assert xs == [xs[0]] + xs[1..];
    }
  }

  /** Joining one more piece appends the separator and the piece. */
  lemma {:induction false} JoinSnoc(xs: seq<string>, x: string, sep: string)
    requires |xs| >= 1
    ensures Join(xs + [x], sep) == Join(xs, sep) + sep + x
    decreases |xs|
  {
    if |xs| == 1 {
      assert (xs + [x])[1..] == [x];
    } else {
      assert (xs + [x])[1..] == xs[1..] + [x];
      JoinSnoc(xs[1..], x, sep);
    }
  }
}
