/**
 * `add_suffix`: the ordinal-suffix rewrite of a street reference.
 *
 * The two regular expressions of the source are modelled as the searches
 * Python's backtracking engine performs, then characterised by the positions
 * where a digit is directly followed by whitespace (`DigitSpace`).
 */
module Suffix {
  import opened Wrappers
  import opened Text

  /** A digit at `i` directly followed by whitespace. */
  predicate DigitSpace(s: string, i: int)
  {
    0 <= i && i + 1 < |s| && IsDigit(s[i]) && IsSpace(s[i + 1])
  }

  /** No digit anywhere in `s` is directly followed by whitespace. */
  predicate NoDigitSpace(s: string)
  {
    forall i | 0 <= i < |s| :: !DigitSpace(s, i)
  }

  /** How far `.` reaches from the start: the index of the first newline, or |s|. */
  function FirstLineEnd(s: string): (d: nat)
    ensures d <= |s|
  {
    if |s| == 0 || s[0] == '\n' then 0 else 1 + FirstLineEnd(s[1..])
  }

  /** `FirstLineEnd` stops at the first newline: none comes before it. */
  lemma {:induction false} FirstLineEndSpec(s: string)
    ensures var d := FirstLineEnd(s);
      && (forall i | 0 <= i < d :: s[i] != '\n')
      && (d < |s| ==> s[d] == '\n')
  {
    if |s| > 0 && s[0] != '\n' {
      FirstLineEndSpec(s[1..]);
    }
  }

  /** Length of the longest run of digits starting at `k`. */
  function DigitRun(s: string, k: nat): (n: nat)
    requires k <= |s|
    ensures k + n <= |s|
    decreases |s| - k
  {
    if k < |s| && IsDigit(s[k]) then 1 + DigitRun(s, k + 1) else 0
  }

  /** The run is all digits and is not followed by a digit. */
  lemma {:induction false} DigitRunMaximal(s: string, k: nat)
    requires k <= |s|
    ensures forall i | k <= i < k + DigitRun(s, k) :: IsDigit(s[i])
    ensures k + DigitRun(s, k) == |s| || !IsDigit(s[k + DigitRun(s, k)])
    decreases |s| - k
  {
    if k < |s| && IsDigit(s[k]) { DigitRunMaximal(s, k + 1); }
  }

  /**
   * `([\d]+)\s` tried at `k` with the `+` currently holding `n` digits: on
   * failure it gives back one digit and tries again. `Some(m)` means the
   * group is `s[k..k + m]`.
   */
  function TryDigitsSpace(s: string, k: nat, n: nat): Option<nat>
    requires k + n <= |s|
    decreases n
  {
    if n == 0 then None
    else if k + n < |s| && IsSpace(s[k + n]) then Some(n)
    else TryDigitsSpace(s, k, n - 1)
  }

  /** Giving back digits never helps: the character after a shorter run is a digit. */
  lemma {:induction false} ShorterRunsFail(s: string, k: nat, n: nat)
    requires k + n < |s|
    requires forall i | k < i <= k + n :: IsDigit(s[i])
    ensures TryDigitsSpace(s, k, n).None?
  {
    if n > 0 {
      assert IsDigit(s[k + n]);
      ShorterRunsFail(s, k, n - 1);
    }
  }

  /** `([\d]+)\s` tried at `k`, the `+` starting from the longest run of digits. */
  function GroupAt(s: string, k: nat): Option<nat>
    requires k <= |s|
  {
    TryDigitsSpace(s, k, DigitRun(s, k))
  }

  /**
   * `([\d]+)\s` matches at `k` exactly when the longest digit run at `k` is
   * non-empty and followed by whitespace, and the group is then that whole run.
   */
  lemma {:induction false} GroupAtSpec(s: string, k: nat)
    requires k <= |s|
    ensures var n := DigitRun(s, k);
      GroupAt(s, k) == if n > 0 && k + n < |s| && IsSpace(s[k + n]) then Some(n) else None
  {
    var n := DigitRun(s, k);
    if n > 0 && !(k + n < |s| && IsSpace(s[k + n])) {
      DigitRunMaximal(s, k);
      ShorterRunsFail(s, k, n - 1);
    }
  }

  /** Every digit-then-whitespace position starts a match of `([\d]+)\s` of one digit. */
  lemma {:induction false} DigitSpaceMatches(s: string, i: nat)
    requires DigitSpace(s, i)
    ensures GroupAt(s, i) == Some(1)
  {
    assert DigitRun(s, i + 1) == 0;
  }

  /** A match at `k` ends at a digit-then-whitespace position. */
  lemma {:induction false} MatchEndsAtDigitSpace(s: string, k: nat)
    requires k <= |s| && GroupAt(s, k).Some?
    ensures GroupAt(s, k).value >= 1 && DigitSpace(s, k + GroupAt(s, k).value - 1)
    ensures AllDigits(s[k..k + GroupAt(s, k).value])
  {
    GroupAtSpec(s, k);
    DigitRunMaximal(s, k);
  }

  /**
   * The greedy `.*` of `re.match`: prefix lengths are tried from `p` down to
   * 0 and the first at which `([\d]+)\s` matches is taken.
   */
  function MatchFrom(s: string, p: nat): (r: Option<(nat, nat)>)
    requires p <= |s|
    ensures r.Some? ==> r.value.0 <= p && GroupAt(s, r.value.0) == Some(r.value.1)
    decreases p
  {
    match GroupAt(s, p)
    case Some(m) => Some((p, m))
    case None => if p == 0 then None else MatchFrom(s, p - 1)
  }

  /**
   * `MatchFrom` fails exactly when no prefix length up to `p` matches, and
   * otherwise takes the longest one that does.
   */
  lemma {:induction false} MatchFromSpec(s: string, p: nat)
    requires p <= |s|
    ensures var r := MatchFrom(s, p);
      && (r.None? <==> forall q | 0 <= q <= p :: GroupAt(s, q).None?)
      && (r.Some? ==> forall q | r.value.0 < q <= p :: GroupAt(s, q).None?)
    decreases p
  {
    if GroupAt(s, p).None? && p > 0 {
      MatchFromSpec(s, p - 1);
    }
  }

  /** `re.match(r'.*([\d]+)\s', s).group(1)`, or `None` when there is no match. */
  function MatchGroup(s: string): (g: Option<string>)
    ensures g.Some? ==> |g.value| > 0 && AllDigits(g.value)
  {
    match MatchFrom(s, FirstLineEnd(s))
    case None => None
    case Some((p, m)) => MatchEndsAtDigitSpace(s, p); Some(s[p..p + m])
  }

  /**
   * The leftmost position at or after `pos` where `([\d]+)\s` matches, as
   * `re.split` searches for its next separator.
   */
  function SearchFrom(s: string, pos: nat): (r: Option<(nat, nat)>)
    requires pos <= |s|
    ensures r.Some? ==> pos <= r.value.0 <= |s| && GroupAt(s, r.value.0) == Some(r.value.1)
    decreases |s| - pos
  {
    match GroupAt(s, pos)
    case Some(m) => Some((pos, m))
    case None => if pos == |s| then None else SearchFrom(s, pos + 1)
  }

  /**
   * `SearchFrom` fails exactly when no position from `pos` on matches, and
   * otherwise finds the first one that does.
   */
  lemma {:induction false} SearchFromSpec(s: string, pos: nat)
    requires pos <= |s|
    ensures var r := SearchFrom(s, pos);
      && (r.None? <==> forall q | pos <= q <= |s| :: GroupAt(s, q).None?)
      && (r.Some? ==> forall q | pos <= q < r.value.0 :: GroupAt(s, q).None?)
    decreases |s| - pos
  {
    if GroupAt(s, pos).None? && pos < |s| {
      SearchFromSpec(s, pos + 1);
    }
  }

  /**
   * `re.split(r'([\d]+)\s', s[pos..])`: text, group, text, group, ..., text.
   * The whitespace character after each group is dropped.
   */
  function SplitFrom(s: string, pos: nat): (pieces: seq<string>)
    requires pos <= |s|
    ensures |pieces| >= 1
    decreases |s| - pos
  {
    var found := SearchFrom(s, pos);
    if found.None? then [s[pos..]]
    else
      var k, m := found.value.0, found.value.1;
      assert k + m < |s| by { MatchEndsAtDigitSpace(s, k); }
      [s[pos..k], s[k..k + m]] + SplitFrom(s, k + m + 1)
  }

  function Split(s: string): seq<string>
  {
    SplitFrom(s, 0)
  }

  /** The suffix chosen from `int(group)`: 1, 2 and 3 are special, all else is "TH ". */
  function OrdinalSuffix(g: string): string
    requires |g| > 0 && AllDigits(g)
  {
    var d := DecimalValue(g);
    if d == 1 then "ST " else if d == 2 then "ND " else if d == 3 then "RD " else "TH "
  }

  /** `add_suffix(address)`. */
  function AddSuffix(address: string): string
  {
    match MatchGroup(address)
    case None => address
    case Some(g) => Join(OrdinalSuffix(g), Split(address)[1..])
  }

  // ---------------------------------------------------------------------
  // What `re.match(r'.*([\d]+)\s', s)` finds

  /** A match tried at a prefix length `.` can cover ends before the first newline. */
  lemma {:induction false} MatchInFirstLine(s: string, q: nat)
    requires q <= FirstLineEnd(s) && GroupAt(s, q).Some?
    ensures q + GroupAt(s, q).value - 1 < FirstLineEnd(s)
  {
    FirstLineEndSpec(s);
    GroupAtSpec(s, q);
    DigitRunMaximal(s, q);
  }

  /** `re.match` fails exactly when no digit of the first line is followed by whitespace. */
  lemma {:induction false} MatchGroupNone(s: string)
    ensures MatchGroup(s).None? <==> forall i | 0 <= i < FirstLineEnd(s) :: !DigitSpace(s, i)
  {
    var d := FirstLineEnd(s);
    MatchFromSpec(s, d);
    if forall i | 0 <= i < d :: !DigitSpace(s, i) {
      forall q | 0 <= q <= d
        ensures GroupAt(s, q).None?
      {
        if GroupAt(s, q).Some? {
          MatchInFirstLine(s, q);
          MatchEndsAtDigitSpace(s, q);
        }
      }
    } else {
      var i :| 0 <= i < d && DigitSpace(s, i);
      DigitSpaceMatches(s, i);
    }
  }

  /**
   * Because `.*` is greedy, the group is the single digit directly before
   * the whitespace of the rightmost digit-then-whitespace pair of the first
   * line.
   */
  lemma {:induction false} MatchGroupRightmost(s: string, i: nat)
    requires i < FirstLineEnd(s) && DigitSpace(s, i)
    requires forall j | i < j < FirstLineEnd(s) :: !DigitSpace(s, j)
    ensures MatchGroup(s) == Some([s[i]])
  {
    var d := FirstLineEnd(s);
    DigitSpaceMatches(s, i);
    MatchFromSpec(s, d);
    var r := MatchFrom(s, d);
    assert r.Some?;
    var q, m := r.value.0, r.value.1;
    assert q >= i;
    if q > i {
      MatchInFirstLine(s, q);
      MatchEndsAtDigitSpace(s, q);
      assert false;
    }
    assert MatchGroup(s) == Some(s[i..i + 1]);
    assert s[i..i + 1] == [s[i]];
  }

  /**
   * The suffix depends only on the digit directly before the whitespace of
   * the rightmost digit-then-whitespace pair of the first line: 1, 2 and 3 give
   * "ST ", "ND " and "RD ", every other digit "TH " (so 11, 12 and 13 are
   * not treated apart); the result is the split pieces after the first,
   * joined by that suffix.
   */
  lemma {:induction false} SuffixRule(s: string, i: nat)
    requires i < FirstLineEnd(s) && DigitSpace(s, i)
    requires forall j | i < j < FirstLineEnd(s) :: !DigitSpace(s, j)
    ensures AddSuffix(s) == Join(
      if s[i] == '1' then "ST " else if s[i] == '2' then "ND " else if s[i] == '3' then "RD " else "TH ",
      Split(s)[1..])
  {
    MatchGroupRightmost(s, i);
    var g := [s[i]];
    assert AddSuffix(s) == Join(OrdinalSuffix(g), Split(s)[1..]);
    assert DecimalValue(g) == s[i] as int - '0' as int;
  }

  // ---------------------------------------------------------------------
  // The pieces of `re.split(r'([\d]+)\s', s)`

  /** Text between two separators holds no digit-then-whitespace position. */
  lemma {:induction false} GapNoDigitSpace(s: string, a: nat, b: nat)
    requires a <= b <= |s|
    requires forall q | a <= q < b :: GroupAt(s, q).None?
    ensures NoDigitSpace(s[a..b])
  {
    forall i | 0 <= i < b - a
      ensures !DigitSpace(s[a..b], i)
    {
      if DigitSpace(s[a..b], i) {
        assert DigitSpace(s, a + i);
        DigitSpaceMatches(s, a + i);
      }
    }
  }

  lemma {:induction false} DigitsNoDigitSpace(g: string)
    requires AllDigits(g)
    ensures NoDigitSpace(g)
  {
    forall i | 0 <= i < |g| ensures !DigitSpace(g, i) {
      if i + 1 < |g| { assert IsDigit(g[i + 1]); }
    }
  }

  /** No piece of the split holds a digit directly followed by whitespace. */
  lemma {:induction false} SplitPiecesNoDigitSpace(s: string, pos: nat)
    requires pos <= |s|
    ensures forall j | 0 <= j < |SplitFrom(s, pos)| :: NoDigitSpace(SplitFrom(s, pos)[j])
    decreases |s| - pos
  {
    var found := SearchFrom(s, pos);
    SearchFromSpec(s, pos);
    if found.None? {
      GapNoDigitSpace(s, pos, |s|);
      assert s[pos..|s|] == s[pos..];
      assert SplitFrom(s, pos) == [s[pos..]];
    } else {
      var k, m := found.value.0, found.value.1;
      MatchEndsAtDigitSpace(s, k);
      GapNoDigitSpace(s, pos, k);
      DigitsNoDigitSpace(s[k..k + m]);
      SplitPiecesNoDigitSpace(s, k + m + 1);
      var pieces := SplitFrom(s, pos);
      assert pieces == [s[pos..k], s[k..k + m]] + SplitFrom(s, k + m + 1);
      forall j | 0 <= j < |pieces| ensures NoDigitSpace(pieces[j]) {
        if j >= 2 { assert pieces[j] == SplitFrom(s, k + m + 1)[j - 2]; }
      }
    }
  }

  /** The pieces at odd positions, the groups, are non-empty runs of digits. */
  predicate GroupsAreDigits(pieces: seq<string>)
  {
    forall j | 0 <= j < |pieces| && j % 2 == 1 :: |pieces[j]| > 0 && AllDigits(pieces[j])
  }

  /**
   * No text piece in front of a group ends in a digit: each group is the whole
   * run of digits there, not a shorter tail of it.
   */
  predicate GroupsStartRuns(pieces: seq<string>)
  {
    forall j | 0 <= j < |pieces| - 1 && j % 2 == 0 :: |pieces[j]| == 0 || !IsDigit(pieces[j][|pieces[j]| - 1])
  }

  /**
   * Where `re.split` cuts: the pieces alternate text and group, every group
   * is a non-empty run of digits, and the text in front of a group does not
   * end in a digit. With `SplitRoundTrip` (the cut-out whitespace character
   * follows each group) and `SplitPiecesNoDigitSpace` (no text piece holds a
   * match) this leaves only the leftmost, maximal cuts.
   */
  lemma {:induction false} SplitPiecesMaximal(s: string, pos: nat)
    requires pos <= |s|
    ensures |SplitFrom(s, pos)| % 2 == 1
    ensures GroupsAreDigits(SplitFrom(s, pos))
    ensures GroupsStartRuns(SplitFrom(s, pos))
    decreases |s| - pos, 1
  {
    var found := SearchFrom(s, pos);
    if found.None? {
      SplitFromLast(s, pos);
    } else {
      SplitPiecesMaximalAt(s, pos, found.value.0, found.value.1);
    }
  }

  /** `SplitPiecesMaximal` at `pos` when the next match starts at `k` and is `m` digits long. */
  lemma {:induction false} SplitPiecesMaximalAt(s: string, pos: nat, k: nat, m: nat)
    requires pos <= |s| && SearchFrom(s, pos) == Some((k, m))
    ensures |SplitFrom(s, pos)| % 2 == 1
    ensures GroupsAreDigits(SplitFrom(s, pos))
    ensures GroupsStartRuns(SplitFrom(s, pos))
    decreases |s| - pos, 0
  {
    SplitFromStep(s, pos, k, m);
    SplitPiecesMaximal(s, k + m + 1);
    SearchFindsRun(s, pos, k, m);
    PiecesCons(SplitFrom(s, pos), s[pos..k], s[k..k + m], SplitFrom(s, k + m + 1));
  }

  /** Putting a text and a group in front of well-formed pieces keeps them well formed. */
  lemma PiecesCons(pieces: seq<string>, text: string, group: string, rest: seq<string>)
    requires pieces == [text, group] + rest
    requires |rest| % 2 == 1 && GroupsAreDigits(rest) && GroupsStartRuns(rest)
    requires |group| > 0 && AllDigits(group)
    requires |text| == 0 || !IsDigit(text[|text| - 1])
    ensures |pieces| % 2 == 1 && GroupsAreDigits(pieces) && GroupsStartRuns(pieces)
  {
    SameParity(|pieces|, |rest|);
    forall j | 0 <= j < |pieces| && j % 2 == 1
      ensures |pieces[j]| > 0 && AllDigits(pieces[j])
    {
      if j >= 2 {
        SameParity(j, j - 2);
        assert pieces[j] == rest[j - 2];
      }
    }
    forall j | 0 <= j < |pieces| - 1 && j % 2 == 0
      ensures |pieces[j]| == 0 || !IsDigit(pieces[j][|pieces[j]| - 1])
    {
      if j >= 2 {
        SameParity(j, j - 2);
        assert pieces[j] == rest[j - 2];
      }
    }
  }

  /** Two more pieces keep the count odd. */
  lemma SameParity(n: nat, r: nat)
    requires n == r + 2
    ensures n % 2 == r % 2
  {
  }

  /**
   * The match `SearchFrom` finds is a non-empty run of digits, and the text
   * in front of it does not end in a digit the match could have started at.
   */
  lemma SearchFindsRun(s: string, pos: nat, k: nat, m: nat)
    requires pos <= |s| && SearchFrom(s, pos) == Some((k, m))
    ensures pos <= k <= k + m <= |s|
    ensures |s[k..k + m]| > 0 && AllDigits(s[k..k + m])
    ensures |s[pos..k]| == 0 || !IsDigit(s[pos..k][|s[pos..k]| - 1])
  {
    if k > pos && IsDigit(s[k - 1]) {
      DigitBeforeMatch(s, k);
      SearchFromSpec(s, pos);
      assert false;
    }
    MatchEndsAtDigitSpace(s, k);
  }

  /** A digit in front of a match starts a longer match. */
  lemma DigitBeforeMatch(s: string, k: nat)
    requires 0 < k <= |s| && GroupAt(s, k).Some? && IsDigit(s[k - 1])
    ensures GroupAt(s, k - 1).Some?
  {
    GroupAtSpec(s, k);
    GroupAtSpec(s, k - 1);
    assert DigitRun(s, k - 1) == 1 + DigitRun(s, k);
  }

  /** Rebuilds a split: each group is followed by the whitespace character it consumed. */
  function Unsplit(pieces: seq<string>, seps: string): string
    requires |pieces| == 2 * |seps| + 1
    decreases |seps|
  {
    if |seps| == 0 then pieces[0]
    else pieces[0] + pieces[1] + [seps[0]] + Unsplit(pieces[2..], seps[1..])
  }

  /** `pieces`, with the whitespace characters `seps` put back, is `whole`. */
  predicate Rebuilds(pieces: seq<string>, seps: string, whole: string)
  {
    && |pieces| == 2 * |seps| + 1
    && AllSpaces(seps)
    && Unsplit(pieces, seps) == whole
  }

  lemma ConsSpaces(c: char, t: string)
    requires IsSpace(c) && AllSpaces(t)
    ensures AllSpaces([c] + t)
  {
    assert forall j | 1 <= j < |t| + 1 :: ([c] + t)[j] == t[j - 1];
  }

  lemma {:induction false} UnsplitStep(
    whole: string, text: string, group: string, sep: char, pieces: seq<string>, seps: string, all: seq<string>,
    tail: string)
    requires all == [text, group] + pieces && IsSpace(sep)
    requires Rebuilds(pieces, seps, tail)
    requires whole == text + group + [sep] + tail
    ensures Rebuilds(all, [sep] + seps, whole)
  {
    ConsSpaces(sep, seps);
    assert all[2..] == pieces;
    assert ([sep] + seps)[1..] == seps;
  }

  /** The split at a match: text, group, then the split of what follows the blank. */
  lemma {:induction false} SplitFromStep(s: string, pos: nat, k: nat, m: nat)
    requires pos <= |s| && SearchFrom(s, pos) == Some((k, m))
    ensures k + m < |s| && IsSpace(s[k + m])
    ensures SplitFrom(s, pos) == [s[pos..k], s[k..k + m]] + SplitFrom(s, k + m + 1)
  {
    MatchEndsAtDigitSpace(s, k);
    var found := SearchFrom(s, pos);
    assert found.value.0 == k && found.value.1 == m;
    var pieces := [s[pos..k], s[k..k + m]] + SplitFrom(s, k + m + 1);
    assert SplitFrom(s, pos) == pieces;
  }

  /** Without a further match the rest of the input is the last piece. */
  lemma {:induction false} SplitFromLast(s: string, pos: nat)
    requires pos <= |s| && SearchFrom(s, pos).None?
    ensures SplitFrom(s, pos) == [s[pos..]]
  {
  }

  lemma Reassemble(s: string, pos: nat, k: nat, m: nat)
    requires pos <= k && k + m < |s|
    ensures s[pos..] == s[pos..k] + s[k..k + m] + [s[k + m]] + s[k + m + 1..]
  {
    assert s[pos..] == s[pos..k] + s[k..];
    assert s[k..] == s[k..k + m] + s[k + m..];
    assert s[k + m..] == [s[k + m]] + s[k + m + 1..];
  }

  /** One step of the round trip: from the split after a match to the split at `pos`. */
  lemma {:induction false} RoundTripStep(s: string, pos: nat, k: nat, m: nat, rest: string)
    requires pos <= |s| && SearchFrom(s, pos) == Some((k, m))
    requires k + m < |s| && Rebuilds(SplitFrom(s, k + m + 1), rest, s[k + m + 1..])
    ensures Rebuilds(SplitFrom(s, pos), [s[k + m]] + rest, s[pos..])
  {
    SplitFromStep(s, pos, k, m);
    Reassemble(s, pos, k, m);
    UnsplitStep(s[pos..], s[pos..k], s[k..k + m], s[k + m], SplitFrom(s, k + m + 1), rest,
      SplitFrom(s, pos), s[k + m + 1..]);
  }

  /**
   * Splitting loses nothing but the whitespace character behind each group:
   * putting those characters, `seps`, back rebuilds the input.
   */
  lemma {:induction false} SplitRoundTrip(s: string, pos: nat) returns (seps: string)
    requires pos <= |s|
    ensures Rebuilds(SplitFrom(s, pos), seps, s[pos..])
    decreases |s| - pos, 1
  {
    var found := SearchFrom(s, pos);
    if found.None? {
      seps := [];
      SplitFromLast(s, pos);
    } else {
      seps := RoundTripAt(s, pos, found.value.0, found.value.1);
    }
  }

  /** The round trip at `pos` when the next match starts at `k` and is `m` digits long. */
  lemma {:induction false} RoundTripAt(s: string, pos: nat, k: nat, m: nat) returns (seps: string)
    requires pos <= |s| && SearchFrom(s, pos) == Some((k, m))
    ensures Rebuilds(SplitFrom(s, pos), seps, s[pos..])
    decreases |s| - pos, 0
  {
    SplitFromStep(s, pos, k, m);
    var rest := SplitRoundTrip(s, k + m + 1);
    RoundTripStep(s, pos, k, m, rest);
    seps := [s[k + m]] + rest;
  }

  // ---------------------------------------------------------------------
  // The rewritten address

  lemma {:induction false} ConcatNoDigitSpace(a: string, b: string)
    requires NoDigitSpace(a) && NoDigitSpace(b)
    requires |a| == 0 || |b| == 0 || !IsDigit(a[|a| - 1]) || !IsSpace(b[0])
    ensures NoDigitSpace(a + b)
  {
    forall i | 0 <= i < |a + b| ensures !DigitSpace(a + b, i) {
      if i + 1 < |a| {
        assert !DigitSpace(a, i);
      } else if i >= |a| {
        assert !DigitSpace(b, i - |a|);
      }
    }
  }

  /** A suffix starts with a letter and ends with a blank. */
  predicate SeparatorShape(sep: string)
  {
    |sep| > 0 && NoDigitSpace(sep) && !IsSpace(sep[0]) && !IsDigit(sep[|sep| - 1])
  }

  lemma {:induction false} JoinNoDigitSpace(sep: string, xs: seq<string>)
    requires SeparatorShape(sep)
    requires forall j | 0 <= j < |xs| :: NoDigitSpace(xs[j])
    ensures NoDigitSpace(Join(sep, xs))
    decreases |xs|
  {
    if |xs| > 1 {
      JoinNoDigitSpace(sep, xs[1..]);
      assert NoDigitSpace(xs[0]);
      ConcatNoDigitSpace(xs[0], sep);
      ConcatNoDigitSpace(xs[0] + sep, Join(sep, xs[1..]));
      assert Join(sep, xs) == (xs[0] + sep) + Join(sep, xs[1..]);
    }
  }

  /** Once a suffix has been added, no digit of the result is followed by whitespace. */
  lemma {:induction false} AddSuffixLeavesNoDigitSpace(s: string)
    requires MatchGroup(s).Some?
    ensures NoDigitSpace(AddSuffix(s))
  {
    var sep := OrdinalSuffix(MatchGroup(s).value);
    assert NoDigitSpace(sep) by {
      assert !IsDigit(sep[0]) && !IsDigit(sep[1]);
    }
    SplitPiecesNoDigitSpace(s, 0);
    var pieces := Split(s)[1..];
    assert forall j | 0 <= j < |pieces| :: pieces[j] == Split(s)[j + 1];
    JoinNoDigitSpace(sep, pieces);
  }

  /**
   * `add_suffix` returns its input unchanged exactly when no digit of the
   * first line is directly followed by whitespace ("1ST AVENUE", "MAIN STREET").
   */
  lemma {:induction false} AddSuffixFixedPoint(s: string)
    ensures AddSuffix(s) == s <==> forall i | 0 <= i < FirstLineEnd(s) :: !DigitSpace(s, i)
  {
    MatchGroupNone(s);
    if MatchGroup(s).Some? {
      AddSuffixLeavesNoDigitSpace(s);
      var i :| 0 <= i < FirstLineEnd(s) && DigitSpace(s, i);
      assert !DigitSpace(AddSuffix(s), i);
    }
  }

  /** Adding the suffix a second time changes nothing. */
  lemma {:induction false} AddSuffixIdempotent(s: string)
    ensures AddSuffix(AddSuffix(s)) == AddSuffix(s)
  {
    if MatchGroup(s).Some? {
      var t := AddSuffix(s);
      AddSuffixLeavesNoDigitSpace(s);
      AddSuffixFixedPoint(t);
    }
  }

  /**
   * With a single number followed by whitespace, running from `k` to `i`,
   * the result is that number, its suffix, and the text after the blank:
   * whatever stood before the number is dropped.
   */
  lemma {:induction false} OneNumber(s: string, k: nat, i: nat)
    requires k <= i < FirstLineEnd(s) && DigitSpace(s, i)
    requires forall j | k <= j <= i :: IsDigit(s[j])
    requires k == 0 || !IsDigit(s[k - 1])
    requires forall j | 0 <= j < |s| && j != i :: !DigitSpace(s, j)
    ensures AddSuffix(s) == s[k..i + 1] + OrdinalSuffix([s[i]]) + s[i + 2..]
  {
    MatchGroupRightmost(s, i);
    OneNumberSplit(s, k, i);
    var sep := OrdinalSuffix([s[i]]);
    assert Split(s)[1..] == [s[k..i + 1], s[i + 2..]];
    assert Join(sep, [s[k..i + 1], s[i + 2..]]) == s[k..i + 1] + sep + s[i + 2..];
  }

  /** The split of an input with one number followed by whitespace has three pieces. */
  lemma {:induction false} OneNumberSplit(s: string, k: nat, i: nat)
    requires k <= i && DigitSpace(s, i)
    requires forall j | k <= j <= i :: IsDigit(s[j])
    requires k == 0 || !IsDigit(s[k - 1])
    requires forall j | 0 <= j < |s| && j != i :: !DigitSpace(s, j)
    ensures Split(s) == [s[..k], s[k..i + 1], s[i + 2..]]
  {
    var m := i + 1 - k;
    assert SearchFrom(s, 0) == Some((k, m)) by {
      assert GroupAt(s, k) == Some(m) by {
        RunFrom(s, k, i);
        GroupAtSpec(s, k);
      }
      forall q | 0 <= q < k ensures GroupAt(s, q).None? {
        if GroupAt(s, q).Some? {
          MatchEndsAtDigitSpace(s, q);
          assert false;
        }
      }
      SearchFinds(s, 0, k);
    }
    SplitFromStep(s, 0, k, m);
    assert SplitFrom(s, i + 2) == [s[i + 2..]] by {
      forall q | i + 2 <= q <= |s| ensures GroupAt(s, q).None? {
        if GroupAt(s, q).Some? {
          MatchEndsAtDigitSpace(s, q);
          assert false;
        }
      }
      SplitFromLast(s, i + 2);
    }
  }

  /** The digit run at `k` reaches exactly to `i` when `i` is the last digit. */
  lemma {:induction false} RunFrom(s: string, k: nat, i: nat)
    requires k <= i && i + 1 < |s| && !IsDigit(s[i + 1])
    requires forall j | k <= j <= i :: IsDigit(s[j])
    ensures DigitRun(s, k) == i + 1 - k
    decreases i - k
  {
    if k < i { RunFrom(s, k + 1, i); }
  }

  /** The leftmost search stops at the first position where a match starts. */
  lemma {:induction false} SearchFinds(s: string, pos: nat, k: nat)
    requires pos <= k <= |s| && GroupAt(s, k).Some?
    requires forall q | pos <= q < k :: GroupAt(s, q).None?
    ensures SearchFrom(s, pos) == Some((k, GroupAt(s, k).value))
    decreases k - pos
  {
    if pos < k { SearchFinds(s, pos + 1, k); }
  }
}
