/**
 * The arithmetic of `Ruleset.get_standings` (src/tournapy/core/ruleset.py),
 * stated on match values: what every ended match credits to a team, and how
 * far the fold over the history gets before a lookup fails.
 */
module Standings {

  import opened Wrappers
  import opened Model

  const WinningPoints := 3
  const LosingPoints := 0
  const DrawPoints := 1

  function Sum(xs: seq<int>): int {
    if xs == [] then 0 else Sum(xs[..|xs| - 1]) + xs[|xs| - 1]
  }

  function Add(a: Tally, b: Tally): Tally {
    Tally(a.points + b.points, a.scored + b.scored, a.taken + b.taken)
  }

  /**
   * The points of the blue slot. The source compares the winner with
   * `blue_team` first and with `red_team` second; anything else is a draw.
   */
  function BluePoints(s: MatchState): int {
    var w := Winner(s);
    if w == s.blueTeam then WinningPoints
    else if w == s.redTeam then LosingPoints
    else DrawPoints
  }

  /** The points of the red slot, by the same comparisons. */
  function RedPoints(s: MatchState): int {
    var w := Winner(s);
    if w == s.blueTeam then LosingPoints
    else if w == s.redTeam then WinningPoints
    else DrawPoints
  }

  /** What an ended match credits to its blue slot: points, goals scored, goals taken. */
  function BluePart(s: MatchState): Tally {
    Tally(BluePoints(s), Sum(s.blueScore), Sum(s.redScore))
  }

  /** What it credits to its red slot. */
  function RedPart(s: MatchState): Tally {
    Tally(RedPoints(s), Sum(s.redScore), Sum(s.blueScore))
  }

  /** What one ended match credits to the team named `n`, for each slot it holds. */
  function Share(n: string, s: MatchState): Tally {
    Add(if s.blueTeam == Some(n) then BluePart(s) else NoTally, if s.redTeam == Some(n) then RedPart(s) else NoTally)
  }

  /** The tally of team `n` after folding the matches `ms` in order, starting from zero. */
  function TallyOf(n: string, ms: seq<MatchState>): Tally {
    if ms == [] then NoTally else Add(TallyOf(n, ms[..|ms| - 1]), Share(n, ms[|ms| - 1]))
  }

  /** Folding one more match adds its share. */
  lemma {:induction false} TallyAppend(n: string, ms: seq<MatchState>, s: MatchState)
    ensures TallyOf(n, ms + [s]) == Add(TallyOf(n, ms), Share(n, s))
  {
    var all := ms + [s];
    assert all[..|all| - 1] == ms;
  }

  /** Adding a match's share is adding its blue part for a blue slot, then its red part for a red slot. */
  lemma {:induction false} AddShare(n: string, blue: bool, red: bool, s: MatchState, prev: Tally)
    requires (blue <==> s.blueTeam == Some(n)) && (red <==> s.redTeam == Some(n))
    ensures Add(prev, Share(n, s)) ==
      Add(Add(prev, if blue then BluePart(s) else NoTally), if red then RedPart(s) else NoTally)
  {
    var b := if blue then BluePart(s) else NoTally;
    var r := if red then RedPart(s) else NoTally;
    assert Share(n, s) == Add(b, r);
    AddAssociates(prev, b, r);
  }

  lemma AddAssociates(a: Tally, b: Tally, c: Tally)
    ensures Add(a, Add(b, c)) == Add(Add(a, b), c)
  {
  }

  /** `filter(lambda x: x.ended is True, history)`. */
  function Ended(hs: seq<MatchState>): seq<MatchState> {
    if hs == [] then []
    else Ended(hs[..|hs| - 1]) + (if hs[|hs| - 1].ended then [hs[|hs| - 1]] else [])
  }

  /** `Ended` keeps exactly the ended matches. */
  lemma {:induction false} EndedMembers(hs: seq<MatchState>)
    ensures |Ended(hs)| <= |hs|
    ensures forall s :: s in Ended(hs) <==> s in hs && s.ended
  {
    if hs != [] {
      var n := |hs| - 1;
      EndedMembers(hs[..n]);
      assert hs == hs[..n] + [hs[n]];
      forall s | s in hs
        ensures s in hs[..n] || s == hs[n]
      {
        var i :| 0 <= i < |hs| && hs[i] == s;
        if i < n {
          assert hs[..n][i] == s;
        }
      }
    }
  }

  lemma {:induction false} EndedAppend(hs: seq<MatchState>, ts: seq<MatchState>)
    ensures Ended(hs + ts) == Ended(hs) + Ended(ts)
    decreases |ts|
  {
    if ts == [] {
      assert hs + ts == hs;
    } else {
      var n := |ts| - 1;
      assert (hs + ts)[..|hs + ts| - 1] == hs + ts[..n];
      EndedAppend(hs, ts[..n]);
    }
  }

  /** The blue slot names a pool team: `get_team(m.blue_team)` finds it. */
  predicate BlueKnown(names: seq<string>, s: MatchState) {
    s.blueTeam.Some? && s.blueTeam.value in names
  }

  /**
   * How many ended matches the fold credits before the first one whose blue
   * slot is not a pool team, where the source fails with `AttributeError`
   * on `None`.
   */
  function Folded(names: seq<string>, es: seq<MatchState>): (k: nat)
    ensures k <= |es|
    ensures forall i :: 0 <= i < k ==> BlueKnown(names, es[i])
    ensures k < |es| ==> !BlueKnown(names, es[k])
  {
    if es == [] || !BlueKnown(names, es[0]) then 0 else 1 + Folded(names, es[1..])
  }

  /** The two conditions on `Folded` pin down a single index. */
  lemma FoldedUnique(names: seq<string>, es: seq<MatchState>, k: nat)
    requires k <= |es|
    requires forall i :: 0 <= i < k ==> BlueKnown(names, es[i])
    requires k < |es| ==> !BlueKnown(names, es[k])
    ensures Folded(names, es) == k
  {
  }

  /** The tally of a team that holds no slot of any match stays zero. */
  lemma {:induction false} AbsentTeamScoresNothing(n: string, ms: seq<MatchState>)
    requires forall i :: 0 <= i < |ms| ==> ms[i].blueTeam != Some(n) && ms[i].redTeam != Some(n)
    ensures TallyOf(n, ms) == NoTally
  {
    if ms != [] {
      var last := ms[|ms| - 1];
      AbsentTeamScoresNothing(n, ms[..|ms| - 1]);
      assert last.blueTeam != Some(n) && last.redTeam != Some(n);
      assert Share(n, last) == NoTally;
    }
  }

  /** A match between two distinct, filled slots in which team `n` plays. */
  predicate PlaysIn(n: string, s: MatchState) {
    s.blueTeam.Some? && s.redTeam.Some? && s.blueTeam != s.redTeam &&
    (s.blueTeam == Some(n) || s.redTeam == Some(n))
  }

  /** When both slots are filled and distinct, the comparisons give 3 to the winner, 0 to the loser and 1 each on a draw. */
  lemma SharePoints(n: string, s: MatchState)
    requires PlaysIn(n, s)
    ensures Share(n, s).points ==
      if Winner(s) == Some(n) then WinningPoints
      else if Winner(s) == None then DrawPoints
      else LosingPoints
  {
  }

  /** A decided match hands out 3 points in total, a drawn one 2. */
  lemma MatchPointsTotal(s: MatchState)
    requires s.blueTeam.Some? && s.redTeam.Some? && s.blueTeam != s.redTeam
    ensures BluePoints(s) + RedPoints(s) == if Winner(s) == None then 2 * DrawPoints else WinningPoints + LosingPoints
  {
  }

  /** The number of matches in `ms` that team `n` won. */
  function Victories(n: string, ms: seq<MatchState>): nat {
    if ms == [] then 0
    else Victories(n, ms[..|ms| - 1]) + (if PlaysIn(n, ms[|ms| - 1]) && Winner(ms[|ms| - 1]) == Some(n) then 1 else 0)
  }

  /** The number of matches in `ms` that team `n` drew. */
  function Draws(n: string, ms: seq<MatchState>): nat {
    if ms == [] then 0
    else Draws(n, ms[..|ms| - 1]) + (if PlaysIn(n, ms[|ms| - 1]) && Winner(ms[|ms| - 1]) == None then 1 else 0)
  }

  /** Points are 3 per win and 1 per draw when every match has two distinct filled slots. */
  lemma {:induction false} PointsCountWinsAndDraws(n: string, ms: seq<MatchState>)
    requires forall i :: 0 <= i < |ms| ==> ms[i].blueTeam.Some? && ms[i].redTeam.Some? && ms[i].blueTeam != ms[i].redTeam
    ensures TallyOf(n, ms).points == WinningPoints * Victories(n, ms) + DrawPoints * Draws(n, ms)
  {
    if ms != [] {
      var s := ms[|ms| - 1];
      PointsCountWinsAndDraws(n, ms[..|ms| - 1]);
      if PlaysIn(n, s) {
        SharePoints(n, s);
      }
    }
  }

  /**
   * With an empty red slot (`None`, left by a best-of that ended on equal
   * tallies upstream) a drawn match is read as a red win: `get_winner()`
   * is `None`, which equals `red_team`, so blue gets no point.
   */
  lemma EmptyRedSlotDrawIsBlueLoss()
    ensures var s := MatchState(Some("A"), None, [1], [1], 0, 0, true);
      Winner(s) == None && BluePoints(s) == LosingPoints && Share("A", s).points == LosingPoints
  {
  }
}
