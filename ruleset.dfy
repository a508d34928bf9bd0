/**
 * The stage rules of src/tournapy/core/ruleset.py: a pool of teams, a
 * bracket of matches keyed by id, the queue of matches still to be played,
 * and the two implemented rulesets, single elimination and the Swiss system.
 */
module Rulesets {

  import opened Wrappers
  import opened Lists
  import opened Labels
  import opened Model
  import opened Standings
  import opened Elimination
  import opened Swiss

  /** The two rulesets the source implements (`SimpleElimination`, `SwissSystem`). */
  datatype Kind = SimpleElimination | SwissSystem

  /** `SwissSystem.max_rounds`. */
  const MaxRounds := 5

  /** The exceptions a report can end in. */
  datatype Failure =
    | GameRejected   // `add_game_result` on a finished best-of
    | NotQueued      // `match_queue.remove` of an id that is not queued
    | UnknownMatch   // `get_match` of a queued id that is not in the bracket
    | MissingTeam    // `get_standings` on an ended match whose blue slot is no pool team

  /** What `report_match_result` returns: the refusal message, the update message, or an exception. */
  datatype Report = Refused | Updated | Raised(failure: Failure)

  /** The names of the pool teams, in pool order. */
  function TeamNames(pool: seq<Team>): (ns: seq<string>)
    ensures |ns| == |pool|
    ensures forall i :: 0 <= i < |pool| ==> ns[i] == pool[i].name
  {
    if pool == [] then [] else TeamNames(pool[..|pool| - 1]) + [pool[|pool| - 1].name]
  }

  /** The position `get_team` stops at: the first team named `name`, or `|pool|` (no team; `None` matches no name). */
  function Find(pool: seq<Team>, name: Option<string>): (i: nat)
    ensures i <= |pool|
    ensures i < |pool| ==> name == Some(pool[i].name)
    ensures forall j :: 0 <= j < i ==> name != Some(pool[j].name)
  {
    if pool == [] then 0
    else if name == Some(pool[0].name) then 0
    else 1 + Find(pool[1..], name)
  }

  /** `get_team` finds a team exactly when the name is one of the pool names. */
  lemma {:induction false} FindKnown(pool: seq<Team>, name: Option<string>)
    ensures Find(pool, name) < |pool| <==> name.Some? && name.value in TeamNames(pool)
  {
    var ns := TeamNames(pool);
    if name.Some? && name.value in ns {
      var j :| 0 <= j < |ns| && ns[j] == name.value;
      assert name == Some(pool[j].name);
    }
  }

  /**
   * Team `pool[i]` is the object `get_team` returns for its own name, so the
   * standings credit it; a later team with the same name is never credited.
   */
  predicate Credited(pool: seq<Team>, i: nat)
    requires i < |pool|
  {
    var f := Find(pool, Some(pool[i].name));
    f < |pool| && pool[f] == pool[i]
  }

  /** Every pool team holds the tally of the matches `ms` (zero when it is not credited). */
  ghost predicate Tallied(pool: seq<Team>, ms: seq<MatchState>)
    reads pool
  {
    forall i {:trigger Credited(pool, i)} :: 0 <= i < |pool| ==>
      pool[i].Record() == if Credited(pool, i) then TallyOf(pool[i].name, ms) else NoTally
  }

  /** A team as the Swiss ranking reads it: name, points, goal difference and pool position. */
  function Entries(pool: seq<Team>): (es: seq<Entry>)
    reads pool
    ensures |es| == |pool|
    ensures forall i :: 0 <= i < |pool| ==>
      es[i] == Entry(pool[i].name, pool[i].points, pool[i].goalsScored - pool[i].goalsTaken, i)
  {
    seq(|pool|, i reads pool requires 0 <= i < |pool| =>
      Entry(pool[i].name, pool[i].points, pool[i].goalsScored - pool[i].goalsTaken, i))
  }

  /** The pool order is the seat order the Swiss ranking breaks ties with. */
  lemma {:induction false} EntriesBySeat(es: seq<Entry>)
    requires forall i :: 0 <= i < |es| ==> es[i].seat == i
    ensures SortedBy(BySeat, es)
  {
  }

  /** A slot of a match holds `team`: the test of `next_match`. */
  predicate Holds(s: MatchState, team: string) {
    s.blueTeam == Some(team) || s.redTeam == Some(team)
  }

  /** What `next_match` finds: a queued id missing from the bracket (`KeyError`), the queue position of the first match holding the team, or nothing. */
  datatype Lookup = Missing | Found(pos: nat) | NotFound

  /** The first queue position whose match holds `team`, or `|queue|`. */
  function Scan(queue: seq<string>, view: map<string, MatchState>, team: string): (k: nat)
    requires forall i :: 0 <= i < |queue| ==> queue[i] in view
    ensures k <= |queue|
    ensures k < |queue| ==> Holds(view[queue[k]], team)
    ensures forall j :: 0 <= j < k ==> !Holds(view[queue[j]], team)
  {
    if queue == [] then 0
    else if Holds(view[queue[0]], team) then 0
    else 1 + Scan(queue[1..], view, team)
  }

  /**
   * `next_match(team)` on the queue `queue` and the bracket whose match
   * states are `view`. The source first looks every queued id up, so one
   * missing id fails the whole call even when an earlier match holds the team.
   */
  function FirstHolder(queue: seq<string>, view: map<string, MatchState>, team: string): (r: Lookup)
    ensures r == Missing <==> exists i :: 0 <= i < |queue| && queue[i] !in view
    ensures r.Found? ==> r.pos < |queue| && queue[r.pos] in view && Holds(view[queue[r.pos]], team)
    ensures r.Found? ==> forall j :: 0 <= j < r.pos ==> queue[j] in view && !Holds(view[queue[j]], team)
    ensures r == NotFound ==> forall j :: 0 <= j < |queue| ==> queue[j] in view && !Holds(view[queue[j]], team)
  {
    if exists i :: 0 <= i < |queue| && queue[i] !in view then Missing
    else
      var k := Scan(queue, view, team);
      if k < |queue| then Found(k) else NotFound
  }

  /** The state of a match `Match(id, bo, blue, red)` has just after creation. */
  function Initial(f: Fixture): MatchState {
    MatchState(Some(f.blue), Some(f.red), [], [], 0, 0, false)
  }

  /** The bracket after `self.bracket[f.id] = Match(f.id, ...)` for each fixture `f` of `fs`, in order. */
  function Install(view: map<string, MatchState>, fs: seq<Fixture>): map<string, MatchState> {
    if fs == [] then view
    else Install(view, fs[..|fs| - 1])[fs[|fs| - 1].id := Initial(fs[|fs| - 1])]
  }

  /** After installing `fs` the bracket holds the old ids and the new ones. */
  lemma {:induction false} InstallKeys(view: map<string, MatchState>, fs: seq<Fixture>)
    ensures forall id :: id in Install(view, fs) <==> id in view || id in Ids(fs)
  {
    if fs != [] {
      var n := |fs| - 1;
      InstallKeys(view, fs[..n]);
      assert Ids(fs) == Ids(fs[..n]) + [fs[n].id];
    }
  }

  /** An id that `fs` does not create keeps its old match. */
  lemma {:induction false} InstallKeeps(view: map<string, MatchState>, fs: seq<Fixture>, id: string)
    requires id in view && id !in Ids(fs)
    ensures id in Install(view, fs) && Install(view, fs)[id] == view[id]
  {
    if fs != [] {
      var n := |fs| - 1;
      assert Ids(fs) == Ids(fs[..n]) + [fs[n].id];
      InstallKeeps(view, fs[..n], id);
    }
  }

  /** An id that `fs` creates holds the fresh match of its LAST fixture with that id. */
  lemma {:induction false} InstallLast(view: map<string, MatchState>, fs: seq<Fixture>, k: nat)
    requires k < |fs| && forall j :: k < j < |fs| ==> fs[j].id != fs[k].id
    ensures fs[k].id in Install(view, fs) && Install(view, fs)[fs[k].id] == Initial(fs[k])
  {
    var n := |fs| - 1;
    if k < n {
      assert fs[..n][k] == fs[k];
      assert forall j :: k < j < n ==> fs[..n][j] == fs[j];
      InstallLast(view, fs[..n], k);
    }
  }

  /** With pairwise distinct ids, every fixture of `fs` is installed as given. */
  lemma {:induction false} InstallDistinct(view: map<string, MatchState>, fs: seq<Fixture>)
    requires Distinct(Ids(fs))
    ensures forall k :: 0 <= k < |fs| ==> fs[k].id in Install(view, fs) && Install(view, fs)[fs[k].id] == Initial(fs[k])
  {
    forall k | 0 <= k < |fs|
      ensures fs[k].id in Install(view, fs) && Install(view, fs)[fs[k].id] == Initial(fs[k])
    {
      forall j | k < j < |fs|
        ensures fs[j].id != fs[k].id
      {
        assert Ids(fs)[j] != Ids(fs)[k];
      }
      InstallLast(view, fs, k);
    }
  }

  /** The state after `add_game_result(blue, red)` succeeds. */
  function AddGame(s: MatchState, blue: int, red: int): MatchState {
    s.(blueScore := s.blueScore + [blue], redScore := s.redScore + [red])
  }

  /**
   * The part of `report_match_result` both rulesets share: the report so far,
   * the queue, whether the match ended and went to the history, and the
   * state the reported match is left in.
   */
  datatype Played = Played(report: Report, queue: seq<string>, ended: bool, state: MatchState)

  /**
   * Reporting a game of the match `id` in state `s`: refused when the stage is
   * not running; otherwise the game is added (or `add_game_result` raises),
   * the tallies are recomputed, and an ended match is removed from the queue
   * (or `list.remove` raises because it is not queued).
   */
  function Play(running: bool, queue: seq<string>, id: string, s: MatchState, bo: int, blue: int, red: int): (p: Played)
    requires |s.blueScore| == |s.redScore|
    ensures |p.state.blueScore| == |p.state.redScore|
    ensures p.state.blueTeam == s.blueTeam && p.state.redTeam == s.redTeam
    ensures s.ended ==> !p.ended && p.state == s
    ensures p.ended ==> p.report == Updated && p.state.ended && id in queue && p.queue == RemoveFirst(queue, id)
    ensures !p.ended ==> p.queue == queue
  {
    if !running then Played(Refused, queue, false, s)
    else if !(|s.blueScore| < bo && !s.ended) then Played(Raised(GameRejected), queue, false, s)
    else
      var t := Resolve(AddGame(s, blue, red), bo);
      if !t.ended then Played(Updated, queue, false, t)
      else if id !in queue then Played(Raised(NotQueued), queue, false, t)
      else Played(Updated, RemoveFirst(queue, id), true, t)
  }

  /**
   * A report that is not refused and not rejected records exactly one more
   * game; the match leaves the queue exactly when it ends while queued, and
   * then one copy of its id leaves (`list.remove`); with ids queued once,
   * it is the only id that leaves and the others stay queued once.
   */
  lemma {:induction false} PlayRecordsGame(running: bool, queue: seq<string>, id: string, s: MatchState, bo: int, blue: int, red: int)
    requires |s.blueScore| == |s.redScore|
    ensures var p := Play(running, queue, id, s, bo, blue, red);
      (p.report == Refused <==> !running) &&
      (p.report != Refused && p.report != Raised(GameRejected) ==>
        p.state.blueScore == s.blueScore + [blue] && p.state.redScore == s.redScore + [red] &&
        p.state.blueTeam == s.blueTeam && p.state.redTeam == s.redTeam &&
        p.state.boBlueScore == Wins(p.state.blueScore, p.state.redScore) &&
        p.state.boRedScore == Wins(p.state.redScore, p.state.blueScore)) &&
      (p.ended <==> p.report == Updated && p.state.ended && id in queue) &&
      (p.ended ==> p.queue == RemoveFirst(queue, id) && multiset(p.queue) == multiset(queue) - multiset{id}) &&
      (!p.ended ==> p.queue == queue) &&
      (Distinct(queue) && p.ended ==> Distinct(p.queue) && forall x :: x in p.queue <==> x in queue && x != id)
  {
    RemoveFirstOneCopy(queue, id);
    if Distinct(queue) {
      RemoveFirstMembers(queue, id);
      RemoveFirstDistinct(queue, id);
    }
  }

  /**
   * The games `gs` reported one after another to the match `id`, each to
   * the state and queue the previous report left: the reports in order, and
   * the final queue and match state.
   */
  function Replay(running: bool, queue: seq<string>, id: string, s: MatchState, bo: int, gs: seq<(int, int)>): (t: (seq<Report>, seq<string>, MatchState))
    requires |s.blueScore| == |s.redScore|
    ensures |t.0| == |gs|
    decreases |gs|
  {
    if gs == [] then ([], queue, s)
    else
      var p := Play(running, queue, id, s, bo, gs[0].0, gs[0].1);
      var rest := Replay(running, p.queue, id, p.state, bo, gs[1..]);
      ([p.report] + rest.0, rest.1, rest.2)
  }

  /**
   * `ended` is a latch that `add_game_result` honours: on a running stage,
   * every game reported to an ended match is rejected, and neither the
   * match nor the queue changes, however many games follow.
   */
  lemma {:induction false} EndedMatchRejectsGames(queue: seq<string>, id: string, s: MatchState, bo: int, gs: seq<(int, int)>)
    requires |s.blueScore| == |s.redScore| && s.ended
    ensures var t := Replay(true, queue, id, s, bo, gs);
      t.1 == queue && t.2 == s && forall i :: 0 <= i < |gs| ==> t.0[i] == Raised(GameRejected)
    decreases |gs|
  {
    if gs != [] {
      EndedMatchRejectsGames(queue, id, s, bo, gs[1..]);
    }
  }

  /** The winner `w` takes the slot of `s` that holds the placeholder `ph`: blue when it does, red otherwise. */
  function Advance(s: MatchState, ph: string, w: Option<string>): MatchState {
    if s.blueTeam == Some(ph) then s.(blueTeam := w) else s.(redTeam := w)
  }

  /** What a report leaves behind: the report, queue, history growth, bracket, reported match and whether the stage runs. */
  datatype Step = Step(report: Report, queue: seq<string>, toHistory: bool, view: map<string, MatchState>,
                       state: MatchState, running: bool)

  /** What handing on a winner leaves behind: the report, the bracket and whether the stage runs. */
  datatype Passed = Passed(report: Report, view: map<string, MatchState>, running: bool)

  /**
   * The winner `w` of the ended match `id` goes to the first match of
   * `queue` holding `winner(<id>)`; when none does the stage stops, and a
   * queued id missing from the bracket raises.
   */
  function Pass(queue: seq<string>, view: map<string, MatchState>, id: string, w: Option<string>, running: bool): (r: Passed)
    ensures r.view.Keys == view.Keys
    ensures r.report == Raised(UnknownMatch) <==> exists i :: 0 <= i < |queue| && queue[i] !in view
    ensures r.report != Raised(UnknownMatch) ==> r.report == Updated
    ensures r.report == Raised(UnknownMatch) ==> r.view == view && r.running == running
    ensures r.running ==> running
    ensures running && !r.running ==>
      forall j :: 0 <= j < |queue| ==> queue[j] in view && !Holds(view[queue[j]], Placeholder(id))
    ensures forall k :: k in view && r.view[k] != view[k] ==>
      k in queue && Holds(view[k], Placeholder(id)) && r.view[k] == Advance(view[k], Placeholder(id), w)
    ensures (forall j :: 0 <= j < |queue| ==> queue[j] in view && !Holds(view[queue[j]], Placeholder(id))) ==>
      r == Passed(Updated, view, false)
    ensures forall k ::
      (0 <= k < |queue| && queue[k] in view && Holds(view[queue[k]], Placeholder(id)) &&
       (forall j :: 0 <= j < |queue| ==> queue[j] in view) &&
       (forall j :: 0 <= j < k ==> !Holds(view[queue[j]], Placeholder(id)))) ==>
      r == Passed(Updated, view[queue[k] := Advance(view[queue[k]], Placeholder(id), w)], running)
  {
    var ph := Placeholder(id);
    match FirstHolder(queue, view, ph)
    case Missing => Passed(Raised(UnknownMatch), view, running)
    case NotFound => Passed(Updated, view, false)
    case Found(k) => Passed(Updated, view[queue[k] := Advance(view[queue[k]], ph, w)], running)
  }

  /**
   * `SimpleElimination.report_match_result` on values. `view` holds the
   * states of the bracket matches; `inBracket` says whether the reported
   * match is the bracket's match `id` (its new state then shows up there
   * too, and so does a winner handed to itself). An ended match hands its
   * winner on as `Pass` says.
   */
  function EliminationStep(running: bool, queue: seq<string>, view: map<string, MatchState>,
                           id: string, s: MatchState, bo: int, inBracket: bool, blue: int, red: int): (st: Step)
    requires |s.blueScore| == |s.redScore|
    ensures st.view.Keys == if inBracket then view.Keys + {id} else view.Keys
    ensures st.report == Refused <==> !running
    ensures st.running ==> running
    ensures !st.toHistory ==> st.queue == queue && st.running == running
    ensures st.toHistory ==> st.state.ended && id in queue && st.queue == RemoveFirst(queue, id)
    ensures var p := Play(running, queue, id, s, bo, blue, red);
      var v := if inBracket then view[id := p.state] else view;
      st.toHistory == p.ended &&
      (!st.toHistory ==> st.report == p.report && st.view == v && st.state == p.state) &&
      (st.toHistory ==> var q := Pass(p.queue, v, id, Winner(p.state), running);
        st.report == q.report && st.view == q.view && st.running == q.running)
  {
    var p := Play(running, queue, id, s, bo, blue, red);
    var v := if inBracket then view[id := p.state] else view;
    if !p.ended then Step(p.report, p.queue, false, v, p.state, running)
    else
      var q := Pass(p.queue, v, id, Winner(p.state), running);
      Step(q.report, p.queue, true, q.view, if inBracket then q.view[id] else p.state, q.running)
  }

  /**
   * In the bracket `init_bracket` builds, the winner of match `j` of round
   * `r + 1` is handed to match `r-(i + 1)` (with `i = AwaitingIndex(r, j)`)
   * whenever that match is still queued, and to no match otherwise,
   * whatever else has left the queue.
   */
  lemma {:induction false} WinnerGoesToAwaitingMatch(names: seq<string>, d: nat, r: nat, j: nat, queue: seq<string>)
    requires Fits(|names|, d) && r + 1 < d && 1 <= j <= Pow2(r + 1)
    requires Placeholder(MatchId(r + 1, j)) !in names
    requires forall i :: 0 <= i < |queue| ==> queue[i] in Ids(Bracket(names, d))
    ensures var target := MatchId(r, AwaitingIndex(r, j) + 1);
      FirstHolder(queue, Install(map[], Bracket(names, d)), Placeholder(MatchId(r + 1, j))) ==
        if target in queue then Found(IndexOf(queue, target)) else NotFound
  {
    var v, target := Install(map[], Bracket(names, d)), MatchId(r, AwaitingIndex(r, j) + 1);
    forall i | 0 <= i < |queue|
      ensures queue[i] in v && (Holds(v[queue[i]], Placeholder(MatchId(r + 1, j))) <==> queue[i] == target)
    {
      OnlyAwaitingMatchHolds(names, d, r, j, queue[i]);
    }
    FirstHolderOfOne(queue, v, Placeholder(MatchId(r + 1, j)), target);
  }

  /**
   * A run of a four-team stage, best-of-1: the bracket `init_bracket` builds
   * for the pool A, B, C, D; then A beats D and B beats C, which fills the
   * final `0-1` with (A, B); once A beats B no queued match awaits
   * `winner(0-1)`, so the stage stops.
   */
  const FourTeamView: map<string, MatchState> := map[
    "0-1" := MatchState(Some("winner(1-1)"), Some("winner(1-2)"), [], [], 0, 0, false),
    "1-1" := MatchState(Some("A"), Some("D"), [], [], 0, 0, false),
    "1-2" := MatchState(Some("B"), Some("C"), [], [], 0, 0, false)]

  /** Installing the bracket of A, B, C, D gives `FourTeamView`, queued final first. */
  lemma {:induction false} FourTeamInstalled()
    ensures Install(map[], Bracket(["A", "B", "C", "D"], 2)) == FourTeamView
    ensures Ids(Bracket(["A", "B", "C", "D"], 2)) == ["0-1", "1-1", "1-2"]
  {
    FourTeamBracket();
    var f0, f1, f2 := Fixture("0-1", "winner(1-1)", "winner(1-2)"), Fixture("1-1", "A", "D"), Fixture("1-2", "B", "C");
    var fs := [f0, f1, f2];
    assert fs[..2] == [f0, f1] && [f0, f1][..1] == [f0] && [f0][..0] == [];
    assert Install(map[], [f0]) == map["0-1" := Initial(f0)];
    assert Install(map[], [f0, f1]) == map["0-1" := Initial(f0), "1-1" := Initial(f1)];
    assert Install(map[], fs) == FourTeamView;
  }

  /** `next_match` finds the first queued match when it holds the team and every queued id is known. */
  lemma {:induction false} FirstHolderAtHead(queue: seq<string>, view: map<string, MatchState>, team: string)
    requires queue != [] && (forall i :: 0 <= i < |queue| ==> queue[i] in view) && Holds(view[queue[0]], team)
    ensures FirstHolder(queue, view, team) == Found(0)
  {
  }

  /** A beats D 1-0 in `1-1`: the match leaves the queue and A takes the blue slot of the final. */
  lemma {:induction false} FourTeamFirstSemi()
    ensures EliminationStep(true, ["0-1", "1-1", "1-2"], FourTeamView, "1-1", FourTeamView["1-1"], 1, true, 1, 0) ==
      Step(Updated, ["0-1", "1-2"], true,
        FourTeamView["1-1" := MatchState(Some("A"), Some("D"), [1], [0], 1, 0, true)]
                    ["0-1" := MatchState(Some("A"), Some("winner(1-2)"), [], [], 0, 0, false)],
        MatchState(Some("A"), Some("D"), [1], [0], 1, 0, true), true)
  {
    var t := MatchState(Some("A"), Some("D"), [1], [0], 1, 0, true);
    assert [1][..0] == [] && [0][..0] == [];
    assert Resolve(AddGame(FourTeamView["1-1"], 1, 0), 1) == t;
    assert RemoveFirst(["0-1", "1-1", "1-2"], "1-1") == ["0-1", "1-2"];
    SmallIds();
    var v := FourTeamView["1-1" := t];
    FirstHolderAtHead(["0-1", "1-2"], v, Placeholder("1-1"));
  }

  /** B beats C 2-1 in `1-2`: the match leaves the queue and B takes the red slot of the final. */
  lemma {:induction false} FourTeamSecondSemi()
    ensures var v1 := FourTeamView["1-1" := MatchState(Some("A"), Some("D"), [1], [0], 1, 0, true)]
                                  ["0-1" := MatchState(Some("A"), Some("winner(1-2)"), [], [], 0, 0, false)];
      EliminationStep(true, ["0-1", "1-2"], v1, "1-2", v1["1-2"], 1, true, 2, 1) ==
      Step(Updated, ["0-1"], true,
        v1["1-2" := MatchState(Some("B"), Some("C"), [2], [1], 1, 0, true)]
          ["0-1" := MatchState(Some("A"), Some("B"), [], [], 0, 0, false)],
        MatchState(Some("B"), Some("C"), [2], [1], 1, 0, true), true)
  {
    var t := MatchState(Some("B"), Some("C"), [2], [1], 1, 0, true);
    assert [2][..0] == [] && [1][..0] == [];
    assert RemoveFirst(["0-1", "1-2"], "1-2") == ["0-1"];
    SmallIds();
    var v1 := FourTeamView["1-1" := MatchState(Some("A"), Some("D"), [1], [0], 1, 0, true)]
                          ["0-1" := MatchState(Some("A"), Some("winner(1-2)"), [], [], 0, 0, false)];
    assert Resolve(AddGame(v1["1-2"], 2, 1), 1) == t;
    FirstHolderAtHead(["0-1"], v1["1-2" := t], Placeholder("1-2"));
  }

  /** A beats B 3-0 in the final: the queue is empty, no match awaits `winner(0-1)`, and the stage stops. */
  lemma {:induction false} FourTeamFinal(v: map<string, MatchState>)
    requires "0-1" in v && v["0-1"] == MatchState(Some("A"), Some("B"), [], [], 0, 0, false)
    ensures var st := EliminationStep(true, ["0-1"], v, "0-1", v["0-1"], 1, true, 3, 0);
      st.report == Updated && st.queue == [] && st.toHistory && !st.running &&
      st.state == MatchState(Some("A"), Some("B"), [3], [0], 1, 0, true) && Winner(st.state) == Some("A")
  {
    var t := MatchState(Some("A"), Some("B"), [3], [0], 1, 0, true);
    assert [3][..0] == [] && [0][..0] == [];
    assert Resolve(AddGame(v["0-1"], 3, 0), 1) == t;
    assert RemoveFirst(["0-1"], "0-1") == [];
  }

  /** The one match of the fresh bracket holding the placeholder for match `r+1-j` is its awaiting match. */
  lemma {:induction false} OnlyAwaitingMatchHolds(names: seq<string>, d: nat, r: nat, j: nat, id: string)
    requires Fits(|names|, d) && r + 1 < d && 1 <= j <= Pow2(r + 1)
    requires Placeholder(MatchId(r + 1, j)) !in names
    requires id in Ids(Bracket(names, d))
    ensures var v := Install(map[], Bracket(names, d));
      id in v && (Holds(v[id], Placeholder(MatchId(r + 1, j))) <==> id == MatchId(r, AwaitingIndex(r, j) + 1))
  {
    var fs := Bracket(names, d);
    BracketIdsDistinct(names, d);
    PlaceholderReferencedOnce(names, d, r, j);
    OnlyOneHolds(fs, Placeholder(MatchId(r + 1, j)), AwaitingPosition(r, j), id);
  }

  /** In a freshly installed list of fixtures with distinct ids where only `fs[p]` names `x`, only `fs[p]` holds `x`. */
  lemma {:induction false} OnlyOneHolds(fs: seq<Fixture>, x: string, p: nat, id: string)
    requires Distinct(Ids(fs)) && p < |fs| && (fs[p].blue == x || fs[p].red == x)
    requires forall q :: 0 <= q < |fs| && q != p ==> fs[q].blue != x && fs[q].red != x
    requires id in Ids(fs)
    ensures var v := Install(map[], fs);
      id in v && (Holds(v[id], x) <==> id == fs[p].id)
  {
    InstallDistinct(map[], fs);
    var q :| 0 <= q < |fs| && Ids(fs)[q] == id;
    assert Install(map[], fs)[id] == Initial(fs[q]);
    if q != p {
      assert Ids(fs)[q] != Ids(fs)[p];
    }
  }

  /** When exactly the match `target` holds `x`, `next_match(x)` finds the first occurrence of `target` in the queue. */
  lemma {:induction false} FirstHolderOfOne(queue: seq<string>, v: map<string, MatchState>, x: string, target: string)
    requires forall i :: 0 <= i < |queue| ==> queue[i] in v && (Holds(v[queue[i]], x) <==> queue[i] == target)
    ensures FirstHolder(queue, v, x) == if target in queue then Found(IndexOf(queue, target)) else NotFound
  {
    var h := FirstHolder(queue, v, x);
    if target in queue {
      var t := IndexOf(queue, target);
      assert Holds(v[queue[t]], x);
      assert h.Found? && h.pos == t;
    } else {
      assert h == NotFound;
    }
  }

  /** `match.add_game_result(blue, red)` followed, when it succeeds, by `match.compute_bo()`. */
  method RecordGame(m: Match, blue: int, red: int) returns (ok: bool)
    requires m.Valid()
    modifies m
    ensures m.Valid()
    ensures ok == old(m.CanAddGame())
    ensures m.State() == if ok then Resolve(AddGame(old(m.State()), blue, red), m.bo) else old(m.State())
  {
    ok := m.AddGameResult(blue, red);
    if ok {
      var _ := m.ComputeBo();
    }
  }

  /** Appending one fixture appends its id and installs it last. */
  lemma {:induction false} AddedOne(fs: seq<Fixture>, f: Fixture)
    ensures Ids(fs + [f]) == Ids(fs) + [f.id]
    ensures forall view :: Install(view, fs + [f]) == Install(view, fs)[f.id := Initial(f)]
  {
    assert (fs + [f])[..|fs|] == fs;
  }

  lemma {:induction false} IdsAppend(a: seq<Fixture>, b: seq<Fixture>)
    ensures Ids(a + b) == Ids(a) + Ids(b)
  {
    var ab := Ids(a + b);
    assert |ab| == |Ids(a) + Ids(b)|;
    forall p | 0 <= p < |ab|
      ensures ab[p] == (Ids(a) + Ids(b))[p]
    {
      if p >= |a| {
        assert (a + b)[p] == b[p - |a|];
      }
    }
  }

  /** Installing `a + b` is installing `a`, then `b`. */
  lemma {:induction false} InstallAppend(view: map<string, MatchState>, a: seq<Fixture>, b: seq<Fixture>)
    ensures Install(view, a + b) == Install(Install(view, a), b)
    decreases |b|
  {
    if b == [] {
      assert a + b == a;
    } else {
      var n := |b| - 1;
      assert (a + b)[..|a + b| - 1] == a + b[..n];
      InstallAppend(view, a, b[..n]);
    }
  }

  /** `get_team(name)` returns `pool[j]` exactly when `pool[j]` is credited under its own name and `name` is that name. */
  lemma {:induction false} ReturnedTeam(pool: seq<Team>, j: nat, name: Option<string>)
    requires j < |pool|
    ensures (Find(pool, name) < |pool| && pool[Find(pool, name)] == pool[j]) <==>
      Credited(pool, j) && name == Some(pool[j].name)
  {
  }

  /** Adds `x` to the points and goals of `t`. */
  method Credit(t: Team, x: Tally)
    modifies t`points, t`goalsScored, t`goalsTaken
    ensures t.Record() == Add(old(t.Record()), x)
  {
    t.goalsScored := t.goalsScored + x.scored;
    t.goalsTaken := t.goalsTaken + x.taken;
    t.points := t.points + x.points;
  }

  /** The team `get_team(name)` returns is `pool[j]`. */
  predicate Picks(pool: seq<Team>, name: Option<string>, j: nat)
    requires j < |pool|
  {
    Find(pool, name) < |pool| && pool[Find(pool, name)] == pool[j]
  }

  /**
   * Crediting the blue part to the team found for the blue slot and the red
   * part to the team found for the red slot moves a team from its tally over
   * `before` to its tally over `before + [s]`: a credited team named `n` is
   * found for exactly the slots holding `n`, an uncredited one for none.
   */
  lemma {:induction false} SettleStep(n: string, credited: bool, blue: bool, red: bool, s: MatchState, before: seq<MatchState>)
    requires credited ==> (blue <==> s.blueTeam == Some(n)) && (red <==> s.redTeam == Some(n))
    requires !credited ==> !blue && !red
    ensures (if credited then TallyOf(n, before + [s]) else NoTally) ==
      Add(Add(if credited then TallyOf(n, before) else NoTally, if blue then BluePart(s) else NoTally),
          if red then RedPart(s) else NoTally)
  {
    if credited {
      TallyAppend(n, before, s);
      AddShare(n, blue, red, s, TallyOf(n, before));
    }
  }


  /**
   * One pass of the `get_standings` loop: `blue` is what `get_team` found
   * for the blue slot, `red` what it found for the red slot or a throwaway
   * team outside the pool. The pool then holds the tallies of one more match.
   */
  method Settle(pool: seq<Team>, blue: Team, red: Team, s: MatchState, ghost before: seq<MatchState>)
    requires Find(pool, s.blueTeam) < |pool| && blue == pool[Find(pool, s.blueTeam)]
    requires if Find(pool, s.redTeam) < |pool| then red == pool[Find(pool, s.redTeam)] else red !in pool
    requires Tallied(pool, before)
    modifies blue`points, blue`goalsScored, blue`goalsTaken, red`points, red`goalsScored, red`goalsTaken
    ensures Tallied(pool, before + [s])
  {
    Credit(blue, BluePart(s));
    Credit(red, RedPart(s));
    forall j | 0 <= j < |pool|
      ensures pool[j].Record() == if Credited(pool, j) then TallyOf(pool[j].name, before + [s]) else NoTally
    {
      assert pool[j] == blue <==> Picks(pool, s.blueTeam, j);
      assert pool[j] == red <==> Picks(pool, s.redTeam, j);
      assert pool[j].Record() == Add(Add(old(pool[j].Record()), if pool[j] == blue then BluePart(s) else NoTally),
                                     if pool[j] == red then RedPart(s) else NoTally);
      ReturnedTeam(pool, j, s.blueTeam);
      ReturnedTeam(pool, j, s.redTeam);
      SettleStep(pool[j].name, Credited(pool, j), pool[j] == blue, pool[j] == red, s, before);
    }
  }

  /**
   * One stage of a tournament: a capacity-bounded pool of teams, the bracket
   * (match id to match), the queue of ids still to be played, and the ended
   * matches in the order they ended. `round` is used by the Swiss system only.
   */
  class Ruleset {
    const name: string
    const kind: Kind
    const poolMaxSize: int
    const bo: int
    var pool: seq<Team>
    var history: seq<Match>
    var bracketDepth: nat
    var bracket: map<string, Match>
    var queue: seq<string>
    var running: bool
    var round: nat

    /**
     * The pool never exceeds its capacity, and each bracket entry is a
     * well-formed best-of-`bo` match stored under its own id.
     */
    ghost predicate Valid()
      reads this`pool, this`bracket, bracket.Values
    {
      (pool == [] || |pool| <= poolMaxSize) &&
      forall id :: id in bracket ==> bracket[id].id == id && bracket[id].bo == bo && bracket[id].Valid()
    }

    /** The states of the bracket matches, by id. */
    function View(): map<string, MatchState>
      reads this`bracket, bracket.Values
    {
      map id | id in bracket :: bracket[id].State()
    }

    /** The states of the matches of the history, in order. */
    function HistoryStates(): (hs: seq<MatchState>)
      reads this`history, history
      ensures |hs| == |history|
      ensures forall i :: 0 <= i < |history| ==> hs[i] == history[i].State()
    {
      var h := history;
      seq(|h|, i reads h requires 0 <= i < |h| => h[i].State())
    }

    /** `m` is the bracket's match under its own id. */
    predicate InBracket(m: Match)
      reads this`bracket
    {
      m.id in bracket && bracket[m.id] == m
    }

    /** `Ruleset.__init__`, with `SwissSystem.__init__`'s `round = 0`. */
    constructor (name: string, kind: Kind, size: int, bo: int)
      ensures Valid()
      ensures this.name == name && this.kind == kind && poolMaxSize == size && this.bo == bo
      ensures pool == [] && history == [] && bracketDepth == 0 && bracket == map[] && queue == []
      ensures !running && round == 0
    {
      this.name := name;
      this.kind := kind;
      poolMaxSize := size;
      this.bo := bo;
      pool, history := [], [];
      bracketDepth := 0;
      bracket := map[];
      queue := [];
      running := false;
      round := 0;
    }

    /** `add_team`: appends `t` exactly when the pool is below capacity. */
    method AddTeam(t: Team) returns (ok: bool)
      requires Valid()
      modifies this`pool
      ensures Valid()
      ensures ok == (|old(pool)| < poolMaxSize)
      ensures pool == if ok then old(pool) + [t] else old(pool)
    {
      ok := |pool| < poolMaxSize;
      if ok {
        pool := pool + [t];
      }
    }

    /** `start`. */
    method Start()
      modifies this`running
      ensures running
    {
      running := true;
    }

    /** `self.bracket[f.id] = Match(f.id, self.bo, f.blue, f.red)` and `self.match_queue.append(f.id)`. */
    method AddMatch(f: Fixture)
      requires Valid()
      modifies this`bracket, this`queue
      ensures Valid()
      ensures queue == old(queue) + [f.id]
      ensures View() == old(View())[f.id := Initial(f)]
      ensures f.id in bracket && fresh(bracket[f.id]) && bracket == old(bracket)[f.id := bracket[f.id]]
    {
      var m := new Match(f.id, bo, f.blue, f.red);
      bracket := bracket[f.id := m];
      queue := queue + [f.id];
    }

    /** The loop `for group in groups: ...` of the Swiss system: every fixture of `fs` is created and queued, in order. */
    method AddAll(fs: seq<Fixture>)
      requires Valid()
      modifies this`bracket, this`queue
      ensures Valid()
      ensures queue == old(queue) + Ids(fs)
      ensures View() == Install(old(View()), fs)
      ensures forall id :: id in bracket ==> id in old(bracket) || fresh(bracket[id])
    {
      var k := 0;
      while k < |fs|
        invariant k <= |fs| && Valid()
        invariant queue == old(queue) + Ids(fs[..k])
        invariant View() == Install(old(View()), fs[..k])
        invariant forall id :: id in bracket ==> id in old(bracket) || fresh(bracket[id])
      {
        AddMatch(fs[k]);
        TakeOneMore(fs, k);
        assert fs[..k + 1][..k] == fs[..k];
        k := k + 1;
      }
      assert fs[..k] == fs;
    }

    /**
     * `SimpleElimination.init_bracket`: `2^d - 1` matches over `d` rounds,
     * created round by round (the final first) and queued in that order.
     * An empty pool fails (`math.log(0, 2)` raises) before anything changes.
     * The old bracket is dropped; the queue is not reset.
     */
    method InitElimination() returns (ok: bool)
      requires kind == SimpleElimination && Valid()
      modifies this`bracketDepth, this`bracket, this`queue
      ensures Valid()
      ensures ok == (|pool| > 0)
      ensures !ok ==> bracketDepth == old(bracketDepth) && bracket == old(bracket) && queue == old(queue)
      ensures ok ==> Fits(|pool|, bracketDepth) && bracketDepth == Depth(|pool|)
      ensures ok ==> queue == old(queue) + Ids(Bracket(TeamNames(pool), bracketDepth))
      ensures ok ==> View() == Install(map[], Bracket(TeamNames(pool), bracketDepth))
      ensures forall id :: id in bracket ==> !ok || fresh(bracket[id])
    {
      var n := |pool|;
      if n == 0 {
        return false;
      }
      ok := true;
      var d := Depth(n);
      FitsIsDepth(n, d);
      bracketDepth := d;
      bracket := map[];
      var fs := PlanBracket(d);
      AddAll(fs);
      RoundsAreBracket(TeamNames(pool), d);
    }

    /**
     * The nested loops of `init_bracket`, round by round from the final:
     * the matches they create, in creation order. (Creating a match changes
     * nothing the next one depends on, so the model computes them all
     * before storing them.)
     */
    method PlanBracket(d: nat) returns (fs: seq<Fixture>)
      requires Fits(|pool|, d)
      ensures fs == Rounds(TeamNames(pool), d, d)
    {
      ghost var names := TeamNames(pool);
      fs := [];
      var r := 0;
      while r < d
        invariant r <= d && fs == Rounds(names, d, r)
      {
        ghost var rs := BracketRound(names, d, r);
        var matches := Pow2(r);
        var i := 0;
        while i < matches
          invariant i <= matches && fs == Rounds(names, d, r) + rs[..i]
        {
          var f := RoundMatch(d, r, i);
          TakeOneMore(rs, i);
          fs := fs + [f];
          i := i + 1;
        }
        assert rs[..i] == rs;
        r := r + 1;
      }
    }

    /**
     * The body of the inner loop of `init_bracket`: the id and the two slots
     * of match `i + 1` of round `r`. Outside the seeding round the slots are
     * placeholders for the winners of round `r + 1`; in the seeding round
     * they are the pool teams `i` and `2^(r+1) - i - 1`, or `forfeit` when
     * the pool has no such team (the `IndexError` branch).
     */
    method RoundMatch(d: nat, r: nat, i: nat) returns (f: Fixture)
      requires Fits(|pool|, d) && r < d && i < Pow2(r)
      ensures f == BracketRound(TeamNames(pool), d, r)[i]
    {
      var teams := Pow2(r) * 2;
      var blue, red;
      if r != d - 1 {
        blue := Placeholder(MatchId(r + 1, i + 1));
        red := Placeholder(MatchId(r + 1, teams - i));
      } else {
        RoundEntry(TeamNames(pool), d, r, i);
        blue := pool[i].name;
        red := if teams - i - 1 < |pool| then pool[teams - i - 1].name else Forfeit;
      }
      f := Fixture(MatchId(r, i + 1), blue, red);
      RoundEntry(TeamNames(pool), d, r, i);
    }

    /**
     * `SwissSystem.init_bracket`: round 1 pairs the pool in order; the old
     * bracket is dropped, the queue is not reset.
     */
    method InitSwiss()
      requires kind == SwissSystem && Valid()
      modifies this`round, this`bracket, this`queue
      ensures Valid() && round == 1
      ensures queue == old(queue) + Ids(RoundFixtures(1, Grouper(TeamNames(pool))))
      ensures View() == Install(map[], RoundFixtures(1, Grouper(TeamNames(pool))))
      ensures forall id :: id in bracket ==> fresh(bracket[id])
    {
      round := 1;
      bracket := map[];
      assert View() == map[];
      AddAll(RoundFixtures(round, Grouper(TeamNames(pool))));
    }

    /** `get_team`: the first pool team named `teamName`, or `None`. */
    method GetTeam(teamName: Option<string>) returns (t: Option<Team>)
      ensures t.Some? <==> teamName.Some? && teamName.value in TeamNames(pool)
      ensures t == if Find(pool, teamName) < |pool| then Some(pool[Find(pool, teamName)]) else None
    {
      FindKnown(pool, teamName);
      var i := 0;
      while i < |pool|
        invariant 0 <= i <= |pool|
        invariant forall j :: 0 <= j < i ==> teamName != Some(pool[j].name)
      {
        if teamName == Some(pool[i].name) {
          return Some(pool[i]);
        }
        i := i + 1;
      }
      return None;
    }

    /**
     * `next_match(team)`: every queued id is looked up first (a missing one
     * raises `KeyError`), then the first queued match with `team` in a slot
     * is returned, here as its queue position.
     */
    method NextMatch(team: string) returns (r: Lookup)
      ensures r == FirstHolder(queue, View(), team)
    {
      var ms: seq<Match> := [];
      var i := 0;
      while i < |queue|
        invariant 0 <= i <= |queue| && |ms| == i
        invariant forall j :: 0 <= j < i ==> queue[j] in bracket && ms[j] == bracket[queue[j]]
      {
        if queue[i] !in bracket {
          return Missing;
        }
        ms := ms + [bracket[queue[i]]];
        i := i + 1;
      }
      i := 0;
      while i < |ms|
        invariant 0 <= i <= |ms|
        invariant forall j :: 0 <= j < i ==> !Holds(View()[queue[j]], team)
      {
        if Some(team) == ms[i].blueTeam || Some(team) == ms[i].redTeam {
          return Found(i);
        }
        i := i + 1;
      }
      return NotFound;
    }

    /**
     * The part of `report_match_result` both rulesets share: refuse when
     * the stage is not running, add the game, recount the best-of, and move
     * an ended match from the queue to the history.
     */
    method ReportGame(m: Match, blue: int, red: int) returns (p: Played)
      requires Valid() && m.Valid()
      modifies this`queue, this`history, m
      ensures Valid() && m.Valid()
      ensures p == Play(old(running), old(queue), m.id, old(m.State()), m.bo, blue, red)
      ensures queue == p.queue && m.State() == p.state
      ensures history == old(history) + if p.ended then [m] else []
      ensures View() == if old(InBracket(m)) then old(View())[m.id := p.state] else old(View())
    {
      if !running {
        p := Played(Refused, queue, false, m.State());
      } else {
        ghost var inBracket, v0 := InBracket(m), View();
        var ok := RecordBracketGame(m, blue, red);
        ghost var v1 := View();
        assert v1 == if inBracket then v0[m.id := m.State()] else v0;
        p := Recorded(m, ok);
        assert View() == v1 && p.state == m.State();
      }
    }

    /** What `ReportGame` reports once the game has been offered to `m` (`ok` when it was added). */
    method Recorded(m: Match, ok: bool) returns (p: Played)
      modifies this`queue, this`history
      ensures p.state == m.State() && queue == p.queue
      ensures p == if !ok then Played(Raised(GameRejected), old(queue), false, m.State())
        else if !m.ended then Played(Updated, old(queue), false, m.State())
        else if m.id !in old(queue) then Played(Raised(NotQueued), old(queue), false, m.State())
        else Played(Updated, RemoveFirst(old(queue), m.id), true, m.State())
      ensures history == old(history) + if p.ended then [m] else []
      ensures View() == old(View())
    {
      if !ok {
        p := Played(Raised(GameRejected), queue, false, m.State());
      } else if !m.ended {
        p := Played(Updated, queue, false, m.State());
      } else {
        var queued := Retire(m);
        p := Played(if queued then Updated else Raised(NotQueued), queue, queued, m.State());
      }
    }

    /** An ended match leaves the queue (`list.remove` raises when it is not queued) and joins the history. */
    method Retire(m: Match) returns (queued: bool)
      modifies this`queue, this`history
      ensures queued == (m.id in old(queue))
      ensures queue == if queued then RemoveFirst(old(queue), m.id) else old(queue)
      ensures history == old(history) + if queued then [m] else []
    {
      queued := m.id in queue;
      if queued {
        queue := RemoveFirst(queue, m.id);
        history := history + [m];
      }
    }

    /** After a change to the match `m` alone, the view changes at most in the entry of `m`. */
    twostate lemma ViewUpdated(m: Match)
      requires old(Valid()) && bracket == old(bracket) && pool == old(pool) && m.Valid()
      requires forall id :: id in bracket && bracket[id] != m ==>
        bracket[id].State() == old(bracket[id].State()) && bracket[id].Valid()
      ensures Valid()
      ensures View() == if old(InBracket(m)) then old(View())[m.id := m.State()] else old(View())
    {
    }

    /** `RecordGame` on `m`, which may be a bracket match: the view changes at most in the entry of `m`. */
    method RecordBracketGame(m: Match, blue: int, red: int) returns (ok: bool)
      requires Valid() && m.Valid()
      modifies m
      ensures Valid() && m.Valid()
      ensures ok == old(m.CanAddGame())
      ensures m.State() == if ok then Resolve(AddGame(old(m.State()), blue, red), m.bo) else old(m.State())
      ensures View() == if old(InBracket(m)) then old(View())[m.id := m.State()] else old(View())
    {
      ok := RecordGame(m, blue, red);
      ViewUpdated(m);
    }

    /** The winner `w` takes the slot of match `id` that holds the placeholder `ph`. */
    method AdvanceWinner(id: string, ph: string, w: Option<string>)
      requires Valid() && id in bracket && Holds(bracket[id].State(), ph)
      modifies bracket[id]
      ensures Valid()
      ensures View() == old(View())[id := Advance(old(View())[id], ph, w)]
    {
      var nm := bracket[id];
      if Some(ph) == nm.blueTeam {
        nm.blueTeam := w;
      } else {
        nm.redTeam := w;
      }
      ViewUpdated(nm);
    }

    /**
     * `SimpleElimination.report_match_result`: the shared report, then an
     * ended match hands its winner to the first queued match holding
     * `winner(<id>)`; when no queued match does, the stage stops. The
     * source's `Cannot program next match` branch cannot be reached: the match
     * found holds the placeholder in one of its slots.
     */
    method ReportElimination(m: Match, blue: int, red: int) returns (rep: Report)
      requires kind == SimpleElimination && Valid() && m.Valid()
      modifies this`queue, this`history, this`running, m, bracket.Values
      ensures Valid()
      ensures var st := EliminationStep(old(running), old(queue), old(View()), m.id, old(m.State()), m.bo,
                                        old(InBracket(m)), blue, red);
        rep == st.report && queue == st.queue && running == st.running && View() == st.view &&
        m.State() == st.state && history == old(history) + (if st.toHistory then [m] else [])
    {
      var p := ReportGame(m, blue, red);
      rep := p.report;
      if p.ended {
        var winner := m.GetWinner();
        rep := PassWinner(m.id, winner);
        if !InBracket(m) {
          assert m !in bracket.Values;
        } else {
          assert m.State() == View()[m.id];
        }
      }
    }

    /**
     * The winner `w` of the ended match `id` goes to the first queued match
     * holding `winner(<id>)`; when none does the stage stops, and a queued
     * id missing from the bracket raises.
     */
    method PassWinner(id: string, w: Option<string>) returns (rep: Report)
      requires Valid()
      modifies this`running, bracket.Values
      ensures Valid()
      ensures Passed(rep, View(), running) == Pass(queue, old(View()), id, w, old(running))
    {
      var ph := Placeholder(id);
      var next := NextMatch(ph);
      match next
      case Missing =>
        rep := Raised(UnknownMatch);
      case NotFound =>
        rep := Updated;
        running := false;
      case Found(k) =>
        rep := Updated;
        AdvanceWinner(queue[k], ph, w);
    }

    /**
     * One pass of the `get_standings` loop over the ended match `s`: look up
     * both slots, fail when the blue one is no pool team, credit both sides.
     */
    method CreditMatch(s: MatchState, ghost before: seq<MatchState>) returns (found: bool)
      requires Tallied(pool, before)
      modifies pool
      ensures found == BlueKnown(TeamNames(pool), s)
      ensures Tallied(pool, if found then before + [s] else before)
      ensures forall i :: 0 <= i < |pool| ==> pool[i].size == old(pool[i].size) && pool[i].elo == old(pool[i].elo)
    {
      var blue := GetTeam(s.blueTeam);
      var red := GetTeam(s.redTeam);
      found := blue.Some?;
      if found {
        var redTeam: Team;
        if red.None? {
          redTeam := new Team(Forfeit);
        } else {
          redTeam := red.value;
        }
        Settle(pool, blue.value, redTeam, s, before);
      }
    }

    /** The zeroing loop of `get_standings`. */
    method ResetPool()
      modifies pool
      ensures Tallied(pool, [])
      ensures forall i :: 0 <= i < |pool| ==> pool[i].size == old(pool[i].size) && pool[i].elo == old(pool[i].elo)
    {
      var i := 0;
      while i < |pool|
        invariant 0 <= i <= |pool|
        invariant forall j :: 0 <= j < i ==> pool[j].Record() == NoTally
        invariant forall j :: 0 <= j < |pool| ==> pool[j].size == old(pool[j].size) && pool[j].elo == old(pool[j].elo)
      {
        pool[i].points := 0;
        pool[i].goalsScored := 0;
        pool[i].goalsTaken := 0;
        i := i + 1;
      }
    }

    /** The crediting loop of `get_standings` over the ended matches `es`. */
    method CreditAll(es: seq<MatchState>) returns (ok: bool)
      requires Tallied(pool, [])
      modifies pool
      ensures ok == (Folded(TeamNames(pool), es) == |es|)
      ensures Tallied(pool, es[..Folded(TeamNames(pool), es)])
      ensures forall i :: 0 <= i < |pool| ==> pool[i].size == old(pool[i].size) && pool[i].elo == old(pool[i].elo)
    {
      ghost var names := TeamNames(pool);
      var k := 0;
      ok := true;
      assert es[..0] == [];
      while ok && k < |es|
        invariant 0 <= k <= |es|
        invariant k <= Folded(names, es)
        invariant !ok ==> k < |es| && !BlueKnown(names, es[k])
        invariant Tallied(pool, es[..k])
        invariant forall j :: 0 <= j < |pool| ==> pool[j].size == old(pool[j].size) && pool[j].elo == old(pool[j].elo)
      {
        ok := CreditMatch(es[k], es[..k]);
        if ok {
          TakeOneMore(es, k);
          k := k + 1;
        }
      }
    }

    /**
     * `get_standings`: zeroes every pool team, then credits the ended
     * matches of the history in order. It stops with `AttributeError` (here
     * `ok == false`) at the first ended match whose blue slot is no pool
     * team; an unknown red slot is credited to a throwaway `Team('forfeit')`.
     */
    method GetStandings() returns (ok: bool)
      modifies pool
      ensures ok == (Folded(TeamNames(pool), Ended(HistoryStates())) == |Ended(HistoryStates())|)
      ensures Tallied(pool, Ended(HistoryStates())[..Folded(TeamNames(pool), Ended(HistoryStates()))])
      ensures forall i :: 0 <= i < |pool| ==> pool[i].size == old(pool[i].size) && pool[i].elo == old(pool[i].elo)
    {
      ResetPool();
      ok := CreditAll(Ended(HistoryStates()));
    }

    /**
     * `get_standings` is idempotent: the records it leaves depend only on the
     * matches folded and on the pool's names, so a second call over the same
     * history leaves every team's record as the first call left it.
     */
    twostate lemma StandingsIdempotent(ms: seq<MatchState>)
      requires pool == old(pool) && old(Tallied(pool, ms)) && Tallied(pool, ms)
      ensures forall i :: 0 <= i < |pool| ==> pool[i].Record() == old(pool[i].Record())
    {
      forall i | 0 <= i < |pool|
        ensures pool[i].Record() == old(pool[i].Record())
      {
        var c := Credited(pool, i);
        assert old(pool[i].Record()) == if c then TallyOf(pool[i].name, ms) else NoTally;
      }
    }

    /**
     * `SwissSystem.update_bracket` once the queue is empty: the round
     * number grows; past `MaxRounds` the stage stops, otherwise the next
     * round is paired.
     */
    method UpdateBracket() returns (rep: Report)
      requires kind == SwissSystem && Valid()
      modifies this`round, this`running, this`bracket, this`queue, pool
      ensures Valid() && RoundClosed(old(queue), old(View()), old(round), old(running), rep)
      ensures old(queue) != [] || old(round) + 1 > MaxRounds ==>
        forall i :: 0 <= i < |pool| ==> pool[i].Record() == old(pool[i].Record())
      ensures forall i :: 0 <= i < |pool| ==> pool[i].size == old(pool[i].size) && pool[i].elo == old(pool[i].elo)
    {
      rep := Updated;
      if queue == [] {
        if round + 1 > MaxRounds {
          round := round + 1;
          running := false;
        } else {
          rep := NextRound();
        }
      }
    }

    /**
     * What `update_bracket` leaves behind, from the queue `queue0`, bracket
     * states `view0`, round `round0` and running flag `running0` it started
     * with: nothing while matches are queued; otherwise the next round
     * number, and either the end of the stage past `MaxRounds` or the next
     * round paired.
     */
    ghost predicate RoundClosed(queue0: seq<string>, view0: map<string, MatchState>, round0: nat, running0: bool, rep: Report)
      reads this`pool, this`history, this`round, this`running, this`bracket, this`queue, pool, history, bracket.Values
    {
      rep != Refused &&
      (queue0 != [] ==> rep == Updated && round == round0 && running == running0 && View() == view0 && queue == queue0) &&
      (queue0 == [] ==> round == round0 + 1) &&
      (queue0 == [] && round > MaxRounds ==> rep == Updated && !running && View() == view0 && queue == queue0) &&
      (queue0 == [] && round <= MaxRounds ==> running == running0 && Paired(queue0, view0, rep))
    }

    /**
     * What pairing round `round` leaves behind: the standings of the ended
     * matches, folded as far as `get_standings` gets; then either the
     * `MissingTeam` failure with the bracket and queue untouched, or the
     * ranked contenders paired, stored on top of the old bracket and queued.
     */
    ghost predicate Paired(queue0: seq<string>, view0: map<string, MatchState>, rep: Report)
      reads this`pool, this`history, this`round, this`bracket, this`queue, pool, history, bracket.Values
    {
      var es := Ended(HistoryStates());
      var k := Folded(TeamNames(pool), es);
      var fs := RoundFixtures(round, Repairing(Entries(pool)));
      Tallied(pool, es[..k]) &&
      (rep == Updated <==> k == |es|) &&
      (rep != Updated ==> rep == Raised(MissingTeam) && View() == view0 && queue == queue0) &&
      (rep == Updated ==> View() == Install(view0, fs) && queue == queue0 + Ids(fs))
    }

    /**
     * The `else` branch of `update_bracket`: recompute the standings, rank
     * the teams with fewer than 9 points by points then goal difference,
     * pair them in that order and add round `round` to the bracket. A
     * failing `get_standings` raises before anything is paired.
     */
    method NextRound() returns (rep: Report)
      requires Valid()
      modifies this`round, this`bracket, this`queue, pool
      ensures Valid() && round == old(round) + 1
      ensures Tallied(pool, Ended(HistoryStates())[..Folded(TeamNames(pool), Ended(HistoryStates()))])
      ensures rep == Updated <==> Folded(TeamNames(pool), Ended(HistoryStates())) == |Ended(HistoryStates())|
      ensures rep != Updated ==> rep == Raised(MissingTeam) && View() == old(View()) && queue == old(queue)
      ensures rep == Updated ==> View() == Install(old(View()), RoundFixtures(round, Repairing(Entries(pool))))
      ensures rep == Updated ==> queue == old(queue) + Ids(RoundFixtures(round, Repairing(Entries(pool))))
      ensures Paired(old(queue), old(View()), rep)
      ensures forall i :: 0 <= i < |pool| ==> pool[i].size == old(pool[i].size) && pool[i].elo == old(pool[i].elo)
    {
      round := round + 1;
      var ok := StandingsOnly();
      if !ok {
        rep := Raised(MissingTeam);
      } else {
        PairRound(Repairing(Entries(pool)), Ended(HistoryStates())[..Folded(TeamNames(pool), Ended(HistoryStates()))]);
        rep := Updated;
      }
    }

    /** Round `round` of the pairs `gs`, added to the bracket and queued. */
    method PairRound(gs: seq<Group>, ghost done: seq<MatchState>)
      requires Valid()
      modifies this`bracket, this`queue
      ensures Valid()
      ensures Entries(pool) == old(Entries(pool)) && HistoryStates() == old(HistoryStates()) && TeamNames(pool) == old(TeamNames(pool))
      ensures old(Tallied(pool, done)) ==> Tallied(pool, done)
      ensures forall i :: 0 <= i < |pool| ==> pool[i].size == old(pool[i].size) && pool[i].elo == old(pool[i].elo)
      ensures View() == Install(old(View()), RoundFixtures(round, gs))
      ensures queue == old(queue) + Ids(RoundFixtures(round, gs))
    {
      AddAll(RoundFixtures(round, gs));
      PoolKept(done);
    }

    /** Nothing the standings read has changed. */
    twostate lemma PoolKept(done: seq<MatchState>)
      requires pool == old(pool) && history == old(history) && unchanged(pool) && unchanged(history)
      ensures Entries(pool) == old(Entries(pool)) && HistoryStates() == old(HistoryStates()) && TeamNames(pool) == old(TeamNames(pool))
      ensures old(Tallied(pool, done)) ==> Tallied(pool, done)
      ensures forall i :: 0 <= i < |pool| ==> pool[i].size == old(pool[i].size) && pool[i].elo == old(pool[i].elo)
    {
    }

    /** `get_standings`, which touches neither the bracket nor the queue. */
    method StandingsOnly() returns (ok: bool)
      requires Valid()
      modifies pool
      ensures Valid() && View() == old(View())
      ensures ok == (Folded(TeamNames(pool), Ended(HistoryStates())) == |Ended(HistoryStates())|)
      ensures Tallied(pool, Ended(HistoryStates())[..Folded(TeamNames(pool), Ended(HistoryStates()))])
      ensures forall i :: 0 <= i < |pool| ==> pool[i].size == old(pool[i].size) && pool[i].elo == old(pool[i].elo)
    {
      ok := GetStandings();
    }

    /**
     * `SwissSystem.report_match_result`: the shared report; when the match
     * ended, `update_bracket` may start the next round.
     */
    method ReportSwiss(m: Match, blue: int, red: int) returns (rep: Report, p: Played, ghost v: map<string, MatchState>)
      requires kind == SwissSystem && Valid() && m.Valid()
      modifies this`queue, this`history, this`round, this`running, this`bracket, m, pool
      ensures Valid()
      ensures p == Play(old(running), old(queue), m.id, old(m.State()), m.bo, blue, red)
      ensures history == old(history) + (if p.ended then [m] else []) && m.State() == p.state
      ensures v == if old(InBracket(m)) then old(View())[m.id := p.state] else old(View())
      ensures !p.ended ==> rep == p.report && queue == p.queue && round == old(round) && running == old(running) && View() == v
      ensures p.ended ==> RoundClosed(p.queue, v, old(round), old(running), rep)
      ensures !p.ended ==> unchanged(pool)
      ensures p.ended && (p.queue != [] || old(round) + 1 > MaxRounds) ==>
        forall i :: 0 <= i < |pool| ==> pool[i].Record() == old(pool[i].Record())
      ensures forall i :: 0 <= i < |pool| ==> pool[i].size == old(pool[i].size) && pool[i].elo == old(pool[i].elo)
    {
      p := ReportGame(m, blue, red);
      v := View();
      rep := CloseIfEnded(p.ended, p.report);
    }

    /** The `if match.ended` tail of the Swiss report: `update_bracket` runs only for an ended match. */
    method CloseIfEnded(ended: bool, rep0: Report) returns (rep: Report)
      requires kind == SwissSystem && Valid()
      modifies this`round, this`running, this`bracket, this`queue, pool
      ensures Valid()
      ensures !ended ==> rep == rep0 && round == old(round) && running == old(running) && bracket == old(bracket) && queue == old(queue) && unchanged(pool)
      ensures !ended ==> View() == old(View())
      ensures ended ==> RoundClosed(old(queue), old(View()), old(round), old(running), rep)
      ensures ended && (old(queue) != [] || old(round) + 1 > MaxRounds) ==>
        forall i :: 0 <= i < |pool| ==> pool[i].Record() == old(pool[i].Record())
      ensures forall i :: 0 <= i < |pool| ==> pool[i].size == old(pool[i].size) && pool[i].elo == old(pool[i].elo)
    {
      rep := rep0;
      if ended {
        rep := UpdateBracket();
      }
    }
}
}
