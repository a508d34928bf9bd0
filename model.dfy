/**
 * The entity records of src/tournapy/core/model.py: players, teams and
 * best-of-N matches.
 */
module Model {

  import opened Wrappers

  /** A registered player. `team` is the name of the team the player plays for. */
  class Player {
    const name: string
    const elo: int
    var team: Option<string>

    constructor (name: string, elo: int)
      ensures this.name == name && this.elo == elo && team == None
    {
      this.name := name;
      this.elo := elo;
      team := None;
    }
  }

  /** What the standings computation writes into a team: points and goals. */
  datatype Tally = Tally(points: int, scored: int, taken: int)

  const NoTally := Tally(0, 0, 0)

  class Team {
    const name: string
    var size: int
    var elo: int
    var points: int
    var goalsScored: int
    var goalsTaken: int

    constructor (name: string)
      ensures this.name == name
      ensures size == 0 && elo == 0 && Record() == NoTally
    {
      this.name := name;
      size, elo := 0, 0;
      points, goalsScored, goalsTaken := 0, 0, 0;
    }

    function Record(): Tally
      reads this
    {
      Tally(points, goalsScored, goalsTaken)
    }
  }

  /** `math.ceil(bo / 2)`: the number of game wins that decides a best-of-`bo`. */
  function CeilHalf(bo: int): (c: int)
    ensures bo <= 2 * c < bo + 2
  {
    (bo + 1) / 2
  }

  /** The number of games in which side `a` scored strictly more than side `b`. */
  function Wins(a: seq<int>, b: seq<int>): (n: nat)
    requires |a| == |b|
    ensures n <= |a|
  {
    if |a| == 0 then 0
    else Wins(a[..|a| - 1], b[..|b| - 1]) + (if a[|a| - 1] > b[|b| - 1] then 1 else 0)
  }

  /** `Wins` counts exactly the games the side won outright. */
  lemma {:induction false} WinsCountsWonGames(a: seq<int>, b: seq<int>)
    requires |a| == |b|
    ensures Wins(a, b) == |set i | 0 <= i < |a| && a[i] > b[i]|
  {
    if |a| > 0 {
      var n := |a| - 1;
      var a', b' := a[..n], b[..n];
      WinsCountsWonGames(a', b');
      var before := set i | 0 <= i < n && a'[i] > b'[i];
      var all := set i | 0 <= i < |a| && a[i] > b[i];
      assert before == set i | 0 <= i < n && a[i] > b[i];
      if a[n] > b[n] {
        assert all == before + {n};
        assert n !in before;
      } else {
        assert all == before;
      }
    }
  }

  /** Drawn games count for neither side, so the two tallies never exceed the games played. */
  lemma {:induction false} DecisiveGamesBound(a: seq<int>, b: seq<int>)
    requires |a| == |b|
    ensures Wins(a, b) + Wins(b, a) <= |a|
  {
    if |a| > 0 {
      DecisiveGamesBound(a[..|a| - 1], b[..|b| - 1]);
    }
  }

  /** Every mutable field of a match, as a value. */
  datatype MatchState = MatchState(
    blueTeam: Option<string>, redTeam: Option<string>,
    blueScore: seq<int>, redScore: seq<int>,
    boBlueScore: int, boRedScore: int, ended: bool)

  /** `get_winner`: no winner on equal tallies, otherwise the slot with the larger tally. */
  function Winner(s: MatchState): (w: Option<string>)
    ensures s.boBlueScore == s.boRedScore ==> w == None
    ensures s.boBlueScore > s.boRedScore ==> w == s.blueTeam
    ensures s.boRedScore > s.boBlueScore ==> w == s.redTeam
  {
    if s.boBlueScore == s.boRedScore then None
    else if s.boBlueScore > s.boRedScore then s.blueTeam
    else s.redTeam
  }

  /** The same match seen from the other side: blue and red exchange slots, games and tallies. */
  function Mirror(s: MatchState): MatchState {
    MatchState(s.redTeam, s.blueTeam, s.redScore, s.blueScore, s.boRedScore, s.boBlueScore, s.ended)
  }

  /** Which side is called blue does not matter to `get_winner`. */
  lemma WinnerIgnoresSides(s: MatchState)
    ensures Winner(Mirror(s)) == Winner(s)
  {
  }

  /**
   * The state `compute_bo` leaves behind: fresh tallies, and `ended` latched
   * once a side reaches `ceil(bo/2)`.
   */
  function Resolve(s: MatchState, bo: int): (r: MatchState)
    requires |s.blueScore| == |s.redScore|
    ensures r.blueTeam == s.blueTeam && r.redTeam == s.redTeam
    ensures r.blueScore == s.blueScore && r.redScore == s.redScore
    ensures 0 <= r.boBlueScore && 0 <= r.boRedScore && r.boBlueScore + r.boRedScore <= |s.blueScore|
    ensures s.ended ==> r.ended
  {
    var blue := Wins(s.blueScore, s.redScore);
    var red := Wins(s.redScore, s.blueScore);
    DecisiveGamesBound(s.blueScore, s.redScore);
    s.(boBlueScore := blue, boRedScore := red,
       ended := s.ended || blue == CeilHalf(bo) || red == CeilHalf(bo))
  }

  /** Resolving twice without a new game changes nothing. */
  lemma ResolveIdempotent(s: MatchState, bo: int)
    requires |s.blueScore| == |s.redScore|
    ensures Resolve(Resolve(s, bo), bo) == Resolve(s, bo)
  {
  }

  /**
   * For an odd best-of, once the tallies are the computed game wins and one
   * side has reached `ceil(bo/2)`, the other side is strictly behind, so the
   * winner is the slot of the side that reached it.
   */
  lemma OddBestOfIsDecided(s: MatchState, bo: int)
    requires bo % 2 == 1 && |s.blueScore| == |s.redScore| <= bo
    requires s.boBlueScore == Wins(s.blueScore, s.redScore)
    requires s.boRedScore == Wins(s.redScore, s.blueScore)
    requires s.boBlueScore == CeilHalf(bo) || s.boRedScore == CeilHalf(bo)
    ensures s.boBlueScore != s.boRedScore
    ensures Winner(s) == if s.boBlueScore == CeilHalf(bo) then s.blueTeam else s.redTeam
  {
    DecisiveGamesBound(s.blueScore, s.redScore);
  }

  /**
   * For an even best-of the threshold can be reached by both sides at once:
   * two games split 1-0 and 0-1 in a best-of-2 satisfy the `ended` test of
   * `compute_bo`, yet `get_winner` reports no winner.
   */
  lemma EvenBestOfCanEndInDraw()
    ensures var s := Resolve(MatchState(Some("A"), Some("B"), [1, 0], [0, 1], 0, 0, false), 2);
      s.ended && s.boBlueScore == s.boRedScore == 1 && Winner(s) == None
  {
    var a, b := [1, 0], [0, 1];
    assert a[..1] == [1] && b[..1] == [0];
    assert Wins(a, b) == 1 && Wins(b, a) == 1;
  }

  /**
   * The list position `set_result` writes for the 1-based `game` in a list of
   * `n` games, following Python indexing: `game - 1`, counted from the end
   * when negative; `None` is the `IndexError`.
   */
  function GameIndex(game: int, n: nat): (k: Option<nat>)
    ensures k.Some? <==> -(n as int) <= game - 1 < n
    ensures k.Some? ==> k.value < n && (k.value == game - 1 || k.value == game - 1 + n)
  {
    var i := game - 1;
    if 0 <= i < n then Some(i)
    else if -(n as int) <= i < 0 then Some(i + n)
    else None
  }

  /** As written, `set_result(0, ...)` on a two-game match overwrites the second game instead of failing. */
  lemma SetResultZeroHitsLastGame()
    ensures GameIndex(0, 2) == Some(1)
    ensures GameIndex(-1, 2) == Some(0)
  {
  }

  /** A best-of-`bo` match between two slots, each a team name, a placeholder or `forfeit`. */
  class Match {
    const id: string
    const bo: int
    var blueTeam: Option<string>
    var redTeam: Option<string>
    var blueScore: seq<int>
    var redScore: seq<int>
    var boBlueScore: int
    var boRedScore: int
    var ended: bool

    /** Both score lists describe the same games, and no more than `bo` of them. */
    ghost predicate Valid()
      reads this
    {
      |blueScore| == |redScore| && (blueScore == [] || |blueScore| <= bo)
    }

    constructor (id: string, bo: int, blueTeam: string, redTeam: string)
      ensures Valid()
      ensures this.id == id && this.bo == bo
      ensures State() == MatchState(Some(blueTeam), Some(redTeam), [], [], 0, 0, false)
    {
      this.id := id;
      this.bo := bo;
      this.blueTeam := Some(blueTeam);
      this.redTeam := Some(redTeam);
      blueScore, redScore := [], [];
      boBlueScore, boRedScore := 0, 0;
      ended := false;
    }

    function State(): MatchState
      reads this
    {
      MatchState(blueTeam, redTeam, blueScore, redScore, boBlueScore, boRedScore, ended)
    }

    /** The guard of `add_game_result`. */
    predicate CanAddGame()
      reads this
    {
      |blueScore| < bo && !ended
    }

    /** `add_game_result`: appends one game, or fails (the source raises) leaving the match as it was. */
    method AddGameResult(blue: int, red: int) returns (ok: bool)
      requires Valid()
      modifies this`blueScore, this`redScore
      ensures Valid()
      ensures ok == old(CanAddGame())
      ensures ok ==> blueScore == old(blueScore) + [blue] && redScore == old(redScore) + [red]
      ensures !ok ==> blueScore == old(blueScore) && redScore == old(redScore)
    {
      ok := |blueScore| < bo && !ended;
      if ok {
        blueScore := blueScore + [blue];
        redScore := redScore + [red];
      }
    }

    /**
     * `set_result`: overwrites game `game` (1-based) of both lists. The index
     * follows Python's rules, so `game <= 0` reaches games counted from the
     * end; an index outside both ranges fails (the source raises `IndexError`).
     */
    method SetResult(game: int, blue: int, red: int) returns (ok: bool)
      requires Valid()
      modifies this`blueScore, this`redScore
      ensures Valid()
      ensures ok == GameIndex(game, |old(blueScore)|).Some?
      ensures ok ==> var k := GameIndex(game, |old(blueScore)|).value;
        blueScore == old(blueScore)[k := blue] && redScore == old(redScore)[k := red]
      ensures !ok ==> blueScore == old(blueScore) && redScore == old(redScore)
    {
      var k := GameIndex(game, |blueScore|);
      ok := k.Some?;
      if ok {
        blueScore := blueScore[k.value := blue];
        redScore := redScore[k.value := red];
      }
    }

    /** `set_result` as evidently intended: only games `1..n` can be overwritten. */
    method SetGameResult(game: int, blue: int, red: int) returns (ok: bool)
      requires Valid()
      modifies this`blueScore, this`redScore
      ensures Valid()
      ensures ok == (1 <= game <= |old(blueScore)|)
      ensures ok ==> blueScore == old(blueScore)[game - 1 := blue] && redScore == old(redScore)[game - 1 := red]
      ensures ok ==> forall k :: 0 <= k < |blueScore| && k != game - 1 ==>
        blueScore[k] == old(blueScore)[k] && redScore[k] == old(redScore)[k]
      ensures !ok ==> blueScore == old(blueScore) && redScore == old(redScore)
    {
      ok := 1 <= game <= |blueScore|;
      if ok {
        blueScore := blueScore[game - 1 := blue];
        redScore := redScore[game - 1 := red];
      }
    }

    /** `compute_bo`: recounts both tallies from the recorded games and latches `ended`. */
    method ComputeBo() returns (done: bool)
      requires Valid()
      modifies this`boBlueScore, this`boRedScore, this`ended
      ensures Valid()
      ensures State() == Resolve(old(State()), bo)
      ensures done == ended
    {
      boBlueScore, boRedScore := 0, 0;
      var i := 0;
      while i < |blueScore|
        invariant 0 <= i <= |blueScore|
        invariant boBlueScore == Wins(blueScore[..i], redScore[..i])
        invariant boRedScore == Wins(redScore[..i], blueScore[..i])
        invariant ended == old(ended)
      {
        assert blueScore[..i + 1][..i] == blueScore[..i];
        assert redScore[..i + 1][..i] == redScore[..i];
        boBlueScore := boBlueScore + if blueScore[i] > redScore[i] then 1 else 0;
        boRedScore := boRedScore + if redScore[i] > blueScore[i] then 1 else 0;
        i := i + 1;
      }
      assert blueScore[..i] == blueScore && redScore[..i] == redScore;
      if boBlueScore == CeilHalf(bo) || boRedScore == CeilHalf(bo) {
        ended := true;
      }
      done := ended;
    }

    /** `get_winner`: the slot of the side with the larger tally, `None` on equal tallies. */
    function GetWinner(): (w: Option<string>)
      reads this
      ensures boBlueScore == boRedScore ==> w == None
      ensures boBlueScore > boRedScore ==> w == blueTeam
      ensures boRedScore > boBlueScore ==> w == redTeam
    {
      Winner(State())
    }
  }
}
