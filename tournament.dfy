/**
 * The `Tournament` class of src/tournapy/tournament.py: the registered
 * players and the teams (each a dictionary of objects, keyed by name, in
 * insertion order), the stages keyed by their order, and the admins. Every
 * roster method is proved to do to `State()` what the matching function of
 * `Rosters` does to a roster value.
 */
module Tournaments {

  import opened Wrappers
  import opened Lists
  import opened Model
  import opened Rulesets
  import opened Rosters

  class Tournament {
    var name: string
    var teamSize: int
    var registrationOpened: bool
    var admins: seq<string>
    var players: map<string, Player>
    var playerOrder: seq<string>
    var teams: map<string, Team>
    var teamOrder: seq<string>
    var stages: map<int, Ruleset>
    var stageOrder: seq<int>
    var currentPhase: int
    var logoUrl: string

    /**
     * The order lists are the dictionaries' keys in insertion order, and
     * every player and team is stored under its own name (so no object is
     * stored twice), and every team a player names is registered.
     */
    ghost predicate Valid()
      reads this`players, this`playerOrder, this`teams, this`teamOrder, this`stages, this`stageOrder, players.Values
    {
      KeysInOrder(playerOrder, players.Keys) && KeysInOrder(teamOrder, teams.Keys) &&
      KeysInOrder(stageOrder, stages.Keys) &&
      (forall k :: k in players ==> players[k].name == k) &&
      (forall k :: k in teams ==> teams[k].name == k) &&
      (forall k :: k in players && players[k].team.Some? ==> players[k].team.value in teams)
    }

    /** A valid tournament makes up a roster whose keys are in order. */
    lemma ValidKeyed()
      requires Valid()
      ensures Keyed(State())
    {
      assert Entrants().Keys == players.Keys && Squads().Keys == teams.Keys;
    }

    /** What the player objects hold, by name. */
    function Entrants(): map<string, Entrant>
      reads this`players, players.Values
    {
      map k | k in players :: Entrant(players[k].elo, players[k].team)
    }

    /** What the team objects hold, by name. */
    function Squads(): map<string, Squad>
      reads this`teams, teams.Values`size, teams.Values`elo
    {
      map k | k in teams :: Squad(teams[k].size, teams[k].elo)
    }

    /** The roster the objects make up. */
    function State(): Roster
      reads this`players, this`playerOrder, this`teams, this`teamOrder, players.Values, teams.Values`size, teams.Values`elo
    {
      Roster(playerOrder, Entrants(), teamOrder, Squads())
    }

    /** `__init__` followed by `setup(organizer, name, team_size)`. */
    constructor (organizer: string, name: string, teamSize: int)
      ensures Valid()
      ensures this.name == name && this.teamSize == teamSize && admins == [organizer]
      ensures State() == Roster([], map[], [], map[]) && stages == map[] && currentPhase == 0 && logoUrl == ""
      ensures !registrationOpened && IsAdmin(organizer)
    {
      this.name := name;
      this.teamSize := teamSize;
      registrationOpened := false;
      admins := [organizer];
      players, playerOrder := map[], [];
      teams, teamOrder := map[], [];
      stages, stageOrder := map[], [];
      currentPhase := 0;
      logoUrl := "";
    }

    /** `is_admin`: whether `user` appears in the admin list. */
    function IsAdmin(user: string): (b: bool)
      reads this`admins
      ensures b <==> exists i :: 0 <= i < |admins| && admins[i] == user
    {
      user in admins
    }

    /** `add_player`: a new name is registered unassigned; a known one is refused. */
    method AddPlayer(name: string, elo: int) returns (ok: bool)
      requires Valid()
      modifies this`players, this`playerOrder
      ensures Valid() && ok == (name !in old(players))
      ensures State() == Rosters.AddPlayer(old(State()), name, elo)
    {
      var p := new Player(name, elo);
      ok := name !in players;
      if ok {
        players := players[name := p];
        playerOrder := playerOrder + [name];
        EntrantsAdded(name, p);
        SquadsKept();
      }
    }

    /** Registering the fresh player `p` under `name` adds one entrant and changes no other. */
    twostate lemma EntrantsAdded(name: string, new p: Player)
      requires name !in old(players) && players == old(players)[name := p] && p.team == None
      requires unchanged(old(players).Values)
      ensures Entrants() == old(Entrants())[name := Entrant(p.elo, None)]
    {
    }

    /** Nothing the team objects hold has changed. */
    twostate lemma SquadsKept()
      requires teams == old(teams) && unchanged(teams.Values)
      ensures Squads() == old(Squads())
    {
    }
 
    /**
     * `add_to_team(tn, pn)`: the team is created if unknown; the player joins
     * when the team is below `teamSize` and `pn` is registered.
     */
    method AddToTeam(tn: string, pn: string) returns (ok: bool)
      requires Valid()
      modifies this`teams, this`teamOrder, players.Values, teams.Values`size, teams.Values`elo
      ensures Valid()
      ensures ok == Join(old(State()), teamSize, tn, pn).ok && State() == Join(old(State()), teamSize, tn, pn).roster
      ensures forall t: Team :: old(allocated(t)) ==> t.Record() == old(t.Record())
      ensures tn !in old(teams) ==> teams[tn].Record() == NoTally
    {
      ghost var s0 := State();
      EnsureTeam(tn);
      JoinTwice(s0, teamSize, tn, pn);
      ok := JoinKnown(tn, pn);
    }

    /** `add_to_team` once the team exists. */
    method JoinKnown(tn: string, pn: string) returns (ok: bool)
      requires Valid() && tn in teams
      modifies players.Values, teams.Values`size, teams.Values`elo
      ensures Valid() && teams == old(teams)
      ensures ok == Join(old(State()), teamSize, tn, pn).ok && State() == Join(old(State()), teamSize, tn, pn).roster
      ensures forall t: Team :: old(allocated(t)) ==> t.Record() == old(t.Record())
    {
      ok := teams[tn].size < teamSize && pn in players;
      if ok {
        Retag(pn, tn, Some(tn), 1);
      }
    }

    /**
     * `remove_from_team(tn, pn)`: when both are known and `pn` is among the
     * team's players, the player leaves; anything else changes nothing.
     */
    method RemoveFromTeam(tn: string, pn: string)
      requires Valid()
      modifies players.Values, teams.Values`size, teams.Values`elo
      ensures Valid()
      ensures State() == Leave(old(State()), tn, pn)
      ensures forall t: Team :: old(allocated(t)) ==> t.Record() == old(t.Record())
    {
      ghost var s0 := State();
      if tn in teams && pn in players {
        var names := PlayerNames(TeamPlayers(tn));
        assert names == Members(s0.players, s0.entrants, tn);
        if pn in names {
          Retag(pn, tn, None, -1);
        }
      }
    }

    /** `remove_player(pn)`: a registered player leaves the team it names, if any, and is unregistered. */
    method RemovePlayer(pn: string)
      requires Valid()
      modifies this`players, this`playerOrder, players.Values, teams.Values`size, teams.Values`elo
      ensures Valid()
      ensures State() == Rosters.RemovePlayer(old(State()), pn)
      ensures forall t: Team :: old(allocated(t)) ==> t.Record() == old(t.Record())
    {
      if pn in players {
        var tn := players[pn].team;
        if tn.Some? {
          RemoveFromTeam(tn.value, pn);
        }
        Forget(pn);
      }
    }

    /** `del players_dict[pn]`. */
    method Forget(pn: string)
      requires Valid() && pn in players
      modifies this`players, this`playerOrder
      ensures Valid()
      ensures State() == Unregister(old(State()), pn)
      ensures forall t: Team :: old(allocated(t)) ==> t.Record() == old(t.Record())
    {
      RemoveFirstMembers(playerOrder, pn);
      RemoveFirstDistinct(playerOrder, pn);
      players := players - {pn};
      playerOrder := RemoveFirst(playerOrder, pn);
      EntrantsDropped(pn);
      SquadsKept();
    }

    /**
     * `remove_team(tn)`: every player of the team, listed first, leaves it
     * in turn; then the team is deleted, or the call fails on an unknown team.
     */
    method RemoveTeam(tn: string) returns (ok: bool)
      requires Valid()
      modifies this`teams, this`teamOrder, players.Values, teams.Values`size, teams.Values`elo
      ensures Valid() && teams.Values <= old(teams.Values)
      ensures ok == Disband(old(State()), tn).ok && State() == Disband(old(State()), tn).roster
      ensures forall t: Team :: old(allocated(t)) ==> t.Record() == old(t.Record())
    {
      ghost var s0 := State();
      ValidKeyed();
      var ps := TeamPlayers(tn);
      LeaveEach(tn, ps);
      ok := tn in teams;
      if ok {
        NobodyIn(s0, tn);
        Discard(tn);
      }
    }

    /** Once every member of `tn` in `s` has left it, no player names `tn`. */
    lemma NobodyIn(s: Roster, tn: string)
      requires Keyed(s) && State() == LeaveAll(s, tn, Members(s.players, s.entrants, tn))
      ensures forall k :: k in players ==> players[k].team != Some(tn)
    {
      var r := LeaveAll(s, tn, Members(s.players, s.entrants, tn));
      LeaveAllMembers(s, tn);
      assert Entrants() == r.entrants;
      forall k | k in players
        ensures players[k].team != Some(tn)
      {
        assert Entrants()[k] == Entrant(players[k].elo, players[k].team);
      }
    }

    /** The loop of `remove_team`: `remove_from_team(tn, p.name)` for each `p` of `ps`, in order. */
    method LeaveEach(tn: string, ps: seq<Player>)
      requires Valid()
      modifies players.Values, teams.Values`size, teams.Values`elo
      ensures Valid()
      ensures State() == LeaveAll(old(State()), tn, PlayerNames(ps))
      ensures forall t: Team :: old(allocated(t)) ==> t.Record() == old(t.Record())
    {
      ghost var s0 := State();
      ghost var names := PlayerNames(ps);
      var i := 0;
      while i < |ps|
        invariant 0 <= i <= |ps|
        invariant Valid()
        invariant State() == LeaveAll(s0, tn, names[..i])
        invariant forall t: Team :: old(allocated(t)) ==> t.Record() == old(t.Record())
      {
        RemoveFromTeam(tn, ps[i].name);
        LeaveAllStep(s0, tn, names, i);
        i := i + 1;
      }
      assert names[..i] == names;
    }

    /** `del teams_dict[tn]`. */
    method Discard(tn: string)
      requires Valid() && tn in teams
      requires forall k :: k in players ==> players[k].team != Some(tn)
      modifies this`teams, this`teamOrder
      ensures Valid() && teams.Values <= old(teams.Values)
      ensures State() == Delete(old(State()), tn)
      ensures forall t: Team :: old(allocated(t)) ==> t.Record() == old(t.Record())
    {
      RemoveFirstMembers(teamOrder, tn);
      RemoveFirstDistinct(teamOrder, tn);
      teams := teams - {tn};
      teamOrder := RemoveFirst(teamOrder, tn);
      SquadsDropped(tn);
      EntrantsKept();
    }

    /**
     * `clear_teams`: `remove_team` on each team name of a snapshot of the
     * keys, stopping at the first failure. Every team goes and every player
     * is left without a team.
     */
    method ClearTeams() returns (ok: bool)
      requires Valid()
      modifies this`teams, this`teamOrder, players.Values, teams.Values`size, teams.Values`elo
      ensures Valid()
      ensures ok == ClearFrom(old(State()), old(teamOrder)).ok && State() == ClearFrom(old(State()), old(teamOrder)).roster
      ensures ok && teams == map[] && teamOrder == [] && forall k :: k in players ==> players[k].team == None
      ensures forall t: Team :: old(allocated(t)) ==> t.Record() == old(t.Record())
    {
      ghost var s0 := State();
      ValidKeyed();
      ok := DisbandEach(teamOrder);
      Cleared(s0);
    }

    /** The loop of `clear_teams`: `remove_team(tn)` for each `tn` of `names`, in order, until one fails. */
    method DisbandEach(names: seq<string>) returns (ok: bool)
      requires Valid()
      modifies this`teams, this`teamOrder, players.Values, teams.Values`size, teams.Values`elo
      ensures Valid()
      ensures ok == ClearFrom(old(State()), names).ok && State() == ClearFrom(old(State()), names).roster
      ensures forall t: Team :: old(allocated(t)) ==> t.Record() == old(t.Record())
    {
      ghost var s0 := State();
      for i := 0 to |names|
        invariant Valid() && teams.Values <= old(teams.Values)
        invariant ClearFrom(s0, names) == ClearFrom(State(), names[i..])
        invariant forall t: Team :: old(allocated(t)) ==> t.Record() == old(t.Record())
      {
        ok := RemoveTeam(names[i]);
        if !ok {
          return;
        }
        assert names[i..][1..] == names[i + 1..];
      }
      ok := true;
    }

    /** Once the objects make up what `clear_teams` leaves of `s`, there are no teams and no assigned players. */
    lemma Cleared(s: Roster)
      requires Keyed(s) && State() == ClearFrom(s, s.teams).roster
      ensures ClearFrom(s, s.teams).ok && teams == map[] && teamOrder == [] && forall k :: k in players ==> players[k].team == None
    {
      ClearTeamsEmpties(s);
      assert teams.Keys == Squads().Keys;
      assert forall k :: k in players ==> Entrants()[k].team == players[k].team;
    }

    /** `add_phase(order, ruleset)`: the stage is stored under `order`, replacing any earlier one. */
    method AddPhase(order: int, ruleset: Ruleset)
      requires Valid()
      modifies this`stages, this`stageOrder
      ensures Valid() && stages == old(stages)[order := ruleset]
      ensures stageOrder == if order in old(stages) then old(stageOrder) else old(stageOrder) + [order]
      ensures Phase(order) == Some(ruleset) && forall n :: n != order ==> Phase(n) == old(Phase(n))
    {
      if order !in stages {
        stageOrder := stageOrder + [order];
      }
      stages := stages[order := ruleset];
    }

    /** `get_phase(n)`: the stage stored under `n`; `None` where the source raises `KeyError`. */
    function Phase(n: int): (r: Option<Ruleset>)
      reads this`stages
      ensures r.None? <==> n !in stages
      ensures r.Some? ==> r.value == stages[n]
    {
      if n in stages then Some(stages[n]) else None
    }

    /** `get_current_phase`. */
    function CurrentPhase(): (r: Option<Ruleset>)
      reads this`stages, this`currentPhase
      ensures r.None? <==> currentPhase !in stages
      ensures r.Some? ==> r.value == stages[currentPhase]
    {
      Phase(currentPhase)
    }

    /** `get_stage(stageName)`: the first stage, in insertion order, with that name, or `None`. */
    method GetStage(stageName: string) returns (r: Option<Ruleset>)
      requires Valid()
      ensures r.Some? ==> r.value.name == stageName
      ensures r.Some? ==>
        exists i :: 0 <= i < |stageOrder| && stages[stageOrder[i]] == r.value &&
          forall j :: 0 <= j < i ==> stages[stageOrder[j]].name != stageName
      ensures r.None? ==> forall n :: n in stages ==> stages[n].name != stageName
    {
      var i := 0;
      while i < |stageOrder|
        invariant 0 <= i <= |stageOrder|
        invariant forall j :: 0 <= j < i ==> stages[stageOrder[j]].name != stageName
      {
        if stages[stageOrder[i]].name == stageName {
          return Some(stages[stageOrder[i]]);
        }
        i := i + 1;
      }
      return None;
    }

    /** The `except KeyError` of `add_to_team`: an unknown team is created empty. */
    method EnsureTeam(tn: string)
      requires Valid()
      modifies this`teams, this`teamOrder
      ensures Valid() && tn in teams
      ensures if tn in old(teams) then teams == old(teams) else teams == old(teams)[tn := teams[tn]] && fresh(teams[tn])
      ensures State() == WithTeam(old(State()), tn)
      ensures forall t: Team :: old(allocated(t)) ==> t.Record() == old(t.Record())
      ensures tn !in old(teams) ==> teams[tn].Record() == NoTally
    {
      if tn !in teams {
        var t := new Team(tn);
        teams := teams[tn := t];
        teamOrder := teamOrder + [tn];
        SquadAdded(tn, t);
      }
      EntrantsKept();
    }

    /**
     * The common step of `add_to_team` and `remove_from_team`: the player's
     * team becomes `team`, then the size of `tn` moves by `delta` and its elo
     * is recomputed.
     */
    method Retag(pn: string, tn: string, team: Option<string>, delta: int)
      requires Valid() && pn in players && tn in teams && (team.Some? ==> team.value in teams)
      modifies players[pn], {teams[tn]}`size, {teams[tn]}`elo
      ensures Valid()
      ensures State() == Move(old(State()), pn, tn, team, delta)
      ensures teams[tn].Record() == old(teams[tn].Record())
      ensures forall t: Team :: old(allocated(t)) ==> t.Record() == old(t.Record())
    {
      SetTeamOf(pn, team);
      Resize(tn, delta);
    }

    /** `player.team = team` on the registered player `pn`. */
    method SetTeamOf(pn: string, team: Option<string>)
      requires Valid() && pn in players && (team.Some? ==> team.value in teams)
      modifies players[pn]
      ensures Valid() && players[pn].team == team
      ensures State() == Tag(old(State()), pn, team)
      ensures forall t: Team :: old(allocated(t)) ==> t.Record() == old(t.Record())
    {
      players[pn].team := team;
      EntrantSet(pn);
      SquadsKept();
    }

    /** `team.size += delta` and `team.elo = get_team_elo(tn)` on the team `tn`. */
    method Resize(tn: string, delta: int)
      requires Valid() && tn in teams
      modifies {teams[tn]}`size, {teams[tn]}`elo
      ensures Valid()
      ensures State() == Resized(old(State()), tn, delta)
      ensures teams[tn].Record() == old(teams[tn].Record())
      ensures forall t: Team :: old(allocated(t)) ==> t.Record() == old(t.Record())
    {
      // `get_team_elo` reads only the players, so it may be taken before the size changes.
      var t, e := teams[tn], TeamElo(tn);
      t.size, t.elo := t.size + delta, e;
      SquadSet(tn);
      EntrantsKept();
    }

    /** Registering the fresh team `t` under `tn` adds one squad and changes no other. */
    twostate lemma SquadAdded(tn: string, new t: Team)
      requires tn !in old(teams) && teams == old(teams)[tn := t] && t.size == 0 && t.elo == 0
      requires unchanged(old(teams).Values)
      ensures Squads() == old(Squads())[tn := Squad(0, 0)]
    {
    }

    /** Only the player `pn` has changed, so only its entrant has. */
    twostate lemma EntrantSet(pn: string)
      requires pn in players && players == old(players)
      requires forall k :: k in players && k != pn ==> unchanged(players[k])
      requires (forall k :: k in players ==> players[k].name == k)
      ensures Entrants() == old(Entrants())[pn := Entrant(players[pn].elo, players[pn].team)]
    {
    }

    /** Only the team `tn` has changed, so only its squad has. */
    twostate lemma SquadSet(tn: string)
      requires tn in teams && teams == old(teams)
      requires forall k :: k in teams && k != tn ==> unchanged(teams[k])
      ensures Squads() == old(Squads())[tn := Squad(teams[tn].size, teams[tn].elo)]
    {
    }

    /** Unregistering `pn` removes its entrant and changes no other. */
    twostate lemma EntrantsDropped(pn: string)
      requires players == old(players) - {pn} && unchanged(players.Values)
      ensures Entrants() == old(Entrants()) - {pn}
    {
    }

    /** Deleting `tn` removes its squad and changes no other. */
    twostate lemma SquadsDropped(tn: string)
      requires teams == old(teams) - {tn} && unchanged(teams.Values)
      ensures Squads() == old(Squads()) - {tn}
    {
    }

    /** Nothing the player objects hold has changed. */
    twostate lemma EntrantsKept()
      requires players == old(players) && unchanged(players.Values)
      ensures Entrants() == old(Entrants())
    {
    }

    /** The players of `order` whose team is `tn`, in that order. */
    function PlayersIn(order: seq<string>, tn: string): seq<Player>
      requires forall k :: k in order ==> k in players
      reads this`players, players.Values
    {
      if order == [] then []
      else
        var n := |order| - 1;
        var p := players[order[n]];
        PlayersIn(order[..n], tn) + if p.team == Some(tn) then [p] else []
    }

    /** `PlayersIn` holds the objects of the names `Members` lists, and their elos add up to `EloTotal`. */
    lemma {:induction false} PlayersInMembers(order: seq<string>, tn: string)
      requires forall k :: k in order ==> k in players
      ensures var ps, ms := PlayersIn(order, tn), Members(order, Entrants(), tn);
        |ps| == |ms| && (forall i :: 0 <= i < |ps| ==> ms[i] in players && ps[i] == players[ms[i]]) &&
        SumElo(ps) == EloTotal(order, Entrants(), tn)
    {
      if order != [] {
        var n := |order| - 1;
        assert forall k :: k in order[..n] ==> k in order;
        PlayersInMembers(order[..n], tn);
        var k := order[n];
        var front := PlayersIn(order[..n], tn);
        if players[k].team == Some(tn) {
          SumEloAppend(front, players[k]);
        } else {
          assert PlayersIn(order, tn) == front;
        }
      }
    }

    /**
     * `get_team_players(tn)`: the registered players whose team is `tn`, in
     * registration order; one per name `Members` lists for the roster.
     */
    function TeamPlayers(tn: string): (ps: seq<Player>)
      requires Valid()
      reads this`players, this`playerOrder, this`teams, this`teamOrder, this`stages, this`stageOrder, players.Values
      ensures var ms := Members(playerOrder, Entrants(), tn);
        |ps| == |ms| && (forall i :: 0 <= i < |ps| ==> ms[i] in players && ps[i] == players[ms[i]])
      ensures PlayerNames(ps) == Members(playerOrder, Entrants(), tn)
      ensures SumElo(ps) == EloTotal(playerOrder, Entrants(), tn)
    {
      PlayersInMembers(playerOrder, tn);
      PlayersIn(playerOrder, tn)
    }

    /** `get_team_elo(tn)`: the members' mean elo truncated toward zero, 0 without members. */
    function TeamElo(tn: string): (e: int)
      requires Valid()
      reads this`players, this`playerOrder, this`teams, this`teamOrder, this`stages, this`stageOrder, players.Values
      ensures e == MeanElo(playerOrder, Entrants(), tn)
    {
      var ps := TeamPlayers(tn);
      if |ps| != 0 then TruncDiv(SumElo(ps), |ps|) else 0
    }
  }

  /** `map(lambda p: p.name, ps)`. */
  function PlayerNames(ps: seq<Player>): (ns: seq<string>)
    ensures |ns| == |ps| && forall i :: 0 <= i < |ps| ==> ns[i] == ps[i].name
  {
    seq(|ps|, i requires 0 <= i < |ps| => ps[i].name)
  }

  /** `sum(map(lambda p: p.elo, ps))`. */
  function SumElo(ps: seq<Player>): int {
    if ps == [] then 0 else SumElo(ps[..|ps| - 1]) + ps[|ps| - 1].elo
  }

  lemma SumEloAppend(ps: seq<Player>, p: Player)
    ensures SumElo(ps + [p]) == SumElo(ps) + p.elo
  {
    assert (ps + [p])[..|ps|] == ps;
  }
}
