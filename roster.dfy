/**
 * The roster of src/tournapy/tournament.py as a value: the registered
 * players and the teams, each dictionary with its keys in insertion order,
 * and what every roster operation does to it. The `Tournament` class works
 * on objects; this module states what those objects hold and proves what the
 * operations keep.
 */
module Rosters {

  import opened Wrappers
  import opened Lists

  /** A registered player as the roster sees it: elo and team (`None` when unassigned). */
  datatype Entrant = Entrant(elo: int, team: Option<string>)

  /** A team as the roster sees it: its `size` and `elo` fields. */
  datatype Squad = Squad(size: int, elo: int)

  /**
   * `players_dict` and `teams_dict`: `players` and `teams` are their key
   * lists in insertion order, `entrants` and `squads` what each key holds.
   */
  datatype Roster = Roster(players: seq<string>, entrants: map<string, Entrant>,
                           teams: seq<string>, squads: map<string, Squad>)

  /** `int(a / b)` for a positive `b`: the quotient truncated toward zero. */
  function TruncDiv(a: int, b: int): int
    requires b > 0
  {
    if a >= 0 then a / b else -((-a) / b)
  }

  /** `TruncDiv` leaves a remainder of the sign of `a` and smaller than `b`: truncation toward zero. */
  lemma TruncDivTruncates(a: int, b: int)
    requires b > 0
    ensures var q := TruncDiv(a, b);
      (a >= 0 ==> 0 <= a - q * b < b) && (a < 0 ==> -b < a - q * b <= 0)
  {
  }

  /** `get_team_players(t)`, by name: the players whose team is `t`, in registration order. */
  function Members(order: seq<string>, r: map<string, Entrant>, t: string): (ms: seq<string>)
    ensures |ms| <= |order|
  {
    if order == [] then []
    else
      var n := |order| - 1;
      var k := order[n];
      Members(order[..n], r, t) + if k in r && r[k].team == Some(t) then [k] else []
  }

  /** `Members` lists only players of `order` whose team is `t`. */
  lemma {:induction false} MembersSound(order: seq<string>, r: map<string, Entrant>, t: string, k: string)
    requires k in Members(order, r, t)
    ensures k in order && k in r && r[k].team == Some(t)
  {
    var n := |order| - 1;
    assert order == order[..n] + [order[n]];
    if k in Members(order[..n], r, t) {
      MembersSound(order[..n], r, t, k);
    }
  }

  /** Every player of `order` whose team is `t` is listed by `Members`. */
  lemma {:induction false} MembersComplete(order: seq<string>, r: map<string, Entrant>, t: string, k: string)
    requires k in order && k in r && r[k].team == Some(t)
    ensures k in Members(order, r, t)
  {
    var n := |order| - 1;
    if order[n] != k {
      assert order == order[..n] + [order[n]];
      MembersComplete(order[..n], r, t, k);
    }
  }

  /** A key list names each player once, so `get_team_players` lists each member once. */
  lemma {:induction false} MembersOnce(order: seq<string>, r: map<string, Entrant>, t: string)
    requires Distinct(order)
    ensures Distinct(Members(order, r, t))
  {
    if order != [] {
      var n := |order| - 1;
      var ms := Members(order[..n], r, t);
      MembersOnce(order[..n], r, t);
      if order[n] in r && r[order[n]].team == Some(t) {
        forall k | k in ms ensures k in order[..n] {
          MembersSound(order[..n], r, t, k);
        }
        assert order[n] !in order[..n] by {
          assert forall i :: 0 <= i < n ==> order[..n][i] == order[i] != order[n];
        }
        var all := ms + [order[n]];
        forall a, b | 0 <= a < b < |all| ensures all[a] != all[b] {
          if b == |ms| {
            assert all[a] == ms[a];
          } else {
            assert all[a] == ms[a] && all[b] == ms[b];
          }
        }
      }
    }
  }

  /** The sum of the elos of the members of `t`. */
  function EloTotal(order: seq<string>, r: map<string, Entrant>, t: string): int {
    if order == [] then 0
    else
      var n := |order| - 1;
      var k := order[n];
      EloTotal(order[..n], r, t) + if k in r && r[k].team == Some(t) then r[k].elo else 0
  }

  /** `get_team_elo(t)`: the mean elo of the members, truncated toward zero; 0 for an empty team. */
  function MeanElo(order: seq<string>, r: map<string, Entrant>, t: string): (e: int)
    ensures var n, total := |Members(order, r, t)|, EloTotal(order, r, t);
      (n == 0 ==> e == 0) &&
      (n > 0 && total >= 0 ==> 0 <= total - e * n < n) &&
      (n > 0 && total < 0 ==> -n < total - e * n <= 0)
  {
    var n := |Members(order, r, t)|;
    if n == 0 then 0 else TruncDivTruncates(EloTotal(order, r, t), n); TruncDiv(EloTotal(order, r, t), n)
  }

  /** The key lists match the dictionaries, and every team a player names exists. */
  ghost predicate Keyed(s: Roster) {
    KeysInOrder(s.players, s.entrants.Keys) && KeysInOrder(s.teams, s.squads.Keys) &&
    forall k :: k in s.entrants && s.entrants[k].team.Some? ==> s.entrants[k].team.value in s.squads
  }

  /** Each team's `size` counts its members and its `elo` is their mean elo. */
  ghost predicate Consistent(s: Roster) {
    Keyed(s) &&
    forall t :: t in s.squads ==>
      s.squads[t] == Squad(|Members(s.players, s.entrants, t)|, MeanElo(s.players, s.entrants, t))
  }

  // ---------------------------------------------------------------------
  // The operations
  // ---------------------------------------------------------------------

  /** `add_player`: a new name is appended unassigned; a known name changes nothing. */
  function AddPlayer(s: Roster, name: string, elo: int): (r: Roster)
    ensures r.entrants.Keys == s.entrants.Keys + {name}
    ensures name !in s.entrants ==> r.entrants[name] == Entrant(elo, None) && r.players == s.players + [name]
    ensures name in s.entrants ==> r == s
    ensures forall k :: k in s.entrants ==> r.entrants[k] == s.entrants[k]
    ensures r.teams == s.teams && r.squads == s.squads
  {
    if name in s.entrants then s
    else s.(players := s.players + [name], entrants := s.entrants[name := Entrant(elo, None)])
  }

  /** The `except KeyError` of `add_to_team`: an unknown team is created empty. */
  function WithTeam(s: Roster, t: string): Roster {
    if t in s.squads then s
    else s.(teams := s.teams + [t], squads := s.squads[t := Squad(0, 0)])
  }

  /** The outcome of an operation that reports success. */
  datatype Outcome = Outcome(ok: bool, roster: Roster)

  /** `player.team = team`. */
  function Tag(s: Roster, p: string, team: Option<string>): Roster
    requires p in s.entrants
  {
    s.(entrants := s.entrants[p := Entrant(s.entrants[p].elo, team)])
  }

  /** `team.size += delta` followed by `team.elo = get_team_elo(t)`. */
  function Resized(s: Roster, t: string, delta: int): Roster
    requires t in s.squads
  {
    s.(squads := s.squads[t := Squad(s.squads[t].size + delta, MeanElo(s.players, s.entrants, t))])
  }

  /**
   * The common step of `add_to_team` and `remove_from_team`: the team of
   * `p` becomes `team`, then the size of `t` moves by `delta` and the elo of
   * `t` is recomputed over its members.
   */
  function Move(s: Roster, p: string, t: string, team: Option<string>, delta: int): Roster
    requires p in s.entrants && t in s.squads
  {
    Resized(Tag(s, p, team), t, delta)
  }

  /**
   * `add_to_team(t, p)`: with the team created if needed, the player joins
   * when the team is below `teamSize` and `p` is registered; the size grows
   * by one and the elo is the mean over the members including `p`.
   */
  function Join(s: Roster, teamSize: int, t: string, p: string): (o: Outcome)
    ensures o.ok <==> p in s.entrants && (if t in s.squads then s.squads[t].size < teamSize else 0 < teamSize)
    ensures t in o.roster.squads && o.roster.squads.Keys == s.squads.Keys + {t}
    ensures o.roster.players == s.players && o.roster.entrants.Keys == s.entrants.Keys
    ensures o.ok ==> o.roster.entrants[p] == Entrant(s.entrants[p].elo, Some(t))
    ensures forall k :: k in s.entrants && (k != p || !o.ok) ==> o.roster.entrants[k] == s.entrants[k]
  {
    var s1 := WithTeam(s, t);
    if s1.squads[t].size < teamSize && p in s1.entrants then Outcome(true, Move(s1, p, t, Some(t), 1))
    else Outcome(false, s1)
  }

  /** Creating the team first changes nothing to what `Join` does. */
  lemma JoinTwice(s: Roster, teamSize: int, t: string, p: string)
    ensures Join(WithTeam(s, t), teamSize, t, p) == Join(s, teamSize, t, p)
  {
  }

  /**
   * `remove_from_team(t, p)`: when both are known and `p` is a member of
   * `t`, `p` leaves; the size drops by one and the elo is recomputed.
   * Anything else changes nothing.
   */
  function Leave(s: Roster, t: string, p: string): (r: Roster)
    ensures r.players == s.players && r.teams == s.teams
    ensures r.entrants.Keys == s.entrants.Keys && r.squads.Keys == s.squads.Keys
    ensures forall k :: k in s.entrants && k != p ==> r.entrants[k] == s.entrants[k]
    ensures p in s.entrants ==> r.entrants[p].elo == s.entrants[p].elo
    ensures p in s.entrants && s.entrants[p].team != Some(t) ==> r == s
    ensures t in s.squads && p in s.entrants && s.entrants[p].team == Some(t) && p in s.players ==>
      r.entrants[p].team == None
  {
    if t in s.squads && p in s.entrants && p in Members(s.players, s.entrants, t) then
      MembersSound(s.players, s.entrants, t, p); Move(s, p, t, None, -1)
    else if p in s.players && p in s.entrants && s.entrants[p].team == Some(t) then
      MembersComplete(s.players, s.entrants, t, p); s
    else s
  }

  /** `del players_dict[p]`. */
  function Unregister(s: Roster, p: string): Roster {
    s.(players := RemoveFirst(s.players, p), entrants := s.entrants - {p})
  }

  /** `remove_player(p)`: leave the team the player names, if any, then unregister. */
  function RemovePlayer(s: Roster, p: string): (r: Roster)
    ensures p !in r.entrants && r.entrants.Keys == s.entrants.Keys - {p}
    ensures forall k :: k in r.entrants ==> r.entrants[k] == s.entrants[k]
    ensures r.teams == s.teams && r.squads.Keys == s.squads.Keys
  {
    if p !in s.entrants then s
    else
      var s1 := if s.entrants[p].team.Some? then Leave(s, s.entrants[p].team.value, p) else s;
      Unregister(s1, p)
  }

  /** The loop of `remove_team`: each listed player leaves `t`, in order. */
  function LeaveAll(s: Roster, t: string, ps: seq<string>): (r: Roster)
    ensures r.players == s.players && r.teams == s.teams
    ensures r.entrants.Keys == s.entrants.Keys && r.squads.Keys == s.squads.Keys
  {
    if ps == [] then s else Leave(LeaveAll(s, t, ps[..|ps| - 1]), t, ps[|ps| - 1])
  }

  /** One more name of `ps` leaving `t`. */
  lemma LeaveAllStep(s: Roster, t: string, ps: seq<string>, i: nat)
    requires i < |ps|
    ensures LeaveAll(s, t, ps[..i + 1]) == Leave(LeaveAll(s, t, ps[..i]), t, ps[i])
  {
    assert ps[..i + 1][..i] == ps[..i];
  }

  /**
   * `remove_team(t)`: the members, listed first, leave one by one; then the
   * team is deleted, and an unknown team fails (`KeyError`).
   */
  function Disband(s: Roster, t: string): (o: Outcome)
    ensures o.ok <==> t in s.squads
    ensures o.roster.players == s.players && o.roster.entrants.Keys == s.entrants.Keys
    ensures o.roster.squads.Keys == s.squads.Keys - {t}
    ensures o.roster.teams == if o.ok then RemoveFirst(s.teams, t) else s.teams
  {
    var s1 := LeaveAll(s, t, Members(s.players, s.entrants, t));
    if t in s1.squads then Outcome(true, Delete(s1, t)) else Outcome(false, s1)
  }

  /** `del teams_dict[t]`. */
  function Delete(s: Roster, t: string): Roster {
    s.(teams := RemoveFirst(s.teams, t), squads := s.squads - {t})
  }

  /** The loop of `clear_teams` over a snapshot `ts` of the team names: it stops at the first failure. */
  function ClearFrom(s: Roster, ts: seq<string>): (o: Outcome)
    ensures o.roster.players == s.players && o.roster.entrants.Keys == s.entrants.Keys
    ensures o.roster.squads.Keys <= s.squads.Keys
    ensures o.ok ==> forall t :: t in ts ==> t !in o.roster.squads
    decreases |ts|
  {
    if ts == [] then Outcome(true, s)
    else
      var o := Disband(s, ts[0]);
      if !o.ok then o else ClearFrom(o.roster, ts[1..])
  }

  // ---------------------------------------------------------------------
  // Facts about Members and EloTotal
  // ---------------------------------------------------------------------

  /** Members and elo total of `t` depend only on who is in `t` and their elos. */
  lemma {:induction false} MembersAgree(order: seq<string>, r: map<string, Entrant>, r': map<string, Entrant>, t: string)
    requires forall k :: k in order ==>
      ((k in r && r[k].team == Some(t)) <==> (k in r' && r'[k].team == Some(t))) &&
      (k in r && r[k].team == Some(t) ==> r[k].elo == r'[k].elo)
    ensures Members(order, r', t) == Members(order, r, t)
    ensures EloTotal(order, r', t) == EloTotal(order, r, t)
  {
    if order != [] {
      var n := |order| - 1;
      assert forall k :: k in order[..n] ==> k in order;
      MembersAgree(order[..n], r, r', t);
    }
  }

  /** Putting the unassigned-to-`t` player `p` into `t` adds one member and its elo. */
  lemma {:induction false} MembersJoin(order: seq<string>, r: map<string, Entrant>, t: string, p: string)
    requires Distinct(order) && p in order && p in r && r[p].team != Some(t)
    ensures var r' := r[p := Entrant(r[p].elo, Some(t))];
      |Members(order, r', t)| == |Members(order, r, t)| + 1 &&
      EloTotal(order, r', t) == EloTotal(order, r, t) + r[p].elo
  {
    var r' := r[p := Entrant(r[p].elo, Some(t))];
    var n := |order| - 1;
    var front := order[..n];
    assert order == front + [order[n]];
    if order[n] == p {
      assert p !in front by {
        forall i | 0 <= i < n ensures front[i] != p {
          assert order[i] != order[n];
        }
      }
      MembersAgree(front, r, r', t);
    } else {
      assert p in front;
      assert Distinct(front) by {
        forall i, j | 0 <= i < j < n ensures front[i] != front[j] {
          assert order[i] != order[j];
        }
      }
      MembersJoin(front, r, t, p);
    }
  }

  /** Taking the member `p` out of `t` removes one member and its elo. */
  lemma {:induction false} MembersLeave(order: seq<string>, r: map<string, Entrant>, t: string, p: string)
    requires Distinct(order) && p in order && p in r && r[p].team == Some(t)
    ensures var r' := r[p := Entrant(r[p].elo, None)];
      |Members(order, r', t)| == |Members(order, r, t)| - 1 &&
      EloTotal(order, r', t) == EloTotal(order, r, t) - r[p].elo
  {
    var r' := r[p := Entrant(r[p].elo, None)];
    MembersJoin(order, r', t, p);
    assert r'[p := Entrant(r'[p].elo, Some(t))] == r;
  }

  /** Removing a player who belongs to no team changes no team's members or total. */
  lemma {:induction false} MembersDrop(order: seq<string>, r: map<string, Entrant>, t: string, p: string)
    requires p in r && r[p].team != Some(t)
    ensures Members(RemoveFirst(order, p), r - {p}, t) == Members(order, r, t)
    ensures EloTotal(RemoveFirst(order, p), r - {p}, t) == EloTotal(order, r, t)
  {
    RemoveFirstCutsFirst(order, p);
    MembersAgree(RemoveFirst(order, p), r, r - {p}, t);
    if p in order {
      var i := IndexOf(order, p);
      MembersCut(order[..i], order[i + 1..], r, t, p);
      assert order == order[..i] + [p] + order[i + 1..];
    }
  }

  /** A name outside `t` in the middle of the list adds nothing to `t`. */
  lemma {:induction false} MembersCut(a: seq<string>, b: seq<string>, r: map<string, Entrant>, t: string, p: string)
    requires p in r && r[p].team != Some(t)
    ensures Members(a + [p] + b, r, t) == Members(a + b, r, t)
    ensures EloTotal(a + [p] + b, r, t) == EloTotal(a + b, r, t)
    decreases |b|
  {
    if b == [] {
      assert (a + [p] + b)[..|a|] == a;
      assert a + b == a;
    } else {
      var n := |b| - 1;
      assert (a + [p] + b)[..|a| + |b|] == a + [p] + b[..n];
      assert (a + b)[..|a + b| - 1] == a + b[..n];
      MembersCut(a, b[..n], r, t, p);
    }
  }

  // ---------------------------------------------------------------------
  // What the operations keep
  // ---------------------------------------------------------------------

  lemma {:induction false} AddPlayerConsistent(s: Roster, name: string, elo: int)
    requires Consistent(s)
    ensures Consistent(AddPlayer(s, name, elo))
    ensures name !in s.entrants ==> AddPlayer(s, name, elo).entrants[name] == Entrant(elo, None)
  {
    if name !in s.entrants {
      var s' := AddPlayer(s, name, elo);
      assert Distinct(s'.players) by {
        assert name !in s.players;
      }
      forall t | t in s.squads
        ensures s'.squads[t] == Squad(|Members(s'.players, s'.entrants, t)|, MeanElo(s'.players, s'.entrants, t))
      {
        MembersAgree(s.players, s.entrants, s'.entrants, t);
        assert Members(s'.players, s'.entrants, t) == Members(s.players, s'.entrants, t);
        assert EloTotal(s'.players, s'.entrants, t) == EloTotal(s.players, s'.entrants, t);
      }
    }
  }

  /** A team nobody names has no members and total 0. */
  lemma {:induction false} NoMembers(order: seq<string>, r: map<string, Entrant>, t: string)
    requires forall k :: k in r ==> r[k].team != Some(t)
    ensures Members(order, r, t) == [] && EloTotal(order, r, t) == 0
  {
    if order != [] {
      NoMembers(order[..|order| - 1], r, t);
    }
  }

  /** A newly created team is empty, so it is consistent with elo 0. */
  lemma {:induction false} WithTeamConsistent(s: Roster, t: string)
    requires Consistent(s)
    ensures Consistent(WithTeam(s, t))
  {
    if t !in s.squads {
      var s' := WithTeam(s, t);
      assert Distinct(s'.teams) by {
        assert t !in s.teams;
      }
      NoMembers(s.players, s.entrants, t);
      assert s'.squads[t] == Squad(|Members(s'.players, s'.entrants, t)|, MeanElo(s'.players, s'.entrants, t));
    }
  }

  /** The step of `add_to_team` after the team exists: an unassigned player joins it. */
  lemma {:induction false} AssignConsistent(s: Roster, t: string, p: string)
    requires Consistent(s) && t in s.squads && p in s.entrants && s.entrants[p].team == None
    ensures Consistent(Move(s, p, t, Some(t), 1))
  {
    var r := s.entrants[p := Entrant(s.entrants[p].elo, Some(t))];
    assert Move(s, p, t, Some(t), 1) == s.(entrants := r, squads := s.squads[t := Squad(s.squads[t].size + 1, MeanElo(s.players, r, t))]);
    assert p in s.players;
    MembersJoin(s.players, s.entrants, t, p);
    forall u | u in s.squads && u != t
      ensures s.squads[u] == Squad(|Members(s.players, r, u)|, MeanElo(s.players, r, u))
    {
      MembersAgree(s.players, s.entrants, r, u);
    }
  }

  /**
   * Joining keeps every count and mean right, provided the player was not
   * already in a team: `add_to_team` does not check that itself.
   */
  lemma {:induction false} JoinConsistent(s: Roster, teamSize: int, t: string, p: string)
    requires Consistent(s)
    requires p in s.entrants ==> s.entrants[p].team == None
    ensures Consistent(Join(s, teamSize, t, p).roster)
  {
    WithTeamConsistent(s, t);
    var s1 := WithTeam(s, t);
    if s1.squads[t].size < teamSize && p in s1.entrants {
      AssignConsistent(s1, t, p);
    }
  }

  /** Moving a registered player to a known team, or to none, keeps the keys in order. */
  lemma MoveKeyed(s: Roster, p: string, t: string, team: Option<string>, delta: int)
    requires Keyed(s) && p in s.entrants && t in s.squads && (team.Some? ==> team.value in s.squads)
    ensures Keyed(Move(s, p, t, team, delta))
  {
    var r := Move(s, p, t, team, delta);
    assert r.entrants.Keys == s.entrants.Keys && r.squads.Keys == s.squads.Keys;
  }

  /**
   * What `Join` does on a roster whose keys are in order, spelled out: an
   * unknown team is appended to the team order and starts empty; a failed
   * join changes no player; a successful one puts `p` in `t`, grows `t` by
   * one and sets its elo to the mean over its members, `p` included; no
   * other team changes.
   */
  lemma {:induction false} JoinEffect(s: Roster, teamSize: int, t: string, p: string)
    requires Keyed(s)
    ensures var o, size := Join(s, teamSize, t, p), if t in s.squads then s.squads[t].size else 0;
      Keyed(o.roster) && o.roster.players == s.players &&
      o.roster.teams == (if t in s.squads then s.teams else s.teams + [t]) &&
      o.roster.squads - {t} == s.squads - {t} &&
      (!o.ok ==>
        o.roster.entrants == s.entrants &&
        o.roster.squads[t] == if t in s.squads then s.squads[t] else Squad(0, 0)) &&
      (o.ok ==>
        o.roster.entrants == s.entrants[p := Entrant(s.entrants[p].elo, Some(t))] &&
        o.roster.squads[t] == Squad(size + 1, MeanElo(s.players, o.roster.entrants, t)))
  {
    JoinKeyed(s, teamSize, t, p);
  }

  /** Joining keeps the keys in order. */
  lemma JoinKeyed(s: Roster, teamSize: int, t: string, p: string)
    requires Keyed(s)
    ensures Keyed(Join(s, teamSize, t, p).roster)
  {
    var s1 := WithTeam(s, t);
    if t !in s.squads {
      assert Distinct(s1.teams) by {
        assert t !in s.teams;
      }
    }
    if s1.squads[t].size < teamSize && p in s1.entrants {
      MoveKeyed(s1, p, t, Some(t), 1);
    }
  }

  /** What `Leave` does on a roster whose keys are in order, spelled out. */
  lemma {:induction false} LeaveEffect(s: Roster, t: string, p: string)
    requires Keyed(s)
    ensures var s' := Leave(s, t, p);
      Keyed(s') && s'.players == s.players && s'.teams == s.teams &&
      s'.entrants.Keys == s.entrants.Keys && s'.squads.Keys == s.squads.Keys &&
      (s' == s <== p !in s.entrants || s.entrants[p].team != Some(t)) &&
      (p in s.entrants && s.entrants[p].team == Some(t) ==>
        s'.entrants == s.entrants[p := Entrant(s.entrants[p].elo, None)] &&
        s'.squads == s.squads[t := Squad(s.squads[t].size - 1, MeanElo(s.players, s'.entrants, t))])
  {
    if p in s.entrants && s.entrants[p].team == Some(t) {
      MembersComplete(s.players, s.entrants, t, p);
    } else if p in Members(s.players, s.entrants, t) {
      MembersSound(s.players, s.entrants, t, p);
    }
  }

  /** Leaving keeps every count and mean right. */
  lemma {:induction false} LeaveConsistent(s: Roster, t: string, p: string)
    requires Consistent(s)
    ensures Consistent(Leave(s, t, p))
  {
    LeaveEffect(s, t, p);
    var s' := Leave(s, t, p);
    if p in s.entrants && s.entrants[p].team == Some(t) {
      MembersLeave(s.players, s.entrants, t, p);
      forall u | u in s'.squads
        ensures s'.squads[u] == Squad(|Members(s'.players, s'.entrants, u)|, MeanElo(s'.players, s'.entrants, u))
      {
        if u != t {
          MembersAgree(s.players, s.entrants, s'.entrants, u);
        }
      }
    }
  }

  /** Unregistering a player who is in no team keeps the keys in order, and a consistent roster consistent. */
  lemma {:induction false} DropConsistent(s: Roster, p: string)
    requires Keyed(s) && p in s.entrants && s.entrants[p].team == None
    ensures Keyed(Unregister(s, p))
    ensures Consistent(s) ==> Consistent(Unregister(s, p))
  {
    var s' := Unregister(s, p);
    RemoveFirstMembers(s.players, p);
    RemoveFirstDistinct(s.players, p);
    if Consistent(s) {
      forall u | u in s'.squads
        ensures s'.squads[u] == Squad(|Members(s'.players, s'.entrants, u)|, MeanElo(s'.players, s'.entrants, u))
      {
        MembersDrop(s.players, s.entrants, u, p);
      }
    }
  }

  /**
   * Removing a player keeps the keys in order (and a consistent roster
   * consistent), unregisters exactly that name and leaves everybody else
   * as they were.
   */
  lemma {:induction false} RemovePlayerConsistent(s: Roster, p: string)
    requires Keyed(s)
    ensures var s' := RemovePlayer(s, p);
      Keyed(s') && (Consistent(s) ==> Consistent(s')) && s'.players == RemoveFirst(s.players, p) && s'.teams == s.teams &&
      s'.entrants.Keys == s.entrants.Keys - {p} && s'.squads.Keys == s.squads.Keys &&
      (forall k :: k in s'.entrants ==> s'.entrants[k] == s.entrants[k]) &&
      (p !in s.entrants ==> s' == s)
  {
    RemoveFirstCutsFirst(s.players, p);
    if p in s.entrants {
      if s.entrants[p].team.Some? {
        if Consistent(s) {
          LeaveConsistent(s, s.entrants[p].team.value, p);
        }
        LeaveEffect(s, s.entrants[p].team.value, p);
        DropConsistent(Leave(s, s.entrants[p].team.value, p), p);
      } else {
        DropConsistent(s, p);
      }
    }
  }

  /**
   * What `RemovePlayer` does to the teams on a roster whose keys are in
   * order: an unknown name changes nothing; the team of a removed member
   * shrinks by one and takes the mean elo of the members left; no other
   * team changes.
   */
  lemma {:induction false} RemovePlayerEffect(s: Roster, p: string)
    requires Keyed(s)
    ensures var r := RemovePlayer(s, p);
      (p !in s.entrants ==> r == s) &&
      (p in s.entrants && s.entrants[p].team == None ==> r.squads == s.squads) &&
      (p in s.entrants && s.entrants[p].team.Some? ==>
        var t := s.entrants[p].team.value;
        r.squads == s.squads[t := Squad(s.squads[t].size - 1, MeanElo(r.players, r.entrants, t))])
  {
    if p in s.entrants && s.entrants[p].team.Some? {
      var t := s.entrants[p].team.value;
      LeaveEffect(s, t, p);
      var s1 := Leave(s, t, p);
      MembersDrop(s1.players, s1.entrants, t, p);
    }
  }

  /** `LeaveAll` keeps the key lists, the other teams and consistency. */
  lemma {:induction false} LeaveAllConsistent(s: Roster, t: string, ps: seq<string>)
    requires Keyed(s)
    ensures var s' := LeaveAll(s, t, ps);
      Keyed(s') && (Consistent(s) ==> Consistent(s')) && s'.players == s.players && s'.teams == s.teams &&
      s'.entrants.Keys == s.entrants.Keys && s'.squads.Keys == s.squads.Keys && s'.squads - {t} == s.squads - {t}
  {
    if ps != [] {
      var n := |ps| - 1;
      var s1 := LeaveAll(s, t, ps[..n]);
      LeaveAllConsistent(s, t, ps[..n]);
      if Consistent(s) {
        LeaveConsistent(s1, t, ps[n]);
      }
      LeaveEffect(s1, t, ps[n]);
    }
  }

  /** `LeaveAll` keeps the entrant names, unassigns the listed members of `t` with their elos kept, and leaves every other entrant as it was. */
  lemma {:induction false} LeaveAllUnassigns(s: Roster, t: string, ps: seq<string>)
    requires Keyed(s)
    ensures var s' := LeaveAll(s, t, ps);
      s'.entrants.Keys == s.entrants.Keys &&
      forall k :: k in s.entrants ==>
        s'.entrants[k] == if k in ps && s.entrants[k].team == Some(t) then Entrant(s.entrants[k].elo, None) else s.entrants[k]
  {
    if ps != [] {
      var n := |ps| - 1;
      var s1 := LeaveAll(s, t, ps[..n]);
      LeaveAllConsistent(s, t, ps[..n]);
      LeaveAllUnassigns(s, t, ps[..n]);
      LeaveEffect(s1, t, ps[n]);
      assert ps == ps[..n] + [ps[n]];
    }
  }

  /** Deleting a team that nobody names keeps the keys in order, and a consistent roster consistent. */
  lemma {:induction false} DeleteConsistent(s: Roster, t: string)
    requires Keyed(s) && t in s.squads
    requires forall k :: k in s.entrants ==> s.entrants[k].team != Some(t)
    ensures Keyed(Delete(s, t))
    ensures Consistent(s) ==> Consistent(Delete(s, t))
  {
    RemoveFirstMembers(s.teams, t);
    RemoveFirstDistinct(s.teams, t);
  }

  /** After the loop of `remove_team` over the members of `t`, nobody is in `t`. */
  lemma {:induction false} LeaveAllMembers(s: Roster, t: string)
    requires Keyed(s)
    ensures var s' := LeaveAll(s, t, Members(s.players, s.entrants, t));
      Keyed(s') && (Consistent(s) ==> Consistent(s')) && s'.players == s.players && s'.teams == s.teams &&
      s'.entrants.Keys == s.entrants.Keys && s'.squads.Keys == s.squads.Keys && s'.squads - {t} == s.squads - {t} &&
      forall k :: k in s.entrants ==>
        s'.entrants[k] == if s.entrants[k].team == Some(t) then Entrant(s.entrants[k].elo, None) else s.entrants[k]
  {
    var ms := Members(s.players, s.entrants, t);
    LeaveAllConsistent(s, t, ms);
    LeaveAllUnassigns(s, t, ms);
    forall k | k in s.entrants && s.entrants[k].team == Some(t)
      ensures k in ms
    {
      MembersComplete(s.players, s.entrants, t, k);
    }
  }

  /**
   * `remove_team`: a known team is deleted after every member has left,
   * and the other players and teams are as before; an unknown team fails
   * and nothing changes. Consistency is kept where it held.
   */
  lemma {:induction false} DisbandEffect(s: Roster, t: string)
    requires Keyed(s)
    ensures var o := Disband(s, t);
      Keyed(o.roster) && (Consistent(s) ==> Consistent(o.roster)) && o.ok == (t in s.squads) && (!o.ok ==> o.roster == s) &&
      (o.ok ==>
        o.roster.squads == s.squads - {t} && o.roster.teams == RemoveFirst(s.teams, t) &&
        o.roster.players == s.players && o.roster.entrants.Keys == s.entrants.Keys &&
        forall k :: k in s.entrants ==>
          o.roster.entrants[k] == if s.entrants[k].team == Some(t) then Entrant(s.entrants[k].elo, None) else s.entrants[k])
  {
    var ms := Members(s.players, s.entrants, t);
    LeaveAllMembers(s, t);
    if t !in s.squads {
      NoMembers(s.players, s.entrants, t);
    } else {
      var s1 := LeaveAll(s, t, ms);
      DeleteConsistent(s1, t);
    }
  }

  /** The rest of a distinct list of known teams is distinct and known once its head is deleted. */
  lemma {:induction false} TailKnown(ts: seq<string>, sq: map<string, Squad>)
    requires ts != [] && Distinct(ts) && forall t :: t in ts ==> t in sq
    ensures Distinct(ts[1..]) && forall t :: t in ts[1..] ==> t in sq - {ts[0]}
  {
    forall i, j | 0 <= i < j < |ts| - 1 ensures ts[1..][i] != ts[1..][j] {
      assert ts[i + 1] != ts[j + 1];
    }
    forall u | u in ts[1..] ensures u in sq - {ts[0]} {
      var i :| 0 <= i < |ts| - 1 && ts[1..][i] == u;
      assert ts[0] != ts[i + 1];
    }
  }

  lemma HeadOrTail(ts: seq<string>)
    requires ts != []
    ensures forall u :: u in ts <==> u == ts[0] || u in ts[1..]
  {
    assert ts == [ts[0]] + ts[1..];
  }

  /** Unassigning the team `ts[0]`, then the teams `ts[1..]`, unassigns the teams `ts`. */
  lemma ClearEntrant(e: Entrant, ts: seq<string>)
    requires ts != []
    ensures var e1 := if e.team == Some(ts[0]) then Entrant(e.elo, None) else e;
      (if e1.team.Some? && e1.team.value in ts[1..] then Entrant(e1.elo, None) else e1) ==
      (if e.team.Some? && e.team.value in ts then Entrant(e.elo, None) else e)
  {
    HeadOrTail(ts);
  }

  /**
   * The loop of `clear_teams` over distinct, known team names succeeds; the
   * listed teams are gone and their members unassigned, the rest as before.
   */
  lemma {:induction false} ClearFromEffect(s: Roster, ts: seq<string>)
    requires Keyed(s) && Distinct(ts) && forall t :: t in ts ==> t in s.squads
    ensures var o := ClearFrom(s, ts);
      o.ok && Keyed(o.roster) && (Consistent(s) ==> Consistent(o.roster)) && o.roster.players == s.players &&
      (forall u :: u in o.roster.squads <==> u in s.squads && u !in ts) && o.roster.entrants.Keys == s.entrants.Keys &&
      forall k :: k in s.entrants ==>
        o.roster.entrants[k] == if s.entrants[k].team.Some? && s.entrants[k].team.value in ts then Entrant(s.entrants[k].elo, None) else s.entrants[k]
    decreases |ts|
  {
    if ts != [] {
      var t := ts[0];
      DisbandEffect(s, t);
      var s1 := Disband(s, t).roster;
      TailKnown(ts, s.squads);
      ClearFromEffect(s1, ts[1..]);
      var o := ClearFrom(s1, ts[1..]);
      assert ClearFrom(s, ts) == o;
      HeadOrTail(ts);
      forall k | k in s.entrants
        ensures o.roster.entrants[k] == if s.entrants[k].team.Some? && s.entrants[k].team.value in ts then Entrant(s.entrants[k].elo, None) else s.entrants[k]
      {
        ClearEntrant(s.entrants[k], ts);
      }
    }
  }

  /** `clear_teams`: every team is gone and every player unassigned, elos kept; consistency is kept where it held. */
  lemma {:induction false} ClearTeamsEmpties(s: Roster)
    requires Keyed(s)
    ensures var o := ClearFrom(s, s.teams);
      o.ok && Keyed(o.roster) && (Consistent(s) ==> Consistent(o.roster)) && o.roster.squads == map[] && o.roster.teams == [] &&
      o.roster.players == s.players && o.roster.entrants.Keys == s.entrants.Keys &&
      forall k :: k in s.entrants ==> o.roster.entrants[k] == Entrant(s.entrants[k].elo, None)
  {
    ClearFromEffect(s, s.teams);
    var o := ClearFrom(s, s.teams);
    assert o.roster.squads.Keys == {};
    HeadIsKey(o.roster.teams, o.roster.squads.Keys);
  }

  /** Two players of 1201 and 1000 in one team give a team elo of 1100, `int(2201 / 2)`. */
  lemma MeanEloOfTwo()
    ensures MeanElo(["A", "B"], map["A" := Entrant(1201, Some("T")), "B" := Entrant(1000, Some("T"))], "T") == 1100
  {
    var r := map["A" := Entrant(1201, Some("T")), "B" := Entrant(1000, Some("T"))];
    assert ["A", "B"][..1] == ["A"] && ["A"][..0] == [];
    assert Members(["A"], r, "T") == ["A"] && EloTotal(["A"], r, "T") == 1201;
  }

  /** Once the 1000 player has left, the team elo is that of the 1201 player alone. */
  lemma MeanEloAfterLeave()
    ensures MeanElo(["A", "B"], map["A" := Entrant(1201, Some("T")), "B" := Entrant(1000, None)], "T") == 1201
  {
    var r := map["A" := Entrant(1201, Some("T")), "B" := Entrant(1000, None)];
    assert ["A", "B"][..1] == ["A"] && ["A"][..0] == [];
    assert Members(["A"], r, "T") == ["A"] && EloTotal(["A"], r, "T") == 1201;
  }

  /** A team without members has elo 0, and a negative total truncates toward zero: `int(-3 / 2)` is -1. */
  lemma MeanEloEdges()
    ensures MeanElo(["A"], map["A" := Entrant(1200, None)], "T") == 0
    ensures MeanElo(["A", "B"], map["A" := Entrant(-3, Some("T")), "B" := Entrant(0, Some("T"))], "T") == -1
  {
    var r := map["A" := Entrant(-3, Some("T")), "B" := Entrant(0, Some("T"))];
    assert ["A", "B"][..1] == ["A"] && ["A"][..0] == [];
    assert Members(["A"], r, "T") == ["A"] && EloTotal(["A"], r, "T") == -3;
  }

  /**
   * `add_to_team` does not check whether the player is already in a team:
   * moving a member of `T1` to `T2` leaves `T1` with `size` 1 and no member.
   */
  lemma JoinReassignMiscounts()
    ensures var s := Roster(["A"], map["A" := Entrant(1000, Some("T1"))], ["T1"], map["T1" := Squad(1, 1000)]);
      var o := Join(s, 2, "T2", "A");
      Consistent(s) && o.ok && !Consistent(o.roster) &&
      o.roster.squads["T1"].size == 1 && Members(o.roster.players, o.roster.entrants, "T1") == []
  {
    var s := Roster(["A"], map["A" := Entrant(1000, Some("T1"))], ["T1"], map["T1" := Squad(1, 1000)]);
    assert ["A"][..0] == [];
    assert Members(s.players, s.entrants, "T1") == ["A"];
    assert EloTotal(s.players, s.entrants, "T1") == 1000;
    assert Keyed(s);
    var s1 := WithTeam(s, "T2");
    assert s1.squads["T2"].size == 0;
    var s2 := Tag(s1, "A", Some("T2"));
    assert s2.entrants == map["A" := Entrant(1000, Some("T2"))];
    assert Members(s2.players, s2.entrants, "T1") == [];
    var o := Join(s, 2, "T2", "A");
    assert o.roster == Resized(s2, "T2", 1);
  }
}
