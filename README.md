# tournapy in Dafny

A model of the bracket and standings engine of tournapy and of the roster
bookkeeping around it, with proofs about the model.

- **Matches.** A `Match` is a best-of-`bo` series between a blue and a red
  slot. It records per-game scores, recounts the series tallies and latches
  `ended` once one side reaches `ceil(bo/2)`.
- **Rulesets.** A `Ruleset` is one stage of a tournament. It holds a
  bounded pool of teams, a bracket of matches keyed by id, the queue of ids
  still to be played and the history of ended matches.
  - **Single elimination.** It lays out a power-of-two tree whose inner
    slots hold `winner(<id>)` placeholders, and hands each winner on to the
    match that awaits it.
  - **Swiss system.** It pairs the pool in order, then re-pairs the teams
    below 9 points after each round, ranked by points and then goal
    difference, for at most five rounds.
- **Standings.** `get_standings` rebuilds every pool team's points and
  goals from the ended matches.
- **Tournament.** A `Tournament` keeps the registered players and the
  teams, in insertion order. Joining or leaving a team updates the team's
  `size` and its mean `elo`. Removing a player or a team cascades. Stages
  are stored by order and can be looked up by name.

The files:

| file | module | what it holds |
|---|---|---|
| `wrappers.dfy` | `Wrappers` | `Option`, where the source uses `None` |
| `lists.dfy` | `Lists` | `list.index`, `list.remove`, duplicate-free key lists |
| `labels.dfy` | `Labels` | the strings the bracket builds: decimal numbers, match ids `r-s`, `winner(<id>)`, `forfeit` |
| `model.dfy` | `Model` | `Player`, `Team`, `Match` (src/tournapy/core/model.py) |
| `standings.dfy` | `Standings` | what an ended match credits to a team, on values |
| `elimination.dfy` | `Elimination` | the bracket layout of `SimpleElimination.init_bracket`, on values |
| `swiss.dfy` | `Swiss` | `grouper`, Swiss match ids and the two stable sorts of `update_bracket`, on values |
| `ruleset.dfy` | `Rulesets` | the `Ruleset` class |
| `roster.dfy` | `Rosters` | the tournament roster as a value, and what each roster operation does to it |
| `tournament.dfy` | `Tournaments` | the `Tournament` class |

How the model is built:

- **Mutated objects become classes.** `Match`, `Team`, `Player`, `Ruleset`
  and `Tournament` are classes, and their methods change fields in place.
- **Each method is tied to a function on values.** Its `ensures` equates
  the state it leaves with a function of the old state. Examples:
  - `Match.ComputeBo` leaves `Resolve(old(State()), bo)`;
  - `Ruleset.ReportElimination` leaves the `EliminationStep` of the old
    queue, bracket view and match;
  - `Tournament.AddToTeam` leaves the `Rosters.Join` of the old roster.
- **The properties are proved about those functions.** Lemmas on the
  value functions state what the source promises.
- **Dictionaries with an order.** A Python dictionary the source iterates
  over becomes a `map` plus the sequence of its keys in insertion order.
- **The roster methods write only `size` and `elo` of a team.** Their
  `modifies` clauses name just those two fields of the team objects, and
  their `ensures` say that no team object that existed before the call
  has its points or goals changed.
- **Exceptions become results.** A raised exception appears as
  `Report.Raised(...)`, as `ok == false` or as `None`. Whatever the source
  did before raising is kept.

Where the code does something other than its names and structure
suggest, the model follows the code:

- A best-of with an even `bo` can end with equal tallies and no winner.
- `set_result` accepts game numbers of 0 and below (see Findings).
- `get_standings` fails on an ended match whose blue slot is no pool team.
  Only an unknown red slot is tallied into a throwaway team.
- `next_match` looks up every queued id first, so one unknown id fails the
  whole call.
- `init_bracket` drops the old bracket but keeps appending to the queue.
- `init_bracket` handles one team as a bracket of depth 0, with no
  matches. An empty pool fails.

## Model

| member | source | states |
|---|---|---|
| Model.Player.constructor | src/tournapy/core/model.py:13-17 | a new player has the given name and elo and no team |
| Model.Team.constructor | src/tournapy/core/model.py:37-43 | a new team has the given name; size, elo, points and both goal counts are zero |
| Model.CeilHalf | src/tournapy/core/model.py:99 | `c` is `ceil(bo/2)`: `bo <= 2c < bo + 2` |
| Model.WinsCountsWonGames | src/tournapy/core/model.py:94-98 | the tally `Wins(a, b)` that `compute_bo` accumulates is the number of games in which side `a` scored strictly more |
| Model.DecisiveGamesBound | src/tournapy/core/model.py:94-98 | drawn games count for neither side, so `bo_blue_score + bo_red_score` is at most the number of games |
| Model.Winner | src/tournapy/core/model.py:103-109 | no winner on equal tallies; otherwise the slot of the side with the larger tally |
| Model.WinnerIgnoresSides | src/tournapy/core/model.py:103-109 | exchanging the blue and red sides (slots, games and tallies) does not change the winner |
| Model.ResolveIdempotent | src/tournapy/core/model.py:91-101 | recounting again without a new game leaves every field as the first recount left it |
| Model.Resolve | src/tournapy/core/model.py:91-101 | the recount keeps the slots and the games; the two tallies are non-negative and together at most the games played, since drawn games count for neither side; `ended` is never reset |
| Model.OddBestOfIsDecided | src/tournapy/core/model.py:99-109 | for odd `bo` with recounted tallies, a side at `ceil(bo/2)` is strictly ahead, so `get_winner` returns that side's slot and not `None` |
| Model.EvenBestOfCanEndInDraw | src/tournapy/core/model.py:99-105 | a best-of-2 split 1-1 is ended, yet `get_winner` returns `None` |
| Model.GameIndex | src/tournapy/core/model.py:82-84 | the list position Python assigns to `game - 1` in a list of `n` games: defined exactly when `-n <= game - 1 < n`, counted from the end when negative |
| Model.SetResultZeroHitsLastGame | src/tournapy/core/model.py:82-84 | as written, `set_result(0, ...)` on two games writes the second game and `set_result(-1, ...)` the first |
| Model.Match.constructor | src/tournapy/core/model.py:58-67 | a new match has the given id, bo and slots, no games, zero tallies and is not ended |
| Model.Match.AddGameResult | src/tournapy/core/model.py:75-80 | one score is appended to each list exactly when fewer than `bo` games are recorded and the match has not ended; otherwise it fails and both lists are unchanged; the lists stay of equal length, at most `bo` |
| Model.Match.SetResult | src/tournapy/core/model.py:82-84 | as written: fails exactly when Python's indexing fails; otherwise overwrites game `GameIndex(game, n)` of both lists and nothing else |
| Model.Match.SetGameResult | src/tournapy/core/model.py:82-84 | as intended: succeeds exactly for `1 <= game <= n`, overwrites index `game - 1` of both lists and keeps every other game |
| Model.Match.ComputeBo | src/tournapy/core/model.py:91-101 | the loop leaves the state `Resolve(old state, bo)`: both tallies recounted from scratch, `ended` latched, the result equal to `ended` |
| Model.Match.GetWinner | src/tournapy/core/model.py:103-109 | `None` on equal tallies, otherwise the slot of the side with the larger tally |
| Standings.TallyAppend | src/tournapy/core/ruleset.py:104-122 | folding one more ended match adds exactly that match's share to a team's tally |
| Standings.EndedMembers | src/tournapy/core/ruleset.py:104 | `filter(lambda x: x.ended is True, ...)` keeps exactly the ended matches, and no more than there were |
| Standings.EndedAppend | src/tournapy/core/ruleset.py:104 | filtering a concatenated history is concatenating the filtered parts |
| Standings.Folded | src/tournapy/core/ruleset.py:104-110 | the fold credits the ended matches up to the first whose blue slot is no pool team (where `get_team` gives `None` and the source fails) |
| Standings.FoldedUnique | src/tournapy/core/ruleset.py:104-110 | the two conditions on `Folded` pin down a single stopping index |
| Standings.AbsentTeamScoresNothing | src/tournapy/core/ruleset.py:99-122 | a team that holds no slot of any folded match keeps the zeroed tally |
| Standings.SharePoints | src/tournapy/core/ruleset.py:114-122 | with two distinct filled slots a team gets 3 points for a win, 1 for a draw and 0 for a loss |
| Standings.MatchPointsTotal | src/tournapy/core/ruleset.py:114-122 | a decided match hands out 3 points in all, a drawn one 2 |
| Standings.PointsCountWinsAndDraws | src/tournapy/core/ruleset.py:98-122 | over matches with distinct filled slots, a team's points are 3 times its wins plus its draws |
| Standings.EmptyRedSlotDrawIsBlueLoss | src/tournapy/core/ruleset.py:107-122 | with an empty red slot the no-winner case compares equal to `red_team`, so blue gets no point |
| Elimination.Depth | src/tournapy/core/ruleset.py:182 | the number of rounds `d` satisfies `n <= 2^d` and `2^(d-1) < n` |
| Elimination.DepthIsLeast | src/tournapy/core/ruleset.py:182 | no smaller number of rounds holds `n` teams: `Depth(n)` is `ceil(log2 n)` |
| Elimination.FitsIsDepth | src/tournapy/core/ruleset.py:182 | `2^d >= n > 2^(d-1)` holds exactly for `d == Depth(n)` |
| Elimination.RoundPlan | src/tournapy/core/ruleset.py:184-200 | round `r` creates `2^r` matches |
| Elimination.Layout | src/tournapy/core/ruleset.py:184-203 | the closed-form layout has `2^d - 1` matches |
| Elimination.PlanSize | src/tournapy/core/ruleset.py:184-187 | the first `k` rounds create `2^k - 1` matches |
| Elimination.PlanAt | src/tournapy/core/ruleset.py:184-200 | position `p` of the nested loops is match `p + 2 - 2^l` of round `l = floor(log2(p + 1))` |
| Elimination.LayoutIsPlan | src/tournapy/core/ruleset.py:184-203 | the round-by-round loop order equals the closed-form layout |
| Elimination.RoundSlots | src/tournapy/core/ruleset.py:188-200 | match `t + 1` of round `l` sits at position `2^l - 1 + t` and holds the two slots the loop body computes |
| Elimination.LayoutShape | src/tournapy/core/ruleset.py:182-188 | `2^d - 1` matches, the first is `0-1` (the final), every round is below `d` |
| Elimination.RoundPosition | src/tournapy/core/ruleset.py:184-188 | round `r` holds the matches numbered `1 .. 2^r`, each at one position |
| Elimination.LayoutNumbersDistinct | src/tournapy/core/ruleset.py:184-188 | no two created matches share a (round, number) pair |
| Elimination.LayoutSeedsInPool | src/tournapy/core/ruleset.py:192-198 | every seed the seeding round reads is an index into the pool |
| Elimination.WinnerAwaitedOnce | src/tournapy/core/ruleset.py:189-191 | outside the seeding round each match of round `r + 1` is awaited by exactly one slot: blue of match `j` of round `r` when `j <= 2^r`, red of match `2^(r+1) + 1 - j` otherwise |
| Elimination.EveryTeamSeededOnce | src/tournapy/core/ruleset.py:192-200 | every pool team is seeded exactly once: team `k` plays blue in seeding match `k + 1` when `k < 2^(d-1)`, red in seeding match `2^d - k` otherwise |
| Elimination.NoForfeitInRound | src/tournapy/core/ruleset.py:189-191 | a round before the seeding round holds no `forfeit` |
| Elimination.SeedingForfeits | src/tournapy/core/ruleset.py:192-200 | the seeding round leaves `2^d - n` slots to `forfeit` (the `IndexError` branch) |
| Elimination.NoForfeitBeforeSeeding | src/tournapy/core/ruleset.py:189-191 | all rounds before the seeding round together hold no `forfeit` |
| Elimination.ForfeitCount | src/tournapy/core/ruleset.py:192-200 | the whole bracket of `n` teams holds exactly `2^d - n` forfeits |
| Elimination.Render | src/tournapy/core/ruleset.py:188-200 | each rendered match has the id `r-number` and the slot strings: a team name, `forfeit` or `winner(<id>)` |
| Elimination.BracketAt | src/tournapy/core/ruleset.py:184-203 | the stored bracket is the rendered layout |
| Elimination.BracketSize | src/tournapy/core/ruleset.py:184-203 | the stored bracket has `2^d - 1` matches |
| Elimination.BracketRound | src/tournapy/core/ruleset.py:187-200 | the inner loop of round `r` creates `2^r` matches |
| Elimination.RoundEntry | src/tournapy/core/ruleset.py:187-200 | match `i + 1` of round `r` gets id `r-(i+1)`; outside the seeding round its slots are `winner((r+1)-(i+1))` and `winner((r+1)-(2^(r+1)-i))`; in the seeding round `pool[i].name` and `pool[2^(r+1)-i-1].name` or `forfeit` |
| Elimination.RoundsRenderPlan | src/tournapy/core/ruleset.py:184-203 | rendering the rounds one after the other renders the loop-ordered plan |
| Elimination.RoundsAreBracket | src/tournapy/core/ruleset.py:184-203 | all `d` rounds, rendered in loop order, are the stored bracket |
| Elimination.BracketIdsDistinct | src/tournapy/core/ruleset.py:188-203 | the ids appended to the queue are pairwise distinct |
| Elimination.BracketStartsWithFinal | src/tournapy/core/ruleset.py:184-188 | the first match created is the final, `0-1` |
| Elimination.OnlyWinnerSlotNamesPlaceholder | src/tournapy/core/ruleset.py:190-191 | only the slot for the winner of match `r-j` renders to `winner(r-j)`, unless a team bears that name |
| Elimination.PlaceholderReferencedOnce | src/tournapy/core/ruleset.py:189-191 | in the stored strings each placeholder `winner((r+1)-j)` sits in exactly one slot of one match |
| Elimination.FourTeamBracket | src/tournapy/core/ruleset.py:178-203 | A, B, C, D give `0-1 = (winner(1-1), winner(1-2))`, `1-1 = (A, D)`, `1-2 = (B, C)` |
| Elimination.ThreeTeamBracket | src/tournapy/core/ruleset.py:178-203 | A, B, C give `1-1 = (A, forfeit)` and `1-2 = (B, C)` |
| Swiss.Grouper | src/tournapy/core/ruleset.py:240-245 | `grouper(xs, 2)` yields `ceil(len/2)` pairs; pair `k` is `(xs[2k], xs[2k+1])`, padded with `forfeit` past the end |
| Swiss.FlattenGrouper | src/tournapy/core/ruleset.py:240-245 | flattening the pairs gives `xs`, followed by one `forfeit` exactly when `len(xs)` is odd |
| Swiss.OneForfeitWhenOdd | src/tournapy/core/ruleset.py:240-245 | a pool with no team called `forfeit` meets exactly `len % 2` forfeits |
| Swiss.RoundFixtures | src/tournapy/core/ruleset.py:254-258 | match `k` of a round has the id `round-(groups.index(groups[k]))` and the two names of its pair |
| Swiss.DistinctGroupsNumberInOrder | src/tournapy/core/ruleset.py:256 | with distinct pairs match `k` is `round-k`, and the ids are pairwise distinct |
| Swiss.EqualGroupsShareId | src/tournapy/core/ruleset.py:256-258 | two equal pairs get the same id, so the later match replaces the earlier one in the bracket |
| Swiss.Insert | src/tournapy/core/ruleset.py:296-299 | the insertion step of the stable sort is a permutation that adds one element |
| Swiss.SortBy | src/tournapy/core/ruleset.py:296-299 | `sorted(..., reverse=True)` is a permutation of its input |
| Swiss.InsertRefines | src/tournapy/core/ruleset.py:296-299 | inserting an element that every present entry may precede keeps the list ordered by key first and the earlier order second |
| Swiss.SortRefines | src/tournapy/core/ruleset.py:296-299 | stable sorting by a key a list ordered by `o` orders it by the key (descending), ties kept in `o` order |
| Swiss.Contenders | src/tournapy/core/ruleset.py:295 | the filter keeps exactly the teams below 9 points |
| Swiss.ContendersKeepOrder | src/tournapy/core/ruleset.py:295 | the filter keeps pool order |
| Swiss.RankingOrder | src/tournapy/core/ruleset.py:295-299 | the ranking orders the contenders by points, then goal difference (both descending), then pool order, and is a permutation of them |
| Swiss.Names | src/tournapy/core/ruleset.py:301 | `map(lambda t: t.name, ...)` keeps length and position |
| Swiss.RepairingPairsContenders | src/tournapy/core/ruleset.py:295-301 | the re-pairing names every team below 9 points exactly once and no other team, plus one `forfeit` when their number is odd |
| Swiss.RepairingExample | src/tournapy/core/ruleset.py:295-301 | A(9, +7), B(6, +5), C(6, -2), D(3, 0) are re-paired as (B, C) and (D, forfeit) |
| Rulesets.Find | src/tournapy/core/ruleset.py:74-77 | `get_team` stops at the first team bearing the name, or finds none; `None` matches no team |
| Rulesets.FindKnown | src/tournapy/core/ruleset.py:74-77 | `get_team` finds a team exactly when the name is one of the pool names |
| Rulesets.Entries | src/tournapy/core/ruleset.py:295-299 | the ranking reads each pool team's name, points and goal difference, with its pool position as seat |
| Rulesets.Scan | src/tournapy/core/ruleset.py:275-280 | the scan stops at the first queued match holding the team in a slot |
| Rulesets.FirstHolder | src/tournapy/core/ruleset.py:137-143 | `next_match` fails exactly when some queued id is not in the bracket; otherwise it finds the first queued match holding the team, or nothing |
| Rulesets.InstallKeys | src/tournapy/core/ruleset.py:201-203 | after storing the new matches the bracket holds the old ids and the new ones |
| Rulesets.InstallKeeps | src/tournapy/core/ruleset.py:201-203 | an id that no new match reuses keeps its old match |
| Rulesets.InstallLast | src/tournapy/core/ruleset.py:305-306 | an id created several times holds the match created last |
| Rulesets.InstallDistinct | src/tournapy/core/ruleset.py:201-203 | with distinct ids every new match is stored as created |
| Rulesets.PlayRecordsGame | src/tournapy/core/ruleset.py:148-155 | a report is refused exactly when the stage is not running; an accepted report records exactly one more game with recounted tallies; the match leaves the queue exactly when it ended while queued, and then `list.remove` takes out one copy of its id and nothing else; with ids queued once, only that id leaves and the rest stay queued once |
| Rulesets.Play | src/tournapy/core/ruleset.py:148-155 | a report never changes the slots of the match and keeps its score lists of equal length; a match already ended neither ends again nor changes; an ended report is `Updated`, the match is ended and one copy of its queued id is removed; otherwise the queue is untouched |
| Rulesets.EndedMatchRejectsGames | src/tournapy/core/model.py:75-80 | once a match has ended, every further game reported to it on a running stage is rejected by `add_game_result`, and neither the match nor the queue changes |
| Rulesets.Pass | src/tournapy/core/ruleset.py:156-173 | the bracket keeps its ids; an unknown queued id raises and changes nothing; otherwise the report is an update; only a queued match holding `winner(<id>)` changes, by taking the winner into that slot; when every queued id is known and none holds the placeholder, the result is exactly an update with the bracket unchanged and the stage stopped; when the `k`-th queued match is the first that holds it, the result is exactly an update with only that match advanced and the running flag kept |
| Rulesets.EliminationStep | src/tournapy/core/ruleset.py:148-176 | a report is refused exactly when the stage is not running; the bracket gains no id beyond the reported match; the stage never restarts; the match goes to the history exactly when `Play` ends it; a match that did not end leaves the queue and the running flag alone and gives `Play`'s report, state and recorded bracket; one that did is ended, its id leaves the queue once, and the report, bracket and running flag are those `Pass` gives for its winner on the remaining queue |
| Rulesets.WinnerGoesToAwaitingMatch | src/tournapy/core/ruleset.py:156-171 | in a bracket built by `init_bracket` the winner of match `(r+1)-j` is handed to its awaiting match whenever that is still queued, and to no match otherwise |
| Rulesets.OnlyAwaitingMatchHolds | src/tournapy/core/ruleset.py:189-191 | in the fresh bracket only the awaiting match holds `winner((r+1)-j)` |
| Rulesets.FourTeamInstalled | src/tournapy/core/ruleset.py:178-205 | the bracket of A, B, C, D is stored as the three fresh matches and queued `0-1`, `1-1`, `1-2` |
| Rulesets.FourTeamFirstSemi | src/tournapy/core/ruleset.py:148-168 | A beating D in `1-1` dequeues it and puts A in the blue slot of the final |
| Rulesets.FourTeamSecondSemi | src/tournapy/core/ruleset.py:148-168 | B beating C in `1-2` dequeues it and puts B in the red slot of the final |
| Rulesets.FourTeamFinal | src/tournapy/core/ruleset.py:148-173 | A beating B in the final empties the queue, A is the winner and the stage stops |
| Rulesets.RecordGame | src/tournapy/core/ruleset.py:150-151 | `add_game_result` then `compute_bo`: succeeds exactly when a game may be added, and leaves the recounted state |
| Rulesets.ReturnedTeam | src/tournapy/core/ruleset.py:106-107 | `get_team(name)` returns `pool[j]` exactly when `pool[j]` is the first team bearing `name` |
| Rulesets.Credit | src/tournapy/core/ruleset.py:110-122 | the team's points and goals grow by exactly the credited amounts |
| Rulesets.SettleStep | src/tournapy/core/ruleset.py:106-122 | crediting the team found for each slot moves every credited team from its tally before the match to its tally after it |
| Rulesets.Settle | src/tournapy/core/ruleset.py:106-122 | one pass of the standings loop leaves every pool team with the tally of one more match |
| Rulesets.Ruleset.constructor | src/tournapy/core/ruleset.py:52-62 | a new stage has the given name, kind, capacity and bo; an empty pool, history, bracket and queue; depth 0; not running; round 0 |
| Rulesets.Ruleset.AddTeam | src/tournapy/core/ruleset.py:64-69 | appends the team and succeeds exactly when the pool is below capacity; otherwise the pool is unchanged, so it never exceeds capacity |
| Rulesets.Ruleset.Start | src/tournapy/core/ruleset.py:91-92 | the stage runs |
| Rulesets.Ruleset.AddMatch | src/tournapy/core/ruleset.py:201-203 | a fresh match is stored under its id and the id appended to the queue; nothing else in the bracket changes |
| Rulesets.Ruleset.AddAll | src/tournapy/core/ruleset.py:254-259 | every fixture is stored and queued in order |
| Rulesets.Ruleset.InitElimination | src/tournapy/core/ruleset.py:178-205 | an empty pool fails and changes nothing; otherwise the depth is `ceil(log2 n)`, the bracket is exactly the fresh matches of `Bracket`, and their ids are appended to the old queue |
| Rulesets.Ruleset.PlanBracket | src/tournapy/core/ruleset.py:184-203 | the nested loops produce the rounds in creation order |
| Rulesets.Ruleset.RoundMatch | src/tournapy/core/ruleset.py:188-200 | the loop body produces match `i + 1` of round `r` |
| Rulesets.Ruleset.InitSwiss | src/tournapy/core/ruleset.py:247-259 | round becomes 1, the bracket is exactly round 1 paired in pool order, and its ids are appended to the queue |
| Rulesets.Ruleset.GetTeam | src/tournapy/core/ruleset.py:74-77 | the first pool team with that name, or `None` exactly when no pool team bears it |
| Rulesets.Ruleset.NextMatch | src/tournapy/core/ruleset.py:137-143 | the loop reports what `FirstHolder` says (the Swiss copy at 274-280 is the same code) |
| Rulesets.Ruleset.ReportGame | src/tournapy/core/ruleset.py:148-155 | the shared part of both reports leaves the queue, match and history that `Play` describes, and changes the bracket at most in the reported match |
| Rulesets.Ruleset.Recorded | src/tournapy/core/ruleset.py:151-154 | a rejected game or an ongoing match leaves the queue and history alone; an ended match leaves the queue and joins the history exactly when it was queued; the bracket is untouched |
| Rulesets.Ruleset.Retire | src/tournapy/core/ruleset.py:154-155 | an ended match leaves the queue and joins the history exactly when it was queued |
| Rulesets.Ruleset.RecordBracketGame | src/tournapy/core/ruleset.py:150-151 | recording a game changes the bracket at most in the reported match |
| Rulesets.Ruleset.AdvanceWinner | src/tournapy/core/ruleset.py:160-168 | the winner replaces the slot holding the placeholder, blue first; the other slot and the other matches are unchanged |
| Rulesets.Ruleset.ReportElimination | src/tournapy/core/ruleset.py:148-176 | leaves the report, queue, bracket, history, match and running flag that `EliminationStep` describes: refused when not running; an ended match is dequeued and appended to the history, its winner goes to the first queued match awaiting it, and the stage stops when none does |
| Rulesets.Ruleset.PassWinner | src/tournapy/core/ruleset.py:156-173 | hands the winner on as `Pass` says: to the first queued match awaiting it, stopping the stage when none does, failing on an unknown queued id |
| Rulesets.Ruleset.CreditMatch | src/tournapy/core/ruleset.py:106-122 | succeeds exactly when the blue slot names a pool team, and then the pool holds the tallies of one more match |
| Rulesets.Ruleset.ResetPool | src/tournapy/core/ruleset.py:99-102 | every pool team's points and goals are zero |
| Rulesets.Ruleset.CreditAll | src/tournapy/core/ruleset.py:104-122 | the loop credits the ended matches up to `Folded` and succeeds exactly when it reaches the end |
| Rulesets.Ruleset.GetStandings | src/tournapy/core/ruleset.py:98-122 | every credited pool team holds the points and goals of the ended history, as far as the fold gets, and uncredited duplicates hold zero; size and elo are untouched |
| Rulesets.Ruleset.StandingsIdempotent | src/tournapy/core/ruleset.py:98-122 | two standings over the same matches leave every team with the same record |
| Rulesets.Ruleset.UpdateBracket | src/tournapy/core/ruleset.py:282-307 | nothing changes while matches are queued, the pool teams included; otherwise the round grows by one, the stage stops past round 5 with the pool untouched, and otherwise the next round is paired (`RoundClosed`); no team's size or elo ever changes |
| Rulesets.Ruleset.NextRound | src/tournapy/core/ruleset.py:293-307 | the standings are rebuilt; on success round `round` of the re-paired contenders is added to the bracket and queued; a failed standings lookup raises with the bracket and queue untouched |
| Rulesets.Ruleset.PairRound | src/tournapy/core/ruleset.py:301-307 | the pairs become round `round`, stored and queued; the pool and history are untouched |
| Rulesets.Ruleset.StandingsOnly | src/tournapy/core/ruleset.py:294 | rebuilding the standings leaves the bracket as it was |
| Rulesets.Ruleset.ReportSwiss | src/tournapy/core/ruleset.py:261-272 | the shared report; a match that did not end changes nothing else, the pool teams included; an ended one triggers `update_bracket` from the queue left after it, which leaves every team's points and goals as they were while other matches are still queued or once the round passes 5; no team's size or elo changes |
| Rulesets.Ruleset.CloseIfEnded | src/tournapy/core/ruleset.py:265-269 | `update_bracket` runs exactly for an ended match; otherwise the report, round, running flag, bracket, queue and pool are untouched; for an ended match the teams' points and goals stay as they were while matches are queued or past round 5; no team's size or elo changes |
| Rosters.TruncDivTruncates | src/tournapy/tournament.py:89 | `int(a / b)` truncates toward zero: the remainder has the sign of `a` and is smaller than `b` |
| Rosters.Members | src/tournapy/tournament.py:83-84 | `get_team_players` lists no more names than the players in registration order; `MembersSound`, `MembersComplete` and `MembersOnce` say which names, each once |
| Rosters.MembersOnce | src/tournapy/tournament.py:83-84 | a key list names each player once, so `get_team_players` lists each member once |
| Rosters.MeanElo | src/tournapy/tournament.py:86-91 | 0 without members; otherwise the elo total divided by the member count, truncated toward zero: the remainder has the sign of the total and is smaller than the count |
| Rosters.AddPlayer | src/tournapy/tournament.py:28-33 | a new name is appended unassigned with its elo; a known name changes nothing; every other player and every team is kept |
| Rosters.Join | src/tournapy/tournament.py:42-58 | succeeds exactly when the player is registered and the team (created empty when unknown) is below `team_size`; the team then exists; on success only the player's team changes among the players, to `t` |
| Rosters.Leave | src/tournapy/tournament.py:60-72 | keeps the key lists and every other player; keeps the player's elo; a player outside `t` changes nothing; a registered member of a known `t` ends unassigned |
| Rosters.RemovePlayer | src/tournapy/tournament.py:35-40 | the name is no longer registered and every other player is kept as it was; the teams stay |
| Rosters.LeaveAll | src/tournapy/tournament.py:76-77 | the removal loop keeps both key lists and the registered names and team names |
| Rosters.LeaveAllUnassigns | src/tournapy/tournament.py:76-77 | on a keyed roster the loop unassigns exactly the listed members of the team, keeping their elos, and leaves every other player as it was |
| Rosters.Disband | src/tournapy/tournament.py:74-81 | succeeds exactly for a known team; afterwards exactly that team is gone from the dictionary and the key list, and the players are kept |
| Rosters.ClearFrom | src/tournapy/tournament.py:93-99 | the players are kept, no team is added, and on success every listed team is gone |
| Rosters.MembersSound | src/tournapy/tournament.py:83-84 | `get_team_players` lists only registered players whose team is `t` |
| Rosters.MembersComplete | src/tournapy/tournament.py:83-84 | every registered player whose team is `t` is listed |
| Rosters.NoMembers | src/tournapy/tournament.py:83-91 | a team nobody names has no players and elo total 0 |
| Rosters.MembersJoin | src/tournapy/tournament.py:50-53 | a player joining `t` adds exactly one member and its elo |
| Rosters.MembersLeave | src/tournapy/tournament.py:64-68 | a member leaving `t` removes exactly one member and its elo |
| Rosters.MembersDrop | src/tournapy/tournament.py:40 | deleting a player outside `t` changes neither the members nor the total of `t` |
| Rosters.AddPlayerConsistent | src/tournapy/tournament.py:28-33 | registering keeps every team's size and elo right; a new name is registered unassigned with its elo |
| Rosters.WithTeamConsistent | src/tournapy/tournament.py:44-47 | a newly created team is empty, with size and elo 0 |
| Rosters.JoinTwice | src/tournapy/tournament.py:43-47 | creating the team first changes nothing to what `add_to_team` does |
| Rosters.AssignConsistent | src/tournapy/tournament.py:50-53 | an unassigned player joining an existing team keeps every size and elo right |
| Rosters.JoinConsistent | src/tournapy/tournament.py:42-58 | `add_to_team` keeps every team's size equal to its member count and its elo equal to the members' mean, for a player not already in a team |
| Rosters.JoinReassignMiscounts | src/tournapy/tournament.py:48-53 | moving a member of `T1` to `T2` succeeds but leaves `T1` with size 1 and no member |
| Rosters.JoinEffect | src/tournapy/tournament.py:42-58 | on any roster whose keys are in order: an unknown team is appended to the team order and starts at size 0 and elo 0; no other team changes; a failed join changes no player and leaves the team as it was (or newly empty); a successful one puts the player in the team, grows it by one and sets its elo to the mean over its members, the player included |
| Rosters.JoinKeyed | src/tournapy/tournament.py:42-58 | `add_to_team` keeps the key lists in order and every named team registered |
| Rosters.LeaveEffect | src/tournapy/tournament.py:60-72 | on any roster whose keys are in order: when both names are known and the player is a member, that player is unassigned, the size drops by one and the elo is recomputed; otherwise nothing changes; the keys stay in order |
| Rosters.LeaveConsistent | src/tournapy/tournament.py:60-72 | `remove_from_team` keeps every size and elo right |
| Rosters.DropConsistent | src/tournapy/tournament.py:40 | deleting an unassigned player keeps the keys in order, and keeps every size and elo right on a consistent roster |
| Rosters.RemovePlayerConsistent | src/tournapy/tournament.py:35-40 | on any roster whose keys are in order, `remove_player` keeps them in order, unregisters exactly that name and leaves everybody else as they were; an unknown name changes nothing; a consistent roster stays consistent |
| Rosters.RemovePlayerEffect | src/tournapy/tournament.py:35-40 | on any roster whose keys are in order: an unknown name changes nothing; removing an unassigned player changes no team; removing a member shrinks that member's team by one and sets its elo to the mean of the members left, and no other team changes |
| Rosters.LeaveAllConsistent | src/tournapy/tournament.py:76-77 | on any roster whose keys are in order, the removal loop keeps them in order and keeps the key lists and the other teams; a consistent roster stays consistent |
| Rosters.DeleteConsistent | src/tournapy/tournament.py:78 | deleting a team that nobody names keeps the keys in order, and a consistent roster consistent |
| Rosters.LeaveAllMembers | src/tournapy/tournament.py:76-77 | on any roster whose keys are in order, after the loop over the team's players nobody is in the team; a consistent roster stays consistent |
| Rosters.DisbandEffect | src/tournapy/tournament.py:74-81 | on any roster whose keys are in order, also one left miscounted by a reassignment: `remove_team` succeeds exactly for a known team; it is then deleted, its members unassigned, everything else kept; an unknown team fails and changes nothing; a consistent roster stays consistent |
| Rosters.ClearFromEffect | src/tournapy/tournament.py:93-99 | on any roster whose keys are in order, the loop over distinct known team names succeeds; exactly those teams are gone, their members unassigned, elos kept; a consistent roster stays consistent |
| Rosters.ClearTeamsEmpties | src/tournapy/tournament.py:93-99 | on any roster whose keys are in order, `clear_teams` succeeds and leaves no team and no assigned player, and keeps every elo; a consistent roster stays consistent |
| Rosters.MeanEloOfTwo | src/tournapy/tournament.py:86-91 | players of 1201 and 1000 give the team an elo of 1100, `int(2201 / 2)` |
| Rosters.MeanEloAfterLeave | src/tournapy/tournament.py:86-91 | once the 1000 player has left, the team elo is 1201 |
| Rosters.MeanEloEdges | src/tournapy/tournament.py:86-91 | an empty team has elo 0, and `int(-3 / 2)` is -1 |
| Tournaments.Tournament.constructor | src/tournapy/tournament.py:12-26 | a set-up tournament has the given name and team size, the organizer as only admin, no player, team or stage, phase 0 and no logo |
| Tournaments.Tournament.AddPlayer | src/tournapy/tournament.py:28-33 | succeeds exactly for a new name, which is appended unassigned; a known name leaves everything as it was |
| Tournaments.Tournament.AddToTeam | src/tournapy/tournament.py:42-58 | the objects end as `Join` says: the team is created when unknown; the player joins exactly when the team is below `team_size` and the player is registered; a created team has no points or goals, and no existing team's points or goals change |
| Tournaments.Tournament.JoinKnown | src/tournapy/tournament.py:48-58 | the same once the team exists; the team dictionary is kept; no team's points or goals change |
| Tournaments.Tournament.RemoveFromTeam | src/tournapy/tournament.py:60-72 | the objects end as `Leave` says; no team's points or goals change |
| Tournaments.Tournament.RemovePlayer | src/tournapy/tournament.py:35-40 | the objects end as `RemovePlayer` says: leave the player's team, then unregister; no team's points or goals change |
| Tournaments.Tournament.Forget | src/tournapy/tournament.py:40 | the player is unregistered and nothing else changes; no team's points or goals change |
| Tournaments.Tournament.RemoveTeam | src/tournapy/tournament.py:74-81 | the objects end as `Disband` says, and no team object is added; no team's points or goals change |
| Tournaments.Tournament.LeaveEach | src/tournapy/tournament.py:76-77 | the loop makes each listed player leave the team, in order; no team's points or goals change |
| Tournaments.Tournament.Discard | src/tournapy/tournament.py:78 | the team is deleted and nothing else changes; no team's points or goals change |
| Tournaments.Tournament.ClearTeams | src/tournapy/tournament.py:93-99 | the objects end as `ClearFrom` over the snapshot of the team names says; it always succeeds, with no team left and no player assigned, also after a reassignment has miscounted a team; no team's points or goals change |
| Tournaments.Tournament.DisbandEach | src/tournapy/tournament.py:95-98 | the loop calls `remove_team` on each listed name, in order, and stops at the first failure, as `ClearFrom` says; no team's points or goals change |
| Tournaments.Tournament.AddPhase | src/tournapy/tournament.py:164-172 | the stage is stored under `order`, replacing an earlier one; `get_phase(order)` then returns it and every other phase is unchanged |
| Tournaments.Tournament.Phase | src/tournapy/tournament.py:170-172 | the stage stored under `n`; `None`, where the source raises `KeyError`, exactly when none is |
| Tournaments.Tournament.CurrentPhase | src/tournapy/tournament.py:167-168 | the stage stored under the current phase index, `None` exactly when none is |
| Tournaments.Tournament.GetStage | src/tournapy/tournament.py:174-178 | returns the first stage in insertion order with that name, or `None` exactly when no stage bears it |
| Tournaments.Tournament.IsAdmin | src/tournapy/tournament.py:180-181 | true exactly when the user appears in the admin list |
| Tournaments.Tournament.EnsureTeam | src/tournapy/tournament.py:43-47 | an unknown team is created empty, with no points or goals, and appended to the team order; no existing team's points or goals change |
| Tournaments.Tournament.Retag | src/tournapy/tournament.py:51-53 | the player's team is set, then the team's size moves and its elo is recomputed; no team's points or goals change |
| Tournaments.Tournament.SetTeamOf | src/tournapy/tournament.py:51 | only that player's team changes; no team's points or goals change |
| Tournaments.Tournament.Resize | src/tournapy/tournament.py:52-53 | only that team's size and elo change, the elo to the mean of its members; no team's points or goals change |
| Tournaments.Tournament.PlayersInMembers | src/tournapy/tournament.py:84 | the filter returns the objects of exactly the member names, with their elo total |
| Tournaments.Tournament.TeamPlayers | src/tournapy/tournament.py:83-84 | `get_team_players` returns the registered player objects whose team is `t`, in registration order, one per member name |
| Tournaments.Tournament.TeamElo | src/tournapy/tournament.py:86-91 | `get_team_elo` is the members' mean elo truncated toward zero, 0 without members |
| Tournaments.PlayerNames | src/tournapy/tournament.py:62 | `map(lambda p: p.name, ...)` keeps length and position |
| Lists.IndexOf | src/tournapy/core/ruleset.py:256 | `list.index` gives the first position of the element, and is past the end exactly when it is absent |
| Lists.RemoveFirst | src/tournapy/core/ruleset.py:154 | `list.remove` shortens the list by one exactly when the element is present |
| Lists.RemoveFirstCutsFirst | src/tournapy/core/ruleset.py:154 | `list.remove` cuts out exactly the first occurrence |
| Labels.NatToStringInjective | src/tournapy/core/ruleset.py:188 | distinct numbers render to distinct decimal strings |
| Labels.MatchIdInjective | src/tournapy/core/ruleset.py:188 | two match ids are equal exactly when their rounds and numbers are |
| Labels.PlaceholderInjective | src/tournapy/core/ruleset.py:157 | two placeholders are equal exactly when their ids are |

## Left out

- `Tournament.generate_teams` is not modelled. It reads a resource file, samples at random, averages with floats and balances teams greedily.
- `src/tournapy/manager.py` is not part of this model. It is authorization and lookup plumbing around the classes modelled here.
- `src/tournapy/rocketleague/rank_enum.py` is not part of this model. It is a constant table.
- `DoubleElimination`, `RoundRobin` and `RulesetEnum.get_ruleset` are not modelled. The first two are stubs.
- The pandas views are not modelled: `get_history`, `get_bracket`, `as_series` and the `df_*` methods. Neither are `__repr__`, `__json__` or the `print` logging.
- The message strings that `report_match_result`, `add_to_team` and `remove_team` return are reduced to `Report` values or `ok` flags.
- `math.log` in `init_bracket` is a float computation. The model uses the least `d` with `2^d >= n`, so float inexactness for large pools is not captured.
- `get_team_elo` divides with floats. It is modelled as integer division truncated toward zero, which agrees for the integer elos the source stores.
- `Team.set_name`, `Player.set_id` and the dead one-argument `Player.__init__` are not modelled. The core never calls them, and `name` is a constant here.
- The unset state between `Tournament.__init__` and `setup` is not modelled. The constructor does both, as every caller of the class does.
- `registration_opened` and `logo_url` are only initialised. The core never changes them.
- Model.Match.SetResult: the source's `IndexError` on an out-of-range game is a failure flag.
- Rosters.JoinConsistent: requires the player not to be in a team already. `add_to_team` does not check this, and `Rosters.JoinReassignMiscounts` shows the miscount that follows.
- Rulesets.Ruleset.NextMatch: returns the queue position of the match found, not the match object.
- Rulesets.Ruleset.ReportElimination: the source's `Cannot program next match` exception is not modelled. The match it finds always holds the placeholder in a slot (`Rulesets.FirstHolder`), so that branch cannot be reached.
- Rulesets.Ruleset.InitElimination and Rulesets.Ruleset.InitSwiss: the model computes all new matches first and then stores them. The source interleaves creating and storing, which changes nothing observable.
- Rulesets.Ruleset.UpdateBracket: the pool teams are also the tournament's `Team` objects. The model does not show that the standings write into the same objects the roster reads.
- Rulesets.Ruleset.ReportSwiss and Rulesets.Ruleset.ReportElimination: both require the reported match to satisfy `Match.Valid()` (equal-length score lists, at most `bo` games). Every match this model creates satisfies it.
- Tournaments.Tournament.AddPhase: a `Ruleset` is stored by reference. Aliasing between stages and other holders of the same object is not modelled.

## Findings

| source | as written | input that shows it | evidently intended | confidence | as-written member | corrected member |
|---|---|---|---|---|---|---|
| src/tournapy/core/model.py:82-84 | `set_result` writes index `game - 1` with Python indexing, so `game <= 0` counts from the end | a match with two games and `game == 0`: the second game is overwritten instead of the call failing | only games `1..len` can be overwritten; any other game number fails | medium, not executed | Model.Match.SetResult, Model.SetResultZeroHitsLastGame | Model.Match.SetGameResult |
