/**
 * The bracket `SimpleElimination.init_bracket` lays out
 * (src/tournapy/core/ruleset.py:178-205). The layout is first described on
 * abstract slots (a seed index, a forfeit, or the winner of match
 * `(round, number)`), in the order the source creates the matches: round 0
 * (the final) first, the seeding round last. `Bracket` then renders it to
 * the strings the source stores.
 */
module Elimination {

  import opened Lists
  import opened Labels

  function Pow2(k: nat): (p: nat)
    ensures p >= 1
  {
    if k == 0 then 1 else 2 * Pow2(k - 1)
  }

  lemma {:induction false} Pow2Monotone(a: nat, b: nat)
    ensures a <= b ==> Pow2(a) <= Pow2(b)
    decreases b
  {
    if a < b {
      Pow2Monotone(a, b - 1);
    }
  }

  /** `ceil(log2 n)`: the number of rounds, the least `d` with `2^d >= n`. */
  function Depth(n: nat): (d: nat)
    requires n >= 1
    ensures n <= Pow2(d)
    ensures d == 0 || Pow2(d - 1) < n
    decreases n
  {
    if n == 1 then 0 else 1 + Depth((n + 1) / 2)
  }

  /** No smaller number of rounds fits `n` teams. */
  lemma {:induction false} DepthIsLeast(n: nat, d: nat)
    requires n >= 1 && n <= Pow2(d)
    ensures Depth(n) <= d
  {
    var e := Depth(n);
    if e > 0 {
      Pow2Monotone(d, e - 1);
    }
  }

  /** `floor(log2 m)`: the round a position of the layout falls in. */
  function Log2(m: nat): (l: nat)
    requires m >= 1
    ensures Pow2(l) <= m < Pow2(l + 1)
  {
    if m == 1 then 0 else 1 + Log2(m / 2)
  }

  lemma {:induction false} Log2Unique(m: nat, l: nat)
    requires m >= 1 && Pow2(l) <= m < Pow2(l + 1)
    ensures Log2(m) == l
  {
    var k := Log2(m);
    Pow2Monotone(k + 1, l);
    Pow2Monotone(l + 1, k);
  }

  /** What a slot holds when the bracket is created. */
  datatype Slot = Seed(index: nat) | Forfeited | WinnerOf(round: nat, number: nat)

  /** Match `number` (1-based) of `round`, and its two slots. */
  datatype Planned = Planned(round: nat, number: nat, blue: Slot, red: Slot)

  /**
   * Match `i + 1` of round `r` in a bracket of `depth` rounds over `n` teams.
   * Outside the seeding round both slots wait for winners of round `r + 1`,
   * paired first with last; in the seeding round blue is seed `i + 1` and
   * red seed `2^(r+1) - i`, or a forfeit when the pool has no such team.
   */
  function BracketMatch(n: nat, depth: nat, r: nat, i: nat): Planned
    requires r < depth && i < Pow2(r)
  {
    var teams := 2 * Pow2(r);
    if r != depth - 1 then
      Planned(r, i + 1, WinnerOf(r + 1, i + 1), WinnerOf(r + 1, teams - i))
    else
      Planned(r, i + 1, Seed(i), if teams - i - 1 < n then Seed(teams - i - 1) else Forfeited)
  }

  function RoundPlan(n: nat, depth: nat, r: nat): (ms: seq<Planned>)
    requires r < depth
    ensures |ms| == Pow2(r)
  {
    seq(Pow2(r), i requires 0 <= i < Pow2(r) => BracketMatch(n, depth, r, i))
  }

  /** Rounds `0 .. k-1` of a bracket of `depth` rounds, in creation order. */
  function Plan(n: nat, depth: nat, k: nat): seq<Planned>
    requires k <= depth
  {
    if k == 0 then [] else Plan(n, depth, k - 1) + RoundPlan(n, depth, k - 1)
  }

  /** `d` rounds are what `n` teams need: `2^d >= n > 2^(d-1)`. */
  predicate Fits(n: nat, d: nat) {
    1 <= n <= Pow2(d) && (d == 0 || Pow2(d - 1) < n)
  }

  /** `Depth` is the one number of rounds that fits. */
  lemma {:induction false} FitsIsDepth(n: nat, d: nat)
    requires n >= 1
    ensures Fits(n, d) <==> d == Depth(n)
  {
    if Fits(n, d) {
      DepthIsLeast(n, d);
      if Depth(n) < d {
        Pow2Monotone(Depth(n), d - 1);
      }
    }
  }

  /** The match at position `p` of a bracket of `d` rounds: the round is `floor(log2(p + 1))`. */
  function PositionMatch(n: nat, d: nat, p: nat): Planned
    requires p < Pow2(d) - 1
  {
    var l := Log2(p + 1);
    Pow2Monotone(d, l);
    BracketMatch(n, d, l, p + 1 - Pow2(l))
  }

  /** The whole layout of `d` rounds for `n` teams, position by position (`LayoutIsPlan` relates it to the rounds). */
  function Layout(n: nat, d: nat): (ms: seq<Planned>)
    ensures |ms| == Pow2(d) - 1
  {
    seq(Pow2(d) - 1, p requires 0 <= p < Pow2(d) - 1 => PositionMatch(n, d, p))
  }

  /** `k` rounds hold `2^k - 1` matches. */
  lemma {:induction false} PlanSize(n: nat, d: nat, k: nat)
    requires k <= d
    ensures |Plan(n, d, k)| == Pow2(k) - 1
  {
    if k > 0 {
      PlanSize(n, d, k - 1);
    }
  }

  /** Position `p` is match `p + 2 - 2^l` of round `l = floor(log2(p + 1))`. */
  lemma {:induction false} PlanAt(n: nat, d: nat, k: nat, p: nat)
    requires k <= d && p < Pow2(k) - 1
    ensures var l := Log2(p + 1);
      l < k && p + 1 - Pow2(l) < Pow2(l) &&
      |Plan(n, d, k)| == Pow2(k) - 1 &&
      Plan(n, d, k)[p] == BracketMatch(n, d, l, p + 1 - Pow2(l))
  {
    PlanSize(n, d, k);
    var l := Log2(p + 1);
    Pow2Monotone(k, l);
    PlanSize(n, d, k - 1);
    if p < Pow2(k - 1) - 1 {
      PlanAt(n, d, k - 1, p);
    } else {
      Log2Unique(p + 1, k - 1);
    }
  }

  /** Building the rounds one after the other gives the layout. */
  lemma {:induction false} LayoutIsPlan(n: nat, d: nat)
    ensures Plan(n, d, d) == Layout(n, d)
  {
    PlanSize(n, d, d);
    forall p | 0 <= p < Pow2(d) - 1
      ensures Plan(n, d, d)[p] == Layout(n, d)[p]
    {
      PlanAt(n, d, d, p);
    }
  }

  /** Position `p` of the layout in terms of its round `l` and its index in the round. */
  lemma {:induction false} LayoutAt(n: nat, d: nat, p: nat)
    requires p < |Layout(n, d)|
    ensures var l := Log2(p + 1);
      l < d && p + 1 - Pow2(l) < Pow2(l) &&
      Layout(n, d)[p] == BracketMatch(n, d, l, p + 1 - Pow2(l))
  {
    Pow2Monotone(d, Log2(p + 1));
  }

  /** The round and number of the match at position `p`. */
  lemma {:induction false} NumberAt(n: nat, d: nat, p: nat)
    requires p < |Layout(n, d)|
    ensures var l := Log2(p + 1);
      l < d && Layout(n, d)[p].round == l && Layout(n, d)[p].number == p + 2 - Pow2(l)
  {
    LayoutAt(n, d, p);
  }

  /** The two slots at position `q`, in terms of its round `l` and its index `t` in the round. */
  lemma {:induction false} SlotsAt(n: nat, d: nat, q: nat)
    requires q < |Layout(n, d)|
    ensures var l := Log2(q + 1);
      var t := q + 1 - Pow2(l);
      var m := Layout(n, d)[q];
      q == Pow2(l) - 1 + t && t < Pow2(l) && l < d && m.round == l && m.number == t + 1 &&
      (l + 1 < d ==> m.blue == WinnerOf(l + 1, t + 1) && m.red == WinnerOf(l + 1, 2 * Pow2(l) - t)) &&
      (l + 1 == d ==>
        m.blue == Seed(t) && m.red == if 2 * Pow2(l) - t - 1 < n then Seed(2 * Pow2(l) - t - 1) else Forfeited)
  {
    LayoutAt(n, d, q);
  }

  /** Match `t + 1` of round `l` sits at position `2^l - 1 + t`; its two slots. */
  lemma {:induction false} RoundSlots(n: nat, d: nat, l: nat, t: nat)
    requires l < d && t < Pow2(l)
    ensures Pow2(l) - 1 + t < |Layout(n, d)|
    ensures var m := Layout(n, d)[Pow2(l) - 1 + t];
      m.round == l && m.number == t + 1 &&
      (l + 1 < d ==> m.blue == WinnerOf(l + 1, t + 1) && m.red == WinnerOf(l + 1, 2 * Pow2(l) - t)) &&
      (l + 1 == d ==>
        m.blue == Seed(t) && m.red == if 2 * Pow2(l) - t - 1 < n then Seed(2 * Pow2(l) - t - 1) else Forfeited)
  {
    var q := Pow2(l) - 1 + t;
    Pow2Monotone(l + 1, d);
    Log2Unique(q + 1, l);
    LayoutAt(n, d, q);
  }

  /** `init_bracket` creates `2^d - 1` matches; the first one is `(0, 1)`, the final. */
  lemma {:induction false} LayoutShape(n: nat, d: nat)
    requires d >= 1
    ensures |Layout(n, d)| == Pow2(d) - 1
    ensures Layout(n, d)[0].round == 0 && Layout(n, d)[0].number == 1
    ensures forall p :: 0 <= p < |Layout(n, d)| ==> Layout(n, d)[p].round < d
  {
    RoundSlots(n, d, 0, 0);
    forall p | 0 <= p < |Layout(n, d)|
      ensures Layout(n, d)[p].round < d
    {
      NumberAt(n, d, p);
    }
  }

  /** Round `r` holds matches `1 .. 2^r`, each at one position of the layout. */
  lemma {:induction false} RoundPosition(n: nat, d: nat, r: nat, number: nat)
    requires r < d && 1 <= number <= Pow2(r)
    ensures var p := Pow2(r) - 1 + (number - 1);
      p < |Layout(n, d)| && Layout(n, d)[p].round == r && Layout(n, d)[p].number == number
  {
    RoundSlots(n, d, r, number - 1);
  }

  /** No two matches of the layout share a `(round, number)` pair. */
  lemma {:induction false} LayoutNumbersDistinct(n: nat, d: nat, p: nat, q: nat)
    requires p < q < |Layout(n, d)|
    ensures Layout(n, d)[p].round != Layout(n, d)[q].round || Layout(n, d)[p].number != Layout(n, d)[q].number
  {
    NumberAt(n, d, p);
    NumberAt(n, d, q);
  }

  /** Every seed names a team of the pool. */
  predicate SlotInPool(n: nat, s: Slot) {
    s.Seed? ==> s.index < n
  }

  lemma {:induction false} SeedInPool(n: nat, d: nat, p: nat)
    requires Fits(n, d) && p < |Layout(n, d)|
    ensures SlotInPool(n, Layout(n, d)[p].blue) && SlotInPool(n, Layout(n, d)[p].red)
  {
    SlotsAt(n, d, p);
  }

  lemma {:induction false} LayoutSeedsInPool(n: nat, d: nat)
    requires Fits(n, d)
    ensures forall p :: 0 <= p < |Layout(n, d)| ==> SlotInPool(n, Layout(n, d)[p].blue) && SlotInPool(n, Layout(n, d)[p].red)
  {
    forall p | 0 <= p < |Layout(n, d)|
      ensures SlotInPool(n, Layout(n, d)[p].blue) && SlotInPool(n, Layout(n, d)[p].red)
    {
      SeedInPool(n, d, p);
    }
  }

  /** The round-`r` index of the match awaiting the winner of match `j` of round `r + 1`. */
  function AwaitingIndex(r: nat, j: nat): int {
    if j <= Pow2(r) then j - 1 else 2 * Pow2(r) - j
  }

  /** Its position in the layout. */
  function AwaitingPosition(r: nat, j: nat): int {
    Pow2(r) - 1 + AwaitingIndex(r, j)
  }

  lemma {:induction false} WinnerPosition(n: nat, d: nat, r: nat, j: nat)
    requires r + 1 < d && 1 <= j <= Pow2(r + 1)
    ensures var ms, x, p := Layout(n, d), WinnerOf(r + 1, j), AwaitingPosition(r, j);
      0 <= p < |ms| && ms[p].round == r && ms[p].number == AwaitingIndex(r, j) + 1 &&
      if j <= Pow2(r) then ms[p].blue == x && ms[p].red != x else ms[p].red == x && ms[p].blue != x
  {
    RoundSlots(n, d, r, AwaitingIndex(r, j));
  }

  /**
   * Outside the seeding round, the winner of match `j` of round `r + 1` is
   * awaited by exactly one slot of the layout: the blue slot of match `j` of
   * round `r` when `j <= 2^r`, and the red slot of match `2^(r+1) + 1 - j`
   * of round `r` otherwise.
   */
  lemma {:induction false} WinnerAwaitedOnce(n: nat, d: nat, r: nat, j: nat)
    requires r + 1 < d && 1 <= j <= Pow2(r + 1)
    ensures var ms, x, p := Layout(n, d), WinnerOf(r + 1, j), AwaitingPosition(r, j);
      0 <= p < |ms| && ms[p].round == r && ms[p].number == AwaitingIndex(r, j) + 1 &&
      (if j <= Pow2(r) then ms[p].blue == x && ms[p].red != x else ms[p].red == x && ms[p].blue != x) &&
      forall q :: 0 <= q < |ms| && q != p ==> ms[q].blue != x && ms[q].red != x
  {
    WinnerPosition(n, d, r, j);
    forall q | 0 <= q < |Layout(n, d)| && q != AwaitingPosition(r, j)
      ensures Layout(n, d)[q].blue != WinnerOf(r + 1, j) && Layout(n, d)[q].red != WinnerOf(r + 1, j)
    {
      NotAwaitedElsewhere(n, d, r, j, q);
    }
  }

  lemma {:induction false} NotAwaitedElsewhere(n: nat, d: nat, r: nat, j: nat, q: nat)
    requires 1 <= j <= Pow2(r + 1) && q < |Layout(n, d)| && q != AwaitingPosition(r, j)
    ensures Layout(n, d)[q].blue != WinnerOf(r + 1, j) && Layout(n, d)[q].red != WinnerOf(r + 1, j)
  {
    SlotsAt(n, d, q);
    if Log2(q + 1) == r {
      PositionArithmetic(Pow2(r), q + 1 - Pow2(r), j);
    }
  }

  /** Match `t + 1` of a round of `half` matches holds slot `j` only at the position named above. */
  lemma {:induction false} PositionArithmetic(half: nat, t: nat, j: nat)
    requires t < half && 1 <= j <= 2 * half
    ensures var i := if j <= half then j - 1 else 2 * half - j;
      (t + 1 == j || 2 * half - t == j) ==> t == i
  {
  }

  /** The seeding-round index of the match seed `k` plays in, in a bracket of `d` rounds. */
  function SeedingIndex(d: nat, k: nat): int
    requires d >= 1
  {
    var half := Pow2(d - 1);
    if k < half then k else 2 * half - 1 - k
  }

  /** Its position in the layout. */
  function SeedingPosition(d: nat, k: nat): int
    requires d >= 1
  {
    Pow2(d - 1) - 1 + SeedingIndex(d, k)
  }

  lemma {:induction false} SeedPosition(n: nat, d: nat, k: nat)
    requires Fits(n, d) && d >= 1 && k < n
    ensures var ms, p := Layout(n, d), SeedingPosition(d, k);
      0 <= p < |ms| && ms[p].round == d - 1 &&
      if k < Pow2(d - 1) then ms[p].blue == Seed(k) && ms[p].red != Seed(k)
      else ms[p].red == Seed(k) && ms[p].blue != Seed(k)
  {
    assert Pow2(d) == 2 * Pow2(d - 1);
    RoundSlots(n, d, d - 1, SeedingIndex(d, k));
  }

  /**
   * Every pool team is seeded exactly once: team `k` plays blue in seeding
   * match `k + 1` when `k < 2^(d-1)`, and red in seeding match `2^d - k`
   * otherwise.
   */
  lemma {:induction false} EveryTeamSeededOnce(n: nat, d: nat, k: nat)
    requires Fits(n, d) && d >= 1 && k < n
    ensures var ms, p := Layout(n, d), SeedingPosition(d, k);
      0 <= p < |ms| && ms[p].round == d - 1 &&
      (if k < Pow2(d - 1) then ms[p].blue == Seed(k) && ms[p].red != Seed(k)
       else ms[p].red == Seed(k) && ms[p].blue != Seed(k)) &&
      forall q :: 0 <= q < |ms| && q != p ==> ms[q].blue != Seed(k) && ms[q].red != Seed(k)
  {
    SeedPosition(n, d, k);
    forall q | 0 <= q < |Layout(n, d)| && q != SeedingPosition(d, k)
      ensures Layout(n, d)[q].blue != Seed(k) && Layout(n, d)[q].red != Seed(k)
    {
      NotSeededElsewhere(n, d, k, q);
    }
  }

  lemma {:induction false} NotSeededElsewhere(n: nat, d: nat, k: nat, q: nat)
    requires d >= 1 && q < |Layout(n, d)| && q != SeedingPosition(d, k)
    ensures Layout(n, d)[q].blue != Seed(k) && Layout(n, d)[q].red != Seed(k)
  {
    SlotsAt(n, d, q);
    if Log2(q + 1) + 1 == d {
      SeedArithmetic(Pow2(d - 1), q + 1 - Pow2(d - 1), k);
    }
  }

  /** Seed `k` sits in seeding match `t + 1` only at the index named above. */
  lemma {:induction false} SeedArithmetic(half: nat, t: nat, k: nat)
    requires t < half
    ensures var i := if k < half then k else 2 * half - 1 - k;
      (t == k || 2 * half - t - 1 == k) ==> t == i
  {
  }

  /** The number of forfeited slots, blue or red. */
  function Forfeits(ms: seq<Planned>): nat {
    if ms == [] then 0
    else
      Forfeits(ms[..|ms| - 1])
        + (if ms[|ms| - 1].blue == Forfeited then 1 else 0)
        + (if ms[|ms| - 1].red == Forfeited then 1 else 0)
  }

  lemma {:induction false} ForfeitsAppend(a: seq<Planned>, b: seq<Planned>)
    ensures Forfeits(a + b) == Forfeits(a) + Forfeits(b)
    decreases |b|
  {
    if b == [] {
      assert a + b == a;
    } else {
      assert (a + b)[..|a + b| - 1] == a + b[..|b| - 1];
      ForfeitsAppend(a, b[..|b| - 1]);
    }
  }

  /** A round before the seeding round holds no forfeit in its first `m` matches. */
  lemma {:induction false} NoForfeitInRoundPrefix(n: nat, depth: nat, r: nat, m: nat)
    requires r + 1 < depth && m <= Pow2(r)
    ensures Forfeits(RoundPlan(n, depth, r)[..m]) == 0
  {
    if m > 0 {
      var rp := RoundPlan(n, depth, r);
      assert rp[..m][..m - 1] == rp[..m - 1];
      NoForfeitInRoundPrefix(n, depth, r, m - 1);
    }
  }

  lemma {:induction false} NoForfeitInRound(n: nat, depth: nat, r: nat)
    requires r + 1 < depth
    ensures Forfeits(RoundPlan(n, depth, r)) == 0
  {
    var rp := RoundPlan(n, depth, r);
    NoForfeitInRoundPrefix(n, depth, r, |rp|);
    assert rp[..|rp|] == rp;
  }

  /** The first `m` seeding matches hold `min(m, spare)` forfeits, `spare` being the slots the pool cannot fill. */
  lemma {:induction false} SeedingPrefixForfeits(n: nat, depth: nat, m: nat)
    requires depth >= 1 && m <= Pow2(depth - 1) && Pow2(depth - 1) <= n <= Pow2(depth)
    ensures var spare := Pow2(depth) - n;
      Forfeits(RoundPlan(n, depth, depth - 1)[..m]) == if m < spare then m else spare
  {
    if m > 0 {
      var rp := RoundPlan(n, depth, depth - 1);
      assert rp[..m][..m - 1] == rp[..m - 1];
      SeedingPrefixForfeits(n, depth, m - 1);
    }
  }

  /** The seeding round leaves `2^depth - n` slots to `forfeit`. */
  lemma {:induction false} SeedingForfeits(n: nat, depth: nat)
    requires depth >= 1 && Pow2(depth - 1) <= n <= Pow2(depth)
    ensures Forfeits(RoundPlan(n, depth, depth - 1)) == Pow2(depth) - n
  {
    var rp := RoundPlan(n, depth, depth - 1);
    SeedingPrefixForfeits(n, depth, |rp|);
    assert rp[..|rp|] == rp;
  }

  /** Rounds before the seeding round hold no forfeit. */
  lemma {:induction false} NoForfeitBeforeSeeding(n: nat, depth: nat, k: nat)
    requires k < depth
    ensures Forfeits(Plan(n, depth, k)) == 0
  {
    if k > 0 {
      NoForfeitBeforeSeeding(n, depth, k - 1);
      NoForfeitInRound(n, depth, k - 1);
      ForfeitsAppend(Plan(n, depth, k - 1), RoundPlan(n, depth, k - 1));
    }
  }

  /** A pool of `n` teams over `d >= 1` rounds leaves exactly `2^d - n` seeding slots to `forfeit`. */
  lemma {:induction false} ForfeitCount(n: nat, d: nat)
    requires Fits(n, d) && d >= 1
    ensures Forfeits(Plan(n, d, d)) == Pow2(d) - n
  {
    NoForfeitBeforeSeeding(n, d, d - 1);
    SeedingForfeits(n, d);
    ForfeitsAppend(Plan(n, d, d - 1), RoundPlan(n, d, d - 1));
  }

  /** The string a slot holds: a team name, `forfeit`, or `winner(<round>-<number>)`. */
  function SlotName(names: seq<string>, s: Slot): string
    requires SlotInPool(|names|, s)
  {
    match s
    case Seed(k) => names[k]
    case Forfeited => Forfeit
    case WinnerOf(r, j) => Placeholder(MatchId(r, j))
  }

  /** Every seed of `ms` names a team of `names`. */
  predicate AllInPool(names: seq<string>, ms: seq<Planned>) {
    forall p :: 0 <= p < |ms| ==> SlotInPool(|names|, ms[p].blue) && SlotInPool(|names|, ms[p].red)
  }

  function Render(names: seq<string>, ms: seq<Planned>): (fs: seq<Fixture>)
    requires AllInPool(names, ms)
    ensures |fs| == |ms|
    ensures forall p :: 0 <= p < |ms| ==>
      fs[p] == Fixture(MatchId(ms[p].round, ms[p].number), SlotName(names, ms[p].blue), SlotName(names, ms[p].red))
  {
    if ms == [] then []
    else Render(names, ms[..|ms| - 1]) + [Fixture(MatchId(ms[|ms| - 1].round, ms[|ms| - 1].number),
      SlotName(names, ms[|ms| - 1].blue), SlotName(names, ms[|ms| - 1].red))]
  }

  /** Every match `init_bracket` creates for the pool `names` over `d` rounds, in creation order. */
  function Bracket(names: seq<string>, d: nat): seq<Fixture>
    requires Fits(|names|, d)
  {
    LayoutIsPlan(|names|, d);
    LayoutSeedsInPool(|names|, d);
    Render(names, Plan(|names|, d, d))
  }

  /** `Bracket` renders the layout position by position. */
  lemma {:induction false} BracketAt(names: seq<string>, d: nat)
    requires Fits(|names|, d)
    ensures AllInPool(names, Layout(|names|, d))
    ensures Bracket(names, d) == Render(names, Layout(|names|, d))
  {
    LayoutIsPlan(|names|, d);
    LayoutSeedsInPool(|names|, d);
  }

  /** Position `q` of the bracket renders position `q` of the layout. */
  lemma {:induction false} BracketFixture(names: seq<string>, d: nat, q: nat)
    requires Fits(|names|, d) && q < |Layout(|names|, d)|
    ensures var m := Layout(|names|, d)[q];
      SlotInPool(|names|, m.blue) && SlotInPool(|names|, m.red) &&
      q < |Bracket(names, d)| &&
      Bracket(names, d)[q] == Fixture(MatchId(m.round, m.number), SlotName(names, m.blue), SlotName(names, m.red))
  {
    BracketAt(names, d);
  }

  lemma {:induction false} BracketSize(names: seq<string>, d: nat)
    requires Fits(|names|, d)
    ensures |Bracket(names, d)| == |Layout(|names|, d)| == Pow2(d) - 1
  {
    BracketAt(names, d);
  }

  /** The seeds of round `r` name teams of the pool. */
  lemma {:induction false} RoundInPool(names: seq<string>, d: nat, r: nat)
    requires Fits(|names|, d) && r < d
    ensures AllInPool(names, RoundPlan(|names|, d, r))
  {
  }

  /** Rendering two runs of matches one after the other. */
  lemma {:induction false} RenderAppend(names: seq<string>, a: seq<Planned>, b: seq<Planned>)
    requires AllInPool(names, a) && AllInPool(names, b)
    ensures AllInPool(names, a + b)
    ensures Render(names, a + b) == Render(names, a) + Render(names, b)
  {
    assert AllInPool(names, a + b) by {
      forall p | 0 <= p < |a + b|
        ensures SlotInPool(|names|, (a + b)[p].blue) && SlotInPool(|names|, (a + b)[p].red)
      {
        if p >= |a| {
          assert (a + b)[p] == b[p - |a|];
        }
      }
    }
    var l, r := Render(names, a + b), Render(names, a) + Render(names, b);
    forall p | 0 <= p < |l|
      ensures l[p] == r[p]
    {
      if p >= |a| {
        assert (a + b)[p] == b[p - |a|];
      }
    }
  }

  /** Round `r` as the inner loop of `init_bracket` creates it: matches `r-1 .. r-2^r`, rendered. */
  function BracketRound(names: seq<string>, d: nat, r: nat): (fs: seq<Fixture>)
    requires Fits(|names|, d) && r < d
    ensures |fs| == Pow2(r)
  {
    RoundInPool(names, d, r);
    seq(Pow2(r), i requires 0 <= i < Pow2(r) =>
      var m := BracketMatch(|names|, d, r, i);
      Fixture(MatchId(r, i + 1), SlotName(names, m.blue), SlotName(names, m.red)))
  }

  /** Match `i + 1` of round `r`, with the strings the loop body of `init_bracket` computes for it. */
  lemma {:induction false} RoundEntry(names: seq<string>, d: nat, r: nat, i: nat)
    requires Fits(|names|, d) && r < d && i < Pow2(r)
    ensures r + 1 == d ==> i < |names|
    ensures var f, teams := BracketRound(names, d, r)[i], 2 * Pow2(r);
      f.id == MatchId(r, i + 1) &&
      (r + 1 < d ==> f.blue == Placeholder(MatchId(r + 1, i + 1)) && f.red == Placeholder(MatchId(r + 1, teams - i))) &&
      (r + 1 == d ==> f.blue == names[i] && f.red == if teams - i - 1 < |names| then names[teams - i - 1] else Forfeit)
  {
  }

  /** The rounds `0 .. k-1`, rendered one after the other. */
  function Rounds(names: seq<string>, d: nat, k: nat): seq<Fixture>
    requires Fits(|names|, d) && k <= d
  {
    if k == 0 then [] else Rounds(names, d, k - 1) + BracketRound(names, d, k - 1)
  }

  /** Rendering the rounds one by one gives the rendered plan; all `d` of them give the bracket. */
  lemma {:induction false} RoundsRenderPlan(names: seq<string>, d: nat, k: nat)
    requires Fits(|names|, d) && k <= d
    ensures AllInPool(names, Plan(|names|, d, k)) && Rounds(names, d, k) == Render(names, Plan(|names|, d, k))
  {
    if k > 0 {
      RoundsRenderPlan(names, d, k - 1);
      RoundInPool(names, d, k - 1);
      RenderAppend(names, Plan(|names|, d, k - 1), RoundPlan(|names|, d, k - 1));
      RenderRound(names, d, k - 1);
    }
  }

  lemma {:induction false} RenderRound(names: seq<string>, d: nat, r: nat)
    requires Fits(|names|, d) && r < d
    ensures AllInPool(names, RoundPlan(|names|, d, r))
    ensures Render(names, RoundPlan(|names|, d, r)) == BracketRound(names, d, r)
  {
    RoundInPool(names, d, r);
    var a, b := Render(names, RoundPlan(|names|, d, r)), BracketRound(names, d, r);
    forall i | 0 <= i < Pow2(r)
      ensures a[i] == b[i]
    {
      assert RoundPlan(|names|, d, r)[i] == BracketMatch(|names|, d, r, i);
    }
  }

  lemma {:induction false} RoundsAreBracket(names: seq<string>, d: nat)
    requires Fits(|names|, d)
    ensures Rounds(names, d, d) == Bracket(names, d)
  {
    RoundsRenderPlan(names, d, d);
  }

  function Ids(fs: seq<Fixture>): (ids: seq<string>)
    ensures |ids| == |fs|
    ensures forall p :: 0 <= p < |fs| ==> ids[p] == fs[p].id
  {
    if fs == [] then [] else Ids(fs[..|fs| - 1]) + [fs[|fs| - 1].id]
  }

  /** The ids `init_bracket` appends to the queue are pairwise distinct. */
  lemma {:induction false} BracketIdsDistinct(names: seq<string>, d: nat)
    requires Fits(|names|, d)
    ensures Distinct(Ids(Bracket(names, d)))
  {
    BracketSize(names, d);
    forall p, q | 0 <= p < q < |Bracket(names, d)|
      ensures Bracket(names, d)[p].id != Bracket(names, d)[q].id
    {
      BracketIdsDiffer(names, d, p, q);
    }
  }

  lemma {:induction false} BracketIdsDiffer(names: seq<string>, d: nat, p: nat, q: nat)
    requires Fits(|names|, d) && p < q < |Layout(|names|, d)|
    ensures p < q < |Bracket(names, d)| && Bracket(names, d)[p].id != Bracket(names, d)[q].id
  {
    var ms := Layout(|names|, d);
    BracketFixture(names, d, p);
    BracketFixture(names, d, q);
    LayoutNumbersDistinct(|names|, d, p, q);
    MatchIdInjective(ms[p].round, ms[p].number, ms[q].round, ms[q].number);
  }

  /** The final, `0-1`, is created first. */
  lemma {:induction false} BracketStartsWithFinal(names: seq<string>, d: nat)
    requires Fits(|names|, d) && d >= 1
    ensures |Bracket(names, d)| == Pow2(d) - 1 && Bracket(names, d)[0].id == "0-1"
  {
    BracketSize(names, d);
    RoundSlots(|names|, d, 0, 0);
    BracketFixture(names, d, 0);
    SmallIds();
  }

  lemma {:induction false} ForfeitNotPlaceholder(id: string)
    ensures Forfeit != Placeholder(id)
  {
    assert Forfeit[0] != Placeholder(id)[0];
  }

  /** Only the slot `WinnerOf(r, j)` renders to the placeholder of match `r-j`, unless a team bears that name. */
  lemma {:induction false} OnlyWinnerSlotNamesPlaceholder(names: seq<string>, s: Slot, r: nat, j: nat)
    requires SlotInPool(|names|, s) && Placeholder(MatchId(r, j)) !in names
    ensures SlotName(names, s) == Placeholder(MatchId(r, j)) <==> s == WinnerOf(r, j)
  {
    match s
    case Seed(k) =>
    case Forfeited => ForfeitNotPlaceholder(MatchId(r, j));
    case WinnerOf(l, t) =>
      PlaceholderInjective(MatchId(l, t), MatchId(r, j));
      MatchIdInjective(l, t, r, j);
  }

  lemma {:induction false} PlaceholderAt(names: seq<string>, d: nat, r: nat, j: nat)
    requires Fits(|names|, d) && r + 1 < d && 1 <= j <= Pow2(r + 1)
    requires Placeholder(MatchId(r + 1, j)) !in names
    ensures var fs, x, p := Bracket(names, d), Placeholder(MatchId(r + 1, j)), AwaitingPosition(r, j);
      0 <= p < |fs| && fs[p].id == MatchId(r, AwaitingIndex(r, j) + 1) &&
      if j <= Pow2(r) then fs[p].blue == x && fs[p].red != x else fs[p].red == x && fs[p].blue != x
  {
    var n := |names|;
    var p := AwaitingPosition(r, j);
    WinnerPosition(n, d, r, j);
    BracketFixture(names, d, p);
    OnlyWinnerSlotNamesPlaceholder(names, Layout(n, d)[p].blue, r + 1, j);
    OnlyWinnerSlotNamesPlaceholder(names, Layout(n, d)[p].red, r + 1, j);
  }

  lemma {:induction false} PlaceholderNotElsewhere(names: seq<string>, d: nat, r: nat, j: nat, q: nat)
    requires Fits(|names|, d) && 1 <= j <= Pow2(r + 1)
    requires Placeholder(MatchId(r + 1, j)) !in names
    requires q < Pow2(d) - 1 && q != AwaitingPosition(r, j)
    ensures q < |Bracket(names, d)|
    ensures Bracket(names, d)[q].blue != Placeholder(MatchId(r + 1, j))
    ensures Bracket(names, d)[q].red != Placeholder(MatchId(r + 1, j))
  {
    var n := |names|;
    NotAwaitedElsewhere(n, d, r, j, q);
    BracketFixture(names, d, q);
    OnlyWinnerSlotNamesPlaceholder(names, Layout(n, d)[q].blue, r + 1, j);
    OnlyWinnerSlotNamesPlaceholder(names, Layout(n, d)[q].red, r + 1, j);
  }

  /**
   * In the strings `init_bracket` stores, the placeholder for the winner of
   * match `j` of round `r + 1` sits in exactly one slot, in match
   * `r-(i + 1)` with `i` its awaiting index, provided no team is literally
   * named like it.
   */
  lemma {:induction false} PlaceholderReferencedOnce(names: seq<string>, d: nat, r: nat, j: nat)
    requires Fits(|names|, d) && r + 1 < d && 1 <= j <= Pow2(r + 1)
    requires Placeholder(MatchId(r + 1, j)) !in names
    ensures var fs, x, p := Bracket(names, d), Placeholder(MatchId(r + 1, j)), AwaitingPosition(r, j);
      0 <= p < |fs| && fs[p].id == MatchId(r, AwaitingIndex(r, j) + 1) &&
      (if j <= Pow2(r) then fs[p].blue == x && fs[p].red != x else fs[p].red == x && fs[p].blue != x) &&
      forall q :: 0 <= q < |fs| && q != p ==> fs[q].blue != x && fs[q].red != x
  {
    PlaceholderAt(names, d, r, j);
    BracketSize(names, d);
    forall q | 0 <= q < |Bracket(names, d)| && q != AwaitingPosition(r, j)
      ensures Bracket(names, d)[q].blue != Placeholder(MatchId(r + 1, j))
      ensures Bracket(names, d)[q].red != Placeholder(MatchId(r + 1, j))
    {
      PlaceholderNotElsewhere(names, d, r, j, q);
    }
  }

  /** Four teams play two rounds: `1-1 = (A, D)`, `1-2 = (B, C)`, and `0-1` awaits both winners. */
  lemma {:induction false} FourTeamBracket()
    ensures Fits(4, 2) && Depth(4) == 2
    ensures Bracket(["A", "B", "C", "D"], 2) == [
      Fixture("0-1", "winner(1-1)", "winner(1-2)"),
      Fixture("1-1", "A", "D"),
      Fixture("1-2", "B", "C")]
  {
    assert Fits(4, 2);
    FitsIsDepth(4, 2);
    var r0 := RoundPlan(4, 2, 0);
    var r1 := RoundPlan(4, 2, 1);
    assert r0 == [Planned(0, 1, WinnerOf(1, 1), WinnerOf(1, 2))];
    assert r1 == [Planned(1, 1, Seed(0), Seed(3)), Planned(1, 2, Seed(1), Seed(2))];
    assert Plan(4, 2, 2) == r0 + r1;
    SmallIds();
  }

  /** Three teams also play two rounds, and the first seed meets `forfeit`. */
  lemma {:induction false} ThreeTeamBracket()
    ensures Fits(3, 2) && Depth(3) == 2
    ensures Bracket(["A", "B", "C"], 2) == [
      Fixture("0-1", "winner(1-1)", "winner(1-2)"),
      Fixture("1-1", "A", "forfeit"),
      Fixture("1-2", "B", "C")]
  {
    assert Fits(3, 2);
    FitsIsDepth(3, 2);
    var r0 := RoundPlan(3, 2, 0);
    var r1 := RoundPlan(3, 2, 1);
    assert r0 == [Planned(0, 1, WinnerOf(1, 1), WinnerOf(1, 2))];
    assert r1 == [Planned(1, 1, Seed(0), Forfeited), Planned(1, 2, Seed(1), Seed(2))];
    assert Plan(3, 2, 2) == r0 + r1;
    SmallIds();
  }
}
