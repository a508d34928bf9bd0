/**
 * The pure parts of `SwissSystem` (src/tournapy/core/ruleset.py:233-307):
 * `grouper`, the match ids built with `groups.index(group)`, and the two
 * stable sorts that rank the teams still in contention.
 */
module Swiss {

  import opened Lists
  import opened Labels

  /** A pair `grouper` yields: the two names of one match. */
  datatype Group = Group(blue: string, red: string)

  /** `grouper(xs, 2)`: consecutive pairs, an odd last name padded with `forfeit`. */
  function Grouper(xs: seq<string>): (gs: seq<Group>)
    ensures |gs| == (|xs| + 1) / 2
    ensures forall k :: 0 <= k < |gs| ==>
      gs[k] == Group(xs[2 * k], if 2 * k + 1 < |xs| then xs[2 * k + 1] else Forfeit)
    decreases |xs|
  {
    if |xs| == 0 then []
    else if |xs| == 1 then [Group(xs[0], Forfeit)]
    else [Group(xs[0], xs[1])] + Grouper(xs[2..])
  }

  /** The names of the groups, blue before red, group after group. */
  function Flatten(gs: seq<Group>): seq<string> {
    if gs == [] then [] else [gs[0].blue, gs[0].red] + Flatten(gs[1..])
  }

  /** Flattening the pairs gives back the list, followed by one `forfeit` exactly when it is odd. */
  lemma {:induction false} FlattenGrouper(xs: seq<string>)
    ensures Flatten(Grouper(xs)) == xs + if |xs| % 2 == 1 then [Forfeit] else []
    decreases |xs|
  {
    if |xs| >= 2 {
      var gs := Grouper(xs);
      assert gs == [Group(xs[0], xs[1])] + Grouper(xs[2..]);
      assert gs[1..] == Grouper(xs[2..]);
      FlattenGrouper(xs[2..]);
      assert xs == [xs[0], xs[1]] + xs[2..];
    }
  }

  /** A pool without a team called `forfeit` meets exactly `|xs| % 2` forfeits. */
  lemma {:induction false} OneForfeitWhenOdd(xs: seq<string>)
    requires Forfeit !in xs
    ensures multiset(Flatten(Grouper(xs)))[Forfeit] == |xs| % 2
  {
    FlattenGrouper(xs);
    assert multiset(xs)[Forfeit] == 0;
  }

  /** The matches of a Swiss round: match `k` is `"<round>-<groups.index(groups[k])>"`. */
  function RoundFixtures(round: nat, gs: seq<Group>): (fs: seq<Fixture>)
    ensures |fs| == |gs|
    ensures forall k :: 0 <= k < |gs| ==>
      fs[k] == Fixture(MatchId(round, IndexOf(gs, gs[k])), gs[k].blue, gs[k].red)
  {
    seq(|gs|, k requires 0 <= k < |gs| => Fixture(MatchId(round, IndexOf(gs, gs[k])), gs[k].blue, gs[k].red))
  }

  /** With pairwise distinct groups, match `k` is `"<round>-k"`, and the ids are pairwise distinct. */
  lemma {:induction false} DistinctGroupsNumberInOrder(round: nat, gs: seq<Group>)
    requires Distinct(gs)
    ensures forall k :: 0 <= k < |gs| ==> RoundFixtures(round, gs)[k].id == MatchId(round, k)
    ensures forall i, j :: 0 <= i < j < |gs| ==> RoundFixtures(round, gs)[i].id != RoundFixtures(round, gs)[j].id
  {
    var fs := RoundFixtures(round, gs);
    forall k | 0 <= k < |gs|
      ensures fs[k].id == MatchId(round, k)
    {
      var i := IndexOf(gs, gs[k]);
      assert i <= k;
    }
    forall i, j | 0 <= i < j < |gs|
      ensures fs[i].id != fs[j].id
    {
      MatchIdInjective(round, i, round, j);
    }
  }

  /** Two equal groups (a name listed twice) get the same id: the later match replaces the earlier one. */
  lemma {:induction false} EqualGroupsShareId(round: nat, gs: seq<Group>, i: nat, j: nat)
    requires i < j < |gs| && gs[i] == gs[j]
    ensures RoundFixtures(round, gs)[i].id == RoundFixtures(round, gs)[j].id
  {
  }

  /**
   * A team as the Swiss ranking sees it after `get_standings`: its name,
   * points, goal difference and seat (its position in the pool).
   */
  datatype Entry = Entry(name: string, points: int, diff: int, seat: nat)

  /** The two sort keys of `update_bracket`. */
  datatype Key = ByPoints | ByDiff

  function KeyOf(k: Key, e: Entry): int {
    match k
    case ByPoints => e.points
    case ByDiff => e.diff
    }

  /** A lexicographic order: keys compared in turn, larger first, the seat deciding last. */
  datatype Order = BySeat | Then(key: Key, rest: Order)

  /** `a` may come before `b` under order `o`. */
  predicate Le(o: Order, a: Entry, b: Entry) {
    match o
    case BySeat => a.seat <= b.seat
    case Then(k, rest) => KeyOf(k, a) > KeyOf(k, b) || (KeyOf(k, a) == KeyOf(k, b) && Le(rest, a, b))
  }

  predicate SortedBy(o: Order, xs: seq<Entry>) {
    forall i, j :: 0 <= i < j < |xs| ==> Le(o, xs[i], xs[j])
  }

  /** Inserts `x` after every element whose key is at least `x`'s, keeping ties in arrival order. */
  function Insert(k: Key, ys: seq<Entry>, x: Entry): (r: seq<Entry>)
    ensures multiset(r) == multiset(ys) + multiset{x}
    ensures |r| == |ys| + 1
  {
    if ys == [] then [x]
    else if KeyOf(k, ys[|ys| - 1]) >= KeyOf(k, x) then ys + [x]
    else
      var n := |ys| - 1;
      assert ys == ys[..n] + [ys[n]];
      Insert(k, ys[..n], x) + [ys[n]]
  }

  /** `sorted(xs, key=k, reverse=True)`: a stable sort, larger keys first. */
  function SortBy(k: Key, xs: seq<Entry>): (r: seq<Entry>)
    ensures multiset(r) == multiset(xs)
    ensures |r| == |xs|
  {
    if xs == [] then []
    else
      var n := |xs| - 1;
      assert xs == xs[..n] + [xs[n]];
      Insert(k, SortBy(k, xs[..n]), xs[n])
  }

  /** Appending an element every present one may precede keeps a list ordered. */
  lemma {:induction false} SnocSorted(o: Order, xs: seq<Entry>, z: Entry)
    requires SortedBy(o, xs) && forall e :: e in xs ==> Le(o, e, z)
    ensures SortedBy(o, xs + [z])
  {
    var r := xs + [z];
    forall i, j | 0 <= i < j < |r|
      ensures Le(o, r[i], r[j])
    {
      if j == |xs| {
        assert r[i] == xs[i] && xs[i] in xs;
      } else {
        assert r[i] == xs[i] && r[j] == xs[j];
      }
    }
  }

  /** When `x` outranks the last element, everything the recursive insertion yields may precede that element. */
  lemma {:induction false} InsertedBefore(k: Key, o: Order, ys: seq<Entry>, x: Entry, front: seq<Entry>)
    requires ys != [] && KeyOf(k, ys[|ys| - 1]) < KeyOf(k, x) && SortedBy(Then(k, o), ys)
    requires front == Insert(k, ys[..|ys| - 1], x)
    ensures forall e :: e in front ==> Le(Then(k, o), e, ys[|ys| - 1])
  {
    var n := |ys| - 1;
    forall e | e in front
      ensures Le(Then(k, o), e, ys[n])
    {
      assert e in multiset(front);
      if e != x {
        assert e in multiset(ys[..n]);
        var i :| 0 <= i < n && ys[..n][i] == e;
        assert ys[i] == e;
      }
    }
  }

  /** Inserting `x`, which every element already present may precede under `o`, keeps the refined order. */
  lemma {:induction false} InsertRefines(k: Key, o: Order, ys: seq<Entry>, x: Entry)
    requires SortedBy(Then(k, o), ys)
    requires forall y :: y in ys ==> Le(o, y, x)
    ensures SortedBy(Then(k, o), Insert(k, ys, x))
  {
    if ys != [] && KeyOf(k, ys[|ys| - 1]) < KeyOf(k, x) {
      var n := |ys| - 1;
      assert forall y :: y in ys[..n] ==> y in ys;
      InsertRefines(k, o, ys[..n], x);
      InsertBeforeLast(k, o, ys, x);
    } else if ys != [] {
      InsertAfterLast(k, o, ys, x);
    }
  }

  /** The recursive case of `InsertRefines`: `x` goes in front of the last element. */
  lemma {:induction false} InsertBeforeLast(k: Key, o: Order, ys: seq<Entry>, x: Entry)
    requires ys != [] && KeyOf(k, ys[|ys| - 1]) < KeyOf(k, x) && SortedBy(Then(k, o), ys)
    requires SortedBy(Then(k, o), Insert(k, ys[..|ys| - 1], x))
    ensures SortedBy(Then(k, o), Insert(k, ys, x))
  {
    var n := |ys| - 1;
    InsertedBefore(k, o, ys, x, Insert(k, ys[..n], x));
    SnocSorted(Then(k, o), Insert(k, ys[..n], x), ys[n]);
    assert Insert(k, ys, x) == Insert(k, ys[..n], x) + [ys[n]];
  }

  /** The base case of `InsertRefines`: `x` goes after the last element. */
  lemma {:induction false} InsertAfterLast(k: Key, o: Order, ys: seq<Entry>, x: Entry)
    requires ys != [] && KeyOf(k, ys[|ys| - 1]) >= KeyOf(k, x) && SortedBy(Then(k, o), ys)
    requires forall y :: y in ys ==> Le(o, y, x)
    ensures SortedBy(Then(k, o), Insert(k, ys, x))
  {
    AfterLast(k, o, ys, x);
    SnocSorted(Then(k, o), ys, x);
    assert Insert(k, ys, x) == ys + [x];
  }

  /** When the last element's key is at least `x`'s, every element may precede `x`. */
  lemma {:induction false} AfterLast(k: Key, o: Order, ys: seq<Entry>, x: Entry)
    requires ys != [] && KeyOf(k, ys[|ys| - 1]) >= KeyOf(k, x) && SortedBy(Then(k, o), ys)
    requires forall y :: y in ys ==> Le(o, y, x)
    ensures forall y :: y in ys ==> Le(Then(k, o), y, x)
  {
    var n := |ys| - 1;
    forall y | y in ys
      ensures Le(Then(k, o), y, x)
    {
      var i :| 0 <= i < |ys| && ys[i] == y;
      if i < n {
        assert Le(Then(k, o), ys[i], ys[n]);
      }
    }
  }

  /** A stable sort by key `k` of a list ordered by `o` is ordered by `k` first, then by `o`. */
  lemma {:induction false} SortRefines(k: Key, o: Order, xs: seq<Entry>)
    requires SortedBy(o, xs)
    ensures SortedBy(Then(k, o), SortBy(k, xs))
  {
    if xs != [] {
      var n := |xs| - 1;
      assert SortedBy(o, xs[..n]);
      SortRefines(k, o, xs[..n]);
      var s := SortBy(k, xs[..n]);
      forall y | y in s
        ensures Le(o, y, xs[n])
      {
        assert y in multiset(xs[..n]);
        var i :| 0 <= i < n && xs[..n][i] == y;
      }
      InsertRefines(k, o, s, xs[n]);
    }
  }

  /** `filter(lambda t: t.points < 9, pool)`: the teams still in contention, in pool order. */
  function Contenders(es: seq<Entry>): (cs: seq<Entry>)
    ensures forall e :: e in cs <==> e in es && e.points < 9
  {
    if es == [] then []
    else Contenders(es[..|es| - 1]) + if es[|es| - 1].points < 9 then [es[|es| - 1]] else []
  }

  lemma {:induction false} ContendersKeepOrder(es: seq<Entry>)
    requires SortedBy(BySeat, es)
    ensures SortedBy(BySeat, Contenders(es))
  {
    if es != [] {
      var n := |es| - 1;
      assert SortedBy(BySeat, es[..n]);
      ContendersKeepOrder(es[..n]);
      var c := Contenders(es[..n]);
      forall e | e in c
        ensures e.seat <= es[n].seat
      {
        var i :| 0 <= i < n && es[..n][i] == e;
      }
    }
  }

  /** The order `update_bracket` pairs teams in: goal difference first, then a stable sort by points. */
  function Ranking(es: seq<Entry>): seq<Entry> {
    SortBy(ByPoints, SortBy(ByDiff, Contenders(es)))
  }

  /**
   * The ranking holds exactly the teams below 9 points, ordered by points
   * (larger first), then goal difference (larger first), then pool order.
   */
  lemma {:induction false} RankingOrder(es: seq<Entry>)
    requires SortedBy(BySeat, es)
    ensures SortedBy(Then(ByPoints, Then(ByDiff, BySeat)), Ranking(es))
    ensures multiset(Ranking(es)) == multiset(Contenders(es))
  {
    ContendersKeepOrder(es);
    SortRefines(ByDiff, BySeat, Contenders(es));
    SortRefines(ByPoints, Then(ByDiff, BySeat), SortBy(ByDiff, Contenders(es)));
  }

  function Names(es: seq<Entry>): (ns: seq<string>)
    ensures |ns| == |es|
    ensures forall i :: 0 <= i < |es| ==> ns[i] == es[i].name
  {
    if es == [] then [] else Names(es[..|es| - 1]) + [es[|es| - 1].name]
  }

  /** The pairs of a later Swiss round. */
  function Repairing(es: seq<Entry>): seq<Group> {
    Grouper(Names(Ranking(es)))
  }

  lemma {:induction false} NamesAppend(a: seq<Entry>, b: seq<Entry>)
    ensures Names(a + b) == Names(a) + Names(b)
  {
    assert forall i :: 0 <= i < |a + b| ==> Names(a + b)[i] == (Names(a) + Names(b))[i];
  }

  /** Cutting out entry `j` cuts out its name. */
  lemma {:induction false} NamesDrop(es: seq<Entry>, j: nat)
    requires j < |es|
    ensures multiset(Names(es)) == multiset(Names(es[..j] + es[j + 1..])) + multiset{es[j].name}
  {
    var x := es[j];
    assert es == (es[..j] + [x]) + es[j + 1..];
    NamesAppend(es[..j] + [x], es[j + 1..]);
    NamesAppend(es[..j], [x]);
    NamesAppend(es[..j], es[j + 1..]);
    assert Names([x]) == [x.name];
  }

  lemma {:induction false} MultisetDrop(es: seq<Entry>, j: nat)
    requires j < |es|
    ensures multiset(es[..j] + es[j + 1..]) == multiset(es) - multiset{es[j]}
  {
    assert es == es[..j] + [es[j]] + es[j + 1..];
  }

  /** Reordering the entries reorders their names. */
  lemma {:induction false} NamesPermute(a: seq<Entry>, b: seq<Entry>)
    requires multiset(a) == multiset(b)
    ensures multiset(Names(a)) == multiset(Names(b))
    decreases |a|
  {
    if a == [] {
      assert |multiset(b)| == 0;
    } else {
      var n := |a| - 1;
      assert a[n] in multiset(b);
      var j :| 0 <= j < |b| && b[j] == a[n];
      MultisetDrop(a, n);
      MultisetDrop(b, j);
      assert a[..n] + a[n + 1..] == a[..n];
      NamesPermute(a[..n], b[..j] + b[j + 1..]);
      NamesDrop(a, n);
      NamesDrop(b, j);
    }
  }

  /**
   * Every team below 9 points is paired exactly once in the next round,
   * no other team is, and an odd number of them meets one `forfeit`.
   */
  lemma {:induction false} RepairingPairsContenders(es: seq<Entry>)
    ensures multiset(Flatten(Repairing(es))) ==
      multiset(Names(Contenders(es))) + if |Contenders(es)| % 2 == 1 then multiset{Forfeit} else multiset{}
  {
    var r := Ranking(es);
    FlattenGrouper(Names(r));
    NamesPermute(r, Contenders(es));
  }

  /**
   * A(9, +7) has finished; B(6, +5), C(6, -2) and D(3, 0) are re-paired as
   * (B, C) and (D, forfeit).
   */
  lemma {:induction false} RepairingExample()
    ensures Repairing([Entry("A", 9, 7, 0), Entry("B", 6, 5, 1), Entry("C", 6, -2, 2), Entry("D", 3, 0, 3)])
      == [Group("B", "C"), Group("D", Forfeit)]
  {
    RepairingOfFour(Entry("A", 9, 7, 0), Entry("B", 6, 5, 1), Entry("C", 6, -2, 2), Entry("D", 3, 0, 3));
  }

  lemma {:induction false} RepairingOfFour(a: Entry, b: Entry, c: Entry, d: Entry)
    requires a.points >= 9 && b.points == 6 && c.points == 6 && d.points == 3
    requires b.diff == 5 && c.diff == -2 && d.diff == 0
    ensures Repairing([a, b, c, d]) == [Group(b.name, c.name), Group(d.name, Forfeit)]
  {
    RankingOfFour(a, b, c, d);
    NamesOfThree(b, c, d);
    GroupsOfThree(b.name, c.name, d.name);
  }

  lemma {:induction false} RankingOfFour(a: Entry, b: Entry, c: Entry, d: Entry)
    requires a.points >= 9 && b.points == 6 && c.points == 6 && d.points == 3
    requires b.diff == 5 && c.diff == -2 && d.diff == 0
    ensures Ranking([a, b, c, d]) == [b, c, d]
  {
    ExampleContenders(a, b, c, d);
    ExampleByDiff(b, c, d);
    ExampleByPoints(b, c, d);
  }

  lemma {:induction false} NamesOfThree(b: Entry, c: Entry, d: Entry)
    ensures Names([b, c, d]) == [b.name, c.name, d.name]
  {
    var ns := Names([b, c, d]);
    assert |ns| == 3 && ns[0] == b.name && ns[1] == c.name && ns[2] == d.name;
  }

  lemma {:induction false} GroupsOfThree(x: string, y: string, z: string)
    ensures Grouper([x, y, z]) == [Group(x, y), Group(z, Forfeit)]
  {
    var gs := Grouper([x, y, z]);
    assert |gs| == 2 && gs[0] == Group(x, y) && gs[1] == Group(z, Forfeit);
  }

  lemma {:induction false} ExampleContenders(a: Entry, b: Entry, c: Entry, d: Entry)
    requires a.points >= 9 && b.points < 9 && c.points < 9 && d.points < 9
    ensures Contenders([a, b, c, d]) == [b, c, d]
  {
    assert [a, b, c, d][..3] == [a, b, c];
    assert [a, b, c][..2] == [a, b];
    assert [a, b][..1] == [a];
    assert [a][..0] == [];
    assert Contenders([a]) == [];
    assert Contenders([a, b]) == [b];
    assert Contenders([a, b, c]) == [b, c];
  }

  lemma {:induction false} ExampleByDiff(b: Entry, c: Entry, d: Entry)
    requires b.diff == 5 && c.diff == -2 && d.diff == 0
    ensures SortBy(ByDiff, [b, c, d]) == [b, d, c]
  {
    assert [b, c, d][..2] == [b, c];
    assert [b, c][..1] == [b];
    assert [b][..0] == [];
    assert SortBy(ByDiff, [b]) == [b];
    assert SortBy(ByDiff, [b, c]) == [b, c];
    assert [b, c][..1] == [b];
    assert Insert(ByDiff, [b], d) == [b, d];
    assert Insert(ByDiff, [b, c], d) == Insert(ByDiff, [b], d) + [c];
  }

  lemma {:induction false} ExampleByPoints(b: Entry, c: Entry, d: Entry)
    requires b.points == 6 && c.points == 6 && d.points == 3
    ensures SortBy(ByPoints, [b, d, c]) == [b, c, d]
  {
    assert [b, d, c][..2] == [b, d];
    assert [b, d][..1] == [b];
    assert [b][..0] == [];
    assert SortBy(ByPoints, [b]) == [b];
    assert SortBy(ByPoints, [b, d]) == [b, d];
    assert Insert(ByPoints, [b], c) == [b, c];
    assert Insert(ByPoints, [b, d], c) == Insert(ByPoints, [b], c) + [d];
  }
}
