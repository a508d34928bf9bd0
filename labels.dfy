/**
 * The strings the bracket code builds: decimal rendering of the integers in
 * an f-string, match ids `"<round>-<slot>"`, placeholders `"winner(<id>)"`
 * and the `"forfeit"` sentinel (src/tournapy/core/ruleset.py:188-200, 157,
 * 245, 256, 304).
 */
module Labels {

  import opened Lists

  const Forfeit: string := "forfeit"

  /** A match about to be created: its id and the names in its blue and red slots. */
  datatype Fixture = Fixture(id: string, blue: string, red: string)

  function DigitChar(d: nat): (c: char)
    requires d < 10
    ensures '0' <= c <= '9'
  {
    (('0' as int) + d) as char
  }

  predicate IsDigits(s: string) {
    forall k :: 0 <= k < |s| ==> '0' <= s[k] <= '9'
  }

  /** Decimal rendering of a natural number, as `f'{n}'` produces it. */
  function NatToString(n: nat): (s: string)
    ensures |s| >= 1 && IsDigits(s)
    ensures n < 10 <==> |s| == 1
  {
    if n < 10 then [DigitChar(n)] else NatToString(n / 10) + [DigitChar(n % 10)]
  }

  lemma {:induction false} NatToStringInjective(a: nat, b: nat)
    requires NatToString(a) == NatToString(b)
    ensures a == b
  {
    if a >= 10 && b >= 10 {
      var sa, sb := NatToString(a), NatToString(b);
      assert sa[|sa| - 1] == DigitChar(a % 10) && sb[|sb| - 1] == DigitChar(b % 10);
      assert NatToString(a / 10) == sa[..|sa| - 1] == sb[..|sb| - 1] == NatToString(b / 10);
      NatToStringInjective(a / 10, b / 10);
    }
  }

  /** Match id `f'{round}-{slot}'`. */
  function MatchId(round: nat, slot: nat): string {
    NatToString(round) + "-" + NatToString(slot)
  }

  /** Placeholder for the winner of a match, `f'winner({id})'`. */
  function Placeholder(id: string): string {
    "winner(" + id + ")"
  }

  /** In `a + "-" + b` with `a` made of digits, the first dash is the separator. */
  lemma FirstDash(a: string, b: string)
    requires IsDigits(a)
    ensures IndexOf(a + "-" + b, '-') == |a|
  {
    var l := a + "-" + b;
    assert l[|a|] == '-';
    assert forall k :: 0 <= k < |a| ==> l[k] == a[k] && l[k] != '-';
  }

  lemma DashSplit(a: string, b: string, c: string, d: string)
    requires IsDigits(a) && IsDigits(c)
    requires a + "-" + b == c + "-" + d
    ensures a == c && b == d
  {
    var l, r := a + "-" + b, c + "-" + d;
    FirstDash(a, b);
    FirstDash(c, d);
    assert |a| == |c|;
    assert a == l[..|a|] && c == r[..|c|];
    assert b == l[|a| + 1..] && d == r[|c| + 1..];
  }

  lemma MatchIdInjective(r1: nat, s1: nat, r2: nat, s2: nat)
    ensures MatchId(r1, s1) == MatchId(r2, s2) <==> r1 == r2 && s1 == s2
  {
    if MatchId(r1, s1) == MatchId(r2, s2) {
      DashSplit(NatToString(r1), NatToString(s1), NatToString(r2), NatToString(s2));
      NatToStringInjective(r1, r2);
      NatToStringInjective(s1, s2);
    }
  }

  lemma PlaceholderInjective(a: string, b: string)
    ensures Placeholder(a) == Placeholder(b) <==> a == b
  {
    if Placeholder(a) == Placeholder(b) {
      var pa, pb := Placeholder(a), Placeholder(b);
      assert a == pa[7..|pa| - 1];
      assert b == pb[7..|pb| - 1];
    }
  }

  /** The ids the source prints for the first matches of a bracket. */
  lemma SmallIds()
    ensures MatchId(0, 1) == "0-1" && MatchId(1, 1) == "1-1" && MatchId(1, 2) == "1-2"
    ensures Placeholder(MatchId(1, 1)) == "winner(1-1)" && Placeholder(MatchId(1, 2)) == "winner(1-2)"
  {
    assert NatToString(0) == "0" && NatToString(1) == "1" && NatToString(2) == "2";
  }
}
