/** How often something occurs in a list. */
module Occurrences {

  ghost function Times<G>(s: seq<G>, g: G): nat {
    if s == [] then 0 else (if s[0] == g then 1 else 0) + Times(s[1..], g)
  }

  lemma {:induction false} TimesConcat<G>(a: seq<G>, b: seq<G>, g: G)
    ensures Times(a + b, g) == Times(a, g) + Times(b, g)
  {
    if a == [] {
      assert a + b == b;
    } else {
      assert (a + b)[1..] == a[1..] + b;
      TimesConcat(a[1..], b, g);
    }
  }

  lemma TimesSnoc<G>(s: seq<G>, x: G, g: G)
    ensures Times(s + [x], g) == Times(s, g) + (if x == g then 1 else 0)
  {
    TimesConcat(s, [x], g);
    assert [x][1..] == [];
  }

  lemma {:induction false} TimesPositive<G>(s: seq<G>, k: nat)
    requires k < |s|
    ensures Times(s, s[k]) > 0
  {
    if k > 0 { TimesPositive(s[1..], k - 1); }
  }

  /** Two places with the same member. */
  lemma TimesTwice<G>(s: seq<G>, i: nat, j: nat)
    requires i < j < |s| && s[i] == s[j]
    ensures Times(s, s[i]) >= 2
  {
    assert s == s[..j] + s[j..];
    TimesConcat(s[..j], s[j..], s[i]);
    TimesPositive(s[..j], i);
    TimesPositive(s[j..], 0);
  }
}
