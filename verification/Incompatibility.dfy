/**
 The fault compatibility matrix (internal/model/fault.go) and the composition checks
 built on it (internal/model/composition_validate.go).
*/
module Incompatibility {
  import opened Wrappers
  import opened Faults
  import opened CompositionTree

  datatype Constraint = Constraint(kind: string, subject: string, counterpart: string, scope: string, severity: string)

  function DefaultConstraints(): seq<Constraint> {
    [ Constraint("pair", "network:blackhole", "network:*", "parallel", "hard"),
      Constraint("pair", "network:drip", "network:throttle", "parallel", "hard"),
      Constraint("pair", "network:drip", "network:latency", "parallel", "hard"),
      Constraint("pair", "inline:hang", "network:blackhole", "parallel", "soft"),
      Constraint("pair", "network:retransmit_delay", "network:rst", "parallel", "soft"),
      Constraint("pair", "inline:error", "inline:latency", "sequential", "soft"),
      Constraint("pair", "inline:error", "inline:hang", "parallel", "soft"),
      Constraint("pair", "resource:cpu", "resource:memory", "parallel", "soft"),
      Constraint("pair", "inline:latency", "inline:hang", "parallel", "soft"),
      Constraint("host_mode", "host:proxy", "mode:inline", "always", "hard"),
      Constraint("category_mode", "category:resource", "mode:inline", "always", "soft"),
      Constraint("category_mode", "category:inline", "mode:background", "always", "soft") ]
  }

  function PairsOf(all: seq<Constraint>): seq<Constraint> {
    if all == [] then []
    else
      var n := |all| - 1;
      PairsOf(all[..n]) + if all[n].kind == "pair" then [all[n]] else []
  }

  lemma {:induction false} PairsKeepEveryPair(all: seq<Constraint>, c: Constraint)
    ensures c in PairsOf(all) <==> c in all && c.kind == "pair"
    decreases |all|
  {
    if all != [] {
      var n := |all| - 1;
      assert all == all[..n] + [all[n]];
      PairsKeepEveryPair(all[..n], c);
    }
  }

  method DefaultIncompatibilities() returns (pairs: seq<Constraint>)
    ensures pairs == PairsOf(DefaultConstraints())
  {
    var all := DefaultConstraints();
    pairs := [];
    for i := 0 to |all|
      invariant pairs == PairsOf(all[..i])
    {
      assert all[..i + 1][..i] == all[..i];
      if all[i].kind == "pair" {
        pairs := pairs + [all[i]];
      }
    }
    assert all[..|all|] == all;
  }

  // ----- Matching -----

  predicate HasWildcard(pattern: string) {
    |pattern| >= 2 && pattern[|pattern| - 2..] == ":*"
  }

  predicate MatchesType(concrete: string, pattern: string) {
    || pattern == concrete
    || (HasWildcard(pattern) && pattern[..|pattern| - 2] + ":" <= concrete)
  }

  predicate MatchesPair(a: string, b: string, rule: Constraint, mode: string) {
    && (rule.kind == "" || rule.kind == "pair")
    && (rule.scope == "any" || rule.scope == mode)
    && if rule.scope == SEQUENTIAL then MatchesType(a, rule.subject) && MatchesType(b, rule.counterpart)
       else (MatchesType(a, rule.subject) && MatchesType(b, rule.counterpart))
            || (MatchesType(a, rule.counterpart) && MatchesType(b, rule.subject))
  }

  /** Constraints of other kinds and scopes match no pair; one without a kind matches like a pair rule. */
  lemma OtherConstraintsNeverMatch(a: string, b: string, rule: Constraint, mode: string)
    ensures rule.kind !in ["", "pair"] || rule.scope !in ["any", mode] ==> !MatchesPair(a, b, rule, mode)
    ensures rule.kind == "" ==> MatchesPair(a, b, rule, mode) == MatchesPair(a, b, rule.(kind := "pair"), mode)
  {
  }

  lemma ParallelMatchingIsSymmetric(a: string, b: string, rule: Constraint)
    ensures MatchesPair(a, b, rule, PARALLEL) == MatchesPair(b, a, rule, PARALLEL)
  {
  }

  /** Some rule that makes the ordered pair a hard error. */
  predicate HardPair(a: string, b: string, rules: seq<Constraint>, mode: string) {
    exists k :: 0 <= k < |rules| && MatchesPair(a, b, rules[k], mode) && rules[k].severity == "hard"
  }

  predicate AnyHardPair(leaves: seq<string>, rules: seq<Constraint>, mode: string) {
    exists i, j :: 0 <= i < j < |leaves| && HardPair(leaves[i], leaves[j], rules, mode)
  }

  /** How many rules match the ordered pair. */
  function MatchCount(a: string, b: string, rules: seq<Constraint>, mode: string): nat {
    if rules == [] then 0
    else
      var n := |rules| - 1;
      MatchCount(a, b, rules[..n], mode) + if MatchesPair(a, b, rules[n], mode) then 1 else 0
  }

  /** Matches of a with each leaf of the list. */
  function RowCount(a: string, leaves: seq<string>, rules: seq<Constraint>, mode: string): nat {
    if leaves == [] then 0
    else
      var n := |leaves| - 1;
      RowCount(a, leaves[..n], rules, mode) + MatchCount(a, leaves[n], rules, mode)
  }

  /** Matches over all ordered pairs of the list. */
  function PairCount(leaves: seq<string>, rules: seq<Constraint>, mode: string): nat {
    if leaves == [] then 0
    else RowCount(leaves[0], leaves[1..], rules, mode) + PairCount(leaves[1..], rules, mode)
  }

  datatype Verdict = Hard(first: string, second: string) | Compatible(warnings: nat)

  /**
   The check over all leaf pairs: a hard error exactly when some pair matches a hard rule, and then
   the pair named is one; otherwise one warning for every pair and rule that match.
  */
  method CheckPairs(leaves: seq<string>, rules: seq<Constraint>, mode: string) returns (v: Verdict)
    ensures v.Hard? <==> AnyHardPair(leaves, rules, mode)
    ensures v.Hard? ==> exists i, j :: 0 <= i < j < |leaves| && v == Hard(leaves[i], leaves[j])
                                       && HardPair(leaves[i], leaves[j], rules, mode)
    ensures v.Compatible? ==> v.warnings == PairCount(leaves, rules, mode)
  {
    var warnings := 0;
    for i := 0 to |leaves|
      invariant forall p, q :: 0 <= p < i && p < q < |leaves| ==> !HardPair(leaves[p], leaves[q], rules, mode)
      invariant warnings + PairCount(leaves[i..], rules, mode) == PairCount(leaves, rules, mode)
    {
      assert leaves[i..][0] == leaves[i] && leaves[i..][1..] == leaves[i + 1..];
      var row := CheckRow(leaves[i], leaves[i + 1..], rules, mode);
      if row.Hard? {
        return row;
      }
      assert forall q :: i < q < |leaves| ==> leaves[q] in leaves[i + 1..];
      warnings := warnings + row.warnings;
    }
    return Compatible(warnings);
  }

  /** The innermost loop: one pair against every rule. */
  method CheckPair(a: string, b: string, rules: seq<Constraint>, mode: string) returns (v: Verdict)
    ensures v == if HardPair(a, b, rules, mode) then Hard(a, b) else Compatible(MatchCount(a, b, rules, mode))
  {
    var warnings := 0;
    for k := 0 to |rules|
      invariant warnings == MatchCount(a, b, rules[..k], mode)
      invariant forall l :: 0 <= l < k ==> !(MatchesPair(a, b, rules[l], mode) && rules[l].severity == "hard")
    {
      assert rules[..k + 1][..k] == rules[..k];
      if MatchesPair(a, b, rules[k], mode) {
        if rules[k].severity == "hard" {
          return Hard(a, b);
        }
        warnings := warnings + 1;
      }
    }
    assert rules[..|rules|] == rules;
    return Compatible(warnings);
  }

  /** The middle loop: one leaf against every later leaf. */
  method CheckRow(a: string, later: seq<string>, rules: seq<Constraint>, mode: string) returns (v: Verdict)
    ensures v.Hard? ==> exists b :: b in later && v == Hard(a, b) && HardPair(a, b, rules, mode)
    ensures v.Compatible? ==> v.warnings == RowCount(a, later, rules, mode)
                              && forall b :: b in later ==> !HardPair(a, b, rules, mode)
  {
    var warnings := 0;
    for j := 0 to |later|
      invariant forall q :: 0 <= q < j ==> !HardPair(a, later[q], rules, mode)
      invariant warnings == RowCount(a, later[..j], rules, mode)
    {
      var pair := CheckPair(a, later[j], rules, mode);
      if pair.Hard? {
        return pair;
      }
      assert later[..j + 1][..j] == later[..j];
      warnings := warnings + pair.warnings;
    }
    assert later[..|later|] == later;
    return Compatible(warnings);
  }

  // ----- The verdict does not depend on the order of parallel leaves -----

  function Without(s: seq<string>, k: nat): seq<string>
    requires k < |s|
  {
    s[..k] + s[k + 1..]
  }

  lemma WithoutMultiset(s: seq<string>, k: nat)
    requires k < |s|
    ensures multiset(Without(s, k)) == multiset(s) - multiset{s[k]}
  {
    assert s == s[..k] + [s[k]] + s[k + 1..];
  }

  lemma {:induction false} MatchCountIsSymmetric(a: string, b: string, rules: seq<Constraint>)
    ensures MatchCount(a, b, rules, PARALLEL) == MatchCount(b, a, rules, PARALLEL)
    decreases |rules|
  {
    if rules != [] {
      var n := |rules| - 1;
      MatchCountIsSymmetric(a, b, rules[..n]);
      ParallelMatchingIsSymmetric(a, b, rules[n]);
    }
  }

  lemma {:induction false} RowCountWithout(a: string, s: seq<string>, k: nat, rules: seq<Constraint>, mode: string)
    requires k < |s|
    ensures RowCount(a, s, rules, mode) == RowCount(a, Without(s, k), rules, mode) + MatchCount(a, s[k], rules, mode)
    decreases |s|
  {
    var n := |s| - 1;
    if k == n {
      assert Without(s, k) == s[..n];
    } else {
      RowCountWithout(a, s[..n], k, rules, mode);
      assert Without(s, k)[..n - 1] == Without(s[..n], k);
    }
  }

  lemma {:induction false} RowCountOfPermutation(a: string, s: seq<string>, t: seq<string>, rules: seq<Constraint>,
      mode: string)
    requires multiset(s) == multiset(t)
    ensures RowCount(a, s, rules, mode) == RowCount(a, t, rules, mode)
    decreases |s|
  {
    assert |s| == |multiset(s)| == |multiset(t)| == |t|;
    if s != [] {
      var n := |s| - 1;
      assert s == s[..n] + [s[n]];
      assert s[n] in multiset(t);
      var k :| 0 <= k < |t| && t[k] == s[n];
      WithoutMultiset(t, k);
      RowCountWithout(a, t, k, rules, mode);
      RowCountOfPermutation(a, s[..n], Without(t, k), rules, mode);
    }
  }

  /** Taking any leaf out of a parallel list removes exactly its matches with the others. */
  lemma {:induction false} PairCountWithout(s: seq<string>, k: nat, rules: seq<Constraint>)
    requires k < |s|
    ensures PairCount(s, rules, PARALLEL)
         == RowCount(s[k], Without(s, k), rules, PARALLEL) + PairCount(Without(s, k), rules, PARALLEL)
    decreases |s|
  {
    if k == 0 {
      assert Without(s, 0) == s[1..];
    } else {
      var w := Without(s, k);
      assert w[0] == s[0] && w[1..] == Without(s[1..], k - 1);
      PairCountWithout(s[1..], k - 1, rules);
      RowCountWithout(s[0], s[1..], k - 1, rules, PARALLEL);
      RowCountWithout(s[k], w, 0, rules, PARALLEL);
      assert Without(w, 0) == w[1..];
      MatchCountIsSymmetric(s[0], s[k], rules);
    }
  }

  lemma {:induction false} WarningsIgnoreOrder(s: seq<string>, t: seq<string>, rules: seq<Constraint>)
    requires multiset(s) == multiset(t)
    ensures PairCount(s, rules, PARALLEL) == PairCount(t, rules, PARALLEL)
    decreases |s|
  {
    assert |s| == |multiset(s)| == |multiset(t)| == |t|;
    if s != [] {
      assert s == [s[0]] + s[1..];
      assert s[0] in multiset(t);
      var k :| 0 <= k < |t| && t[k] == s[0];
      WithoutMultiset(t, k);
      PairCountWithout(t, k, rules);
      RowCountOfPermutation(s[0], s[1..], Without(t, k), rules, PARALLEL);
      WarningsIgnoreOrder(s[1..], Without(t, k), rules);
    }
  }

  /** A hard pair survives any reordering: it is a matter of which leaves there are and how often. */
  predicate HardInBag(bag: multiset<string>, rules: seq<Constraint>) {
    exists a, b :: a in bag && b in bag && (a == b ==> bag[a] >= 2) && HardPair(a, b, rules, PARALLEL)
  }

  lemma HardPairIsSymmetric(a: string, b: string, rules: seq<Constraint>)
    requires HardPair(a, b, rules, PARALLEL)
    ensures HardPair(b, a, rules, PARALLEL)
  {
    var k :| 0 <= k < |rules| && MatchesPair(a, b, rules[k], PARALLEL) && rules[k].severity == "hard";
    ParallelMatchingIsSymmetric(a, b, rules[k]);
  }

  lemma TwoOccurrences(s: seq<string>, i: nat, j: nat)
    requires i < j < |s| && s[i] == s[j]
    ensures multiset(s)[s[i]] >= 2
  {
    assert s == s[..j] + [s[j]] + s[j + 1..];
    assert s[i] in s[..j];
    assert multiset(s[..j])[s[i]] >= 1;
  }

  lemma TwoPositions(s: seq<string>, a: string) returns (i: nat, j: nat)
    requires multiset(s)[a] >= 2
    ensures i < j < |s| && s[i] == s[j] == a
  {
    assert a in multiset(s);
    i :| 0 <= i < |s| && s[i] == a;
    WithoutMultiset(s, i);
    var w := Without(s, i);
    assert a in multiset(w);
    var k :| 0 <= k < |w| && w[k] == a;
    if k < i {
      i, j := k, i;
    } else {
      j := k + 1;
    }
  }

  lemma HardVerdictIsAboutTheBag(s: seq<string>, rules: seq<Constraint>)
    ensures AnyHardPair(s, rules, PARALLEL) <==> HardInBag(multiset(s), rules)
  {
    if AnyHardPair(s, rules, PARALLEL) {
      var i, j :| 0 <= i < j < |s| && HardPair(s[i], s[j], rules, PARALLEL);
      if s[i] == s[j] {
        TwoOccurrences(s, i, j);
      }
      assert s[i] in multiset(s) && s[j] in multiset(s);
    }
    if HardInBag(multiset(s), rules) {
      var a, b :| a in multiset(s) && b in multiset(s) && (a == b ==> multiset(s)[a] >= 2)
          && HardPair(a, b, rules, PARALLEL);
      if a == b {
        var i, j := TwoPositions(s, a);
        assert HardPair(s[i], s[j], rules, PARALLEL);
      } else {
        var i :| 0 <= i < |s| && s[i] == a;
        var j :| 0 <= j < |s| && s[j] == b;
        if j < i {
          HardPairIsSymmetric(a, b, rules);
          assert HardPair(s[j], s[i], rules, PARALLEL);
        }
      }
    }
  }

  /** For a parallel composition neither the verdict nor the number of warnings depends on the order of its leaves. */
  lemma VerdictIgnoresOrder(s: seq<string>, t: seq<string>, rules: seq<Constraint>)
    requires multiset(s) == multiset(t)
    ensures AnyHardPair(s, rules, PARALLEL) <==> AnyHardPair(t, rules, PARALLEL)
    ensures PairCount(s, rules, PARALLEL) == PairCount(t, rules, PARALLEL)
  {
    HardVerdictIsAboutTheBag(s, rules);
    HardVerdictIsAboutTheBag(t, rules);
    WarningsIgnoreOrder(s, t, rules);
  }

  /** For a sequential composition it does: an error before a latency is warned about, after it is not. */
  lemma SequentialOrderMatters(rules: seq<Constraint>)
    requires rules == [Constraint("pair", "inline:error", "inline:latency", SEQUENTIAL, "soft")]
    ensures PairCount(["inline:error", "inline:latency"], rules, SEQUENTIAL) == 1
    ensures PairCount(["inline:latency", "inline:error"], rules, SEQUENTIAL) == 0
  {
    var s := ["inline:error", "inline:latency"];
    var t := ["inline:latency", "inline:error"];
    assert s[1..] == ["inline:latency"] && t[1..] == ["inline:error"];
    assert s[1..][1..] == [] && t[1..][1..] == [];
    assert s[1..][..0] == [] && t[1..][..0] == [];
    assert rules[..0] == [];
    assert s[0] != s[1] by {
      assert s[0][7] == 'e' && s[1][7] == 'l';
    }
    assert s[0][|s[0]| - 2..][0] == 'o' && s[1][|s[1]| - 2..][0] == 'c';
    assert !HasWildcard(s[0]) && !HasWildcard(s[1]);
    assert MatchCount(s[0], s[1], rules, SEQUENTIAL) == 1;
    assert MatchCount(t[0], t[1], rules, SEQUENTIAL) == 0;
    assert RowCount(s[0], s[1..], rules, SEQUENTIAL) == 1 && PairCount(s[1..], rules, SEQUENTIAL) == 0;
    assert RowCount(t[0], t[1..], rules, SEQUENTIAL) == 0 && PairCount(t[1..], rules, SEQUENTIAL) == 0;
  }
}
