/** `BoundedPermutationReconstructor`: try fragment orders within a branch budget, and never pick one of
    several competing reconstructions.  The structural validator is an arbitrary function of the payload. */
module PermutationSearch {
  import opened Basics

  datatype State =
    | Discovered | Candidate | Grouped | OrderHypothesis | Reconstructing | StructurallyValid | ContentValidated
    | RecoveredArtifact | Rejected | RejectedFalsePositive | CorruptedIncomplete | AmbiguousReconstruction
    | Unsupported | ResourceLimited

  datatype Limitation =
    | NoFragments
    | TooManyFragments(count: nat, maxDepth: int)
    | NoPermutationAccepted
    | CompetingPayloads(count: nat)
    | FromValidator(text: string)

  datatype Verdict = Verdict(isValid: bool, state: State, limitations: seq<Limitation>)

  type Validator = Bytes -> Verdict

  datatype Outcome = Outcome(payload: Bytes, state: State, limitations: seq<Limitation>)

  function Join(fragments: seq<Bytes>): Bytes {
    if fragments == [] then [] else fragments[0] + Join(fragments[1..])
  }

  // ---------- Permutations in the order of itertools ----------

  function Prefixed<T>(x: T, ps: seq<seq<T>>): seq<seq<T>> {
    if ps == [] then [] else [[x] + ps[0]] + Prefixed(x, ps[1..])
  }

  function Permutations<T>(s: seq<T>): seq<seq<T>>
    decreases |s|, 1, 0
  {
    if s == [] then [[]] else PermutationsFrom(s, 0)
  }

  /** The permutations whose first element stands at index `i` or later. */
  function PermutationsFrom<T>(s: seq<T>, i: nat): seq<seq<T>>
    requires i <= |s|
    decreases |s|, 0, |s| - i
  {
    if i == |s| then [] else Prefixed(s[i], Permutations(Without(s, i))) + PermutationsFrom(s, i + 1)
  }

  function Factorial(n: nat): nat { if n == 0 then 1 else n * Factorial(n - 1) }

  lemma {:induction false} PrefixedMembers<T>(x: T, ps: seq<seq<T>>, p: seq<T>)
    ensures p in Prefixed(x, ps) <==> p != [] && p[0] == x && p[1..] in ps
    ensures |Prefixed(x, ps)| == |ps|
  {
    if ps != [] {
      PrefixedMembers(x, ps[1..], p);
      assert ([x] + ps[0])[1..] == ps[0];
      if p != [] && p[0] == x {
        assert p == [x] + p[1..];
      }
    }
  }

  /** `p` starts with element `k` of `s` and goes on with a rearrangement of the others. */
  ghost predicate StartsWith<T>(s: seq<T>, k: nat, p: seq<T>)
    requires k < |s| && p != []
  {
    s[k] == p[0] && multiset(p[1..]) == multiset(Without(s, k))
  }

  lemma RearrangementHead<T>(s: seq<T>, p: seq<T>)
    requires multiset(p) == multiset(s) && s != []
    ensures p != [] && exists k :: 0 <= k < |s| && StartsWith(s, k, p)
  {
    assert |multiset(p)| == |p| && |multiset(s)| == |s|;
    assert p[0] in multiset(p);
    var k :| 0 <= k < |s| && s[k] == p[0];
    WithoutMultiset(s, k);
    assert p == [p[0]] + p[1..];
    assert multiset(p[1..]) == multiset(p) - multiset{p[0]};
    assert multiset(Without(s, k)) == multiset(s) - multiset{s[k]};
    assert StartsWith(s, k, p);
  }

  lemma {:induction false} PermutationsAreRearrangements<T>(s: seq<T>, p: seq<T>)
    ensures p in Permutations(s) <==> multiset(p) == multiset(s)
    decreases |s|, 1, 0
  {
    if s == [] {
      if multiset(p) == multiset(s) { assert |multiset(p)| == |p|; }
    } else {
      PermutationsFromMembers(s, 0, p);
      if multiset(p) == multiset(s) {
        RearrangementHead(s, p);
      }
    }
  }

  lemma {:induction false} PermutationsFromMembers<T>(s: seq<T>, i: nat, p: seq<T>)
    requires i <= |s|
    ensures p in PermutationsFrom(s, i) <==> p != [] && exists k :: i <= k < |s| && StartsWith(s, k, p)
    ensures p in PermutationsFrom(s, i) ==> multiset(p) == multiset(s)
    decreases |s|, 0, |s| - i
  {
    if i < |s| {
      PrefixedMembers(s[i], Permutations(Without(s, i)), p);
      PermutationsFromMembers(s, i + 1, p);
      if p != [] {
        PermutationsAreRearrangements(Without(s, i), p[1..]);
        assert p in Prefixed(s[i], Permutations(Without(s, i))) <==> StartsWith(s, i, p);
        WithFirst(s, i, p);
      }
    }
  }

  lemma WithFirst<T>(s: seq<T>, i: nat, p: seq<T>)
    requires i < |s| && p != []
    ensures StartsWith(s, i, p) ==> multiset(p) == multiset(s)
  {
    assert p == [p[0]] + p[1..];
    WithoutMultiset(s, i);
  }

  lemma {:induction false} PermutationCount<T>(s: seq<T>)
    ensures |Permutations(s)| == Factorial(|s|)
    decreases |s|, 1, 0
  {
    if s != [] { PermutationFromCount(s, 0); }
  }

  lemma {:induction false} PermutationFromCount<T>(s: seq<T>, i: nat)
    requires i <= |s| && s != []
    ensures |PermutationsFrom(s, i)| == (|s| - i) * Factorial(|s| - 1)
    decreases |s|, 0, |s| - i
  {
    hide Permutations, Factorial;
    if i < |s| {
      PrefixedMembers(s[i], Permutations(Without(s, i)), []);
      PermutationCount(Without(s, i));
      PermutationFromCount(s, i + 1);
      OneMoreFactor(|s| - (i + 1), Factorial(|s| - 1));
    }
  }

  lemma OneMoreFactor(left: nat, f: nat)
    ensures f + left * f == (left + 1) * f
  {}

  lemma {:induction false} PrefixedAt<T>(x: T, ps: seq<seq<T>>, j: nat)
    requires j < |ps|
    ensures |Prefixed(x, ps)| == |ps| && Prefixed(x, ps)[j] == [x] + ps[j]
  {
    PrefixedMembers(x, ps, []);
    if j > 0 { PrefixedAt(x, ps[1..], j - 1); }
  }

  /** The order of `itertools.permutations`: grouped by the first element, in the order supplied, and within a group
      the permutations of the others in that same order. */
  lemma PermutationsInOrder<T>(s: seq<T>, i: nat, j: nat)
    requires i < |s| && j < Factorial(|s| - 1)
    ensures i * Factorial(|s| - 1) + j < |Permutations(s)| && j < |Permutations(Without(s, i))|
    ensures Permutations(s)[i * Factorial(|s| - 1) + j] == [s[i]] + Permutations(Without(s, i))[j]
  {
    PermutationCount(Without(s, i));
    PermutationsFromInOrder(s, 0, i, j);
    BehindIsProduct(i, Factorial(|s| - 1), j);
  }

  lemma {:induction false} PermutationsFromInOrder<T>(s: seq<T>, from: nat, i: nat, j: nat)
    requires from <= i < |s| && j < Factorial(|s| - 1) && |Permutations(Without(s, i))| == Factorial(|s| - 1)
    ensures Behind(i - from, Factorial(|s| - 1), j) < |PermutationsFrom(s, from)|
    ensures PermutationsFrom(s, from)[Behind(i - from, Factorial(|s| - 1), j)] ==
      [s[i]] + Permutations(Without(s, i))[j]
    decreases i - from
  {
    var f, first, rest := Factorial(|s| - 1), Prefixed(s[from], Permutations(Without(s, from))),
                          PermutationsFrom(s, from + 1);
    FromStep(s, from);
    hide Permutations, PermutationsFrom, Prefixed, Factorial, Without;
    if from == i {
      PrefixedAt(s[i], Permutations(Without(s, i)), j);
      AtFront(first, rest, j);
    } else {
      PermutationsFromInOrder(s, from + 1, i, j);
      AtBack(first, rest, Behind(i - from - 1, f, j));
    }
  }

  /** Place `j` behind `groups` groups of `f`. */
  function Behind(groups: nat, f: nat, j: nat): nat { if groups == 0 then j else f + Behind(groups - 1, f, j) }

  lemma {:induction false} BehindIsProduct(groups: nat, f: nat, j: nat)
    ensures Behind(groups, f, j) == groups * f + j
  {
    if groups > 0 {
      BehindIsProduct(groups - 1, f, j);
      OneMoreFactor(groups - 1, f);
    }
  }

  lemma FromStep<T>(s: seq<T>, from: nat)
    requires from < |s|
    ensures var first := Prefixed(s[from], Permutations(Without(s, from)));
      |first| == Factorial(|s| - 1) && PermutationsFrom(s, from) == first + PermutationsFrom(s, from + 1)
  {
    hide Permutations, Prefixed, Factorial;
    PermutationCount(Without(s, from));
    PrefixedMembers(s[from], Permutations(Without(s, from)), []);
  }

  lemma AtFront<T>(a: seq<T>, b: seq<T>, j: nat)
    requires j < |a|
    ensures j < |a + b| && (a + b)[j] == a[j]
  {}

  lemma AtBack<T>(a: seq<T>, b: seq<T>, j: nat)
    requires j < |b|
    ensures |a| + j < |a + b| && (a + b)[|a| + j] == b[j]
  {}

  /** The supplied order comes first. */
  lemma {:induction false} SuppliedOrderFirst<T>(s: seq<T>)
    ensures |Permutations(s)| > 0 && Permutations(s)[0] == s
  {
    if s != [] {
      FactorialPositive(|s| - 1);
      PermutationsInOrder(s, 0, 0);
      SuppliedOrderFirst(Without(s, 0));
      assert [s[0]] + Without(s, 0) == s;
    }
  }

  /** Fragments are joined one behind the other. */
  lemma {:induction false} JoinAppends(fragments: seq<Bytes>, last: Bytes)
    ensures Join(fragments + [last]) == Join(fragments) + last
  {
    if fragments == [] {
      assert [last][1..] == [];
    } else {
      assert (fragments + [last])[0] == fragments[0] && (fragments + [last])[1..] == fragments[1..] + [last];
      JoinAppends(fragments[1..], last);
    }
  }

  // ---------- The search ----------

  predicate Accepts(validate: Validator, payload: Bytes) {
    validate(payload).isValid && validate(payload).state in {RecoveredArtifact, ContentValidated}
  }

  function AcceptedPayloads(validate: Validator, perms: seq<seq<Bytes>>): seq<Bytes> {
    if perms == [] then [] else
      var payload := Join(perms[0]);
      (if Accepts(validate, payload) then [payload] else []) + AcceptedPayloads(validate, perms[1..])
  }

  /** The permutations the budget lets the search look at. */
  function Evaluated(fragments: seq<Bytes>, maxBranches: int): seq<seq<Bytes>> {
    var perms := Permutations(fragments);
    if maxBranches <= 0 then [] else if maxBranches < |perms| then perms[..maxBranches] else perms
  }

  function SetOf(s: seq<Bytes>): set<Bytes> { set x <- s }

  function Judge(fragments: seq<Bytes>, validate: Validator, accepted: seq<Bytes>): Outcome {
    if accepted == [] then Outcome(Join(fragments), CorruptedIncomplete, [NoPermutationAccepted])
    else if |accepted| == 1 || |SetOf(accepted)| == 1 then
      Outcome(accepted[0], validate(accepted[0]).state, validate(accepted[0]).limitations)
    else Outcome(accepted[0], AmbiguousReconstruction, [CompetingPayloads(|SetOf(accepted)|)])
  }

  function Reconstructed(fragments: seq<Bytes>, validate: Validator, maxDepth: int, maxBranches: int): Outcome {
    if fragments == [] then Outcome([], CorruptedIncomplete, [NoFragments])
    else if |fragments| == 1 then
      var v := validate(fragments[0]);
      if v.isValid && v.state == RecoveredArtifact then Outcome(fragments[0], RecoveredArtifact, [])
      else Outcome(fragments[0], v.state, v.limitations)
    else if |fragments| > maxDepth then
      Outcome(Join(fragments), ResourceLimited, [TooManyFragments(|fragments|, maxDepth)])
    else Judge(fragments, validate, AcceptedPayloads(validate, Evaluated(fragments, maxBranches)))
  }

  lemma {:induction false} AcceptedSnoc(validate: Validator, perms: seq<seq<Bytes>>, p: seq<Bytes>)
    ensures AcceptedPayloads(validate, perms + [p])
         == AcceptedPayloads(validate, perms) + if Accepts(validate, Join(p)) then [Join(p)] else []
  {
    var last := if Accepts(validate, Join(p)) then [Join(p)] else [];
    if perms == [] {
      assert perms + [p] == [p] && [p][1..] == [];
    } else {
      var first := if Accepts(validate, Join(perms[0])) then [Join(perms[0])] else [];
      assert (perms + [p])[0] == perms[0] && (perms + [p])[1..] == perms[1..] + [p];
      AcceptedSnoc(validate, perms[1..], p);
      assert AcceptedPayloads(validate, perms + [p]) == first + (AcceptedPayloads(validate, perms[1..]) + last);
      assert AcceptedPayloads(validate, perms) == first + AcceptedPayloads(validate, perms[1..]);
    }
  }

  /** The order at `k` is tried, and the validator calls its payload valid and recovered or at least its content
      validated. */
  predicate Confirmed(perms: seq<seq<Bytes>>, validate: Validator, maxBranches: int, k: int) {
    0 <= k < |perms| && k < maxBranches &&
    var v := validate(Join(perms[k]));
    v.isValid && (v.state == RecoveredArtifact || v.state == ContentValidated)
  }

  ghost predicate FirstConfirmed(perms: seq<seq<Bytes>>, validate: Validator, maxBranches: int, k: int) {
    Confirmed(perms, validate, maxBranches, k) && forall j :: 0 <= j < k ==> !Confirmed(perms, validate, maxBranches, j)
  }

  /** The payloads of the confirmed orders. */
  function ConfirmedPayloads(perms: seq<seq<Bytes>>, validate: Validator, maxBranches: int): set<Bytes> {
    set k | 0 <= k < |perms| && Confirmed(perms, validate, maxBranches, k) :: Join(perms[k])
  }

  /** What the result says, for every number of fragments. */
  ghost predicate ResultMeans(fragments: seq<Bytes>, validate: Validator, maxDepth: int, maxBranches: int, r: Outcome) {
    && (|fragments| == 0 ==> r == Outcome([], CorruptedIncomplete, [NoFragments]))
    && (|fragments| == 1 ==>
          var v := validate(fragments[0]);
          && r.payload == fragments[0] && r.state == v.state
          && r.limitations == if v.isValid && v.state == RecoveredArtifact then [] else v.limitations)
    && (|fragments| > 1 && |fragments| > maxDepth ==>
          r == Outcome(Join(fragments), ResourceLimited, [TooManyFragments(|fragments|, maxDepth)]))
    && (2 <= |fragments| <= maxDepth ==> SearchMeans(fragments, validate, maxBranches, r))
  }

  /** After the search: no order confirmed, one payload, or several. */
  ghost predicate SearchMeans(fragments: seq<Bytes>, validate: Validator, maxBranches: int, r: Outcome) {
    var perms := Permutations(fragments);
    var payloads := ConfirmedPayloads(perms, validate, maxBranches);
    && (payloads == {} ==> r == Outcome(Join(fragments), CorruptedIncomplete, [NoPermutationAccepted]))
    && (forall k :: FirstConfirmed(perms, validate, maxBranches, k) ==> r.payload == Join(perms[k]))
    && (|payloads| == 1 ==>
          r.payload in payloads && r.state == validate(r.payload).state
          && r.limitations == validate(r.payload).limitations)
    && (|payloads| > 1 ==>
          && r.payload in payloads && r.state == AmbiguousReconstruction
          && r.limitations == [CompetingPayloads(|payloads|)])
  }

  method Reconstruct(fragments: seq<Bytes>, validate: Validator, maxDepth: int, maxBranches: int) returns (r: Outcome)
    ensures r == Reconstructed(fragments, validate, maxDepth, maxBranches)
    ensures ResultMeans(fragments, validate, maxDepth, maxBranches, r)
  {
    ReconstructedMeans(fragments, validate, maxDepth, maxBranches);
    hide ResultMeans;
    if fragments == [] {
      return Outcome([], CorruptedIncomplete, [NoFragments]);
    }
    if |fragments| == 1 {
      var v := validate(fragments[0]);
      if v.isValid && v.state == RecoveredArtifact {
        return Outcome(fragments[0], RecoveredArtifact, []);
      }
      return Outcome(fragments[0], v.state, v.limitations);
    }
    if |fragments| > maxDepth {
      return Outcome(Join(fragments), ResourceLimited, [TooManyFragments(|fragments|, maxDepth)]);
    }
    var perms := Permutations(fragments);
    var accepted: seq<Bytes> := [];
    var evaluated := 0;
    while evaluated < |perms| && evaluated < maxBranches
      invariant evaluated <= |perms| && (evaluated == 0 || evaluated <= maxBranches)
      invariant accepted == AcceptedPayloads(validate, perms[..evaluated])
    {
      var payload := Join(perms[evaluated]);
      assert perms[..evaluated + 1] == perms[..evaluated] + [perms[evaluated]];
      AcceptedSnoc(validate, perms[..evaluated], perms[evaluated]);
      evaluated := evaluated + 1;
      if Accepts(validate, payload) {
        accepted := accepted + [payload];
      }
    }
    assert perms[..evaluated] == Evaluated(fragments, maxBranches);
    r := Judge(fragments, validate, accepted);
  }

  lemma AcceptedMeans(validate: Validator, perms: seq<seq<Bytes>>, budget: nat)
    requires budget <= |perms|
    ensures var accepted := AcceptedPayloads(validate, perms[..budget]);
      && SetOf(accepted) == ConfirmedPayloads(perms, validate, budget)
      && (forall k :: FirstConfirmed(perms, validate, budget, k) ==> accepted != [] && accepted[0] == Join(perms[k]))
  {
    AcceptedSet(validate, perms, budget);
    hide ConfirmedPayloads, Confirmed, Join, AcceptedPayloads, SetOf;
    forall k | FirstConfirmed(perms, validate, budget, k)
      ensures AcceptedPayloads(validate, perms[..budget]) != []
      ensures AcceptedPayloads(validate, perms[..budget])[0] == Join(perms[k])
    {
      FirstAccepted(validate, perms, budget, k);
    }
  }

  lemma {:induction false} AcceptedSet(validate: Validator, perms: seq<seq<Bytes>>, budget: nat)
    requires budget <= |perms|
    ensures SetOf(AcceptedPayloads(validate, perms[..budget])) == ConfirmedPayloads(perms, validate, budget)
    decreases budget
  {
    if budget > 0 {
      var n := budget - 1;
      AcceptedSet(validate, perms, n);
      assert perms[..budget] == perms[..n] + [perms[n]];
      AcceptedSnoc(validate, perms[..n], perms[n]);
      OneMoreTried(validate, perms, n);
      hide ConfirmedPayloads, Confirmed, Join, AcceptedPayloads;
    }
  }

  lemma FirstWithLess(validate: Validator, perms: seq<seq<Bytes>>, n: nat, budget: nat, k: nat)
    requires k < n < budget && FirstConfirmed(perms, validate, budget, k)
    ensures FirstConfirmed(perms, validate, n, k)
  {
    hide Join;
    forall j | 0 <= j < k ensures !Confirmed(perms, validate, n, j) {
      assert !Confirmed(perms, validate, budget, j);
    }
  }

  /** What was accepted first stays in front. */
  lemma {:induction false} FirstAccepted(validate: Validator, perms: seq<seq<Bytes>>, budget: nat, k: nat)
    requires budget <= |perms| && FirstConfirmed(perms, validate, budget, k)
    ensures AcceptedPayloads(validate, perms[..budget]) != []
    ensures AcceptedPayloads(validate, perms[..budget])[0] == Join(perms[k])
    decreases budget
  {
    var n: nat := budget - 1;
    assert perms[..budget] == perms[..n] + [perms[n]];
    AcceptedSnoc(validate, perms[..n], perms[n]);
    if k < n {
      FirstWithLess(validate, perms, n, budget, k);
      FirstAccepted(validate, perms, n, k);
    } else {
      NothingConfirmed(validate, perms, n, budget);
    }
  }

  lemma OneMoreTried(validate: Validator, perms: seq<seq<Bytes>>, n: nat)
    requires n < |perms|
    ensures ConfirmedPayloads(perms, validate, n + 1)
         == ConfirmedPayloads(perms, validate, n) + if Accepts(validate, Join(perms[n])) then {Join(perms[n])} else {}
  {
    forall x |
      x in ConfirmedPayloads(perms, validate, n + 1) && !(Accepts(validate, Join(perms[n])) && x == Join(perms[n]))
      ensures x in ConfirmedPayloads(perms, validate, n)
    {
      var k :| 0 <= k < |perms| && Confirmed(perms, validate, n + 1, k) && x == Join(perms[k]);
      assert Confirmed(perms, validate, n, k);
    }
    forall x | x in ConfirmedPayloads(perms, validate, n) ensures x in ConfirmedPayloads(perms, validate, n + 1) {
      var k :| 0 <= k < |perms| && Confirmed(perms, validate, n, k) && x == Join(perms[k]);
      assert Confirmed(perms, validate, n + 1, k);
    }
    if Accepts(validate, Join(perms[n])) { assert Confirmed(perms, validate, n + 1, n); }
  }

  lemma NothingConfirmed(validate: Validator, perms: seq<seq<Bytes>>, n: nat, budget: nat)
    requires n <= |perms| && budget == n + 1 && forall j :: 0 <= j < n ==> !Confirmed(perms, validate, budget, j)
    ensures AcceptedPayloads(validate, perms[..n]) == []
  {
    var accepted := AcceptedPayloads(validate, perms[..n]);
    if accepted != [] {
      AcceptedAre(validate, perms[..n], accepted[0]);
      var p :| p in perms[..n] && Join(p) == accepted[0];
      var j :| 0 <= j < n && perms[..n][j] == p;
      assert Confirmed(perms, validate, budget, j);
    }
  }

  /** The budget in whole orders. */
  lemma SameTried(validate: Validator, perms: seq<seq<Bytes>>, maxBranches: int, n: nat)
    requires n == if maxBranches <= 0 then 0 else if maxBranches < |perms| then maxBranches else |perms|
    ensures forall k :: Confirmed(perms, validate, maxBranches, k) <==> Confirmed(perms, validate, n, k)
    ensures ConfirmedPayloads(perms, validate, maxBranches) == ConfirmedPayloads(perms, validate, n)
  {}

  lemma SearchMeansIt(fragments: seq<Bytes>, validate: Validator, maxBranches: int)
    ensures SearchMeans(fragments, validate, maxBranches,
                        Judge(fragments, validate, AcceptedPayloads(validate, Evaluated(fragments, maxBranches))))
  {
    var perms := Permutations(fragments);
    var n: nat := if maxBranches <= 0 then 0 else if maxBranches < |perms| then maxBranches else |perms|;
    assert Evaluated(fragments, maxBranches) == perms[..n];
    AcceptedMeans(validate, perms, n);
    SameTried(validate, perms, maxBranches, n);
    forall k | FirstConfirmed(perms, validate, maxBranches, k) ensures FirstConfirmed(perms, validate, n, k) {}
    hide AcceptedPayloads, ConfirmedPayloads, FirstConfirmed, SetOf, Judge, Join, Permutations, Evaluated;
    JudgeMeans(fragments, validate, AcceptedPayloads(validate, perms[..n]));
  }

  lemma JudgeMeans(fragments: seq<Bytes>, validate: Validator, accepted: seq<Bytes>)
    ensures var r, payloads := Judge(fragments, validate, accepted), SetOf(accepted);
      && (payloads == {} ==> r == Outcome(Join(fragments), CorruptedIncomplete, [NoPermutationAccepted]))
      && (accepted != [] ==> r.payload == accepted[0] && r.payload in payloads)
      && (|payloads| >= 1 ==> accepted != [])
      && (|payloads| == 1 ==>
            r.state == validate(r.payload).state && r.limitations == validate(r.payload).limitations)
      && (|payloads| > 1 ==> r.state == AmbiguousReconstruction && r.limitations == [CompetingPayloads(|payloads|)])
  {
    hide Join;
    if accepted != [] {
      Singleton(accepted);
      assert accepted[0] in SetOf(accepted);
    } else {
      assert SetOf(accepted) == {};
    }
  }

  lemma ReconstructedMeans(fragments: seq<Bytes>, validate: Validator, maxDepth: int, maxBranches: int)
    ensures ResultMeans(fragments, validate, maxDepth, maxBranches,
                        Reconstructed(fragments, validate, maxDepth, maxBranches))
  {
    SearchMeansIt(fragments, validate, maxBranches);
    hide SearchMeans, Judge;
  }

  // ---------- What the verdict means, and when ----------

  /** `payload` is an accepted concatenation of the fragments in some order. */
  ghost predicate Reconstruction(fragments: seq<Bytes>, validate: Validator, payload: Bytes) {
    Accepts(validate, payload)
    && exists order: seq<Bytes> :: multiset(order) == multiset(fragments) && Join(order) == payload
  }

  predicate Exhaustive(fragments: seq<Bytes>, maxDepth: int, maxBranches: int) {
    2 <= |fragments| <= maxDepth && Factorial(|fragments|) <= maxBranches
  }

  lemma {:induction false} AcceptedAre(validate: Validator, perms: seq<seq<Bytes>>, payload: Bytes)
    ensures payload in AcceptedPayloads(validate, perms)
       <==> Accepts(validate, payload) && exists p <- perms :: Join(p) == payload
  {
    if perms != [] {
      AcceptedAre(validate, perms[1..], payload);
      assert perms[0] in perms;
      assert forall p :: p in perms <==> p == perms[0] || p in perms[1..];
    }
  }

  /** The payload is put together within the budget. */
  ghost predicate Reached(fragments: seq<Bytes>, maxBranches: int, payload: Bytes) {
    exists q <- Evaluated(fragments, maxBranches) :: Join(q) == payload
  }

  /** Every order of the fragments gives a payload that is put together within the budget: all orders are tried, or
      the ones left out only repeat bytes already seen. */
  ghost predicate Covers(fragments: seq<Bytes>, maxBranches: int) {
    forall p <- Permutations(fragments) :: Reached(fragments, maxBranches, Join(p))
  }

  /** A budget of n! covers any n fragments. */
  lemma ExhaustiveCovers(fragments: seq<Bytes>, maxDepth: int, maxBranches: int)
    requires Exhaustive(fragments, maxDepth, maxBranches)
    ensures Covers(fragments, maxBranches)
  {
    PermutationCount(fragments);
    FactorialPositive(|fragments|);
    assert Evaluated(fragments, maxBranches) == Permutations(fragments);
  }

  lemma EvaluatedArePermutations(fragments: seq<Bytes>, maxBranches: int)
    ensures forall q <- Evaluated(fragments, maxBranches) :: q in Permutations(fragments)
  {}

  /** What is accepted within the budget: the reconstructions that are reached. */
  lemma AcceptedAreReached(fragments: seq<Bytes>, validate: Validator, maxBranches: int, payload: Bytes)
    ensures payload in AcceptedPayloads(validate, Evaluated(fragments, maxBranches))
       <==> Accepts(validate, payload) && Reached(fragments, maxBranches, payload)
    ensures Reached(fragments, maxBranches, payload) && Accepts(validate, payload) ==>
              Reconstruction(fragments, validate, payload)
  {
    AcceptedAre(validate, Evaluated(fragments, maxBranches), payload);
    if Reached(fragments, maxBranches, payload) {
      var q :| q in Evaluated(fragments, maxBranches) && Join(q) == payload;
      EvaluatedArePermutations(fragments, maxBranches);
      PermutationsAreRearrangements(fragments, q);
    }
  }

  lemma AcceptedAreReconstructions(fragments: seq<Bytes>, validate: Validator, maxBranches: int, payload: Bytes)
    requires Covers(fragments, maxBranches)
    ensures payload in AcceptedPayloads(validate, Evaluated(fragments, maxBranches))
       <==> Reconstruction(fragments, validate, payload)
  {
    AcceptedAreReached(fragments, validate, maxBranches, payload);
    if Reconstruction(fragments, validate, payload) {
      var order: seq<Bytes> :| multiset(order) == multiset(fragments) && Join(order) == payload;
      PermutationsAreRearrangements(fragments, order);
      assert Reached(fragments, maxBranches, Join(order));
    }
  }

  lemma FactorialPositive(n: nat)
    ensures Factorial(n) > 0
  {}

  lemma Singleton(s: seq<Bytes>)
    requires s != []
    ensures |SetOf(s)| == 1 <==> forall x <- s :: x == s[0]
    ensures |s| == 1 ==> |SetOf(s)| == 1
  {
    assert s[0] in SetOf(s);
    if forall x <- s :: x == s[0] {
      assert SetOf(s) == {s[0]};
    }
    if |SetOf(s)| == 1 {
      forall x <- s ensures x == s[0] {
        assert x in SetOf(s);
        OnlyOne(SetOf(s), x, s[0]);
      }
    }
  }

  lemma OnlyOne<T>(s: set<T>, x: T, y: T)
    requires |s| == 1 && x in s && y in s
    ensures x == y
  {
    assert |s - {x}| == 0;
  }

  /** Ambiguous exactly when two different reconstructions exist, corrupted exactly when none does, and
      otherwise the only reconstruction with the validator's own verdict on it. */
  ghost predicate IsExact(fragments: seq<Bytes>, validate: Validator, r: Outcome) {
    && (r.state == AmbiguousReconstruction <==>
          exists x, y :: Reconstruction(fragments, validate, x) && Reconstruction(fragments, validate, y) && x != y)
    && (r.state == CorruptedIncomplete <==> !exists x :: Reconstruction(fragments, validate, x))
    && (r.state != AmbiguousReconstruction && r.state != CorruptedIncomplete ==>
          && (forall x :: Reconstruction(fragments, validate, x) <==> x == r.payload)
          && r.state == validate(r.payload).state && r.limitations == validate(r.payload).limitations)
  }

  lemma CoveredVerdictIsExact(fragments: seq<Bytes>, validate: Validator, maxDepth: int, maxBranches: int)
    requires 2 <= |fragments| <= maxDepth && Covers(fragments, maxBranches)
    ensures IsExact(fragments, validate, Reconstructed(fragments, validate, maxDepth, maxBranches))
  {
    var accepted := AcceptedPayloads(validate, Evaluated(fragments, maxBranches));
    forall x ensures x in accepted <==> Reconstruction(fragments, validate, x) {
      AcceptedAreReconstructions(fragments, validate, maxBranches, x);
    }
    if accepted != [] {
      Singleton(accepted);
      assert accepted[0] in accepted && Reconstruction(fragments, validate, accepted[0]);
      if |SetOf(accepted)| != 1 {
        var y :| y in accepted && y != accepted[0];
        assert Reconstruction(fragments, validate, y);
      }
    }
  }

  /** The validator that accepts exactly the given payloads. */
  function Accepting(payloads: set<Bytes>): Validator {
    payload => Verdict(payload in payloads, RecoveredArtifact, [])
  }

  lemma NothingReached(fragments: seq<Bytes>, validate: Validator, maxBranches: int)
    requires forall x :: Accepts(validate, x) ==> !Reached(fragments, maxBranches, x)
    ensures AcceptedPayloads(validate, Evaluated(fragments, maxBranches)) == []
  {
    var accepted := AcceptedPayloads(validate, Evaluated(fragments, maxBranches));
    if accepted != [] {
      assert accepted[0] in accepted;
      AcceptedAreReached(fragments, validate, maxBranches, accepted[0]);
    }
  }

  /** The verdict is exact for every validator if and only if the budget covers the fragments' orders. */
  lemma VerdictIsExactIff(fragments: seq<Bytes>, maxDepth: int, maxBranches: int)
    requires 2 <= |fragments| <= maxDepth
    ensures (forall validate ::
              IsExact(fragments, validate, Reconstructed(fragments, validate, maxDepth, maxBranches))) <==>
      Covers(fragments, maxBranches)
  {
    if Covers(fragments, maxBranches) {
      forall validate ensures IsExact(fragments, validate, Reconstructed(fragments, validate, maxDepth, maxBranches)) {
        CoveredVerdictIsExact(fragments, validate, maxDepth, maxBranches);
      }
    } else {
      var p :| p in Permutations(fragments) && !Reached(fragments, maxBranches, Join(p));
      var validate := Accepting({Join(p)});
      NothingReached(fragments, validate, maxBranches);
      PermutationsAreRearrangements(fragments, p);
      assert Reconstruction(fragments, validate, Join(p));
      assert !IsExact(fragments, validate, Reconstructed(fragments, validate, maxDepth, maxBranches));
    }
  }

  /** In particular it is exact within a budget of n!. */
  lemma VerdictIsExact(fragments: seq<Bytes>, validate: Validator, maxDepth: int, maxBranches: int)
    requires Exhaustive(fragments, maxDepth, maxBranches)
    ensures IsExact(fragments, validate, Reconstructed(fragments, validate, maxDepth, maxBranches))
  {
    ExhaustiveCovers(fragments, maxDepth, maxBranches);
    CoveredVerdictIsExact(fragments, validate, maxDepth, maxBranches);
  }

  /** An ambiguity is hidden: two reconstructions exist, and one is reported as the only one. */
  ghost predicate HidesAmbiguity(fragments: seq<Bytes>, validate: Validator, r: Outcome) {
    && r.state != AmbiguousReconstruction && r.state != CorruptedIncomplete
    && exists x, y :: Reconstruction(fragments, validate, x) && Reconstruction(fragments, validate, y) && x != y
  }

  /** Some validator's ambiguity is hidden if and only if something is tried and not everything is covered. */
  lemma HidesAmbiguityIff(fragments: seq<Bytes>, maxDepth: int, maxBranches: int)
    requires 2 <= |fragments| <= maxDepth
    ensures (exists validate ::
              HidesAmbiguity(fragments, validate, Reconstructed(fragments, validate, maxDepth, maxBranches))) <==>
      maxBranches > 0 && !Covers(fragments, maxBranches)
  {
    if maxBranches > 0 && !Covers(fragments, maxBranches) {
      var validate := HidingValidator(fragments, maxDepth, maxBranches);
    }
    forall validate | HidesAmbiguity(fragments, validate, Reconstructed(fragments, validate, maxDepth, maxBranches))
      ensures maxBranches > 0 && !Covers(fragments, maxBranches)
    {
      if Covers(fragments, maxBranches) {
        CoveredVerdictIsExact(fragments, validate, maxDepth, maxBranches);
      }
    }
  }

  lemma HidingValidator(fragments: seq<Bytes>, maxDepth: int, maxBranches: int) returns (validate: Validator)
    requires 2 <= |fragments| <= maxDepth && maxBranches > 0 && !Covers(fragments, maxBranches)
    ensures HidesAmbiguity(fragments, validate, Reconstructed(fragments, validate, maxDepth, maxBranches))
  {
    var p :| p in Permutations(fragments) && !Reached(fragments, maxBranches, Join(p));
    PermutationCount(fragments);
    FactorialPositive(|fragments|);
    var evaluated := Evaluated(fragments, maxBranches);
    var q := evaluated[0];
    EvaluatedArePermutations(fragments, maxBranches);
    PermutationsAreRearrangements(fragments, p);
    PermutationsAreRearrangements(fragments, q);
    validate := Accepting({Join(p), Join(q)});
    assert Reached(fragments, maxBranches, Join(q));
    assert Reconstruction(fragments, validate, Join(p)) && Reconstruction(fragments, validate, Join(q));
    OnlyReached(fragments, validate, maxBranches, Join(q));
  }

  /** When all that is accepted and reached is one payload, it is reported. */
  lemma OnlyReached(fragments: seq<Bytes>, validate: Validator, maxBranches: int, payload: Bytes)
    requires Accepts(validate, payload) && Reached(fragments, maxBranches, payload)
    requires forall x :: Accepts(validate, x) && Reached(fragments, maxBranches, x) ==> x == payload
    ensures var accepted := AcceptedPayloads(validate, Evaluated(fragments, maxBranches));
      Judge(fragments, validate, accepted) == Outcome(payload, validate(payload).state, validate(payload).limitations)
  {
    var accepted := AcceptedPayloads(validate, Evaluated(fragments, maxBranches));
    AcceptedAreReached(fragments, validate, maxBranches, payload);
    forall x <- accepted ensures x == payload {
      AcceptedAreReached(fragments, validate, maxBranches, x);
    }
    assert accepted[0] in accepted;
    Singleton(accepted);
  }

  lemma ReconstructionIgnoresOrder(f: seq<Bytes>, g: seq<Bytes>, validate: Validator, x: Bytes)
    requires multiset(f) == multiset(g)
    ensures Reconstruction(f, validate, x) <==> Reconstruction(g, validate, x)
  {}

  lemma SameEmptiness<T>(a: seq<T>, b: seq<T>)
    requires forall x :: x in a <==> x in b
    ensures a == [] <==> b == []
  {
    if a != [] { assert a[0] in a; }
    if b != [] { assert b[0] in b; }
  }

  /** The order in which the fragments were supplied influences neither the state nor an unambiguous result. */
  lemma VerdictIgnoresSupplyOrder(f: seq<Bytes>, g: seq<Bytes>, validate: Validator, maxDepth: int, maxBranches: int)
    requires multiset(f) == multiset(g) && 2 <= |f| <= maxDepth && Covers(f, maxBranches) && Covers(g, maxBranches)
    ensures var r := Reconstructed(f, validate, maxDepth, maxBranches);
      var s := Reconstructed(g, validate, maxDepth, maxBranches);
      && r.state == s.state && r.limitations == s.limitations
      && (r.state != AmbiguousReconstruction && r.state != CorruptedIncomplete ==> r.payload == s.payload)
  {
    assert |multiset(f)| == |f| && |multiset(g)| == |g|;
    var a := AcceptedPayloads(validate, Evaluated(f, maxBranches));
    var b := AcceptedPayloads(validate, Evaluated(g, maxBranches));
    forall x ensures x in a <==> x in b {
      AcceptedAreReconstructions(f, validate, maxBranches, x);
      AcceptedAreReconstructions(g, validate, maxBranches, x);
      ReconstructionIgnoresOrder(f, g, validate, x);
    }
    assert SetOf(a) == SetOf(b);
    SameEmptiness(a, b);
    if a != [] {
      AcceptedAre(validate, Evaluated(f, maxBranches), a[0]);
      AcceptedAre(validate, Evaluated(g, maxBranches), b[0]);
      Singleton(a);
      Singleton(b);
    }
  }

  /** A small instance: two orders are acceptable, one is looked at, and the result is reported as recovered. */
  lemma TruncatedSearchHidesAmbiguity() returns (fragments: seq<Bytes>, validate: Validator, x: Bytes, y: Bytes)
    ensures x != y && Reconstruction(fragments, validate, x) && Reconstruction(fragments, validate, y)
    ensures Reconstructed(fragments, validate, 8, 1).state == RecoveredArtifact
  {
    var a, b: Bytes := [0], [1];
    fragments := [a, b];
    validate := _ => Verdict(true, RecoveredArtifact, []);
    x, y := [0, 1], [1, 0];
    JoinTwo(a, b);
    JoinTwo(b, a);
    assert multiset([a, b]) == multiset([b, a]);
    PermutationsAreRearrangements(fragments, fragments);
    var one := Evaluated(fragments, 1);
    FirstEvaluated(fragments);
    assert AcceptedPayloads(validate, one) == [Join(one[0])] + AcceptedPayloads(validate, one[1..]);
    assert one[1..] == [];
  }

  lemma FirstEvaluated(fragments: seq<Bytes>)
    ensures |Evaluated(fragments, 1)| == 1
  {
    PermutationCount(fragments);
    FactorialPositive(|fragments|);
  }

  lemma JoinTwo(a: Bytes, b: Bytes)
    ensures Join([a, b]) == a + b
  {
    assert [a, b][1..] == [b] && [b][1..] == [];
    assert Join([b]) == b + Join([]) == b;
  }
}
