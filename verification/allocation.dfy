/**
 * How `TrajectoryQueue` splits its per-iteration sampling budget: the
 * fraction each environment name receives from the prioritised prefix
 * rules, and the integer split of `n_subenvs_to_sample_per_env × |envs|`
 * slots, first across prefixes and then evenly across the environments
 * under each prefix, with both sums checked against the budget.
 *
 * `env_fractions` is a dict, so the rules come in insertion order with
 * distinct prefixes; the training environments are dict keys, so they are
 * distinct too. Python floats are idealised as `real`.
 */
module Allocation {
  import opened Wrappers
  import opened Text

  /** One `prefix: fraction` entry of `env_fractions`. */
  datatype Rule = Rule(prefix: string, fraction: real)

  datatype ConfigError =
    | NoMatchingPrefix(env: string)
    | UnknownPrefix(prefix: string)
    | PrefixSumMismatch(got: int, want: int)
    | EnvSumMismatch(got: int, want: int)

  /** The prefix that matches every environment name. */
  const Wildcard := "*"

  predicate Matches(r: Rule, name: string) {
    StartsWith(name, r.prefix) || r.prefix == Wildcard
  }

  ghost predicate UniquePrefixes(rules: seq<Rule>) {
    forall i, j :: 0 <= i < j < |rules| ==> rules[i].prefix != rules[j].prefix
  }

  ghost predicate Distinct(names: seq<string>) {
    forall i, j :: 0 <= i < j < |names| ==> names[i] != names[j]
  }

  /** The index of the first rule at or after `from` that matches `name`. */
  function FirstMatchFrom(rules: seq<Rule>, name: string, from: nat): (r: Option<nat>)
    requires from <= |rules|
    ensures r.None? <==> forall j :: from <= j < |rules| ==> !Matches(rules[j], name)
    ensures r.Some? ==> from <= r.value < |rules| && Matches(rules[r.value], name)
    ensures r.Some? ==> forall j :: from <= j < r.value ==> !Matches(rules[j], name)
    decreases |rules| - from
  {
    if from == |rules| then None
    else if Matches(rules[from], name) then Some(from)
    else FirstMatchFrom(rules, name, from + 1)
  }

  /** The rule that decides `name`'s fraction: the first one that matches. */
  function FirstMatch(rules: seq<Rule>, name: string): (r: Option<nat>)
    ensures r.None? <==> forall j :: 0 <= j < |rules| ==> !Matches(rules[j], name)
    ensures r.Some? ==> r.value < |rules| && Matches(rules[r.value], name)
    ensures r.Some? ==> forall j :: 0 <= j < r.value ==> !Matches(rules[j], name)
  {
    FirstMatchFrom(rules, name, 0)
  }

  /** `name`'s fraction is that of rule `j`, the first rule matching it. */
  ghost predicate DecidedBy(rules: seq<Rule>, name: string, j: int, f: real) {
    && 0 <= j < |rules|
    && Matches(rules[j], name)
    && (forall j' :: 0 <= j' < j ==> !Matches(rules[j'], name))
    && f == rules[j].fraction
  }

  ghost predicate Matched(rules: seq<Rule>, name: string) {
    exists j :: 0 <= j < |rules| && Matches(rules[j], name)
  }

  /**
   * `_get_env_fraction_by_env_name` as written: for each name the inner loop
   * records the fraction of the first matching rule, but the `raise` follows
   * that loop instead of sitting in its `else`, so it fires after the very
   * first name whether or not a rule matched it.
   */
  method FractionsAsWritten(rules: seq<Rule>, names: seq<string>) returns (r: Result<map<string, real>, ConfigError>)
    ensures r.Success? <==> names == []
    ensures r.Success? ==> r.value == map[]
    ensures r.Failure? ==> names != [] && r.error == NoMatchingPrefix(names[0])
  {
    var fractions: map<string, real> := map[];
    for i := 0 to |names|
      invariant i == 0 && fractions == map[]
    {
      var name := names[i];
      var j := FirstMatch(rules, name);
      if j.Some? {
        fractions := fractions[name := rules[j.value].fraction];
      }
      return Failure(NoMatchingPrefix(name));
    }
    return Success(fractions);
  }

  /** A name that the first rule matches is still rejected by the code as written. */
  method FractionsAsWrittenRejectsMatch() returns (r: Result<map<string, real>, ConfigError>)
    ensures Matched([Rule("a", 1.0)], "a_x")
    ensures r == Failure(NoMatchingPrefix("a_x"))
  {
    var rules := [Rule("a", 1.0)];
    assert Matches(rules[0], "a_x");
    r := FractionsAsWritten(rules, ["a_x"]);
  }

  /**
   * `_get_env_fraction_by_env_name` as its docstring and loop intend: every
   * name gets the fraction of the first rule it matches, and the first name
   * that matches no rule is a configuration error.
   */
  function Fractions(rules: seq<Rule>, names: seq<string>): (r: Result<map<string, real>, ConfigError>)
    ensures r.Success? <==> forall i :: 0 <= i < |names| ==> Matched(rules, names[i])
    ensures r.Success? ==> r.value.Keys == set i | 0 <= i < |names| :: names[i]
    ensures r.Success? ==> forall n :: n in r.value ==> exists j :: DecidedBy(rules, n, j, r.value[n])
    ensures r.Failure? ==> r.error.NoMatchingPrefix? && r.error.env in names && !Matched(rules, r.error.env)
  {
    if names == [] then Success(map[])
    else
      match FirstMatch(rules, names[0])
      case None => Failure(NoMatchingPrefix(names[0]))
      case Some(j) =>
        var rest :- Fractions(rules, names[1..]);
        assert DecidedBy(rules, names[0], j, rules[j].fraction);
        assert forall i :: 0 <= i < |names| ==> names[i] == names[0] || names[i] in names[1..];
        Success(rest[names[0] := rules[j].fraction])
  }

  /** The wildcard rule accepts every name. */
  lemma WildcardMatchesAll(rules: seq<Rule>, names: seq<string>, f: real)
    requires |rules| > 0 && rules[0] == Rule(Wildcard, f)
    ensures Fractions(rules, names).Success?
    ensures forall n :: n in Fractions(rules, names).value ==> Fractions(rules, names).value[n] == f
  {
    forall i | 0 <= i < |names|
      ensures Matched(rules, names[i])
    {
      assert Matches(rules[0], names[i]);
    }
    var m := Fractions(rules, names).value;
    forall n | n in m
      ensures m[n] == f
    {
      var j :| DecidedBy(rules, n, j, m[n]);
      assert Matches(rules[0], n);
    }
  }

  /** Python's `int(x)`: truncation toward zero. */
  function Trunc(x: real): (r: int)
    ensures x >= 0.0 ==> r as real <= x < r as real + 1.0
    ensures x < 0.0 ==> r as real - 1.0 < x <= r as real
  {
    if x >= 0.0 then x.Floor else -((-x).Floor)
  }

  /** `int(total_subenvs_across_envs * frac)`: the slots a rule's prefix receives. */
  function Slots(total: int, r: Rule): int {
    Trunc(total as real * r.fraction)
  }

  /** Where the rule with prefix `p` sits, if there is one. */
  function PrefixIndex(rules: seq<Rule>, p: string): (r: Option<nat>)
    ensures r.None? <==> forall j :: 0 <= j < |rules| ==> rules[j].prefix != p
    ensures r.Some? ==> r.value < |rules| && rules[r.value].prefix == p
  {
    if rules == [] then None
    else if rules[0].prefix == p then Some(0)
    else
      match PrefixIndex(rules[1..], p)
      case None => None
      case Some(j) => Some(j + 1)
  }

  /** `tot_subenvs_by_prefix[p]`, or `None` where that lookup raises KeyError. */
  function PrefixShare(rules: seq<Rule>, p: string, total: int): Option<int> {
    match PrefixIndex(rules, p)
    case None => None
    case Some(j) => Some(Slots(total, rules[j]))
  }

  /** `sum(tot_subenvs_by_prefix.values())` */
  function SumShares(rules: seq<Rule>, total: int): int {
    if rules == [] then 0 else Slots(total, rules[0]) + SumShares(rules[1..], total)
  }

  /** `envs_by_prefix[p]`: the environments whose names start with `p`, in order. */
  function Group(envs: seq<string>, p: string): (r: seq<string>)
    ensures forall e :: e in r <==> e in envs && StartsWith(e, p)
    ensures |r| <= |envs|
  {
    if envs == [] then []
    else (if StartsWith(envs[0], p) then [envs[0]] else []) + Group(envs[1..], p)
  }

  /** From distinct names, each environment of a group appears in it once, so the group's size counts its members. */
  lemma {:induction false} GroupDistinct(envs: seq<string>, p: string)
    requires Distinct(envs)
    ensures Distinct(Group(envs, p))
    ensures |Group(envs, p)| == |set e | e in envs && StartsWith(e, p)|
  {
    if envs != [] {
      assert Distinct(envs[1..]) && envs[0] !in envs[1..];
      GroupDistinct(envs[1..], p);
    }
    DistinctCard(Group(envs, p));
    assert (set e | e in Group(envs, p)) == (set e | e in envs && StartsWith(e, p));
  }

  /** A sequence without repeats has as many distinct elements as entries. */
  lemma {:induction false} DistinctCard(xs: seq<string>)
    requires Distinct(xs)
    ensures |set e | e in xs| == |xs|
  {
    if xs != [] {
      assert Distinct(xs[1..]);
      DistinctCard(xs[1..]);
      assert (set e | e in xs) == (set e | e in xs[1..]) + {xs[0]};
      assert xs[0] !in (set e | e in xs[1..]);
    }
  }

  /** The prefix an environment's share is looked up under: its name up to the first `_`. */
  function PrefixOf(e: string): string {
    SplitFirst(e, '_')
  }

  /**
   * The per-environment loop over `todo` (a suffix of `envs`): the prefix
   * share divided, rounding down, among the environments grouped under the
   * prefix; the first environment whose prefix has no rule raises KeyError.
   * `EnvShareOf` states each environment's value.
   */
  function EnvShares(rules: seq<Rule>, envs: seq<string>, total: int, todo: seq<string>): (r: Result<map<string, int>, ConfigError>)
    requires forall e :: e in todo ==> e in envs
    ensures r.Success? <==> forall e :: e in todo ==> PrefixShare(rules, PrefixOf(e), total).Some?
    ensures r.Success? ==> r.value.Keys == set e | e in todo
    ensures r.Failure? ==>
              && r.error.UnknownPrefix?
              && exists i :: 0 <= i < |todo| && PrefixOf(todo[i]) == r.error.prefix && PrefixShare(rules, r.error.prefix, total).None?
                             && forall k :: 0 <= k < i ==> PrefixShare(rules, PrefixOf(todo[k]), total).Some?
    decreases |todo|
  {
    if todo == [] then Success(map[])
    else
      var e := todo[0];
      var p := PrefixOf(e);
      match PrefixShare(rules, p, total)
      case None => Failure(UnknownPrefix(p))
      case Some(share) =>
        OwnGroupNonEmpty(envs, e);
        match EnvShares(rules, envs, total, todo[1..])
        case Failure(err) =>
          assert forall k :: 1 <= k < |todo| ==> todo[k] == todo[1..][k - 1];
          Failure(err)
        case Success(rest) =>
          assert forall x :: x in todo <==> x == e || x in todo[1..];
          Success(rest[e := share / |Group(envs, p)|])
  }

  /** Each environment's share: its prefix's slots divided, rounding down, by the size of its group. */
  lemma {:induction false} EnvShareOf(rules: seq<Rule>, envs: seq<string>, total: int, todo: seq<string>, e: string)
    requires forall x :: x in todo ==> x in envs
    requires EnvShares(rules, envs, total, todo).Success? && e in todo
    ensures PrefixShare(rules, PrefixOf(e), total).Some? && |Group(envs, PrefixOf(e))| > 0
    ensures EnvShares(rules, envs, total, todo).value[e]
            == PrefixShare(rules, PrefixOf(e), total).value / |Group(envs, PrefixOf(e))|
    decreases |todo|
  {
    OwnGroupNonEmpty(envs, e);
    if e != todo[0] {
      EnvShareOf(rules, envs, total, todo[1..], e);
    }
  }

  /** The sum of `m`'s values over the keys `ks`. */
  function SumOver(ks: seq<string>, m: map<string, int>): int
    requires forall k :: k in ks ==> k in m
  {
    if ks == [] then 0 else m[ks[0]] + SumOver(ks[1..], m)
  }

  /**
   * `_get_n_subenvs_to_sample_per_iter_by_env`: on success every training
   * environment has a share (`AllocatedShare` states which) and the shares
   * add up to the budget exactly; otherwise the first failing step is reported.
   */
  function Allocate(nPerEnv: int, rules: seq<Rule>, envs: seq<string>): (r: Result<map<string, int>, ConfigError>)
    requires UniquePrefixes(rules) && Distinct(envs)
    ensures r.Success? ==> r.value.Keys == set e | e in envs
    ensures r.Success? ==> SumOver(envs, r.value) == nPerEnv * |envs|
    ensures r.Success? ==> SumShares(rules, nPerEnv * |envs|) == nPerEnv * |envs|
    ensures (exists e :: e in envs && PrefixShare(rules, PrefixOf(e), nPerEnv * |envs|).None?) <==>
              r.Failure? && r.error.UnknownPrefix?
    ensures r.Failure? && r.error.UnknownPrefix? ==>
              exists i :: 0 <= i < |envs| && PrefixOf(envs[i]) == r.error.prefix
                          && PrefixShare(rules, r.error.prefix, nPerEnv * |envs|).None?
                          && forall k :: 0 <= k < i ==> PrefixShare(rules, PrefixOf(envs[k]), nPerEnv * |envs|).Some?
    ensures r.Failure? && r.error.PrefixSumMismatch? ==>
              r.error == PrefixSumMismatch(SumShares(rules, nPerEnv * |envs|), nPerEnv * |envs|)
    ensures var total := nPerEnv * |envs|;
            var known := forall e :: e in envs ==> PrefixShare(rules, PrefixOf(e), total).Some?;
            && (r.Failure? && r.error.PrefixSumMismatch? <==> known && SumShares(rules, total) != total)
            && (r.Failure? && r.error.EnvSumMismatch? <==>
                  known && SumShares(rules, total) == total && SumOver(envs, EnvShares(rules, envs, total, envs).value) != total)
            && (r.Success? <==>
                  known && SumShares(rules, total) == total && SumOver(envs, EnvShares(rules, envs, total, envs).value) == total)
            && (known && r.Failure? && r.error.EnvSumMismatch? ==>
                  r.error == EnvSumMismatch(SumOver(envs, EnvShares(rules, envs, total, envs).value), total))
  {
    var total := nPerEnv * |envs|;
    match EnvShares(rules, envs, total, envs)
    case Failure(err) => Failure(err)
    case Success(shares) =>
      var prefixSum := SumShares(rules, total);
      if prefixSum != total then Failure(PrefixSumMismatch(prefixSum, total))
      else
        var envSum := SumOver(envs, shares);
        if envSum != total then Failure(EnvSumMismatch(envSum, total))
        else Success(shares)
  }

  /** On success each environment holds its prefix's slots divided, rounding down, by its group's size. */
  lemma AllocatedShare(nPerEnv: int, rules: seq<Rule>, envs: seq<string>, e: string)
    requires UniquePrefixes(rules) && Distinct(envs)
    requires Allocate(nPerEnv, rules, envs).Success? && e in envs
    ensures PrefixShare(rules, PrefixOf(e), nPerEnv * |envs|).Some? && |Group(envs, PrefixOf(e))| > 0
    ensures Allocate(nPerEnv, rules, envs).value[e]
            == PrefixShare(rules, PrefixOf(e), nPerEnv * |envs|).value / |Group(envs, PrefixOf(e))|
  {
    EnvShareOf(rules, envs, nPerEnv * |envs|, envs, e);
  }

  /** An environment always belongs to the group of its own first segment, so the division is safe. */
  lemma OwnGroupNonEmpty(envs: seq<string>, e: string)
    requires e in envs
    ensures e in Group(envs, PrefixOf(e)) && |Group(envs, PrefixOf(e))| > 0
  {
  }

  /** Dividing `n × g` slots among `g` environments gives each `n`. */
  lemma MulDiv(n: int, g: int)
    requires g > 0
    ensures (n * g) / g == n
  {
    var q := (n * g) / g;
    var m := (n * g) % g;
    assert n * g == q * g + m && 0 <= m < g;
    assert (n - q) * g == m;
    if n - q > 0 {
      assert (n - q) * g == (n - q - 1) * g + g;
      MulNonNeg(n - q - 1, g);
    } else if n - q < 0 {
      assert (n - q) * g == -((q - n - 1) * g) - g;
      MulNonNeg(q - n - 1, g);
    }
  }

  lemma MulNonNeg(a: int, b: int)
    requires a >= 0 && b >= 0
    ensures a * b >= 0
  {
  }

  /** With `k` equal shares of `n` each, the sum is `k × n`. */
  lemma {:induction false} SumOverConstant(ks: seq<string>, m: map<string, int>, n: int)
    requires forall k :: k in ks ==> k in m && m[k] == n
    ensures SumOver(ks, m) == n * |ks|
  {
    if ks != [] {
      SumOverConstant(ks[1..], m, n);
    }
  }

  /** Every name starting with `p` is grouped under `p`. */
  lemma {:induction false} GroupAll(envs: seq<string>, p: string)
    requires forall e :: e in envs ==> StartsWith(e, p)
    ensures Group(envs, p) == envs
  {
    if envs != [] {
      GroupAll(envs[1..], p);
      assert envs == [envs[0]] + envs[1..];
    }
  }

  /**
   * One prefix holding the whole budget: every environment gets exactly
   * `n_subenvs_to_sample_per_env` slots.
   */
  lemma SinglePrefixAllocatesEvenly(nPerEnv: int, p: string, envs: seq<string>)
    requires Distinct(envs)
    requires forall e :: e in envs ==> PrefixOf(e) == p
    ensures Allocate(nPerEnv, [Rule(p, 1.0)], envs) == Success(map e | e in envs :: nPerEnv)
  {
    var rules := [Rule(p, 1.0)];
    var total := nPerEnv * |envs|;
    assert Slots(total, rules[0]) == total by {
      assert total as real * 1.0 == total as real;
    }
    assert PrefixShare(rules, p, total) == Some(total);
    assert SumShares(rules, total) == total;
    var shares := EnvShares(rules, envs, total, envs);
    assert shares.Success?;
    GroupAll(envs, p);
    forall e | e in shares.value
      ensures shares.value[e] == nPerEnv
    {
      EnvShareOf(rules, envs, total, envs, e);
      MulDiv(nPerEnv, |envs|);
    }
    SumOverConstant(envs, shares.value, nPerEnv);
    assert shares.value == map e | e in envs :: nPerEnv;
  }

  /**
   * Truncation makes the prefix sum fall short: halves of three slots are
   * one each, so the configuration is rejected.
   */
  lemma TruncationRejected()
    ensures Allocate(1, [Rule("a", 0.5), Rule("b", 0.5)], ["a_x", "a_y", "b_z"]) == Failure(PrefixSumMismatch(2, 3))
  {
    var rules := [Rule("a", 0.5), Rule("b", 0.5)];
    var envs := ["a_x", "a_y", "b_z"];
    assert PrefixOf("a_x") == "a" && PrefixOf("a_y") == "a" && PrefixOf("b_z") == "b";
    assert Trunc(3.0 * 0.5) == 1;
    assert PrefixShare(rules, "a", 3) == Some(1);
    assert PrefixShare(rules, "b", 3) == Some(1);
    assert EnvShares(rules, envs, 3, envs).Success?;
    assert SumShares(rules, 3) == 2;
  }

  /**
   * The wildcard is accepted by the fraction lookup but never equals a name's
   * first segment, so the allocation fails on it.
   */
  lemma WildcardRejectedByAllocation()
    ensures Fractions([Rule(Wildcard, 1.0)], ["a_x"]) == Success(map["a_x" := 1.0])
    ensures Allocate(1, [Rule(Wildcard, 1.0)], ["a_x"]) == Failure(UnknownPrefix("a"))
  {
    assert Matches(Rule(Wildcard, 1.0), "a_x");
    assert PrefixOf("a_x") == "a";
  }

  /**
   * Grouping by `startswith` counts `ab_y` under both `a` and `ab`, so `a_x`
   * gets half a slot rounded down and the environment sum falls short.
   */
  lemma NestedPrefixRejected()
    ensures Allocate(1, [Rule("a", 0.5), Rule("ab", 0.5)], ["a_x", "ab_y"]) == Failure(EnvSumMismatch(1, 2))
  {
    var rules := [Rule("a", 0.5), Rule("ab", 0.5)];
    NestedShares();
    assert Trunc(2.0 * 0.5) == 1;
    assert SumShares(rules, 2) == 2;
    assert 1 * 2 == 2;
  }

  /** The shares of the nested-prefix example: "a" takes its slot, but both of its environments split it. */
  lemma NestedShares()
    ensures var envs := ["a_x", "ab_y"];
            var r := EnvShares([Rule("a", 0.5), Rule("ab", 0.5)], envs, 2, envs);
            r.Success? && SumOver(envs, r.value) == 1
  {
    var rules := [Rule("a", 0.5), Rule("ab", 0.5)];
    var envs := ["a_x", "ab_y"];
    NestedPrefixes();
    NestedGroups();
    var r := EnvShares(rules, envs, 2, envs);
    assert r.Success?;
    EnvShareOf(rules, envs, 2, envs, "a_x");
    EnvShareOf(rules, envs, 2, envs, "ab_y");
    assert |Group(envs, PrefixOf("a_x"))| == 2 && PrefixShare(rules, PrefixOf("a_x"), 2).value == 1;
    assert |Group(envs, PrefixOf("ab_y"))| == 1 && PrefixShare(rules, PrefixOf("ab_y"), 2).value == 1;
    assert r.value["a_x"] == 1 / 2 == 0;
    assert r.value["ab_y"] == 1 / 1 == 1;
    assert envs[1..] == ["ab_y"] && envs[1..][1..] == [];
    assert SumOver(envs[1..], r.value) == 1;
  }

  lemma NestedPrefixes()
    ensures PrefixOf("a_x") == "a" && PrefixOf("ab_y") == "ab"
    ensures PrefixShare([Rule("a", 0.5), Rule("ab", 0.5)], "a", 2) == Some(1)
    ensures PrefixShare([Rule("a", 0.5), Rule("ab", 0.5)], "ab", 2) == Some(1)
  {
    assert Trunc(2.0 * 0.5) == 1;
  }

  lemma NestedGroups()
    ensures Group(["a_x", "ab_y"], "a") == ["a_x", "ab_y"]
    ensures Group(["a_x", "ab_y"], "ab") == ["ab_y"]
  {
    var envs := ["a_x", "ab_y"];
    assert StartsWith("a_x", "a") && StartsWith("ab_y", "a") && StartsWith("ab_y", "ab");
    assert "a_x"[1] != "ab"[1];
    assert !StartsWith("a_x", "ab");
    assert envs[1..] == ["ab_y"] && envs[1..][1..] == [];
  }
}
