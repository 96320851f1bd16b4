/**
 * How `OpenAIBackend` turns a completion with log-probabilities into a
 * distribution over the caller's valid answer tokens: where the answer sits
 * (right after the chain-of-thought marker, or at the first token), the
 * top-5 candidates there aggregated by normalised spelling, and the
 * restriction to the valid tokens, renormalised when it has mass.
 *
 * Candidates carry their probability directly (the code exponentiates
 * each log-probability); Python floats are idealised as `real`.
 */
module TokenProbs {
  import opened Wrappers
  import opened Text

  /** One entry of `top_logprobs`. */
  datatype Candidate = Candidate(token: string, prob: real)

  /** One generated token and its most likely alternatives. */
  datatype ResponseToken = ResponseToken(token: string, top: seq<Candidate>)

  /** The first choice of a completion: its text and its per-token log-probabilities. */
  datatype Completion = Completion(content: Option<string>, tokens: seq<ResponseToken>)

  datatype ProbError =
    | MissingContent
    | TooFewCandidates(count: nat)

  /** How many candidates are read at the answer position (`top_logprobs=5`). */
  const TopK := 5

  /** The constructor's defaults when no marker or chain-of-thought budget is configured. */
  const DefaultFinalString := "The answer is: "
  const DefaultCotTokens := 200

  /** The generated text up to, not including, token `n`: the tokens concatenated. */
  function Concat(ts: seq<string>): string {
    if ts == [] then "" else Concat(ts[..|ts| - 1]) + ts[|ts| - 1]
  }

  /** The text through token `m - 1` ends with the marker. */
  predicate MarkerEndsAt(tokens: seq<string>, marker: string, m: int)
    requires 0 <= m <= |tokens|
  {
    EndsWith(Concat(tokens[..m]), marker)
  }

  /**
   * The marker search from token `i` on, with `acc` the text of the tokens
   * before it: one past the first token at which the text so far ends with
   * the marker.
   */
  function MarkerFrom(tokens: seq<string>, marker: string, i: nat, acc: string): (r: Option<nat>)
    requires i <= |tokens| && acc == Concat(tokens[..i])
    ensures r.None? <==> forall m :: i < m <= |tokens| ==> !MarkerEndsAt(tokens, marker, m)
    ensures r.Some? ==> i < r.value <= |tokens| && MarkerEndsAt(tokens, marker, r.value)
    ensures r.Some? ==> forall m :: i < m < r.value ==> !MarkerEndsAt(tokens, marker, m)
    decreases |tokens| - i
  {
    if i == |tokens| then None
    else
      var acc' := acc + tokens[i];
      assert tokens[..i + 1][..i] == tokens[..i];
      assert acc' == Concat(tokens[..i + 1]);
      if EndsWith(acc', marker) then
        assert MarkerEndsAt(tokens, marker, i + 1);
        Some(i + 1)
      else MarkerFrom(tokens, marker, i + 1, acc')
  }

  /** The answer position after the chain of thought: `final_answer_index`, or `None` for the code's `-1`. */
  function AnswerIndex(tokens: seq<string>, marker: string): (r: Option<nat>)
    ensures r.None? <==> forall m :: 0 < m <= |tokens| ==> !MarkerEndsAt(tokens, marker, m)
    ensures r.Some? ==> 0 < r.value <= |tokens| && MarkerEndsAt(tokens, marker, r.value)
    ensures r.Some? ==> forall m :: 0 < m < r.value ==> !MarkerEndsAt(tokens, marker, m)
  {
    assert tokens[..0] == [];
    MarkerFrom(tokens, marker, 0, "")
  }

  /** The spelling candidates are pooled under: `token.lower().strip()`. */
  function TokenKey(t: string): string {
    Strip(Lower(t))
  }

  /** The probability mass of the candidates spelled `k`, summed front to back. */
  function Mass(cs: seq<Candidate>, k: string): real {
    if cs == [] then 0.0
    else (if TokenKey(cs[0].token) == k then cs[0].prob else 0.0) + Mass(cs[1..], k)
  }

  /** The `defaultdict(float)` loop over the candidates, in order. */
  function Aggregate(cs: seq<Candidate>): (r: map<string, real>)
    ensures forall k :: k in r <==> exists i :: 0 <= i < |cs| && TokenKey(cs[i].token) == k
  {
    if cs == [] then map[]
    else
      var m := Aggregate(cs[..|cs| - 1]);
      var last := cs[|cs| - 1];
      var k := TokenKey(last.token);
      assert forall i :: 0 <= i < |cs| - 1 ==> cs[..|cs| - 1][i] == cs[i];
      m[k := (if k in m then m[k] else 0.0) + last.prob]
  }

  /** Adding one candidate at the back adds its probability to its own spelling only. */
  lemma {:induction false} MassSnoc(cs: seq<Candidate>, c: Candidate, k: string)
    ensures Mass(cs + [c], k) == Mass(cs, k) + (if TokenKey(c.token) == k then c.prob else 0.0)
  {
    if cs == [] {
      assert cs + [c] == [c];
    } else {
      assert (cs + [c])[1..] == cs[1..] + [c];
      MassSnoc(cs[1..], c, k);
    }
  }

  /** Every pooled spelling holds the summed probability of the candidates spelled that way. */
  lemma {:induction false} AggregateIsMass(cs: seq<Candidate>)
    ensures forall k :: k in Aggregate(cs) ==> Aggregate(cs)[k] == Mass(cs, k)
  {
    if cs != [] {
      var init := cs[..|cs| - 1];
      var last := cs[|cs| - 1];
      AggregateIsMass(init);
      assert cs == init + [last];
      forall k | k in Aggregate(cs)
        ensures Aggregate(cs)[k] == Mass(cs, k)
      {
        MassSnoc(init, last, k);
        if k != TokenKey(last.token) {
          assert k in Aggregate(init);
        } else if k !in Aggregate(init) {
          MassAbsent(init, k);
        }
      }
    }
  }

  /** A spelling no candidate has carries no mass. */
  lemma {:induction false} MassAbsent(cs: seq<Candidate>, k: string)
    requires forall i :: 0 <= i < |cs| ==> TokenKey(cs[i].token) != k
    ensures Mass(cs, k) == 0.0
  {
    if cs != [] {
      MassAbsent(cs[1..], k);
    }
  }

  /**
   * `get_token_probs_and_chain_of_thought`: the pooled top-5 candidates at
   * the answer position, with the chain of thought (empty without one). An
   * absent marker, or an answer position past the last token, gives the
   * empty distribution; fewer than five candidates raise IndexError.
   */
  function TokenProbsAndCot(c: Completion, useCot: bool, marker: string): (r: Result<(map<string, real>, string), ProbError>)
    ensures !useCot ==> r.Success? ==> r.value.1 == ""
    ensures useCot && c.content.None? <==> r == Failure(MissingContent)
    ensures useCot && c.content.Some? ==> r.Success? ==> r.value.1 == c.content.value
    ensures useCot && c.content.Some? && !Contains(c.content.value, marker) ==> r == Success((map[], c.content.value))
    ensures useCot && c.content.Some? && AnswerIndex(Tokens(c), marker).None? ==> r == Success((map[], c.content.value))
    ensures r.Success? && r.value.0 != map[] ==>
              exists i :: 0 <= i < |c.tokens| && |c.tokens[i].top| >= TopK && r.value.0 == Aggregate(c.tokens[i].top[..TopK]) &&
                (if useCot then AnswerIndex(Tokens(c), marker) == Some(i) else i == 0)
    ensures r.Failure? && r.error.TooFewCandidates? ==> r.error.count < TopK
    ensures !(useCot && c.content.None?) ==>
              var cot := if useCot then c.content.value else "";
              var pos := AnswerPosition(c, useCot, marker);
              && (pos.None? || pos.value >= |c.tokens| ==> r == Success((map[], cot)))
              && (pos.Some? && pos.value < |c.tokens| && |c.tokens[pos.value].top| >= TopK ==>
                    r == Success((Aggregate(c.tokens[pos.value].top[..TopK]), cot)))
              && (pos.Some? && pos.value < |c.tokens| && |c.tokens[pos.value].top| < TopK ==>
                    r == Failure(TooFewCandidates(|c.tokens[pos.value].top|)))
  {
    var n := |c.tokens|;
    var answer: Result<(Option<nat>, string), ProbError> :=
      if !useCot then Success((Some(0), ""))
      else if c.content.None? then Failure(MissingContent)
      else if !Contains(c.content.value, marker) then Success((None, c.content.value))
      else Success((AnswerIndex(Tokens(c), marker), c.content.value));
    match answer
    case Failure(e) => Failure(e)
    case Success((None, cot)) => Success((map[], cot))
    case Success((Some(i), cot)) =>
      if i >= n then Success((map[], cot))
      else if |c.tokens[i].top| < TopK then Failure(TooFewCandidates(|c.tokens[i].top|))
      else Success((Aggregate(c.tokens[i].top[..TopK]), cot))
  }

  /**
   * Where the answer is read, content permitting: token 0 without a chain of
   * thought, nowhere when the marker is absent from the content, and
   * otherwise just after the first token that completes the marker.
   */
  function AnswerPosition(c: Completion, useCot: bool, marker: string): (r: Option<nat>)
    ensures !useCot ==> r == Some(0)
    ensures useCot && c.content.Some? && Contains(c.content.value, marker) ==>
              (r.None? <==> forall m :: 0 < m <= |c.tokens| ==> !MarkerEndsAt(Tokens(c), marker, m))
    ensures useCot && r.Some? ==>
              && c.content.Some? && Contains(c.content.value, marker)
              && 0 < r.value <= |c.tokens| && MarkerEndsAt(Tokens(c), marker, r.value)
              && forall m :: 0 < m < r.value ==> !MarkerEndsAt(Tokens(c), marker, m)
  {
    if !useCot then Some(0)
    else if c.content.None? || !Contains(c.content.value, marker) then None
    else AnswerIndex(Tokens(c), marker)
  }

  /** Each pooled spelling at the answer position holds the summed probability of the top five candidates spelled that way. */
  lemma AnswerMass(c: Completion, useCot: bool, marker: string, k: string)
    requires TokenProbsAndCot(c, useCot, marker).Success?
    requires k in TokenProbsAndCot(c, useCot, marker).value.0
    ensures var pos := AnswerPosition(c, useCot, marker);
            && pos.Some? && pos.value < |c.tokens| && |c.tokens[pos.value].top| >= TopK
            && TokenProbsAndCot(c, useCot, marker).value.0[k] == Mass(c.tokens[pos.value].top[..TopK], k)
  {
    var pos := AnswerPosition(c, useCot, marker);
    assert pos.Some? && pos.value < |c.tokens| && |c.tokens[pos.value].top| >= TopK;
    AggregateIsMass(c.tokens[pos.value].top[..TopK]);
  }

  /** The generated tokens' text. */
  function Tokens(c: Completion): (r: seq<string>)
    ensures |r| == |c.tokens|
    ensures forall i :: 0 <= i < |r| ==> r[i] == c.tokens[i].token
  {
    seq(|c.tokens|, i requires 0 <= i < |c.tokens| => c.tokens[i].token)
  }

  /** `ks` with later repeats dropped, in first-occurrence order, as the keys of a dict built from it. */
  function Dedup(ks: seq<string>): (r: seq<string>)
    ensures forall k :: k in r <==> k in ks
    ensures forall i, j :: 0 <= i < j < |r| ==> r[i] != r[j]
  {
    if ks == [] then []
    else
      var d := Dedup(ks[..|ks| - 1]);
      var last := ks[|ks| - 1];
      assert forall k :: k in ks <==> k in ks[..|ks| - 1] || k == last by {
        assert ks == ks[..|ks| - 1] + [last];
      }
      if last in d then d else d + [last]
  }

  /** The sum of `m`'s values over the keys `ks`. */
  function SumValues(ks: seq<string>, m: map<string, real>): real
    requires forall k :: k in ks ==> k in m
  {
    if ks == [] then 0.0 else m[ks[0]] + SumValues(ks[1..], m)
  }

  /** `valid_probs`: each valid token's pooled probability, 0 where it has none. */
  function ValidProbs(probs: map<string, real>, valid: seq<string>): (r: map<string, real>)
    ensures r.Keys == set k | k in valid
    ensures forall k :: k in r ==> r[k] == if k in probs then probs[k] else 0.0
  {
    map k | k in valid :: if k in probs then probs[k] else 0.0
  }

  /** `total_prob`: the mass the valid tokens carry. */
  function ValidTotal(probs: map<string, real>, valid: seq<string>): real {
    SumValues(Dedup(valid), ValidProbs(probs, valid))
  }

  /** Every value divided by `t`. */
  function Divide(m: map<string, real>, t: real): (r: map<string, real>)
    requires t > 0.0
    ensures r.Keys == m.Keys
    ensures forall k :: k in r ==> r[k] == m[k] / t
  {
    map k | k in m :: m[k] / t
  }

  /**
   * The tail of `_async_get_next_token_probs_normalized`: restricted to the
   * valid tokens, and divided by their total when that is positive.
   */
  function Renormalize(probs: map<string, real>, valid: seq<string>): (r: map<string, real>)
    ensures r.Keys == set k | k in valid
    ensures ValidTotal(probs, valid) > 0.0 ==>
              forall k :: k in r ==> r[k] == ValidProbs(probs, valid)[k] / ValidTotal(probs, valid)
    ensures ValidTotal(probs, valid) <= 0.0 ==> r == ValidProbs(probs, valid)
  {
    var vp := ValidProbs(probs, valid);
    var total := ValidTotal(probs, valid);
    if total > 0.0 then Divide(vp, total) else vp
  }

  /** Dividing every value by `t` divides the sum by `t`. */
  lemma {:induction false} SumValuesScaled(ks: seq<string>, m: map<string, real>, t: real)
    requires t > 0.0
    requires forall k :: k in ks ==> k in m
    ensures SumValues(ks, Divide(m, t)) == SumValues(ks, m) / t
  {
    if ks != [] {
      SumValuesScaled(ks[1..], m, t);
      DivAdd(m[ks[0]], SumValues(ks[1..], m), t);
    }
  }

  lemma DivAdd(x: real, y: real, t: real)
    requires t > 0.0
    ensures x / t + y / t == (x + y) / t
  {
  }

  /** When the valid tokens carry any mass, the renormalised distribution sums to one. */
  lemma RenormalizeSumsToOne(probs: map<string, real>, valid: seq<string>)
    requires ValidTotal(probs, valid) > 0.0
    ensures SumValues(Dedup(valid), Renormalize(probs, valid)) == 1.0
  {
    var t := ValidTotal(probs, valid);
    var vp := ValidProbs(probs, valid);
    SumValuesScaled(Dedup(valid), vp, t);
    assert Renormalize(probs, valid) == Divide(vp, t);
    assert SumValues(Dedup(valid), vp) == t;
    DivSelf(t);
  }

  lemma DivSelf(t: real)
    requires t > 0.0
    ensures t / t == 1.0
  {
  }

  lemma {:induction false} SumValuesNonNeg(ks: seq<string>, m: map<string, real>)
    requires forall k :: k in ks ==> k in m && m[k] >= 0.0
    ensures SumValues(ks, m) >= 0.0
    ensures SumValues(ks, m) == 0.0 ==> forall k :: k in ks ==> m[k] == 0.0
  {
    if ks != [] {
      SumValuesNonNeg(ks[1..], m);
    }
  }

  /**
   * With non-negative probabilities and no mass on any valid token, every
   * valid token maps to zero.
   */
  lemma RenormalizeNoMass(probs: map<string, real>, valid: seq<string>)
    requires forall k :: k in probs ==> probs[k] >= 0.0
    requires ValidTotal(probs, valid) <= 0.0
    ensures forall k :: k in Renormalize(probs, valid) ==> Renormalize(probs, valid)[k] == 0.0
  {
    SumValuesNonNeg(Dedup(valid), ValidProbs(probs, valid));
  }

  /** Pooled probabilities 0.6, 0.3 and 0.1 on "2", "3" and "x", valid tokens "1", "2", "3". */
  lemma RenormalizeExample()
    ensures Renormalize(map["2" := 0.6, "3" := 0.3, "x" := 0.1], ["1", "2", "3"]) == map["1" := 0.0, "2" := 2.0 / 3.0, "3" := 1.0 / 3.0]
  {
    ExampleValidProbs();
    ExampleTotal();
    ExampleDivide();
  }

  lemma ExampleTotal()
    ensures ValidTotal(map["2" := 0.6, "3" := 0.3, "x" := 0.1], ["1", "2", "3"]) == 0.9
  {
    var valid := ["1", "2", "3"];
    var vp := map["1" := 0.0, "2" := 0.6, "3" := 0.3];
    ExampleDedup();
    ExampleValidProbs();
    assert valid[1..] == ["2", "3"] && valid[1..][1..] == ["3"] && valid[1..][1..][1..] == [];
    assert SumValues(valid, vp) == 0.9;
  }

  lemma ExampleDivide()
    ensures Divide(map["1" := 0.0, "2" := 0.6, "3" := 0.3], 0.9) == map["1" := 0.0, "2" := 2.0 / 3.0, "3" := 1.0 / 3.0]
  {
    var r := Divide(map["1" := 0.0, "2" := 0.6, "3" := 0.3], 0.9);
    assert r.Keys == {"1", "2", "3"};
  }

  lemma ExampleDedup()
    ensures Dedup(["1", "2", "3"]) == ["1", "2", "3"]
  {
    var valid := ["1", "2", "3"];
    assert valid[..2] == ["1", "2"] && valid[..2][..1] == ["1"] && valid[..2][..1][..0] == [];
    assert Dedup(["1"]) == ["1"];
    assert Dedup(["1", "2"]) == ["1", "2"];
  }

  lemma ExampleValidProbs()
    ensures ValidProbs(map["2" := 0.6, "3" := 0.3, "x" := 0.1], ["1", "2", "3"]) == map["1" := 0.0, "2" := 0.6, "3" := 0.3]
  {
    var r := ValidProbs(map["2" := 0.6, "3" := 0.3, "x" := 0.1], ["1", "2", "3"]);
    assert r.Keys == {"1", "2", "3"};
  }

  /**
   * `_async_get_next_token_probs_normalized` after the call: the answer
   * distribution renormalised over the valid tokens, with the chain of thought.
   */
  function NextTokenProbs(c: Completion, useCot: bool, marker: string, valid: seq<string>): (r: Result<(map<string, real>, string), ProbError>)
    ensures r.Success? <==> TokenProbsAndCot(c, useCot, marker).Success?
    ensures r.Success? ==> r.value.0.Keys == set k | k in valid
    ensures r.Success? ==> r.value.1 == TokenProbsAndCot(c, useCot, marker).value.1
    ensures r.Success? ==> r.value.0 == Renormalize(TokenProbsAndCot(c, useCot, marker).value.0, valid)
    ensures r.Failure? ==> r.error == TokenProbsAndCot(c, useCot, marker).error
  {
    var (probs, cot) :- TokenProbsAndCot(c, useCot, marker);
    Success((Renormalize(probs, valid), cot))
  }

  /** A successful call whose valid tokens carry any mass returns a distribution that sums to one. */
  lemma NextTokenProbsSumsToOne(c: Completion, useCot: bool, marker: string, valid: seq<string>)
    requires NextTokenProbs(c, useCot, marker, valid).Success?
    requires ValidTotal(TokenProbsAndCot(c, useCot, marker).value.0, valid) > 0.0
    ensures SumValues(Dedup(valid), NextTokenProbs(c, useCot, marker, valid).value.0) == 1.0
  {
    RenormalizeSumsToOne(TokenProbsAndCot(c, useCot, marker).value.0, valid);
  }
}
