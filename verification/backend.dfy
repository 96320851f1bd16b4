/**
 * The request side of `OpenAIBackend`: how a conversation is translated
 * for the API, how many requests and tokens each call reserves, which
 * model it addresses, how failed attempts are retried, and how the
 * vectorised calls gather their per-conversation results.
 *
 * The API itself is an oracle: each attempt of a call is given its outcome
 * (a completion or the error it raised). The tokenizer is a parameter
 * giving the encoded length of a string.
 */
module Backend {
  import opened Wrappers
  import opened Messages
  import RateLimit
  import TokenProbs

  /** What a call to the API can raise. */
  datatype CallError =
    | ApiError(reason: string)
    | NoContent
    | BadLogprobs(cause: TokenProbs.ProbError)
    | RetryExhausted(last: CallError)

  /** The limits and settings an `OpenAIBackend` is built with. */
  datatype Config = Config(
    modelName: string,
    modelId: string,
    maxTokensPerMinute: nat,
    maxRequestsPerMinute: nat,
    cotTokens: int,
    finalString: string)

  /**
   * The constructor: an absent chain-of-thought budget becomes 200 tokens
   * and an absent marker "The answer is: ".
   */
  function NewConfig(modelName: string, modelId: string, maxTokensPerMinute: nat, maxRequestsPerMinute: nat,
                     cotTokens: Option<int>, finalString: Option<string>): (r: Config)
    ensures r.modelName == modelName && r.modelId == modelId
    ensures r.maxTokensPerMinute == maxTokensPerMinute && r.maxRequestsPerMinute == maxRequestsPerMinute
    ensures r.cotTokens == if cotTokens.Some? then cotTokens.value else TokenProbs.DefaultCotTokens
    ensures r.finalString == if finalString.Some? then finalString.value else TokenProbs.DefaultFinalString
  {
    Config(modelName, modelId, maxTokensPerMinute, maxRequestsPerMinute,
           if cotTokens.Some? then cotTokens.value else TokenProbs.DefaultCotTokens,
           if finalString.Some? then finalString.value else TokenProbs.DefaultFinalString)
  }

  /** `update_model_id`: only the model id changes. */
  function UpdateModelId(c: Config, modelId: string): (r: Config)
    ensures r.modelId == modelId
    ensures r.(modelId := c.modelId) == c
  {
    c.(modelId := modelId)
  }

  /** The starting rate limiter: both buckets full, their clocks at `now`. */
  function NewBuckets(c: Config, now: real): (r: RateLimit.Limiter)
    ensures r.maxRequests == c.maxRequestsPerMinute as real && r.maxTokens == c.maxTokensPerMinute as real
    ensures RateLimit.InRange(r.maxRequests, r.requests) && RateLimit.InRange(r.maxTokens, r.tokens)
  {
    RateLimit.NewLimiter(c.maxRequestsPerMinute as real, c.maxTokensPerMinute as real, now)
  }

  // ---------------------------------------------------------------------
  // Message translation
  // ---------------------------------------------------------------------

  /** The API role a conversation role is sent as. */
  function ApiRole(role: string): (r: string)
    ensures r == "system" || r == "assistant" || r == "user"
    ensures r == "system" <==> role == "system"
    ensures r == "assistant" <==> role == "agent"
  {
    if role == "system" then "system"
    else if role == "agent" then "assistant"
    else "user"
  }

  /** `preprocess_messages`: each message re-labelled for the API, content kept. */
  function Preprocess(msgs: seq<Message>): (r: seq<Message>)
    ensures |r| == |msgs|
    ensures forall i :: 0 <= i < |r| ==> r[i].content == msgs[i].content
    ensures forall i :: 0 <= i < |r| ==> r[i].role == ApiRole(msgs[i].role)
  {
    if msgs == [] then []
    else [Message(ApiRole(msgs[0].role), msgs[0].content)] + Preprocess(msgs[1..])
  }

  /** Translating a conversation piecewise is translating it whole. */
  lemma {:induction false} PreprocessAppend(a: seq<Message>, b: seq<Message>)
    ensures Preprocess(a + b) == Preprocess(a) + Preprocess(b)
  {
    if a != [] {
      assert (a + b)[1..] == a[1..] + b;
      PreprocessAppend(a[1..], b);
    }
  }

  /**
   * Translation is not idempotent: a translated agent turn comes back as a
   * user turn when translated again, since "assistant" is not a conversation role.
   */
  lemma PreprocessTwiceDemotesAgent(content: string)
    ensures Preprocess(Preprocess([Message("agent", content)])) == [Message("user", content)]
  {
    var once := Preprocess([Message("agent", content)]);
    assert once == [Message("assistant", content)];
    assert Preprocess(once)[0] == Message("user", content);
  }

  // ---------------------------------------------------------------------
  // Token counting and reservations
  // ---------------------------------------------------------------------

  /** `get_token_count`: the encoded lengths of the contents, summed. */
  function TokenCount(msgs: seq<Message>, encodedLength: string -> nat): (r: nat)
    ensures forall i :: 0 <= i < |msgs| ==> encodedLength(msgs[i].content) <= r
    ensures r == 0 <==> forall i :: 0 <= i < |msgs| ==> encodedLength(msgs[i].content) == 0
  {
    if msgs == [] then 0
    else
      assert forall i :: 1 <= i < |msgs| ==> msgs[i] == msgs[1..][i - 1];
      encodedLength(msgs[0].content) + TokenCount(msgs[1..], encodedLength)
  }

  lemma {:induction false} TokenCountAppend(a: seq<Message>, b: seq<Message>, encodedLength: string -> nat)
    ensures TokenCount(a + b, encodedLength) == TokenCount(a, encodedLength) + TokenCount(b, encodedLength)
  {
    if a != [] {
      assert (a + b)[1..] == a[1..] + b;
      TokenCountAppend(a[1..], b, encodedLength);
    } else {
      assert a + b == b;
    }
  }

  /** Roles do not count: the translated conversation reserves what the original does. */
  lemma {:induction false} TokenCountIgnoresRoles(msgs: seq<Message>, encodedLength: string -> nat)
    ensures TokenCount(Preprocess(msgs), encodedLength) == TokenCount(msgs, encodedLength)
  {
    if msgs != [] {
      assert Preprocess(msgs)[1..] == Preprocess(msgs[1..]);
      TokenCountIgnoresRoles(msgs[1..], encodedLength);
    }
  }

  /** Requests and tokens one call takes from the buckets before it is sent. */
  datatype Reservation = Reservation(requests: nat, tokens: nat)

  /** A text call reserves one request and its whole prompt plus its completion budget. */
  function TextReservation(msgs: seq<Message>, maxTokens: nat, encodedLength: string -> nat): (r: Reservation)
    ensures r.requests == 1
    ensures r.tokens >= maxTokens && r.tokens - maxTokens == TokenCount(msgs, encodedLength)
  {
    Reservation(1, maxTokens + TokenCount(msgs, encodedLength))
  }

  /** A probability call reserves one request and the prompt plus one token, whatever its CoT budget. */
  function ProbReservation(msgs: seq<Message>, encodedLength: string -> nat): (r: Reservation)
    ensures r.requests == 1
    ensures r.tokens == TokenCount(msgs, encodedLength) + 1
  {
    Reservation(1, TokenCount(msgs, encodedLength) + 1)
  }

  /**
   * A probability call never reserves more than a text call on the same
   * conversation with a positive budget, even when its chain of thought
   * may generate `cotTokens` tokens.
   */
  lemma ProbReservesNoMoreThanText(msgs: seq<Message>, maxTokens: nat, encodedLength: string -> nat)
    requires maxTokens >= 1
    ensures ProbReservation(msgs, encodedLength).tokens <= TextReservation(msgs, maxTokens, encodedLength).tokens
  {
  }

  /** Whether a reservation can ever be granted by buckets of these limits. */
  predicate Fits(c: Config, r: Reservation) {
    r.requests <= c.maxRequestsPerMinute && r.tokens <= c.maxTokensPerMinute
  }

  /** Reserving through the limiter, on the given clock readings. */
  function Admit(l: RateLimit.Limiter, r: Reservation, requestPolls: seq<real>, tokenPolls: seq<real>): Option<RateLimit.Limiter> {
    RateLimit.Reserve(l, r.requests as real, r.tokens as real, requestPolls, tokenPolls)
  }

  /**
   * A conversation whose prompt and completion budget exceed the per-minute
   * token limit is never sent: its acquire loop waits forever, whatever the clock does.
   */
  lemma OversizedCallNeverSent(c: Config, now: real, msgs: seq<Message>, maxTokens: nat, encodedLength: string -> nat,
                               requestPolls: seq<real>, tokenPolls: seq<real>)
    requires !Fits(c, TextReservation(msgs, maxTokens, encodedLength))
    ensures Admit(NewBuckets(c, now), TextReservation(msgs, maxTokens, encodedLength), requestPolls, tokenPolls).None?
  {
    var l := NewBuckets(c, now);
    var r := TextReservation(msgs, maxTokens, encodedLength);
    RateLimit.ReserveOverCapacity(l, r.requests as real, r.tokens as real, requestPolls, tokenPolls);
  }

  // ---------------------------------------------------------------------
  // Model choice and response extraction
  // ---------------------------------------------------------------------

  /** The model a text call addresses: the fine-tuned id for the agent when one is set. */
  function TextModel(c: Config, role: Option<string>): (r: string)
    ensures r == c.modelId || r == c.modelName
    ensures r == c.modelId <== role == Some("agent") && c.modelId != ""
    ensures !(role == Some("agent") && c.modelId != "") ==> r == c.modelName
  {
    if role == Some("agent") && c.modelId != "" then c.modelId else c.modelName
  }

  /** The model a probability call addresses: the agent's id whether or not it is set. */
  function ProbModel(c: Config, role: Option<string>): (r: string)
    ensures role == Some("agent") ==> r == c.modelId
    ensures role != Some("agent") ==> r == c.modelName
  {
    if role == Some("agent") then c.modelId else c.modelName
  }

  /**
   * The two calls address the same model except for the agent with an empty
   * id, where only the text call falls back to the model name.
   */
  lemma ModelChoiceDiffers(c: Config, role: Option<string>)
    ensures TextModel(c, role) != ProbModel(c, role) <==>
              role == Some("agent") && c.modelId == "" && c.modelName != ""
  {
  }

  /** The message content of a text completion, which must be present. */
  function ResponseText(content: Option<string>): (r: Result<string, CallError>)
    ensures r.Success? <==> content.Some?
    ensures r.Success? ==> r.value == content.value
    ensures r.Failure? ==> r.error == NoContent
  {
    match content
    case None => Failure(NoContent)
    case Some(text) => Success(text)
  }

  // ---------------------------------------------------------------------
  // Retries
  // ---------------------------------------------------------------------

  /** The attempt limit tenacity is given: the class attribute, not the instance's. */
  const ClassMaxRetries := 5

  /** The instance attribute the constructor sets, which the retry decorator never reads. */
  const InstanceMaxRetries := 6

  /**
   * `retry_decorator` from attempt `i` (1-based) on: the first successful
   * attempt's value, or, after the last permitted attempt fails, a retry
   * error wrapping that attempt's error. There is no wait between attempts.
   */
  function RetryFrom<T>(attempt: nat -> Result<T, CallError>, i: nat): (r: Result<T, CallError>)
    requires 1 <= i <= ClassMaxRetries
    ensures r.Success? <==> exists j :: i - 1 <= j < ClassMaxRetries && attempt(j).Success?
    ensures r.Success? ==> exists j :: i - 1 <= j < ClassMaxRetries && attempt(j) == Success(r.value) &&
                                       forall k :: i - 1 <= k < j ==> attempt(k).Failure?
    ensures r.Failure? ==> r == Failure(RetryExhausted(attempt(ClassMaxRetries - 1).error))
    decreases ClassMaxRetries - i
  {
    var o := attempt(i - 1);
    if o.Success? then Success(o.value)
    else if i == ClassMaxRetries then Failure(RetryExhausted(o.error))
    else RetryFrom(attempt, i + 1)
  }

  /** A call wrapped by `retry_decorator`, attempts numbered from 0. */
  function Retry<T>(attempt: nat -> Result<T, CallError>): (r: Result<T, CallError>)
    ensures r.Success? <==> exists j :: 0 <= j < ClassMaxRetries && attempt(j).Success?
    ensures r.Success? ==> exists j :: 0 <= j < ClassMaxRetries && attempt(j) == Success(r.value) &&
                                       forall k :: 0 <= k < j ==> attempt(k).Failure?
    ensures r.Failure? ==> r == Failure(RetryExhausted(attempt(ClassMaxRetries - 1).error))
  {
    RetryFrom(attempt, 1)
  }

  /**
   * An attempt the constructor's `max_retries = 6` would allow but the
   * decorator does not: when only the sixth attempt would succeed, the call fails.
   */
  lemma SixthAttemptNeverMade<T>(attempt: nat -> Result<T, CallError>)
    requires forall k :: 0 <= k < ClassMaxRetries ==> attempt(k).Failure?
    requires attempt(InstanceMaxRetries - 1).Success?
    ensures Retry(attempt).Failure?
  {
  }

  /** `_async_get_response`, given the API's outcome on each attempt. */
  function GetResponse(api: nat -> Result<Option<string>, CallError>): (r: Result<string, CallError>)
    ensures r.Success? <==> exists j :: 0 <= j < ClassMaxRetries && api(j).Success? && api(j).value.Some?
    ensures r.Success? ==> exists j :: 0 <= j < ClassMaxRetries && api(j) == Success(Some(r.value)) &&
                                       forall k :: 0 <= k < j ==> !(api(k).Success? && api(k).value.Some?)
    ensures r.Failure? ==>
              r.error == RetryExhausted(if api(ClassMaxRetries - 1).Failure? then api(ClassMaxRetries - 1).error else NoContent)
  {
    var attempt := (i: nat) => match api(i)
                                case Failure(e) => Failure(e)
                                case Success(content) => ResponseText(content);
    var r := Retry(attempt);
    assert forall j :: attempt(j).Success? <==> api(j).Success? && api(j).value.Some?;
    assert forall j :: attempt(j).Success? ==> api(j) == Success(Some(attempt(j).value));
    r
  }

  /** One attempt of `_async_get_next_token_probs_normalized` on the completion the API returned. */
  function ProbAttempt(c: Config, completion: Result<TokenProbs.Completion, CallError>, useCot: bool, valid: seq<string>)
    : (r: Result<(map<string, real>, string), CallError>)
    ensures completion.Failure? ==> r == Failure(completion.error)
    ensures completion.Success? ==>
              (r.Success? <==> TokenProbs.NextTokenProbs(completion.value, useCot, c.finalString, valid).Success?)
    ensures completion.Success? && r.Success? ==>
              r.value == TokenProbs.NextTokenProbs(completion.value, useCot, c.finalString, valid).value
    ensures completion.Success? && r.Failure? ==>
              r.error == BadLogprobs(TokenProbs.NextTokenProbs(completion.value, useCot, c.finalString, valid).error)
    ensures r.Success? ==> r.value.0.Keys == set k | k in valid
  {
    match completion
    case Failure(e) => Failure(e)
    case Success(resp) =>
      match TokenProbs.NextTokenProbs(resp, useCot, c.finalString, valid)
      case Failure(e) => Failure(BadLogprobs(e))
      case Success(v) => Success(v)
  }

  /** `_async_get_next_token_probs_normalized`, given the API's completion on each attempt. */
  function GetNextTokenProbs(c: Config, api: nat -> Result<TokenProbs.Completion, CallError>, useCot: bool, valid: seq<string>)
    : (r: Result<(map<string, real>, string), CallError>)
    ensures r.Success? ==> r.value.0.Keys == set k | k in valid
    ensures r.Success? <==> exists j :: 0 <= j < ClassMaxRetries && ProbAttempt(c, api(j), useCot, valid).Success?
    ensures r.Success? ==> exists j :: 0 <= j < ClassMaxRetries && ProbAttempt(c, api(j), useCot, valid) == Success(r.value) &&
                                       forall k :: 0 <= k < j ==> ProbAttempt(c, api(k), useCot, valid).Failure?
    ensures r.Failure? ==> r.error == RetryExhausted(ProbAttempt(c, api(ClassMaxRetries - 1), useCot, valid).error)
  {
    var attempt := (i: nat) => ProbAttempt(c, api(i), useCot, valid);
    assert forall j :: attempt(j) == ProbAttempt(c, api(j), useCot, valid);
    var r := Retry(attempt);
    assert r.Success? ==> r.value.0.Keys == set k | k in valid by {
      if r.Success? {
        var j :| 0 <= j < ClassMaxRetries && attempt(j) == Success(r.value) && forall k :: 0 <= k < j ==> attempt(k).Failure?;
        assert ProbAttempt(c, api(j), useCot, valid) == Success(r.value);
      }
    }
    r
  }

  // ---------------------------------------------------------------------
  // Vectorised calls
  // ---------------------------------------------------------------------

  /**
   * `asyncio.gather` over per-conversation results: all values in order, or
   * the error of the first failing conversation.
   */
  function Gather<T>(rs: seq<Result<T, CallError>>): (r: Result<seq<T>, CallError>)
    ensures r.Success? <==> forall i :: 0 <= i < |rs| ==> rs[i].Success?
    ensures r.Success? ==> |r.value| == |rs| && forall i :: 0 <= i < |rs| ==> rs[i] == Success(r.value[i])
    ensures r.Failure? ==> exists i :: 0 <= i < |rs| && rs[i] == Failure(r.error) &&
                                       forall k :: 0 <= k < i ==> rs[k].Success?
  {
    if rs == [] then Success([])
    else
      match rs[0]
      case Failure(e) => Failure(e)
      case Success(v) =>
        match Gather(rs[1..])
        case Failure(e) =>
          assert forall i :: 1 <= i < |rs| ==> rs[i] == rs[1..][i - 1];
          Failure(e)
        case Success(vs) => Success([v] + vs)
  }

  /** `_async_get_response_vec`: one retried text call per conversation, gathered. */
  function GetResponseVec(apis: seq<nat -> Result<Option<string>, CallError>>): (r: Result<seq<string>, CallError>)
    ensures r.Success? ==> |r.value| == |apis| && forall i :: 0 <= i < |apis| ==> GetResponse(apis[i]) == Success(r.value[i])
    ensures r.Success? <==> forall i :: 0 <= i < |apis| ==> GetResponse(apis[i]).Success?
  {
    Gather(seq(|apis|, i requires 0 <= i < |apis| => GetResponse(apis[i])))
  }

  /** Python's `zip`: pairs up to the shorter input. */
  function Zip<A, B>(a: seq<A>, b: seq<B>): (r: seq<(A, B)>)
    ensures |r| == if |a| <= |b| then |a| else |b|
    ensures forall i :: 0 <= i < |r| ==> r[i] == (a[i], b[i])
  {
    if a == [] || b == [] then [] else [(a[0], b[0])] + Zip(a[1..], b[1..])
  }

  /** The distributions and the chains of thought of a list of results, separately. */
  function Unzip<A, B>(ps: seq<(A, B)>): (r: (seq<A>, seq<B>))
    ensures |r.0| == |ps| && |r.1| == |ps|
    ensures forall i :: 0 <= i < |ps| ==> ps[i] == (r.0[i], r.1[i])
  {
    (seq(|ps|, i requires 0 <= i < |ps| => ps[i].0), seq(|ps|, i requires 0 <= i < |ps| => ps[i].1))
  }

  lemma ZipUnzip<A, B>(a: seq<A>, b: seq<B>)
    requires |a| == |b|
    ensures Unzip(Zip(a, b)) == (a, b)
  {
    var z := Unzip(Zip(a, b));
    assert z.0 == a;
    assert z.1 == b;
  }

  /**
   * `_async_get_next_token_probs_normalized_vec`: one retried probability
   * call per conversation paired with its valid tokens, surplus entries of
   * the longer list dropped; the distributions and chains of thought, in order.
   */
  function GetNextTokenProbsVec(c: Config, apis: seq<nat -> Result<TokenProbs.Completion, CallError>>,
                                validN: seq<seq<string>>, useCot: bool)
    : (r: Result<(seq<map<string, real>>, seq<string>), CallError>)
    ensures r.Success? ==> |r.value.0| == |r.value.1| == |Zip(apis, validN)|
    ensures r.Success? ==> forall i :: 0 <= i < |r.value.0| ==>
              GetNextTokenProbs(c, apis[i], useCot, validN[i]) == Success((r.value.0[i], r.value.1[i]))
    ensures r.Success? <==> forall i :: 0 <= i < |Zip(apis, validN)| ==> GetNextTokenProbs(c, apis[i], useCot, validN[i]).Success?
  {
    var pairs := Zip(apis, validN);
    var results := Gather(seq(|pairs|, i requires 0 <= i < |pairs| => GetNextTokenProbs(c, pairs[i].0, useCot, pairs[i].1)));
    match results
    case Failure(e) => Failure(e)
    case Success(vs) =>
      Success(Unzip(vs))
  }

  /** Every distribution the vectorised call returns is over exactly its own valid tokens. */
  lemma ProbsVecKeys(c: Config, apis: seq<nat -> Result<TokenProbs.Completion, CallError>>,
                     validN: seq<seq<string>>, useCot: bool, i: nat)
    requires GetNextTokenProbsVec(c, apis, validN, useCot).Success?
    requires i < |GetNextTokenProbsVec(c, apis, validN, useCot).value.0|
    ensures GetNextTokenProbsVec(c, apis, validN, useCot).value.0[i].Keys == set k | k in validN[i]
  {
    var r := GetNextTokenProbsVec(c, apis, validN, useCot).value;
    assert GetNextTokenProbs(c, apis[i], useCot, validN[i]) == Success((r.0[i], r.1[i]));
  }
}
