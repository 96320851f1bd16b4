# Rollout engine core, modelled in Dafny

This project models the sequential logic of the rollout-generation engine. It has three parts.

- **Conversation state machine** (`Environment`, environment.dfy). A conversation starts in `initial_state` at turn 0. Each transition label is resolved against the state's transition table, falling back to the default label. A self-loop only counts a turn. Any other target builds a fresh state: the old history followed by the target's scripted messages, each rendered with the format variables and stripped. A state is terminal once `turns >= max_turns` or when its config marks it terminal.
- **Trajectory work queue** (`TrajectoryQueue`).
  - job_queue.dfy holds the keyed FIFOs. It covers `put`, `non_empty_queues` (largest backlog first), `get` with a preferred key, and `num_trajectories`.
  - allocation.dfy holds the prefix fractions and the split of the per-iteration budget over prefixes and environments.
  - selection.dfy holds the `fixed`, `random` and `sequential` choice of sub-environments and the fan-out of `populate` into the FIFOs.
- **Backend pure logic** (`OpenAIBackend`).
  - rate_limit.dfy holds the two token buckets: refill, the acquire loop, and the reservation of a call.
  - token_probs.dfy holds the chain-of-thought answer position, the top-5 aggregation and the renormalisation over the valid tokens.
  - backend.dfy holds message translation, token counting and the amounts reserved, model choice, the retry bound, and the order-preserving batched calls.

Shared definitions:

- wrappers.dfy has `Option` and `Result`. Every `KeyError`, `ValueError`, `ZeroDivisionError`, `IndexError` and failed `assert` that the modelled code raises itself is a `Failure` value, not a precondition. There are two exceptions, both listed under Left out. The errors raised inside `str.format_map` are not modelled, because formatting is a total function parameter. The constructor's two asserts that the per-minute limits are not `None` are excluded by typing those limits as natural numbers.
- text.dfy has `strip`, `lower`, `startswith`, `endswith`, `in` and `split` on strings.
- messages.dfy has the `{role, content}` message.

Several things are inputs rather than behaviour of the model:

- The inference service is an oracle giving the outcome of each attempt.
- The tokenizer is a function giving the encoded length of a string.
- `str.format_map` and `count_format_fields` are function parameters.
- `random.choice` is a choice oracle, and `random.shuffle` is a given permutation.
- The event-loop clock is a sequence of readings.

Python floats are idealised as `real`. Python's `%` and `//` with a positive divisor coincide with Dafny's operators. `int()` of a real truncates toward zero and is written out (`Allocation.Trunc`).

Two places where the code's own asserts and comments expect more than the code delivers:

- The budget split ends with two asserts (influence_benchmark/environment_vectorized/environment_queue.py:130-133): the prefix shares and the environment shares must both add up to the total. The code truncates each prefix share before those checks, so fractions that sum to 1 can still be rejected. `Allocation.TruncationRejected` shows one.
- The comments of the `sequential` branch (environment_queue.py:160 and :166) describe looping over the sub-environments in order and wrapping around at the end. The slice arithmetic as written takes `n mod total` ids, not `n` (see Findings). `Selection.SelectAsWritten` models the code as written. `populate` in the model uses the corrected window `Selection.Select`. `Selection.SelectAgrees` shows that the two coincide whenever `0 < n <= total`.

## Model

| member | source | states |
|---|---|---|
| Environment.MessageVars | influence_benchmark/environment/environment.py:57-60 | the per-message variables fail exactly when `char_action1` is set without `char_action2`; otherwise they are the environment's variables, with `char_action` set to one of the two alternatives when `char_action1` is present and all other variables kept |
| Environment.RenderFrom | influence_benchmark/environment/environment.py:51-64 | rendering the script succeeds iff no `initial_state` message has a format field and the character variables are complete; on success it yields one message per scripted message |
| Environment.RenderedScript | influence_benchmark/environment/environment.py:62-64 | rendered message `j` keeps the role of scripted message `j`, and its content is that message formatted with its own variables and then stripped |
| Environment.CreateState | influence_benchmark/environment/environment.py:48-76 | an unknown state name is a KeyError; success iff the script renders; the new state has the given name and turns, copies terminal/transitions/default from the config, its history is the given history followed by the rendered script, and the name joins the visited set |
| Environment.Advance | influence_benchmark/environment/environment.py:32-46 | an unknown label falls back to the default, and a missing default fails; every success adds exactly one turn and only extends the history; a self-loop changes nothing but the turn count; any other target is exactly `create_state` of that target with one more turn on the old history, so it lands in the target with its script appended and records the target as visited |
| Environment.Init | influence_benchmark/environment/environment.py:19-28 | a conversation starts in `initial_state` at turn 0 with the initial messages as a prefix of its history; it fails exactly when the initial script has a format field or incomplete character variables |
| Environment.StepObservation | influence_benchmark/environment/environment.py:81-88 | across one step the observation's turn count rises by one, its history only grows, and its variables stay the environment's |
| Environment.GetObservation | influence_benchmark/environment/environment.py:81-88 | the observation is the current history and turn count with the environment's own variables; `StepObservation` states how it changes across a step |
| Environment.RunTurns | influence_benchmark/environment/environment.py:32-46 | `k` successful steps add exactly `k` turns, never shorten or rewrite the history, only grow the visited set, and keep `max_turns` and the variables |
| Environment.RunReachesTerminal | influence_benchmark/environment/environment.py:78-79 | a conversation that has taken at least `max_turns` steps from the start is terminal |
| Environment.InitialTerminal | influence_benchmark/environment/environment.py:78-79 | a fresh conversation is terminal iff `max_turns <= 0` or `initial_state` is marked terminal |
| Environment.IsTerminal | influence_benchmark/environment/environment.py:78-79 | a state is terminal iff its turn count has reached `max_turns` or its config marks it terminal; `InitialTerminal` and `RunReachesTerminal` state what follows from it |
| JobQueue.SubenvKey | influence_benchmark/environment_vectorized/environment_queue.py:42-44 | the key is the environment name, then `_`, then the sub-environment id |
| JobQueue.SubenvKeyInjective | influence_benchmark/environment_vectorized/environment_queue.py:42-44 | within one environment, different ids get different keys |
| JobQueue.SubenvKeyCollision | influence_benchmark/environment_vectorized/environment_queue.py:42-44 | across environments keys can collide: (`a`, `b_1`) and (`a_b`, `1`) share a key |
| JobQueue.BagSize | influence_benchmark/environment_vectorized/environment_queue.py:32-34 | `num_trajectories` is the number of jobs queued under all keys together |
| JobQueue.Total | influence_benchmark/environment_vectorized/environment_queue.py:32-34 | `num_trajectories` sums the backlogs of all keys; `BagSize` shows that this is the number of queued jobs |
| JobQueue.Put | influence_benchmark/environment_vectorized/environment_queue.py:46-49 | the job goes to the back of its key's FIFO, which is created if absent; every other key is unchanged and the total rises by one |
| JobQueue.PutBag | influence_benchmark/environment_vectorized/environment_queue.py:46-49 | the queued jobs after `put` are those before it plus exactly the new job |
| JobQueue.SortBySize | influence_benchmark/environment_vectorized/environment_queue.py:38-39 | the keys are reordered, none added or dropped, into non-increasing order of backlog; the sort is stable, so the keys of any one backlog keep their relative order |
| JobQueue.NonEmptyKeys | influence_benchmark/environment_vectorized/environment_queue.py:36-40 | exactly the keys with a non-empty FIFO, each once, in non-increasing order of backlog, keys of equal backlog in insertion order |
| JobQueue.Get | influence_benchmark/environment_vectorized/environment_queue.py:51-67 | returns nothing iff no job is queued; otherwise it returns the front job of the preferred key if that key has work, else of a key with maximal backlog (`GetFallbackFirst` shows it is the first such key in insertion order); it never reads an empty key; that key loses only its front job, every other key is unchanged, and the total drops by one |
| JobQueue.InsertBySizeStable | influence_benchmark/environment_vectorized/environment_queue.py:38-39 | inserting a key into a list sorted by backlog keeps it behind every key of its own backlog, as a stable sort does |
| JobQueue.NonEmptyWithSize | influence_benchmark/environment_vectorized/environment_queue.py:36-40 | dropping the empty keys keeps the keys of any positive backlog in their original order |
| JobQueue.GetFallbackFirst | influence_benchmark/environment_vectorized/environment_queue.py:51-67 | when the preferred key has no work, `get` takes the first key in insertion order among those with the largest backlog |
| JobQueue.GetBag | influence_benchmark/environment_vectorized/environment_queue.py:51-67 | the queued jobs after `get` are those before it minus exactly the job returned |
| JobQueue.PopBag | influence_benchmark/environment_vectorized/environment_queue.py:62 | taking the front job of a non-empty key removes exactly that job from the queued jobs |
| JobQueue.DrainStep | influence_benchmark/environment_vectorized/environment_queue.py:51-67 | one `get` of a drain either finds nothing queued, or hands out one job, lowers the total by one and leaves the rest of the jobs to the remaining `get`s |
| JobQueue.DrainLosesNothing | influence_benchmark/environment_vectorized/environment_queue.py:51-67 | for any choice of preferred keys, repeated `get`s until exhaustion hand out exactly the queued jobs, with none lost or duplicated |
| JobQueue.PutKeepsFront | influence_benchmark/environment_vectorized/environment_queue.py:46-67 | a job put under a key that has work does not overtake that key's front job |
| Allocation.FractionsAsWritten | influence_benchmark/environment_vectorized/environment_queue.py:73-82 | the loop as written records the first matching rule's fraction and then raises unconditionally, so it succeeds, with no fractions, iff there are no names, and otherwise it fails on the first name |
| Allocation.FractionsAsWrittenRejectsMatch | influence_benchmark/environment_vectorized/environment_queue.py:76-81 | a name that the first rule matches is still rejected by the code as written, with the error naming it |
| Allocation.FirstMatch | influence_benchmark/environment_vectorized/environment_queue.py:77-80 | the index of the first rule whose prefix starts the name or is `*`, or none if no rule matches |
| Allocation.Fractions | influence_benchmark/environment_vectorized/environment_queue.py:73-82 | the intended lookup succeeds iff every name matches some rule; each name gets the fraction of its first matching rule; otherwise it fails on an unmatched name |
| Allocation.WildcardMatchesAll | influence_benchmark/environment_vectorized/environment_queue.py:77-80 | a leading `*` rule gives every name its fraction |
| Allocation.Trunc | influence_benchmark/environment_vectorized/environment_queue.py:110-113 | `int()` of a real truncates toward zero |
| Allocation.Group | influence_benchmark/environment_vectorized/environment_queue.py:116-120 | the environments grouped under a prefix are exactly those whose name starts with it |
| Allocation.GroupDistinct | influence_benchmark/environment_vectorized/environment_queue.py:116-120 | from distinct environment names, a group holds each matching environment once, so its size is the number of environments whose name starts with the prefix |
| Allocation.EnvShares | influence_benchmark/environment_vectorized/environment_queue.py:123-128 | the per-environment split succeeds iff every environment's first segment has a rule, and then gives every environment a share; otherwise it is a KeyError naming the unmatched first segment of the first such environment in order |
| Allocation.EnvShareOf | influence_benchmark/environment_vectorized/environment_queue.py:123-128 | each environment's share is its prefix's slots divided, rounding down, by the size of that prefix's group, which is never empty |
| Allocation.Allocate | influence_benchmark/environment_vectorized/environment_queue.py:102-134 | it fails with KeyError iff some environment's first segment has no rule, naming that of the first such environment; otherwise it fails on the first assert iff the prefix shares miss `n × len(envs)`, reporting their sum, then on the second iff the environment shares miss it, reporting their sum; it succeeds iff all three checks pass, and then every training environment has a share and both sums are exact |
| Allocation.AllocatedShare | influence_benchmark/environment_vectorized/environment_queue.py:110-128 | in a successful allocation each environment holds `int(total × fraction)` of its prefix divided, rounding down, among the environments grouped under that prefix |
| Allocation.SinglePrefixAllocatesEvenly | influence_benchmark/environment_vectorized/environment_queue.py:102-134 | when one prefix with fraction 1 covers every environment, each gets exactly `n_subenvs_to_sample_per_env` |
| Allocation.TruncationRejected | influence_benchmark/environment_vectorized/environment_queue.py:110-130 | fractions ½ and ½ over three environments truncate to 1 + 1 of 3 slots, so the prefix-sum assertion fails |
| Allocation.WildcardRejectedByAllocation | influence_benchmark/environment_vectorized/environment_queue.py:110-126 | a `*` rule passes the fraction lookup but is never a first segment, so the split fails with KeyError |
| Allocation.NestedPrefixRejected | influence_benchmark/environment_vectorized/environment_queue.py:116-133 | with prefixes `a` and `ab`, grouping by `startswith` puts `ab_y` under both, so the environment sum falls short and is rejected |
| Selection.PyPrefix | influence_benchmark/environment_vectorized/environment_queue.py:155 | Python's `ids[:n]`: the first `n` ids for `0 <= n <= len`, all of them above, and all but the last `-n` for negative `n` |
| Selection.SequentialAsWritten | influence_benchmark/environment_vectorized/environment_queue.py:159-170 | an empty id list divides by zero; otherwise the window holds `n mod total` ids, or all `total` when `n` is a multiple of it (zero included), and element `i` is `ids[(start + i) mod total]` |
| Selection.SequentialAsWrittenMiscounts | influence_benchmark/environment_vectorized/environment_queue.py:162-170 | with 7 sub-environments an allocation of 0 takes all 7, and one of 10 takes only 3 |
| Selection.SequentialWindow | influence_benchmark/environment_vectorized/environment_queue.py:159-170 | the intended window holds `min(max(n, 0), total)` ids, and element `i` is `ids[(start + i) mod total]` |
| Selection.SequentialWindowDistinct | influence_benchmark/environment_vectorized/environment_queue.py:159-170 | the intended window never repeats an id of a duplicate-free list |
| Selection.SequentialAgrees | influence_benchmark/environment_vectorized/environment_queue.py:162-170 | for `0 < n <= total` the code as written takes exactly the intended window |
| Selection.WindowsTile | influence_benchmark/environment_vectorized/environment_queue.py:160-164 | over iterations `0 .. k-1` the windows concatenate to `k × w` ids, and id `i` of them is `ids[i mod total]`: the sub-environments are visited cyclically, none skipped |
| Selection.Cursor | influence_benchmark/environment_vectorized/environment_queue.py:162-163 | the sequential cursor is a valid index into the id list |
| Selection.ParseScheme | influence_benchmark/environment_vectorized/environment_queue.py:153-172 | `fixed`, `random` and `sequential` are the only accepted scheme names; any other is a ValueError |
| Selection.Select | influence_benchmark/environment_vectorized/environment_queue.py:153-172 | `fixed` takes `ids[:n]`; `random` takes as many ids as `ids[:n]` would, drawn without repetition from the ids; `sequential` takes the corrected window of `min(n, total)` ids at the cursor and fails only on an empty id list; no scheme invents an id, and none repeats one from a duplicate-free list |
| Selection.SelectAsWritten | influence_benchmark/environment_vectorized/environment_queue.py:153-172 | the choice as the code writes it: `fixed` and `random` as in `Select`; `sequential` fails only on an empty id list and otherwise takes `n mod total` ids (all of them for a multiple of `total`) from the cursor, wrapping |
| Selection.SelectAgrees | influence_benchmark/environment_vectorized/environment_queue.py:162-170 | the code's choice and the corrected one are equal for `fixed`, for `random`, and for `sequential` whenever `0 < n <= total` |
| Selection.EvalWindowMiscounts | influence_benchmark/environment_vectorized/environment_queue.py:151-170 | an evaluation iteration over 7 sub-environments queues 3 of them as written, and all 7 under the corrected window |
| Selection.RandomChoice | influence_benchmark/environment_vectorized/environment_queue.py:155-157 | the `random` choice has as many ids as `ids[:n]`, all drawn from the ids and none repeated from a duplicate-free list |
| Selection.Trajs | influence_benchmark/environment_vectorized/environment_queue.py:181-183 | `range(n)` yields `max(n, 0)` jobs with trajectory indices `0 .. n-1` in order |
| Selection.EnqueueTrajs | influence_benchmark/environment_vectorized/environment_queue.py:181-185 | one sub-environment's jobs go, in index order, to the back of its own key's FIFO; every other key is unchanged |
| Selection.EnqueueIds | influence_benchmark/environment_vectorized/environment_queue.py:175-185 | one environment adds `len(ids) × max(n, 0)` jobs and leaves keys of other sub-environments unchanged |
| Selection.EnqueueIdsFifos | influence_benchmark/environment_vectorized/environment_queue.py:175-185 | each chosen id's trajectories end up, in index order, at the back of the FIFO under `env_name + "_" + id` |
| Selection.PopulateWith | influence_benchmark/environment_vectorized/environment_queue.py:136-185 | `populate` succeeds iff every environment's choice succeeds; a failure is the error of some environment's choice |
| Selection.Populate | influence_benchmark/environment_vectorized/environment_queue.py:143-172 | with no environments nothing happens; otherwise an unknown scheme name is a ValueError, and a known one populates under that scheme |
| Selection.PopulateStep | influence_benchmark/environment_vectorized/environment_queue.py:143-185 | a successful `populate` queues the first environment's chosen ids and then populates the remaining environments, whose choices all succeed |
| Selection.PopulateTotal | influence_benchmark/environment_vectorized/environment_queue.py:140-185 | `populate` adds exactly (number of chosen ids) × (`n_trajs_to_sample_per_subenv`, or 1 in evaluation) jobs |
| Selection.EvalUsesTrainingCursor | influence_benchmark/environment_vectorized/environment_queue.py:151-163 | an evaluation iteration takes the corrected window of 10 ids, starting from the cursor the training allocation gives |
| RateLimit.Refill | targeted_llm_manipulation/backend/openai_backend.py:79-99 | refilling restarts the clock, keeps a bucket in `[0, cap]` and never lowers a level at or below the cap when time moves forward; the new level is the lesser of the cap and the old level plus `dt × cap / 60` |
| RateLimit.RefillTwice | targeted_llm_manipulation/backend/openai_backend.py:79-99 | refilling at `t1` and again at `t2` equals one refill at `t2` |
| RateLimit.AcquireStep | targeted_llm_manipulation/backend/openai_backend.py:108-113 | one pass deducts iff the refilled bucket holds at least the amount; the level after a deduction is non-negative; otherwise the bucket is only refilled |
| RateLimit.AcquireStepInRange | targeted_llm_manipulation/backend/openai_backend.py:108-113 | a pass keeps a bucket within `[0, cap]` |
| RateLimit.Acquire | targeted_llm_manipulation/backend/openai_backend.py:101-113 | the loop succeeds at the first poll whose refilled bucket holds the amount, every earlier poll having failed and only refilled; it leaves that refilled level minus the amount, clocked at that poll; it yields nothing iff no poll of the schedule succeeds |
| RateLimit.PolledIsOneRefill | targeted_llm_manipulation/backend/openai_backend.py:79-113 | with clock readings that never run backwards, the bucket each pass finds equals the starting bucket refilled once at the previous pass |
| RateLimit.OverCapacityNeverAcquired | targeted_llm_manipulation/backend/openai_backend.py:108-113 | an amount above the cap is never acquired, whatever the clock does |
| RateLimit.WaitingSucceeds | targeted_llm_manipulation/backend/openai_backend.py:79-113 | an amount within the cap is acquired at any poll at least `60 × (amount − level) / cap` seconds after the last refill |
| RateLimit.NewLimiter | targeted_llm_manipulation/backend/openai_backend.py:58-63 | both buckets start full and within range |
| RateLimit.Reserve | targeted_llm_manipulation/backend/openai_backend.py:184-185 | a call is admitted iff both acquire loops finish; the request level is then the refilled request level at its successful poll minus the requests, the token level likewise, and the limits are unchanged |
| RateLimit.ReserveOverCapacity | targeted_llm_manipulation/backend/openai_backend.py:184-185 | a call asking for more than either per-minute limit is never admitted |
| TokenProbs.MarkerFrom | targeted_llm_manipulation/backend/openai_backend.py:406-412 | the search returns one past the first token at which the accumulated text ends with the marker, and nothing iff no such token exists |
| TokenProbs.AnswerIndex | targeted_llm_manipulation/backend/openai_backend.py:403-415 | the answer position is one past the first token whose prefix ends with the marker, or absent iff none does |
| TokenProbs.Aggregate | targeted_llm_manipulation/backend/openai_backend.py:421-425 | the pooled spellings are exactly the `lower().strip()` forms of the candidates |
| TokenProbs.AggregateIsMass | targeted_llm_manipulation/backend/openai_backend.py:422-424 | each pooled spelling holds the summed probability of all candidates spelled that way |
| TokenProbs.TokenProbsAndCot | targeted_llm_manipulation/backend/openai_backend.py:396-425 | without CoT the chain of thought is empty and the answer is read at token 0; with CoT, missing content fails, and an absent marker or no marker token gives `({}, content)`; an answer position past the last token gives an empty distribution; otherwise the result is the pooled top-5 candidates at that position with the chain of thought, or IndexError when fewer than 5 candidates are there |
| TokenProbs.AnswerPosition | targeted_llm_manipulation/backend/openai_backend.py:396-415 | the answer is read at token 0 without CoT; with CoT it is absent iff no token completes the marker, and otherwise it is one past the first token that does |
| TokenProbs.AnswerMass | targeted_llm_manipulation/backend/openai_backend.py:417-425 | each spelling in a successful extraction holds the summed probability of the top-5 candidates spelled that way at the answer position |
| TokenProbs.Dedup | targeted_llm_manipulation/backend/openai_backend.py:324-325 | the valid tokens without repeats, as the keys of the dict built from them |
| TokenProbs.ValidProbs | targeted_llm_manipulation/backend/openai_backend.py:324 | the keys are exactly the valid tokens, each mapped to its pooled probability or 0 when absent |
| TokenProbs.Renormalize | targeted_llm_manipulation/backend/openai_backend.py:324-329 | the keys are exactly the valid tokens; with positive total each value is its share of the total, otherwise the restricted values are returned undivided |
| TokenProbs.RenormalizeSumsToOne | targeted_llm_manipulation/backend/openai_backend.py:325-327 | with positive total the renormalised values sum to 1 |
| TokenProbs.RenormalizeNoMass | targeted_llm_manipulation/backend/openai_backend.py:328-329 | with non-negative inputs and no mass on the valid tokens every value is 0 |
| TokenProbs.RenormalizeExample | targeted_llm_manipulation/backend/openai_backend.py:324-329 | {2: 0.6, 3: 0.3, x: 0.1} over valid tokens 1, 2, 3 gives {1: 0, 2: 2/3, 3: 1/3} |
| TokenProbs.NextTokenProbs | targeted_llm_manipulation/backend/openai_backend.py:323-329 | fails exactly when extraction fails, with the extraction's error; on success the distribution is the extracted one renormalised over exactly the valid tokens, and the chain of thought is kept |
| TokenProbs.NextTokenProbsSumsToOne | targeted_llm_manipulation/backend/openai_backend.py:323-329 | when the valid tokens carry positive mass, the returned distribution sums to 1 over them |
| Backend.NewConfig | targeted_llm_manipulation/backend/openai_backend.py:28-75 | the constructor keeps its arguments and defaults an absent CoT budget to 200 and an absent marker to "The answer is: " |
| Backend.UpdateModelId | targeted_llm_manipulation/backend/openai_backend.py:459-466 | only the model id changes |
| Backend.NewBuckets | targeted_llm_manipulation/backend/openai_backend.py:58-63 | the buckets' limits are the configured per-minute limits, and both start in range |
| Backend.ApiRole | targeted_llm_manipulation/backend/openai_backend.py:441-455 | `system` maps to `system`, `agent` and only `agent` maps to `assistant`, and anything else maps to `user` |
| Backend.Preprocess | targeted_llm_manipulation/backend/openai_backend.py:437-457 | translation keeps length, order and content, and maps each role through `ApiRole` |
| Backend.PreprocessAppend | targeted_llm_manipulation/backend/openai_backend.py:437-457 | translating a concatenation is concatenating the translations |
| Backend.PreprocessTwiceDemotesAgent | targeted_llm_manipulation/backend/openai_backend.py:441-455 | translation is not idempotent: a twice-translated agent message becomes a user message |
| Backend.TokenCount | targeted_llm_manipulation/backend/openai_backend.py:209-212 | the count is at least the encoded length of every message's content, and it is 0 iff every content encodes to nothing |
| Backend.TokenCountAppend | targeted_llm_manipulation/backend/openai_backend.py:209-212 | the token count of a concatenation is the sum of the counts |
| Backend.TokenCountIgnoresRoles | targeted_llm_manipulation/backend/openai_backend.py:209-212 | a translated conversation has the same token count as the original |
| Backend.TextReservation | targeted_llm_manipulation/backend/openai_backend.py:184-185 | a text call reserves 1 request and `max_tokens` plus the prompt's token count |
| Backend.ProbReservation | targeted_llm_manipulation/backend/openai_backend.py:300-301 | a probability call reserves 1 request and the prompt's token count plus 1, whatever its CoT budget |
| Backend.ProbReservesNoMoreThanText | targeted_llm_manipulation/backend/openai_backend.py:300-301 | a probability call reserves no more tokens than a text call with a positive budget on the same prompt |
| Backend.OversizedCallNeverSent | targeted_llm_manipulation/backend/openai_backend.py:184-185 | a text call whose prompt plus budget exceeds the per-minute token limit is never admitted by fresh buckets |
| Backend.TextModel | targeted_llm_manipulation/backend/openai_backend.py:189 | a text call addresses the model id exactly when the role is the agent's and the id is non-empty, and the model name in every other case |
| Backend.ProbModel | targeted_llm_manipulation/backend/openai_backend.py:317 | a probability call addresses the model id for the agent, even an empty one, and the model name otherwise |
| Backend.ModelChoiceDiffers | targeted_llm_manipulation/backend/openai_backend.py:317 | the two calls address different models iff the role is agent, the id is empty and the name is not |
| Backend.ResponseText | targeted_llm_manipulation/backend/openai_backend.py:194-197 | a completion without content raises; otherwise its content is returned |
| Backend.RetryFrom | targeted_llm_manipulation/backend/openai_backend.py:159-160 | from a given attempt on, the result is the first successful attempt's value; if the fifth attempt also fails, a retry error wraps that attempt's error |
| Backend.Retry | targeted_llm_manipulation/backend/openai_backend.py:159-160 | a retried call succeeds iff one of the first 5 attempts does; the value is the first success's, and exhaustion wraps the fifth attempt's error |
| Backend.SixthAttemptNeverMade | targeted_llm_manipulation/backend/openai_backend.py:159-160 | the constructor's `max_retries = 6` is not used: a call whose only success would be the sixth attempt fails |
| Backend.GetResponse | targeted_llm_manipulation/backend/openai_backend.py:164-197 | a text call succeeds iff one of the first 5 attempts returns content, and then returns the first such attempt's content; otherwise it fails with a retry error that wraps the fifth attempt's error, or its missing content |
| Backend.ProbAttempt | targeted_llm_manipulation/backend/openai_backend.py:300-329 | one probability attempt fails with the service's error, or with the extraction's error wrapped; otherwise it returns exactly the renormalised distribution and chain of thought of the completion, over exactly the valid tokens |
| Backend.GetNextTokenProbs | targeted_llm_manipulation/backend/openai_backend.py:280-329 | the retried probability call succeeds iff one of the first 5 attempts does, and then returns the first successful attempt's distribution over exactly the valid tokens; otherwise it fails with a retry error that wraps the fifth attempt's error |
| Backend.Gather | targeted_llm_manipulation/backend/openai_backend.py:254-255 | gathering succeeds iff every element does, with result `i` being element `i`'s value; otherwise the error is that of a failing element with no failure before it |
| Backend.GetResponseVec | targeted_llm_manipulation/backend/openai_backend.py:235-255 | the batched text call returns one response per conversation, in input order, and succeeds iff every conversation's call does |
| Backend.Zip | targeted_llm_manipulation/backend/openai_backend.py:373-376 | `zip` pairs element `i` with element `i` up to the shorter list's length |
| Backend.Unzip | targeted_llm_manipulation/backend/openai_backend.py:377-381 | the distributions and chains of thought are split out in order |
| Backend.ZipUnzip | targeted_llm_manipulation/backend/openai_backend.py:373-381 | splitting a zip of equal-length lists gives back the lists |
| Backend.GetNextTokenProbsVec | targeted_llm_manipulation/backend/openai_backend.py:354-381 | the batched probability call returns one distribution and one chain of thought per pair, for as many pairs as the shorter input has; result `i` is conversation `i`'s call with valid tokens `i`; it succeeds iff every pair's call does |
| Backend.ProbsVecKeys | targeted_llm_manipulation/backend/openai_backend.py:373-381 | each batched distribution is over exactly its own valid tokens |

## Left out

- Network, clocks and randomness:
  - The inference service is not modelled. `AsyncOpenAI` calls are replaced by per-attempt outcomes supplied as inputs.
  - The event loop is not modelled. `asyncio.get_event_loop().time()` becomes given clock readings, and the 0.1 s sleep is not modelled.
  - `tiktoken` is a given encoded-length function.
  - `math.exp` is not modelled: candidates carry their probability directly.
- Concurrency:
  - `asyncio.gather`'s error timing is not modelled: the model raises the error of the lowest failing index, while the code raises whichever failure completes first.
  - The interleaving of calls sharing one pair of buckets is not modelled. Each reservation is modelled on its own (`RateLimit.Reserve`).
  - Reservation on retry is not modelled. In the code every retry attempt reserves requests and tokens again before it calls the service. `Backend.GetResponse` and `Backend.GetNextTokenProbs` take only the service's outcome per attempt, and `Backend.Retry` never touches the buckets.
  - `multiprocessing.Queue` is not modelled, nor is the `queue.Empty` retry in `get`, which only a concurrent consumer can trigger. The queue is modelled as sequential.
- Left-out operations:
  - `clear_queue` is not modelled; it is a maintenance operation outside the rollout flow.
  - Configuration and subenv construction are not modelled: YAML loading, `_load_necessary_configs`, `generate_subenv_config` and `gen_subenv_from_configs`. Jobs are identified by environment, sub-environment id and trajectory index only.
  - The sampling configuration sent with a probability call (CoT budget, `top_p`) is not modelled. It only shapes the completion, which is an input.
- Failure behaviour:
  - Partial effects before a failure are not modelled. A `populate` that raises on a later environment has already enqueued earlier ones, and a failing `create_state` has already appended to the caller's list. On failure the model returns only the error.
  - `Selection.Populate`: an unknown scheme name is reported for any non-empty list of environments, as in the code. The model does not describe the jobs the code enqueued before raising.
  - `Selection.Select`: `populate` in the model selects the corrected `sequential` window of `min(n, total)` ids, not the code's `n mod total` ids. The code's window is `Selection.SelectAsWritten`, and the two agree for `0 < n <= total` (see Findings).
  - `RateLimit.Acquire`: the code polls forever. The model runs over a finite schedule of clock readings, and `None` means the schedule ran out before the loop finished.
  - `Backend.Retry`: tenacity's own bookkeeping is not modelled (statistics, `reraise`, callbacks). Only the attempt bound, the first-success result and the wrapped last error are.
- Representation:
  - `Backend.NewConfig`: the per-minute limits are natural numbers. The constructor's asserts that `max_requests_per_minute` and `max_tokens_per_minute` are not `None` cannot fail in the model, and negative limits are not modelled. The default limits of 500,000 tokens and 5,000 requests per minute are not modelled either: every caller in the model passes both limits.
  - `Environment.CreateState`: `str.format_map` is a total function parameter. The KeyError or ValueError it raises on a missing variable or a malformed placeholder is not modelled; only the errors the environment code raises itself are `Failure` values.
  - `Backend.TextModel`: the model id is a string, and Python truthiness is modelled as non-emptiness; a `None` id is not modelled.
  - `JobQueue.Get` and the other queue operations require the representation invariant `Valid` (distinct keys, listed keys equal to the FIFO map's domain). Every operation preserves it.
  - `Allocation.Allocate` requires distinct prefixes and distinct environment names. Both come from Python dict keys in the code.
  - `Text.Strip` and `Text.Lower` cover ASCII only. Unicode whitespace and case mapping are not modelled.
- Floats: Python floats are idealised as `real`, so rounding in `int(total * frac)` and in the renormalisation is exact in the model.

## Findings

| source | as written | input that shows it | evidently intended | confidence | as-written member | corrected member |
|---|---|---|---|---|---|---|
| influence_benchmark/environment_vectorized/environment_queue.py:76-81 | the `raise` follows the inner `for` instead of being its `else`, so the first name raises even when a rule matched it | rules `{a: 1.0}`, names `["a_x"]` raise ValueError although `a` matches `a_x` | each name gets the fraction of its first matching rule; only an unmatched name raises | high, not executed | Allocation.FractionsAsWrittenRejectsMatch | Allocation.Fractions |
| influence_benchmark/environment_vectorized/environment_queue.py:163-170 | the window's length is `n mod total`, and all `total` ids when `n` is a multiple of it | 7 sub-environments: `n = 0` selects all 7 and `n = 10` selects 3 | the next `min(n, total)` ids from the cursor, none for `n = 0` | medium, not executed | Selection.SequentialAsWrittenMiscounts | Selection.Select |
