/**
 * The selection and enqueue half of `TrajectoryQueue.populate`: which
 * sub-environment ids of each environment are chosen this iteration under
 * the `fixed`, `random` and `sequential` schemes, and the jobs put on the
 * keyed queue for each chosen id.
 */
module Selection {
  import opened Wrappers
  import opened JobQueue

  datatype SelectError = UnknownScheme(scheme: string) | ModuloByZero

  /** Python's `s[:n]` for any integer `n`; a negative `n` drops that many from the end. */
  function PyPrefix(s: seq<string>, n: int): (r: seq<string>)
    ensures n >= 0 ==> |r| == if n < |s| then n else |s|
    ensures n < 0 ==> |r| == if |s| + n > 0 then |s| + n else 0
    ensures r == s[..|r|]
  {
    if n >= 0 then (if n < |s| then s[..n] else s)
    else if |s| + n > 0 then s[..|s| + n] else []
  }

  ghost predicate Distinct(ids: seq<string>) {
    forall i, j :: 0 <= i < j < |ids| ==> ids[i] != ids[j]
  }

  /** `x` written as a multiple of `t` plus `y` leaves the remainder of `y`. */
  lemma ModAddMultiple(x: int, y: int, t: int)
    requires t > 0
    ensures (x * t + y) % t == y % t
  {
    var q1, r1 := (x * t + y) / t, (x * t + y) % t;
    var q2, r2 := y / t, y % t;
    assert (q1 - x - q2) * t == r2 - r1 by {
      assert x * t + y == q1 * t + r1;
      assert y == q2 * t + r2;
    }
    MulSmall(q1 - x - q2, t, r2 - r1);
  }

  /** A multiple of `t` strictly between `-t` and `t` is zero. */
  lemma MulSmall(c: int, t: int, d: int)
    requires t > 0 && c * t == d && -t < d < t
    ensures c == 0 && d == 0
  {
    if c > 0 {
      assert c * t == (c - 1) * t + t;
      MulNonNeg(c - 1, t);
    } else if c < 0 {
      assert c * t == -((-c - 1) * t) - t;
      MulNonNeg(-c - 1, t);
    }
  }

  lemma Distrib(a: int, b: int, c: int)
    ensures (a + b) * c == a * c + b * c
  {
  }

  lemma ScaledSum(a: int, b: int, t: int, c: int, x: int, y: int, z: int)
    requires t == a + b && y == x + a * c && z == y + b * c
    ensures z == x + t * c
  {
    Distrib(a, b, c);
  }

  lemma MulNonNeg(a: int, b: int)
    requires a >= 0 && b >= 0
    ensures a * b >= 0
  {
  }

  /** Reducing the start before adding an offset does not change the position. */
  lemma ModAddMod(a: int, j: int, t: int)
    requires t > 0
    ensures ((a % t) + j) % t == (a + j) % t
  {
    assert a + j == (a / t) * t + ((a % t) + j);
    ModAddMultiple(a / t, (a % t) + j, t);
  }

  /** Positions below `2t` reduce by at most one wrap. */
  lemma ModOnce(x: int, t: int)
    requires t > 0 && 0 <= x < 2 * t
    ensures x < t ==> x % t == x
    ensures x >= t ==> x % t == x - t
  {
    if x < t {
      ModAddMultiple(0, x, t);
    } else {
      ModAddMultiple(1, x - t, t);
    }
  }

  /**
   * The `sequential` window as written: `start = offset % total`,
   * `final = (start + n) % total`, a plain slice when `final > start` and
   * otherwise the tail from `start` followed by the head up to `final`. It
   * always holds `n mod total` ids, except that a multiple of `total`
   * (zero included) yields all of them.
   */
  function SequentialAsWritten(ids: seq<string>, offset: int, n: int): (r: Result<seq<string>, SelectError>)
    ensures r.Failure? <==> |ids| == 0
    ensures r.Failure? ==> r.error == ModuloByZero
    ensures r.Success? ==> |r.value| == if n % |ids| == 0 then |ids| else n % |ids|
    ensures r.Success? ==> forall i :: 0 <= i < |r.value| ==> r.value[i] == ids[(offset % |ids| + i) % |ids|]
  {
    if |ids| == 0 then Failure(ModuloByZero)
    else
      var t := |ids|;
      var start := offset % t;
      var final := (start + n) % t;
      var r := if final > start then ids[start..final] else ids[start..] + ids[..final];
      SequentialAsWrittenShape(ids, start, n);
      Success(r)
  }

  lemma SequentialAsWrittenShape(ids: seq<string>, start: int, n: int)
    requires |ids| > 0 && 0 <= start < |ids|
    ensures var t := |ids|;
            var final := (start + n) % t;
            var r := if final > start then ids[start..final] else ids[start..] + ids[..final];
            && |r| == (if n % t == 0 then t else n % t)
            && forall i :: 0 <= i < |r| ==> r[i] == ids[(start + i) % t]
  {
    var t := |ids|;
    var m := n % t;
    ModAddMod(n, start, t);
    assert (start + n) % t == (start + m) % t;
    ModOnce(start + m, t);
    var final := (start + n) % t;
    var r := if final > start then ids[start..final] else ids[start..] + ids[..final];
    forall i | 0 <= i < |r|
      ensures r[i] == ids[(start + i) % t]
    {
      if i < t - start {
        ModOnce(start + i, t);
      } else {
        ModOnce(start + i, t);
      }
    }
  }

  /**
   * The `sequential` window as intended: the next `n` ids from `start`,
   * wrapping past the end, never more than there are and none for `n <= 0`.
   */
  function SequentialWindow(ids: seq<string>, start: int, n: int): (r: seq<string>)
    requires 0 <= start < |ids|
    ensures |r| == if n <= 0 then 0 else if n < |ids| then n else |ids|
    ensures forall i :: 0 <= i < |r| ==> r[i] == ids[(start + i) % |ids|]
  {
    var t := |ids|;
    var m := if n <= 0 then 0 else if n < t then n else t;
    var r := if start + m <= t then ids[start..start + m] else ids[start..] + ids[..start + m - t];
    assert forall i :: 0 <= i < |r| ==> r[i] == ids[(start + i) % t] by {
      forall i | 0 <= i < |r|
        ensures r[i] == ids[(start + i) % t]
      {
        ModOnce(start + i, t);
      }
    }
    r
  }

  /** A window of the intended kind never repeats an id. */
  lemma SequentialWindowDistinct(ids: seq<string>, start: int, n: int)
    requires 0 <= start < |ids|
    ensures Distinct(ids) ==> Distinct(SequentialWindow(ids, start, n))
  {
    var t := |ids|;
    var r := SequentialWindow(ids, start, n);
    if Distinct(ids) {
      forall i, j | 0 <= i < j < |r|
        ensures r[i] != r[j]
      {
        ModOnce(start + i, t);
        ModOnce(start + j, t);
      }
    }
  }

  /** For `0 < n <= total` the code as written already takes the intended window. */
  lemma SequentialAgrees(ids: seq<string>, offset: int, n: int)
    requires 0 < n <= |ids|
    ensures SequentialAsWritten(ids, offset, n) == Success(SequentialWindow(ids, offset % |ids|, n))
  {
    var t := |ids|;
    var a := SequentialAsWritten(ids, offset, n).value;
    var b := SequentialWindow(ids, offset % t, n);
    if n < t {
      ModOnce(n, t);
    } else {
      ModAddMultiple(1, 0, t);
    }
    assert |a| == |b|;
    assert forall i :: 0 <= i < |a| ==> a[i] == b[i];
    assert a == b;
  }

  /**
   * An allocation of 0 ids selects every one of 7 sub-environments, and one
   * of 10 selects only 3 of them.
   */
  lemma SequentialAsWrittenMiscounts(ids: seq<string>)
    requires |ids| == 7
    ensures |SequentialAsWritten(ids, 0, 0).value| == 7
    ensures |SequentialAsWritten(ids, 0, 10).value| == 3
  {
    ModAddMultiple(0, 0, 7);
    ModAddMultiple(1, 3, 7);
    ModOnce(3, 7);
  }

  /** The windows of iterations `0 .. k-1`, each of `w` ids, concatenated. */
  function Windows(ids: seq<string>, w: int, k: nat): seq<string>
    requires |ids| > 0
  {
    if k == 0 then [] else Windows(ids, w, k - 1) + SequentialWindow(ids, ((k - 1) * w) % |ids|, w)
  }

  /**
   * Consecutive iterations tile the id list cyclically: the `i`-th id handed
   * out over the first `k` iterations is `ids[i mod total]`, so no id is
   * skipped and none is visited twice before all have been visited once.
   */
  lemma {:induction false} WindowsTile(ids: seq<string>, w: int, k: nat)
    requires 0 < w <= |ids|
    ensures |Windows(ids, w, k)| == k * w
    ensures forall i :: 0 <= i < |Windows(ids, w, k)| ==> Windows(ids, w, k)[i] == ids[i % |ids|]
  {
    if k > 0 {
      var t := |ids|;
      WindowsTile(ids, w, k - 1);
      var prev := Windows(ids, w, k - 1);
      var base := (k - 1) * w;
      assert k * w == base + w by {
        Distrib(k - 1, 1, w);
      }
      TileStep(ids, prev, SequentialWindow(ids, base % t, w), base);
    }
  }

  /** Appending the window that starts at `base` extends a cyclic tiling of length `base`. */
  lemma TileStep(ids: seq<string>, prev: seq<string>, win: seq<string>, base: int)
    requires |ids| > 0 && |prev| == base
    requires forall i :: 0 <= i < |prev| ==> prev[i] == ids[i % |ids|]
    requires forall j :: 0 <= j < |win| ==> win[j] == ids[(base % |ids| + j) % |ids|]
    ensures forall i :: 0 <= i < |prev + win| ==> (prev + win)[i] == ids[i % |ids|]
  {
    var t := |ids|;
    forall i | 0 <= i < |prev + win|
      ensures (prev + win)[i] == ids[i % t]
    {
      if i >= |prev| {
        var j := i - base;
        assert (prev + win)[i] == win[j];
        ModAddMod(base, j, t);
      }
    }
  }

  /** The sequential cursor: `iter_step × allocation` ids have been handed out before. */
  function Cursor(ids: seq<string>, iterStep: int, allocation: int): (r: int)
    requires |ids| > 0
    ensures 0 <= r < |ids|
  {
    (iterStep * allocation) % |ids|
  }

  /** The three values `subenv_choice_scheme` may take. */
  datatype Scheme = Fixed | Random | Sequential

  /** Reading `subenv_choice_scheme`; any other name raises ValueError. */
  function ParseScheme(name: string): (r: Result<Scheme, SelectError>)
    ensures r == Success(Fixed) <==> name == "fixed"
    ensures r == Success(Random) <==> name == "random"
    ensures r == Success(Sequential) <==> name == "sequential"
    ensures r.Failure? ==> r.error == UnknownScheme(name)
  {
    if name == "fixed" then Success(Fixed)
    else if name == "random" then Success(Random)
    else if name == "sequential" then Success(Sequential)
    else Failure(UnknownScheme(name))
  }

  /**
   * The ids chosen for one environment: `n` of them under `fixed` and
   * `random` (the latter from a given shuffle), and the intended wrapping
   * window at the sequential cursor under `sequential`. No id is invented
   * or repeated.
   */
  function Select(scheme: Scheme, ids: seq<string>, n: int, iterStep: int, allocation: int, shuffled: seq<string>): (r: Result<seq<string>, SelectError>)
    requires multiset(shuffled) == multiset(ids)
    ensures r.Failure? <==> scheme == Sequential && |ids| == 0
    ensures r.Failure? ==> r.error == ModuloByZero
    ensures scheme == Fixed ==> r == Success(PyPrefix(ids, n))
    ensures scheme == Random ==> r.Success? && |r.value| == |PyPrefix(ids, n)| && multiset(r.value) <= multiset(ids)
    ensures scheme == Sequential && |ids| > 0 ==>
              && r.Success?
              && |r.value| == (if n <= 0 then 0 else if n < |ids| then n else |ids|)
              && forall i :: 0 <= i < |r.value| ==> r.value[i] == ids[(Cursor(ids, iterStep, allocation) + i) % |ids|]
    ensures r.Success? && Distinct(ids) ==> Distinct(r.value)
    ensures r.Success? ==> forall x :: x in r.value ==> x in ids
  {
    match scheme
    case Fixed =>
      FixedChoice(ids, n);
      Success(PyPrefix(ids, n))
    case Random =>
      RandomChoice(ids, n, shuffled);
      Success(PyPrefix(shuffled, n))
    case Sequential =>
      if |ids| == 0 then Failure(ModuloByZero)
      else
        SequentialChoice(ids, Cursor(ids, iterStep, allocation), n);
        Success(SequentialWindow(ids, Cursor(ids, iterStep, allocation), n))
  }

  /**
   * The choice as the code writes it: `fixed` and `random` as in `Select`,
   * and under `sequential` the window as written, whose size is `n mod
   * total` (all ids for a multiple of `total`) rather than `n`.
   */
  function SelectAsWritten(scheme: Scheme, ids: seq<string>, n: int, iterStep: int, allocation: int, shuffled: seq<string>)
    : (r: Result<seq<string>, SelectError>)
    requires multiset(shuffled) == multiset(ids)
    ensures r.Failure? <==> scheme == Sequential && |ids| == 0
    ensures scheme != Sequential ==> r == Select(scheme, ids, n, iterStep, allocation, shuffled)
    ensures scheme == Sequential && |ids| > 0 ==>
              && r.Success?
              && |r.value| == (if n % |ids| == 0 then |ids| else n % |ids|)
              && forall i :: 0 <= i < |r.value| ==> r.value[i] == ids[(Cursor(ids, iterStep, allocation) + i) % |ids|]
  {
    match scheme
    case Fixed => Success(PyPrefix(ids, n))
    case Random => Success(PyPrefix(shuffled, n))
    case Sequential => SequentialAsWritten(ids, iterStep * allocation, n)
  }

  /** The two choices differ only for a sequential window outside `1 .. total`. */
  lemma SelectAgrees(scheme: Scheme, ids: seq<string>, n: int, iterStep: int, allocation: int, shuffled: seq<string>)
    requires multiset(shuffled) == multiset(ids)
    requires scheme != Sequential || 0 < n <= |ids|
    ensures SelectAsWritten(scheme, ids, n, iterStep, allocation, shuffled) == Select(scheme, ids, n, iterStep, allocation, shuffled)
  {
    if scheme == Sequential {
      SequentialAgrees(ids, iterStep * allocation, n);
    }
  }

  /**
   * An evaluation iteration over 7 sub-environments: the code as written
   * queues 3 of them, the intended window all 7.
   */
  lemma EvalWindowMiscounts(ids: seq<string>, iterStep: int, allocation: int, shuffled: seq<string>)
    requires multiset(shuffled) == multiset(ids) && |ids| == 7
    ensures |SelectAsWritten(Sequential, ids, EvalSubenvs, iterStep, allocation, shuffled).value| == 3
    ensures |Select(Sequential, ids, EvalSubenvs, iterStep, allocation, shuffled).value| == 7
  {
    ModAddMultiple(1, 3, 7);
    ModOnce(3, 7);
  }

  /** The `fixed` choice invents and repeats no id. */
  lemma FixedChoice(ids: seq<string>, n: int)
    ensures Distinct(ids) ==> Distinct(PyPrefix(ids, n))
    ensures forall x :: x in PyPrefix(ids, n) ==> x in ids
  {
    DistinctPrefix(ids, PyPrefix(ids, n));
  }

  /** The `random` choice takes as many ids as `fixed` would, from the shuffle of the same ids. */
  lemma RandomChoice(ids: seq<string>, n: int, shuffled: seq<string>)
    requires multiset(shuffled) == multiset(ids)
    ensures |PyPrefix(shuffled, n)| == |PyPrefix(ids, n)|
    ensures multiset(PyPrefix(shuffled, n)) <= multiset(ids)
    ensures Distinct(ids) ==> Distinct(PyPrefix(shuffled, n))
    ensures forall x :: x in PyPrefix(shuffled, n) ==> x in ids
  {
    var r := PyPrefix(shuffled, n);
    assert |shuffled| == |multiset(shuffled)| == |ids|;
    PrefixSubMultiset(shuffled, r);
    assert forall x :: x in r ==> x in multiset(ids);
    SubMultisetDistinct(ids, r);
  }

  /** The `sequential` window invents and repeats no id. */
  lemma SequentialChoice(ids: seq<string>, start: int, n: int)
    requires 0 <= start < |ids|
    ensures Distinct(ids) ==> Distinct(SequentialWindow(ids, start, n))
    ensures forall x :: x in SequentialWindow(ids, start, n) ==> x in ids
  {
    SequentialWindowDistinct(ids, start, n);
    var r := SequentialWindow(ids, start, n);
    forall x | x in r
      ensures x in ids
    {
      var i :| 0 <= i < |r| && r[i] == x;
      assert r[i] == ids[(start + i) % |ids|];
    }
  }

  lemma DistinctPrefix(s: seq<string>, p: seq<string>)
    requires |p| <= |s| && p == s[..|p|]
    ensures Distinct(s) ==> Distinct(p)
  {
  }

  lemma PrefixSubMultiset(s: seq<string>, p: seq<string>)
    requires |p| <= |s| && p == s[..|p|]
    ensures multiset(p) <= multiset(s)
  {
    assert s == p + s[|p|..];
  }

  /** A sub-multiset of a list without repeats has no repeats either. */
  lemma SubMultisetDistinct(s: seq<string>, r: seq<string>)
    requires multiset(r) <= multiset(s)
    ensures Distinct(s) ==> Distinct(r)
  {
    if Distinct(s) {
      forall i, j | 0 <= i < j < |r|
        ensures r[i] != r[j]
      {
        if r[i] == r[j] {
          assert multiset{r[i], r[j]} <= multiset(r) by {
            assert r == r[..i] + [r[i]] + r[i + 1..j] + [r[j]] + r[j + 1..];
          }
          assert multiset(s)[r[i]] >= 2;
          DistinctCountOne(s, r[i]);
        }
      }
    }
  }

  lemma {:induction false} DistinctCountOne(s: seq<string>, x: string)
    requires Distinct(s)
    ensures multiset(s)[x] <= 1
  {
    if s != [] {
      assert Distinct(s[1..]);
      DistinctCountOne(s[1..], x);
      assert s == [s[0]] + s[1..];
      if s[0] == x {
        assert x !in s[1..];
      }
    }
  }

  /** How many times `range(n)` iterates. */
  function Clamp(n: int): nat {
    if n > 0 then n else 0
  }

  /** `n_trajs_to_sample_per_subenv`, or 1 in evaluation. */
  function PerId(nTrajs: int, eval: bool): int {
    if eval then 1 else nTrajs
  }

  /** `n` trajectories of one sub-environment, indices `0 .. n-1`. */
  function Trajs(envName: string, id: string, n: int): (r: seq<Job>)
    ensures |r| == Clamp(n)
    ensures forall t :: 0 <= t < |r| ==> r[t] == Job(envName, id, t)
    decreases Clamp(n)
  {
    if n <= 0 then [] else Trajs(envName, id, n - 1) + [Job(envName, id, n - 1)]
  }

  /**
   * The inner `for traj_id in range(n)` loop: `n` puts under one key, the
   * last one carrying index `n - 1`.
   */
  function EnqueueTrajs(q: Queue, envName: string, id: string, n: int): (r: Queue)
    requires Valid(q)
    ensures Valid(r)
    ensures Fifo(r, SubenvKey(envName, id)) == Fifo(q, SubenvKey(envName, id)) + Trajs(envName, id, n)
    ensures forall k :: k != SubenvKey(envName, id) ==> Fifo(r, k) == Fifo(q, k)
    ensures Total(r) == Total(q) + Clamp(n)
    decreases Clamp(n)
  {
    if n <= 0 then q
    else
      var q' := EnqueueTrajs(q, envName, id, n - 1);
      assert Fifo(q', SubenvKey(envName, id)) + [Job(envName, id, n - 1)]
          == Fifo(q, SubenvKey(envName, id)) + Trajs(envName, id, n);
      Put(q', SubenvKey(envName, id), Job(envName, id, n - 1))
  }

  /** The `for subenv_id in subenv_ids` loop of one environment. */
  function EnqueueIds(q: Queue, envName: string, ids: seq<string>, n: int): (r: Queue)
    requires Valid(q)
    ensures Valid(r)
    ensures Total(r) == Total(q) + |ids| * Clamp(n)
    ensures forall k :: (forall id :: id in ids ==> k != SubenvKey(envName, id)) ==> Fifo(r, k) == Fifo(q, k)
    decreases |ids|
  {
    if ids == [] then q
    else
      var q' := EnqueueTrajs(q, envName, ids[0], n);
      var r := EnqueueIds(q', envName, ids[1..], n);
      ScaledSum(1, |ids[1..]|, |ids|, Clamp(n), Total(q), Total(q'), Total(r));
      assert forall id :: id in ids[1..] ==> id in ids;
      r
  }

  /** Each chosen id of one environment has its trajectories, in index order, at the back of its own FIFO. */
  lemma {:induction false} EnqueueIdsFifos(q: Queue, envName: string, ids: seq<string>, n: int)
    requires Valid(q) && Distinct(ids)
    ensures forall id :: id in ids ==>
              Fifo(EnqueueIds(q, envName, ids, n), SubenvKey(envName, id)) == Fifo(q, SubenvKey(envName, id)) + Trajs(envName, id, n)
    decreases |ids|
  {
    if ids != [] {
      var q' := EnqueueTrajs(q, envName, ids[0], n);
      var r := EnqueueIds(q', envName, ids[1..], n);
      assert Distinct(ids[1..]);
      EnqueueIdsFifos(q', envName, ids[1..], n);
      forall id | id in ids
        ensures Fifo(r, SubenvKey(envName, id)) == Fifo(q, SubenvKey(envName, id)) + Trajs(envName, id, n)
      {
        if id == ids[0] {
          assert forall id' :: id' in ids[1..] ==> id' != id;
        } else {
          assert id in ids[1..];
        }
      }
    }
  }

  /**
   * One environment of `env_configs_dict`: its name, its sub-environment
   * ids in `histories` order, its per-iteration allocation, and the order a
   * `random.shuffle` of those ids produces.
   */
  datatype EnvEntry = EnvEntry(name: string, ids: seq<string>, allocation: int, shuffled: seq<string>)

  ghost predicate Shuffles(entries: seq<EnvEntry>) {
    forall i :: 0 <= i < |entries| ==> multiset(entries[i].shuffled) == multiset(entries[i].ids)
  }

  /** Evaluation iterations sample 10 sub-environments with one trajectory each. */
  const EvalSubenvs := 10

  /** The ids `populate` chooses for one environment. */
  function Chosen(e: EnvEntry, scheme: Scheme, iterStep: int, eval: bool): Result<seq<string>, SelectError>
    requires multiset(e.shuffled) == multiset(e.ids)
  {
    Select(scheme, e.ids, if eval then EvalSubenvs else e.allocation, iterStep, e.allocation, e.shuffled)
  }

  /** How many ids the environments choose in total, all choices succeeding. */
  ghost function ChosenCount(entries: seq<EnvEntry>, scheme: Scheme, iterStep: int, eval: bool): nat
    requires Shuffles(entries)
    requires forall i :: 0 <= i < |entries| ==> Chosen(entries[i], scheme, iterStep, eval).Success?
  {
    if entries == [] then 0
    else |Chosen(entries[0], scheme, iterStep, eval).value| + ChosenCount(entries[1..], scheme, iterStep, eval)
  }

  /**
   * `populate(iter_step, eval)`: every chosen id of every environment gets
   * its trajectories queued, `n_trajs_to_sample_per_subenv` of them, or one
   * in evaluation; the first environment whose selection fails ends it.
   */
  function PopulateWith(q: Queue, entries: seq<EnvEntry>, scheme: Scheme, nTrajs: int, iterStep: int, eval: bool): (r: Result<Queue, SelectError>)
    requires Valid(q) && Shuffles(entries)
    ensures r.Success? <==> forall i :: 0 <= i < |entries| ==> Chosen(entries[i], scheme, iterStep, eval).Success?
    ensures r.Success? ==> Valid(r.value)
    ensures r.Failure? ==> exists i :: 0 <= i < |entries| && Chosen(entries[i], scheme, iterStep, eval) == Failure(r.error)
    decreases |entries|
  {
    if entries == [] then Success(q)
    else
      var perId := PerId(nTrajs, eval);
      match Chosen(entries[0], scheme, iterStep, eval)
      case Failure(err) => Failure(err)
      case Success(ids) =>
        var q' := EnqueueIds(q, entries[0].name, ids, perId);
        AllChosenShift(entries, scheme, iterStep, eval);
        var r := PopulateWith(q', entries[1..], scheme, nTrajs, iterStep, eval);
        if r.Failure? then FailureShift(entries, scheme, iterStep, eval, r.error); r else r
  }

  /** Every environment chooses successfully iff the first does and every later one does. */
  lemma AllChosenShift(entries: seq<EnvEntry>, scheme: Scheme, iterStep: int, eval: bool)
    requires Shuffles(entries) && entries != []
    ensures Shuffles(entries[1..])
    ensures (forall i :: 0 <= i < |entries| ==> Chosen(entries[i], scheme, iterStep, eval).Success?) <==>
              Chosen(entries[0], scheme, iterStep, eval).Success? &&
              forall i :: 0 <= i < |entries[1..]| ==> Chosen(entries[1..][i], scheme, iterStep, eval).Success?
  {
    assert forall i :: 1 <= i < |entries| ==> entries[i] == entries[1..][i - 1];
  }

  /** A failing later environment is a failing environment of the whole list. */
  lemma FailureShift(entries: seq<EnvEntry>, scheme: Scheme, iterStep: int, eval: bool, err: SelectError)
    requires Shuffles(entries) && entries != []
    requires Shuffles(entries[1..])
    requires exists i :: 0 <= i < |entries[1..]| && Chosen(entries[1..][i], scheme, iterStep, eval) == Failure(err)
    ensures exists i :: 0 <= i < |entries| && Chosen(entries[i], scheme, iterStep, eval) == Failure(err)
  {
    var i :| 0 <= i < |entries[1..]| && Chosen(entries[1..][i], scheme, iterStep, eval) == Failure(err);
    assert entries[i + 1] == entries[1..][i];
  }

  /**
   * `populate(iter_step, eval)` reading the scheme by name: an unknown name
   * fails at the first environment, so only when there is one.
   */
  function Populate(q: Queue, entries: seq<EnvEntry>, schemeName: string, nTrajs: int, iterStep: int, eval: bool): (r: Result<Queue, SelectError>)
    requires Valid(q) && Shuffles(entries)
    ensures entries == [] ==> r == Success(q)
    ensures entries != [] && ParseScheme(schemeName).Failure? ==> r == Failure(UnknownScheme(schemeName))
    ensures ParseScheme(schemeName).Success? ==> r == PopulateWith(q, entries, ParseScheme(schemeName).value, nTrajs, iterStep, eval)
  {
    if entries == [] then Success(q)
    else
      var scheme :- ParseScheme(schemeName);
      PopulateWith(q, entries, scheme, nTrajs, iterStep, eval)
  }

  /**
   * `populate` queues exactly the planned work: each chosen id contributes
   * `n_trajs_to_sample_per_subenv` trajectories, or one in evaluation.
   */
  lemma {:induction false} PopulateTotal(q: Queue, entries: seq<EnvEntry>, scheme: Scheme, nTrajs: int, iterStep: int, eval: bool)
    requires Valid(q) && Shuffles(entries)
    requires PopulateWith(q, entries, scheme, nTrajs, iterStep, eval).Success?
    ensures Total(PopulateWith(q, entries, scheme, nTrajs, iterStep, eval).value) ==
              Total(q) + ChosenCount(entries, scheme, iterStep, eval) * Clamp(PerId(nTrajs, eval))
    decreases |entries|
  {
    var c := Clamp(PerId(nTrajs, eval));
    var total := ChosenCount(entries, scheme, iterStep, eval);
    var z := Total(PopulateWith(q, entries, scheme, nTrajs, iterStep, eval).value);
    if entries == [] {
      assert z == Total(q) && total == 0;
      ScaledSum(0, 0, total, c, Total(q), Total(q), z);
    } else {
      var ids := PopulateStep(q, entries, scheme, nTrajs, iterStep, eval);
      var q' := EnqueueIds(q, entries[0].name, ids, PerId(nTrajs, eval));
      PopulateTotal(q', entries[1..], scheme, nTrajs, iterStep, eval);
      var rest := ChosenCount(entries[1..], scheme, iterStep, eval);
      ScaledSum(|ids|, rest, total, c, Total(q), Total(q'), z);
    }
  }

  /**
   * One environment of `populate`: its chosen ids are queued, then the
   * remaining environments are populated into the result.
   */
  lemma PopulateStep(q: Queue, entries: seq<EnvEntry>, scheme: Scheme, nTrajs: int, iterStep: int, eval: bool)
    returns (ids: seq<string>)
    requires Valid(q) && Shuffles(entries) && entries != []
    requires PopulateWith(q, entries, scheme, nTrajs, iterStep, eval).Success?
    ensures Shuffles(entries[1..])
    ensures Chosen(entries[0], scheme, iterStep, eval) == Success(ids)
    ensures forall i :: 0 <= i < |entries[1..]| ==> Chosen(entries[1..][i], scheme, iterStep, eval).Success?
    ensures ChosenCount(entries, scheme, iterStep, eval) == |ids| + ChosenCount(entries[1..], scheme, iterStep, eval)
    ensures PopulateWith(q, entries, scheme, nTrajs, iterStep, eval)
            == PopulateWith(EnqueueIds(q, entries[0].name, ids, PerId(nTrajs, eval)), entries[1..], scheme, nTrajs, iterStep, eval)
  {
    ids := Chosen(entries[0], scheme, iterStep, eval).value;
    assert forall i :: 0 <= i < |entries[1..]| ==> entries[1..][i] == entries[i + 1];
  }

  /**
   * Under an evaluation iteration the sequential cursor still advances by
   * the training allocation, whatever the evaluation window size.
   */
  lemma EvalUsesTrainingCursor(e: EnvEntry, iterStep: int)
    requires multiset(e.shuffled) == multiset(e.ids) && |e.ids| > 0
    ensures Chosen(e, Sequential, iterStep, true) == Success(SequentialWindow(e.ids, Cursor(e.ids, iterStep, e.allocation), EvalSubenvs))
  {
  }
}
