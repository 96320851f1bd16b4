/**
 * The keyed work queue of `TrajectoryQueue`: one FIFO of jobs per
 * sub-environment key, `put`, `get`, `non_empty_queues` and
 * `num_trajectories`, taken sequentially.
 *
 * A queue is the list of its keys in insertion order (the order of Python's
 * dict, which decides ties when keys are sorted by backlog) and a map from
 * each key to its FIFO, front first.
 */
module JobQueue {
  import opened Wrappers

  type Key = string

  /** One trajectory to generate: the environment, the sub-environment id and the trajectory index. */
  datatype Job = Job(envName: string, subenvId: string, trajId: int)

  datatype Queue = Queue(keys: seq<Key>, fifos: map<Key, seq<Job>>)

  /** What `get` hands back: the job and the key it came from. */
  datatype Taken = Taken(job: Job, key: Key)

  /** The queue with no keys at all. */
  const Empty := Queue([], map[])

  /** The key list has no repeats and names exactly the keys of the map. */
  ghost predicate Valid(q: Queue) {
    && (forall i, j :: 0 <= i < j < |q.keys| ==> q.keys[i] != q.keys[j])
    && (forall k :: k in q.fifos <==> k in q.keys)
  }

  ghost predicate Distinct(ks: seq<Key>) {
    forall i, j :: 0 <= i < j < |ks| ==> ks[i] != ks[j]
  }

  /** The FIFO under `k`; a key never put to reads as empty. */
  function FifoIn(f: map<Key, seq<Job>>, k: Key): seq<Job> {
    if k in f then f[k] else []
  }

  function Fifo(q: Queue, k: Key): seq<Job> {
    FifoIn(q.fifos, k)
  }

  /** `queue_by_subenv[k].qsize()` */
  function Size(q: Queue, k: Key): nat {
    |Fifo(q, k)|
  }

  /** `get_subenv_key(env_name, subenv_id)` */
  function SubenvKey(envName: string, subenvId: string): (r: Key)
    ensures |r| == |envName| + 1 + |subenvId|
    ensures r[..|envName|] == envName && r[|envName|] == '_' && r[|envName| + 1..] == subenvId
  {
    envName + "_" + subenvId
  }

  /** Within one environment, distinct sub-environment ids get distinct keys. */
  lemma SubenvKeyInjective(envName: string, id1: string, id2: string)
    requires SubenvKey(envName, id1) == SubenvKey(envName, id2)
    ensures id1 == id2
  {
    var k := SubenvKey(envName, id1);
    assert id1 == k[|envName| + 1..];
  }

  /** Across environments keys can collide, since both names may contain `_`. */
  lemma SubenvKeyCollision()
    ensures SubenvKey("a", "b_1") == SubenvKey("a_b", "1")
  {
  }

  /** The backlogs of the keys `ks`, summed. */
  function SumSizes(ks: seq<Key>, f: map<Key, seq<Job>>): nat
  {
    if ks == [] then 0 else |FifoIn(f, ks[0])| + SumSizes(ks[1..], f)
  }

  /** All jobs queued under the keys `ks`. */
  function Bag(ks: seq<Key>, f: map<Key, seq<Job>>): multiset<Job>
  {
    if ks == [] then multiset{} else multiset(FifoIn(f, ks[0])) + Bag(ks[1..], f)
  }

  /** `num_trajectories`: the backlogs of all keys, summed; `BagSize` shows it counts the queued jobs. */
  function Total(q: Queue): nat {
    SumSizes(q.keys, q.fifos)
  }

  /** The number of queued jobs is the size of the bag of queued jobs. */
  lemma {:induction false} BagSize(ks: seq<Key>, f: map<Key, seq<Job>>)
    ensures |Bag(ks, f)| == SumSizes(ks, f)
  {
    if ks != [] {
      BagSize(ks[1..], f);
    }
  }

  /** Replacing one key's FIFO changes the sum by the difference in length and nothing else. */
  lemma {:induction false} SumSizesUpdate(ks: seq<Key>, f: map<Key, seq<Job>>, k: Key, s: seq<Job>)
    requires Distinct(ks)
    ensures k in ks ==> SumSizes(ks, f[k := s]) + |FifoIn(f, k)| == SumSizes(ks, f) + |s|
    ensures k !in ks ==> SumSizes(ks, f[k := s]) == SumSizes(ks, f)
  {
    if ks != [] {
      assert Distinct(ks[1..]);
      assert ks[0] == k ==> k !in ks[1..];
      assert FifoIn(f[k := s], k) == s;
      assert ks[0] != k ==> FifoIn(f[k := s], ks[0]) == FifoIn(f, ks[0]);
      SumSizesUpdate(ks[1..], f, k, s);
    }
  }

  /** Replacing one key's FIFO swaps its jobs in the bag and nothing else. */
  lemma {:induction false} BagUpdate(ks: seq<Key>, f: map<Key, seq<Job>>, k: Key, s: seq<Job>)
    requires Distinct(ks)
    ensures k in ks ==> Bag(ks, f[k := s]) + multiset(FifoIn(f, k)) == Bag(ks, f) + multiset(s)
    ensures k !in ks ==> Bag(ks, f[k := s]) == Bag(ks, f)
  {
    if ks != [] {
      assert Distinct(ks[1..]);
      assert ks[0] == k ==> k !in ks[1..];
      BagUpdate(ks[1..], f, k, s);
      assert Bag(ks, f[k := s]) == multiset(FifoIn(f[k := s], ks[0])) + Bag(ks[1..], f[k := s]);
      assert Bag(ks, f) == multiset(FifoIn(f, ks[0])) + Bag(ks[1..], f);
      if ks[0] == k {
        assert FifoIn(f[k := s], k) == s;
      } else {
        var head := multiset(FifoIn(f, ks[0]));
        assert FifoIn(f[k := s], ks[0]) == FifoIn(f, ks[0]);
        if k in ks {
          assert k in ks[1..];
          calc {
            Bag(ks, f[k := s]) + multiset(FifoIn(f, k));
            head + (Bag(ks[1..], f[k := s]) + multiset(FifoIn(f, k)));
            head + (Bag(ks[1..], f) + multiset(s));
            Bag(ks, f) + multiset(s);
          }
        }
      }
    }
  }

  /** The sum is zero exactly when every listed key is empty. */
  lemma {:induction false} SumSizesZero(ks: seq<Key>, f: map<Key, seq<Job>>)
    ensures SumSizes(ks, f) == 0 <==> forall k :: k in ks ==> |FifoIn(f, k)| == 0
  {
    if ks != [] {
      SumSizesZero(ks[1..], f);
    }
  }

  /**
   * `put(k, job)`: the job joins the back of `k`'s FIFO, which is created
   * when absent; one more job is queued and every other key is unchanged.
   */
  function Put(q: Queue, k: Key, j: Job): (r: Queue)
    requires Valid(q)
    ensures Valid(r)
    ensures Fifo(r, k) == Fifo(q, k) + [j]
    ensures forall k' :: k' != k ==> Fifo(r, k') == Fifo(q, k')
    ensures k in q.fifos ==> r.keys == q.keys
    ensures k !in q.fifos ==> r.keys == q.keys + [k]
    ensures Total(r) == Total(q) + 1
  {
    var fifos := q.fifos[k := Fifo(q, k) + [j]];
    SumSizesUpdate(q.keys, q.fifos, k, Fifo(q, k) + [j]);
    if k in q.fifos then
      Queue(q.keys, fifos)
    else
      SumAppend(q.keys, [k], fifos);
      NewKeyValid(q, k, Fifo(q, k) + [j]);
      Queue(q.keys + [k], fifos)
  }

  /** Adding a key absent from the queue at the end of the key list keeps the queue well formed. */
  lemma NewKeyValid(q: Queue, k: Key, s: seq<Job>)
    requires Valid(q) && k !in q.fifos
    ensures Valid(Queue(q.keys + [k], q.fifos[k := s]))
  {
    assert k !in q.keys;
  }

  /** `put` adds exactly its job to the bag of queued jobs. */
  lemma PutBag(q: Queue, k: Key, j: Job)
    requires Valid(q)
    ensures var r := Put(q, k, j);
            Bag(r.keys, r.fifos) == Bag(q.keys, q.fifos) + multiset{j}
  {
    if k in q.fifos {
      ExtendBag(q, k, j);
    } else {
      assert Fifo(q, k) + [j] == [j];
      NewKeyBag(q, k, j);
    }
  }

  lemma ExtendBag(q: Queue, k: Key, j: Job)
    requires Valid(q) && k in q.fifos
    ensures Bag(q.keys, q.fifos[k := q.fifos[k] + [j]]) == Bag(q.keys, q.fifos) + multiset{j}
  {
    var f' := q.fifos[k := q.fifos[k] + [j]];
    assert k in q.keys;
    BagUpdate(q.keys, q.fifos, k, q.fifos[k] + [j]);
    assert multiset(q.fifos[k] + [j]) == multiset(q.fifos[k]) + multiset{j};
    assert Bag(q.keys, f') + multiset(q.fifos[k]) == Bag(q.keys, q.fifos) + multiset{j} + multiset(q.fifos[k]);
    Cancel(Bag(q.keys, f'), Bag(q.keys, q.fifos) + multiset{j}, multiset(q.fifos[k]));
  }

  lemma NewKeyBag(q: Queue, k: Key, j: Job)
    requires Valid(q) && k !in q.fifos
    ensures Bag(q.keys + [k], q.fifos[k := [j]]) == Bag(q.keys, q.fifos) + multiset{j}
  {
    var f' := q.fifos[k := [j]];
    assert k !in q.keys;
    BagUpdate(q.keys, q.fifos, k, [j]);
    BagAppend(q.keys, [k], f');
    assert Bag([k], f') == multiset{j};
  }

  lemma {:induction false} SumAppend(a: seq<Key>, b: seq<Key>, f: map<Key, seq<Job>>)
    ensures SumSizes(a + b, f) == SumSizes(a, f) + SumSizes(b, f)
  {
    if a != [] {
      assert (a + b)[0] == a[0] && (a + b)[1..] == a[1..] + b;
      SumAppend(a[1..], b, f);
    } else {
      assert a + b == b;
    }
  }

  lemma {:induction false} BagAppend(a: seq<Key>, b: seq<Key>, f: map<Key, seq<Job>>)
    ensures Bag(a + b, f) == Bag(a, f) + Bag(b, f)
  {
    if a != [] {
      assert (a + b)[0] == a[0] && (a + b)[1..] == a[1..] + b;
      BagAppend(a[1..], b, f);
    } else {
      assert a + b == b;
    }
  }

  /** The keys of `ks` with a non-empty FIFO, in order. */
  function NonEmpty(ks: seq<Key>, f: map<Key, seq<Job>>): (r: seq<Key>)
    ensures forall k :: k in r <==> k in ks && |FifoIn(f, k)| > 0
    ensures Distinct(ks) ==> Distinct(r)
  {
    if ks == [] then []
    else if |FifoIn(f, ks[0])| > 0 then [ks[0]] + NonEmpty(ks[1..], f)
    else NonEmpty(ks[1..], f)
  }

  /** Dropping the empty FIFOs keeps the keys of every positive backlog, in order. */
  lemma {:induction false} NonEmptyWithSize(ks: seq<Key>, f: map<Key, seq<Job>>, n: nat)
    requires n > 0
    ensures WithSize(NonEmpty(ks, f), f, n) == WithSize(ks, f, n)
  {
    if ks != [] {
      NonEmptyWithSize(ks[1..], f, n);
      if |FifoIn(f, ks[0])| > 0 {
        var r := [ks[0]] + NonEmpty(ks[1..], f);
        assert r[0] == ks[0] && r[1..] == NonEmpty(ks[1..], f);
      }
    }
  }

  /** Each key's backlog is at least the next one's. */
  ghost predicate SortedBySize(ks: seq<Key>, f: map<Key, seq<Job>>) {
    forall i :: 0 <= i < |ks| - 1 ==> |FifoIn(f, ks[i])| >= |FifoIn(f, ks[i + 1])|
  }

  /** Places `k` after every key whose backlog is at least as large. */
  function InsertBySize(k: Key, s: seq<Key>, f: map<Key, seq<Job>>): seq<Key>
  {
    if s == [] then [k]
    else if |FifoIn(f, s[0])| >= |FifoIn(f, k)| then [s[0]] + InsertBySize(k, s[1..], f)
    else [k] + s
  }

  /** Inserting into a sorted list keeps it sorted; the head is `k` or the old head. */
  lemma {:induction false} InsertBySizeSorted(k: Key, s: seq<Key>, f: map<Key, seq<Job>>)
    requires SortedBySize(s, f)
    ensures SortedBySize(InsertBySize(k, s, f), f)
    ensures InsertBySize(k, s, f)[0] == k || (|s| > 0 && InsertBySize(k, s, f)[0] == s[0])
  {
    if s != [] && |FifoIn(f, s[0])| >= |FifoIn(f, k)| {
      var rest := InsertBySize(k, s[1..], f);
      InsertBySizeSorted(k, s[1..], f);
      var r := [s[0]] + rest;
      assert r == InsertBySize(k, s, f);
      forall i | 0 <= i < |r| - 1 ensures |FifoIn(f, r[i])| >= |FifoIn(f, r[i + 1])| {
        if i > 0 {
          assert r[i] == rest[i - 1] && r[i + 1] == rest[i];
        }
      }
    }
  }

  /** Inserting adds exactly `k`. */
  lemma {:induction false} InsertBySizeElems(k: Key, s: seq<Key>, f: map<Key, seq<Job>>)
    ensures multiset(InsertBySize(k, s, f)) == multiset(s) + multiset{k}
  {
    if s != [] {
      assert s == [s[0]] + s[1..];
      assert multiset(s) == multiset{s[0]} + multiset(s[1..]);
      if |FifoIn(f, s[0])| >= |FifoIn(f, k)| {
        InsertBySizeElems(k, s[1..], f);
        assert multiset([s[0]] + InsertBySize(k, s[1..], f))
               == multiset{s[0]} + multiset(InsertBySize(k, s[1..], f));
      }
    }
  }

  /** The keys of `ks` whose backlog is exactly `n`, in order. */
  function WithSize(ks: seq<Key>, f: map<Key, seq<Job>>, n: nat): seq<Key> {
    if ks == [] then []
    else (if |FifoIn(f, ks[0])| == n then [ks[0]] else []) + WithSize(ks[1..], f, n)
  }

  lemma {:induction false} WithSizeAppend(a: seq<Key>, b: seq<Key>, f: map<Key, seq<Job>>, n: nat)
    ensures WithSize(a + b, f, n) == WithSize(a, f, n) + WithSize(b, f, n)
  {
    if a != [] {
      var head := if |FifoIn(f, a[0])| == n then [a[0]] else [];
      assert (a + b)[0] == a[0] && (a + b)[1..] == a[1..] + b;
      WithSizeAppend(a[1..], b, f, n);
      assert WithSize(a + b, f, n) == head + WithSize(a[1..] + b, f, n);
      assert WithSize(a, f, n) == head + WithSize(a[1..], f, n);
    } else {
      assert a + b == b;
    }
  }

  /** Lists that filter alike still filter alike with the same key appended. */
  lemma WithSizeAppendLast(a: seq<Key>, b: seq<Key>, last: Key, f: map<Key, seq<Job>>)
    requires forall n: nat :: WithSize(a, f, n) == WithSize(b, f, n)
    ensures forall n: nat :: WithSize(a + [last], f, n) == WithSize(b + [last], f, n)
  {
    forall n: nat
      ensures WithSize(a + [last], f, n) == WithSize(b + [last], f, n)
    {
      WithSizeAppend(a, [last], f, n);
      WithSizeAppend(b, [last], f, n);
    }
  }

  /** No key of a list whose backlogs are all below `n` has backlog `n`. */
  lemma {:induction false} WithSizeBelow(s: seq<Key>, f: map<Key, seq<Job>>, n: nat)
    requires forall i :: 0 <= i < |s| ==> |FifoIn(f, s[i])| < n
    ensures WithSize(s, f, n) == []
  {
    if s != [] {
      WithSizeBelow(s[1..], f, n);
    }
  }

  /**
   * Inserting `k` into a sorted list puts it after every key of its own
   * backlog: filtered by backlog, it is as if `k` were appended.
   */
  lemma InsertBySizeStable(k: Key, s: seq<Key>, f: map<Key, seq<Job>>)
    requires SortedBySize(s, f)
    ensures forall n: nat :: WithSize(InsertBySize(k, s, f), f, n) == WithSize(s + [k], f, n)
  {
    forall n: nat
      ensures WithSize(InsertBySize(k, s, f), f, n) == WithSize(s + [k], f, n)
    {
      InsertBySizeStableAt(k, s, f, n);
    }
  }

  lemma {:induction false} InsertBySizeStableAt(k: Key, s: seq<Key>, f: map<Key, seq<Job>>, n: nat)
    requires SortedBySize(s, f)
    ensures WithSize(InsertBySize(k, s, f), f, n) == WithSize(s + [k], f, n)
  {
    if s == [] {
      assert InsertBySize(k, s, f) == [k] == s + [k];
    } else if |FifoIn(f, s[0])| >= |FifoIn(f, k)| {
      assert SortedBySize(s[1..], f);
      InsertBySizeStableAt(k, s[1..], f, n);
      InsertBySizeBehind(k, s, f, n);
    } else {
      InsertBySizeFront(k, s, f, n);
    }
  }

  /** A key placed behind the head keeps the head's filtered position before its own. */
  lemma InsertBySizeBehind(k: Key, s: seq<Key>, f: map<Key, seq<Job>>, n: nat)
    requires s != [] && |FifoIn(f, s[0])| >= |FifoIn(f, k)|
    requires WithSize(InsertBySize(k, s[1..], f), f, n) == WithSize(s[1..] + [k], f, n)
    ensures WithSize(InsertBySize(k, s, f), f, n) == WithSize(s + [k], f, n)
  {
    var rest := InsertBySize(k, s[1..], f);
    var r := [s[0]] + rest;
    assert InsertBySize(k, s, f) == r;
    assert r[0] == s[0] && r[1..] == rest;
    assert (s + [k])[0] == s[0] && (s + [k])[1..] == s[1..] + [k];
  }

  /** A key with a larger backlog than the whole sorted list goes to its front. */
  lemma InsertBySizeFront(k: Key, s: seq<Key>, f: map<Key, seq<Job>>, n: nat)
    requires SortedBySize(s, f) && s != [] && |FifoIn(f, s[0])| < |FifoIn(f, k)|
    ensures WithSize(InsertBySize(k, s, f), f, n) == WithSize(s + [k], f, n)
  {
    var r := [k] + s;
    assert InsertBySize(k, s, f) == r;
    assert r[0] == k && r[1..] == s;
    WithSizeAppend(s, [k], f, n);
    assert [k][1..] == [];
    if |FifoIn(f, k)| == n {
      forall i | 0 <= i < |s|
        ensures |FifoIn(f, s[i])| < n
      {
        SortedPairwise(s, f, 0, i);
      }
      WithSizeBelow(s, f, n);
    }
  }

  /**
   * Python's `sort(key=qsize, reverse=True)`, as an insertion sort: the keys
   * in non-increasing order of backlog, and, the sort being stable, the keys
   * of any one backlog in their order in `ks`.
   */
  function SortBySize(ks: seq<Key>, f: map<Key, seq<Job>>): (r: seq<Key>)
    ensures SortedBySize(r, f)
    ensures multiset(r) == multiset(ks)
    ensures forall n: nat :: WithSize(r, f, n) == WithSize(ks, f, n)
  {
    if ks == [] then []
    else
      var init := ks[..|ks| - 1];
      var last := ks[|ks| - 1];
      assert ks == init + [last];
      InsertBySizeSorted(last, SortBySize(init, f), f);
      InsertBySizeElems(last, SortBySize(init, f), f);
      InsertBySizeStable(last, SortBySize(init, f), f);
      WithSizeAppendLast(SortBySize(init, f), init, last, f);
      InsertBySize(last, SortBySize(init, f), f)
  }

  /** Adjacent order gives order between any two positions. */
  lemma {:induction false} SortedPairwise(ks: seq<Key>, f: map<Key, seq<Job>>, i: int, j: int)
    requires SortedBySize(ks, f) && 0 <= i <= j < |ks|
    ensures |FifoIn(f, ks[i])| >= |FifoIn(f, ks[j])|
    decreases j - i
  {
    if i < j {
      SortedPairwise(ks, f, i + 1, j);
    }
  }

  /** A permutation of a list without repeats has no repeats. */
  lemma DistinctPermutation(a: seq<Key>, b: seq<Key>)
    requires Distinct(a) && multiset(a) == multiset(b)
    ensures Distinct(b)
  {
    forall i, j | 0 <= i < j < |b| ensures b[i] != b[j] {
      if b[i] == b[j] {
        assert multiset(b)[b[i]] >= 2 by {
          assert b == b[..i] + [b[i]] + b[i + 1..j] + [b[j]] + b[j + 1..];
        }
        DistinctCount(a, b[i]);
      }
    }
  }

  /** A key occurs at most once in a list without repeats. */
  lemma {:induction false} DistinctCount(a: seq<Key>, x: Key)
    requires Distinct(a)
    ensures multiset(a)[x] <= 1
  {
    if a != [] {
      assert a == [a[0]] + a[1..];
      DistinctCount(a[1..], x);
      if a[0] == x {
        assert x !in a[1..];
      }
    }
  }

  /**
   * `non_empty_queues()`: exactly the keys with a non-empty FIFO, each once,
   * largest backlog first, keys of equal backlog in insertion order.
   */
  function NonEmptyKeys(q: Queue): (r: seq<Key>)
    requires Valid(q)
    ensures forall k :: k in r <==> k in q.fifos && Size(q, k) > 0
    ensures Distinct(r)
    ensures forall i, j :: 0 <= i < j < |r| ==> Size(q, r[i]) >= Size(q, r[j])
    ensures forall n: nat :: n > 0 ==> WithSize(r, q.fifos, n) == WithSize(q.keys, q.fifos, n)
  {
    var ne := NonEmpty(q.keys, q.fifos);
    var r := SortBySize(ne, q.fifos);
    forall n: nat | n > 0
      ensures WithSize(r, q.fifos, n) == WithSize(q.keys, q.fifos, n)
    {
      NonEmptyWithSize(q.keys, q.fifos, n);
    }
    DistinctPermutation(ne, r);
    forall i, j | 0 <= i < j < |r| ensures Size(q, r[i]) >= Size(q, r[j]) {
      SortedPairwise(r, q.fifos, i, j);
    }
    assert forall k :: k in r <==> k in multiset(r);
    assert forall k :: k in ne <==> k in multiset(ne);
    r
  }

  /**
   * `get(preferred)`: `None` exactly when no job is queued anywhere;
   * otherwise the front job of the preferred key when that key has work,
   * else of the first key in insertion order with the largest backlog.
   * Exactly one job leaves and every other key is unchanged.
   */
  function Get(q: Queue, preferred: Option<Key>): (r: (Option<Taken>, Queue))
    requires Valid(q)
    ensures Valid(r.1)
    ensures r.0.None? <==> Total(q) == 0
    ensures r.0.None? ==> r.1 == q
    ensures r.0.Some? ==>
              var k := r.0.value.key;
              && Size(q, k) > 0
              && r.0.value.job == q.fifos[k][0]
              && r.1 == Queue(q.keys, q.fifos[k := q.fifos[k][1..]])
              && Total(r.1) == Total(q) - 1
    ensures r.0.Some? && preferred.Some? && Size(q, preferred.value) > 0 ==>
              r.0.value.key == preferred.value
    ensures r.0.Some? && !(preferred.Some? && Size(q, preferred.value) > 0) ==>
              forall k :: k in q.fifos ==> Size(q, k) <= Size(q, r.0.value.key)
  {
    var candidates := NonEmptyKeys(q);
    SumSizesZero(q.keys, q.fifos);
    if |candidates| == 0 then
      (None, q)
    else
      var k := if preferred.None? || preferred.value !in candidates then candidates[0] else preferred.value;
      var fifo := q.fifos[k];
      SumSizesUpdate(q.keys, q.fifos, k, fifo[1..]);
      (Some(Taken(fifo[0], k)), Queue(q.keys, q.fifos[k := fifo[1..]]))
  }

  /**
   * Without a usable preferred key, `get` takes the key that was inserted
   * first among those of the largest backlog (the head of the stable sort).
   */
  lemma GetFallbackFirst(q: Queue, preferred: Option<Key>)
    requires Valid(q)
    ensures var r := Get(q, preferred);
            r.0.Some? && !(preferred.Some? && Size(q, preferred.value) > 0) ==>
              var ties := WithSize(q.keys, q.fifos, Size(q, r.0.value.key));
              ties != [] && ties[0] == r.0.value.key
  {
    var c := NonEmptyKeys(q);
    if c != [] {
      var n := Size(q, c[0]);
      assert WithSize(c, q.fifos, n) == [c[0]] + WithSize(c[1..], q.fifos, n);
    }
  }

  /** Taking the front job of a non-empty key removes exactly that job from the bag. */
  lemma PopBag(q: Queue, k: Key)
    requires Valid(q) && Size(q, k) > 0
    ensures Bag(q.keys, q.fifos[k := q.fifos[k][1..]]) + multiset{q.fifos[k][0]} == Bag(q.keys, q.fifos)
  {
    var fifo := q.fifos[k];
    assert k in q.keys;
    BagUpdate(q.keys, q.fifos, k, fifo[1..]);
    HeadTail(fifo);
    CancelTail(Bag(q.keys, q.fifos[k := fifo[1..]]), multiset{fifo[0]}, Bag(q.keys, q.fifos), multiset(fifo[1..]));
  }

  lemma HeadTail(s: seq<Job>)
    requires |s| > 0
    ensures multiset(s) == multiset{s[0]} + multiset(s[1..])
  {
    assert s == [s[0]] + s[1..];
  }

  lemma Cancel(a: multiset<Job>, b: multiset<Job>, c: multiset<Job>)
    requires a + c == b + c
    ensures a == b
  {
    forall e
      ensures a[e] == b[e]
    {
      assert (a + c)[e] == (b + c)[e];
    }
  }

  lemma CancelTail(a: multiset<Job>, x: multiset<Job>, b: multiset<Job>, c: multiset<Job>)
    requires a + (x + c) == b + c
    ensures a + x == b
  {
    forall e
      ensures (a + x)[e] == b[e]
    {
      assert (a + (x + c))[e] == (b + c)[e];
    }
  }

  /** `get` removes exactly the job it returns from the bag of queued jobs. */
  lemma GetBag(q: Queue, preferred: Option<Key>)
    requires Valid(q)
    ensures var r := Get(q, preferred);
            r.0.Some? ==> Bag(r.1.keys, r.1.fifos) + multiset{r.0.value.job} == Bag(q.keys, q.fifos)
  {
    var r := Get(q, preferred);
    if r.0.Some? {
      PopBag(q, r.0.value.key);
    }
  }

  /**
   * Repeated `get`s from the `i`-th onwards, the `n`-th preferring
   * `prefs(n)`, until the queue reports no work.
   */
  function DrainAll(q: Queue, prefs: nat -> Option<Key>, i: nat): seq<Job>
    requires Valid(q)
    decreases Total(q)
  {
    var (taken, q') := Get(q, prefs(i));
    match taken
    case None => []
    case Some(t) => [t.job] + DrainAll(q', prefs, i + 1)
  }

  /** One `get` of the drain: either nothing is queued, or one job leaves and the rest is drained from what remains. */
  lemma DrainStep(q: Queue, prefs: nat -> Option<Key>, i: nat) returns (next: Option<Taken>, q': Queue)
    requires Valid(q)
    ensures next.None? ==> DrainAll(q, prefs, i) == [] && Total(q) == 0 && Bag(q.keys, q.fifos) == multiset{}
    ensures next.Some? ==>
              && Valid(q')
              && Total(q') + 1 == Total(q)
              && DrainAll(q, prefs, i) == [next.value.job] + DrainAll(q', prefs, i + 1)
              && Bag(q'.keys, q'.fifos) + multiset{next.value.job} == Bag(q.keys, q.fifos)
  {
    BagSize(q.keys, q.fifos);
    GetBag(q, prefs(i));
    next, q' := Get(q, prefs(i)).0, Get(q, prefs(i)).1;
  }

  /**
   * No job is lost or duplicated: however the consumers choose their preferred
   * keys, draining hands out exactly the jobs that were queued.
   */
  lemma {:induction false} DrainLosesNothing(q: Queue, prefs: nat -> Option<Key>, i: nat)
    requires Valid(q)
    ensures multiset(DrainAll(q, prefs, i)) == Bag(q.keys, q.fifos)
    ensures |DrainAll(q, prefs, i)| == Total(q)
  {
    DrainBag(q, prefs, i);
    DrainLength(q, prefs, i);
  }

  lemma {:induction false} DrainBag(q: Queue, prefs: nat -> Option<Key>, i: nat)
    requires Valid(q)
    ensures multiset(DrainAll(q, prefs, i)) == Bag(q.keys, q.fifos)
    decreases Total(q)
  {
    var next, q' := DrainStep(q, prefs, i);
    if next.Some? {
      DrainBag(q', prefs, i + 1);
      var rest := DrainAll(q', prefs, i + 1);
      assert multiset([next.value.job] + rest) == multiset{next.value.job} + multiset(rest);
      assert multiset(DrainAll(q, prefs, i)) == multiset{next.value.job} + Bag(q'.keys, q'.fifos);
    }
  }

  lemma {:induction false} DrainLength(q: Queue, prefs: nat -> Option<Key>, i: nat)
    requires Valid(q)
    ensures |DrainAll(q, prefs, i)| == Total(q)
    decreases Total(q)
  {
    var next, q' := DrainStep(q, prefs, i);
    if next.Some? {
      DrainLength(q', prefs, i + 1);
      assert |DrainAll(q, prefs, i)| == 1 + |DrainAll(q', prefs, i + 1)|;
    }
  }

  /** A job put under a key with work already queued does not overtake it: FIFO order. */
  lemma PutKeepsFront(q: Queue, k: Key, j: Job)
    requires Valid(q) && Size(q, k) > 0
    ensures var r := Get(Put(q, k, j), Some(k));
            r.0 == Some(Taken(q.fifos[k][0], k))
  {
  }
}
