/** kernel/sched/ub_test.c: `assign_schedule` sorts the task list by period in place.

    The inner loop compares with the element behind the list, so what is sorted is the
    list and that element together. */
module Schedule {

  /** `struct task`; `entry` stands for the function, its argument and its identity. */
  datatype Task = Task(entry: int, stackPos: nat, C: nat, T: nat, B: nat)

  // ---------------------------------------------------------------- specification

  ghost predicate SortedByPeriod(s: seq<Task>) {
    forall i, j :: 0 <= i <= j < |s| ==> s[i].T <= s[j].T
  }

  /** The tasks of period v, in their order. */
  function OfPeriod(s: seq<Task>, v: nat): seq<Task> {
    if s == [] then [] else One(s[0], v) + OfPeriod(s[1..], v)
  }

  function One(x: Task, v: nat): seq<Task> {
    if x.T == v then [x] else []
  }

  /** s' rearranges s and keeps the order of tasks of equal period. */
  ghost predicate StableRearrangement(s: seq<Task>, s': seq<Task>) {
    forall v: nat :: OfPeriod(s', v) == OfPeriod(s, v)
  }

  /** Reference definition: insertion from the back, in front of equal periods. */
  function StableSort(s: seq<Task>): seq<Task> {
    if s == [] then [] else Insert(s[0], StableSort(s[1..]))
  }

  function Insert(x: Task, s: seq<Task>): seq<Task> {
    if s == [] || x.T <= s[0].T then [x] + s else [s[0]] + Insert(x, s[1..])
  }

  lemma {:induction false} InsertFacts(x: Task, s: seq<Task>)
    requires SortedByPeriod(s)
    ensures SortedByPeriod(Insert(x, s)) && StableRearrangement([x] + s, Insert(x, s))
    ensures |Insert(x, s)| == |s| + 1
    ensures Insert(x, s)[0] == x || (s != [] && Insert(x, s)[0] == s[0] && s[0].T < x.T)
  {
    assert ([x] + s)[1..] == s;
    if s != [] && x.T > s[0].T {
      InsertFacts(x, s[1..]);
      assert ([x] + s[1..])[1..] == s[1..];
      assert Insert(x, s)[1..] == Insert(x, s[1..]);
      forall v: nat ensures OfPeriod(Insert(x, s), v) == OfPeriod([x] + s, v) {
        assert OfPeriod(Insert(x, s[1..]), v) == OfPeriod([x] + s[1..], v);
      }
    }
  }

  lemma {:induction false} StableSortFacts(s: seq<Task>)
    ensures SortedByPeriod(StableSort(s)) && StableRearrangement(s, StableSort(s))
    ensures |StableSort(s)| == |s|
  {
    if s != [] {
      var r := StableSort(s[1..]);
      StableSortFacts(s[1..]);
      InsertFacts(s[0], r);
      assert ([s[0]] + r)[1..] == r;
      forall v: nat ensures OfPeriod(StableSort(s), v) == OfPeriod(s, v) {
        assert OfPeriod(r, v) == OfPeriod(s[1..], v);
        assert OfPeriod(StableSort(s), v) == OfPeriod([s[0]] + r, v);
      }
    }
  }

  lemma {:induction false} OfPeriodMember(s: seq<Task>, k: nat)
    requires k < |s|
    ensures OfPeriod(s, s[k].T) != []
  {
    if k > 0 { OfPeriodMember(s[1..], k - 1); }
  }

  lemma {:induction false} OfPeriodOccurs(s: seq<Task>, v: nat)
    requires OfPeriod(s, v) != []
    ensures exists k :: 0 <= k < |s| && s[k].T == v
  {
    if s[0].T != v {
      OfPeriodOccurs(s[1..], v);
      var k :| 0 <= k < |s[1..]| && s[1..][k].T == v;
      assert s[k + 1].T == v;
    }
  }

  lemma Regroup(a: seq<Task>, b: seq<Task>, c: seq<Task>)
    ensures (a + b) + c == a + (b + c)
  {
  }

  lemma {:induction false} OfPeriodAppend(s: seq<Task>, r: seq<Task>, v: nat)
    ensures OfPeriod(s + r, v) == OfPeriod(s, v) + OfPeriod(r, v)
  {
    if s == [] {
      assert s + r == r;
    } else {
      var one, mid, tail := One(s[0], v), OfPeriod(s[1..], v), OfPeriod(r, v);
      assert (s + r)[0] == s[0] && (s + r)[1..] == s[1..] + r;
      assert OfPeriod(s + r, v) == one + OfPeriod(s[1..] + r, v);
      OfPeriodAppend(s[1..], r, v);
      Regroup(one, mid, tail);
    }
  }

  lemma OfPeriodSnoc(s: seq<Task>, x: Task, v: nat)
    ensures OfPeriod(s + [x], v) == OfPeriod(s, v) + One(x, v)
  {
    OfPeriodAppend(s, [x], v);
    assert [x][1..] == [];
    assert OfPeriod([x], v) == One(x, v);
  }

  /** A sorted stable rearrangement is unique, so the two properties say which list comes out. */
  lemma {:induction false} StableSortIsUnique(s: seq<Task>, r: seq<Task>)
    requires SortedByPeriod(s) && SortedByPeriod(r) && StableRearrangement(s, r)
    ensures s == r
  {
    if s == [] || r == [] {
      if s != [] { OfPeriodMember(s, 0); }
      if r != [] { OfPeriodMember(r, 0); }
    } else {
      OfPeriodMember(s, 0);
      OfPeriodMember(r, 0);
      OfPeriodOccurs(r, s[0].T);
      OfPeriodOccurs(s, r[0].T);
      assert s[0].T == r[0].T;
      assert OfPeriod(s, s[0].T)[0] == s[0] && OfPeriod(r, s[0].T)[0] == r[0];
      forall v: nat ensures OfPeriod(r[1..], v) == OfPeriod(s[1..], v) {
        var one := One(s[0], v);
        assert OfPeriod(s, v) == OfPeriod(r, v);
        assert one + OfPeriod(s[1..], v) == one + OfPeriod(r[1..], v);
        assert OfPeriod(s[1..], v) == (one + OfPeriod(s[1..], v))[|one|..];
        assert OfPeriod(r[1..], v) == (one + OfPeriod(r[1..], v))[|one|..];
      }
      StableSortIsUnique(s[1..], r[1..]);
    }
  }

  lemma OfPeriodAround(a: seq<Task>, x: Task, y: Task, b: seq<Task>, v: nat)
    ensures OfPeriod(a + [x] + [y] + b, v) == OfPeriod(a, v) + (One(x, v) + One(y, v)) + OfPeriod(b, v)
  {
    OfPeriodAppend(a + [x] + [y], b, v);
    OfPeriodSnoc(a + [x], y, v);
    OfPeriodSnoc(a, x, v);
    Regroup(OfPeriod(a, v), One(x, v), One(y, v));
  }

  /** Exchanging neighbours of different periods changes no subsequence of equal periods. */
  lemma ExchangeIsStable(s: seq<Task>, j: nat)
    requires j + 1 < |s| && s[j].T != s[j + 1].T
    ensures StableRearrangement(s, s[j := s[j + 1]][j + 1 := s[j]])
  {
    var a, x, y, b := s[..j], s[j], s[j + 1], s[j + 2..];
    assert s == a + [x] + [y] + b;
    assert s[j := y][j + 1 := x] == a + [y] + [x] + b;
    forall v: nat ensures OfPeriod(a + [y] + [x] + b, v) == OfPeriod(a + [x] + [y] + b, v) {
      OfPeriodAround(a, x, y, b, v);
      OfPeriodAround(a, y, x, b, v);
      assert One(x, v) + One(y, v) == One(y, v) + One(x, v);
    }
  }

  lemma MaximalNeighbourStays(own: seq<Task>, x: Task)
    requires forall k :: 0 <= k < |own| ==> own[k].T <= x.T
    ensures StableSort(own + [x]) == StableSort(own) + [x]
  {
    var r, s := StableSort(own + [x]), StableSort(own);
    StableSortFacts(own + [x]);
    StableSortFacts(own);
    forall k | 0 <= k < |s| ensures s[k].T <= x.T {
      OfPeriodMember(s, k);
      OfPeriodOccurs(own, s[k].T);
    }
    forall v: nat ensures OfPeriod(s + [x], v) == OfPeriod(r, v) {
      OfPeriodSnoc(s, x, v);
      OfPeriodSnoc(own, x, v);
    }
    StableSortIsUnique(r, s + [x]);
  }

  lemma StayingNeighbourIsMaximal(own: seq<Task>, x: Task, s: seq<Task>, last: Task)
    requires StableRearrangement(own, s) && StableRearrangement(own + [x], s + [last])
    requires SortedByPeriod(s + [last])
    ensures forall k :: 0 <= k < |own| ==> own[k].T <= x.T
  {
    OfPeriodSnoc(s, last, last.T);
    OfPeriodSnoc(own, x, last.T);
    assert OfPeriod(own, last.T) + [last] == OfPeriod(own, last.T) + One(x, last.T);
    assert x.T == last.T;
    forall k | 0 <= k < |own| ensures own[k].T <= x.T {
      OfPeriodMember(own, k);
      OfPeriodOccurs(s, own[k].T);
      var i :| 0 <= i < |s| && s[i].T == own[k].T;
      assert (s + [last])[i] == s[i] && (s + [last])[|s|] == last;
    }
  }

  /** The first n entries come out as the caller's list in order of period exactly when the
      element behind the list has a period at least as long as every one of the list. */
  lemma NeighbourMustBeMaximal(s: seq<Task>, n: nat)
    requires |s| == n + 1
    ensures |StableSort(s)| == n + 1
    ensures StableSort(s)[..n] == StableSort(s[..n]) <==> forall k :: 0 <= k < n ==> s[k].T <= s[n].T
  {
    var r, own := StableSort(s), s[..n];
    StableSortFacts(s);
    StableSortFacts(own);
    assert s == own + [s[n]];
    if forall k :: 0 <= k < n ==> s[k].T <= s[n].T {
      MaximalNeighbourStays(own, s[n]);
      assert (StableSort(own) + [s[n]])[..n] == StableSort(own);
    }
    if r[..n] == StableSort(own) {
      assert r == r[..n] + [r[n]];
      StayingNeighbourIsMaximal(own, s[n], StableSort(own), r[n]);
      assert forall k :: 0 <= k < n ==> s[k] == own[k];
    }
  }

  // ---------------------------------------------------------------- the utilisation test

  /** Sum of the integer quotients C / T of the first n tasks. */
  function QuotientSum(s: seq<Task>, n: nat): nat
    requires n <= |s| && forall k :: 0 <= k < n ==> s[k].T > 0
  {
    if n == 0 then 0 else QuotientSum(s, n - 1) + s[n - 1].C / s[n - 1].T
  }

  /** The verdict on the sorted list. For n >= 2 the source's bound n * ((2 << (1 / n)) - 1) is n,
      because 1 / n is an integer division. */
  predicate PassesTest(s: seq<Task>, n: nat)
    requires n <= |s| && forall k :: 0 <= k < n ==> s[k].T > 0
  {
    n <= 1 || QuotientSum(s, n) + s[n - 1].B / s[n - 1].T <= n * (2 - 1)
  }

  /** Tasks that use their whole period. */
  function FullPeriods(s: seq<Task>, n: nat): (c: nat)
    requires n <= |s|
    ensures c <= n
  {
    if n == 0 then 0 else FullPeriods(s, n - 1) + if s[n - 1].C == s[n - 1].T then 1 else 0
  }

  /** On lists that pass the check C <= T the integer quotients only count full periods, so the
      test never fails because of computation times: it can fail through B of the last task alone. */
  lemma {:induction false} TestCountsFullPeriods(s: seq<Task>, n: nat)
    requires n <= |s| && forall k :: 0 <= k < n ==> s[k].T > 0 && s[k].C <= s[k].T
    ensures QuotientSum(s, n) == FullPeriods(s, n)
    ensures n >= 2 && s[n - 1].B < s[n - 1].T ==> PassesTest(s, n)
  {
    if n > 0 {
      TestCountsFullPeriods(s, n - 1);
      var x := s[n - 1];
      assert x.C / x.T == if x.C == x.T then 1 else 0;
      assert x.B < x.T ==> x.B / x.T == 0;
    }
  }

  /** What the test decides on such a list: it fails exactly if B of the last task fills all the
      periods of that task that full ones leave over, and one more. */
  lemma TestFailsIff(s: seq<Task>, n: nat)
    requires n <= |s| && forall k :: 0 <= k < n ==> s[k].T > 0 && s[k].C <= s[k].T
    ensures n >= 2 ==> (PassesTest(s, n) <==> s[n - 1].B < (n + 1 - FullPeriods(s, n)) * s[n - 1].T)
    ensures n < 2 ==> PassesTest(s, n)
  {
    if n >= 2 {
      TestCountsFullPeriods(s, n);
      QuotientBelow(s[n - 1].B, s[n - 1].T, n + 1 - FullPeriods(s, n));
    }
  }

  lemma QuotientBelow(b: nat, t: nat, k: nat)
    requires t > 0
    ensures b / t < k <==> b < k * t
  {
    var q := b / t;
    if q < k { assert (q + 1) * t <= k * t; } else { assert k * t <= q * t; }
  }

  /** Sorting brings in no task that was not there. */
  lemma SortedTaskIsThere(s: seq<Task>, k: nat)
    requires k < |s|
    ensures |StableSort(s)| == |s| && StableSort(s)[k] in s
  {
    var r := StableSort(s);
    StableSortFacts(s);
    OfPeriodHas(r, k);
    OfPeriodIsThere(s, r[k].T, r[k]);
  }

  lemma {:induction false} OfPeriodHas(s: seq<Task>, k: nat)
    requires k < |s|
    ensures s[k] in OfPeriod(s, s[k].T)
  {
    if k > 0 { OfPeriodHas(s[1..], k - 1); }
  }

  lemma {:induction false} OfPeriodIsThere(s: seq<Task>, v: nat, x: Task)
    requires x in OfPeriod(s, v)
    ensures x in s
  {
    if x !in One(s[0], v) { OfPeriodIsThere(s[1..], v, x); }
  }

  // ---------------------------------------------------------------- implementation

  /** Every element from index k on is in its final place. */
  ghost predicate InPlaceFrom(s: seq<Task>, k: int) {
    forall p, q :: 0 <= p <= q < |s| && k <= q ==> s[p].T <= s[q].T
  }

  ghost predicate GreatestSoFar(s: seq<Task>, j: nat)
    requires j < |s|
  {
    forall p :: 0 <= p <= j ==> s[p].T <= s[j].T
  }

  function Exchanged(s: seq<Task>, j: nat): seq<Task>
    requires j + 1 < |s|
  {
    if s[j].T > s[j + 1].T then s[j := s[j + 1]][j + 1 := s[j]] else s
  }

  lemma ExchangeStep(s: seq<Task>, j: nat, k: nat)
    requires j + 1 < |s| && 0 < k && InPlaceFrom(s, k) && GreatestSoFar(s, j)
    requires j + 1 >= k ==> InPlaceFrom(s, k - 1)
    ensures var s' := Exchanged(s, j);
            && InPlaceFrom(s', k) && GreatestSoFar(s', j + 1) && StableRearrangement(s, s')
            && (j + 2 >= k ==> InPlaceFrom(s', k - 1))
  {
    if s[j].T > s[j + 1].T {
      ExchangeIsStable(s, j);
    }
  }

  /** n passes over the list and the element behind it sort all n + 1 of them. */
  method ExchangeSort(tasks: array<Task>, n: nat)
    requires n < tasks.Length
    modifies tasks
    ensures tasks[..n + 1] == StableSort(old(tasks[..n + 1]))
    ensures tasks[n + 1..] == old(tasks[n + 1..])
  {
    ghost var s := tasks[..n + 1];
    for i := 0 to n
      invariant tasks[n + 1..] == old(tasks[n + 1..])
      invariant StableRearrangement(s, tasks[..n + 1])
      invariant InPlaceFrom(tasks[..n + 1], n + 1 - i)
    {
      for j := 0 to n
        invariant tasks[n + 1..] == old(tasks[n + 1..])
        invariant StableRearrangement(s, tasks[..n + 1])
        invariant InPlaceFrom(tasks[..n + 1], n + 1 - i) && GreatestSoFar(tasks[..n + 1], j)
        invariant j + 1 >= n + 1 - i ==> InPlaceFrom(tasks[..n + 1], n - i)
      {
        ghost var before := tasks[..n + 1];
        ExchangeStep(before, j, n + 1 - i);
        if tasks[j].T > tasks[j + 1].T {
          tasks[j], tasks[j + 1] := tasks[j + 1], tasks[j];
        }
        assert tasks[..n + 1] == Exchanged(before, j);
      }
    }
    StableSortFacts(s);
    StableSortIsUnique(StableSort(s), tasks[..n + 1]);
  }

  /** The sum that the test compares with its bound. */
  method Utilisation(tasks: array<Task>, n: nat) returns (u: nat)
    requires 0 < n <= tasks.Length && forall k :: 0 <= k < n ==> tasks[k].T > 0
    ensures u == QuotientSum(tasks[..], n) + tasks[n - 1].B / tasks[n - 1].T
  {
    u := 0;
    for i := 0 to n
      invariant u == QuotientSum(tasks[..], i) + if i == n then tasks[n - 1].B / tasks[n - 1].T else 0
    {
      u := u + tasks[i].C / tasks[i].T;
      if i == n - 1 {
        u := u + tasks[i].B / tasks[i].T;
      }
    }
  }

  /** `assign_schedule`. A list of fewer than two tasks is accepted untouched. */
  method AssignSchedule(tasks: array<Task>, n: nat) returns (ok: bool)
    requires n <= tasks.Length && (n >= 2 ==> n < tasks.Length)
    requires n >= 2 ==> forall k :: 0 <= k <= n ==> tasks[k].T > 0
    modifies tasks
    ensures n < 2 ==> ok && tasks[..] == old(tasks[..])
    ensures n >= 2 ==> tasks[..n + 1] == StableSort(old(tasks[..n + 1])) && tasks[n + 1..] == old(tasks[n + 1..])
    ensures n >= 2 ==> (forall k :: 0 <= k < n ==> tasks[k].T > 0) && ok == PassesTest(tasks[..], n)
  {
    if n == 0 || n == 1 {
      return true;
    }
    ghost var s := tasks[..n + 1];
    ExchangeSort(tasks, n);
    StableSortFacts(s);
    forall k | 0 <= k <= n ensures tasks[k].T > 0 {
      assert tasks[k] == tasks[..n + 1][k];
      OfPeriodMember(StableSort(s), k);
      OfPeriodOccurs(s, tasks[k].T);
    }
    var u := Utilisation(tasks, n);
    ok := u <= n * (2 - 1);
  }
}
