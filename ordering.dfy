/** The orders the tracker sorts task lists in, and a stable sort proved against them.
    Python's `list.sort` is stable, so a stable insertion sort yields the same list. */
module Ordering {
  import opened Wrappers
  import opened Calendar
  import opened Parser
  import opened Tasks

  /** `list_tasks` sorts by (priority rank, due date); `daily_summary` by rank alone, with its
      own table that ranks unknown priorities with "low". */
  datatype SortOrder = ListOrder | SummaryOrder

  /** A sort key: a rank, then a due date where an absent one comes after every date. */
  datatype Key = Key(rank: nat, due: Option<Date>)

  /** `{"high": 0, "medium": 1, "low": 2, None: 3}.get(p, 3)`. */
  function ListRank(p: Priority): (r: nat)
    ensures r <= 3 && (r == 3 <==> p.Other?)
  {
    match p
    case High => 0
    case Medium => 1
    case Low => 2
    case Other(_) => 3
  }

  /** `{"high": 0, "medium": 1, "low": 2}.get(p, 2)`. */
  function SummaryRank(p: Priority): (r: nat)
    ensures r <= 2 && (r == 2 <==> p == Low || p.Other?)
  {
    match p
    case High => 0
    case Medium => 1
    case Low => 2
    case Other(_) => 2
  }

  /** The key a task is sorted by. For the list the due date is compared as a date, standing
      for the source's comparison of ISO strings with "9999-99-99" for a missing date. */
  function KeyOf(t: Task, order: SortOrder): Key {
    match order
    case ListOrder => Key(ListRank(t.priority), t.due)
    case SummaryOrder => Key(SummaryRank(t.priority), None)
  }

  /** Due dates in order, a missing one last. */
  predicate DueLe(a: Option<Date>, b: Option<Date>) {
    b.None? || (a.Some? && a.value <= b.value)
  }

  /** Keys compared lexicographically: rank, then due date. */
  predicate KeyLe(a: Key, b: Key) {
    a.rank < b.rank || (a.rank == b.rank && DueLe(a.due, b.due))
  }

  /** The key order is total, and two keys are each at most the other only when equal. */
  lemma KeyLeTotal(a: Key, b: Key)
    ensures KeyLe(a, b) || KeyLe(b, a)
    ensures KeyLe(a, b) && KeyLe(b, a) ==> a == b
  {
  }

  lemma KeyLeTransitive(a: Key, b: Key, c: Key)
    requires KeyLe(a, b) && KeyLe(b, c)
    ensures KeyLe(a, c)
  {
  }

  /** Every task is keyed no later than every task after it. */
  predicate Sorted(s: seq<Task>, order: SortOrder) {
    forall i, j :: 0 <= i < j < |s| ==> KeyLe(KeyOf(s[i], order), KeyOf(s[j], order))
  }

  /** The tasks of `s` whose key is `k`, in their order in `s`. */
  function WithKey(s: seq<Task>, order: SortOrder, k: Key): (r: seq<Task>)
    ensures |r| <= |s|
    ensures forall x :: x in r ==> x in s && KeyOf(x, order) == k
  {
    if s == [] then []
    else if KeyOf(s[0], order) == k then [s[0]] + WithKey(s[1..], order, k)
    else WithKey(s[1..], order, k)
  }

  /** A stable sort: sorted, and the tasks of each key keep their relative order. Because
      every task has some key, this also makes the result a permutation of the input. */
  ghost predicate StablySorts(r: seq<Task>, s: seq<Task>, order: SortOrder) {
    Sorted(r, order) && forall k :: WithKey(r, order, k) == WithKey(s, order, k)
  }

  /** `x` placed before the first task of `s` keyed at or after it. */
  function Insert(x: Task, s: seq<Task>, order: SortOrder): (r: seq<Task>)
    ensures multiset(r) == multiset(s) + multiset{x}
  {
    if s == [] || KeyLe(KeyOf(x, order), KeyOf(s[0], order)) then [x] + s
    else
      assert s == [s[0]] + s[1..];
      [s[0]] + Insert(x, s[1..], order)
  }

  /** Insertion sort from the back: each task goes in front of the sorted rest, before the
      tasks whose key is at least its own, which is what keeps equal keys in input order. */
  function SortBy(s: seq<Task>, order: SortOrder): (r: seq<Task>)
    ensures multiset(r) == multiset(s)
  {
    if s == [] then []
    else
      assert s == [s[0]] + s[1..];
      Insert(s[0], SortBy(s[1..], order), order)
  }

  /** Sorting neither adds nor drops a task. */
  lemma SortBySameMembers(s: seq<Task>, order: SortOrder)
    ensures forall x :: x in SortBy(s, order) <==> x in s
  {
    var r := SortBy(s, order);
    forall x
      ensures x in r <==> x in s
    {
      assert x in r <==> x in multiset(r);
      assert x in s <==> x in multiset(s);
    }
  }

  lemma {:induction false} InsertSorted(x: Task, s: seq<Task>, order: SortOrder)
    requires Sorted(s, order)
    ensures Sorted(Insert(x, s, order), order)
  {
    var kx := KeyOf(x, order);
    if s == [] || KeyLe(kx, KeyOf(s[0], order)) {
      var r := [x] + s;
      forall i, j | 0 <= i < j < |r|
        ensures KeyLe(KeyOf(r[i], order), KeyOf(r[j], order))
      {
        if i == 0 {
          KeyLeTransitive(kx, KeyOf(s[0], order), KeyOf(s[j - 1], order));
        }
      }
    } else {
      InsertSorted(x, s[1..], order);
      var rest := Insert(x, s[1..], order);
      var r := [s[0]] + rest;
      KeyLeTotal(kx, KeyOf(s[0], order));
      forall i, j | 0 <= i < j < |r|
        ensures KeyLe(KeyOf(r[i], order), KeyOf(r[j], order))
      {
        if i == 0 {
          var y := rest[j - 1];
          assert y in multiset(rest);
          assert y == x || y in multiset(s[1..]);
          if y != x {
            var m :| 0 <= m < |s[1..]| && s[1..][m] == y;
            assert s[m + 1] == y;
          }
        }
      }
    }
  }

  lemma {:induction false} InsertWithKey(x: Task, s: seq<Task>, order: SortOrder, k: Key)
    ensures WithKey(Insert(x, s, order), order, k) ==
      (if KeyOf(x, order) == k then [x] else []) + WithKey(s, order, k)
  {
    if s == [] || KeyLe(KeyOf(x, order), KeyOf(s[0], order)) {
      assert ([x] + s)[1..] == s;
    } else {
      InsertWithKey(x, s[1..], order, k);
      assert ([s[0]] + Insert(x, s[1..], order))[1..] == Insert(x, s[1..], order);
      if KeyOf(s[0], order) == k {
        assert KeyOf(x, order) != k by {
          KeyLeTotal(KeyOf(x, order), KeyOf(s[0], order));
        }
      }
    }
  }

  /** `SortBy` is a stable sort. */
  lemma {:induction false} SortByStablySorts(s: seq<Task>, order: SortOrder)
    ensures StablySorts(SortBy(s, order), s, order)
  {
    if s == [] {
    } else {
      SortByStablySorts(s[1..], order);
      InsertSorted(s[0], SortBy(s[1..], order), order);
      forall k
        ensures WithKey(SortBy(s, order), order, k) == WithKey(s, order, k)
      {
        InsertWithKey(s[0], SortBy(s[1..], order), order, k);
      }
    }
  }

  /** A stable sort is unique: any list that stably sorts `s` is `SortBy(s)`. So the model
      agrees with Python's `list.sort`, whatever algorithm that uses. */
  lemma StableSortUnique(r: seq<Task>, r': seq<Task>, s: seq<Task>, order: SortOrder)
    requires StablySorts(r, s, order) && StablySorts(r', s, order)
    ensures r == r'
  {
    SortedSameKeysEqual(r, r', order);
  }

  /** Two sorted lists holding the same tasks of each key, in the same order, are equal. */
  lemma {:induction false} SortedSameKeysEqual(r: seq<Task>, r': seq<Task>, order: SortOrder)
    requires Sorted(r, order) && Sorted(r', order)
    requires forall k :: WithKey(r, order, k) == WithKey(r', order, k)
    ensures r == r'
    decreases |r|
  {
    SameKeysNonEmpty(r, r', order);
    SameKeysNonEmpty(r', r, order);
    if r != [] {
      var a, b := r[0], r'[0];
      var ka, kb := KeyOf(a, order), KeyOf(b, order);
      WithKeyHead(r, order);
      WithKeyHead(r', order);
      assert a in WithKey(r', order, ka);
      assert b in WithKey(r, order, kb);
      LeastKeyFirst(r, order);
      LeastKeyFirst(r', order);
      KeyLeTotal(ka, kb);
      assert ka == kb;
      assert a == b;
      SortedTail(r, order);
      SortedTail(r', order);
      forall k
        ensures WithKey(r[1..], order, k) == WithKey(r'[1..], order, k)
      {
        WithKeyCons(r, order, k);
        WithKeyCons(r', order, k);
        var head := if ka == k then [a] else [];
        assert WithKey(r[1..], order, k) == (head + WithKey(r[1..], order, k))[|head|..];
        assert WithKey(r'[1..], order, k) == (head + WithKey(r'[1..], order, k))[|head|..];
      }
      SortedSameKeysEqual(r[1..], r'[1..], order);
      assert r == [a] + r[1..];
      assert r' == [b] + r'[1..];
    }
  }

  /** A non-empty list has a task of some key, so a list with the same tasks per key is
      non-empty too. */
  lemma SameKeysNonEmpty(r: seq<Task>, r': seq<Task>, order: SortOrder)
    requires forall k :: WithKey(r, order, k) == WithKey(r', order, k)
    ensures r != [] ==> r' != []
  {
    if r != [] {
      WithKeyHead(r, order);
      assert WithKey(r', order, KeyOf(r[0], order)) != [];
    }
  }

  lemma WithKeyCons(r: seq<Task>, order: SortOrder, k: Key)
    requires r != []
    ensures WithKey(r, order, k) == (if KeyOf(r[0], order) == k then [r[0]] else []) + WithKey(r[1..], order, k)
  {
  }

  /** The head of a list is the head of the tasks sharing its key. */
  lemma WithKeyHead(r: seq<Task>, order: SortOrder)
    requires r != []
    ensures WithKey(r, order, KeyOf(r[0], order)) != []
    ensures WithKey(r, order, KeyOf(r[0], order))[0] == r[0]
  {
  }

  /** In a sorted list the head's key is at most the key of every other task. */
  lemma LeastKeyFirst(r: seq<Task>, order: SortOrder)
    requires Sorted(r, order) && r != []
    ensures forall x :: x in r ==> KeyLe(KeyOf(r[0], order), KeyOf(x, order))
  {
    forall x | x in r
      ensures KeyLe(KeyOf(r[0], order), KeyOf(x, order))
    {
      var j :| 0 <= j < |r| && r[j] == x;
      if j == 0 {
        KeyLeTotal(KeyOf(x, order), KeyOf(x, order));
      }
    }
  }

  lemma SortedTail(r: seq<Task>, order: SortOrder)
    requires Sorted(r, order) && r != []
    ensures Sorted(r[1..], order)
  {
  }
}
