/**
 * Channels and the priority order the channel list is returned in: a stable
 * sort by priority, highest first, as `list.sort(key=..., reverse=True)` does it.
 */
module ChannelOrder {

  /** One data row of the channel file: a creator name and its priority. */
  datatype Channel = Channel(name: string, priority: int)

  /** Priorities never increase from the front of `s` to the back. */
  predicate SortedByPriority(s: seq<Channel>) {
    forall i, j :: 0 <= i < j < |s| ==> s[i].priority >= s[j].priority
  }

  /** The channels of `s` whose priority is `p`, in the order they occur in `s`. */
  function WithPriority(s: seq<Channel>, p: int): (r: seq<Channel>)
    ensures forall x :: x in r <==> x in s && x.priority == p
    ensures |r| <= |s|
  {
    if s == [] then []
    else if s[0].priority == p then [s[0]] + WithPriority(s[1..], p)
    else WithPriority(s[1..], p)
  }

  /** The names of `s`, position by position. */
  function Names(s: seq<Channel>): seq<string> {
    if s == [] then [] else [s[0].name] + Names(s[1..])
  }

  /** Places `c` in front of the first channel of `s` whose priority is not
      above `c`'s, hence in front of every channel of equal priority. */
  function Insert(c: Channel, s: seq<Channel>): (r: seq<Channel>)
    requires SortedByPriority(s)
    ensures SortedByPriority(r)
    ensures |r| == |s| + 1
    ensures multiset(r) == multiset(s) + multiset{c}
    ensures r[0] == c || (|s| > 0 && r[0] == s[0])
  {
    if s == [] || c.priority >= s[0].priority then
      PrependKeepsSorted(c, s);
      [c] + s
    else
      var tail := Insert(c, s[1..]);
      PrependKeepsSorted(s[0], tail);
      assert s == [s[0]] + s[1..];
      [s[0]] + tail
  }

  /** A channel whose priority is at least that of everything in a sorted
      sequence can go in front of it. */
  lemma PrependKeepsSorted(x: Channel, t: seq<Channel>)
    requires SortedByPriority(t)
    requires t == [] || x.priority >= t[0].priority
    ensures SortedByPriority([x] + t)
  {
    var r := [x] + t;
    forall i, j | 0 <= i < j < |r| ensures r[i].priority >= r[j].priority {
      if i == 0 && j > 1 {
        assert r[1].priority >= r[j].priority;
      }
    }
  }

  /** Insertion sort by priority, highest first; the head of the input goes in
      front of every later channel of the same priority. */
  function SortByPriority(s: seq<Channel>): (r: seq<Channel>)
    ensures SortedByPriority(r)
    ensures |r| == |s|
    ensures multiset(r) == multiset(s)
  {
    if s == [] then []
    else
      assert s == [s[0]] + s[1..];
      Insert(s[0], SortByPriority(s[1..]))
  }

  lemma SortSingle(x: Channel)
    ensures SortByPriority([x]) == [x]
  {
    assert [x][1..] == [];
  }

  lemma SortCons(x: Channel, t: seq<Channel>)
    ensures SortByPriority([x] + t) == Insert(x, SortByPriority(t))
  {
    assert ([x] + t)[1..] == t;
  }

  lemma InsertFront(x: Channel, t: seq<Channel>)
    requires SortedByPriority(t)
    requires t == [] || x.priority >= t[0].priority
    ensures Insert(x, t) == [x] + t
  {
  }

  lemma InsertBehind(x: Channel, y: Channel, t: seq<Channel>)
    requires SortedByPriority([y] + t)
    requires x.priority < y.priority
    ensures SortedByPriority(t)
    ensures Insert(x, [y] + t) == [y] + Insert(x, t)
  {
    assert ([y] + t)[1..] == t;
  }

  /** A channel below every priority of a sorted sequence goes to its end. */
  lemma {:induction false} InsertLowest(x: Channel, t: seq<Channel>)
    requires SortedByPriority(t)
    requires forall j :: 0 <= j < |t| ==> x.priority < t[j].priority
    ensures Insert(x, t) == t + [x]
  {
    if t == [] {
      InsertFront(x, t);
    } else {
      assert t == [t[0]] + t[1..];
      InsertBehind(x, t[0], t[1..]);
      InsertLowest(x, t[1..]);
      assert [t[0]] + (t[1..] + [x]) == t + [x];
    }
  }

/** Sorting a channel in front of an already sorted run of higher priority
      moves it to the end. */
  lemma SortBehindSorted(x: Channel, t: seq<Channel>)
    requires SortByPriority(t) == t
    requires forall j :: 0 <= j < |t| ==> x.priority < t[j].priority
    ensures SortByPriority([x] + t) == t + [x]
  {
    SortCons(x, t);
    InsertLowest(x, t);
  }

  lemma {:induction false} WithPriorityAppend(a: seq<Channel>, b: seq<Channel>, p: int)
    ensures WithPriority(a + b, p) == WithPriority(a, p) + WithPriority(b, p)
  {
    if a == [] {
      assert a + b == b;
    } else {
      assert (a + b)[1..] == a[1..] + b;
      WithPriorityAppend(a[1..], b, p);
    }
  }

  lemma {:induction false} NamesAppend(a: seq<Channel>, b: seq<Channel>)
    ensures Names(a + b) == Names(a) + Names(b)
  {
    if a == [] {
      assert a + b == b;
    } else {
      assert (a + b)[1..] == a[1..] + b;
      NamesAppend(a[1..], b);
    }
  }

  /** Inserting `c` into a sorted sequence keeps every priority class in the
      order of `[c] + s`. */
  lemma {:induction false} InsertKeepsClasses(c: Channel, s: seq<Channel>, p: int)
    requires SortedByPriority(s)
    ensures WithPriority(Insert(c, s), p) == WithPriority([c] + s, p)
  {
    if s != [] && c.priority < s[0].priority {
      var tail := s[1..];
      assert s == [s[0]] + tail;
      InsertKeepsClasses(c, tail, p);
      WithPriorityAppend([s[0]], Insert(c, tail), p);
      WithPriorityAppend([c], tail, p);
      WithPriorityAppend([s[0]], tail, p);
      WithPriorityAppend([c], s, p);
    }
  }

  /** Stability: the sort leaves the channels of each priority in input order. */
  lemma {:induction false} SortIsStable(s: seq<Channel>, p: int)
    ensures WithPriority(SortByPriority(s), p) == WithPriority(s, p)
  {
    if s != [] {
      var x, t := s[0], s[1..];
      assert s == [x] + t;
      var sorted := SortByPriority(t);
      assert SortByPriority(s) == Insert(x, sorted);
      SortIsStable(t, p);
      InsertKeepsClasses(x, sorted, p);
      WithPriorityAppend([x], sorted, p);
      WithPriorityAppend([x], t, p);
    }
  }

  /** Sorting keeps the multiset of names: no name is lost or duplicated. */
  lemma {:induction false} SortKeepsNames(s: seq<Channel>)
    ensures multiset(Names(SortByPriority(s))) == multiset(Names(s))
  {
    if s != [] {
      SortKeepsNames(s[1..]);
      InsertKeepsNames(s[0], SortByPriority(s[1..]));
    }
  }

  lemma {:induction false} InsertKeepsNames(c: Channel, s: seq<Channel>)
    requires SortedByPriority(s)
    ensures multiset(Names(Insert(c, s))) == multiset(Names(s)) + multiset{c.name}
  {
    if s != [] && c.priority < s[0].priority {
      InsertKeepsNames(c, s[1..]);
    }
  }

  lemma HeadHasClass(s: seq<Channel>)
    requires s != []
    ensures WithPriority(s, s[0].priority) != []
  {
    assert s[0] in WithPriority(s, s[0].priority);
  }

  /** A sorted sequence is determined by its priority classes: two sorted
      sequences with the same channels of every priority, in the same order,
      are equal. Hence the stable sort is the only stable descending order. */
  lemma {:induction false} StableOrderUnique(a: seq<Channel>, b: seq<Channel>)
    requires SortedByPriority(a) && SortedByPriority(b)
    requires forall p :: WithPriority(a, p) == WithPriority(b, p)
    ensures a == b
    decreases |a|
  {
    if a != [] {
      HeadHasClass(a);
    }
    if b != [] {
      HeadHasClass(b);
    }
    if a == [] || b == [] {
    } else {
      var pa, pb := a[0].priority, b[0].priority;
      assert a[0] in WithPriority(b, pa) by {
        assert a[0] in WithPriority(a, pa);
      }
      assert b[0] in WithPriority(a, pb) by {
        assert b[0] in WithPriority(b, pb);
      }
      assert pa == pb;
      assert WithPriority(a, pa) == [a[0]] + WithPriority(a[1..], pa);
      assert WithPriority(b, pa) == [b[0]] + WithPriority(b[1..], pa);
      assert a[0] == b[0];
      forall p ensures WithPriority(a[1..], p) == WithPriority(b[1..], p) {
        assert WithPriority(a, p) == WithPriority(b, p);
        if p == pa {
          assert WithPriority(a[1..], p) == WithPriority(a, p)[1..];
          assert WithPriority(b[1..], p) == WithPriority(b, p)[1..];
        }
      }
      StableOrderUnique(a[1..], b[1..]);
      assert a == [a[0]] + a[1..];
      assert b == [b[0]] + b[1..];
    }
  }

  /** Any sorted ordering of `s` that keeps each priority class in input order
      is exactly what the sort returns. */
  lemma SortCharacterized(s: seq<Channel>, ranked: seq<Channel>)
    requires SortedByPriority(ranked)
    requires forall p :: WithPriority(ranked, p) == WithPriority(s, p)
    ensures SortByPriority(s) == ranked
  {
    forall p ensures WithPriority(SortByPriority(s), p) == WithPriority(ranked, p) {
      SortIsStable(s, p);
    }
    StableOrderUnique(SortByPriority(s), ranked);
  }
}
