// Stable sorting by key (sort.SliceStable), characterised so that its result is unique.
module StableSort {
  import opened Text

  // A sort key, compared field by field. Handlers use (priority, plugin, handler) after an empty group,
  // providers (type, priority, name) before an empty detail.
  datatype Key = Key(group: string, rank: int, name: string, detail: string)

  predicate KeyLess(a: Key, b: Key) {
    if a.group != b.group then StringLess(a.group, b.group)
    else if a.rank != b.rank then a.rank < b.rank
    else if a.name != b.name then StringLess(a.name, b.name)
    else StringLess(a.detail, b.detail)
  }

  lemma KeyLessTotal(a: Key, b: Key)
    ensures a == b || KeyLess(a, b) || KeyLess(b, a)
  {
    StringLessTotal(a.group, b.group);
    StringLessTotal(a.name, b.name);
    StringLessTotal(a.detail, b.detail);
  }

  lemma KeyLessIrreflexive(a: Key)
    ensures !KeyLess(a, a)
  {
    StringLessIrreflexive(a.detail);
  }

  lemma KeyLessTransitive(a: Key, b: Key, c: Key)
    requires KeyLess(a, b) && KeyLess(b, c)
    ensures KeyLess(a, c)
  {
    if a.group != b.group && b.group != c.group {
      StringLessTransitive(a.group, b.group, c.group);
      if a.group == c.group {
        StringLessIrreflexive(a.group);
      }
    } else if a.group == b.group == c.group && a.rank == b.rank == c.rank {
      if a.name != b.name && b.name != c.name {
        StringLessTransitive(a.name, b.name, c.name);
        if a.name == c.name {
          StringLessIrreflexive(a.name);
        }
      } else if a.name == b.name == c.name {
        StringLessTransitive(a.detail, b.detail, c.detail);
      }
    }
  }

  // ---------------------------------------------------------------- entries

  // Something to sort, such as a registered handler: its owner, its sort key, and the rest of it.
  datatype Entry<T> = Entry(pluginId: string, key: Key, payload: T)

  predicate Sorted<T>(xs: seq<Entry<T>>) {
    forall i, j :: 0 <= i < j < |xs| ==> !KeyLess(xs[j].key, xs[i].key)
  }

  // The entries with one key, in order.
  function Class<T>(xs: seq<Entry<T>>, k: Key): seq<Entry<T>> {
    if xs == [] then []
    else (if xs[0].key == k then [xs[0]] else []) + Class(xs[1..], k)
  }

  ghost predicate SameClasses<T>(xs: seq<Entry<T>>, ys: seq<Entry<T>>) {
    forall k :: Class(xs, k) == Class(ys, k)
  }

  // ys is a stable sort of xs: sorted, and entries that compare equal keep their order.
  ghost predicate IsStableSort<T>(xs: seq<Entry<T>>, ys: seq<Entry<T>>) {
    Sorted(ys) && SameClasses(xs, ys)
  }

  function Insert<T>(x: Entry<T>, xs: seq<Entry<T>>): seq<Entry<T>> {
    if xs == [] then [x]
    else if KeyLess(xs[0].key, x.key) then [xs[0]] + Insert(x, xs[1..])
    else [x] + xs
  }

  function Sort<T>(xs: seq<Entry<T>>): seq<Entry<T>> {
    if xs == [] then [] else Insert(xs[0], Sort(xs[1..]))
  }

  lemma {:induction false} ClassConcat<T>(xs: seq<Entry<T>>, ys: seq<Entry<T>>, k: Key)
    ensures Class(xs + ys, k) == Class(xs, k) + Class(ys, k)
  {
    if xs == [] {
      assert xs + ys == ys;
    } else {
      assert (xs + ys)[1..] == xs[1..] + ys;
      ClassConcat(xs[1..], ys, k);
    }
  }

  lemma {:induction false} ClassMembers<T>(xs: seq<Entry<T>>, k: Key)
    ensures forall e :: e in Class(xs, k) <==> e in xs && e.key == k
  {
    if xs != [] {
      ClassMembers(xs[1..], k);
      assert xs == [xs[0]] + xs[1..];
    }
  }

  lemma ClassEmpty<T>(xs: seq<Entry<T>>, k: Key)
    ensures Class(xs, k) == [] <==> forall e :: e in xs ==> e.key != k
  {
    ClassMembers(xs, k);
    if Class(xs, k) != [] {
      assert Class(xs, k)[0] in Class(xs, k);
    }
  }

  lemma {:induction false} InsertClass<T>(x: Entry<T>, xs: seq<Entry<T>>, k: Key)
    ensures Class(Insert(x, xs), k) == (if x.key == k then [x] else []) + Class(xs, k)
  {
    if xs != [] && KeyLess(xs[0].key, x.key) {
      InsertClass(x, xs[1..], k);
      KeyLessIrreflexive(x.key);
      assert ([xs[0]] + Insert(x, xs[1..]))[1..] == Insert(x, xs[1..]);
    } else {
      assert ([x] + xs)[1..] == xs;
    }
  }

  lemma {:induction false} InsertMembers<T>(x: Entry<T>, xs: seq<Entry<T>>, e: Entry<T>)
    ensures e in Insert(x, xs) <==> e == x || e in xs
  {
    if xs != [] && KeyLess(xs[0].key, x.key) {
      InsertMembers(x, xs[1..], e);
      assert xs == [xs[0]] + xs[1..];
    }
  }

  lemma SortedTail<T>(x: Entry<T>, xs: seq<Entry<T>>)
    requires Sorted(xs) && forall e :: e in xs ==> !KeyLess(e.key, x.key)
    ensures Sorted([x] + xs)
  {
    var ys := [x] + xs;
    forall i, j | 0 <= i < j < |ys|
      ensures !KeyLess(ys[j].key, ys[i].key)
    {
      assert ys[j] == xs[j - 1];
      if i > 0 {
        assert ys[i] == xs[i - 1];
      }
    }
  }

  lemma {:induction false} InsertSorted<T>(x: Entry<T>, xs: seq<Entry<T>>)
    requires Sorted(xs)
    ensures Sorted(Insert(x, xs))
  {
    if xs == [] {
    } else if KeyLess(xs[0].key, x.key) {
      InsertSorted(x, xs[1..]);
      forall e | e in Insert(x, xs[1..])
        ensures !KeyLess(e.key, xs[0].key)
      {
        InsertMembers(x, xs[1..], e);
        if e == x {
          if KeyLess(x.key, xs[0].key) {
            KeyLessTransitive(x.key, xs[0].key, x.key);
            KeyLessIrreflexive(x.key);
          }
        } else {
          var j :| 0 <= j < |xs[1..]| && xs[1..][j] == e;
          assert e == xs[j + 1];
        }
      }
      SortedTail(xs[0], Insert(x, xs[1..]));
    } else {
      forall e | e in xs
        ensures !KeyLess(e.key, x.key)
      {
        if KeyLess(e.key, x.key) && e != xs[0] {
          KeyLessTotal(xs[0].key, e.key);
          if KeyLess(xs[0].key, e.key) {
            KeyLessTransitive(xs[0].key, e.key, x.key);
          }
        }
      }
      SortedTail(x, xs);
    }
  }

  lemma {:induction false} SortIsStable<T>(xs: seq<Entry<T>>)
    ensures IsStableSort(xs, Sort(xs))
  {
    if xs != [] {
      SortIsStable(xs[1..]);
      InsertSorted(xs[0], Sort(xs[1..]));
      forall k
        ensures Class(xs, k) == Class(Sort(xs), k)
      {
        InsertClass(xs[0], Sort(xs[1..]), k);
      }
    }
  }

  lemma HeadInOther<T>(a: seq<Entry<T>>, b: seq<Entry<T>>)
    requires a != [] && SameClasses(a, b)
    ensures a[0] in b
  {
    ClassMembers(a, a[0].key);
    ClassMembers(b, a[0].key);
  }

  // Sorting is determined by the order inside each class of equal keys.
  lemma {:induction false} SortedUnique<T>(a: seq<Entry<T>>, b: seq<Entry<T>>)
    requires Sorted(a) && Sorted(b) && SameClasses(a, b)
    ensures a == b
    decreases |a|
  {
    if a == [] {
      if b != [] {
        HeadInOther(b, a);
      }
    } else {
      HeadInOther(a, b);
      HeadInOther(b, a);
      KeyLessTotal(a[0].key, b[0].key);
      KeyLessIrreflexive(a[0].key);
      var k := a[0].key;
      assert Class(a, k) == Class(b, k);
      assert a[0] == Class(a, k)[0] == Class(b, k)[0] == b[0];
      forall q
        ensures Class(a[1..], q) == Class(b[1..], q)
      {
        assert Class(a, q) == Class(b, q);
        assert Class(a[1..], q) == Class(a, q)[(if k == q then 1 else 0)..];
        assert Class(b[1..], q) == Class(b, q)[(if k == q then 1 else 0)..];
      }
      SortedUnique(a[1..], b[1..]);
      assert a == [a[0]] + a[1..] && b == [b[0]] + b[1..];
    }
  }

  // Any stable sort of xs, however it is computed, is Sort(xs).
  lemma StableSortUnique<T>(xs: seq<Entry<T>>, ys: seq<Entry<T>>)
    ensures IsStableSort(xs, ys) <==> ys == Sort(xs)
  {
    SortIsStable(xs);
    if IsStableSort(xs, ys) {
      SortedUnique(ys, Sort(xs));
    }
  }
}
