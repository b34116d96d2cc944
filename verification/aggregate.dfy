/** The aggregation each processor applies to its two record lists: valid
    records are grouped by (SKU, name) with quantities summed and sorted by
    SKU; invalid records are only sorted by product name. */
module Aggregate {
  import opened Seqs
  import opened StrOrder
  import opened Orders

  /** The grouping key of a valid record. */
  type Key = (string, string)

  function KeyOf(v: ValidLine): Key {
    (v.sku, v.name)
  }

  /** The order of grouped keys: by SKU, then by name. */
  predicate KeyLess(a: Key, b: Key) {
    Less(a.0, b.0) || (a.0 == b.0 && Less(a.1, b.1))
  }

  lemma KeyLessIrreflexive(a: Key)
    ensures !KeyLess(a, a)
  {
    LessIrreflexive(a.0);
    LessIrreflexive(a.1);
  }

  lemma KeyLessTransitive(a: Key, b: Key, c: Key)
    requires KeyLess(a, b) && KeyLess(b, c)
    ensures KeyLess(a, c)
  {
    if Less(a.0, b.0) && Less(b.0, c.0) {
      LessTransitive(a.0, b.0, c.0);
    } else if a.0 == b.0 == c.0 {
      LessTransitive(a.1, b.1, c.1);
    }
  }

  lemma KeyLessTrichotomy(a: Key, b: Key)
    ensures a == b || KeyLess(a, b) || KeyLess(b, a)
    ensures !(KeyLess(a, b) && KeyLess(b, a))
  {
    LessTrichotomy(a.0, b.0);
    LessTrichotomy(a.1, b.1);
  }

  /** The keys occurring in a list of valid records. */
  function Keys(s: seq<ValidLine>): set<Key> {
    set v | v in s :: KeyOf(v)
  }

  lemma KeysCons(a: ValidLine, s: seq<ValidLine>)
    ensures Keys([a] + s) == {KeyOf(a)} + Keys(s)
  {
    assert forall v | v in [a] + s :: v == a || v in s;
  }

  lemma KeysConcat(s: seq<ValidLine>, u: seq<ValidLine>)
    ensures Keys(s + u) == Keys(s) + Keys(u)
  {
    assert forall v | v in s + u :: v in s || v in u;
  }

  /** Every key of `s` sorts after `lo`. */
  predicate Above(lo: Key, s: seq<ValidLine>) {
    forall k | k in Keys(s) :: KeyLess(lo, k)
  }

  /** Strictly increasing keys: no key twice, ascending by SKU then name. */
  predicate Ordered(t: seq<ValidLine>) {
    forall i, j | 0 <= i < j < |t| :: KeyLess(KeyOf(t[i]), KeyOf(t[j]))
  }

  lemma OrderedCons(a: ValidLine, s: seq<ValidLine>)
    ensures Ordered([a] + s) <==> Above(KeyOf(a), s) && Ordered(s)
  {
    var t := [a] + s;
    assert forall j | 1 <= j < |t| :: t[j] == s[j - 1];
    if Above(KeyOf(a), s) {
      forall j | 1 <= j < |t|
        ensures KeyLess(KeyOf(a), KeyOf(t[j]))
      {
        assert KeyOf(s[j - 1]) in Keys(s);
      }
    }
    if Ordered(t) {
      forall k | k in Keys(s)
        ensures KeyLess(KeyOf(a), k)
      {
        var v :| v in s && KeyOf(v) == k;
        var j :| 0 <= j < |s| && s[j] == v;
        assert t[0] == a && t[j + 1] == v;
        assert KeyLess(KeyOf(t[0]), KeyOf(t[j + 1]));
      }
      forall i, j | 0 <= i < j < |s|
        ensures KeyLess(KeyOf(s[i]), KeyOf(s[j]))
      {
        assert t[i + 1] == s[i] && t[j + 1] == s[j];
      }
    }
  }

  /** Total quantity of the records of `s` with key `k`. */
  function SumFor(s: seq<ValidLine>, k: Key): int {
    if |s| == 0 then 0
    else (if KeyOf(s[0]) == k then s[0].quantity else 0) + SumFor(s[1..], k)
  }

  lemma {:induction false} SumForAbsent(s: seq<ValidLine>, k: Key)
    requires k !in Keys(s)
    ensures SumFor(s, k) == 0
  {
    if |s| > 0 {
      KeysCons(s[0], s[1..]);
      assert s == [s[0]] + s[1..];
      SumForAbsent(s[1..], k);
    }
  }

  lemma {:induction false} SumForConcat(s: seq<ValidLine>, u: seq<ValidLine>, k: Key)
    ensures SumFor(s + u, k) == SumFor(s, k) + SumFor(u, k)
  {
    if |s| > 0 {
      assert (s + u)[1..] == s[1..] + u;
      SumForConcat(s[1..], u, k);
    } else {
      assert s + u == u;
    }
  }

  /** In an ordered table the row with key `k` holds all of `k`'s quantity. */
  lemma {:induction false} RowHoldsSum(t: seq<ValidLine>, i: nat)
    requires Ordered(t) && i < |t|
    ensures SumFor(t, KeyOf(t[i])) == t[i].quantity
  {
    var s := t[1..];
    assert t == [t[0]] + s;
    OrderedCons(t[0], s);
    KeyLessIrreflexive(KeyOf(t[0]));
    if i == 0 {
      SumForAbsent(s, KeyOf(t[0]));
    } else {
      assert s[i - 1] == t[i];
      RowHoldsSum(s, i - 1);
    }
  }

  /** Adds one record to an ordered table: into the row with its key when
      there is one, else as a new row in key position. */
  function Insert(t: seq<ValidLine>, x: ValidLine): (r: seq<ValidLine>)
    ensures Keys(r) == Keys(t) + {KeyOf(x)}
  {
    if |t| == 0 then [x]
    else
      var s := t[1..];
      assert t == [t[0]] + s;
      KeysCons(t[0], s);
      if KeyOf(t[0]) == KeyOf(x) then
        KeysCons(t[0].(quantity := t[0].quantity + x.quantity), s);
        [t[0].(quantity := t[0].quantity + x.quantity)] + s
      else if KeyLess(KeyOf(x), KeyOf(t[0])) then
        KeysCons(x, t);
        [x] + t
      else
        KeysCons(t[0], Insert(s, x));
        [t[0]] + Insert(s, x)
  }

  lemma {:induction false} InsertOrdered(t: seq<ValidLine>, x: ValidLine)
    requires Ordered(t)
    ensures Ordered(Insert(t, x))
  {
    if |t| > 0 {
      var s := t[1..];
      assert t == [t[0]] + s;
      OrderedCons(t[0], s);
      var a, b := KeyOf(t[0]), KeyOf(x);
      if a == b {
        OrderedCons(t[0].(quantity := t[0].quantity + x.quantity), s);
      } else if KeyLess(b, a) {
        NewSmallestKey(t, x);
      } else {
        KeyLessTrichotomy(a, b);
        InsertOrdered(s, x);
        OrderedCons(t[0], Insert(s, x));
      }
    }
  }

  /** A key below the first row of an ordered table opens it. */
  lemma NewSmallestKey(t: seq<ValidLine>, x: ValidLine)
    requires Ordered(t) && |t| > 0 && KeyLess(KeyOf(x), KeyOf(t[0]))
    ensures Ordered([x] + t)
  {
    var s := t[1..];
    assert t == [t[0]] + s;
    OrderedCons(t[0], s);
    KeysCons(t[0], s);
    forall k | k in Keys(t)
      ensures KeyLess(KeyOf(x), k)
    {
      if k != KeyOf(t[0]) {
        KeyLessTransitive(KeyOf(x), KeyOf(t[0]), k);
      }
    }
    OrderedCons(x, t);
  }

  lemma {:induction false} InsertSums(t: seq<ValidLine>, x: ValidLine, k: Key)
    ensures SumFor(Insert(t, x), k) == SumFor(t, k) + (if KeyOf(x) == k then x.quantity else 0)
  {
    if |t| > 0 {
      var s := t[1..];
      if KeyOf(t[0]) != KeyOf(x) && !KeyLess(KeyOf(x), KeyOf(t[0])) {
        InsertSums(s, x, k);
        assert ([t[0]] + Insert(s, x))[1..] == Insert(s, x);
      } else if KeyOf(t[0]) != KeyOf(x) {
        assert ([x] + t)[1..] == t;
      }
    }
  }

  lemma {:induction false} InsertTotal(t: seq<ValidLine>, x: ValidLine)
    ensures Sum(Insert(t, x), ValidQuantity) == Sum(t, ValidQuantity) + x.quantity
  {
    if |t| > 0 {
      var s := t[1..];
      if KeyOf(t[0]) != KeyOf(x) && !KeyLess(KeyOf(x), KeyOf(t[0])) {
        InsertTotal(s, x);
        assert ([t[0]] + Insert(s, x))[1..] == Insert(s, x);
      } else if KeyOf(t[0]) != KeyOf(x) {
        assert ([x] + t)[1..] == t;
      }
    }
  }

  /** Inserts the records one by one into an initially empty table. */
  function Group(lines: seq<ValidLine>): (t: seq<ValidLine>)
    ensures Ordered(t)
    ensures Keys(t) == Keys(lines)
    ensures Sum(t, ValidQuantity) == Sum(lines, ValidQuantity)
  {
    if |lines| == 0 then []
    else
      var t := Group(lines[1..]);
      InsertOrdered(t, lines[0]);
      InsertTotal(t, lines[0]);
      KeysCons(lines[0], lines[1..]);
      assert lines == [lines[0]] + lines[1..];
      Insert(t, lines[0])
  }

  lemma {:induction false} GroupSums(lines: seq<ValidLine>, k: Key)
    ensures SumFor(Group(lines), k) == SumFor(lines, k)
  {
    if |lines| > 0 {
      GroupSums(lines[1..], k);
      InsertSums(Group(lines[1..]), lines[0], k);
    }
  }

  /** `groupby(['Kode SKU', 'Nama Produk'])['Jumlah'].sum()` followed by
      `sort_values('Kode SKU')`: one row per (SKU, name) key present in the
      input, holding the sum of that key's quantities, rows ascending by
      SKU. Rows sharing a SKU appear in name order here; the source's
      unstable sort leaves their order open. */
  function AggregateValid(lines: seq<ValidLine>): (t: seq<ValidLine>)
    ensures forall i, j | 0 <= i < j < |t| :: KeyOf(t[i]) != KeyOf(t[j])
    ensures forall i, j | 0 <= i < j < |t| :: NotAfter(t[i].sku, t[j].sku)
    ensures Keys(t) == Keys(lines)
    ensures forall i | 0 <= i < |t| :: t[i].quantity == SumFor(lines, KeyOf(t[i]))
    ensures Sum(t, ValidQuantity) == Sum(lines, ValidQuantity)
    ensures lines == [] <==> t == []
  {
    var t := Group(lines);
    forall i, j | 0 <= i < j < |t|
      ensures KeyOf(t[i]) != KeyOf(t[j]) && NotAfter(t[i].sku, t[j].sku)
    {
      KeyLessIrreflexive(KeyOf(t[i]));
      NotAfterIsLessOrEqual(t[i].sku, t[j].sku);
    }
    forall i | 0 <= i < |t|
      ensures t[i].quantity == SumFor(lines, KeyOf(t[i]))
    {
      RowHoldsSum(t, i);
      GroupSums(lines, KeyOf(t[i]));
    }
    assert lines != [] ==> KeyOf(lines[0]) in Keys(lines);
    assert t != [] ==> KeyOf(t[0]) in Keys(t);
    t
  }

  /** Two ordered tables with the same keys and the same per-key sums are
      the same table. */
  lemma {:induction false} TableDetermined(t: seq<ValidLine>, u: seq<ValidLine>)
    requires Ordered(t) && Ordered(u) && Keys(t) == Keys(u)
    requires forall k :: SumFor(t, k) == SumFor(u, k)
    ensures t == u
    decreases |t|
  {
    assert t != [] ==> KeyOf(t[0]) in Keys(t);
    assert u != [] ==> KeyOf(u[0]) in Keys(u);
    if t != [] && u != [] {
      var a, b := KeyOf(t[0]), KeyOf(u[0]);
      var t', u' := t[1..], u[1..];
      assert t == [t[0]] + t' && u == [u[0]] + u';
      OrderedCons(t[0], t');
      OrderedCons(u[0], u');
      KeysCons(t[0], t');
      KeysCons(u[0], u');
      // Both first rows carry the least key.
      KeyLessTrichotomy(a, b);
      assert a == b;
      RowHoldsSum(t, 0);
      RowHoldsSum(u, 0);
      assert t[0] == u[0];
      KeyLessIrreflexive(a);
      assert Keys(t') == Keys(t) - {a};
      assert Keys(u') == Keys(u) - {a};
      forall k
        ensures SumFor(t', k) == SumFor(u', k)
      {
        assert SumFor(t, k) == (if a == k then t[0].quantity else 0) + SumFor(t', k);
        assert SumFor(u, k) == (if a == k then u[0].quantity else 0) + SumFor(u', k);
      }
      TableDetermined(t', u');
    }
  }

  /** Aggregating per file and then aggregating the concatenated results
      gives the same table as aggregating all lines at once: the totals of
      a batch do not depend on how its lines are split into files. */
  lemma MergeAggregates(a: seq<ValidLine>, b: seq<ValidLine>)
    ensures AggregateValid(AggregateValid(a) + AggregateValid(b)) == AggregateValid(a + b)
  {
    var m := AggregateValid(a) + AggregateValid(b);
    KeysConcat(AggregateValid(a), AggregateValid(b));
    KeysConcat(a, b);
    forall k
      ensures SumFor(Group(m), k) == SumFor(Group(a + b), k)
    {
      GroupSums(m, k);
      GroupSums(a + b, k);
      GroupSums(a, k);
      GroupSums(b, k);
      SumForConcat(AggregateValid(a), AggregateValid(b), k);
      SumForConcat(a, b, k);
    }
    TableDetermined(Group(m), Group(a + b));
  }

  /** Aggregating an aggregated table changes nothing. */
  lemma AggregateIdempotent(a: seq<ValidLine>)
    ensures AggregateValid(AggregateValid(a)) == AggregateValid(a)
  {
    MergeAggregates(a, []);
    assert a + [] == a;
    assert AggregateValid([]) == [];
    assert AggregateValid(a) + [] == AggregateValid(a);
  }

  /** Invalid records ascending by product name. */
  predicate NameSorted(s: seq<InvalidLine>) {
    forall i, j | 0 <= i < j < |s| :: NotAfter(s[i].name, s[j].name)
  }

  /** Puts `x` before the first record whose name does not sort before it. */
  function InsertByName(s: seq<InvalidLine>, x: InvalidLine): (r: seq<InvalidLine>)
    ensures multiset(r) == multiset(s) + multiset{x}
    ensures Sum(r, InvalidQuantity) == Sum(s, InvalidQuantity) + x.quantity
  {
    if |s| == 0 then [x]
    else if NotAfter(x.name, s[0].name) then
      assert ([x] + s)[1..] == s;
      [x] + s
    else
      var r := [s[0]] + InsertByName(s[1..], x);
      assert s == [s[0]] + s[1..];
      assert r[1..] == InsertByName(s[1..], x);
      r
  }

  /** A record whose name sorts no later than every name of a sorted list
      can head it. */
  lemma NameSortedCons(a: InvalidLine, s: seq<InvalidLine>)
    requires NameSorted(s)
    requires forall e | e in s :: NotAfter(a.name, e.name)
    ensures NameSorted([a] + s)
  {
    var r := [a] + s;
    forall i, j | 0 <= i < j < |r|
      ensures NotAfter(r[i].name, r[j].name)
    {
      assert r[j] == s[j - 1];
      if i > 0 {
        assert r[i] == s[i - 1];
      }
    }
  }

  lemma {:induction false} InsertByNameSorted(s: seq<InvalidLine>, x: InvalidLine)
    requires NameSorted(s)
    ensures NameSorted(InsertByName(s, x))
  {
    if |s| > 0 {
      if NotAfter(x.name, s[0].name) {
        InsertInFront(s, x);
      } else {
        var s' := s[1..];
        assert NameSorted(s') by {
          assert forall i | 0 <= i < |s'| :: s'[i] == s[i + 1];
        }
        InsertByNameSorted(s', x);
        InsertFurther(s, x);
      }
    }
  }

  /** A record no later than the head of a sorted list can go in front. */
  lemma InsertInFront(s: seq<InvalidLine>, x: InvalidLine)
    requires NameSorted(s) && |s| > 0 && NotAfter(x.name, s[0].name)
    ensures NameSorted([x] + s)
  {
    forall e | e in s
      ensures NotAfter(x.name, e.name)
    {
      var j :| 0 <= j < |s| && s[j] == e;
      if j > 0 {
        NotAfterTransitive(x.name, s[0].name, e.name);
      }
    }
    NameSortedCons(x, s);
  }

  /** A record later than the head goes into the sorted tail. */
  lemma InsertFurther(s: seq<InvalidLine>, x: InvalidLine)
    requires NameSorted(s) && |s| > 0 && !NotAfter(x.name, s[0].name)
    requires NameSorted(InsertByName(s[1..], x))
    ensures NameSorted(InsertByName(s, x))
  {
    var s' := s[1..];
    var rest := InsertByName(s', x);
    LessTrichotomy(x.name, s[0].name);
    forall e | e in rest
      ensures NotAfter(s[0].name, e.name)
    {
      assert e in multiset(rest);
      if e != x {
        assert e in multiset(s');
        var k :| 0 <= k < |s'| && s'[k] == e;
        assert s[k + 1] == e;
      }
    }
    NameSortedCons(s[0], rest);
  }

  /** `sort_values('Nama Produk')` on the invalid records: a permutation of
      them; `SortByNameSorted` shows it is in name order. */
  function SortByName(s: seq<InvalidLine>): (r: seq<InvalidLine>)
    ensures multiset(r) == multiset(s)
  {
    if |s| == 0 then []
    else
      assert s == [s[0]] + s[1..];
      InsertByName(SortByName(s[1..]), s[0])
  }

  lemma {:induction false} SortByNameSorted(s: seq<InvalidLine>)
    ensures NameSorted(SortByName(s))
  {
    if |s| > 0 {
      SortByNameSorted(s[1..]);
      InsertByNameSorted(SortByName(s[1..]), s[0]);
    }
  }

  lemma {:induction false} SortByNameTotal(s: seq<InvalidLine>)
    ensures Sum(SortByName(s), InvalidQuantity) == Sum(s, InvalidQuantity)
  {
    if |s| > 0 {
      SortByNameTotal(s[1..]);
    }
  }
}
