/** The "Top 5 Produtos" ranking: the month's sales grouped by exact product name,
    ordered by descending value with ties in first-seen order, cut to five. */
module TopProducts {
  import opened Seqs
  import opened Results
  import opened SaleRecords

  /** `CategoryData`: `value` is the sum of line totals, `count` the units sold. */
  datatype Category = Category(name: string, value: real, count: int)

  const Limit := 5

  /** The product names that occur in `sales`. */
  function Names(sales: seq<Sale>): set<string>
  {
    set i | 0 <= i < |sales| :: sales[i].productName
  }

  /** Position of the first sale named `n`. */
  function FirstIndex(sales: seq<Sale>, n: string): (i: nat)
    requires n in Names(sales)
    ensures i < |sales| && sales[i].productName == n
    ensures forall j :: 0 <= j < i ==> sales[j].productName != n
  {
    var init := sales[..|sales| - 1];
    if n in Names(init) then
      FirstIndex(init, n)
    else
      assert forall j :: 0 <= j < |init| ==> init[j].productName in Names(init);
      |sales| - 1
  }

  /** The sales named `n`, in order. */
  function Named(sales: seq<Sale>, n: string): seq<Sale>
  {
    Keep(sales, (s: Sale) => s.productName == n)
  }

  /** `categoryMap.get(name)`: where the group for `n` sits, if there is one. */
  function IndexOfName(cs: seq<Category>, n: string): (r: Option<nat>)
    ensures r.Some? ==> r.value < |cs| && cs[r.value].name == n
    ensures r.None? ==> forall j :: 0 <= j < |cs| ==> cs[j].name != n
  {
    if |cs| == 0 then None
    else if cs[0].name == n then Some(0)
    else match IndexOfName(cs[1..], n)
      case Some(i) => Some(i + 1)
      case None => None
  }

  /** One step of the `forEach`: add to the product's group, or open a new group at
      the end (a `Map` keeps insertion order). */
  function AddToGroup(cs: seq<Category>, s: Sale): seq<Category>
  {
    match IndexOfName(cs, s.productName)
    case Some(i) => cs[i := cs[i].(value := cs[i].value + LineTotal(s), count := cs[i].count + s.quantity)]
    case None => cs + [Category(s.productName, LineTotal(s), s.quantity)]
  }

  predicate DistinctNames(cs: seq<Category>)
  {
    forall i, j :: 0 <= i < j < |cs| ==> cs[i].name != cs[j].name
  }

  function GroupNames(cs: seq<Category>): set<string>
  {
    set i | 0 <= i < |cs| :: cs[i].name
  }

  /** Each group holds the line totals and units of exactly the sales of its name. */
  predicate TotalsMatch(sales: seq<Sale>, cs: seq<Category>)
  {
    forall i :: 0 <= i < |cs| ==>
      && cs[i].value == Sum(Named(sales, cs[i].name), LineTotal)
      && cs[i].count == SumInt(Named(sales, cs[i].name), Quantity)
  }

  /** Groups appear in the order in which their names first occur. */
  predicate FirstSeenOrder(sales: seq<Sale>, cs: seq<Category>)
    requires GroupNames(cs) <= Names(sales)
  {
    forall i, j :: 0 <= i < j < |cs| ==>
      FirstIndex(sales, cs[i].name) < FirstIndex(sales, cs[j].name)
  }

  /** `Array.from(categoryMap.values())`: one group per distinct name, in the order
      the names first occur, each with the totals of exactly the sales of that name. */
  function Group(sales: seq<Sale>): (cs: seq<Category>)
    ensures DistinctNames(cs)
    ensures GroupNames(cs) == Names(sales)
    ensures TotalsMatch(sales, cs)
    ensures FirstSeenOrder(sales, cs)
  {
    if |sales| == 0 then []
    else
      var init := sales[..|sales| - 1];
      var s := sales[|sales| - 1];
      var prev := Group(init);
      assert sales == init + [s];
      NamesAppend(init, s);
      StepNames(init, s, prev);
      StepTotals(init, s, prev);
      StepOrder(init, s, prev);
      AddToGroup(prev, s)
  }

  lemma NamesAppend(init: seq<Sale>, s: Sale)
    ensures Names(init + [s]) == Names(init) + {s.productName}
  {
    var sales := init + [s];
    forall n | n in Names(sales) ensures n in Names(init) + {s.productName} {
      var k :| 0 <= k < |sales| && sales[k].productName == n;
      if k < |init| { assert init[k] == sales[k]; }
    }
    forall n | n in Names(init) ensures n in Names(sales) {
      var k :| 0 <= k < |init| && init[k].productName == n;
      assert sales[k] == init[k];
    }
    assert sales[|init|] == s;
  }

  lemma StepNames(init: seq<Sale>, s: Sale, prev: seq<Category>)
    requires DistinctNames(prev) && GroupNames(prev) == Names(init)
    ensures DistinctNames(AddToGroup(prev, s))
    ensures GroupNames(AddToGroup(prev, s)) == Names(init) + {s.productName}
  {
    var cs := AddToGroup(prev, s);
    match IndexOfName(prev, s.productName)
    case Some(k) =>
      assert forall i :: 0 <= i < |cs| ==> cs[i].name == prev[i].name;
      assert GroupNames(cs) == GroupNames(prev);
    case None =>
      assert cs[|prev|].name == s.productName;
      assert GroupNames(cs) == GroupNames(prev) + {s.productName} by {
        forall n | n in GroupNames(cs) ensures n in GroupNames(prev) + {s.productName} {
          var k :| 0 <= k < |cs| && cs[k].name == n;
          if k < |prev| { assert prev[k] == cs[k]; }
        }
        forall n | n in GroupNames(prev) ensures n in GroupNames(cs) {
          var k :| 0 <= k < |prev| && prev[k].name == n;
          assert cs[k] == prev[k];
        }
      }
  }

  lemma StepTotals(init: seq<Sale>, s: Sale, prev: seq<Category>)
    requires DistinctNames(prev) && GroupNames(prev) == Names(init) && TotalsMatch(init, prev)
    ensures TotalsMatch(init + [s], AddToGroup(prev, s))
  {
    match IndexOfName(prev, s.productName)
    case Some(k) => StepTotalsFound(init, s, prev, k);
    case None => StepTotalsNew(init, s, prev);
  }

  lemma StepTotalsFound(init: seq<Sale>, s: Sale, prev: seq<Category>, k: nat)
    requires DistinctNames(prev) && TotalsMatch(init, prev)
    requires IndexOfName(prev, s.productName) == Some(k)
    ensures TotalsMatch(init + [s], AddToGroup(prev, s))
  {
    var c := prev[k];
    var grown := c.(value := c.value + LineTotal(s), count := c.count + s.quantity);
    var cs := AddToGroup(prev, s);
    assert cs == prev[k := grown];
    GrownGroup(init, s, c);
    forall i | 0 <= i < |cs|
      ensures cs[i].value == Sum(Named(init + [s], cs[i].name), LineTotal)
      ensures cs[i].count == SumInt(Named(init + [s], cs[i].name), Quantity)
    {
      if i != k {
        UntouchedGroup(init, s, prev[i]);
      }
    }
  }

  /** The group the new sale lands in gains its line total and units. */
  lemma GrownGroup(init: seq<Sale>, s: Sale, c: Category)
    requires c.name == s.productName
    requires c.value == Sum(Named(init, c.name), LineTotal)
    requires c.count == SumInt(Named(init, c.name), Quantity)
    ensures c.value + LineTotal(s) == Sum(Named(init + [s], c.name), LineTotal)
    ensures c.count + s.quantity == SumInt(Named(init + [s], c.name), Quantity)
  {
    NamedAppend(init, s, c.name);
    SumAppend(Named(init, c.name), [s], LineTotal);
    SumIntAppend(Named(init, c.name), [s], Quantity);
    assert [s][..0] == [];
  }

  /** A group of another name is unaffected by the new sale. */
  lemma UntouchedGroup(init: seq<Sale>, s: Sale, c: Category)
    requires c.name != s.productName
    ensures Named(init + [s], c.name) == Named(init, c.name)
  {
    NamedAppend(init, s, c.name);
    assert Named(init, c.name) + [] == Named(init, c.name);
  }

  lemma StepTotalsNew(init: seq<Sale>, s: Sale, prev: seq<Category>)
    requires GroupNames(prev) == Names(init) && TotalsMatch(init, prev)
    requires IndexOfName(prev, s.productName) == None
    ensures TotalsMatch(init + [s], AddToGroup(prev, s))
  {
    var cs := AddToGroup(prev, s);
    assert s.productName !in GroupNames(prev);
    NamedAbsent(init, s.productName);
    forall i | 0 <= i < |cs|
      ensures cs[i].value == Sum(Named(init + [s], cs[i].name), LineTotal)
      ensures cs[i].count == SumInt(Named(init + [s], cs[i].name), Quantity)
    {
      NamedAppend(init, s, cs[i].name);
      if i == |prev| {
        assert Named(init + [s], s.productName) == [s];
        assert [s][..0] == [];
      } else {
        assert cs[i] == prev[i];
      }
    }
  }

  lemma {:induction false} NamedAbsent(sales: seq<Sale>, n: string)
    requires n !in Names(sales)
    ensures Named(sales, n) == []
    decreases |sales|
  {
    if |sales| > 0 {
      var init := sales[..|sales| - 1];
      var last := sales[|sales| - 1];
      assert last.productName in Names(sales);
      forall j | 0 <= j < |init| ensures init[j].productName != n {
        assert init[j] == sales[j];
        assert sales[j].productName in Names(sales);
      }
      NamedAbsent(init, n);
      NamedAppend(init, last, n);
      assert sales == init + [last];
    }
  }

  /** One step of the filter for a single name. */
  lemma NamedAppend(init: seq<Sale>, s: Sale, n: string)
    ensures Named(init + [s], n) == Named(init, n) + (if s.productName == n then [s] else [])
  {
    assert (init + [s])[..|init|] == init;
  }

  lemma StepOrder(init: seq<Sale>, s: Sale, prev: seq<Category>)
    requires DistinctNames(prev) && GroupNames(prev) == Names(init)
    requires FirstSeenOrder(init, prev)
    ensures GroupNames(AddToGroup(prev, s)) <= Names(init + [s])
    ensures FirstSeenOrder(init + [s], AddToGroup(prev, s))
  {
    NamesAppend(init, s);
    StepNames(init, s, prev);
    match IndexOfName(prev, s.productName)
    case Some(k) => StepOrderFound(init, s, prev, k);
    case None => StepOrderNew(init, s, prev);
  }

  /** A name already seen keeps its first position when a sale is appended. */
  lemma FirstIndexAppend(init: seq<Sale>, s: Sale, n: string)
    requires n in Names(init)
    ensures n in Names(init + [s]) && FirstIndex(init + [s], n) == FirstIndex(init, n)
  {
    NamesAppend(init, s);
    assert (init + [s])[..|init|] == init;
  }

  lemma StepOrderFound(init: seq<Sale>, s: Sale, prev: seq<Category>, k: nat)
    requires GroupNames(prev) == Names(init) && FirstSeenOrder(init, prev)
    requires IndexOfName(prev, s.productName) == Some(k)
    requires GroupNames(AddToGroup(prev, s)) <= Names(init + [s])
    ensures FirstSeenOrder(init + [s], AddToGroup(prev, s))
  {
    var cs := AddToGroup(prev, s);
    forall i | 0 <= i < |cs| ensures FirstIndex(init + [s], cs[i].name) == FirstIndex(init, prev[i].name) {
      assert cs[i].name == prev[i].name;
      assert prev[i].name in GroupNames(prev);
      FirstIndexAppend(init, s, prev[i].name);
    }
  }

  lemma StepOrderNew(init: seq<Sale>, s: Sale, prev: seq<Category>)
    requires GroupNames(prev) == Names(init) && FirstSeenOrder(init, prev)
    requires IndexOfName(prev, s.productName) == None
    requires GroupNames(AddToGroup(prev, s)) <= Names(init + [s])
    ensures FirstSeenOrder(init + [s], AddToGroup(prev, s))
  {
    var sales := init + [s];
    var cs := AddToGroup(prev, s);
    assert s.productName !in GroupNames(prev);
    assert sales[..|sales| - 1] == init;
    NamesAppend(init, s);
    assert FirstIndex(sales, s.productName) == |init|;
    forall i | 0 <= i < |prev|
      ensures FirstIndex(sales, cs[i].name) == FirstIndex(init, prev[i].name) < |init|
    {
      assert cs[i] == prev[i];
      assert prev[i].name in GroupNames(prev);
      FirstIndexAppend(init, s, prev[i].name);
    }
  }

  /** Sorted by descending value. */
  predicate SortedDesc(cs: seq<Category>)
  {
    forall i, j :: 0 <= i < j < |cs| ==> cs[i].value >= cs[j].value
  }

  /** The groups of a given value, in order: what a stable sort must not reorder. */
  function Ties(cs: seq<Category>, v: real): seq<Category>
  {
    if |cs| == 0 then [] else (if cs[0].value == v then [cs[0]] else []) + Ties(cs[1..], v)
  }

  /** Insert `c` into a descending sequence ahead of the first group it is not
      smaller than, so that it stays ahead of later equal groups. */
  function Insert(c: Category, sorted: seq<Category>): (r: seq<Category>)
    requires SortedDesc(sorted)
    ensures SortedDesc(r)
    ensures |r| == |sorted| + 1
    ensures forall x :: x in r <==> x == c || x in sorted
  {
    if |sorted| == 0 || sorted[0].value <= c.value then
      [c] + sorted
    else
      var rest := Insert(c, sorted[1..]);
      assert forall x :: x in sorted[1..] ==> x in sorted;
      assert forall x :: x in rest ==> x.value <= sorted[0].value;
      [sorted[0]] + rest
  }

  /** Inserting adds exactly one copy of `c`. */
  lemma {:induction false} InsertPermutes(c: Category, sorted: seq<Category>)
    requires SortedDesc(sorted)
    ensures multiset(Insert(c, sorted)) == multiset(sorted) + multiset{c}
    decreases |sorted|
  {
    if |sorted| > 0 && sorted[0].value > c.value {
      InsertPermutes(c, sorted[1..]);
      assert sorted == [sorted[0]] + sorted[1..];
    }
  }

  /** Inserting `c` places it ahead of every group of equal value. */
  lemma {:induction false} InsertTies(c: Category, sorted: seq<Category>, v: real)
    requires SortedDesc(sorted)
    ensures Ties(Insert(c, sorted), v) == (if c.value == v then [c] else []) + Ties(sorted, v)
    decreases |sorted|
  {
    if |sorted| == 0 || sorted[0].value <= c.value {
      TiesCons(c, sorted, v);
    } else {
      var rest := Insert(c, sorted[1..]);
      assert Insert(c, sorted) == [sorted[0]] + rest;
      InsertTies(c, sorted[1..], v);
      TiesStep(sorted[0], c, sorted[1..], rest, v);
      assert [sorted[0]] + sorted[1..] == sorted;
    }
  }

  /** Putting a group of larger value in front of both sides keeps the tie relation. */
  lemma TiesStep(h: Category, c: Category, tail: seq<Category>, rest: seq<Category>, v: real)
    requires h.value > c.value
    requires Ties(rest, v) == (if c.value == v then [c] else []) + Ties(tail, v)
    ensures Ties([h] + rest, v) == (if c.value == v then [c] else []) + Ties([h] + tail, v)
  {
    TiesCons(h, rest, v);
    TiesCons(h, tail, v);
  }

  lemma TiesCons(x: Category, xs: seq<Category>, v: real)
    ensures Ties([x] + xs, v) == (if x.value == v then [x] else []) + Ties(xs, v)
  {
    assert ([x] + xs)[1..] == xs;
  }

  /** `.sort((a, b) => b.value - a.value)`: JavaScript's sort is stable, so this is
      a permutation in descending value order that keeps every tie in input order. */
  function SortByValueDesc(cs: seq<Category>): (r: seq<Category>)
    ensures SortedDesc(r)
    ensures multiset(r) == multiset(cs)
    ensures forall v :: Ties(r, v) == Ties(cs, v)
  {
    if |cs| == 0 then []
    else
      var rest := SortByValueDesc(cs[1..]);
      assert cs == [cs[0]] + cs[1..];
      assert forall v :: Ties(Insert(cs[0], rest), v) == Ties(cs, v) by {
        forall v ensures Ties(Insert(cs[0], rest), v) == Ties(cs, v) {
          InsertTies(cs[0], rest, v);
        }
      }
      InsertPermutes(cs[0], rest);
      Insert(cs[0], rest)
  }

  /** `.slice(0, 5)`. */
  function Take(cs: seq<Category>, n: nat): (r: seq<Category>)
    ensures |r| == if |cs| < n then |cs| else n
    ensures r == cs[..|r|]
  {
    if |cs| <= n then cs else cs[..n]
  }

  /** `sortedCategories`: at most five distinct groups, never more than there are
      names, the highest-valued first, none left out that is worth more than one kept,
      and among groups of equal value the first-seen ones, in first-seen order. */
  function Top(sales: seq<Sale>): (r: seq<Category>)
    ensures |r| <= Limit && |r| <= |Names(sales)|
    ensures |r| == Limit || |r| == |Names(sales)|
    ensures SortedDesc(r)
    ensures multiset(r) <= multiset(Group(sales)) && DistinctNames(r)
    ensures forall c :: c in r ==> c in Group(sales)
    ensures forall c, d :: c in Group(sales) && c !in r && d in r ==> c.value <= d.value
    ensures forall v :: Ties(r, v) <= Ties(Group(sales), v)
  {
    var groups := Group(sales);
    var sorted := SortByValueDesc(groups);
    GroupCount(sales);
    PrefixOfSorted(groups, sorted, Limit);
    var r := Take(sorted, Limit);
    PrefixCounts(sorted, |r|);
    CountedDistinct(r, groups);
    forall v ensures Ties(r, v) <= Ties(groups, v) {
      TiesOfPrefix(sorted, |r|, v);
    }
    r
  }

  /** A prefix holds no element more often than the whole. */
  lemma PrefixCounts(cs: seq<Category>, k: nat)
    requires k <= |cs|
    ensures multiset(cs[..k]) <= multiset(cs)
  {
    assert cs == cs[..k] + cs[k..];
  }

  /** The ties of a prefix are a prefix of the ties. */
  lemma {:induction false} TiesOfPrefix(cs: seq<Category>, k: nat, v: real)
    requires k <= |cs|
    ensures Ties(cs[..k], v) <= Ties(cs, v)
    decreases k
  {
    if k > 0 {
      TiesOfPrefix(cs[1..], k - 1, v);
      assert cs[..k][1..] == cs[1..][..k - 1];
      assert cs[..k][0] == cs[0];
    }
  }

  /** Groups drawn from distinctly named groups, none more often than it occurs
      there, have distinct names too. */
  lemma CountedDistinct(a: seq<Category>, b: seq<Category>)
    requires multiset(a) <= multiset(b) && DistinctNames(b)
    ensures DistinctNames(a)
  {
    forall i, j | 0 <= i < j < |a| ensures a[i].name != a[j].name {
      if a[i].name == a[j].name {
        assert a[i] in multiset(b) && a[j] in multiset(b);
        var p :| 0 <= p < |b| && b[p] == a[i];
        var q :| 0 <= q < |b| && b[q] == a[j];
        assert p == q;
        TwiceCounted(a, i, j);
        OnceCounted(b, p);
      }
    }
  }

  /** Two positions holding the same element count it at least twice. */
  lemma TwiceCounted(a: seq<Category>, i: nat, j: nat)
    requires i < j < |a| && a[i] == a[j]
    ensures multiset(a)[a[i]] >= 2
  {
    assert a == a[..j] + [a[j]] + a[j + 1..];
    assert a[..j][i] == a[i];
  }

  /** In distinctly named groups each group occurs once. */
  lemma OnceCounted(b: seq<Category>, p: nat)
    requires p < |b| && DistinctNames(b)
    ensures multiset(b)[b[p]] == 1
  {
    var x := b[p];
    assert b == b[..p] + [x] + b[p + 1..];
    assert x !in b[..p] by {
      forall k | 0 <= k < p ensures b[..p][k] != x {
        assert b[..p][k] == b[k];
      }
    }
    var after := b[p + 1..];
    assert x !in after by {
      forall k | 0 <= k < |after| ensures after[k] != x {
        assert after[k] == b[p + 1 + k];
      }
    }
  }

  /** A prefix of a descending permutation keeps the largest values. */
  lemma PrefixOfSorted(groups: seq<Category>, sorted: seq<Category>, n: nat)
    requires SortedDesc(sorted) && multiset(sorted) == multiset(groups)
    ensures |sorted| == |groups|
    ensures var r := Take(sorted, n);
            && SortedDesc(r)
            && (forall c :: c in r ==> c in groups)
            && (forall c, d :: c in groups && c !in r && d in r ==> c.value <= d.value)
  {
    assert |multiset(sorted)| == |multiset(groups)|;
    var r := Take(sorted, n);
    forall c | c in r ensures c in groups {
      assert c in multiset(sorted);
    }
    forall c, d | c in groups && c !in r && d in r ensures c.value <= d.value {
      assert c in multiset(sorted);
      var j :| 0 <= j < |sorted| && sorted[j] == c;
      var i :| 0 <= i < |r| && r[i] == d;
      assert j >= |r|;
      assert sorted[i] == d;
    }
  }

  /** There is one group per distinct name. */
  lemma GroupCount(sales: seq<Sale>)
    ensures |Group(sales)| == |Names(sales)|
  {
    DistinctCount(Group(sales));
  }

  lemma {:induction false} DistinctCount(cs: seq<Category>)
    requires DistinctNames(cs)
    ensures |GroupNames(cs)| == |cs|
  {
    if |cs| > 0 {
      var init := cs[..|cs| - 1];
      DistinctCount(init);
      assert GroupNames(cs) == GroupNames(init) + {cs[|cs| - 1].name} by {
        forall n | n in GroupNames(cs) ensures n in GroupNames(init) + {cs[|cs| - 1].name} {
          var k :| 0 <= k < |cs| && cs[k].name == n;
          if k < |init| { assert init[k] == cs[k]; }
        }
        forall n | n in GroupNames(init) ensures n in GroupNames(cs) {
          var k :| 0 <= k < |init| && init[k].name == n;
          assert cs[k] == init[k];
        }
      }
      assert cs[|cs| - 1].name !in GroupNames(init);
    }
  }

  /** The chart is hidden exactly when the month has no sales. */
  lemma TopEmptyIff(sales: seq<Sale>)
    ensures |Top(sales)| == 0 <==> |sales| == 0
  {
    if |sales| > 0 {
      assert sales[0].productName in Names(sales);
    }
  }
}
