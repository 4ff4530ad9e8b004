/** The fixed bins a reference column defines, and the histogram of any column over them. */
module Histogram {
  import opened Wrappers
  import opened Tables
  import opened Counting
  import P = Psi

  /******* Domains: what the reference column holds *******/

  // The least and greatest number, if there is any; or the set of categories.
  datatype Domain = Range(ends: Option<(real, real)>) | Categories(values: set<string>)

  function Widen(rt: Runtime, d: Domain, c: Cell): Domain {
    if c == Missing then d
    else
      match d
      case Range(None) => Range(Some((Float(rt, c), Float(rt, c))))
      case Range(Some((lo, hi))) =>
        var x := Float(rt, c);
        Range(Some((if x < lo then x else lo, if hi < x then x else hi)))
      case Categories(values) => Categories(values + {Str(rt, c)})
  }

  function Nothing(numeric: bool): Domain {
    if numeric then Range(None) else Categories({})
  }

  function DomainOf(rt: Runtime, numeric: bool, rows: seq<Row>, name: Name): Domain {
    if rows == [] then Nothing(numeric)
    else Widen(rt, DomainOf(rt, numeric, rows[..|rows| - 1], name), rows[|rows| - 1](name))
  }

  ghost predicate Occurs(rows: seq<Row>, name: Name, c: Cell) {
    c != Missing && exists r :: r in rows && r(name) == c
  }

  // What the domain of a column is, whatever the order of its rows.
  ghost predicate Spans(rt: Runtime, numeric: bool, rows: seq<Row>, name: Name, d: Domain) {
    match d
    case Range(None) => numeric && forall c :: !Occurs(rows, name, c)
    case Range(Some((lo, hi))) =>
      && numeric
      && (forall c | Occurs(rows, name, c) :: lo <= Float(rt, c) <= hi)
      && (exists c | Occurs(rows, name, c) :: Float(rt, c) == lo)
      && (exists c | Occurs(rows, name, c) :: Float(rt, c) == hi)
    case Categories(values) =>
      && !numeric
      && (forall v :: v in values <==> exists c | Occurs(rows, name, c) :: Str(rt, c) == v)
  }

  lemma OccursOneMore(rows: seq<Row>, r: Row, name: Name)
    ensures forall c :: Occurs(rows + [r], name, c) <==> Occurs(rows, name, c) || (c != Missing && r(name) == c)
  {
    forall c ensures Occurs(rows + [r], name, c) <==> Occurs(rows, name, c) || (c != Missing && r(name) == c) {
      assert r in rows + [r];
      assert forall q :: q in rows + [r] <==> q in rows || q == r;
    }
  }

  lemma WidenSpans(rt: Runtime, numeric: bool, rows: seq<Row>, r: Row, name: Name, d: Domain)
    requires Spans(rt, numeric, rows, name, d)
    ensures Spans(rt, numeric, rows + [r], name, Widen(rt, d, r(name)))
  {
    OccursOneMore(rows, r, name);
    var c := r(name);
    if c != Missing {
      assert Occurs(rows + [r], name, c);
    }
  }

  lemma {:induction false} DomainSpans(rt: Runtime, numeric: bool, rows: seq<Row>, name: Name)
    ensures Spans(rt, numeric, rows, name, DomainOf(rt, numeric, rows, name))
  {
    if rows != [] {
      var last := |rows| - 1;
      DomainSpans(rt, numeric, rows[..last], name);
      WidenSpans(rt, numeric, rows[..last], rows[last], name, DomainOf(rt, numeric, rows[..last], name));
      assert rows == rows[..last] + [rows[last]];
    }
  }

  lemma SpansOnlyOne(rt: Runtime, numeric: bool, rows: seq<Row>, name: Name, d: Domain, e: Domain)
    requires Spans(rt, numeric, rows, name, d) && Spans(rt, numeric, rows, name, e)
    ensures d == e
  {
    if d.Categories? {
      assert forall v :: v in d.values <==> v in e.values;
    }
  }

  /** The domain of a column does not depend on the order of its rows. */
  lemma DomainPermutes(rt: Runtime, numeric: bool, a: seq<Row>, b: seq<Row>, name: Name)
    requires Permuted(a, b)
    ensures DomainOf(rt, numeric, a, name) == DomainOf(rt, numeric, b, name)
  {
    forall c ensures Occurs(a, name, c) <==> Occurs(b, name, c) {
      forall r ensures r in a <==> r in b { PermutedMembers(a, b, r); }
    }
    DomainSpans(rt, numeric, a, name);
    DomainSpans(rt, numeric, b, name);
    SpansOnlyOne(rt, numeric, b, name, DomainOf(rt, numeric, a, name), DomainOf(rt, numeric, b, name));
  }

  const MAX_CATEGORIES: nat := 1000
  const MAX_BYTES: nat := 1024

  // Too many categories, or one too long, and the check fails.
  predicate DomainFits(rt: Runtime, d: Domain) {
    d.Categories? ==> |d.values| <= MAX_CATEGORIES && forall v | v in d.values :: rt.bytes(v) <= MAX_BYTES
  }

  lemma {:induction false} SmallerFits(rt: Runtime, numeric: bool, rows: seq<Row>, n: nat, name: Name)
    requires n <= |rows| && DomainFits(rt, DomainOf(rt, numeric, rows, name))
    ensures DomainFits(rt, DomainOf(rt, numeric, rows[..n], name))
    decreases |rows|
  {
    if n == |rows| {
      assert rows[..n] == rows;
    } else {
      var last := |rows| - 1;
      var smaller, larger := DomainOf(rt, numeric, rows[..last], name), DomainOf(rt, numeric, rows, name);
      if larger.Categories? && smaller.Categories? {
        SubsetSize(smaller.values, larger.values);
      }
      SmallerFits(rt, numeric, rows[..last], n, name);
      assert rows[..last][..n] == rows[..n];
    }
  }

  /******* The order of categories *******/

  predicate Below(a: string, b: string) {
    if b == "" then false
    else if a == "" then true
    else a[0] < b[0] || (a[0] == b[0] && Below(a[1..], b[1..]))
  }

  lemma {:induction false} BelowIsStrict(a: string, b: string, c: string)
    ensures !Below(a, a)
    ensures Below(a, b) && Below(b, c) ==> Below(a, c)
    ensures Below(a, b) || Below(b, a) || a == b
  {
    if a != "" && b != "" && c != "" {
      BelowIsStrict(a[1..], b[1..], c[1..]);
    } else if a != "" && b != "" {
      BelowIsStrict(a[1..], b[1..], "");
    } else if a != "" {
      BelowIsStrict(a[1..], "", "");
    }
    assert a != "" && b != "" && a[0] == b[0] && a[1..] == b[1..] ==> a == b by {
      if a != "" && b != "" {
        assert a == [a[0]] + a[1..] && b == [b[0]] + b[1..];
      }
    }
  }

  // The position of a value among the sorted categories.
  function Rank(values: set<string>, v: string): nat {
    |set u | u in values && Below(u, v)|
  }

  lemma RankAscends(values: set<string>, u: string, v: string)
    requires u in values && v in values
    ensures Rank(values, u) < |values|
    ensures Rank(values, u) < Rank(values, v) <==> Below(u, v)
    ensures Rank(values, u) == Rank(values, v) <==> u == v
  {
    BelowIsStrict(u, v, u);
    if Below(u, v) { RankBelow(values, u, v); }
    if Below(v, u) { RankBelow(values, v, u); }
    var lower := set w | w in values && Below(w, u);
    assert u !in lower;
    SubsetSize(lower, values);
  }

  lemma RankBelow(values: set<string>, u: string, v: string)
    requires u in values && Below(u, v)
    ensures Rank(values, u) < Rank(values, v)
  {
    var lower, higher := set w | w in values && Below(w, u), set w | w in values && Below(w, v);
    forall w | w in lower ensures w in higher { BelowIsStrict(w, u, v); }
    BelowIsStrict(u, u, u);
    assert u in higher && u !in lower;
    SubsetSize(lower, higher);
  }

  /******* Bins *******/

  // Nine inner edges (or two, around a single value); the categories with their ranks; or no bins.
  datatype Bins = Unbinned | Edges(edges: seq<real>) | Ranks(index: map<string, nat>)

  function Edge(lo: real, hi: real, i: nat): real {
    lo * (1.0 - i as real / 10.0) + hi * (i as real / 10.0)
  }

  function BinsOf(rt: Runtime, d: Domain): Bins {
    match d
    case Range(None) => Unbinned
    case Range(Some((lo, hi))) =>
      if hi == lo then Edges([lo, rt.nextAfter(lo)]) else Edges(seq(9, i requires 0 <= i < 9 => Edge(lo, hi, i + 1)))
    case Categories(values) => Ranks(map v | v in values :: Rank(values, v))
  }

  function Slots(b: Bins): nat {
    match b
    case Unbinned => 2
    case Edges(edges) => |edges| + 2
    case Ranks(index) => |index| + 2
  }

  // bisect_right: where x would be inserted after its equals.
  function Bisect(edges: seq<real>, x: real): (i: nat)
    ensures i <= |edges|
  {
    if edges == [] then 0
    else if edges[|edges| - 1] <= x then |edges|
    else Bisect(edges[..|edges| - 1], x)
  }

  function Slot(rt: Runtime, b: Bins, c: Cell): nat {
    if c == Missing then Slots(b) - 1
    else
      match b
      case Unbinned => 0
      case Edges(edges) => Bisect(edges, Float(rt, c))
      case Ranks(index) => if Str(rt, c) in index then index[Str(rt, c)] else |index|
  }

  ghost predicate Ascending(edges: seq<real>) {
    forall i, j | 0 <= i < j < |edges| :: edges[i] < edges[j]
  }

  lemma {:induction false} BisectIsExact(edges: seq<real>, x: real, i: nat)
    requires Ascending(edges) && i <= |edges|
    ensures Bisect(edges, x) == i <==> (i > 0 ==> edges[i - 1] <= x) && (i < |edges| ==> x < edges[i])
  {
    if edges != [] {
      var last := |edges| - 1;
      if x < edges[last] {
        BisectIsExact(edges[..last], x, if i <= last then i else last);
      }
    }
  }

  lemma EdgesAscend(lo: real, hi: real, i: nat, j: nat)
    requires lo < hi && i < j
    ensures Edge(lo, hi, i) < Edge(lo, hi, j)
  {
    var s, t := i as real / 10.0, j as real / 10.0;
    EdgeIs(lo, hi, i);
    EdgeIs(lo, hi, j);
    P.Sign(t - s, hi - lo);
    P.Distribute(t, -s, hi - lo);
  }

  // The inner edges lie strictly between the reference's least and greatest value.
  lemma EdgeInside(lo: real, hi: real, i: nat)
    requires lo < hi && 0 < i < 10
    ensures lo < Edge(lo, hi, i) < hi
  {
    EdgesAscend(lo, hi, 0, i);
    EdgesAscend(lo, hi, i, 10);
  }

  lemma EdgeIs(lo: real, hi: real, i: nat)
    ensures Edge(lo, hi, i) == lo + (i as real / 10.0) * (hi - lo)
  {
    var s := i as real / 10.0;
    assert lo * (1.0 - s) == lo - lo * s;
    assert s * (hi - lo) == s * hi - s * lo;
  }

  // What every set of bins keeps: ascending edges, or ranks that number the categories in their order.
  ghost predicate BinsAreSound(b: Bins) {
    match b
    case Unbinned => true
    case Edges(edges) => Ascending(edges)
    case Ranks(index) =>
      && (forall v | v in index :: index[v] < |index|)
      && (forall u, v | u in index && v in index ::
            (index[u] < index[v] <==> Below(u, v)) && (index[u] == index[v] <==> u == v))
  }

  lemma EdgesAreSound(rt: Runtime, lo: real, hi: real)
    requires lo < hi
    ensures BinsAreSound(BinsOf(rt, Range(Some((lo, hi)))))
  {
    var edges := BinsOf(rt, Range(Some((lo, hi)))).edges;
    forall i, j | 0 <= i < j < |edges| ensures edges[i] < edges[j] { EdgesAscend(lo, hi, i + 1, j + 1); }
  }

  lemma RanksAreSound(rt: Runtime, values: set<string>)
    ensures BinsAreSound(BinsOf(rt, Categories(values)))
  {
    AllRanksAscend(values, BinsOf(rt, Categories(values)).index);
  }

  lemma AllRanksAscend(values: set<string>, index: map<string, nat>)
    requires index == map v | v in values :: Rank(values, v)
    ensures BinsAreSound(Ranks(index))
  {
    assert index.Keys == values && |index.Keys| == |index|;
    forall v | v in index ensures index[v] < |index| { RankAscends(values, v, v); }
    forall u, v | u in index && v in index
      ensures (index[u] < index[v] <==> Below(u, v)) && (index[u] == index[v] <==> u == v)
    {
      RankAscends(values, u, v);
    }
  }

  lemma BinsAreAlwaysSound(rt: Runtime, d: Domain)
    requires Faithful(rt) && (d.Range? && d.ends.Some? ==> d.ends.value.0 <= d.ends.value.1)
    ensures BinsAreSound(BinsOf(rt, d))
  {
    match d
    case Range(None) =>
    case Range(Some((lo, hi))) => if lo < hi { EdgesAreSound(rt, lo, hi); }
    case Categories(values) => RanksAreSound(rt, values);
  }

  /******* Histograms *******/

  function InSlot(rt: Runtime, b: Bins, name: Name, i: nat): Row -> bool {
    (r: Row) => Slot(rt, b, r(name)) == i
  }

  function IsMissing(name: Name): Row -> bool {
    (r: Row) => r(name) == Missing
  }

  lemma SlotInRange(rt: Runtime, b: Bins, c: Cell)
    requires BinsAreSound(b)
    ensures Slot(rt, b, c) < Slots(b)
    ensures Slot(rt, b, c) == Slots(b) - 1 <==> c == Missing
  {
  }

  function Bump(counts: seq<nat>, i: nat): seq<nat>
    requires i < |counts|
  {
    counts[i := counts[i] + 1]
  }

  // The counts after some rows: slot i counts the rows bisected into it.
  function Counts(rt: Runtime, b: Bins, rows: seq<Row>, name: Name): (counts: seq<nat>)
    ensures |counts| == Slots(b)
  {
    seq(Slots(b), i requires 0 <= i < Slots(b) => CountIf(rows, InSlot(rt, b, name, i)))
  }

  lemma CountsOneMore(rt: Runtime, b: Bins, rows: seq<Row>, r: Row, name: Name)
    requires BinsAreSound(b)
    ensures Slot(rt, b, r(name)) < Slots(b)
    ensures Counts(rt, b, rows + [r], name) == Bump(Counts(rt, b, rows, name), Slot(rt, b, r(name)))
  {
    SlotInRange(rt, b, r(name));
    forall i | 0 <= i < Slots(b)
      ensures CountIf(rows + [r], InSlot(rt, b, name, i))
           == CountIf(rows, InSlot(rt, b, name, i)) + if Slot(rt, b, r(name)) == i then 1 else 0
    {
      OneMore(rows, r, InSlot(rt, b, name, i), (q: Row) => 0.0);
    }
  }

  lemma {:induction false} SumBumped(counts: seq<nat>, i: nat)
    requires i < |counts|
    ensures P.Sum(Bump(counts, i)) == P.Sum(counts) + 1
  {
    var last := |counts| - 1;
    if i < last {
      SumBumped(counts[..last], i);
      assert Bump(counts, i)[..last] == Bump(counts[..last], i);
    } else {
      assert Bump(counts, i)[..last] == counts[..last];
    }
  }

  lemma {:induction false} SumOfZeros(counts: seq<nat>)
    requires forall i | 0 <= i < |counts| :: counts[i] == 0
    ensures P.Sum(counts) == 0
  {
    if counts != [] { SumOfZeros(counts[..|counts| - 1]); }
  }

  /** The slots partition the rows, and the last one holds the missing values. */
  lemma {:induction false} CountsPartition(rt: Runtime, b: Bins, rows: seq<Row>, name: Name)
    requires BinsAreSound(b)
    ensures P.Sum(Counts(rt, b, rows, name)) == |rows|
    ensures Counts(rt, b, rows, name)[Slots(b) - 1] == CountIf(rows, IsMissing(name))
  {
    if rows == [] {
      SumOfZeros(Counts(rt, b, rows, name));
    } else {
      var last := |rows| - 1;
      assert rows == rows[..last] + [rows[last]];
      CountsPartition(rt, b, rows[..last], name);
      CountsOneMore(rt, b, rows[..last], rows[last], name);
      SumBumped(Counts(rt, b, rows[..last], name), Slot(rt, b, rows[last](name)));
      SlotInRange(rt, b, rows[last](name));
      OneMore(rows[..last], rows[last], IsMissing(name), (q: Row) => 0.0);
    }
  }

  /** No row of the reference falls into the slot of unseen categories. */
  lemma ReferenceIsSeen(rt: Runtime, rows: seq<Row>, name: Name)
    ensures var b := BinsOf(rt, DomainOf(rt, false, rows, name));
            b.Ranks? && Counts(rt, b, rows, name)[|b.index|] == 0
  {
    var d := DomainOf(rt, false, rows, name);
    DomainSpans(rt, false, rows, name);
    assert d.Categories?;
    var b := BinsOf(rt, d);
    CategoryRanks(rt, d);
    forall r | r in rows ensures !InSlot(rt, b, name, |b.index|)(r) {
      var c := r(name);
      if c != Missing {
        assert Occurs(rows, name, c);
        assert Str(rt, c) in d.values;
      }
    }
    CountsNone(rows, InSlot(rt, b, name, |b.index|));
  }

  lemma CategoryRanks(rt: Runtime, d: Domain)
    requires d.Categories?
    ensures var index := BinsOf(rt, d).index;
            index.Keys == d.values && |index| == |d.values| && forall v | v in index :: index[v] < |index|
  {
    var index := BinsOf(rt, d).index;
    assert |index.Keys| == |index|;
    forall v | v in index ensures index[v] < |d.values| { RankAscends(d.values, v, v); }
  }

  /** A histogram does not depend on the order of the rows. */
  lemma CountsPermute(rt: Runtime, b: Bins, p: seq<Row>, q: seq<Row>, name: Name)
    requires Permuted(p, q)
    ensures Counts(rt, b, p, name) == Counts(rt, b, q, name)
    ensures CountIf(p, IsMissing(name)) == CountIf(q, IsMissing(name))
  {
    forall i | 0 <= i < Slots(b) ensures CountIf(p, InSlot(rt, b, name, i)) == CountIf(q, InSlot(rt, b, name, i)) {
      PermutedAgree(p, q, InSlot(rt, b, name, i), (r: Row) => 0.0);
    }
    PermutedAgree(p, q, IsMissing(name), (r: Row) => 0.0);
  }

  /******* What the slots are *******/

  // The texts agree on n letters, and then the first ends or has the lesser letter.
  ghost predicate LessAt(a: string, b: string, n: nat) {
    n <= |a| && n < |b| && a[..n] == b[..n] && (n == |a| || a[n] < b[n])
  }

  lemma SameFirstLetter(a: string, b: string, n: nat)
    requires LessAt(a, b, n)
    ensures n > 0 ==> a != "" && b != "" && a[0] == b[0]
  {
    if n > 0 {
      assert a[..n][0] == b[..n][0];
    }
  }

  /** Categories are in lexicographic order: a prefix first, and otherwise by the first letter that differs. */
  lemma {:induction false} BelowIsLexicographic(a: string, b: string)
    ensures Below(a, b) <==> exists n: nat :: LessAt(a, b, n)
  {
    if a != "" && b != "" && a[0] == b[0] {
      BelowIsLexicographic(a[1..], b[1..]);
      if n: nat :| LessAt(a[1..], b[1..], n) {
        assert a[..n + 1] == [a[0]] + a[1..][..n] && b[..n + 1] == [b[0]] + b[1..][..n];
        assert LessAt(a, b, n + 1);
      }
      if n: nat :| LessAt(a, b, n) {
        assert n > 0 && a[1..][..n - 1] == a[..n][1..] && b[1..][..n - 1] == b[..n][1..];
        assert LessAt(a[1..], b[1..], n - 1);
      }
    } else {
      if b != "" && (a == "" || a[0] < b[0]) {
        assert LessAt(a, b, 0);
      }
      if n: nat :| LessAt(a, b, n) {
        SameFirstLetter(a, b, n);
      }
    }
  }

  /** Ten equal parts of the reference's range, the outer two open, and a last slot for missing values. */
  lemma SlotOfNumber(rt: Runtime, lo: real, hi: real, x: real, k: nat)
    requires lo < hi && k < 10
    ensures var b := BinsOf(rt, Range(Some((lo, hi))));
            && Slots(b) == 11 && Slot(rt, b, Missing) == 10
            && (Slot(rt, b, Number(x)) == k <==>
                  && (k > 0 ==> lo + (k as real / 10.0) * (hi - lo) <= x)
                  && (k < 9 ==> x < lo + ((k + 1) as real / 10.0) * (hi - lo)))
  {
    var edges := BinsOf(rt, Range(Some((lo, hi)))).edges;
    EdgesAreSound(rt, lo, hi);
    EdgeIs(lo, hi, k);
    EdgeIs(lo, hi, k + 1);
    BisectIsExact(edges, x, k);
    assert k > 0 ==> edges[k - 1] == Edge(lo, hi, k);
    assert k < 9 ==> edges[k] == Edge(lo, hi, k + 1);
  }

  /** Around a single value: below it, the value itself, above it, and missing values. */
  lemma SlotOfOneValue(rt: Runtime, value: real, x: real)
    requires value < rt.nextAfter(value)
    ensures var b := BinsOf(rt, Range(Some((value, value))));
            && Slots(b) == 4 && Slot(rt, b, Missing) == 3
            && Slot(rt, b, Number(x)) == if x < value then 0 else if x < rt.nextAfter(value) then 1 else 2
  {
    var edges := BinsOf(rt, Range(Some((value, value)))).edges;
    BisectIsExact(edges, x, if x < value then 0 else if x < rt.nextAfter(value) then 1 else 2);
  }

  /** One slot for every category of the reference, in their order, then one for all others, then one for
      missing values. Without any value in the reference there is one slot for what is present. */
  lemma SlotOfCategory(rt: Runtime, values: set<string>, t: string, c: Cell)
    ensures var b := BinsOf(rt, Categories(values));
            && Slots(b) == |values| + 2 && Slot(rt, b, Missing) == |values| + 1
            && Slot(rt, b, Text(t)) == if t in values then Rank(values, t) else |values|
    ensures var b := BinsOf(rt, Range(None));
            Slots(b) == 2 && Slot(rt, b, c) == if c == Missing then 1 else 0
  {
    CategoryRanks(rt, Categories(values));
  }

  /** A reference is refused exactly for more than a thousand categories, or one longer than 1024 bytes. */
  lemma DomainFitsExactly(rt: Runtime, rows: seq<Row>, name: Name, values: set<string>)
    requires forall v :: v in values <==> exists c | Occurs(rows, name, c) :: Str(rt, c) == v
    ensures DomainFits(rt, DomainOf(rt, false, rows, name)) <==>
              |values| <= 1000 && forall v | v in values :: rt.bytes(v) <= 1024
    ensures DomainFits(rt, DomainOf(rt, true, rows, name))
  {
    DomainSpans(rt, false, rows, name);
    DomainSpans(rt, true, rows, name);
    var d := DomainOf(rt, false, rows, name);
    assert d.Categories?;
    assert d.values == values;
  }
}
