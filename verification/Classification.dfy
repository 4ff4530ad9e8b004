/** Accuracy and macro-F1 from a confusion count collected one matched row at a time. */
module Classification {
  import opened Wrappers
  import opened Counting
  import P = Psi

  datatype Outcome = Outcome(actual: string, predicted: string)

  const MAX_LABELS: nat := 20

  // The labels met, and how often each outcome was; an outcome never met is absent.
  datatype Confusion = Confusion(labels: set<string>, counts: map<Outcome, nat>)

  const EMPTY := Confusion({}, map[])

  function Get(c: Confusion, o: Outcome): nat {
    if o in c.counts then c.counts[o] else 0
  }

  function Add(c: Confusion, o: Outcome): Confusion {
    Confusion(c.labels + {o.actual, o.predicted}, c.counts[o := Get(c, o) + 1])
  }

  /******* The whole-dataset definitions *******/

  function Is(o: Outcome): Outcome -> bool { (p: Outcome) => p == o }

  function LabelsOf(outcomes: seq<Outcome>): set<string> {
    (set o | o in outcomes :: o.actual) + (set o | o in outcomes :: o.predicted)
  }

  ghost predicate Exact(outcomes: seq<Outcome>, c: Confusion) {
    && c.labels == LabelsOf(outcomes)
    && (forall o :: o in c.counts <==> o in outcomes)
    && (forall o | o in c.counts :: c.counts[o] == CountIf(outcomes, Is(o)))
  }

  lemma AddIsExact(outcomes: seq<Outcome>, o: Outcome, c: Confusion)
    requires Exact(outcomes, c)
    ensures Exact(outcomes + [o], Add(c, o))
  {
    var more := outcomes + [o];
    assert forall p :: p in more <==> p in outcomes || p == o;
    assert Add(c, o).labels == LabelsOf(more);
    forall p | p in Add(c, o).counts ensures Add(c, o).counts[p] == CountIf(more, Is(p)) {
      CountOneMore(outcomes, o, c, p);
    }
  }

  lemma CountOneMore(outcomes: seq<Outcome>, o: Outcome, c: Confusion, p: Outcome)
    requires Exact(outcomes, c)
    ensures Get(Add(c, o), p) == CountIf(outcomes + [o], Is(p))
  {
    OneMore(outcomes, o, Is(p), (q: Outcome) => 0.0);
    CountsNone(outcomes, Is(p));
  }

  lemma LabelsPermute(a: seq<Outcome>, b: seq<Outcome>)
    requires Permuted(a, b)
    ensures LabelsOf(a) == LabelsOf(b)
  {
    forall o ensures o in a <==> o in b { PermutedMembers(a, b, o); }
  }

  // The labels of some rows are among those of all of them.
  lemma LabelsGrow(outcomes: seq<Outcome>, n: nat)
    requires n <= |outcomes|
    ensures LabelsOf(outcomes[..n]) <= LabelsOf(outcomes)
  {
    assert forall o | o in outcomes[..n] :: o in outcomes;
  }

  function Right(o: Outcome): bool { o.actual == o.predicted }

  function Hits(value: string): Outcome -> bool { (o: Outcome) => o.actual == value && o.predicted == value }

  function FalseAlarms(value: string): Outcome -> bool { (o: Outcome) => o.actual != value && o.predicted == value }

  function Misses(value: string): Outcome -> bool { (o: Outcome) => o.actual == value && o.predicted != value }

  function F1(tp: nat, fp: nat, fn: nat): real {
    if 2 * tp + fp + fn == 0 then 0.0 else (2 * tp) as real / (2 * tp + fp + fn) as real
  }

  function F1Of(outcomes: seq<Outcome>, value: string): real {
    F1(CountIf(outcomes, Hits(value)), CountIf(outcomes, FalseAlarms(value)), CountIf(outcomes, Misses(value)))
  }

  ghost function F1Sum(outcomes: seq<Outcome>, labels: set<string>): real {
    if labels == {} then 0.0
    else
      var value :| value in labels;
      F1Of(outcomes, value) + F1Sum(outcomes, labels - {value})
  }

  // Any value may be taken first.
  lemma {:induction false} F1SumPick(outcomes: seq<Outcome>, labels: set<string>, value: string)
    requires value in labels
    ensures F1Sum(outcomes, labels) == F1Of(outcomes, value) + F1Sum(outcomes, labels - {value})
  {
    var first :| first in labels
      && F1Sum(outcomes, labels) == F1Of(outcomes, first) + F1Sum(outcomes, labels - {first});
    if first != value {
      F1SumPick(outcomes, labels - {first}, value);
      F1SumPick(outcomes, labels - {value}, first);
      assert labels - {first} - {value} == labels - {value} - {first};
    }
  }

  ghost function Accuracy(outcomes: seq<Outcome>): real
    requires outcomes != []
  {
    CountIf(outcomes, Right) as real / |outcomes| as real
  }

  ghost function MacroF1(outcomes: seq<Outcome>): real
    requires outcomes != []
  {
    LabelsAreSome(outcomes);
    F1Sum(outcomes, LabelsOf(outcomes)) / |LabelsOf(outcomes)| as real
  }

  lemma LabelsAreSome(outcomes: seq<Outcome>)
    requires outcomes != []
    ensures |LabelsOf(outcomes)| > 0
  {
    assert outcomes[0].actual in LabelsOf(outcomes);
  }

  /******* From the confusion counts *******/

  // Outcomes of a kind, among those already looked at.
  function Among(keys: set<Outcome>, keep: Outcome -> bool): Outcome -> bool {
    (o: Outcome) => o in keys && keep(o)
  }

  lemma {:induction false} Disjoint(s: seq<Outcome>, p: Outcome -> bool, q: Outcome -> bool, r: Outcome -> bool)
    requires forall o :: (r(o) <==> p(o) || q(o)) && !(p(o) && q(o))
    ensures CountIf(s, r) == CountIf(s, p) + CountIf(s, q)
  {
    if s != [] {
      Disjoint(s[..|s| - 1], p, q, r);
    }
  }

  lemma OneMoreKey(outcomes: seq<Outcome>, keys: set<Outcome>, keep: Outcome -> bool, o: Outcome)
    requires o !in keys
    ensures CountIf(outcomes, Among(keys + {o}, keep))
           == CountIf(outcomes, Among(keys, keep)) + if keep(o) then CountIf(outcomes, Is(o)) else 0
  {
    var none := (p: Outcome) => false;
    CountsNone(outcomes, none);
    if keep(o) {
      Disjoint(outcomes, Among(keys, keep), Is(o), Among(keys + {o}, keep));
    } else {
      Disjoint(outcomes, Among(keys, keep), none, Among(keys + {o}, keep));
    }
  }

  // The outcomes of a kind that are not still to be looked at.
  ghost function Counted(outcomes: seq<Outcome>, c: Confusion, keep: Outcome -> bool, todo: set<Outcome>): nat {
    CountIf(outcomes, Among(c.counts.Keys - todo, keep))
  }

  lemma CountedFrom(outcomes: seq<Outcome>, c: Confusion, keep: Outcome -> bool)
    requires Exact(outcomes, c)
    ensures Counted(outcomes, c, keep, c.counts.Keys) == 0
    ensures Counted(outcomes, c, keep, {}) == CountIf(outcomes, keep)
  {
    CountsNone(outcomes, Among(c.counts.Keys - c.counts.Keys, keep));
    SameOnAll(outcomes, Among(c.counts.Keys - {}, keep), keep);
  }

  lemma CountedStep(outcomes: seq<Outcome>, c: Confusion, keep: Outcome -> bool, todo: set<Outcome>, o: Outcome)
    requires Exact(outcomes, c) && o in todo && todo <= c.counts.Keys
    ensures Counted(outcomes, c, keep, todo - {o})
         == Counted(outcomes, c, keep, todo) + if keep(o) then c.counts[o] else 0
  {
    OneMoreKey(outcomes, c.counts.Keys - todo, keep, o);
    assert c.counts.Keys - todo + {o} == c.counts.Keys - (todo - {o});
  }

  // Adds up the counts of the outcomes of a kind.
  method Total(c: Confusion, keep: Outcome -> bool, ghost outcomes: seq<Outcome>) returns (n: nat)
    requires Exact(outcomes, c)
    ensures n == CountIf(outcomes, keep)
  {
    n := 0;
    var todo := c.counts.Keys;
    CountedFrom(outcomes, c, keep);
    while todo != {}
      invariant todo <= c.counts.Keys
      invariant n == Counted(outcomes, c, keep, todo)
      decreases todo
    {
      var o :| o in todo;
      CountedStep(outcomes, c, keep, todo, o);
      if keep(o) {
        n := n + c.counts[o];
      }
      todo := todo - {o};
    }
  }

  lemma HitsAreOne(outcomes: seq<Outcome>, c: Confusion, value: string)
    requires Exact(outcomes, c)
    ensures Get(c, Outcome(value, value)) == CountIf(outcomes, Hits(value))
  {
    var o := Outcome(value, value);
    SameOnAll(outcomes, Hits(value), Is(o));
    CountsNone(outcomes, Is(o));
  }

  // Right answers whose value was already looked at.
  function RightAmong(labels: set<string>): Outcome -> bool {
    (o: Outcome) => o.actual in labels && o.actual == o.predicted
  }

  lemma OneMoreLabel(outcomes: seq<Outcome>, labels: set<string>, value: string)
    requires value !in labels
    ensures CountIf(outcomes, RightAmong(labels + {value}))
           == CountIf(outcomes, RightAmong(labels)) + CountIf(outcomes, Hits(value))
  {
    Disjoint(outcomes, RightAmong(labels), Hits(value), RightAmong(labels + {value}));
  }

  // The right answers whose label is not still to be looked at.
  ghost function Scored(outcomes: seq<Outcome>, labels: set<string>, todo: set<string>): nat {
    CountIf(outcomes, RightAmong(labels - todo))
  }

  lemma ScoredFrom(outcomes: seq<Outcome>)
    ensures var labels := LabelsOf(outcomes);
            Scored(outcomes, labels, labels) == 0 && Scored(outcomes, labels, {}) == CountIf(outcomes, Right)
  {
    var labels := LabelsOf(outcomes);
    CountsNone(outcomes, RightAmong(labels - labels));
    SameOnAll(outcomes, RightAmong(labels - {}), Right);
  }

  lemma ScoredStep(outcomes: seq<Outcome>, c: Confusion, todo: set<string>, value: string)
    requires Exact(outcomes, c) && value in todo && todo <= c.labels
    ensures Scored(outcomes, c.labels, todo - {value})
           == Scored(outcomes, c.labels, todo) + Get(c, Outcome(value, value))
  {
    OneMoreLabel(outcomes, c.labels - todo, value);
    HitsAreOne(outcomes, c, value);
    assert c.labels - todo + {value} == c.labels - (todo - {value});
  }

  // The F1 score of one label, from the counts.
  method ScoreLabel(c: Confusion, value: string, ghost outcomes: seq<Outcome>) returns (f1: real)
    requires Exact(outcomes, c)
    ensures f1 == F1Of(outcomes, value)
  {
    HitsAreOne(outcomes, c, value);
    var tp := Get(c, Outcome(value, value));
    var fp := Total(c, FalseAlarms(value), outcomes);
    var fn := Total(c, Misses(value), outcomes);
    f1 := F1(tp, fp, fn);
  }

  // One label on: its hits join the right answers, and its score the sum.
  ghost predicate SoFar(outcomes: seq<Outcome>, labels: set<string>, todo: set<string>, right: nat, sum: real) {
    right == Scored(outcomes, labels, todo) && sum + F1Sum(outcomes, todo) == F1Sum(outcomes, labels)
  }

  lemma SoFarStep(outcomes: seq<Outcome>, c: Confusion, todo: set<string>, value: string, right: nat, sum: real)
    requires Exact(outcomes, c) && value in todo && todo <= c.labels && SoFar(outcomes, c.labels, todo, right, sum)
    ensures SoFar(outcomes, c.labels, todo - {value}, right + Get(c, Outcome(value, value)),
                  sum + F1Of(outcomes, value))
  {
    ScoredStep(outcomes, c, todo, value);
    F1SumPick(outcomes, todo, value);
  }

  method SumLabels(c: Confusion, ghost outcomes: seq<Outcome>) returns (right: nat, sum: real)
    requires Exact(outcomes, c)
    ensures right == CountIf(outcomes, Right) && sum == F1Sum(outcomes, c.labels)
  {
    right, sum := 0, 0.0;
    var todo := c.labels;
    ScoredFrom(outcomes);
    while todo != {}
      invariant todo <= c.labels && SoFar(outcomes, c.labels, todo, right, sum)
      decreases todo
    {
      var value :| value in todo;
      SoFarStep(outcomes, c, todo, value, right, sum);
      var f1 := ScoreLabel(c, value, outcomes);
      right, sum := right + Get(c, Outcome(value, value)), sum + f1;
      todo := todo - {value};
    }
  }

  /** The metrics computed from the counts are those of all outcomes: the rate of right answers, and the
      mean over the labels of the harmonic mean of precision and recall. */
  method Score(c: Confusion, matched: nat, ghost outcomes: seq<Outcome>) returns (accuracy: real, macroF1: real)
    requires Exact(outcomes, c) && matched == |outcomes| > 0
    ensures accuracy == Accuracy(outcomes) && macroF1 == MacroF1(outcomes)
  {
    var right, sum := SumLabels(c, outcomes);
    LabelsAreSome(outcomes);
    accuracy := right as real / matched as real;
    macroF1 := sum / |c.labels| as real;
  }

  /******* What the metrics can be *******/

  /** Every value was met, so the fallback for a value without any outcome is never taken. */
  lemma LabelHasOutcomes(outcomes: seq<Outcome>, value: string)
    requires value in LabelsOf(outcomes)
    ensures 2 * CountIf(outcomes, Hits(value)) + CountIf(outcomes, FalseAlarms(value))
              + CountIf(outcomes, Misses(value)) > 0
    ensures F1(0, 0, 0) == 0.0
  {
    var o :| o in outcomes && (o.actual == value || o.predicted == value);
    CountsNone(outcomes, Hits(value));
    CountsNone(outcomes, FalseAlarms(value));
    CountsNone(outcomes, Misses(value));
  }

  lemma F1IsARate(tp: nat, fp: nat, fn: nat)
    requires 2 * tp + fp + fn > 0
    ensures 0.0 <= F1(tp, fp, fn) <= 1.0
    ensures F1(tp, fp, fn) == 1.0 <==> fp == 0 && fn == 0
  {
    var x, y := (2 * tp) as real, (2 * tp + fp + fn) as real;
    RateOf(x, y);
  }

  lemma RateOf(x: real, y: real)
    requires 0.0 <= x <= y && y > 0.0
    ensures 0.0 <= x / y <= 1.0
    ensures x / y == 1.0 <==> x == y
  {
    var q := x / y;
    assert q * y == x;
    P.Sign(q, y);
    assert (1.0 - q) * y == y - q * y;
    P.Sign(1.0 - q, y);
  }

  // No value of the set was confused with another.
  ghost predicate Clean(outcomes: seq<Outcome>, labels: set<string>) {
    forall value | value in labels ::
      CountIf(outcomes, FalseAlarms(value)) == 0 && CountIf(outcomes, Misses(value)) == 0
  }

  lemma {:induction false} F1SumIsBounded(outcomes: seq<Outcome>, labels: set<string>)
    requires labels <= LabelsOf(outcomes)
    ensures 0.0 <= F1Sum(outcomes, labels) <= |labels| as real
    ensures F1Sum(outcomes, labels) == |labels| as real <==> Clean(outcomes, labels)
  {
    if labels != {} {
      var value :| value in labels;
      F1SumPick(outcomes, labels, value);
      F1SumIsBounded(outcomes, labels - {value});
      LabelHasOutcomes(outcomes, value);
      F1IsARate(CountIf(outcomes, Hits(value)), CountIf(outcomes, FalseAlarms(value)),
          CountIf(outcomes, Misses(value)));
      CleanOneMore(outcomes, labels, value);
    }
  }

  lemma CleanOneMore(outcomes: seq<Outcome>, labels: set<string>, value: string)
    requires value in labels
    ensures Clean(outcomes, labels) <==>
              Clean(outcomes, labels - {value}) && CountIf(outcomes, FalseAlarms(value)) == 0
                && CountIf(outcomes, Misses(value)) == 0
  {
  }

  lemma CleanMeansAllRight(outcomes: seq<Outcome>)
    ensures Clean(outcomes, LabelsOf(outcomes)) <==> CountIf(outcomes, Right) == |outcomes|
  {
    CountsNone(outcomes, Right);
    forall value
      ensures CountIf(outcomes, FalseAlarms(value)) == 0 <==> forall o | o in outcomes :: !FalseAlarms(value)(o)
      ensures (CountIf(outcomes, Misses(value)) == 0 <==> forall o | o in outcomes :: !Misses(value)(o))
    {
      CountsNone(outcomes, FalseAlarms(value));
      CountsNone(outcomes, Misses(value));
    }
    if Clean(outcomes, LabelsOf(outcomes)) {
      forall o | o in outcomes ensures Right(o) {
        assert o.actual in LabelsOf(outcomes);
        assert !Misses(o.actual)(o);
      }
    }
  }

  /** Both metrics are rates, and one of them is perfect exactly when the other is. */
  lemma ScoresAreRates(outcomes: seq<Outcome>)
    requires outcomes != []
    ensures 0.0 <= Accuracy(outcomes) <= 1.0 && 0.0 <= MacroF1(outcomes) <= 1.0
    ensures Accuracy(outcomes) == 1.0 <==> MacroF1(outcomes) == 1.0
  {
    LabelsAreSome(outcomes);
    F1SumIsBounded(outcomes, LabelsOf(outcomes));
    CleanMeansAllRight(outcomes);
    RateOf(CountIf(outcomes, Right) as real, |outcomes| as real);
    RateOf(F1Sum(outcomes, LabelsOf(outcomes)), |LabelsOf(outcomes)| as real);
  }

  /** The order of the matched rows changes neither metric. */
  lemma ScoresIgnoreOrder(a: seq<Outcome>, b: seq<Outcome>)
    requires Permuted(a, b) && a != [] && b != []
    ensures Accuracy(a) == Accuracy(b) && MacroF1(a) == MacroF1(b)
  {
    LabelsPermute(a, b);
    PermutedAgree(a, b, Right, (q: Outcome) => 0.0);
    F1SumPermutes(a, b, LabelsOf(a));
  }

  lemma {:induction false} F1SumPermutes(a: seq<Outcome>, b: seq<Outcome>, labels: set<string>)
    requires Permuted(a, b)
    ensures F1Sum(a, labels) == F1Sum(b, labels)
  {
    if labels != {} {
      var value :| value in labels;
      F1SumPick(a, labels, value);
      F1SumPick(b, labels, value);
      PermutedAgree(a, b, Hits(value), (q: Outcome) => 0.0);
      PermutedAgree(a, b, FalseAlarms(value), (q: Outcome) => 0.0);
      PermutedAgree(a, b, Misses(value), (q: Outcome) => 0.0);
      F1SumPermutes(a, b, labels - {value});
    }
  }

  ghost function Entries(c: Confusion, keys: set<Outcome>): nat
    requires keys <= c.counts.Keys
  {
    if keys == {} then 0
    else
      var o :| o in keys;
      c.counts[o] + Entries(c, keys - {o})
  }

  lemma {:induction false} EntriesAmong(outcomes: seq<Outcome>, c: Confusion, keys: set<Outcome>)
    requires Exact(outcomes, c) && keys <= c.counts.Keys
    ensures Entries(c, keys) == CountIf(outcomes, Among(keys, (o: Outcome) => true))
  {
    var all := (o: Outcome) => true;
    if keys == {} {
      CountsNone(outcomes, Among(keys, all));
    } else {
      var o :| o in keys && Entries(c, keys) == c.counts[o] + Entries(c, keys - {o});
      EntriesAmong(outcomes, c, keys - {o});
      OneMoreKey(outcomes, keys - {o}, all, o);
      assert keys - {o} + {o} == keys;
    }
  }

  /** The entries of the confusion count sum to the matched rows. */
  lemma EntriesSumToMatched(outcomes: seq<Outcome>, c: Confusion)
    requires Exact(outcomes, c)
    ensures Entries(c, c.counts.Keys) == |outcomes|
  {
    EntriesAmong(outcomes, c, c.counts.Keys);
    CountsNone(outcomes, Among(c.counts.Keys, (o: Outcome) => true));
  }

  /******* What the metrics are *******/

  // Rows answered right.
  ghost function RightRows(outcomes: seq<Outcome>): set<int> {
    set i | 0 <= i < |outcomes| && outcomes[i].actual == outcomes[i].predicted
  }

  /** Accuracy is the share of the rows answered right. */
  lemma AccuracyIsExact(outcomes: seq<Outcome>)
    requires outcomes != []
    ensures Accuracy(outcomes) == |RightRows(outcomes)| as real / |outcomes| as real
  {
    CountIsASet(outcomes, Right);
    assert Where(outcomes, Right) == RightRows(outcomes);
  }

  ghost function HitRows(outcomes: seq<Outcome>, value: string): set<int> {
    set i | 0 <= i < |outcomes| && outcomes[i].actual == value && outcomes[i].predicted == value
  }

  // Rows where only the answer, or only the truth, is the label.
  ghost function AlarmRows(outcomes: seq<Outcome>, value: string): set<int> {
    set i | 0 <= i < |outcomes| && outcomes[i].actual != value && outcomes[i].predicted == value
  }

  ghost function MissRows(outcomes: seq<Outcome>, value: string): set<int> {
    set i | 0 <= i < |outcomes| && outcomes[i].actual == value && outcomes[i].predicted != value
  }

  lemma RowsAreCounted(outcomes: seq<Outcome>, value: string)
    ensures CountIf(outcomes, Hits(value)) == |HitRows(outcomes, value)|
    ensures CountIf(outcomes, FalseAlarms(value)) == |AlarmRows(outcomes, value)|
    ensures CountIf(outcomes, Misses(value)) == |MissRows(outcomes, value)|
  {
    CountIsASet(outcomes, Hits(value));
    CountIsASet(outcomes, FalseAlarms(value));
    CountIsASet(outcomes, Misses(value));
    assert Where(outcomes, Hits(value)) == HitRows(outcomes, value);
    assert Where(outcomes, FalseAlarms(value)) == AlarmRows(outcomes, value);
    assert Where(outcomes, Misses(value)) == MissRows(outcomes, value);
  }

  /** The score of a label is twice its hits, over twice its hits with its false alarms and its misses: the
      harmonic mean of precision and recall. */
  lemma ScoreOfLabelIsExact(outcomes: seq<Outcome>, value: string)
    requires value in LabelsOf(outcomes)
    ensures var hits := |HitRows(outcomes, value)|;
            var all := 2 * hits + |AlarmRows(outcomes, value)| + |MissRows(outcomes, value)|;
            all > 0 && F1Of(outcomes, value) == (2 * hits) as real / all as real
  {
    RowsAreCounted(outcomes, value);
    LabelHasOutcomes(outcomes, value);
  }

  function ScoreOf(outcomes: seq<Outcome>): string -> real {
    (value: string) => F1Of(outcomes, value)
  }

  ghost function SetOf(labels: seq<string>): set<string> {
    set v | v in labels
  }

  /** The labels are those answered or true in some row. */
  lemma LabelsAreMet(outcomes: seq<Outcome>, value: string)
    ensures value in LabelsOf(outcomes) <==> exists o | o in outcomes :: value == o.actual || value == o.predicted
  {
  }

  // All labels, each once.
  ghost predicate Lists(labels: seq<string>, outcomes: seq<Outcome>) {
    NoneTwice(labels) && SetOf(labels) == LabelsOf(outcomes)
  }

  ghost predicate NoneTwice(labels: seq<string>) {
    forall i, j | 0 <= i < j < |labels| :: labels[i] != labels[j]
  }

  /** Macro-F1 is the mean of the scores over the labels, in whatever order they are listed. */
  lemma MacroF1IsTheMean(outcomes: seq<Outcome>, labels: seq<string>)
    requires outcomes != [] && Lists(labels, outcomes)
    ensures |labels| > 0
    ensures MacroF1(outcomes) == SumOf(labels, ScoreOf(outcomes)) / |labels| as real
  {
    LabelsAreSome(outcomes);
    ListedOnce(outcomes, labels);
  }

  lemma {:induction false} ListedOnce(outcomes: seq<Outcome>, labels: seq<string>)
    requires NoneTwice(labels)
    ensures |SetOf(labels)| == |labels| && F1Sum(outcomes, SetOf(labels)) == SumOf(labels, ScoreOf(outcomes))
  {
    if labels != [] {
      var last := |labels| - 1;
      ListedOnce(outcomes, labels[..last]);
      SetOneMore(labels[..last], labels[last]);
      assert labels == labels[..last] + [labels[last]];
      F1SumPick(outcomes, SetOf(labels), labels[last]);
    }
  }

  lemma SetOneMore(labels: seq<string>, value: string)
    requires forall i | 0 <= i < |labels| :: labels[i] != value
    ensures value !in SetOf(labels) && SetOf(labels + [value]) == SetOf(labels) + {value}
    ensures SetOf(labels + [value]) - {value} == SetOf(labels)
  {
  }
}
