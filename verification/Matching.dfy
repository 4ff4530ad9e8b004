/** Joining predictions with delayed ground truth on an entity key that is unique on both sides. */
module Matching {
  import opened Wrappers
  import opened Tables
  import opened Counting
  import opened Monitoring
  import G = Regression
  import C = Classification

  const MAX_KEY_BYTES: nat := 1024

  predicate KeyFits(rt: Runtime, c: Cell) {
    c != Missing && rt.bytes(Str(rt, c)) <= MAX_KEY_BYTES
  }

  function Key(rt: Runtime, name: Name, r: Row): string {
    Str(rt, r(name))
  }

  function Keys(rt: Runtime, name: Name, rows: seq<Row>): set<string> {
    set i | 0 <= i < |rows| :: Key(rt, name, rows[i])
  }

  ghost predicate Unique(rt: Runtime, name: Name, rows: seq<Row>) {
    && (forall i | 0 <= i < |rows| :: KeyFits(rt, rows[i](name)))
    && (forall i, j | 0 <= i < j < |rows| :: Key(rt, name, rows[i]) != Key(rt, name, rows[j]))
  }

  lemma UniqueOneMore(rt: Runtime, name: Name, rows: seq<Row>, r: Row)
    ensures Unique(rt, name, rows + [r]) <==>
              Unique(rt, name, rows) && KeyFits(rt, r(name)) && Key(rt, name, r) !in Keys(rt, name, rows)
    ensures Keys(rt, name, rows + [r]) == Keys(rt, name, rows) + {Key(rt, name, r)}
  {
    var more := rows + [r];
    assert forall i | 0 <= i < |rows| :: more[i] == rows[i];
    assert more[|rows|] == r;
    if Unique(rt, name, more) {
      assert KeyFits(rt, more[|rows|](name));
      assert forall i | 0 <= i < |rows| :: Key(rt, name, more[i]) != Key(rt, name, more[|rows|]);
    }
    forall k ensures k in Keys(rt, name, more) <==> k in Keys(rt, name, rows) || k == Key(rt, name, r) {
      if k in Keys(rt, name, rows) {
        var i :| 0 <= i < |rows| && Key(rt, name, rows[i]) == k;
        assert Key(rt, name, more[i]) == k;
      }
      assert Key(rt, name, more[|rows|]) in Keys(rt, name, more);
    }
  }

  lemma {:induction false} UniqueKeysCount(rt: Runtime, name: Name, rows: seq<Row>)
    requires Unique(rt, name, rows)
    ensures |Keys(rt, name, rows)| == |rows|
  {
    if rows != [] {
      var last := |rows| - 1;
      assert rows == rows[..last] + [rows[last]];
      UniqueOneMore(rt, name, rows[..last], rows[last]);
      UniqueKeysCount(rt, name, rows[..last]);
    }
  }

  /******* Order *******/

  lemma {:induction false} UniqueIsCounted(rt: Runtime, name: Name, rows: seq<Row>)
    ensures |Keys(rt, name, rows)| <= |rows|
    ensures Unique(rt, name, rows) <==> |Keys(rt, name, rows)| == |rows| && forall r | r in rows :: KeyFits(rt, r(name))
  {
    if rows != [] {
      var last := |rows| - 1;
      var earlier, r := rows[..last], rows[last];
      assert rows == earlier + [r];
      UniqueIsCounted(rt, name, earlier);
      UniqueOneMore(rt, name, earlier, r);
      assert forall q :: q in rows <==> q in earlier || q == r;
    }
  }

  lemma KeysWithin(rt: Runtime, name: Name, a: seq<Row>, b: seq<Row>)
    requires Permuted(a, b)
    ensures Keys(rt, name, a) <= Keys(rt, name, b)
  {
    forall i | 0 <= i < |a| ensures Key(rt, name, a[i]) in Keys(rt, name, b) {
      PermutedMembers(a, b, a[i]);
      var j :| 0 <= j < |b| && b[j] == a[i];
    }
  }

  lemma UniquePermutes(rt: Runtime, name: Name, a: seq<Row>, b: seq<Row>)
    requires Permuted(a, b)
    ensures Unique(rt, name, a) <==> Unique(rt, name, b)
  {
    KeysWithin(rt, name, a, b);
    KeysWithin(rt, name, b, a);
    UniqueIsCounted(rt, name, a);
    UniqueIsCounted(rt, name, b);
    SameSize(a, b);
    assert Keys(rt, name, a) == Keys(rt, name, b);
    AllFitPermutes(rt, name, a, b);
  }

  lemma SameSize(a: seq<Row>, b: seq<Row>)
    requires Permuted(a, b)
    ensures |a| == |b|
  {
    PermutedAgree(a, b, (q: Row) => true, (q: Row) => 0.0);
  }

  lemma AllFitPermutes(rt: Runtime, name: Name, a: seq<Row>, b: seq<Row>)
    requires Permuted(a, b)
    ensures (forall r | r in a :: KeyFits(rt, r(name))) <==> (forall r | r in b :: KeyFits(rt, r(name)))
  {
    forall r ensures r in a <==> r in b { PermutedMembers(a, b, r); }
  }

  /******* Ground truth *******/

  ghost predicate TruthFits(rt: Runtime, s: Spec, rows: seq<Row>) {
    Unique(rt, s.entityKey, rows) && forall i | 0 <= i < |rows| :: rows[i](s.truth) != Missing
  }

  // The label of every entity, as text.
  function TruthOf(rt: Runtime, s: Spec, rows: seq<Row>): map<string, string> {
    if rows == [] then map[]
    else
      var r := rows[|rows| - 1];
      TruthOf(rt, s, rows[..|rows| - 1])[Key(rt, s.entityKey, r) := Str(rt, r(s.truth))]
  }

  lemma TruthOneMore(rt: Runtime, s: Spec, rows: seq<Row>, r: Row)
    ensures TruthOf(rt, s, rows + [r]) == TruthOf(rt, s, rows)[Key(rt, s.entityKey, r) := Str(rt, r(s.truth))]
  {
    assert (rows + [r])[..|rows|] == rows;
  }

  lemma {:induction false} TruthKeys(rt: Runtime, s: Spec, rows: seq<Row>)
    ensures TruthOf(rt, s, rows).Keys == Keys(rt, s.entityKey, rows)
  {
    if rows != [] {
      var last := |rows| - 1;
      assert rows == rows[..last] + [rows[last]];
      UniqueOneMore(rt, s.entityKey, rows[..last], rows[last]);
      TruthKeys(rt, s, rows[..last]);
    }
  }

  lemma TruthFitsOneMore(rt: Runtime, s: Spec, rows: seq<Row>, r: Row)
    ensures TruthFits(rt, s, rows + [r]) <==>
              && TruthFits(rt, s, rows) && KeyFits(rt, r(s.entityKey)) && r(s.truth) != Missing
              && Key(rt, s.entityKey, r) !in TruthOf(rt, s, rows)
  {
    var more := rows + [r];
    UniqueOneMore(rt, s.entityKey, rows, r);
    TruthKeys(rt, s, rows);
    assert forall i | 0 <= i < |rows| :: more[i] == rows[i];
    assert more[|rows|] == r;
  }

  lemma {:induction false} TruthFitsPrefix(rt: Runtime, s: Spec, rows: seq<Row>, n: nat)
    requires n <= |rows| && TruthFits(rt, s, rows)
    ensures TruthFits(rt, s, rows[..n])
  {
  }

  /** The label found for a key is that of the one row that has the key. */
  lemma {:induction false} TruthIsTheRows(rt: Runtime, s: Spec, rows: seq<Row>, i: nat)
    requires TruthFits(rt, s, rows) && i < |rows|
    ensures Key(rt, s.entityKey, rows[i]) in TruthOf(rt, s, rows)
    ensures TruthOf(rt, s, rows)[Key(rt, s.entityKey, rows[i])] == Str(rt, rows[i](s.truth))
  {
    var last := |rows| - 1;
    if i < last {
      TruthFitsPrefix(rt, s, rows, last);
      TruthIsTheRows(rt, s, rows[..last], i);
    }
  }

  /******* Matches *******/

  datatype Match = Match(actual: string, predicted: Cell)

  function Found(rt: Runtime, s: Spec, truth: map<string, string>, r: Row): bool {
    Key(rt, s.entityKey, r) in truth
  }

  // The matched predictions, in the order of their rows.
  function Matches(rt: Runtime, s: Spec, truth: map<string, string>, rows: seq<Row>): (matches: seq<Match>)
    ensures |matches| <= |rows|
  {
    if rows == [] then []
    else
      var r := rows[|rows| - 1];
      Matches(rt, s, truth, rows[..|rows| - 1])
      + if Found(rt, s, truth, r) then [Match(truth[Key(rt, s.entityKey, r)], r(s.prediction))] else []
  }

  lemma MatchesOneMore(rt: Runtime, s: Spec, truth: map<string, string>, rows: seq<Row>, r: Row)
    ensures Matches(rt, s, truth, rows + [r])
         == Matches(rt, s, truth, rows)
            + if Found(rt, s, truth, r) then [Match(truth[Key(rt, s.entityKey, r)], r(s.prediction))] else []
  {
    assert (rows + [r])[..|rows|] == rows;
  }

  // The keys of the matched predictions.
  function MatchedKeys(rt: Runtime, s: Spec, truth: map<string, string>, rows: seq<Row>): set<string> {
    Keys(rt, s.entityKey, rows) * truth.Keys
  }

  lemma {:induction false} MatchesAreTheirKeys(rt: Runtime, s: Spec, truth: map<string, string>, rows: seq<Row>)
    requires Unique(rt, s.entityKey, rows)
    ensures |Matches(rt, s, truth, rows)| == |MatchedKeys(rt, s, truth, rows)|
  {
    if rows != [] {
      var last := |rows| - 1;
      var earlier, r := rows[..last], rows[last];
      assert rows == earlier + [r];
      UniqueOneMore(rt, s.entityKey, earlier, r);
      MatchesAreTheirKeys(rt, s, truth, earlier);
      MatchesOneMore(rt, s, truth, earlier, r);
      MeetOneMore(Keys(rt, s.entityKey, earlier), truth.Keys, Key(rt, s.entityKey, r));
    }
  }

  lemma MeetOneMore(a: set<string>, b: set<string>, k: string)
    requires k !in a
    ensures |(a + {k}) * b| == |a * b| + if k in b then 1 else 0
  {
    assert (a + {k}) * b == if k in b then a * b + {k} else a * b;
  }

  /** No more predictions match than there are labels: every key is unique on both sides. */
  lemma MatchedAtMostTruth(rt: Runtime, s: Spec, truthRows: seq<Row>, rows: seq<Row>)
    requires TruthFits(rt, s, truthRows) && Unique(rt, s.entityKey, rows)
    ensures |Matches(rt, s, TruthOf(rt, s, truthRows), rows)| <= |truthRows|
  {
    var truth := TruthOf(rt, s, truthRows);
    MatchesAreTheirKeys(rt, s, truth, rows);
    TruthKeys(rt, s, truthRows);
    UniqueKeysCount(rt, s.entityKey, truthRows);
    SubsetSize(MatchedKeys(rt, s, truth, rows), truth.Keys);
  }

  function Point(rt: Runtime, m: Match): G.Point {
    G.Point(rt.parse(m.actual), Float(rt, m.predicted))
  }

  function Points(rt: Runtime, matches: seq<Match>): seq<G.Point> {
    seq(|matches|, i requires 0 <= i < |matches| => Point(rt, matches[i]))
  }

  // The text of a label reads back as the number it was.
  predicate ReadsBack(rt: Runtime, c: Cell) {
    c.Number? ==> rt.parse(rt.show(c.value)) == c.value
  }

  /** Where the text of a label reads back, a matched prediction is compared with the number of the one
      label row that has its key. */
  lemma PointIsTheRows(rt: Runtime, s: Spec, truthRows: seq<Row>, i: nat, r: Row)
    requires TruthFits(rt, s, truthRows) && i < |truthRows| && ReadsBack(rt, truthRows[i](s.truth))
    requires Key(rt, s.entityKey, r) == Key(rt, s.entityKey, truthRows[i])
    ensures var truth := TruthOf(rt, s, truthRows);
            && Found(rt, s, truth, r)
            && Point(rt, Match(truth[Key(rt, s.entityKey, r)], r(s.prediction)))
              == G.Point(Float(rt, truthRows[i](s.truth)), Float(rt, r(s.prediction)))
  {
    TruthIsTheRows(rt, s, truthRows, i);
  }

  function Outcome(rt: Runtime, m: Match): C.Outcome {
    C.Outcome(m.actual, Str(rt, m.predicted))
  }

  function Outcomes(rt: Runtime, matches: seq<Match>): seq<C.Outcome> {
    seq(|matches|, i requires 0 <= i < |matches| => Outcome(rt, matches[i]))
  }

  /******* The pass over the predictions *******/

  ghost predicate Null(rt: Runtime, s: Spec, truth: map<string, string>, r: Row) {
    Found(rt, s, truth, r) && r(s.prediction) == Missing
  }

  predicate FewLabels(rt: Runtime, s: Spec, matches: seq<Match>) {
    s.task == Classification ==> |C.LabelsOf(Outcomes(rt, matches))| <= C.MAX_LABELS
  }

  ghost predicate PredictionsFit(rt: Runtime, s: Spec, truth: map<string, string>, rows: seq<Row>) {
    && Unique(rt, s.entityKey, rows)
    && (forall i | 0 <= i < |rows| :: !Null(rt, s, truth, rows[i]))
    && FewLabels(rt, s, Matches(rt, s, truth, rows))
  }

  // What is known after some rows.
  datatype Progress = Progress(seen: set<string>, observed: nat, matched: nat, sums: G.Sums, confusion: C.Confusion)

  const START := Progress({}, 0, 0, G.ZERO, C.EMPTY)

  function AddMatch(rt: Runtime, s: Spec, p: Progress, m: Match): Option<Progress> {
    var q := p.(matched := p.matched + 1);
    match s.task
    case Regression => Some(q.(sums := G.Add(p.sums, Point(rt, m))))
    case Classification =>
      var confusion := C.Add(p.confusion, Outcome(rt, m));
      if |confusion.labels| > C.MAX_LABELS then None else Some(q.(confusion := confusion))
  }

  // One prediction: refused for a bad or repeated key, a missing matched value, or one label too many.
  function Take(rt: Runtime, s: Spec, truth: map<string, string>, p: Progress, r: Row): Option<Progress> {
    var k := Key(rt, s.entityKey, r);
    if !KeyFits(rt, r(s.entityKey)) || k in p.seen then None
    else
      var q := p.(seen := p.seen + {k}, observed := p.observed + 1);
      if k !in truth then Some(q)
      else if r(s.prediction) == Missing then None
      else AddMatch(rt, s, q, Match(truth[k], r(s.prediction)))
  }

  ghost predicate Summarizes(rt: Runtime, s: Spec, matches: seq<Match>, p: Progress) {
    && p.matched == |matches|
    && match s.task
       case Regression => p.sums == G.Streamed(Points(rt, matches))
       case Classification => C.Exact(Outcomes(rt, matches), p.confusion)
  }

  ghost predicate Follows(rt: Runtime, s: Spec, truth: map<string, string>, rows: seq<Row>, p: Progress) {
    && p.seen == Keys(rt, s.entityKey, rows)
    && p.observed == |rows|
    && Summarizes(rt, s, Matches(rt, s, truth, rows), p)
  }

  lemma StartFollows(rt: Runtime, s: Spec, truth: map<string, string>)
    ensures Follows(rt, s, truth, [], START) && PredictionsFit(rt, s, truth, [])
  {
    assert C.LabelsOf([]) == {};
  }

  lemma AddMatchSummarizes(rt: Runtime, s: Spec, matches: seq<Match>, p: Progress, m: Match)
    requires Summarizes(rt, s, matches, p)
    ensures AddMatch(rt, s, p, m).Some? <==> FewLabels(rt, s, matches + [m])
    ensures AddMatch(rt, s, p, m).Some? ==> Summarizes(rt, s, matches + [m], AddMatch(rt, s, p, m).value)
  {
    assert Points(rt, matches + [m]) == Points(rt, matches) + [Point(rt, m)];
    assert (Points(rt, matches) + [Point(rt, m)])[..|matches|] == Points(rt, matches);
    assert Outcomes(rt, matches + [m]) == Outcomes(rt, matches) + [Outcome(rt, m)];
    if s.task == Classification {
      C.AddIsExact(Outcomes(rt, matches), Outcome(rt, m), p.confusion);
    }
  }

  lemma FewLabelsBefore(rt: Runtime, s: Spec, matches: seq<Match>, n: nat)
    requires n <= |matches| && FewLabels(rt, s, matches)
    ensures FewLabels(rt, s, matches[..n])
  {
    var all, some := Outcomes(rt, matches), Outcomes(rt, matches[..n]);
    assert some == all[..n];
    C.LabelsGrow(all, n);
    SubsetSize(C.LabelsOf(some), C.LabelsOf(all));
  }

  lemma FitOneMore(rt: Runtime, s: Spec, truth: map<string, string>, rows: seq<Row>, r: Row)
    ensures PredictionsFit(rt, s, truth, rows + [r]) <==>
              && PredictionsFit(rt, s, truth, rows)
              && KeyFits(rt, r(s.entityKey)) && Key(rt, s.entityKey, r) !in Keys(rt, s.entityKey, rows)
              && !Null(rt, s, truth, r) && FewLabels(rt, s, Matches(rt, s, truth, rows + [r]))
  {
    var more := rows + [r];
    UniqueOneMore(rt, s.entityKey, rows, r);
    MatchesOneMore(rt, s, truth, rows, r);
    assert forall i | 0 <= i < |rows| :: more[i] == rows[i];
    assert more[|rows|] == r;
    var matches := Matches(rt, s, truth, rows);
    if FewLabels(rt, s, Matches(rt, s, truth, more)) {
      FewLabelsBefore(rt, s, Matches(rt, s, truth, more), |matches|);
      assert Matches(rt, s, truth, more)[..|matches|] == matches;
    }
  }

  lemma TakeFollows(rt: Runtime, s: Spec, truth: map<string, string>, rows: seq<Row>, p: Progress, r: Row)
    requires Follows(rt, s, truth, rows, p) && PredictionsFit(rt, s, truth, rows)
    ensures Take(rt, s, truth, p, r).Some? <==> PredictionsFit(rt, s, truth, rows + [r])
    ensures Take(rt, s, truth, p, r).Some? ==> Follows(rt, s, truth, rows + [r], Take(rt, s, truth, p, r).value)
  {
    var k := Key(rt, s.entityKey, r);
    var matches := Matches(rt, s, truth, rows);
    FitOneMore(rt, s, truth, rows, r);
    UniqueOneMore(rt, s.entityKey, rows, r);
    MatchesOneMore(rt, s, truth, rows, r);
    if Found(rt, s, truth, r) {
      var q := p.(seen := p.seen + {k}, observed := p.observed + 1);
      AddMatchSummarizes(rt, s, matches, q, Match(truth[k], r(s.prediction)));
    } else {
      assert Matches(rt, s, truth, rows + [r]) == matches;
    }
  }

  // What is known after the first k rows, unless one of them was refused.
  function Joining(rt: Runtime, s: Spec, truth: map<string, string>, rows: seq<Row>, k: nat): Option<Progress>
    requires k <= |rows|
  {
    if k == 0 then Some(START)
    else
      match Joining(rt, s, truth, rows, k - 1)
      case None => None
      case Some(p) => Take(rt, s, truth, p, rows[k - 1])
  }

  lemma {:induction false} RefusedStays(rt: Runtime, s: Spec, truth: map<string, string>, rows: seq<Row>, k: nat,
      n: nat)
    requires k <= n <= |rows| && Joining(rt, s, truth, rows, k).None?
    ensures Joining(rt, s, truth, rows, n).None?
  {
    if k < n {
      RefusedStays(rt, s, truth, rows, k, n - 1);
    }
  }

  /** The pass takes in exactly the rows whose keys are unique, whose matched values are present and whose
      labels are few; and what it then knows is what all of them say. */
  lemma {:induction false} JoiningIsExact(rt: Runtime, s: Spec, truth: map<string, string>, rows: seq<Row>, k: nat)
    requires k <= |rows|
    ensures Joining(rt, s, truth, rows, k).Some? <==> PredictionsFit(rt, s, truth, rows[..k])
    ensures Joining(rt, s, truth, rows, k).Some? ==>
              Follows(rt, s, truth, rows[..k], Joining(rt, s, truth, rows, k).value)
  {
    if k == 0 {
      StartFollows(rt, s, truth);
    } else {
      JoiningIsExact(rt, s, truth, rows, k - 1);
      assert rows[..k] == rows[..k - 1] + [rows[k - 1]];
      if Joining(rt, s, truth, rows, k - 1).Some? {
        TakeFollows(rt, s, truth, rows[..k - 1], Joining(rt, s, truth, rows, k - 1).value, rows[k - 1]);
      } else {
        FitOneMore(rt, s, truth, rows[..k - 1], rows[k - 1]);
      }
    }
  }
}
