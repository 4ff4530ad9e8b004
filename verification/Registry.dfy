/** Model versions, their evaluations and their promotions, transaction by transaction. */
module Registry {
  import opened Wrappers

  datatype ModelStatus = Registered | Evaluating | Rejected | Candidate | Champion | Archived

  datatype EvaluationStatus = Running | Passed | Failed

  datatype Version = Version(model: nat, status: ModelStatus)

  // A PENDING evaluation only exists inside the transaction that starts it.
  datatype Evaluation = Evaluation(version: nat, baseline: Option<nat>, status: EvaluationStatus)

  datatype Promotion = Promotion(version: nat, previous: Option<nat>)

  // Rows in insertion order; a row's id is its position.
  datatype Registry = Registry(
    versions: seq<Version>,
    evaluations: seq<Evaluation>,
    promotions: seq<Promotion>)

  // Acceptance bounds of one metric.
  datatype Threshold = Threshold(min: Option<real>, max: Option<real>)

  /******* The model-version state machine *******/

  predicate CanMove(source: ModelStatus, target: ModelStatus) {
    match source
    case Registered => target == Evaluating
    case Evaluating => target == Rejected || target == Candidate
    case Rejected => false
    case Candidate => target == Champion || target == Archived || target == Rejected
    case Champion => target == Archived
    case Archived => target == Champion
  }

  /** What can become of a version, by what it becomes: every status is left for good but two, between which
      a champion and its predecessors alternate. */
  lemma StatusesFollow(source: ModelStatus, target: ModelStatus)
    ensures target == Registered ==> !CanMove(source, target)
    ensures target == Evaluating ==> (CanMove(source, target) <==> source == Registered)
    ensures target == Rejected ==> (CanMove(source, target) <==> source in {Evaluating, Candidate})
    ensures target == Candidate ==> (CanMove(source, target) <==> source == Evaluating)
    ensures target == Champion ==> (CanMove(source, target) <==> source in {Candidate, Archived})
    ensures target == Archived ==> (CanMove(source, target) <==> source in {Candidate, Champion})
  {
  }

  predicate Deployable(status: ModelStatus) {
    status == Candidate || status == Champion
  }

  /******* Champions *******/

  predicate IsChampion(versions: seq<Version>, model: nat, v: nat) {
    v < |versions| && versions[v] == Version(model, Champion)
  }

  // The first CHAMPION row of a model.
  function ChampionOf(versions: seq<Version>, model: nat): (r: Option<nat>)
    ensures r.Some? ==> IsChampion(versions, model, r.value)
    ensures r.None? ==> forall v: nat :: !IsChampion(versions, model, v)
  {
    if versions == [] then
      None
    else
      var rest := versions[..|versions| - 1];
      match ChampionOf(rest, model)
      case Some(v) => Some(v)
      case None =>
        assert forall v: nat | v < |rest| :: versions[v] == rest[v] && !IsChampion(rest, model, v);
        if versions[|rest|] == Version(model, Champion) then Some(|rest|) else None
  }

  ghost predicate OneChampion(versions: seq<Version>) {
    forall model, v: nat, w: nat ::
      IsChampion(versions, model, v) && IsChampion(versions, model, w) ==> v == w
  }

  // Compare-and-swap on status; the unique index refuses a second champion of a model.
  function Cas(r: Registry, v: nat, expected: ModelStatus, status: ModelStatus): (out: Result<Registry>)
  {
    if |r.versions| <= v then
      Err(NotFound)
    else if !CanMove(expected, status) || r.versions[v].status != expected then
      Err(Conflict)
    else if status == Champion && ChampionOf(r.versions, r.versions[v].model).Some? then
      Err(Conflict)
    else
      Ok(r.(versions := r.versions[v := r.versions[v].(status := status)]))
  }

  /** A status is swapped exactly where it still is the one expected, by a move there is, and never for a
      second champion of a model; only that row changes. */
  lemma CasIsExact(r: Registry, v: nat, expected: ModelStatus, status: ModelStatus)
    ensures var out := Cas(r, v, expected, status);
            && (out.Ok? <==>
                  && v < |r.versions| && r.versions[v].status == expected && CanMove(expected, status)
                  && (status == Champion ==> forall w: nat :: !IsChampion(r.versions, r.versions[v].model, w)))
            && (out.Err? ==> out.error == if v < |r.versions| then Conflict else NotFound)
            && (out.Ok? ==> out.value == r.(versions := r.versions[v := Version(r.versions[v].model, status)]))
  {
    if v < |r.versions| && ChampionOf(r.versions, r.versions[v].model).Some? {
      assert IsChampion(r.versions, r.versions[v].model, ChampionOf(r.versions, r.versions[v].model).value);
    }
  }

  /******* Promotion and restoration *******/

  function MakeChampion(r: Registry, v: nat, expected: ModelStatus): (out: Result<Registry>)
    requires v < |r.versions|
  {
    var previous := ChampionOf(r.versions, r.versions[v].model);
    var archived := if previous.Some? then Cas(r, previous.value, Champion, Archived) else Ok(r);
    if archived.Err? then archived
    else
      var moved := Cas(archived.value, v, expected, Champion);
      if moved.Err? then moved
      else Ok(moved.value.(promotions := r.promotions + [Promotion(v, previous)]))
  }

  function Promote(r: Registry, v: nat): Result<Registry> {
    if |r.versions| <= v then Err(NotFound)
    else if r.versions[v].status == Champion then Ok(r)
    else if r.versions[v].status != Candidate then Err(Conflict)
    else MakeChampion(r, v, Candidate)
  }

  function Restore(r: Registry, v: nat): Result<Registry> {
    if |r.versions| <= v then Err(NotFound)
    else if r.versions[v].status == Champion then Ok(r)
    else if r.versions[v].status != Archived then Err(Conflict)
    else MakeChampion(r, v, Archived)
  }

  // What a failed canary does to its version: CANDIDATE only, any other status is left alone.
  function RejectCandidate(r: Registry, v: nat): Result<Registry> {
    if v < |r.versions| && r.versions[v].status == Candidate
    then Cas(r, v, Candidate, Rejected)
    else Ok(r)
  }

  function Register(r: Registry, model: nat, candidate: bool): Registry {
    r.(versions := r.versions + [Version(model, if candidate then Candidate else Registered)])
  }

  // The version of a model registered under an external reference; `refs` holds that of every version.
  function FindRef(versions: seq<Version>, refs: seq<nat>, model: nat, ref: nat): (v: Option<nat>)
    requires |refs| == |versions|
    ensures v.Some? ==> v.value < |versions| && versions[v.value].model == model && refs[v.value] == ref
    ensures v.None? ==> forall w | 0 <= w < |versions| :: versions[w].model != model || refs[w] != ref
  {
    if versions == [] then None
    else
      var last := |versions| - 1;
      var earlier := FindRef(versions[..last], refs[..last], model, ref);
      assert forall w | 0 <= w < last :: versions[..last][w] == versions[w] && refs[..last][w] == refs[w];
      if earlier.Some? then earlier
      else if versions[last].model == model && refs[last] == ref then Some(last)
      else None
  }

  // The registry, the references and the version: the one already known, or a new one.
  function RegisterOnce(r: Registry, refs: seq<nat>, model: nat, ref: nat, candidate: bool): (Registry, seq<nat>, nat)
    requires |refs| == |r.versions|
  {
    match FindRef(r.versions, refs, model, ref)
    case Some(known) => (r, refs, known)
    case None => (Register(r, model, candidate), refs + [ref], |r.versions|)
  }

  // A model has one version for a reference.
  ghost predicate OnePerRef(versions: seq<Version>, refs: seq<nat>) {
    && |refs| == |versions|
    && forall v, w | 0 <= v < w < |versions| :: versions[v].model != versions[w].model || refs[v] != refs[w]
  }

  /******* Two-phase evaluation *******/

  predicate CheckPasses(threshold: Threshold, value: Option<real>) {
    && value.Some?
    && (threshold.min.Some? ==> threshold.min.value <= value.value)
    && (threshold.max.Some? ==> value.value <= threshold.max.value)
  }

  predicate AllChecksPass(metrics: map<string, real>, thresholds: map<string, Threshold>) {
    forall name | name in thresholds ::
      CheckPasses(thresholds[name], if name in metrics then Some(metrics[name]) else None)
  }

  function RunningOf(evaluations: seq<Evaluation>, v: nat): (r: Option<nat>)
    ensures r.Some? ==>
              r.value < |evaluations| && evaluations[r.value].version == v && evaluations[r.value].status == Running
    ensures r.None? ==> forall e | 0 <= e < |evaluations| :: evaluations[e].version == v ==>
              evaluations[e].status != Running
  {
    if evaluations == [] then
      None
    else
      var last := |evaluations| - 1;
      match RunningOf(evaluations[..last], v)
      case Some(e) => Some(e)
      case None =>
        assert forall e | 0 <= e < last :: evaluations[e] == evaluations[..last][e];
        if evaluations[last].version == v && evaluations[last].status == Running then Some(last) else None
  }

  // First transaction: the version becomes EVALUATING and one RUNNING evaluation is found or added.
  function StartEvaluation(r: Registry, v: nat, thresholds: map<string, Threshold>): Result<(Registry, nat)> {
    if |r.versions| <= v then
      Err(NotFound)
    else if r.versions[v].status != Registered && r.versions[v].status != Evaluating then
      Err(Conflict)
    else if thresholds == map[] then
      Err(Conflict)
    else
      var moved := r.(versions := r.versions[v := r.versions[v].(status := Evaluating)]);
      match RunningOf(r.evaluations, v)
      case Some(e) => Ok((moved, e))
      case None =>
        var pending := Evaluation(v, ChampionOf(r.versions, r.versions[v].model), Running);
        Ok((moved.(evaluations := r.evaluations + [pending]), |r.evaluations|))
  }

  // Second transaction, after the metrics were read: both rows move or neither does.
  function FinishEvaluation(r: Registry, e: nat, metrics: map<string, real>,
      thresholds: map<string, Threshold>): Result<Registry> {
    if |r.evaluations| <= e then
      Err(NotFound)
    else if r.evaluations[e].status != Running then
      Err(Conflict)
    else
      var passed := AllChecksPass(metrics, thresholds);
      var judged := Cas(r, r.evaluations[e].version, Evaluating, if passed then Candidate else Rejected);
      if judged.Err? then judged
      else
        var done := r.evaluations[e].(status := if passed then Passed else Failed);
        Ok(judged.value.(evaluations := r.evaluations[e := done]))
  }

  /******* What every transaction keeps *******/

  // The version the promotion log says is champion of a model.
  function LastPromoted(versions: seq<Version>, promotions: seq<Promotion>, model: nat): Option<nat> {
    if promotions == [] then
      None
    else
      var last := promotions[|promotions| - 1].version;
      if last < |versions| && versions[last].model == model then Some(last)
      else LastPromoted(versions, promotions[..|promotions| - 1], model)
  }

  ghost predicate LogNamesChampion(r: Registry) {
    forall model: nat :: ChampionOf(r.versions, model) == LastPromoted(r.versions, r.promotions, model)
  }

  // Every entry names as previous exactly the version the log had promoted before it.
  ghost predicate LogIsChained(r: Registry) {
    forall k | 0 <= k < |r.promotions| ::
      && r.promotions[k].version < |r.versions|
      && r.promotions[k].previous ==
         LastPromoted(r.versions, r.promotions[..k], r.versions[r.promotions[k].version].model)
  }

  // Nothing rejected is ever promoted, and a promoted version only alternates between two states.
  ghost predicate PromotedWereFit(r: Registry) {
    forall k | 0 <= k < |r.promotions| ::
      && r.promotions[k].version < |r.versions|
      && (r.versions[r.promotions[k].version].status == Champion ||
          r.versions[r.promotions[k].version].status == Archived)
  }

  ghost predicate EvaluationsAgree(r: Registry) {
    && (forall e | 0 <= e < |r.evaluations| :: r.evaluations[e].version < |r.versions|)
    && (forall e | 0 <= e < |r.evaluations| ::
          r.evaluations[e].status == Running <==> r.versions[r.evaluations[e].version].status == Evaluating)
    && (forall e | 0 <= e < |r.evaluations| ::
          r.versions[r.evaluations[e].version].status != Registered)
    && (forall e | 0 <= e < |r.evaluations| ::
          r.evaluations[e].status == Failed ==> r.versions[r.evaluations[e].version].status == Rejected)
    && (forall v | 0 <= v < |r.versions| :: r.versions[v].status == Evaluating ==> RunningOf(r.evaluations, v).Some?)
  }

  // RUNNING or judged, a version never has a second evaluation.
  ghost predicate OneEvaluation(r: Registry) {
    forall e, f | 0 <= e < |r.evaluations| && 0 <= f < |r.evaluations| ::
      r.evaluations[e].version == r.evaluations[f].version ==> e == f
  }

  ghost predicate Valid(r: Registry) {
    && OneChampion(r.versions)
    && LogNamesChampion(r)
    && LogIsChained(r)
    && PromotedWereFit(r)
    && EvaluationsAgree(r)
    && OneEvaluation(r)
  }

  /******* Lemmas about one row *******/

  lemma ChampionIsFound(versions: seq<Version>, model: nat, v: nat)
    requires OneChampion(versions) && IsChampion(versions, model, v)
    ensures ChampionOf(versions, model) == Some(v)
  {
  }

  // Two version tables whose champions of a model are the same rows name the same champion.
  lemma SameChampion(a: seq<Version>, b: seq<Version>, model: nat)
    requires OneChampion(a) && OneChampion(b)
    requires forall v: nat :: IsChampion(a, model, v) <==> IsChampion(b, model, v)
    ensures ChampionOf(a, model) == ChampionOf(b, model)
  {
    match ChampionOf(a, model)
    case Some(v) =>
      assert IsChampion(b, model, v);
      ChampionIsFound(b, model, v);
    case None =>
  }

  lemma {:induction false} LastPromotedReadsModels(a: seq<Version>, b: seq<Version>, promotions: seq<Promotion>,
      model: nat)
    requires |a| <= |b|
    requires forall v | 0 <= v < |a| :: a[v].model == b[v].model
    requires forall k | 0 <= k < |promotions| :: promotions[k].version < |a|
    ensures LastPromoted(a, promotions, model) == LastPromoted(b, promotions, model)
  {
    if promotions != [] {
      LastPromotedReadsModels(a, b, promotions[..|promotions| - 1], model);
    }
  }

  // Status changes that neither make nor unmake a champion leave the log's story true.
  lemma LogSurvives(r: Registry, s: Registry)
    requires OneChampion(r.versions) && LogNamesChampion(r) && LogIsChained(r)
    requires |r.versions| <= |s.versions| && s.promotions == r.promotions
    requires forall v | 0 <= v < |r.versions| :: r.versions[v].model == s.versions[v].model
    requires forall model, v: nat :: IsChampion(r.versions, model, v) <==> IsChampion(s.versions, model, v)
    ensures OneChampion(s.versions) && LogNamesChampion(s) && LogIsChained(s)
  {
    forall model: nat ensures ChampionOf(s.versions, model) == LastPromoted(s.versions, s.promotions, model) {
      SameChampion(r.versions, s.versions, model);
      LastPromotedReadsModels(r.versions, s.versions, r.promotions, model);
    }
    forall k | 0 <= k < |s.promotions|
      ensures s.promotions[k].previous ==
              LastPromoted(s.versions, s.promotions[..k], s.versions[s.promotions[k].version].model)
    {
      LastPromotedReadsModels(r.versions, s.versions, r.promotions[..k], s.versions[s.promotions[k].version].model);
    }
  }

  // A row moving between two states that are both not CHAMPION.
  lemma MoveKeepsChampions(versions: seq<Version>, v: nat, status: ModelStatus)
    requires v < |versions| && versions[v].status != Champion && status != Champion
    ensures var moved := versions[v := versions[v].(status := status)];
            forall model, w: nat :: IsChampion(versions, model, w) <==> IsChampion(moved, model, w)
  {
  }

  /******* The transactions *******/

  // The whole effect of making v the champion of its model: the previous champion of that model is
  // archived, v is champion, one log entry naming the previous champion is appended, and every other
  // row of the three tables is untouched.
  ghost predicate Crowned(r: Registry, s: Registry, v: nat)
    requires v < |r.versions|
  {
    && s.evaluations == r.evaluations
    && s.promotions == r.promotions + [Promotion(v, ChampionOf(r.versions, r.versions[v].model))]
    && |s.versions| == |r.versions|
    && forall w | 0 <= w < |r.versions| ::
         s.versions[w] ==
           if w == v then r.versions[w].(status := Champion)
           else if r.versions[w] == Version(r.versions[v].model, Champion) then r.versions[w].(status := Archived)
           else r.versions[w]
  }

  lemma MakeChampionExactly(r: Registry, v: nat, expected: ModelStatus)
    requires OneChampion(r.versions) && v < |r.versions|
    requires expected == Candidate || expected == Archived
    requires r.versions[v].status == expected
    ensures MakeChampion(r, v, expected).Ok? && Crowned(r, MakeChampion(r, v, expected).value, v)
  {
    var model := r.versions[v].model;
    var previous := ChampionOf(r.versions, model);
    if previous.Some? {
      var archived := r.versions[previous.value := r.versions[previous.value].(status := Archived)];
      forall w: nat | IsChampion(archived, model, w) ensures false {
        assert IsChampion(r.versions, model, w);
        ChampionIsFound(r.versions, model, w);
      }
      assert ChampionOf(archived, model).None?;
      forall w | 0 <= w < |r.versions| && r.versions[w] == Version(model, Champion) ensures w == previous.value {
        assert IsChampion(r.versions, model, w);
      }
    } else {
      forall w | 0 <= w < |r.versions| ensures r.versions[w] != Version(model, Champion) {
        assert !IsChampion(r.versions, model, w);
      }
    }
  }

  lemma CrownedMovesOne(r: Registry, s: Registry, v: nat)
    requires OneChampion(r.versions) && v < |r.versions| && Crowned(r, s, v)
    ensures OneChampion(s.versions)
    ensures ChampionOf(s.versions, r.versions[v].model) == Some(v)
    ensures forall model: nat ::
              model != r.versions[v].model ==> ChampionOf(s.versions, model) == ChampionOf(r.versions, model)
  {
    var model := r.versions[v].model;
    forall m: nat, w: nat
      ensures IsChampion(s.versions, m, w) <==> if m == model then w == v else IsChampion(r.versions, m, w)
    {
    }
    assert IsChampion(s.versions, model, v);
    ChampionIsFound(s.versions, model, v);
    forall m: nat | m != model ensures ChampionOf(s.versions, m) == ChampionOf(r.versions, m) {
      SameChampion(r.versions, s.versions, m);
    }
  }

  lemma CrownedNamesChampion(r: Registry, s: Registry, v: nat)
    requires OneChampion(r.versions) && LogNamesChampion(r) && LogIsChained(r) && v < |r.versions| && Crowned(r, s, v)
    ensures LogNamesChampion(s)
  {
    CrownedMovesOne(r, s, v);
    assert s.promotions[..|s.promotions| - 1] == r.promotions;
    forall m: nat ensures ChampionOf(s.versions, m) == LastPromoted(s.versions, s.promotions, m) {
      LastPromotedReadsModels(r.versions, s.versions, r.promotions, m);
    }
  }

  lemma CrownedIsChained(r: Registry, s: Registry, v: nat)
    requires LogNamesChampion(r) && LogIsChained(r) && v < |r.versions| && Crowned(r, s, v)
    ensures LogIsChained(s)
  {
    forall k | 0 <= k < |s.promotions|
      ensures s.promotions[k].version < |s.versions|
      ensures s.promotions[k].previous ==
              LastPromoted(s.versions, s.promotions[..k], s.versions[s.promotions[k].version].model)
    {
      assert s.promotions[..k] == r.promotions[..k];
      var w := s.promotions[k].version;
      if k < |r.promotions| {
        assert s.promotions[k] == r.promotions[k];
      } else {
        assert w == v && r.promotions[..k] == r.promotions;
      }
      LastPromotedReadsModels(r.versions, s.versions, r.promotions[..k], r.versions[w].model);
    }
  }

  lemma CrownedKeepsEvaluations(r: Registry, s: Registry, v: nat)
    requires v < |r.versions| && Crowned(r, s, v) && Valid(r)
    requires r.versions[v].status == Candidate || r.versions[v].status == Archived
    ensures EvaluationsAgree(s) && OneEvaluation(s)
  {
    forall w | 0 <= w < |s.versions| && s.versions[w].status == Evaluating ensures RunningOf(s.evaluations, w).Some? {
      assert r.versions[w].status == Evaluating;
    }
  }

  lemma CrownedWereFit(r: Registry, s: Registry, v: nat)
    requires v < |r.versions| && Crowned(r, s, v) && PromotedWereFit(r)
    ensures PromotedWereFit(s)
  {
    forall k | 0 <= k < |s.promotions|
      ensures s.promotions[k].version < |s.versions|
      ensures s.versions[s.promotions[k].version].status in {Champion, Archived}
    {
      if k < |r.promotions| {
        assert s.promotions[k] == r.promotions[k];
      }
    }
  }

  lemma MakeChampionKeepsValid(r: Registry, v: nat, expected: ModelStatus)
    requires Valid(r) && v < |r.versions|
    requires expected == Candidate || expected == Archived
    requires r.versions[v].status == expected
    ensures MakeChampion(r, v, expected).Ok? && Valid(MakeChampion(r, v, expected).value)
  {
    MakeChampionExactly(r, v, expected);
    var s := MakeChampion(r, v, expected).value;
    CrownedMovesOne(r, s, v);
    CrownedNamesChampion(r, s, v);
    CrownedIsChained(r, s, v);
    CrownedKeepsEvaluations(r, s, v);
    CrownedWereFit(r, s, v);
  }

  /** A promotion that changes anything archives exactly the previous champion and logs it. */
  lemma PromoteKeepsValid(r: Registry, v: nat)
    requires Valid(r)
    ensures Promote(r, v).Ok? ==>
              if r.versions[v].status == Champion then Promote(r, v).value == r else Crowned(r, Promote(r, v).value, v)
    ensures Promote(r, v).Ok? ==> Valid(Promote(r, v).value)
    ensures Promote(r, v).Ok? <==> v < |r.versions| && Deployable(r.versions[v].status)
    ensures Promote(r, v).Err? ==> Promote(r, v).error == if v < |r.versions| then Conflict else NotFound
  {
    if v < |r.versions| && r.versions[v].status == Candidate {
      MakeChampionKeepsValid(r, v, Candidate);
      MakeChampionExactly(r, v, Candidate);
    }
  }

  lemma RestoreKeepsValid(r: Registry, v: nat)
    requires Valid(r)
    ensures Restore(r, v).Ok? ==>
              if r.versions[v].status == Champion then Restore(r, v).value == r else Crowned(r, Restore(r, v).value, v)
    ensures Restore(r, v).Ok? ==>
              Valid(Restore(r, v).value) && IsChampion(Restore(r, v).value.versions, r.versions[v].model, v)
    ensures Restore(r, v).Ok? <==>
              v < |r.versions| && (r.versions[v].status == Champion || r.versions[v].status == Archived)
  {
    if v < |r.versions| && r.versions[v].status == Archived {
      MakeChampionKeepsValid(r, v, Archived);
      MakeChampionExactly(r, v, Archived);
    }
  }

  lemma RejectKeepsValid(r: Registry, v: nat)
    requires Valid(r)
    ensures RejectCandidate(r, v).Ok? && Valid(RejectCandidate(r, v).value)
    ensures var rejected := v < |r.versions| && r.versions[v].status == Candidate;
            RejectCandidate(r, v).value
              == if rejected then r.(versions := r.versions[v := Version(r.versions[v].model, Rejected)]) else r
  {
    if v < |r.versions| && r.versions[v].status == Candidate {
      var s := RejectCandidate(r, v).value;
      MoveKeepsChampions(r.versions, v, Rejected);
      LogSurvives(r, s);
      forall w | 0 <= w < |s.versions| && s.versions[w].status == Evaluating ensures RunningOf(s.evaluations, w).Some? {
        assert r.versions[w].status == Evaluating;
      }
    }
  }

  lemma RegisterKeepsValid(r: Registry, model: nat, candidate: bool)
    requires Valid(r)
    ensures Valid(Register(r, model, candidate))
  {
    var s := Register(r, model, candidate);
    forall m, w: nat ensures IsChampion(r.versions, m, w) <==> IsChampion(s.versions, m, w) {
    }
    LogSurvives(r, s);
    forall w | 0 <= w < |s.versions| && s.versions[w].status == Evaluating ensures RunningOf(s.evaluations, w).Some? {
      assert r.versions[w].status == Evaluating;
    }
  }

  /** Registering a reference finds its version or adds one, at the end and with nothing else changed; a
      model never gets two versions for one reference. */
  lemma RegisterOnceKeeps(r: Registry, refs: seq<nat>, model: nat, ref: nat, candidate: bool)
    requires Valid(r) && OnePerRef(r.versions, refs)
    ensures var (s, more, v) := RegisterOnce(r, refs, model, ref, candidate);
            && Valid(s) && OnePerRef(s.versions, more)
            && v < |s.versions| && s.versions[v].model == model && more[v] == ref
            && (s == r <==> exists w | 0 <= w < |r.versions| :: r.versions[w].model == model && refs[w] == ref)
            && r.versions <= s.versions && |s.versions| <= |r.versions| + 1
            && (s != r ==>
                 s == r.(versions := s.versions)
                   && s.versions[v] == Version(model, if candidate then Candidate else Registered))
  {
    RegisterKeepsValid(r, model, candidate);
    var (s, more, v) := RegisterOnce(r, refs, model, ref, candidate);
    assert s != r ==> |s.versions| == |r.versions| + 1;
  }

  /** Whatever was registered or decided since, registering a reference again returns the version it got
      the first time and changes nothing. */
  lemma RegisteringAgainReturnsIt(r: Registry, refs: seq<nat>, model: nat, ref: nat, candidate: bool, later: Registry,
      laterRefs: seq<nat>, again: bool)
    requires OnePerRef(r.versions, refs) && OnePerRef(later.versions, laterRefs)
    requires var (s, more, v) := RegisterOnce(r, refs, model, ref, candidate);
             more <= laterRefs && forall w | 0 <= w < |s.versions| :: later.versions[w].model == s.versions[w].model
    ensures RegisterOnce(later, laterRefs, model, ref, again)
           == (later, laterRefs, RegisterOnce(r, refs, model, ref, candidate).2)
  {
    var (s, more, v) := RegisterOnce(r, refs, model, ref, candidate);
    assert later.versions[v].model == model && laterRefs[v] == ref;
  }

  lemma RunningIsFound(evaluations: seq<Evaluation>, e: nat)
    requires e < |evaluations| && evaluations[e].status == Running
    ensures RunningOf(evaluations, evaluations[e].version).Some?
  {
  }

  /** An evaluation starts exactly if the version was not judged yet and there is something to judge it by.
      The one that runs is found, and otherwise one is added, against the champion of the moment; only it and
      the status of the version change. */
  lemma StartKeepsValid(r: Registry, v: nat, thresholds: map<string, Threshold>)
    requires Valid(r)
    ensures var out := StartEvaluation(r, v, thresholds);
            && (out.Ok? <==>
                 v < |r.versions| && r.versions[v].status in {Registered, Evaluating} && thresholds != map[])
            && (out.Err? ==> out.error == if v < |r.versions| then Conflict else NotFound)
            && (out.Ok? ==>
                  var (s, e) := out.value;
                  && Valid(s) && s.promotions == r.promotions
                  && s.versions == r.versions[v := Version(r.versions[v].model, Evaluating)]
                  && e < |s.evaluations| && s.evaluations[e].version == v && s.evaluations[e].status == Running
                  && (e < |r.evaluations| ==> s.evaluations == r.evaluations)
                  && (e >= |r.evaluations| ==>
                        && s.evaluations == r.evaluations + [s.evaluations[e]]
                        && forall w: nat ::
                             s.evaluations[e].baseline == Some(w) <==> IsChampion(r.versions, r.versions[v].model, w)))
  {
    var out := StartEvaluation(r, v, thresholds);
    if out.Ok? {
      var s := out.value.0;
      MoveKeepsChampions(r.versions, v, Evaluating);
      LogSurvives(r, s);
      StartedAgree(r, v, thresholds);
      BaselineIsChampion(r.versions, r.versions[v].model);
    }
  }

  lemma BaselineIsChampion(versions: seq<Version>, model: nat)
    requires OneChampion(versions)
    ensures forall w: nat :: ChampionOf(versions, model) == Some(w) <==> IsChampion(versions, model, w)
  {
  }

  lemma StartedAgree(r: Registry, v: nat, thresholds: map<string, Threshold>)
    requires Valid(r) && StartEvaluation(r, v, thresholds).Ok?
    ensures EvaluationsAgree(StartEvaluation(r, v, thresholds).value.0)
    ensures OneEvaluation(StartEvaluation(r, v, thresholds).value.0)
  {
    var s := StartEvaluation(r, v, thresholds).value.0;
    if RunningOf(r.evaluations, v).Some? {
      assert s.evaluations == r.evaluations && s.versions == r.versions[v := r.versions[v].(status := Evaluating)];
    } else {
      FirstStartAgrees(r, s, v);
    }
  }

  // A version that can be evaluated and has no running evaluation has none at all.
  lemma NoneYet(r: Registry, v: nat)
    requires EvaluationsAgree(r) && v < |r.versions| && RunningOf(r.evaluations, v).None?
    requires r.versions[v].status == Registered || r.versions[v].status == Evaluating
    ensures r.versions[v].status == Registered
    ensures forall e | 0 <= e < |r.evaluations| :: r.evaluations[e].version != v
  {
  }

  // One evaluation is added, of a version that had none and is EVALUATING now.
  ghost predicate AddsRunning(r: Registry, s: Registry, v: nat) {
    && v < |r.versions| == |s.versions| && s.versions[v].status == Evaluating
    && (forall w | 0 <= w < |r.versions| && w != v :: s.versions[w] == r.versions[w])
    && |s.evaluations| == |r.evaluations| + 1
    && (forall e | 0 <= e < |r.evaluations| :: s.evaluations[e] == r.evaluations[e])
    && s.evaluations[|r.evaluations|].version == v && s.evaluations[|r.evaluations|].status == Running
  }

  lemma FirstStartAgrees(r: Registry, s: Registry, v: nat)
    requires EvaluationsAgree(r) && OneEvaluation(r) && v < |r.versions| && RunningOf(r.evaluations, v).None?
    requires r.versions[v].status == Registered || r.versions[v].status == Evaluating
    requires AddsRunning(r, s, v)
    ensures EvaluationsAgree(s) && OneEvaluation(s)
  {
    NoneYet(r, v);
    StartedAreFound(r, s, v);
    StartedIsOnly(r, s, v);
  }

  lemma StartedIsOnly(r: Registry, s: Registry, v: nat)
    requires OneEvaluation(r) && AddsRunning(r, s, v)
    requires forall e | 0 <= e < |r.evaluations| :: r.evaluations[e].version != v
    ensures OneEvaluation(s)
  {
  }

  lemma StartedAreFound(r: Registry, s: Registry, v: nat)
    requires EvaluationsAgree(r) && AddsRunning(r, s, v)
    ensures forall w | 0 <= w < |s.versions| && s.versions[w].status == Evaluating :: RunningOf(s.evaluations, w).Some?
  {
    forall w | 0 <= w < |s.versions| && s.versions[w].status == Evaluating ensures RunningOf(s.evaluations, w).Some? {
      if w == v {
        RunningIsFound(s.evaluations, |r.evaluations|);
      } else {
        RunningIsFound(s.evaluations, RunningOf(r.evaluations, w).value);
      }
    }
  }

  /** The verdict is given once, on a running evaluation: the version is CANDIDATE exactly when every name of
      the thresholds has a metric that is not below its minimum and not above its maximum, where there is one;
      otherwise REJECTED. The evaluation says the same, and nothing else changes. */
  lemma FinishKeepsValid(r: Registry, e: nat, metrics: map<string, real>, thresholds: map<string, Threshold>)
    requires Valid(r)
    ensures var out := FinishEvaluation(r, e, metrics, thresholds);
            && (out.Ok? <==> e < |r.evaluations| && r.evaluations[e].status == Running)
            && (out.Err? ==> out.error == if e < |r.evaluations| then Conflict else NotFound)
            && (out.Ok? ==>
                  var v, s := r.evaluations[e].version, out.value;
                  && Valid(s) && s.promotions == r.promotions
                  && (s.versions[v].status == Candidate <==>
                        forall name | name in thresholds ::
                          && name in metrics
                          && (thresholds[name].min.Some? ==> thresholds[name].min.value <= metrics[name])
                          && (thresholds[name].max.Some? ==> metrics[name] <= thresholds[name].max.value))
                  && s.versions[v].status in {Candidate, Rejected}
                  && s.versions == r.versions[v := Version(r.versions[v].model, s.versions[v].status)]
                  && s.evaluations
                     == r.evaluations[e := Evaluation(v, r.evaluations[e].baseline,
                                                      if s.versions[v].status == Candidate then Passed else Failed)])
  {
    var out := FinishEvaluation(r, e, metrics, thresholds);
    if e < |r.evaluations| && r.evaluations[e].status == Running {
      var v := r.evaluations[e].version;
      var s := out.value;
      MoveKeepsChampions(r.versions, v, s.versions[v].status);
      LogSurvives(r, s);
      forall w | 0 <= w < |s.versions| && s.versions[w].status == Evaluating ensures RunningOf(s.evaluations, w).Some? {
        var f := RunningOf(r.evaluations, w).value;
        assert s.evaluations[f] == r.evaluations[f];
        RunningIsFound(s.evaluations, f);
      }
      ChecksSpeltOut(metrics, thresholds);
    }
  }

  // A metric on either bound passes; one that was not reported does not.
  lemma ChecksSpeltOut(metrics: map<string, real>, thresholds: map<string, Threshold>)
    ensures AllChecksPass(metrics, thresholds) <==>
              forall name | name in thresholds ::
                && name in metrics
                && (thresholds[name].min.Some? ==> thresholds[name].min.value <= metrics[name])
                && (thresholds[name].max.Some? ==> metrics[name] <= thresholds[name].max.value)
  {
  }
}
