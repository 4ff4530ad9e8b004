/** What the gateway takes from its rate-limit buckets for each call, and what it records. Every method
    is one uninterrupted step, so calls of one process interleave in any order. */
module Ledger {
  import opened Wrappers
  import M = TokenMeter

  /******* Reserving *******/

  // A member of the request; numbers that are not integers, strings and so on are Other.
  datatype Json = Integer(value: int) | Other

  // A prepared chat request. The prompt's size counts its bytes and 64 for each message; `one` says
  // that neither n nor best_of asks for anything but one answer.
  datatype Request = Request(size: nat, maxTokens: Option<Json>, maxCompletionTokens: Option<Json>, one: bool)

  const DEFAULT_OUTPUT := 256

  function Min(a: int, b: int): int { if a < b then a else b }

  function Caps(r: Request): seq<Json> {
    (if r.maxTokens.Some? then [r.maxTokens.value] else [])
    + (if r.maxCompletionTokens.Some? then [r.maxCompletionTokens.value] else [])
  }

  predicate IsCap(j: Json) {
    j.Integer? && j.value > 0
  }

  function Smallest(caps: seq<Json>): int
    requires caps != [] && forall i | 0 <= i < |caps| :: caps[i].Integer?
  {
    if |caps| == 1 then caps[0].value else Min(caps[0].value, Smallest(caps[1..]))
  }

  // (what is forwarded, what is reserved): the caps are replaced by a single one.
  function Reserve(r: Request, limit: int): Result<(Request, nat)> {
    var caps := Caps(r);
    if exists i | 0 <= i < |caps| :: !IsCap(caps[i]) then Err(InvalidArgument)
    else if !r.one then Err(InvalidArgument)
    else
      var cap := if caps != [] then Smallest(caps) else Min(DEFAULT_OUTPUT, limit - r.size);
      if cap <= 0 || r.size + cap > limit then Err(InvalidArgument)
      else Ok((r.(maxTokens := Some(Integer(cap)), maxCompletionTokens := None), r.size + cap))
  }

  lemma SmallestIsLeast(caps: seq<Json>)
    requires caps != [] && |caps| <= 2 && forall i | 0 <= i < |caps| :: caps[i].Integer?
    ensures Integer(Smallest(caps)) in caps && forall i | 0 <= i < |caps| :: Smallest(caps) <= caps[i].value
  {
  }

  // One of the two members of the request that bound the answer is this number.
  ghost predicate HasCap(r: Request, n: int) {
    Some(Integer(n)) in {r.maxTokens, r.maxCompletionTokens}
  }

  // A member that bounds the answer is a positive integer, if it is there.
  ghost predicate Bounds(member: Option<Json>) {
    member.Some? ==> member.value.Integer? && member.value.value > 0
  }

  lemma CapsAreTheMembers(r: Request)
    ensures forall n :: Integer(n) in Caps(r) <==> HasCap(r, n)
    ensures Caps(r) == [] <==> r.maxTokens.None? && r.maxCompletionTokens.None?
    ensures (forall i | 0 <= i < |Caps(r)| :: IsCap(Caps(r)[i])) <==>
              Bounds(r.maxTokens) && Bounds(r.maxCompletionTokens)
  {
    var caps := Caps(r);
    if r.maxTokens.Some? { assert caps[0] == r.maxTokens.value; }
    if r.maxCompletionTokens.Some? { assert caps[|caps| - 1] == r.maxCompletionTokens.value; }
  }

  /** A reservation is made exactly when the caps are positive integers, one answer is asked for, and the
      prompt with the smallest cap (a single token if there is none) is within the limit. It is the prompt's
      estimate and the one cap forwarded, which is the smallest of the caller's; without any it is 256 tokens,
      or as many as the limit leaves. */
  lemma ReservationIsExact(r: Request, limit: int)
    ensures Reserve(r, limit).Ok? <==>
              && r.one && Bounds(r.maxTokens) && Bounds(r.maxCompletionTokens)
              && r.size + 1 <= limit
              && ((exists n :: HasCap(r, n)) ==> exists n :: HasCap(r, n) && r.size + n <= limit)
    ensures Reserve(r, limit).Err? ==> Reserve(r, limit).error == InvalidArgument
    ensures Reserve(r, limit).Ok? ==>
              var (sent, units) := Reserve(r, limit).value;
              && r.size < units <= limit
              && sent == Request(r.size, Some(Integer(units - r.size)), None, true)
              && (forall n :: HasCap(r, n) ==> units - r.size <= n && HasCap(r, units - r.size))
              && (r.maxTokens.None? && r.maxCompletionTokens.None? ==>
                    units == if r.size + 256 <= limit then r.size + 256 else limit)
  {
    var caps := Caps(r);
    CapsAreTheMembers(r);
    if Bounds(r.maxTokens) && Bounds(r.maxCompletionTokens) && caps != [] {
      SmallestIsLeast(caps);
      assert caps[0] in caps && HasCap(r, caps[0].value);
      assert HasCap(r, Smallest(caps));
      forall n | HasCap(r, n) ensures Smallest(caps) <= n {
        assert Integer(n) in caps;
      }
    }
  }

  /** Reserving what was already reserved for changes nothing. */
  lemma ReservingAgainKeeps(r: Request, limit: int)
    requires Reserve(r, limit).Ok?
    ensures Reserve(Reserve(r, limit).value.0, limit) == Reserve(r, limit)
  {
    ReservationIsExact(r, limit);
    var (sent, units) := Reserve(r, limit).value;
    ReservationIsExact(sent, limit);
  }

  /******* Buckets *******/

  datatype Bucket = OfEndpoint(endpoint: nat) | OfCaller(endpoint: nat, caller: nat)

  // A key's own limit, if it has one.
  datatype Route = Route(endpoint: nat, caller: nat, chat: bool, llm: bool, unitsPerMinute: nat, own: Option<nat>)

  function CallerLimit(r: Route): nat {
    if r.own.Some? && r.own.value != 0 then r.own.value else r.unitsPerMinute
  }

  // The tighter of the two buckets' limits.
  function Limit(r: Route): int {
    Min(r.unitsPerMinute, CallerLimit(r))
  }

  // The limit of the endpoint, or of the key if it has one other than zero and that is less.
  ghost predicate IsTighter(r: Route, limit: int) {
    && (limit == r.unitsPerMinute || (r.own == Some(limit) && limit > 0))
    && limit <= r.unitsPerMinute && (r.own.Some? && r.own.value != 0 ==> limit <= r.own.value)
  }

  lemma LimitIsTighter(r: Route, limit: int)
    ensures IsTighter(r, limit) <==> limit == Limit(r)
  {
  }

  datatype Ending =
    | Refused       // the limiter said no: 429
    | NoStore       // the limiter raised: 503, and may have taken the units all the same
    | NoAnswer      // the serving system timed out, was unreachable, or the caller left
    | Settled       // the reply ended and the difference was refunded or charged
    | Unsettled     // the reply ended and settling raised

  datatype Phase = Limiting | Admitted | Streaming | Closed(ending: Ending, recorded: nat)

  // `taken` is what each of the call's two buckets has lost to it.
  datatype Call = Call(route: Route, reserved: nat, phase: Phase, taken: nat)

  // The two buckets of a call.
  predicate Drawn(r: Route, b: Bucket) {
    b == OfEndpoint(r.endpoint) || b == OfCaller(r.endpoint, r.caller)
  }

  predicate Draws(c: Call, b: Bucket) {
    Drawn(c.route, b)
  }

  function Units(c: Call): nat {
    if c.route.llm then c.reserved else 1
  }

  predicate CallIsSound(c: Call) {
    && (c.route.chat && c.route.llm ==> 0 < c.reserved <= Limit(c.route))
    && (!c.route.chat ==> c.reserved == 0)
    && match c.phase
       case Limiting => c.taken == 0
       case Admitted => c.taken == Units(c)
       case Streaming => c.taken == Units(c)
       case Closed(ending, recorded) =>
         match ending
         case Refused => c.taken == 0 == recorded
         case NoStore => recorded == 0 && (c.taken == 0 || c.taken == Units(c))
         case NoAnswer => c.taken == Units(c) && recorded == c.reserved
         case Settled => if c.route.llm then c.taken == recorded else c.taken == 1 && recorded <= 1
         case Unsettled => c.route.llm && c.taken <= recorded && c.reserved <= recorded
  }

  // The calls a sum is over: all of them, the LLM calls whose limiter step, if it is over, was completed,
  // or the rest.
  datatype Kind = All | Metered | Unmetered

  predicate IsMetered(c: Call) {
    c.route.llm && (c.phase.Closed? ==> c.phase.ending != NoStore)
  }

  predicate Counts(c: Call, b: Bucket, k: Kind) {
    Draws(c, b) && (k == Metered ==> IsMetered(c)) && (k == Unmetered ==> !IsMetered(c))
  }

  // What calls have taken from a bucket together.
  function Taken(calls: seq<Call>, b: Bucket, k: Kind): int {
    if calls == [] then 0
    else
      var last := calls[|calls| - 1];
      Taken(calls[..|calls| - 1], b, k) + if Counts(last, b, k) then last.taken else 0
  }

  // What the records account for, with the reservations of the calls that are not over.
  function Accounted(calls: seq<Call>, b: Bucket, k: Kind): int {
    if calls == [] then 0
    else
      var last := calls[|calls| - 1];
      Accounted(calls[..|calls| - 1], b, k) + if Counts(last, b, k) then Due(last) else 0
  }

  // What calls would take if the limiter let all of them pass.
  function Asked(calls: seq<Call>, b: Bucket, k: Kind): int {
    if calls == [] then 0
    else
      var last := calls[|calls| - 1];
      Asked(calls[..|calls| - 1], b, k) + if Counts(last, b, k) then Units(last) else 0
  }

  function Due(c: Call): nat {
    match c.phase
    case Limiting => 0
    case Admitted => c.reserved
    case Streaming => c.reserved
    case Closed(_, recorded) => recorded
  }

  lemma {:induction false} TakenUpdate(calls: seq<Call>, i: nat, c: Call, b: Bucket)
    requires i < |calls| && calls[i].route == c.route
    ensures Taken(calls[i := c], b, All) == Taken(calls, b, All) + if Draws(c, b) then c.taken - calls[i].taken else 0
  {
    var last := |calls| - 1;
    if i < last {
      TakenUpdate(calls[..last], i, c, b);
      assert calls[i := c][..last] == calls[..last][i := c];
    } else {
      assert calls[i := c][..last] == calls[..last];
    }
  }

  /******* The limiter *******/

  // Its three calls change both buckets of a route at once.
  class Limiter {
    var buckets: map<Bucket, int>

    ghost function Lost(b: Bucket): int
      reads this
    {
      if b in buckets then buckets[b] else 0
    }

    constructor ()
      ensures forall b :: Lost(b) == 0
    {
      buckets := map[];
    }

    method Take(r: Route, units: nat)
      modifies this
      ensures forall b :: Lost(b) == old(Lost(b)) + if Drawn(r, b) then units else 0
    {
      Add(r, units);
    }

    method Refund(r: Route, units: nat)
      modifies this
      ensures forall b :: Lost(b) == old(Lost(b)) - if Drawn(r, b) then units else 0
    {
      Add(r, 0 - units);
    }

    method Charge(r: Route, units: nat)
      modifies this
      ensures forall b :: Lost(b) == old(Lost(b)) + if Drawn(r, b) then units else 0
    {
      Add(r, units);
    }

    method Add(r: Route, units: int)
      modifies this
      ensures forall b :: Lost(b) == old(Lost(b)) + if Drawn(r, b) then units else 0
    {
      var e, c := OfEndpoint(r.endpoint), OfCaller(r.endpoint, r.caller);
      buckets := buckets[e := (if e in buckets then buckets[e] else 0) + units];
      buckets := buckets[c := (if c in buckets then buckets[c] else 0) + units];
    }
  }

  /******* The gateway *******/

  datatype Store = Answers(allowed: bool) | Raises(applied: bool)

  // Only call i differs, and not in its route or its reservation.
  ghost predicate OnlyCall(before: seq<Call>, after: seq<Call>, i: nat) {
    && i < |before| && |after| == |before|
    && after == before[i := after[i]]
    && after[i].route == before[i].route && after[i].reserved == before[i].reserved
  }

  class Gateway {
    const json: M.Json
    const limiter: Limiter
    var calls: seq<Call>

    // Every bucket has lost what the calls have taken.
    ghost predicate Balanced()
      reads this, limiter
    {
      forall b :: limiter.Lost(b) == Taken(calls, b, All)
    }

    ghost predicate Valid()
      reads this, limiter
    {
      Balanced() && forall i | 0 <= i < |calls| :: CallIsSound(calls[i])
    }

    constructor (json: M.Json)
      ensures Valid() && calls == [] && this.json == json && fresh(limiter)
    {
      this.json, calls := json, [];
      limiter := new Limiter();
    }

    /** A call that passed every check before the limiter. Only a chat reserves anything, and never more than
        the endpoint's limit, nor than the key's own where that is set and not zero. */
    method Begin(route: Route, request: Request) returns (out: Result<nat>)
      requires Valid()
      modifies this
      ensures Valid()
      ensures out.Err? ==> route.chat && calls == old(calls)
      ensures out.Ok? ==>
                && out.value == |old(calls)| && |calls| == out.value + 1 && calls[..out.value] == old(calls)
                && calls[out.value] == Call(route, calls[out.value].reserved, Limiting, 0)
                && calls[out.value].reserved <= route.unitsPerMinute
                && (route.own.Some? && route.own.value != 0 ==> calls[out.value].reserved <= route.own.value)
                && (!route.chat ==> calls[out.value].reserved == 0)
      ensures forall limit :: route.chat && IsTighter(route, limit) ==>
                && (out.Ok? <==> Reserve(request, limit).Ok?)
                && (out.Ok? ==> calls[out.value].reserved == Reserve(request, limit).value.1)
    {
      forall limit | IsTighter(route, limit) ensures limit == Limit(route) {
        LimitIsTighter(route, limit);
      }
      LimitIsTighter(route, Limit(route));
      var reserved := 0;
      if route.chat {
        var reservation := Reserve(request, Limit(route));
        if reservation.Err? {
          return Err(reservation.error);
        }
        reserved := reservation.value.1;
        ReservationIsExact(request, Limit(route));
      }
      var call := Call(route, reserved, Limiting, 0);
      assert (calls + [call])[..|calls|] == calls;
      calls := calls + [call];
      out := Ok(|calls| - 1);
    }

    // The limiter is asked for units of a call, and has them.
    method TakeFor(i: nat, units: nat)
      requires Balanced() && i < |calls|
      modifies this, limiter
      ensures Balanced() && calls == old(calls)[i := old(calls)[i].(taken := old(calls)[i].taken + units)]
    {
      UpdatedBalance(i, calls[i].taken + units);
      limiter.Take(calls[i].route, units);
      calls := calls[i := calls[i].(taken := calls[i].taken + units)];
    }

    method RefundTo(i: nat, units: nat)
      requires Balanced() && i < |calls| && units <= calls[i].taken
      modifies this, limiter
      ensures Balanced() && calls == old(calls)[i := old(calls)[i].(taken := old(calls)[i].taken - units)]
    {
      UpdatedBalance(i, calls[i].taken - units);
      limiter.Refund(calls[i].route, units);
      calls := calls[i := calls[i].(taken := calls[i].taken - units)];
    }

    method ChargeTo(i: nat, units: nat)
      requires Balanced() && i < |calls|
      modifies this, limiter
      ensures Balanced() && calls == old(calls)[i := old(calls)[i].(taken := old(calls)[i].taken + units)]
    {
      UpdatedBalance(i, calls[i].taken + units);
      limiter.Charge(calls[i].route, units);
      calls := calls[i := calls[i].(taken := calls[i].taken + units)];
    }

    lemma UpdatedBalance(i: nat, taken: nat)
      requires Balanced() && i < |calls|
      ensures forall b :: Taken(calls[i := calls[i].(taken := taken)], b, All)
                       == limiter.Lost(b) + if Draws(calls[i], b) then taken - calls[i].taken else 0
    {
      forall b
        ensures Taken(calls[i := calls[i].(taken := taken)], b, All)
               == Taken(calls, b, All) + if Draws(calls[i], b) then taken - calls[i].taken else 0
      {
        TakenUpdate(calls, i, calls[i].(taken := taken), b);
      }
    }

    // The call moves on.
    method Enter(i: nat, phase: Phase)
      requires Balanced() && i < |calls|
      modifies this
      ensures Balanced() && calls == old(calls)[i := old(calls)[i].(phase := phase)]
    {
      forall b ensures Taken(calls[i := calls[i].(phase := phase)], b, All) == Taken(calls, b, All) {
        TakenUpdate(calls, i, calls[i].(phase := phase), b);
      }
      calls := calls[i := calls[i].(phase := phase)];
    }

    /** The limiter's answer: all of the units, or none and the call is over with nothing recorded. */
    method AskLimiter(i: nat, store: Store)
      requires Valid() && i < |calls| && calls[i].phase == Limiting
      modifies this, limiter
      ensures Valid() && OnlyCall(old(calls), calls, i)
      ensures store.Answers? && store.allowed ==>
                && calls[i].phase == Admitted && calls[i].taken == if calls[i].route.llm then calls[i].reserved else 1
      ensures store.Answers? && !store.allowed ==> calls[i].phase == Closed(Refused, 0) && calls[i].taken == 0
      ensures store.Raises? ==>
                && calls[i].phase == Closed(NoStore, 0)
                && calls[i].taken == if !store.applied then 0 else if calls[i].route.llm then calls[i].reserved else 1
    {
      var units := if calls[i].route.llm then calls[i].reserved else 1;
      match store {
        case Answers(allowed) =>
          if allowed {
            TakeFor(i, units);
          }
          Enter(i, if allowed then Admitted else Closed(Refused, 0));
        case Raises(applied) =>
          if applied {
            TakeFor(i, units);
          }
          Enter(i, Closed(NoStore, 0));
      }
    }

    /** The serving system answers, or the call is over. An LLM call that got no answer is recorded with
        everything that its buckets have lost to it. */
    method Forward(i: nat, answered: bool)
      requires Valid() && i < |calls| && calls[i].phase == Admitted
      modifies this
      ensures Valid() && OnlyCall(old(calls), calls, i) && calls[i].taken == old(calls)[i].taken
      ensures calls[i].phase.Closed? <==> !answered
      ensures calls[i].phase.Closed? && calls[i].route.llm ==> calls[i].phase.recorded == calls[i].taken
      ensures Due(calls[i]) == old(Due(calls[i]))
    {
      Enter(i, if answered then Streaming else Closed(NoAnswer, calls[i].reserved));
    }

    /** The end of a reply, complete or not. An LLM call pays for the tokens the reply reported; without a
        report, or cut short, at least its whole reservation. If settling does not raise, its buckets have
        then lost exactly what is recorded; if it raises, the record is the larger of the two amounts. */
    method Count(i: nat, streamed: bool, chunks: seq<M.Bytes>, complete: bool, status: nat, settling: Store)
      requires Valid() && i < |calls| && calls[i].phase == Streaming
      modifies this, limiter
      ensures Valid() && OnlyCall(old(calls), calls, i) && calls[i].phase.Closed?
      ensures calls[i].route.llm ==>
                var usage := M.AtTheEnd(streamed, json, chunks);
                var total := usage.prompt + usage.completion;
                var reported := complete && usage.reported;
                var measured := if reported || total > calls[i].reserved then total else calls[i].reserved;
                var settled := settling.Answers? || measured == calls[i].reserved;
                && (settled ==> calls[i].taken == calls[i].phase.recorded == measured)
                && (!settled ==>
                      && calls[i].phase.recorded
                        == (if measured < calls[i].reserved then calls[i].reserved else measured)
                      && calls[i].taken == if settling.applied then measured else calls[i].reserved)
                && calls[i].phase.ending == (if settled then Settled else Unsettled)
      ensures !calls[i].route.llm ==>
                calls[i].taken == 1 && calls[i].phase.recorded == if complete && status < 500 then 1 else 0
    {
      if !calls[i].route.llm {
        Enter(i, Closed(Settled, if complete && status < 500 then 1 else 0));
        return;
      }
      var reserved := calls[i].reserved;
      var usage := M.MeterReply(streamed, json, chunks);
      var total := usage.prompt + usage.completion;
      var measured := if complete && usage.reported then total else Max(reserved, total);
      Settle(i, measured, settling);
    }

    // The reservation is made up to what was measured, by a refund or a charge of the difference.
    method Settle(i: nat, measured: nat, settling: Store)
      requires Valid() && i < |calls| && calls[i].phase == Streaming && calls[i].route.llm
      modifies this, limiter
      ensures Valid() && OnlyCall(old(calls), calls, i)
      ensures var reserved := calls[i].reserved;
              var settled := settling.Answers? || measured == reserved;
              && calls[i].phase
                 == Closed(if settled then Settled else Unsettled,
                           if settled || measured > reserved then measured else reserved)
              && calls[i].taken == if settled || settling.applied then measured else reserved
    {
      var reserved := calls[i].reserved;
      var applies := settling.Answers? || settling.applied;
      if measured < reserved && applies {
        RefundTo(i, reserved - measured);
      } else if measured > reserved && applies {
        ChargeTo(i, measured - reserved);
      }
      if measured != reserved && settling.Raises? {
        Enter(i, Closed(Unsettled, Max(measured, reserved)));
      } else {
        Enter(i, Closed(Settled, measured));
      }
    }
  }

  function Max(a: nat, b: nat): nat { if a < b then b else a }

  /******* The balance *******/

  predicate Touches(calls: seq<Call>, b: Bucket, k: Kind, i: int) {
    0 <= i < |calls| && Counts(calls[i], b, k)
  }

  predicate PaidInFull(c: Call) {
    c.phase.Closed? && c.phase.ending == Unsettled ==> c.taken == c.phase.recorded
  }

  /** On every exit path of an LLM call whose limiter step was completed the records account for at least
      what was taken, and over all such calls for exactly that unless some settlement raised and the units
      it was about were not taken. Other calls of the bucket, a failed limiter step included, do not matter. */
  lemma {:induction false} BooksBalance(calls: seq<Call>, b: Bucket)
    requires forall i | 0 <= i < |calls| :: CallIsSound(calls[i])
    ensures Taken(calls, b, Metered) <= Accounted(calls, b, Metered)
    ensures Taken(calls, b, Metered) == Accounted(calls, b, Metered) <==>
              forall i | Touches(calls, b, Metered, i) :: PaidInFull(calls[i])
  {
    if calls != [] {
      var last := |calls| - 1;
      var earlier := calls[..last];
      BooksBalance(earlier, b);
      assert forall i | Touches(earlier, b, Metered, i) ::
        i < last && earlier[i] == calls[i] && Touches(calls, b, Metered, i);
      assert forall i | Touches(calls, b, Metered, i) :: i == last || Touches(earlier, b, Metered, i);
      if Counts(calls[last], b, Metered) {
        assert Touches(calls, b, Metered, last);
      }
    }
  }

  /** What a bucket has lost is what those calls account for and what the others took: requests of models
      that are no LLMs, at one unit each, and LLM calls whose limiter step raised, at no more than they had
      asked for. */
  lemma {:induction false} EveryUnitIsExplained(calls: seq<Call>, b: Bucket)
    requires forall i | 0 <= i < |calls| :: CallIsSound(calls[i])
    ensures Taken(calls, b, All) == Taken(calls, b, Metered) + Taken(calls, b, Unmetered)
    ensures 0 <= Taken(calls, b, Unmetered) <= Asked(calls, b, Unmetered)
  {
    if calls != [] {
      EveryUnitIsExplained(calls[..|calls| - 1], b);
    }
  }
}
