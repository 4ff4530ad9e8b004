/** How old the gateway's knowledge of keys and routes can be. Times are in seconds; the database is
    given by what it holds at every moment. */
module Cache {
  import opened Wrappers

  const CACHE_SECONDS: real := 5.0
  const TOUCH_SECONDS: real := 60.0

  type KeyId = nat
  type Name = (nat, nat) // project, endpoint

  datatype Key = Key(project: nat, secret: nat, endpoints: set<nat>, revoked: bool, expires: Option<real>)

  datatype Route = Route(project: nat, endpoint: nat)

  // What the database holds: the key with an id, the route to a public endpoint, and whether a principal
  // may invoke what is in a project.
  datatype History = History(key: (real, KeyId) -> Option<Key>, route: (real, Name) -> Option<Route>,
      invoker: (real, nat, nat) -> bool)

  // `read` is the moment the database was asked; the entry is stamped afterwards.
  datatype Entry<T> = Entry(value: T, at: real, ghost read: real)

  predicate Usable(key: Key, clock: real) {
    !key.revoked && (key.expires.Some? ==> clock < key.expires.value)
  }

  // One lookup looks at the clock, may ask the database, and then looks at the clock again.
  datatype Lookup = Lookup(start: real, read: real, stamp: real)

  ghost predicate InOrder(l: Lookup, slowest: real) {
    l.start <= l.read <= l.stamp && l.stamp - l.read <= slowest
  }

  // Nobody: no token, or one that neither is a key nor is accepted by the authenticator.
  datatype Credential = Nobody | ApiKey(key: KeyId, secret: nat) | SignedIn(principal: nat)

  // With the moments at which it looks at the clock and asks the database; `asks` is for a principal's role.
  datatype Call = Call(who: Credential, name: Name, keys: Lookup, clock: real, routes: Lookup, asks: real, touch: real)

  datatype Answer = Accepted | Unauthenticated | NotFound | Forbidden

  datatype Write = Write(key: KeyId, at: real)

  // Whether a moment is recent enough for the answer of a lookup to come from it.
  ghost predicate Recent(moment: real, l: Lookup, slowest: real) {
    l.start - CACHE_SECONDS - slowest < moment <= l.stamp
  }

  // Who is calling, if the key is this: expiry is judged at the time of the call.
  predicate Known(c: Call, key: Option<Key>) {
    match c.who
    case Nobody => false
    case ApiKey(_, secret) => key.Some? && key.value.secret == secret && Usable(key.value, c.clock)
    case SignedIn(_) => true
  }

  predicate Permitted(c: Call, key: Option<Key>, route: Route, invoker: bool) {
    match c.who
    case Nobody => false
    case ApiKey(_, _) => key.Some? && key.value.project == route.project && route.endpoint in key.value.endpoints
    case SignedIn(_) => invoker
  }

  // The answer to a call whose key, route and role are these.
  function Judge(c: Call, key: Option<Key>, route: Option<Route>, invoker: bool): Answer {
    if !Known(c, key) then Unauthenticated
    else if route.None? then Answer.NotFound
    else if !Permitted(c, key, route.value, invoker) then Forbidden
    else Accepted
  }

  // The answer by what the database held at moment m for the key and n for the route, and when it was asked
  // for the role.
  ghost function JudgeAt(h: History, c: Call, m: real, n: real): Answer {
    var key := if c.who.ApiKey? then h.key(m, c.who.key) else None;
    var route := h.route(n, c.name);
    Judge(c, key, route, c.who.SignedIn? && route.Some? && h.invoker(c.asks, route.value.project, c.who.principal))
  }

  // A key as it must be: with the secret, not revoked, and not expired by the clock of the call.
  ghost predicate OpensAt(key: Option<Key>, secret: nat, clock: real) {
    match key
    case None => false
    case Some(k) =>
      && k.secret == secret && !k.revoked
      && (k.expires == None || (k.expires.Some? && clock < k.expires.value))
  }

  /** What the database's rows mean for a call: nobody is never let in; a key opens if it has the secret, is
      not revoked and not expired, and then what is of its project and on its list; a principal may call what
      its role allows. */
  lemma JudgedByTheRows(h: History, c: Call, m: real, n: real)
    ensures var answer, route := JudgeAt(h, c, m, n), h.route(n, c.name);
            match c.who
            case Nobody => answer == Unauthenticated
            case ApiKey(id, secret) =>
              var key := h.key(m, id);
              && (answer == Unauthenticated <==> !OpensAt(key, secret, c.clock))
              && (answer == Answer.NotFound <==> OpensAt(key, secret, c.clock) && route.None?)
              && (answer == Accepted <==>
                    && OpensAt(key, secret, c.clock) && route.Some?
                    && key.value.project == route.value.project && route.value.endpoint in key.value.endpoints)
            case SignedIn(principal) =>
              && answer != Unauthenticated
              && (answer == Answer.NotFound <==> route.None?)
              && (answer == Accepted <==> route.Some? && h.invoker(c.asks, route.value.project, principal))
  {
  }

  // From some moment on, a key is gone or revoked.
  ghost predicate RevokedSince(h: History, k: KeyId, since: real) {
    forall t | since <= t :: h.key(t, k).None? || h.key(t, k).value.revoked
  }

  // From some moment on, an endpoint is gone or internal.
  ghost predicate HiddenSince(h: History, n: Name, since: real) {
    forall t | since <= t :: h.route(t, n).None?
  }

  // The map holds the last write of every key, and the writes of one key are TOUCH_SECONDS apart.
  ghost predicate Spaced(touched: map<KeyId, real>, writes: seq<Write>, now: real) {
    && (forall w | w in writes :: w.key in touched && w.at <= touched[w.key])
    && (forall k | k in touched :: Write(k, touched[k]) in writes && touched[k] <= now)
    && (forall i, j | 0 <= i < j < |writes| ::
          writes[i].key == writes[j].key ==> writes[i].at + TOUCH_SECONDS <= writes[j].at)
  }

  // No use was written within TOUCH_SECONDS, nor would the clock's origin count as one.
  ghost predicate Due(writes: seq<Write>, k: KeyId, at: real) {
    && (forall w | w in writes && w.key == k :: w.at + TOUCH_SECONDS <= at)
    && (at >= 0.0 || exists w :: w in writes && w.key == k)
  }

  lemma DueByTheMap(touched: map<KeyId, real>, writes: seq<Write>, now: real, k: KeyId, at: real)
    requires Spaced(touched, writes, now)
    ensures Due(writes, k, at) <==> at - (if k in touched then touched[k] else -TOUCH_SECONDS) >= TOUCH_SECONDS
  {
    if k in touched {
      assert Write(k, touched[k]) in writes;
    }
  }

  lemma SpacedOneMore(touched: map<KeyId, real>, writes: seq<Write>, now: real, k: KeyId, at: real)
    requires Spaced(touched, writes, now) && now <= at && Due(writes, k, at)
    ensures Spaced(touched[k := at], writes + [Write(k, at)], at)
  {
    var longer := writes + [Write(k, at)];
    var latest := touched[k := at];
    forall i, j | 0 <= i < j < |longer| && longer[i].key == longer[j].key
      ensures longer[i].at + TOUCH_SECONDS <= longer[j].at
    {
      assert writes[i] in writes;
    }
    forall w | w in longer ensures w.key in latest && w.at <= latest[w.key] {
      assert w == Write(k, at) || w in writes;
    }
    assert longer[|writes|] == Write(k, at);
    forall q | q in latest ensures Write(q, latest[q]) in longer {
      if q != k { assert Write(q, touched[q]) in writes; }
    }
  }

  class Gateway {
    ghost const history: History
    // No lookup takes longer than this.
    ghost const slowest: real
    var routes: map<Name, Entry<Option<Route>>>
    var keys: map<KeyId, Entry<Option<Key>>>
    var touched: map<KeyId, real>
    // Every write of a last use, and the latest reading of the clock.
    ghost var writes: seq<Write>
    ghost var now: real

    ghost predicate Valid()
      reads this
    {
      && slowest >= 0.0
      && (forall k | k in keys :: keys[k].value == history.key(keys[k].read, k) && Stamped(keys[k].at, keys[k].read))
      && (forall n | n in routes ::
            routes[n].value == history.route(routes[n].read, n) && Stamped(routes[n].at, routes[n].read))
      && Spaced(touched, writes, now)
    }

    ghost predicate Stamped(at: real, read: real)
      reads this`now
    {
      read <= at <= now && at - read <= slowest
    }

    constructor (ghost history: History, ghost slowest: real, ghost now: real)
      requires slowest >= 0.0
      ensures Valid() && writes == [] && this.history == history && this.slowest == slowest && this.now == now
    {
      this.history, this.slowest, this.now := history, slowest, now;
      routes, keys, touched, writes := map[], map[], map[], [];
    }

    /** The key is the one the database held at some recent moment. */
    method FindKey(k: KeyId, l: Lookup, db: Option<Key>) returns (key: Option<Key>, ghost moment: real)
      requires Valid() && InOrder(l, slowest) && now <= l.start && db == history.key(l.read, k)
      modifies this`keys, this`now
      ensures Valid() && now == l.stamp
      ensures key == history.key(moment, k) && Recent(moment, l, slowest)
    {
      now := l.stamp;
      if k in keys && l.start - keys[k].at < CACHE_SECONDS {
        return keys[k].value, keys[k].read;
      }
      keys := keys[k := Entry(db, l.stamp, l.read)];
      key, moment := db, l.read;
    }

    /** The route is the one the database held at some recent moment. */
    method FindRoute(n: Name, l: Lookup, db: Option<Route>) returns (route: Option<Route>, ghost moment: real)
      requires Valid() && InOrder(l, slowest) && now <= l.start && db == history.route(l.read, n)
      modifies this`routes, this`now
      ensures Valid() && now == l.stamp
      ensures route == history.route(moment, n) && Recent(moment, l, slowest)
    {
      now := l.stamp;
      if n in routes && l.start - routes[n].at < CACHE_SECONDS {
        return routes[n].value, routes[n].read;
      }
      routes := routes[n := Entry(db, l.stamp, l.read)];
      route, moment := db, l.read;
    }

    /** A last use is written unless one was less than TOUCH_SECONDS ago. */
    method Touch(k: KeyId, at: real)
      requires Valid() && now <= at
      modifies this`touched, this`writes, this`now
      ensures Valid() && now == at
      ensures writes == if Due(old(writes), k, at) then old(writes) + [Write(k, at)] else old(writes)
      ensures at >= 0.0 ==> exists w :: w in writes && w.key == k && at - w.at < 60.0
      ensures forall i, j | 0 <= i < j < |writes| && writes[i].key == writes[j].key ::
                writes[i].at + 60.0 <= writes[j].at
    {
      DueByTheMap(touched, writes, now, k, at);
      var last := if k in touched then touched[k] else -TOUCH_SECONDS;
      if at - last < TOUCH_SECONDS {
        now := at;
        return;
      }
      SpacedOneMore(touched, writes, now, k, at);
      assert Write(k, at) in writes + [Write(k, at)];
      now := at;
      touched := touched[k := at];
      writes := writes + [Write(k, at)];
    }

    // Less than five seconds and one lookup before the look at the clock, and not after the answer.
    ghost predicate Within(moment: real, l: Lookup) {
      l.start - 5.0 - slowest < moment <= l.stamp
    }

    // At these moments the key opened and was for the route.
    ghost predicate Opens(id: KeyId, secret: nat, c: Call, m: real, n: real) {
      && OpensAt(history.key(m, id), secret, c.clock) && history.route(n, c.name).Some?
      && history.key(m, id).value.project == history.route(n, c.name).value.project
      && history.route(n, c.name).value.endpoint in history.key(m, id).value.endpoints
    }

    ghost predicate MayInvoke(principal: nat, c: Call, n: real) {
      history.route(n, c.name).Some? && history.invoker(c.asks, history.route(n, c.name).value.project, principal)
    }

    // The caller of a call: the key behind it, if it is known at all.
    method Authenticate(c: Call, key: Option<Key>) returns (known: bool, found: Option<Key>, ghost moment: real)
      requires Valid() && InOrder(c.keys, slowest) && now <= c.keys.start
      requires c.who.ApiKey? ==> key == history.key(c.keys.read, c.who.key)
      modifies this`keys, this`now
      ensures Valid() && now <= c.keys.stamp && Recent(moment, c.keys, slowest)
      ensures c.who.ApiKey? ==> found == history.key(moment, c.who.key)
      ensures known == Known(c, found) && (!c.who.ApiKey? ==> found == None)
    {
      moment, found := c.keys.read, None;
      match c.who {
        case Nobody => known := false;
        case SignedIn(_) => known := true;
        case ApiKey(id, secret) =>
          found, moment := FindKey(id, c.keys, key);
          known := found.Some? && found.value.secret == secret && Usable(found.value, c.clock);
      }
    }

    /** A call is answered as the database would have answered it with some recent key and some recent
        route; a signed-in principal's role is asked for at once. So a revoked key or a hidden endpoint is
        refused once its moment is not recent any more. */
    method Answering(c: Call, key: Option<Key>, route: Option<Route>, invokes: nat -> bool) returns (answer: Answer)
      requires Valid() && InOrder(c.keys, slowest) && InOrder(c.routes, slowest)
      requires now <= c.keys.start && c.keys.stamp <= c.routes.start && c.routes.stamp <= c.touch
      requires c.who.ApiKey? ==> key == history.key(c.keys.read, c.who.key)
      requires route == history.route(c.routes.read, c.name)
      requires c.who.SignedIn? ==>
                forall project: nat :: invokes(project) == history.invoker(c.asks, project, c.who.principal)
      modifies this
      ensures Valid()
      ensures exists m, n ::
                Recent(m, c.keys, slowest) && Recent(n, c.routes, slowest) && answer == JudgeAt(history, c, m, n)
      ensures c.who.ApiKey? ==>
                forall since | RevokedSince(history, c.who.key, since)
                  && since + 5.0 + slowest <= c.keys.start ::
                  answer == Unauthenticated
      ensures forall since | HiddenSince(history, c.name, since) && since + 5.0 + slowest <= c.routes.start ::
                answer != Accepted
      ensures match c.who
              case Nobody => answer == Unauthenticated
              case ApiKey(id, secret) =>
                && ((forall m | Within(m, c.keys) :: !OpensAt(history.key(m, id), secret, c.clock)) ==>
                     answer == Unauthenticated)
                && ((forall m | Within(m, c.keys) :: OpensAt(history.key(m, id), secret, c.clock)) ==>
                     answer != Unauthenticated)
                && (answer == Accepted ==>
                      exists m, n :: Within(m, c.keys) && Within(n, c.routes) && Opens(id, secret, c, m, n))
              case SignedIn(principal) =>
                && answer != Unauthenticated
                && (answer == Accepted ==> exists n :: Within(n, c.routes) && MayInvoke(principal, c, n))
      ensures writes != old(writes) ==> answer == Accepted && c.who.ApiKey?
    {
      var known, found, m := Authenticate(c, key);
      if !known {
        assert Recent(c.routes.read, c.routes, slowest);
        assert JudgeAt(history, c, m, c.routes.read) == Unauthenticated;
        return Unauthenticated;
      }
      var to, n := FindRoute(c.name, c.routes, route);
      answer := Authorize(c, found, to, invokes);
      assert answer == JudgeAt(history, c, m, n);
      JudgedByTheRows(history, c, m, n);
      assert Within(n, c.routes) && (c.who.ApiKey? ==> Within(m, c.keys));
      if answer == Accepted && c.who.ApiKey? {
        assert Opens(c.who.key, c.who.secret, c, m, n);
      }
      if answer == Accepted && c.who.SignedIn? {
        assert MayInvoke(c.who.principal, c, n);
      }
    }

    // Whether a known caller may call what was found; a key's use is remembered.
    method Authorize(c: Call, found: Option<Key>, to: Option<Route>, invokes: nat -> bool) returns (answer: Answer)
      requires Valid() && now <= c.touch && Known(c, found)
      modifies this`touched, this`writes, this`now
      ensures Valid()
      ensures answer == Judge(c, found, to, c.who.SignedIn? && to.Some? && invokes(to.value.project))
      ensures writes != old(writes) ==> answer == Accepted && c.who.ApiKey?
    {
      if to.None? {
        return Answer.NotFound;
      }
      if c.who.ApiKey? {
        if found.value.project != to.value.project || to.value.endpoint !in found.value.endpoints {
          return Forbidden;
        }
        Touch(c.who.key, c.touch);
        return Accepted;
      }
      return if invokes(to.value.project) then Accepted else Forbidden;
    }
  }
}
