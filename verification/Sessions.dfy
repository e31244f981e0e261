/** Web sessions: an in-memory dictionary in front of a database table. */
module Sessions {
  import opened Wrappers

  /** Microseconds. */
  type Time = int

  const LIFETIME: int := 24 * 3600 * 1_000_000

  const HOUR: int := 3600 * 1_000_000

  datatype Session = Session(user: string, lastUsed: Time, expires: Time)

  type Sessions = map<string, Session>

  // ---- What each operation leaves behind ----

  function Live(m: Sessions, now: Time): Sessions {
    map t | t in m && now < m[t].expires :: m[t]
  }

  function WithoutUser(m: Sessions, user: string): Sessions {
    map t | t in m && m[t].user != user :: m[t]
  }

  function NewerThan(m: Sessions, cutoff: Time): Sessions {
    map t | t in m && cutoff <= m[t].expires :: m[t]
  }

  datatype State = State(cache: Sessions, table: Sessions, clock: Time)

  datatype Op =
    | Tick(elapsed: nat)
    | Create(user: string, token: string)
    | Validate(token: string)
    | Logout(token: string)
    | CleanCache
    | CleanTable(maxAgeHours: nat)

  function Created(s: State, user: string, token: string): State {
    var session := Session(user, s.clock, s.clock + LIFETIME);
    s.(cache := WithoutUser(Live(s.cache, s.clock), user)[token := session],
       table := WithoutUser(s.table, user)[token := session])
  }

  /** First the cache, then the table; an expired session is dropped where it is met. */
  function Validated(s: State, token: string): (State, Option<string>) {
    if token == "" then (s, None)
    else if token in s.cache && s.clock < s.cache[token].expires then
      (s.(cache := s.cache[token := s.cache[token].(lastUsed := s.clock)]), Some(s.cache[token].user))
    else
      var cache := s.cache - {token};
      if token !in s.table then (s.(cache := cache), None)
      else if s.clock >= s.table[token].expires then
        (s.(cache := cache, table := s.table - {token}), None)
      else
        var row := s.table[token].(lastUsed := s.clock);
        (s.(cache := cache[token := row], table := s.table[token := row]), Some(row.user))
  }

  function Apply(s: State, op: Op): (State, Option<string>) {
    match op
    case Tick(elapsed) => (s.(clock := s.clock + elapsed), None)
    case Create(user, token) => (Created(s, user, token), None)
    case Validate(token) => Validated(s, token)
    case Logout(token) => (s.(cache := s.cache - {token}, table := s.table - {token}), None)
    case CleanCache => (s.(cache := Live(s.cache, s.clock)), None)
    case CleanTable(hours) => (s.(table := NewerThan(s.table, s.clock - hours * HOUR)), None)
  }

  // ---- The class ----

  class AuthenticationManager {
    var cache: Sessions
    var table: Sessions

    constructor ()
      ensures cache == map[] && table == map[]
    {
      cache, table := map[], map[];
    }

    function StateAt(now: Time): State
      reads this
    {
      State(cache, table, now)
    }

    /** Collects the tokens to drop, then drops them. */
    method CleanupExpired(now: Time)
      modifies this`cache
      ensures cache == Live(old(cache), now)
      ensures forall t :: t in cache <==> t in old(cache) && now < old(cache)[t].expires
      ensures forall t :: t in cache ==> cache[t] == old(cache)[t]
    {
      var expired: set<string> := {};
      var rest := cache.Keys;
      while rest != {}
        invariant rest <= cache.Keys && cache == old(cache)
        invariant expired == set t | t in cache.Keys - rest && !(now < cache[t].expires)
        decreases rest
      {
        var t :| t in rest;
        if !(now < cache[t].expires) {
          expired := expired + {t};
        }
        rest := rest - {t};
      }
      cache := cache - expired;
    }

    method RemoveUser(user: string)
      modifies this
      ensures cache == WithoutUser(old(cache), user) && table == WithoutUser(old(table), user)
      ensures forall t :: t in cache <==> t in old(cache) && old(cache)[t].user != user
      ensures forall t :: t in table <==> t in old(table) && old(table)[t].user != user
    {
      var dropped: set<string> := {};
      var rest := cache.Keys;
      while rest != {}
        invariant rest <= cache.Keys && cache == old(cache) && table == old(table)
        invariant dropped == set t | t in cache.Keys - rest && cache[t].user == user
        decreases rest
      {
        var t :| t in rest;
        if cache[t].user == user {
          dropped := dropped + {t};
        }
        rest := rest - {t};
      }
      cache := cache - dropped;
      table := WithoutUser(table, user);
    }

    method CreateToken(user: string, token: string, now: Time)
      requires token != "" && token !in cache && token !in table
      modifies this
      ensures StateAt(now) == Apply(old(StateAt(now)), Create(user, token)).0
      ensures token in cache && token in table && cache[token] == table[token]
      ensures cache[token].user == user && cache[token].lastUsed == now
      ensures cache[token].expires == now + 86_400_000_000
      ensures forall t :: t in table && t != token ==>
                t in old(table) && table[t] == old(table)[t] && table[t].user != user
    {
      CleanupExpired(now);
      RemoveUser(user);
      var session := Session(user, now, now + LIFETIME);
      cache := cache[token := session];
      table := table[token := session];
    }

    method ValidateToken(token: string, now: Time) returns (user: Option<string>)
      modifies this
      ensures (StateAt(now), user) == Apply(old(StateAt(now)), Validate(token))
      ensures user.Some? ==>
                && token in cache && cache[token].user == user.value
                && cache[token].lastUsed == now && now < cache[token].expires
      ensures user.None? && token != "" ==> token !in cache && (token in table ==> table == old(table))
    {
      if token == "" {
        return None;
      }
      if token in cache {
        if now < cache[token].expires {
          cache := cache[token := cache[token].(lastUsed := now)];
          return Some(cache[token].user);
        }
        cache := cache - {token};
      }
      assert cache == old(cache) - {token};
      if token !in table {
        return None;
      }
      var row := table[token];
      if now >= row.expires {
        table := table - {token};
        return None;
      }
      row := row.(lastUsed := now);
      table := table[token := row];
      cache := cache[token := row];
      return Some(row.user);
    }

    method LogoutUser(token: string)
      modifies this
      ensures forall now :: StateAt(now) == Apply(old(StateAt(now)), Logout(token)).0
    {
      if token in cache {
        cache := cache - {token};
      }
      assert cache == old(cache) - {token};
      table := table - {token};
    }

    method CleanupTable(maxAgeHours: nat, now: Time)
      modifies this`table
      ensures StateAt(now) == Apply(old(StateAt(now)), CleanTable(maxAgeHours)).0
      ensures forall t :: t in table <==>
                t in old(table) && old(table)[t].expires >= now - maxAgeHours * 3_600_000_000
      ensures forall t :: t in table ==> table[t] == old(table)[t]
    {
      var cutoff := now - maxAgeHours * HOUR;
      table := NewerThan(table, cutoff);
    }
  }

  // ---- The reference: one map from tokens to sessions ----

  datatype Ticket = Ticket(user: string, expires: Time)

  type Tickets = map<string, Ticket>

  function RefApply(ref: Tickets, clock: Time, op: Op): (Tickets, Option<string>) {
    match op
    case Create(user, token) =>
      var others := map t | t in ref && ref[t].user != user :: ref[t];
      (others[token := Ticket(user, clock + LIFETIME)], None)
    case Logout(token) => (ref - {token}, None)
    case Validate(token) =>
      (ref, if token != "" && token in ref && clock < ref[token].expires then Some(ref[token].user) else None)
    case Tick(_) => (ref, None)
    case CleanCache => (ref, None)
    case CleanTable(_) => (ref, None)
  }

  predicate Same(session: Session, ticket: Ticket) {
    session.user == ticket.user && session.expires == ticket.expires
  }

  /** Unexpired rows are the unexpired tickets. */
  ghost predicate TableMatches(table: Sessions, ref: Tickets, clock: Time) {
    && (forall t :: t in table && clock < table[t].expires ==> t in ref && Same(table[t], ref[t]))
    && (forall t :: t in ref && clock < ref[t].expires ==> t in table && Same(table[t], ref[t]))
  }

  /** Unexpired cached sessions are in the table. */
  ghost predicate CacheMatches(cache: Sessions, table: Sessions, clock: Time) {
    forall t :: t in cache && clock < cache[t].expires ==>
                  t in table && table[t].user == cache[t].user && table[t].expires == cache[t].expires
  }

  ghost predicate OnePerUser(a: Sessions, b: Sessions) {
    forall t, t' :: t in a && t' in b && a[t].user == b[t'].user ==> t == t'
  }

  ghost predicate Refines(s: State, ref: Tickets) {
    && TableMatches(s.table, ref, s.clock)
    && CacheMatches(s.cache, s.table, s.clock)
    && OnePerUser(s.cache, s.cache) && OnePerUser(s.cache, s.table) && OnePerUser(s.table, s.table)
  }

  /** A new token has never been handed out before. */
  predicate Possible(s: State, ref: Tickets, op: Op) {
    op.Create? ==> op.token != "" && op.token !in s.cache && op.token !in s.table && op.token !in ref
  }

  lemma CreateTable(s: State, ref: Tickets, user: string, token: string)
    requires TableMatches(s.table, ref, s.clock) && Possible(s, ref, Create(user, token))
    ensures TableMatches(Created(s, user, token).table, RefApply(ref, s.clock, Create(user, token)).0, s.clock)
  {
  }

  lemma CreateCache(s: State, user: string, token: string)
    requires CacheMatches(s.cache, s.table, s.clock) && token !in s.cache && token !in s.table
    ensures CacheMatches(Created(s, user, token).cache, Created(s, user, token).table, s.clock)
  {
  }

  lemma CreateOnePerUser(s: State, user: string, token: string)
    requires OnePerUser(s.cache, s.cache) && OnePerUser(s.cache, s.table) && OnePerUser(s.table, s.table)
    ensures var s' := Created(s, user, token);
            OnePerUser(s'.cache, s'.cache) && OnePerUser(s'.cache, s'.table) && OnePerUser(s'.table, s'.table)
  {
  }

  lemma CreateRefines(s: State, ref: Tickets, user: string, token: string)
    requires Refines(s, ref) && Possible(s, ref, Create(user, token))
    ensures Refines(Created(s, user, token), RefApply(ref, s.clock, Create(user, token)).0)
  {
    CreateTable(s, ref, user, token);
    CreateCache(s, user, token);
    CreateOnePerUser(s, user, token);
  }

  /** Removing rows that have expired, and cached sessions, keeps everything. */
  lemma ShrinkRefines(s: State, ref: Tickets, s': State)
    requires Refines(s, ref) && s'.clock == s.clock
    requires forall t :: t in s'.cache ==> t in s.cache && s'.cache[t] == s.cache[t]
    requires forall t :: t in s'.table ==> t in s.table && s'.table[t] == s.table[t]
    requires forall t :: t in s.table && s.clock < s.table[t].expires ==> t in s'.table
    ensures Refines(s', ref)
  {
  }

  lemma LogoutRefines(s: State, ref: Tickets, token: string)
    requires Refines(s, ref)
    ensures Refines(s.(cache := s.cache - {token}, table := s.table - {token}), ref - {token})
  {
  }

  /** Writing a time of last use, or copying a live row into the cache, keeps everything. */
  lemma TouchRefines(s: State, ref: Tickets, token: string, row: Session)
    requires Refines(s, ref) && token in s.table && s.clock < s.table[token].expires
    requires row.user == s.table[token].user && row.expires == s.table[token].expires
    ensures Refines(s.(cache := s.cache[token := row]), ref)
  {
  }

  lemma TouchBothRefines(s: State, ref: Tickets, token: string, row: Session)
    requires Refines(s, ref) && token in s.table && s.clock < s.table[token].expires
    requires row.user == s.table[token].user && row.expires == s.table[token].expires
    ensures Refines(s.(cache := s.cache[token := row], table := s.table[token := row]), ref)
  {
  }

  lemma ValidateAnswers(s: State, ref: Tickets, token: string)
    requires Refines(s, ref)
    ensures Validated(s, token).1 == RefApply(ref, s.clock, Validate(token)).1
  {
  }

  lemma ValidateRefines(s: State, ref: Tickets, token: string)
    requires Refines(s, ref)
    ensures Refines(Validated(s, token).0, ref)
  {
    var s' := Validated(s, token).0;
    if token != "" {
      if token in s.cache && s.clock < s.cache[token].expires {
        TouchRefines(s, ref, token, s.cache[token].(lastUsed := s.clock));
      } else if token in s.table && s.clock < s.table[token].expires {
        var dropped := s.(cache := s.cache - {token});
        ShrinkRefines(s, ref, dropped);
        TouchBothRefines(dropped, ref, token, s.table[token].(lastUsed := s.clock));
      } else {
        ShrinkRefines(s, ref, s');
      }
    }
  }

  /** One operation: the same answer, and the relation holds again. */
  lemma StepRefines(s: State, ref: Tickets, op: Op)
    requires Refines(s, ref) && Possible(s, ref, op)
    ensures Apply(s, op).1 == RefApply(ref, s.clock, op).1
    ensures Refines(Apply(s, op).0, RefApply(ref, s.clock, op).0)
  {
    match op {
      case Create(user, token) => CreateRefines(s, ref, user, token);
      case Validate(token) =>
        ValidateAnswers(s, ref, token);
        ValidateRefines(s, ref, token);
      case Logout(token) => LogoutRefines(s, ref, token);
      case CleanCache => ShrinkRefines(s, ref, Apply(s, op).0);
      case CleanTable(hours) => ShrinkRefines(s, ref, Apply(s, op).0);
      case Tick(_) =>
    }
  }

  // ---- Runs ----

  function Play(s: State, ops: seq<Op>): (State, seq<Option<string>>)
    decreases |ops|
  {
    if ops == [] then (s, [])
    else
      var (s1, answer) := Apply(s, ops[0]);
      var (s2, answers) := Play(s1, ops[1..]);
      (s2, [answer] + answers)
  }

  function RefPlay(ref: Tickets, clock: Time, ops: seq<Op>): (Tickets, seq<Option<string>>)
    decreases |ops|
  {
    if ops == [] then (ref, [])
    else
      var (ref1, answer) := RefApply(ref, clock, ops[0]);
      var clock1 := if ops[0].Tick? then clock + ops[0].elapsed else clock;
      var (ref2, answers) := RefPlay(ref1, clock1, ops[1..]);
      (ref2, [answer] + answers)
  }

  predicate AllPossible(s: State, ref: Tickets, ops: seq<Op>)
    decreases |ops|
  {
    ops == [] || (Possible(s, ref, ops[0])
                  && AllPossible(Apply(s, ops[0]).0, RefApply(ref, s.clock, ops[0]).0, ops[1..]))
  }

  lemma ClockAfter(s: State, op: Op)
    ensures Apply(s, op).0.clock == if op.Tick? then s.clock + op.elapsed else s.clock
  {
  }

  /** Over any sequence of operations the cache and table together answer as the one map would, keep
      unexpired cached sessions in the table, and hold at most one session for each user. */
  lemma {:induction false} RunRefines(s: State, ref: Tickets, ops: seq<Op>)
    requires Refines(s, ref) && AllPossible(s, ref, ops)
    ensures Play(s, ops).1 == RefPlay(ref, s.clock, ops).1
    ensures Refines(Play(s, ops).0, RefPlay(ref, s.clock, ops).0)
    decreases |ops|
  {
    if ops != [] {
      StepRefines(s, ref, ops[0]);
      ClockAfter(s, ops[0]);
      RunRefines(Apply(s, ops[0]).0, RefApply(ref, s.clock, ops[0]).0, ops[1..]);
    }
  }

  /** From an empty start, with nothing assumed but that new tokens are new. */
  lemma SessionsRefineAMap(clock: Time, ops: seq<Op>)
    requires AllPossible(State(map[], map[], clock), map[], ops)
    ensures Play(State(map[], map[], clock), ops).1 == RefPlay(map[], clock, ops).1
    ensures var end := Play(State(map[], map[], clock), ops).0;
            && CacheMatches(end.cache, end.table, end.clock)
            && OnePerUser(end.table, end.table) && OnePerUser(end.cache, end.table)
  {
    RunRefines(State(map[], map[], clock), map[], ops);
  }

  // ---- How long a token works ----

  /** Microseconds that pass during the operations. */
  function Elapsed(ops: seq<Op>): nat
    decreases |ops|
  {
    if ops == [] then 0 else (if ops[0].Tick? then ops[0].elapsed else 0) + Elapsed(ops[1..])
  }

  /** Neither a logout of this token nor a login of this user, nor the token handed out again. */
  predicate LeavesAlone(op: Op, user: string, token: string) {
    op != Logout(token) && (op.Create? ==> op.user != user && op.token != token)
  }

  lemma {:induction false} TicketStays(ref: Tickets, clock: Time, ops: seq<Op>, token: string)
    requires token in ref && forall op :: op in ops ==> LeavesAlone(op, ref[token].user, token)
    ensures var end := RefPlay(ref, clock, ops).0; token in end && end[token] == ref[token]
    decreases |ops|
  {
    if ops != [] {
      assert ops[0] in ops;
      var clock1 := if ops[0].Tick? then clock + ops[0].elapsed else clock;
      TicketStays(RefApply(ref, clock, ops[0]).0, clock1, ops[1..], token);
    }
  }

  lemma {:induction false} TicketStaysAway(ref: Tickets, clock: Time, ops: seq<Op>, token: string)
    requires token !in ref && forall op :: op in ops && op.Create? ==> op.token != token
    ensures token !in RefPlay(ref, clock, ops).0
    decreases |ops|
  {
    if ops != [] {
      var clock1 := if ops[0].Tick? then clock + ops[0].elapsed else clock;
      TicketStaysAway(RefApply(ref, clock, ops[0]).0, clock1, ops[1..], token);
    }
  }

  lemma {:induction false} ClockMoves(s: State, ops: seq<Op>)
    ensures Play(s, ops).0.clock == s.clock + Elapsed(ops)
    decreases |ops|
  {
    if ops != [] {
      ClockAfter(s, ops[0]);
      ClockMoves(Apply(s, ops[0]).0, ops[1..]);
    }
  }

  /** After a login the token answers with its user for exactly twenty-four hours, whatever else happens,
      unless it is logged out or the user logs in again. */
  lemma TokenLivesADay(s: State, ref: Tickets, user: string, token: string, ops: seq<Op>)
    requires Refines(s, ref) && Possible(s, ref, Create(user, token))
    requires AllPossible(Apply(s, Create(user, token)).0, RefApply(ref, s.clock, Create(user, token)).0, ops)
    requires forall op :: op in ops ==> LeavesAlone(op, user, token)
    ensures var end := Play(Apply(s, Create(user, token)).0, ops).0;
            Apply(end, Validate(token)).1 == if Elapsed(ops) < 24 * 3600 * 1_000_000 then Some(user) else None
  {
    var s1, ref1 := Apply(s, Create(user, token)).0, RefApply(ref, s.clock, Create(user, token)).0;
    StepRefines(s, ref, Create(user, token));
    hide Refines;
    RunRefines(s1, ref1, ops);
    TicketStays(ref1, s1.clock, ops, token);
    ClockMoves(s1, ops);
    StepRefines(Play(s1, ops).0, RefPlay(ref1, s1.clock, ops).0, Validate(token));
  }

  /** Once logged out, or replaced by a later login of its user, a token never answers again. */
  lemma TokenDies(s: State, ref: Tickets, op: Op, token: string, ops: seq<Op>)
    requires Refines(s, ref) && Possible(s, ref, op)
    requires op == Logout(token) || (op.Create? && op.token != token && token in ref && ref[token].user == op.user)
    requires AllPossible(Apply(s, op).0, RefApply(ref, s.clock, op).0, ops)
    requires forall other :: other in ops && other.Create? ==> other.token != token
    ensures Apply(Play(Apply(s, op).0, ops).0, Validate(token)).1 == None
  {
    var s1, ref1 := Apply(s, op).0, RefApply(ref, s.clock, op).0;
    StepRefines(s, ref, op);
    hide Refines;
    RunRefines(s1, ref1, ops);
    TicketStaysAway(ref1, s1.clock, ops, token);
    StepRefines(Play(s1, ops).0, RefPlay(ref1, s1.clock, ops).0, Validate(token));
  }
}
