/** Daily budgets for full reindexes and cheap checks. */
module Budget {
  import opened Wrappers
  import opened Indexing
  import opened Numbers

  type Day = int

  /** How many events of each kind the database already holds for a day. */
  datatype Loaded = Loaded(full: nat, cheap: nat)

  datatype Used = Used(day: Day, full: nat, cheap: nat)

  datatype Caps = Caps(dailyFull: nat, dailyCheap: nat, maxCheapPerDay: nat)

  function Cap(caps: Caps, action: Action): nat {
    match action
    case Full => caps.dailyFull
    case Cheap => Min(caps.dailyCheap, caps.maxCheapPerDay)
  }

  function Count(used: Used, action: Action): nat {
    match action
    case Full => used.full
    case Cheap => used.cheap
  }

  function LoadedCount(loaded: Loaded, action: Action): nat {
    match action
    case Full => loaded.full
    case Cheap => loaded.cheap
  }

  // ---- The counters ----

  /** `_reset_daily_budgets` */
  function Reset(used: Used, today: Day, loaded: Loaded): Used {
    if today == used.day then used else Used(today, loaded.full, loaded.cheap)
  }

  function Consume(used: Used, action: Action): Used {
    match action
    case Full => used.(full := used.full + 1)
    case Cheap => used.(cheap := used.cheap + 1)
  }

  class BudgetState {
    var used: Used

    constructor (today: Day)
      ensures used == Used(today, 0, 0)
    {
      used := Used(today, 0, 0);
    }

    method Available(caps: Caps, action: Action, today: Day, loaded: Loaded) returns (ok: bool)
      modifies this
      ensures used == Reset(old(used), today, loaded)
      ensures action == Full ==> (ok <==> used.full < caps.dailyFull)
      ensures action == Cheap ==> (ok <==> used.cheap < caps.dailyCheap && used.cheap < caps.maxCheapPerDay)
      ensures used.day == today && (today == old(used.day) ==> used == old(used))
      ensures today != old(used.day) ==> used.full == loaded.full && used.cheap == loaded.cheap
      ensures ok <==> Count(used, action) < Cap(caps, action)
    {
      ResetDaily(today, loaded);
      if action == Full {
        return used.full < caps.dailyFull;
      }
      var cheapCap := if caps.dailyCheap < caps.maxCheapPerDay then caps.dailyCheap else caps.maxCheapPerDay;
      return used.cheap < cheapCap;
    }

    method ResetDaily(today: Day, loaded: Loaded)
      modifies this
      ensures used == Reset(old(used), today, loaded)
    {
      if today != used.day {
        used := Used(today, 0, 0);
        used := used.(full := loaded.full, cheap := loaded.cheap);
      }
    }

    method ConsumeBudget(action: Action, today: Day, loaded: Loaded)
      modifies this
      ensures used == Consume(Reset(old(used), today, loaded), action)
      ensures used.day == today
      ensures used.full == (if today == old(used.day) then old(used.full) else loaded.full)
                           + if action == Full then 1 else 0
      ensures used.cheap == (if today == old(used.day) then old(used.cheap) else loaded.cheap)
                            + if action == Full then 0 else 1
    {
      ResetDaily(today, loaded);
      used := if action == Full then used.(full := used.full + 1) else used.(cheap := used.cheap + 1);
    }

    /** One scheduler round with one target: selected under the budget, counted if the pass succeeded. */
    method DoRound(caps: Caps, r: Round)
      modifies this
      ensures used == AfterRound(caps, old(used), r)
    {
      var ok := Available(caps, r.action, r.selected, r.loadedThen);
      if ok && r.success {
        ConsumeBudget(r.action, r.consumed, r.loadedLater);
      }
    }
  }

  // ---- Rounds ----

  /** `loadedThen` and `loadedLater` are what the database would report at the two moments. */
  datatype Round = Round(action: Action, selected: Day, loadedThen: Loaded, success: bool,
                         consumed: Day, loadedLater: Loaded)

  function AfterRound(caps: Caps, used: Used, r: Round): Used {
    var at := Reset(used, r.selected, r.loadedThen);
    if Count(at, r.action) < Cap(caps, r.action) && r.success
    then Consume(Reset(at, r.consumed, r.loadedLater), r.action)
    else at
  }

  /** The counters after some rounds, with what was loaded when the current day began. */
  function Play(caps: Caps, used: Used, base: Loaded, rounds: seq<Round>): (Used, Loaded)
    decreases |rounds|
  {
    if rounds == [] then (used, base)
    else
      var r := rounds[0];
      var base1 := if r.selected == used.day then base else r.loadedThen;
      Play(caps, AfterRound(caps, used, r), base1, rounds[1..])
  }

  ghost predicate WithinBudget(caps: Caps, used: Used, base: Loaded) {
    forall action :: Count(used, action) <= Max(Cap(caps, action), LoadedCount(base, action))
  }

  /** No round is selected on one day and counted on the next. */
  predicate SameDay(rounds: seq<Round>) {
    forall i :: 0 <= i < |rounds| ==> rounds[i].selected == rounds[i].consumed
  }

  lemma RoundStaysWithin(caps: Caps, used: Used, base: Loaded, r: Round)
    requires WithinBudget(caps, used, base) && r.selected == r.consumed
    ensures WithinBudget(caps, AfterRound(caps, used, r), if r.selected == used.day then base else r.loadedThen)
  {
  }

  /** Over any rounds, each on one day, a counter never passes the larger of its cap and the count
      loaded when the day began. */
  lemma {:induction false} BudgetsHold(caps: Caps, used: Used, base: Loaded, rounds: seq<Round>)
    requires WithinBudget(caps, used, base) && SameDay(rounds)
    ensures WithinBudget(caps, Play(caps, used, base, rounds).0, Play(caps, used, base, rounds).1)
    decreases |rounds|
  {
    if rounds != [] {
      var r := rounds[0];
      RoundStaysWithin(caps, used, base, r);
      var base1 := if r.selected == used.day then base else r.loadedThen;
      assert SameDay(rounds[1..]);
      BudgetsHold(caps, AfterRound(caps, used, r), base1, rounds[1..]);
    }
  }

  /** What that comes to for the two counters: each is at most the larger of its own cap and its own
      loaded count. */
  lemma CountersHold(caps: Caps, used: Used, base: Loaded, rounds: seq<Round>)
    requires SameDay(rounds)
    requires used.full <= caps.dailyFull || used.full <= base.full
    requires (used.cheap <= caps.dailyCheap && used.cheap <= caps.maxCheapPerDay) || used.cheap <= base.cheap
    ensures var (end, loaded) := Play(caps, used, base, rounds);
            && (end.full <= caps.dailyFull || end.full <= loaded.full)
            && ((end.cheap <= caps.dailyCheap && end.cheap <= caps.maxCheapPerDay) || end.cheap <= loaded.cheap)
  {
    forall action ensures Count(used, action) <= Max(Cap(caps, action), LoadedCount(base, action)) {
      match action {
        case Full =>
        case Cheap =>
      }
    }
    BudgetsHold(caps, used, base, rounds);
    var (end, loaded) := Play(caps, used, base, rounds);
    assert Count(end, Full) <= Max(Cap(caps, Full), LoadedCount(loaded, Full));
    assert Count(end, Cheap) <= Max(Cap(caps, Cheap), LoadedCount(loaded, Cheap));
  }

  /** A round that straddles midnight goes over the budget of the new day iff the database already
      reports that day's budget as used up: its own commit is then counted twice. */
  lemma MidnightRoundOverrunsIff(caps: Caps, used: Used, r: Round)
    requires r.selected != r.consumed && r.success
    requires Count(Reset(used, r.selected, r.loadedThen), r.action) < Cap(caps, r.action)
    ensures Count(AfterRound(caps, used, r), r.action) >
              Max(Cap(caps, r.action), LoadedCount(r.loadedLater, r.action))
            <==> LoadedCount(r.loadedLater, r.action) >= Cap(caps, r.action)
  {
  }
}
