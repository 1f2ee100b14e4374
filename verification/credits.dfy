/**
 * The credit ledger of app/api/credits/route.ts. Each handler reads the signed-in user's
 * public metadata, decides, and writes the metadata back with the same keys plus its own
 * changes. Here a handler is a pure function from the stored metadata (and, for the reset,
 * the clock) to its reply and the metadata it writes; signing in and the user store are left
 * to the caller.
 */
module Credits {
  import opened Wrappers
  import opened Text

  /** A value in a user's public metadata: the integers, strings, booleans and null of JSON. */
  datatype MetaValue = Num(n: int) | Str(s: string) | Flag(b: bool) | Null

  /** A user's public metadata. */
  type Metadata = map<string, MetaValue>

  /** The key of the balance. */
  const CreditsKey := "credits"

  /** The key of the time of the last daily reset. */
  const ResetKey := "lastCreditReset"

  /** The balance a daily reset sets, and the amount a top-up adds. */
  const DailyCredits := 10

  /** JavaScript truthiness of a JSON value. */
  predicate Truthy(v: MetaValue) {
    match v
    case Num(n) => n != 0
    case Str(s) => s != ""
    case Flag(b) => b
    case Null => false
  }

  /** The value stored under `key`, if it is there and truthy (the left side of `x || y`). */
  predicate Set(meta: Metadata, key: string) {
    key in meta && Truthy(meta[key])
  }

  /**
   * `(publicMetadata.credits as number) || 0`: the stored number, and 0 when the key is
   * missing or falsy.
   */
  function Balance(meta: Metadata): (b: int)
    ensures !Set(meta, CreditsKey) ==> b == 0
    ensures CreditsKey in meta && meta[CreditsKey].Num? ==> b == meta[CreditsKey].n
  {
    if CreditsKey in meta && meta[CreditsKey].Num? then meta[CreditsKey].n else 0
  }

  /** The price of an action: 2 for `create`, 1 for `remix` and for anything else. */
  function Cost(action: string): (c: nat)
    ensures 1 <= c <= 2
    ensures c == 2 <==> action == "create"
  {
    if action == "create" then 2 else if action == "remix" then 1 else 1
  }

  /** `after` has the keys and values of `before`, except perhaps at the keys in `touched`. */
  ghost predicate Preserved(before: Metadata, after: Metadata, touched: set<string>) {
    forall k :: k !in touched ==> (k in after <==> k in before) && (k in before ==> after[k] == before[k])
  }

  /** The reply of PUT. */
  datatype Spend =
    | Spent(meta: Metadata, credits: int, action: string, cost: nat)
    | Refused(status: nat, error: string, credits: int)

  /** The message of a refused request. */
  function ShortMessage(cost: nat): string {
    "Insufficient credits. Need " + NatToString(cost) + " credits for this action."
  }

  /**
   * PUT: with too few credits for the action, status 400 and nothing written; otherwise
   * the cost is taken from the balance and the new balance is written over the old one.
   */
  function SpendCredits(meta: Metadata, action: string): (r: Spend)
    ensures r.Refused? <==> Balance(meta) < Cost(action)
    ensures r.Refused? ==> r.status == 400 && r.credits == Balance(meta) && r.error == ShortMessage(Cost(action))
    ensures r.Spent? ==> && r.credits == Balance(meta) - Cost(action) && r.credits >= 0
                         && r.action == action && r.cost == Cost(action)
                         && CreditsKey in r.meta && r.meta[CreditsKey] == Num(r.credits) && Balance(r.meta) == r.credits
                         && Preserved(meta, r.meta, {CreditsKey})
  {
    var cost := Cost(action);
    var current := Balance(meta);
    if current < cost then Refused(400, ShortMessage(cost), current)
    else Spent(meta[CreditsKey := Num(current - cost)], current - cost, action, cost)
  }

  /** The metadata stored after PUT: what it wrote, or the old metadata when it refused. */
  function Charge(meta: Metadata, action: string): (after: Metadata)
    ensures Balance(meta) < Cost(action) ==> after == meta
    ensures Balance(meta) >= Cost(action) ==> Balance(after) == Balance(meta) - Cost(action)
    ensures Preserved(meta, after, {CreditsKey})
  {
    match SpendCredits(meta, action)
    case Spent(m, _, _, _) => m
    case Refused(_, _, _) => meta
  }

  /** The reply of PATCH. */
  datatype TopUp = TopUp(meta: Metadata, previousCredits: int, credits: int, message: string)

  /**
   * PATCH: ten credits more than the balance, keeping a truthy `lastCreditReset` and
   * otherwise writing the current time `stamp` there.
   */
  function TopUpCredits(meta: Metadata, stamp: string): (r: TopUp)
    ensures r.previousCredits == Balance(meta) && r.credits == r.previousCredits + DailyCredits
    ensures CreditsKey in r.meta && r.meta[CreditsKey] == Num(r.credits) && Balance(r.meta) == r.credits
    ensures ResetKey in r.meta
    ensures Set(meta, ResetKey) ==> r.meta[ResetKey] == meta[ResetKey]
    ensures !Set(meta, ResetKey) ==> r.meta[ResetKey] == Str(stamp)
    ensures Preserved(meta, r.meta, {CreditsKey, ResetKey})
    ensures r.message == "Added 10 test credits"
  {
    var current := Balance(meta);
    var reset := if Set(meta, ResetKey) then meta[ResetKey] else Str(stamp);
    TopUp(meta[CreditsKey := Num(current + DailyCredits)][ResetKey := reset],
          current, current + DailyCredits, "Added 10 test credits")
  }

  /**
   * The clock of a POST: `est.toISOString()` and `est.toDateString()` of the current time
   * in New York, taken as given.
   */
  datatype Clock = Clock(stamp: string, day: string)

  /** The reply of POST. */
  datatype Renewal =
    | Renewed(meta: Metadata, credits: int, lastReset: string)
    | AlreadyToday(message: string, storedCredits: Option<MetaValue>, storedReset: MetaValue)

  /**
   * A reset is due when no truthy `lastCreditReset` is stored, or when the day it names
   * (`dayOf`, standing for `new Date(lastReset).toDateString()`) is not today.
   */
  predicate Due(meta: Metadata, clock: Clock, dayOf: MetaValue -> string) {
    !Set(meta, ResetKey) || dayOf(meta[ResetKey]) != clock.day
  }

  /**
   * POST: when a reset is due, the balance becomes 10 and the reset time is now; otherwise
   * nothing is written and the stored balance and reset time are reported back.
   */
  function ResetCredits(meta: Metadata, clock: Clock, dayOf: MetaValue -> string): (r: Renewal)
    ensures r.Renewed? <==> Due(meta, clock, dayOf)
    ensures r.Renewed? ==> && r.credits == DailyCredits && Balance(r.meta) == DailyCredits
                           && r.lastReset == clock.stamp && ResetKey in r.meta && r.meta[ResetKey] == Str(clock.stamp)
                           && Preserved(meta, r.meta, {CreditsKey, ResetKey})
    ensures r.AlreadyToday? ==> && r.storedReset == meta[ResetKey] && Truthy(r.storedReset)
                                && r.message == "Credits can only be reset once per day"
                                && (r.storedCredits.Some? <==> CreditsKey in meta)
                                && (r.storedCredits.Some? ==> r.storedCredits.value == meta[CreditsKey])
  {
    if Due(meta, clock, dayOf) then
      Renewed(meta[CreditsKey := Num(DailyCredits)][ResetKey := Str(clock.stamp)], DailyCredits, clock.stamp)
    else
      AlreadyToday("Credits can only be reset once per day",
                   if CreditsKey in meta then Some(meta[CreditsKey]) else None, meta[ResetKey])
  }

  /** The metadata stored after POST. */
  function Renew(meta: Metadata, clock: Clock, dayOf: MetaValue -> string): (after: Metadata)
    ensures !Due(meta, clock, dayOf) ==> after == meta
    ensures Due(meta, clock, dayOf) ==> Balance(after) == DailyCredits
  {
    match ResetCredits(meta, clock, dayOf)
    case Renewed(m, _, _) => m
    case AlreadyToday(_, _, _) => meta
  }

  /** The reply of GET: `credits || 0` and the stored reset time, as stored. */
  datatype Shown = Shown(credits: MetaValue, lastReset: Option<MetaValue>)

  /** GET: the stored balance, or 0 when it is missing or falsy, and the stored reset time. */
  function ShowCredits(meta: Metadata): (r: Shown)
    ensures Set(meta, CreditsKey) ==> r.credits == meta[CreditsKey]
    ensures !Set(meta, CreditsKey) ==> r.credits == Num(0)
    ensures r.lastReset.Some? <==> ResetKey in meta
    ensures r.lastReset.Some? ==> r.lastReset.value == meta[ResetKey]
  {
    Shown(if Set(meta, CreditsKey) then meta[CreditsKey] else Num(0),
          if ResetKey in meta then Some(meta[ResetKey]) else None)
  }

  /** GET shows the balance PUT and PATCH work with whenever the stored credits are a number or absent. */
  lemma ShownIsBalance(meta: Metadata)
    requires CreditsKey !in meta || meta[CreditsKey].Num?
    ensures ShowCredits(meta).credits == Num(Balance(meta))
  {
  }

  // ------------------------------------------------------------ a run of PUT requests

  /** The metadata after PUT requests for `actions`, one after the other. */
  function Run(meta: Metadata, actions: seq<string>): (after: Metadata)
    decreases |actions|
  {
    if actions == [] then meta else Run(Charge(meta, actions[0]), actions[1..])
  }

  /** What the accepted requests of a run cost together. */
  function Charged(meta: Metadata, actions: seq<string>): (total: nat)
    decreases |actions|
  {
    if actions == [] then 0
    else
      var cost := if Balance(meta) < Cost(actions[0]) then 0 else Cost(actions[0]);
      cost + Charged(Charge(meta, actions[0]), actions[1..])
  }

  /** A run takes from the balance exactly what its accepted requests cost. */
  lemma {:induction false} RunBalance(meta: Metadata, actions: seq<string>)
    ensures Balance(Run(meta, actions)) == Balance(meta) - Charged(meta, actions)
    decreases |actions|
  {
    if actions != [] {
      RunBalance(Charge(meta, actions[0]), actions[1..]);
    }
  }

  /** A run never takes the balance below zero, nor below where it started when that was negative. */
  lemma {:induction false} RunNeverOverdraws(meta: Metadata, actions: seq<string>)
    ensures Balance(Run(meta, actions)) >= 0 || Balance(Run(meta, actions)) == Balance(meta)
    decreases |actions|
  {
    if actions != [] {
      var next := Charge(meta, actions[0]);
      RunNeverOverdraws(next, actions[1..]);
      if Balance(meta) < 0 {
        assert next == meta;
      }
    }
  }

  /** A run writes only the balance: every other key keeps its value. */
  lemma {:induction false} RunKeepsOtherKeys(meta: Metadata, actions: seq<string>)
    ensures Preserved(meta, Run(meta, actions), {CreditsKey})
    decreases |actions|
  {
    if actions != [] {
      var next := Charge(meta, actions[0]);
      RunKeepsOtherKeys(next, actions[1..]);
      PreservedChains(meta, next, Run(next, actions[1..]), {CreditsKey});
    }
  }

  /** Keeping the other keys twice keeps them. */
  lemma PreservedChains(a: Metadata, b: Metadata, c: Metadata, touched: set<string>)
    requires Preserved(a, b, touched) && Preserved(b, c, touched)
    ensures Preserved(a, c, touched)
  {
  }

  /** `n` requests to create. */
  function Creates(n: nat): (r: seq<string>)
    ensures |r| == n && forall a :: 0 <= a < n ==> r[a] == "create"
  {
    seq(n, _ => "create")
  }

  /** From a balance `b >= 0`, of `n` requests to create the first `min(n, b / 2)` are accepted. */
  lemma {:induction false} CreatesAccepted(meta: Metadata, n: nat)
    requires Balance(meta) >= 0
    ensures Charged(meta, Creates(n)) == 2 * Min(n, Balance(meta) / 2)
    decreases n
  {
    if n > 0 {
      var next := Charge(meta, "create");
      assert Creates(n)[0] == "create" && Creates(n)[1..] == Creates(n - 1);
      CreatesAccepted(next, n - 1);
    }
  }

  /** The smaller of two numbers. */
  function Min(a: nat, b: nat): nat {
    if a <= b then a else b
  }

  /** A day's ten credits pay for five creations, and a sixth is refused. */
  lemma FiveCreationsADay(meta: Metadata, clock: Clock, dayOf: MetaValue -> string)
    requires Due(meta, clock, dayOf)
    ensures var renewed := Renew(meta, clock, dayOf);
            Charged(renewed, Creates(6)) == 10 && Balance(Run(renewed, Creates(6))) == 0
  {
    var renewed := Renew(meta, clock, dayOf);
    CreatesAccepted(renewed, 6);
    RunBalance(renewed, Creates(6));
  }

  /** A reset that writes a time naming today is not repeated the same day. */
  lemma ResetOncePerDay(meta: Metadata, clock: Clock, dayOf: MetaValue -> string)
    requires clock.stamp != "" && dayOf(Str(clock.stamp)) == clock.day
    ensures !Due(Renew(meta, clock, dayOf), clock, dayOf)
    ensures Renew(Renew(meta, clock, dayOf), clock, dayOf) == Renew(meta, clock, dayOf)
  {
    if !Due(meta, clock, dayOf) {
      assert Renew(meta, clock, dayOf) == meta;
    }
  }

  /** After a top-up any action is affordable when the balance was at least the cost less ten. */
  lemma TopUpAffords(meta: Metadata, stamp: string, action: string)
    requires Balance(meta) + DailyCredits >= Cost(action)
    ensures SpendCredits(TopUpCredits(meta, stamp).meta, action).Spent?
  {
  }
}
