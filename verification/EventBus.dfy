/**
  The event bus as interleaved atomic steps: an idempotency window over accepted event ids, retried
  deliveries with exponential backoff, and a bounded dead-letter queue.
 */
module EventBuses {
  import opened Wrappers

  datatype Id = Id(text: string)
  datatype Topic = Topic(name: string)

  datatype Handler = Handler(name: string)

  datatype Event = Event(id: Id, kind: Topic, payload: string, source: string, trace: string, version: int)

  /** A handler with the one version it wants, or every version. */
  datatype Subscription = Subscription(handler: Handler, version: Option<int>)

  datatype DeadLetter = DeadLetter(event: Event, handler: Handler, attempts: nat)

  /** A delivery between two attempts: its number, which attempt comes next, and how long it has slept so far. */
  datatype Delivery = Delivery(number: nat, event: Event, handler: Handler, attempt: nat, slept: real)

  /** A delivery that was given up, with the failures it saw. */
  datatype Burial = Burial(number: nat, letter: DeadLetter, failures: nat, slept: real)

  datatype Config = Config(maxRetries: nat, baseBackoff: real, deadLetterCapacity: nat, idempotencyWindow: nat)

  // ----- retries -----

  function Pow2(n: nat): nat {
    if n == 0 then 1 else 2 * Pow2(n - 1)
  }

  function Delay(c: Config, attempt: nat): real
    requires attempt >= 1
  {
    c.baseBackoff * Pow2(attempt - 1) as real
  }

  function Start(number: nat, event: Event, handler: Handler): Delivery {
    Delivery(number, event, handler, 1, 0.0)
  }

  /** After a failed attempt: the sleep before the next one, or nothing when the retries are used up. */
  function Retry(c: Config, d: Delivery): Option<Delivery>
    requires d.attempt >= 1
  {
    if d.attempt <= c.maxRetries
    then Some(d.(attempt := d.attempt + 1, slept := d.slept + Delay(c, d.attempt)))
    else None
  }

  /** A pending delivery has failed attempt - 1 times and slept base * (2^(attempt - 1) - 1). */
  predicate IsPending(c: Config, d: Delivery) {
    1 <= d.attempt <= c.maxRetries + 1 && d.slept == c.baseBackoff * (Pow2(d.attempt - 1) - 1) as real
  }

  lemma RetryKeepsPending(c: Config, d: Delivery)
    requires IsPending(c, d)
    ensures Retry(c, d).Some? ==> IsPending(c, Retry(c, d).value)
    ensures Retry(c, d).None? ==> d.attempt == c.maxRetries + 1
  {
    var p := Pow2(d.attempt - 1);
    assert Pow2(d.attempt) == 2 * p;
  }

  /** A dead letter records exactly maxRetries + 1 failures and a total sleep of base * (2^maxRetries - 1). */
  predicate IsBurial(c: Config, b: Burial) {
    b.failures == c.maxRetries + 1 && b.letter.attempts == b.failures
    && b.slept == c.baseBackoff * (Pow2(c.maxRetries) - 1) as real
  }

  // ----- the bus -----

  datatype Bus = Bus(
    config: Config,
    subscribers: map<Topic, seq<Subscription>>,
    seen: seq<Id>,
    deadLetters: seq<DeadLetter>,
    inFlight: seq<Delivery>,
    published: nat, delivered: nat, duplicates: nat,
    accepted: seq<Id>,
    started: nat,
    buried: seq<Burial>)

  function Fresh(c: Config): Bus {
    Bus(c, map[], [], [], [], 0, 0, 0, [], 0, [])
  }

  function Suffix<T>(s: seq<T>, n: nat): seq<T> {
    if |s| <= n then s else s[|s| - n..]
  }

  /** Drops from the front until at most n are left, as popitem(last=False) does one by one. */
  function Trim<T>(s: seq<T>, n: nat): (r: seq<T>)
    ensures r == Suffix(s, n)
  {
    if |s| <= n then s else Trim(s[1..], n)
  }

  /** The handlers subscribed to the event's type whose version matches, in subscription order. */
  function Matching(subs: seq<Subscription>, version: int): seq<Handler> {
    if subs == [] then []
    else
      var last := subs[|subs| - 1];
      Matching(subs[..|subs| - 1], version) + if last.version.None? || last.version.value == version then [last.handler] else []
  }

  function HandlersOf(b: Bus, event: Event): seq<Handler> {
    Matching(if event.kind in b.subscribers then b.subscribers[event.kind] else [], event.version)
  }

  /** One delivery per handler, numbered from the deliveries started before. */
  function StartAll(number: nat, event: Event, handlers: seq<Handler>): (ds: seq<Delivery>)
    ensures |ds| == |handlers|
  {
    seq(|handlers|, i requires 0 <= i < |handlers| => Start(number + i, event, handlers[i]))
  }

  function Subscribed(b: Bus, kind: Topic, s: Subscription): Bus {
    b.(subscribers := b.subscribers[kind := (if kind in b.subscribers then b.subscribers[kind] else []) + [s]])
  }

  function Published(b: Bus, event: Event): Bus {
    if event.id in b.seen then b.(duplicates := b.duplicates + 1)
    else
      var handlers := HandlersOf(b, event);
      b.(seen := Trim(b.seen + [event.id], b.config.idempotencyWindow),
         accepted := b.accepted + [event.id],
         published := b.published + 1,
         started := b.started + |handlers|,
         inFlight := b.inFlight + StartAll(b.started, event, handlers))
  }

  lemma PublishedIgnores(b: Bus, event: Event)
    requires event.id in b.seen
    ensures Published(b, event) == b.(duplicates := b.duplicates + 1)
  {
  }

  function Without<T>(s: seq<T>, i: nat): seq<T>
    requires i < |s|
  {
    s[..i] + s[i + 1..]
  }

  function Succeeded(b: Bus, i: nat): Bus
    requires i < |b.inFlight|
  {
    b.(inFlight := Without(b.inFlight, i), delivered := b.delivered + 1)
  }

  function Failed(b: Bus, i: nat): Bus
    requires i < |b.inFlight| && b.inFlight[i].attempt >= 1
  {
    var d := b.inFlight[i];
    var next := Retry(b.config, d);
    if next.Some? then b.(inFlight := b.inFlight[i := next.value])
    else
      var letter := DeadLetter(d.event, d.handler, b.config.maxRetries + 1);
      b.(inFlight := Without(b.inFlight, i),
         deadLetters := Trim(b.deadLetters + [letter], b.config.deadLetterCapacity),
         buried := b.buried + [Burial(d.number, letter, d.attempt, d.slept)])
  }

  /** The first dead letter of an event id. */
  function FindLetter(letters: seq<DeadLetter>, id: Id): (r: Option<nat>)
    ensures r.Some? ==> r.value < |letters| && letters[r.value].event.id == id
    ensures r.Some? ==> forall k :: 0 <= k < r.value ==> letters[k].event.id != id
    ensures r.None? ==> forall k :: 0 <= k < |letters| ==> letters[k].event.id != id
  {
    if letters == [] then None
    else if letters[0].event.id == id then Some(0)
    else
      var r := FindLetter(letters[1..], id);
      if r.Some? then Some(r.value + 1) else None
  }

  /** A replay leaves the queue and goes out again under a newly minted id. */
  function Replayed(b: Bus, id: Id, minted: Id): Bus {
    var k := FindLetter(b.deadLetters, id);
    if k.None? then b
    else Published(b.(deadLetters := Without(b.deadLetters, k.value)), b.deadLetters[k.value].event.(id := minted))
  }

  datatype Step =
    | Subscribe(kind: Topic, subscription: Subscription)
    | Publish(event: Event)
    | Succeed(delivery: nat)
    | Fail(delivery: nat)
    | ReplayLetter(id: Id, minted: Id)

  predicate Enabled(b: Bus, s: Step) {
    match s
    case Succeed(i) => i < |b.inFlight|
    case Fail(i) => i < |b.inFlight| && b.inFlight[i].attempt >= 1
    case _ => true
  }

  function After(b: Bus, s: Step): Bus
    requires Enabled(b, s)
  {
    match s
    case Subscribe(kind, subscription) => Subscribed(b, kind, subscription)
    case Publish(event) => Published(b, event)
    case Succeed(i) => Succeeded(b, i)
    case Fail(i) => Failed(b, i)
    case ReplayLetter(id, minted) => Replayed(b, id, minted)
  }

  /** A run lists the states an interleaving goes through. */
  ghost predicate IsRun(states: seq<Bus>, steps: seq<Step>) {
    && |states| == |steps| + 1
    && forall i :: 0 <= i < |steps| ==> Enabled(states[i], steps[i]) && states[i + 1] == After(states[i], steps[i])
  }

  // ----- what every interleaving keeps -----

  /** The ids remembered are the last accepted ones, each once. */
  ghost predicate RemembersWindow(b: Bus) {
    && b.seen == Suffix(b.accepted, b.config.idempotencyWindow)
    && (forall i, j :: 0 <= i < j < |b.seen| ==> b.seen[i] != b.seen[j])
    && b.published == |b.accepted|
  }

  /** Deliveries are conserved: every one started is delivered, buried, or in flight. */
  ghost predicate ConservesDeliveries(b: Bus) {
    && b.started == b.delivered + |b.buried| + |b.inFlight|
    && (forall i :: 0 <= i < |b.inFlight| ==> IsPending(b.config, b.inFlight[i]))
    && (forall k :: 0 <= k < |b.buried| ==> IsBurial(b.config, b.buried[k]))
  }

  /** The queue is within capacity and holds only letters that were buried. */
  ghost predicate HoldsBuried(b: Bus) {
    && |b.deadLetters| <= b.config.deadLetterCapacity
    && forall k :: 0 <= k < |b.deadLetters| ==> WasBuried(b, b.deadLetters[k])
  }

  ghost predicate WasBuried(b: Bus, letter: DeadLetter) {
    exists i :: 0 <= i < |b.buried| && b.buried[i].letter == letter
  }

  ghost predicate Inv(b: Bus) {
    RemembersWindow(b) && ConservesDeliveries(b) && HoldsBuried(b)
  }

  lemma PublishKeeps(b: Bus, event: Event)
    requires Inv(b)
    ensures Inv(Published(b, event))
  {
    PublishRemembers(b, event);
    PublishConserves(b, event);
    PublishBuries(b, event);
    hide RemembersWindow, ConservesDeliveries, HoldsBuried, Published;
  }

  lemma PublishRemembers(b: Bus, event: Event)
    requires RemembersWindow(b)
    ensures RemembersWindow(Published(b, event))
  {
    hide HandlersOf, StartAll, Suffix, Trim;
    if event.id !in b.seen {
      SuffixSnoc(b.accepted, b.config.idempotencyWindow, event.id);
      DistinctSnoc(b.seen, b.config.idempotencyWindow, event.id);
    }
  }

  lemma DistinctSnoc<T>(s: seq<T>, n: nat, x: T)
    requires x !in s && forall i, j :: 0 <= i < j < |s| ==> s[i] != s[j]
    ensures forall i, j :: 0 <= i < j < |Suffix(s + [x], n)| ==> Suffix(s + [x], n)[i] != Suffix(s + [x], n)[j]
  {
    assert forall i :: 0 <= i < |s| ==> s[i] != x;
  }

  /** Keeping the last n of a suffix and one more is keeping the last n of everything. */
  lemma SuffixSnoc<T>(s: seq<T>, n: nat, x: T)
    ensures Suffix(Suffix(s, n) + [x], n) == Suffix(s + [x], n)
  {
  }

  lemma PublishBuries(b: Bus, event: Event)
    requires HoldsBuried(b)
    ensures HoldsBuried(Published(b, event))
  {
    hide HandlersOf, StartAll, Trim;
    assert forall letter :: WasBuried(b, letter) ==> WasBuried(Published(b, event), letter);
  }

  lemma PublishConserves(b: Bus, event: Event)
    requires ConservesDeliveries(b)
    ensures ConservesDeliveries(Published(b, event))
  {
    StartIsPending(b.config, event);
    hide IsPending, IsBurial, HandlersOf, Trim, Start;
  }

  lemma StartIsPending(c: Config, event: Event)
    ensures forall n: nat, h :: IsPending(c, Start(n, event, h))
  {
  }

  lemma SucceedKeeps(b: Bus, i: nat)
    requires Inv(b) && i < |b.inFlight|
    ensures Inv(Succeeded(b, i))
  {
    assert forall letter :: WasBuried(b, letter) ==> WasBuried(Succeeded(b, i), letter);
  }

  lemma FailKeeps(b: Bus, i: nat)
    requires Inv(b) && i < |b.inFlight|
    ensures b.inFlight[i].attempt >= 1 && Inv(Failed(b, i))
  {
    assert IsPending(b.config, b.inFlight[i]);
    FailConserves(b, i);
    if Retry(b.config, b.inFlight[i]).Some? {
      SameBurials(b, Failed(b, i));
    } else {
      FailBuries(b, i);
    }
    hide ConservesDeliveries, HoldsBuried, Retry, Suffix, Trim, IsPending;
  }

  lemma FailConserves(b: Bus, i: nat)
    requires ConservesDeliveries(b) && i < |b.inFlight| && b.inFlight[i].attempt >= 1
    ensures ConservesDeliveries(Failed(b, i))
  {
    assert IsPending(b.config, b.inFlight[i]);
    RetryKeepsPending(b.config, b.inFlight[i]);
    hide IsPending, IsBurial, Trim, Retry;
  }

  lemma SameBurials(b: Bus, after: Bus)
    requires HoldsBuried(b) && after.buried == b.buried && after.deadLetters == b.deadLetters && after.config == b.config
    ensures HoldsBuried(after)
  {
    assert forall letter :: WasBuried(b, letter) ==> WasBuried(after, letter);
  }

  lemma FailBuries(b: Bus, i: nat)
    requires HoldsBuried(b) && i < |b.inFlight| && b.inFlight[i].attempt >= 1
    requires Retry(b.config, b.inFlight[i]).None?
    ensures HoldsBuried(Failed(b, i))
  {
    var after := Failed(b, i);
    var letter := after.buried[|b.buried|].letter;
    forall k | 0 <= k < |after.deadLetters| ensures WasBuried(after, after.deadLetters[k]) {
      var all := b.deadLetters + [letter];
      var j := k + |all| - |after.deadLetters|;
      assert after.deadLetters[k] == all[j];
      if j < |b.deadLetters| {
        assert WasBuried(b, b.deadLetters[j]);
        var m :| 0 <= m < |b.buried| && b.buried[m].letter == b.deadLetters[j];
        assert after.buried[m].letter == after.deadLetters[k];
      }
    }
  }

  lemma TakingKeeps(b: Bus, k: nat)
    requires Inv(b) && k < |b.deadLetters|
    ensures Inv(b.(deadLetters := Without(b.deadLetters, k)))
  {
    var taken := b.(deadLetters := Without(b.deadLetters, k));
    assert forall letter :: WasBuried(b, letter) ==> WasBuried(taken, letter);
    hide IsPending, IsBurial, Suffix, WasBuried;
  }

  lemma ReplayKeeps(b: Bus, id: Id, minted: Id)
    requires Inv(b)
    ensures Inv(Replayed(b, id, minted))
  {
    var k := FindLetter(b.deadLetters, id);
    if k.Some? {
      TakingKeeps(b, k.value);
      hide Inv, Published;
      PublishKeeps(b.(deadLetters := Without(b.deadLetters, k.value)), b.deadLetters[k.value].event.(id := minted));
    }
  }

  lemma StepKeeps(b: Bus, s: Step)
    requires Inv(b) && Enabled(b, s)
    ensures Inv(After(b, s))
  {
    match s
    case Subscribe(kind, subscription) =>
      assert forall letter :: WasBuried(b, letter) ==> WasBuried(Subscribed(b, kind, subscription), letter);
    case Publish(event) => PublishKeeps(b, event);
    case Succeed(i) => SucceedKeeps(b, i);
    case Fail(i) => FailKeeps(b, i);
    case ReplayLetter(id, minted) => ReplayKeeps(b, id, minted);
  }

  lemma {:induction false} EveryInterleavingKeeps(states: seq<Bus>, steps: seq<Step>, k: nat)
    requires IsRun(states, steps) && states[0] == Fresh(states[0].config) && k < |states|
    ensures Inv(states[k])
  {
    if k == 0 {
    } else {
      EveryInterleavingKeeps(states, steps, k - 1);
      StepKeeps(states[k - 1], steps[k - 1]);
    }
  }

  // ----- failures are failed attempts -----

  /** How many of the first k steps fail an attempt of this delivery. */
  function FailCount(states: seq<Bus>, steps: seq<Step>, k: nat, number: nat): nat
    requires k <= |steps| && k <= |states|
  {
    if k == 0 then 0
    else FailCount(states, steps, k - 1, number) + if Fails(states[k - 1], steps[k - 1], number) then 1 else 0
  }

  /** No two deliveries in flight or buried share a number, and none has a number not given out yet. */
  ghost predicate NumbersDistinct(b: Bus) {
    && (forall i, j :: 0 <= i < j < |b.inFlight| ==> b.inFlight[i].number != b.inFlight[j].number)
    && (forall i, j :: 0 <= i < |b.inFlight| && 0 <= j < |b.buried| ==> b.inFlight[i].number != b.buried[j].number)
    && (forall i :: 0 <= i < |b.inFlight| ==> b.inFlight[i].number < b.started && b.inFlight[i].attempt >= 1)
    && (forall j :: 0 <= j < |b.buried| ==> b.buried[j].number < b.started)
  }

  /** f counts the failures of every delivery in flight or buried, and none of those not started. */
  ghost predicate Tallies(f: nat -> nat, b: Bus) {
    && (forall i :: 0 <= i < |b.inFlight| ==> f(b.inFlight[i].number) == b.inFlight[i].attempt - 1)
    && (forall j :: 0 <= j < |b.buried| ==> f(b.buried[j].number) == b.buried[j].failures)
    && forall n: nat :: n >= b.started ==> f(n) == 0
  }

  ghost predicate SameDeliveries(b: Bus, after: Bus) {
    after.inFlight == b.inFlight && after.buried == b.buried && after.started == b.started
  }

  ghost predicate StartsDeliveries(b: Bus, after: Bus, ds: seq<Delivery>) {
    && after.inFlight == b.inFlight + ds && after.buried == b.buried && after.started == b.started + |ds|
    && forall i :: 0 <= i < |ds| ==> ds[i].number == b.started + i && ds[i].attempt == 1
  }

  lemma StartTallies(b: Bus, after: Bus, ds: seq<Delivery>, f: nat -> nat)
    requires NumbersDistinct(b) && Tallies(f, b) && StartsDeliveries(b, after, ds)
    ensures NumbersDistinct(after) && Tallies(f, after)
  {
  }

  lemma DropTallies(b: Bus, after: Bus, i: nat, f: nat -> nat)
    requires NumbersDistinct(b) && Tallies(f, b) && i < |b.inFlight|
    requires after.inFlight == Without(b.inFlight, i) && after.buried == b.buried && after.started == b.started
    ensures NumbersDistinct(after) && Tallies(f, after)
  {
  }

  lemma RetryTallies(b: Bus, after: Bus, i: nat, d: Delivery, f: nat -> nat, g: nat -> nat)
    requires NumbersDistinct(b) && Tallies(f, b) && i < |b.inFlight|
    requires d.number == b.inFlight[i].number && d.attempt == b.inFlight[i].attempt + 1
    requires after.inFlight == b.inFlight[i := d] && after.buried == b.buried && after.started == b.started
    requires forall n: nat :: g(n) == f(n) + if n == d.number then 1 else 0
    ensures NumbersDistinct(after) && Tallies(g, after)
  {
  }

  lemma BurialTallies(b: Bus, after: Bus, i: nat, burial: Burial, f: nat -> nat, g: nat -> nat)
    requires NumbersDistinct(b) && Tallies(f, b) && i < |b.inFlight|
    requires burial.number == b.inFlight[i].number && burial.failures == b.inFlight[i].attempt
    requires after.inFlight == Without(b.inFlight, i) && after.buried == b.buried + [burial] && after.started == b.started
    requires forall n: nat :: g(n) == f(n) + if n == burial.number then 1 else 0
    ensures NumbersDistinct(after) && Tallies(g, after)
  {
  }

  /** One more failure is one more attempt, or a burial with that many failures. */
  lemma FailTallies(b: Bus, i: nat, f: nat -> nat, g: nat -> nat)
    requires NumbersDistinct(b) && Tallies(f, b) && i < |b.inFlight|
    requires b.inFlight[i].attempt >= 1 && forall n: nat :: g(n) == f(n) + if n == b.inFlight[i].number then 1 else 0
    ensures NumbersDistinct(Failed(b, i)) && Tallies(g, Failed(b, i))
  {
    hide Trim, Delay, NumbersDistinct, Tallies, Without;
    var next := Retry(b.config, b.inFlight[i]);
    if next.Some? {
      RetryTallies(b, Failed(b, i), i, next.value, f, g);
    } else {
      BurialTallies(b, Failed(b, i), i, Failed(b, i).buried[|b.buried|], f, g);
    }
  }

  function FailTally(states: seq<Bus>, steps: seq<Step>, k: nat): nat -> nat
    requires k <= |steps| && k <= |states|
  {
    (n: nat) => FailCount(states, steps, k, n)
  }

  lemma PublishStarts(b: Bus, event: Event)
    ensures exists ds :: StartsDeliveries(b, Published(b, event), ds)
  {
    hide HandlersOf, Trim;
    if event.id in b.seen {
      assert b.inFlight + [] == b.inFlight;
      assert StartsDeliveries(b, Published(b, event), []);
    } else {
      assert StartsDeliveries(b, Published(b, event), StartAll(b.started, event, HandlersOf(b, event)));
    }
  }

  /** In every run, the failures recorded of a buried delivery are exactly the steps that failed an attempt of it. */
  lemma {:induction false} FailuresAreCounted(states: seq<Bus>, steps: seq<Step>, k: nat)
    requires IsRun(states, steps) && states[0] == Fresh(states[0].config) && k < |states|
    ensures NumbersDistinct(states[k]) && Tallies(FailTally(states, steps, k), states[k])
  {
    if k > 0 {
      var b, step := states[k - 1], steps[k - 1];
      FailuresAreCounted(states, steps, k - 1);
      var f, g := FailTally(states, steps, k - 1), FailTally(states, steps, k);
      forall n: nat ensures g(n) == f(n) + if Fails(b, step, n) then 1 else 0 {
      }
      hide NumbersDistinct, Tallies, FailCount, FailTally, Fails, After;
      TallyStep(b, step, f, g);
    }
  }

  /** The step fails an attempt of this delivery. */
  predicate Fails(b: Bus, step: Step, number: nat) {
    step.Fail? && step.delivery < |b.inFlight| && b.inFlight[step.delivery].number == number
  }

  lemma TallyStep(b: Bus, step: Step, f: nat -> nat, g: nat -> nat)
    requires NumbersDistinct(b) && Tallies(f, b) && Enabled(b, step)
    requires forall n: nat :: g(n) == f(n) + if Fails(b, step, n) then 1 else 0
    ensures NumbersDistinct(After(b, step)) && Tallies(g, After(b, step))
  {
    hide NumbersDistinct, Tallies, Published, Failed, Replayed, Subscribed, Succeeded;
    match step
    case Subscribe(kind, subscription) =>
      SubscribeKeepsDeliveries(b, kind, subscription);
      SameTallies(b, After(b, step), f, g);
    case Publish(event) => PublishTallies(b, event, f, g);
    case Succeed(i) =>
      SucceedDrops(b, i);
      SameFunction(f, g, After(b, step));
      DropTallies(b, After(b, step), i, f);
    case Fail(i) => FailTallies(b, i, f, g);
    case ReplayLetter(id, minted) => ReplayTallies(b, id, minted, f, g);
  }

  lemma SubscribeKeepsDeliveries(b: Bus, kind: Topic, subscription: Subscription)
    ensures SameDeliveries(b, Subscribed(b, kind, subscription))
  {
  }

  lemma SucceedDrops(b: Bus, i: nat)
    requires i < |b.inFlight|
    ensures var after := Succeeded(b, i);
      after.inFlight == Without(b.inFlight, i) && after.buried == b.buried && after.started == b.started
  {
  }

  lemma SameFunction(f: nat -> nat, g: nat -> nat, b: Bus)
    requires forall n: nat :: g(n) == f(n)
    ensures Tallies(f, b) <==> Tallies(g, b)
  {
  }

  lemma SameTallies(b: Bus, after: Bus, f: nat -> nat, g: nat -> nat)
    requires NumbersDistinct(b) && Tallies(f, b) && SameDeliveries(b, after) && forall n: nat :: g(n) == f(n)
    ensures NumbersDistinct(after) && Tallies(g, after)
  {
  }

  lemma PublishTallies(b: Bus, event: Event, f: nat -> nat, g: nat -> nat)
    requires NumbersDistinct(b) && Tallies(f, b) && forall n: nat :: g(n) == f(n)
    ensures NumbersDistinct(Published(b, event)) && Tallies(g, Published(b, event))
  {
    PublishStarts(b, event);
    var ds :| StartsDeliveries(b, Published(b, event), ds);
    SameFunction(f, g, b);
    StartTallies(b, Published(b, event), ds, g);
  }

  lemma ReplayTallies(b: Bus, id: Id, minted: Id, f: nat -> nat, g: nat -> nat)
    requires NumbersDistinct(b) && Tallies(f, b) && forall n: nat :: g(n) == f(n)
    ensures NumbersDistinct(Replayed(b, id, minted)) && Tallies(g, Replayed(b, id, minted))
  {
    hide Published;
    var k := FindLetter(b.deadLetters, id);
    if k.Some? {
      var shorter := b.(deadLetters := Without(b.deadLetters, k.value));
      SameTallies(b, shorter, f, f);
      PublishTallies(shorter, b.deadLetters[k.value].event.(id := minted), f, g);
    } else {
      SameTallies(b, b, f, g);
    }
  }

  // ----- who gets a delivery -----

  /**
    The new deliveries carry the event, one for each subscription that wants every version or the event's own, in
    subscription order: route[i] is the subscription that delivery i serves.
   */
  ghost predicate Routes(subs: seq<Subscription>, event: Event, ds: seq<Delivery>, route: seq<nat>) {
    && |route| == |ds|
    && (forall i :: 0 <= i < |ds| ==>
      route[i] < |subs| && ds[i].event == event && ds[i].handler == subs[route[i]].handler
      && ds[i].attempt == 1 && ds[i].slept == 0.0)
    && (forall i, j :: 0 <= i < j < |route| ==> route[i] < route[j])
    && forall k: nat :: k < |subs| ==> (k in route <==> subs[k].version.None? || subs[k].version == Some(event.version))
  }

  /** Every acceptance delivers to exactly the subscriptions that want the event, and a duplicate to none. */
  ghost predicate DeliversToSubscribers(before: Bus, after: Bus, event: Event) {
    var subs := if event.kind in before.subscribers then before.subscribers[event.kind] else [];
    && after.subscribers == before.subscribers && before.inFlight <= after.inFlight
    && if event.id in before.seen then after.inFlight == before.inFlight
       else exists route :: Routes(subs, event, after.inFlight[|before.inFlight|..], route)
  }

  lemma {:induction false} MatchingRoutes(subs: seq<Subscription>, number: nat, event: Event) returns (route: seq<nat>)
    ensures Routes(subs, event, StartAll(number, event, Matching(subs, event.version)), route)
  {
    if subs == [] {
      return [];
    }
    var n := |subs| - 1;
    route := MatchingRoutes(subs[..n], number, event);
    var ds := StartAll(number, event, Matching(subs[..n], event.version));
    if subs[n].version.None? || subs[n].version == Some(event.version) {
      assert StartAll(number, event, Matching(subs, event.version)) == ds + [Start(number + |ds|, event, subs[n].handler)];
      route := route + [n];
    }
  }

  lemma PublishDelivers(b: Bus, event: Event)
    ensures DeliversToSubscribers(b, Published(b, event), event)
  {
    if event.id !in b.seen {
      var subs := if event.kind in b.subscribers then b.subscribers[event.kind] else [];
      var route := MatchingRoutes(subs, b.started, event);
      hide Matching, Trim, Routes, StartAll;
      var ds := StartAll(b.started, event, HandlersOf(b, event));
      assert Published(b, event).inFlight == b.inFlight + ds;
      assert (b.inFlight + ds)[|b.inFlight|..] == ds;
    }
  }

  /** The subscriptions the steps made for a topic, in order. */
  function SubscriptionsMade(steps: seq<Step>, kind: Topic): seq<Subscription> {
    if steps == [] then []
    else
      var step := steps[|steps| - 1];
      SubscriptionsMade(steps[..|steps| - 1], kind)
      + if step.Subscribe? && step.kind == kind then [step.subscription] else []
  }

  /** In every run each topic's subscribers are exactly those its Subscribe steps named. */
  lemma {:induction false} SubscribersAreStepsMade(states: seq<Bus>, steps: seq<Step>, k: nat, kind: Topic)
    requires IsRun(states, steps) && states[0] == Fresh(states[0].config) && k < |states|
    ensures (if kind in states[k].subscribers then states[k].subscribers[kind] else []) == SubscriptionsMade(steps[..k], kind)
  {
    if k > 0 {
      SubscribersAreStepsMade(states, steps, k - 1, kind);
      assert steps[..k][..k - 1] == steps[..k - 1];
      hide After, Enabled;
      SubscribersStep(states[k - 1], steps[k - 1], kind);
    }
  }

  lemma SubscribersStep(b: Bus, step: Step, kind: Topic)
    requires Enabled(b, step)
    ensures var after := After(b, step).subscribers;
      (if kind in after then after[kind] else [])
      == (if kind in b.subscribers then b.subscribers[kind] else [])
         + if step.Subscribe? && step.kind == kind then [step.subscription] else []
  {
    hide HandlersOf, Trim, StartAll, Retry, FindLetter, Without;
  }

  // ----- where the dead letters are -----

  /** What one more failure of delivery i does, retry by retry: a longer sleep, or the letter joins the newest of the queue. */
  ghost predicate FailsOnce(before: Bus, after: Bus, i: nat) {
    && i < |before.inFlight| && before.inFlight[i].attempt >= 1
    && var d := before.inFlight[i];
      if d.attempt <= before.config.maxRetries then
        && after.inFlight
           == before.inFlight[i := d.(attempt := d.attempt + 1, slept := d.slept + Delay(before.config, d.attempt))]
        && after.deadLetters == before.deadLetters
      else
        && after.inFlight == before.inFlight[..i] + before.inFlight[i + 1..]
        && KeepsNewest(before.deadLetters, after.deadLetters, DeadLetter(d.event, d.handler, before.config.maxRetries + 1),
                       before.config.deadLetterCapacity)
  }

  /** The letter is last in the queue, which drops its oldest if it was full. */
  predicate KeepsNewest(before: seq<DeadLetter>, after: seq<DeadLetter>, letter: DeadLetter, capacity: nat) {
    after == if capacity == 0 then [] else (if |before| < capacity then before else before[1..]) + [letter]
  }

  lemma FailUnfolds(b: Bus, i: nat)
    requires i < |b.inFlight| && b.inFlight[i].attempt >= 1
    ensures var d := b.inFlight[i]; var letter := DeadLetter(d.event, d.handler, b.config.maxRetries + 1);
      Enabled(b, Fail(i)) && After(b, Fail(i)) == Failed(b, i)
      && Failed(b, i)
         == if d.attempt <= b.config.maxRetries then
              b.(inFlight := b.inFlight[i := d.(attempt := d.attempt + 1, slept := d.slept + Delay(b.config, d.attempt))])
            else
              b.(inFlight := Without(b.inFlight, i),
                 deadLetters := Trim(b.deadLetters + [letter], b.config.deadLetterCapacity),
                 buried := b.buried + [Burial(d.number, letter, d.attempt, d.slept)])
  {
    hide Delay, Without, Trim;
  }

  lemma FailedOnce(b: Bus, i: nat)
    requires HoldsBuried(b) && i < |b.inFlight| && b.inFlight[i].attempt >= 1
    ensures FailsOnce(b, Failed(b, i), i)
  {
  }

  /** The step finds a letter of the id it replays. */
  predicate Replays(b: Bus, step: Step) {
    step.ReplayLetter? && exists k :: 0 <= k < |b.deadLetters| && b.deadLetters[k].event.id == step.id
  }

  /** The step gives a delivery up while the queue is full. */
  predicate Overflows(b: Bus, step: Step) {
    && step.Fail? && step.delivery < |b.inFlight| && b.inFlight[step.delivery].attempt > b.config.maxRetries
    && |b.deadLetters| == b.config.deadLetterCapacity
  }

  function ReplayCount(states: seq<Bus>, steps: seq<Step>, k: nat): nat
    requires k <= |steps| && k <= |states|
  {
    if k == 0 then 0 else ReplayCount(states, steps, k - 1) + if Replays(states[k - 1], steps[k - 1]) then 1 else 0
  }

  function OverflowCount(states: seq<Bus>, steps: seq<Step>, k: nat): nat
    requires k <= |steps| && k <= |states|
  {
    if k == 0 then 0 else OverflowCount(states, steps, k - 1) + if Overflows(states[k - 1], steps[k - 1]) then 1 else 0
  }

  lemma PublishKeepsLetters(b: Bus, event: Event)
    ensures Published(b, event).deadLetters == b.deadLetters && Published(b, event).buried == b.buried
  {
    hide HandlersOf, StartAll, Trim;
  }

  lemma FailMovesLetters(b: Bus, i: nat)
    requires HoldsBuried(b) && i < |b.inFlight| && b.inFlight[i].attempt >= 1
    ensures |Failed(b, i).buried| - |Failed(b, i).deadLetters|
      == |b.buried| - |b.deadLetters| + if Overflows(b, Fail(i)) then 1 else 0
  {
    hide WasBuried, Delay;
  }

  lemma ReplayMovesLetters(b: Bus, id: Id, minted: Id)
    ensures |Replayed(b, id, minted).buried| - |Replayed(b, id, minted).deadLetters|
      == |b.buried| - |b.deadLetters| + if Replays(b, ReplayLetter(id, minted)) then 1 else 0
  {
    hide Published;
    var k := FindLetter(b.deadLetters, id);
    if k.Some? {
      var taken := b.(deadLetters := Without(b.deadLetters, k.value));
      PublishKeepsLetters(taken, b.deadLetters[k.value].event.(id := minted));
    }
  }

  lemma LettersStep(b: Bus, step: Step)
    requires HoldsBuried(b) && Enabled(b, step)
    ensures |After(b, step).buried| - |After(b, step).deadLetters|
      == |b.buried| - |b.deadLetters| + (if Replays(b, step) then 1 else 0) + (if Overflows(b, step) then 1 else 0)
  {
    hide HoldsBuried, Published, Failed, Replayed;
    match step
    case Publish(event) => PublishKeepsLetters(b, event);
    case Fail(i) => FailMovesLetters(b, i);
    case ReplayLetter(id, minted) => ReplayMovesLetters(b, id, minted);
    case _ =>
  }

  /** In every run each letter ever buried is in the queue, was replayed, or was pushed out of the full queue. */
  lemma {:induction false} LettersAreConserved(states: seq<Bus>, steps: seq<Step>, k: nat)
    requires IsRun(states, steps) && states[0] == Fresh(states[0].config) && k < |states|
    ensures |states[k].buried| == |states[k].deadLetters| + ReplayCount(states, steps, k) + OverflowCount(states, steps, k)
  {
    if k > 0 {
      LettersAreConserved(states, steps, k - 1);
      EveryInterleavingKeeps(states, steps, k - 1);
      hide After, Enabled, RemembersWindow, ConservesDeliveries, HoldsBuried, Replays, Overflows;
      LettersStep(states[k - 1], steps[k - 1]);
    }
  }

  /** How many of the first k steps publish an event, replays of letters included. */
  function PublishCount(states: seq<Bus>, steps: seq<Step>, k: nat): nat
    requires k <= |steps| && k <= |states|
  {
    if k == 0 then 0
    else PublishCount(states, steps, k - 1) + if steps[k - 1].Publish? || Replays(states[k - 1], steps[k - 1]) then 1 else 0
  }

  function SuccessCount(steps: seq<Step>): nat {
    if steps == [] then 0 else SuccessCount(steps[..|steps| - 1]) + if steps[|steps| - 1].Succeed? then 1 else 0
  }

  lemma CountersStep(b: Bus, step: Step)
    requires Enabled(b, step)
    ensures var after := After(b, step);
      && after.published + after.duplicates
         == b.published + b.duplicates + (if step.Publish? || Replays(b, step) then 1 else 0)
      && after.delivered == b.delivered + (if step.Succeed? then 1 else 0)
  {
    hide HandlersOf, StartAll, Trim, Retry, Without;
  }

  /** In every run the counters say how often something was published, a duplicate or not, and how often delivered. */
  lemma {:induction false} CountersCount(states: seq<Bus>, steps: seq<Step>, k: nat)
    requires IsRun(states, steps) && states[0] == Fresh(states[0].config) && k < |states|
    ensures states[k].published + states[k].duplicates == PublishCount(states, steps, k)
    ensures states[k].delivered == SuccessCount(steps[..k])
  {
    if k > 0 {
      CountersCount(states, steps, k - 1);
      assert steps[..k][..k - 1] == steps[..k - 1];
      hide After, Enabled, Replays;
      CountersStep(states[k - 1], steps[k - 1]);
    }
  }

  /** Replaying takes the first letter of the id out of the queue and publishes its event anew under the minted id. */
  ghost predicate ReplaysLetter(before: Bus, after: Bus, id: Id, minted: Id) {
    if forall k :: 0 <= k < |before.deadLetters| ==> before.deadLetters[k].event.id != id then after == before
    else exists k: nat :: ReplaysAt(before, after, k, id, minted)
  }

  ghost predicate ReplaysAt(before: Bus, after: Bus, k: nat, id: Id, minted: Id) {
    && k < |before.deadLetters| && before.deadLetters[k].event.id == id
    && (forall j :: 0 <= j < k ==> before.deadLetters[j].event.id != id)
    && after.deadLetters == before.deadLetters[..k] + before.deadLetters[k + 1..]
    && DeliversToSubscribers(before, after, before.deadLetters[k].event.(id := minted))
  }

  lemma ReplayUnfolds(b: Bus, id: Id, minted: Id)
    ensures var k := FindLetter(b.deadLetters, id);
      After(b, ReplayLetter(id, minted))
      == if k.None? then b
         else After(b.(deadLetters := Without(b.deadLetters, k.value)), Publish(b.deadLetters[k.value].event.(id := minted)))
    ensures After(b, ReplayLetter(id, minted)) == Replayed(b, id, minted)
    ensures FindLetter(b.deadLetters, id).Some? <==> exists k :: 0 <= k < |b.deadLetters| && b.deadLetters[k].event.id == id
  {
    hide Published, FindLetter;
  }

  lemma ReplayedOnce(b: Bus, id: Id, minted: Id)
    ensures ReplaysLetter(b, Replayed(b, id, minted), id, minted)
  {
    var k := FindLetter(b.deadLetters, id);
    if k.Some? {
      var taken := b.(deadLetters := Without(b.deadLetters, k.value));
      PublishDelivers(taken, b.deadLetters[k.value].event.(id := minted));
      PublishKeepsLetters(taken, b.deadLetters[k.value].event.(id := minted));
      hide FindLetter, HandlersOf, Trim, StartAll, Published, Routes;
      assert ReplaysAt(b, Replayed(b, id, minted), k.value, id, minted);
    }
  }

  /** Some accepted id among the last `window` ones is this id. */
  predicate IsRecent(accepted: seq<Id>, window: nat, id: Id) {
    exists k :: 0 <= k < |accepted| && |accepted| - window <= k && accepted[k] == id
  }

  /** A publication is accepted exactly when its id is not among the last `window` accepted ids; accepted
      or not, it is counted, and acceptance starts one delivery per matching handler. */
  lemma AcceptedIffNotRecent(b: Bus, event: Event)
    requires Inv(b)
    ensures var after := Published(b, event);
      var recent := IsRecent(b.accepted, b.config.idempotencyWindow, event.id);
      && (!recent <==> after.accepted == b.accepted + [event.id])
      && (recent <==> after == b.(duplicates := b.duplicates + 1))
      && after.published + after.duplicates == b.published + b.duplicates + 1
      && after.started == b.started + if recent then 0 else |HandlersOf(b, event)|
  {
    var w := b.config.idempotencyWindow;
    var offset := if |b.accepted| <= w then 0 else |b.accepted| - w;
    if event.id in b.seen {
      var i :| 0 <= i < |b.seen| && b.seen[i] == event.id;
      assert b.accepted[offset + i] == event.id;
    }
    if IsRecent(b.accepted, w, event.id) {
      var k :| 0 <= k < |b.accepted| && |b.accepted| - w <= k && b.accepted[k] == event.id;
      assert b.seen[k - offset] == event.id;
    }
  }

  // ----- one delivery on its own -----

  datatype Outcome = Delivered(attempts: nat, slept: real) | Buried(attempts: nat, slept: real)

  /** The retry loop: the first success delivers; with none, every attempt has failed. */
  method Deliver(c: Config, event: Event, handler: Handler, succeeds: nat -> bool) returns (outcome: Outcome)
    ensures outcome.Delivered? <==> exists a: nat :: 1 <= a <= c.maxRetries + 1 && succeeds(a)
    ensures outcome.Delivered? ==>
      && succeeds(outcome.attempts) && (forall a: nat :: 1 <= a < outcome.attempts ==> !succeeds(a))
      && 1 <= outcome.attempts && outcome.slept == c.baseBackoff * (Pow2(outcome.attempts - 1) - 1) as real
    ensures outcome.Buried? ==>
      outcome.attempts == c.maxRetries + 1 && outcome.slept == c.baseBackoff * (Pow2(c.maxRetries) - 1) as real
  {
    StartIsPending(c, event);
    var slept := 0.0;
    for attempt := 1 to c.maxRetries + 2
      invariant forall a: nat :: 1 <= a < attempt ==> !succeeds(a)
      invariant attempt <= c.maxRetries + 1 ==> IsPending(c, Delivery(0, event, handler, attempt, slept))
      invariant attempt == c.maxRetries + 2 ==> slept == c.baseBackoff * (Pow2(c.maxRetries) - 1) as real
    {
      if succeeds(attempt) {
        return Delivered(attempt, slept);
      }
      RetryKeepsPending(c, Delivery(0, event, handler, attempt, slept));
      if attempt <= c.maxRetries {
        slept := slept + Delay(c, attempt);
      }
    }
    return Buried(c.maxRetries + 1, slept);
  }

  // ----- the object -----

  class EventBus {
    const config: Config
    var subscribers: map<Topic, seq<Subscription>>
    var seen: seq<Id>
    var deadLetters: seq<DeadLetter>
    var publishedCount: nat
    var deliveredCount: nat
    var duplicateCount: nat
    /** The deliveries awaiting their handler or their next attempt. */
    var inFlight: seq<Delivery>
    /** Numbers the deliveries, which are otherwise told apart by their tasks alone. */
    var started: nat
    ghost var accepted: seq<Id>
    ghost var buried: seq<Burial>

    ghost function State(): Bus
      reads this
    {
      Bus(config, subscribers, seen, deadLetters, inFlight, publishedCount, deliveredCount, duplicateCount,
          accepted, started, buried)
    }

    constructor (config: Config)
      ensures State() == Fresh(config) && Inv(State())
    {
      this.config := config;
      subscribers, seen, deadLetters, inFlight := map[], [], [], [];
      publishedCount, deliveredCount, duplicateCount := 0, 0, 0;
      accepted, started, buried := [], 0, [];
    }

    method SubscribeTo(kind: Topic, handler: Handler, version: Option<int>)
      requires Inv(State())
      modifies this`subscribers
      ensures State() == After(old(State()), Subscribe(kind, Subscription(handler, version))) && Inv(State())
    {
      StepKeeps(State(), Subscribe(kind, Subscription(handler, version)));
      hide Inv;
      if kind !in subscribers {
        subscribers := subscribers[kind := []];
      }
      subscribers := subscribers[kind := subscribers[kind] + [Subscription(handler, version)]];
    }

    method IsDuplicate(event: Event) returns (duplicate: bool)
      modifies this`seen
      ensures duplicate <==> event.id in old(seen)
      ensures seen == if duplicate then old(seen) else Trim(old(seen) + [event.id], config.idempotencyWindow)
    {
      if event.id in seen {
        return true;
      }
      seen := seen + [event.id];
      while |seen| > config.idempotencyWindow
        invariant Suffix(seen, config.idempotencyWindow) == Suffix(old(seen) + [event.id], config.idempotencyWindow)
        decreases |seen|
      {
        seen := seen[1..];
      }
      return false;
    }

    /** The part of publish before its first await. */
    method PublishEvent(event: Event)
      requires Inv(State())
      modifies this
      ensures State() == After(old(State()), Publish(event)) && Inv(State())
      ensures DeliversToSubscribers(old(State()), State(), event)
    {
      ghost var b := State();
      PublishKeeps(b, event);
      PublishDelivers(b, event);
      ghost var matching := HandlersOf(b, event);
      assert matching == Matching(if event.kind in subscribers then subscribers[event.kind] else [], event.version);
      hide Inv, Trim, Suffix, Matching, HandlersOf, StartAll, Published, DeliversToSubscribers;
      var duplicate := IsDuplicate(event);
      if duplicate {
        duplicateCount := duplicateCount + 1;
        PublishedIgnores(b, event);
        return;
      }
      publishedCount := publishedCount + 1;
      var handlers := Matching(if event.kind in subscribers then subscribers[event.kind] else [], event.version);
      inFlight := inFlight + StartAll(started, event, handlers);
      accepted := accepted + [event.id];
      started := started + |handlers|;
    }

    /** A handler returned. */
    method OnSuccess(i: nat)
      requires Inv(State()) && i < |inFlight|
      modifies this
      ensures State() == After(old(State()), Succeed(i)) && Inv(State())
    {
      SucceedKeeps(State(), i);
      hide Inv;
      inFlight := Without(inFlight, i);
      deliveredCount := deliveredCount + 1;
    }

    /** A handler raised: sleep and retry, or move the event to the dead-letter queue. */
    method OnFailure(i: nat)
      requires Inv(State()) && i < |inFlight|
      modifies this
      ensures Enabled(old(State()), Fail(i))
      ensures State() == After(old(State()), Fail(i)) && Inv(State())
      ensures FailsOnce(old(State()), State(), i)
    {
      ghost var b := State();
      FailKeeps(b, i);
      FailedOnce(b, i);
      FailUnfolds(b, i);
      hide *;
      var d := inFlight[i];
      if d.attempt <= config.maxRetries {
        inFlight := inFlight[i := d.(attempt := d.attempt + 1, slept := d.slept + Delay(config, d.attempt))];
        assert State() == b.(inFlight := inFlight);
      } else {
        var letter := DeadLetter(d.event, d.handler, config.maxRetries + 1);
        inFlight := Without(inFlight, i);
        deadLetters := Trim(deadLetters + [letter], config.deadLetterCapacity);
        buried := buried + [Burial(d.number, letter, d.attempt, d.slept)];
        assert State() == b.(inFlight := inFlight, deadLetters := deadLetters, buried := buried);
      }
      assert State() == Failed(b, i);
    }

    method ReplayDeadLetter(id: Id, minted: Id) returns (found: bool)
      requires Inv(State())
      modifies this
      ensures found <==> exists k :: 0 <= k < |old(deadLetters)| && old(deadLetters)[k].event.id == id
      ensures State() == After(old(State()), ReplayLetter(id, minted)) && Inv(State())
      ensures ReplaysLetter(old(State()), State(), id, minted)
    {
      ghost var b := State();
      ReplayKeeps(b, id, minted);
      ReplayedOnce(b, id, minted);
      ReplayUnfolds(b, id, minted);
      hide *;
      var k := FindLetter(deadLetters, id);
      if k.None? {
        return false;
      }
      var original := deadLetters[k.value].event;
      TakingKeeps(b, k.value);
      deadLetters := Without(deadLetters, k.value);
      assert State() == b.(deadLetters := Without(b.deadLetters, k.value));
      PublishEvent(original.(id := minted));
      return true;
    }
  }
}
