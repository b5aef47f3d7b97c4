/** The wired services on one database: whatever is called and whatever fails, they carry out a run of the protocol. */
module Application {
  import opened Wrappers
  import opened Domain
  import opened Tables
  import opened Protocol
  import opened Invariants
  import opened Refinement
  import opened Simulation
  import opened SlotLock
  import opened Replay
  import opened Atomicity
  import opened Repositories
  import opened Services

  // What is asked of the application, by a user, by the expiry worker or by the slot generator.
  datatype Request =
    | Book(user: User, slotID: SlotId, now: Time)
    | CancelBook(user: User, id: nat, now: Time, dbNow: Time)
    | JoinQueue(user: User, slotID: SlotId, now: Time, createdAt: Time)
    | LeaveQueue(user: User, id: nat)
    | Confirm(user: User, id: nat, now: Time)
    | Decline(user: User, id: nat, now: Time, dbNow: Time)
    | Expire(configured: int, now: Time, dbNow: Time)
    | StoreSlots(added: map<SlotId, Slot>)

  // The operation a request stands for, given the answer of the expiry query.
  function OpFor(request: Request, answer: seq<nat>): Op {
    match request
    case Book(user, s, now) => OpCreateBooking(user, s, now)
    case CancelBook(user, id, now, dbNow) => OpCancelBooking(user, id, now, dbNow)
    case JoinQueue(user, s, now, createdAt) => OpJoinWaitlist(user, s, now, createdAt)
    case LeaveQueue(user, id) => OpLeaveWaitlist(user, id)
    case Confirm(user, id, now) => OpConfirmReservation(user, id, now)
    case Decline(user, id, now, dbNow) => OpCancelReservation(user, id, now, dbNow)
    case Expire(configured, now, dbNow) => OpExpireDue(answer, now, dbNow, BatchLimit(configured))
    case StoreSlots(added) => OpAddSlots(added)
  }

  // A call that keeps its service's promise was the operation, or - after a fault - nothing but used-up positions.
  lemma RealisedIsStep<T>(
    o: Outcome<T>, r: Result<T, ErrorCode>, before: Db, after: Db, log: seq<Event>, logAfter: seq<Event>, faulty: bool,
    asked: Op, ttl: Time) returns (op: Op)
    requires Realises(o, r, before, after, log, logAfter, faulty)
    requires Possible(before, asked) && o.db == Apply(before, asked, ttl) && o.events == Published(before, asked, ttl)
    requires ErrorOf(o.result) == Refusal(before, asked, ttl)
    ensures Possible(before, op) && after == Apply(before, op, ttl) && logAfter == log + Published(before, op, ttl)
    ensures ErrorOf(r) == Refusal(before, op, ttl)
    ensures op == asked || (op.OpAbort? && faulty)
  {
    if r == o.result && after == o.db && logAfter == log + o.events {
      op := asked;
    } else {
      op := AbortOf(before, after, ttl);
      assert logAfter == log + [];
    }
  }

  lemma AbortOf(before: Db, after: Db, ttl: Time) returns (op: Op)
    requires RolledBack(before, after)
    ensures op.OpAbort? && Possible(before, op) && after == Apply(before, op, ttl)
    ensures Published(before, op, ttl) == [] && Refusal(before, op, ttl) == Some(InternalError)
  {
    op := OpAbort(after.nextPosition - before.nextPosition);
  }

  // The answers of the expiry query, whatever the database chooses: they may differ from call to call.
  type Query = (nat, seq<SlotReservation>, Time, nat) -> seq<nat>

  ghost predicate Answers(query: Query) {
    forall k: nat, rows: seq<SlotReservation>, now: Time, limit: nat ::
      ExpiryAnswer(rows, now, limit, query(k, rows, now, limit))
  }

  function AnswerTo(query: Query, k: nat, rows: seq<SlotReservation>, request: Request): seq<nat> {
    if request.Expire? then query(k, rows, request.now, BatchLimit(request.configured)) else []
  }

  // There is always an answer: while there is room, add a due row with the earliest deadline.
  lemma {:induction false} AnswerExists(rows: seq<SlotReservation>, now: Time, limit: nat) returns (picked: seq<nat>)
    ensures ExpiryAnswer(rows, now, limit, picked)
  {
    if limit == 0 {
      picked := [];
    } else {
      picked := AnswerExists(rows, now, limit - 1);
      var next := EarliestLeft(rows, now, picked, |rows|);
      if next.Some? {
        OneMorePicked(rows, now, limit - 1, picked, next.value);
        picked := picked + [next.value];
      } else {
        assert forall i: nat :: !LeftOut(rows, now, picked, i);
      }
    }
  }

  lemma OneMorePicked(rows: seq<SlotReservation>, now: Time, limit: nat, picked: seq<nat>, next: nat)
    requires ExpiryAnswer(rows, now, limit, picked) && LeftOut(rows, now, picked, next)
    requires forall i: nat | LeftOut(rows, now, picked, i) :: rows[next].expiresAt <= rows[i].expiresAt
    ensures ExpiryAnswer(rows, now, limit + 1, picked + [next])
  {
    var more := picked + [next];
    forall i: nat | LeftOut(rows, now, more, i) ensures LeftOut(rows, now, picked, i) && |picked| == limit {
      assert i !in picked;
    }
    assert forall k | 0 <= k < |picked| :: more[k] == picked[k];
  }

  // Among the first n rows, a due one that is not picked yet, with the earliest deadline.
  lemma {:induction false} EarliestLeft(rows: seq<SlotReservation>, now: Time, picked: seq<nat>, n: nat)
    returns (next: Option<nat>)
    requires n <= |rows|
    ensures next.None? ==> forall i | 0 <= i < n && Due(rows[i], now) :: i in picked
    ensures next.Some? ==>
      && next.value < n && Due(rows[next.value], now) && next.value !in picked
      && forall i | 0 <= i < n && Due(rows[i], now) && i !in picked :: rows[next.value].expiresAt <= rows[i].expiresAt
  {
    if n == 0 {
      next := None;
    } else {
      next := EarliestLeft(rows, now, picked, n - 1);
      if Due(rows[n - 1], now) && n - 1 !in picked
         && (next.None? || rows[n - 1].expiresAt < rows[next.value].expiresAt) {
        next := Some(n - 1);
      }
    }
  }

  ghost function Pick(rows: seq<SlotReservation>, now: Time, limit: nat): (picked: seq<nat>)
    ensures ExpiryAnswer(rows, now, limit, picked)
  {
    assert exists p :: ExpiryAnswer(rows, now, limit, p) by {
      var p := AnswerExists(rows, now, limit);
    }
    var p :| ExpiryAnswer(rows, now, limit, p);
    p
  }

  lemma SomeQueryAnswers() returns (query: Query)
    ensures Answers(query)
  {
    query := (k, rows, now, limit) => Pick(rows, now, limit);
  }

  // A request was its operation, or - with faults about - a transaction rolled back; the answer and the events are
  // that operation's.
  ghost predicate StepTaken(before: Db, after: Db, events: seq<Event>, refusal: Option<ErrorCode>, op: Op, asked: Op,
                            ttl: Time, wasFaulty: bool)
  {
    && (op == asked || (op.OpAbort? && wasFaulty))
    && Possible(before, op)
    && after == Apply(before, op, ttl)
    && events == Published(before, op, ttl)
    && refusal == Refusal(before, op, ttl)
  }

  // What came of a sequence of requests: the states, whether faults were still to come in each, the operations, their
  // answers and their events.
  datatype Course = Course(run: seq<Db>, faulty: seq<bool>, ops: seq<Op>, refusals: seq<Option<ErrorCode>>,
                           published: seq<seq<Event>>)

  function AskedFor(c: Course, requests: seq<Request>, query: Query, k: nat): Op
    requires k < |requests| && k < |c.run|
  {
    OpFor(requests[k], AnswerTo(query, k, c.run[k].reservations, requests[k]))
  }

  ghost predicate Carries(c: Course, requests: seq<Request>, query: Query, ttl: Time) {
    && |c.run| == |c.faulty| == |requests| + 1 && |c.ops| == |c.refusals| == |c.published| == |requests|
    && forall k | 0 <= k < |requests| :: Went(c, k, AskedFor(c, requests, query, k), ttl)
  }

  // Step k of the course.
  ghost predicate Went(c: Course, k: nat, asked: Op, ttl: Time)
    requires k + 1 < |c.run| && k + 1 < |c.faulty| && k < |c.ops| && k < |c.refusals| && k < |c.published|
  {
    && StepTaken(c.run[k], c.run[k + 1], c.published[k], c.refusals[k], c.ops[k], asked, ttl, c.faulty[k])
    && (c.faulty[k + 1] ==> c.faulty[k])
  }

  // From the point on where no fault is left, every request is exactly the operation asked for.
  lemma {:induction false} AsAskedOnceFaultless(
    c: Course, requests: seq<Request>, query: Query, ttl: Time, k: nat, j: nat)
    requires Carries(c, requests, query, ttl) && k <= j < |requests| && !c.faulty[k]
    ensures !c.faulty[j] && c.ops[j] == AskedFor(c, requests, query, j)
    decreases j - k
  {
    if k < j {
      assert Went(c, k, AskedFor(c, requests, query, k), ttl);
      AsAskedOnceFaultless(c, requests, query, ttl, k + 1, j);
    } else {
      assert Went(c, j, AskedFor(c, requests, query, j), ttl);
    }
  }

  ghost function Extended(c: Course, after: Db, faulty: bool, op: Op, refusal: Option<ErrorCode>, events: seq<Event>)
    : Course
  {
    Course(c.run + [after], c.faulty + [faulty], c.ops + [op], c.refusals + [refusal], c.published + [events])
  }

  lemma CarriesOn(c: Course, requests: seq<Request>, n: nat, query: Query, ttl: Time,
                  after: Db, faulty: bool, op: Op, refusal: Option<ErrorCode>, events: seq<Event>)
    requires n < |requests| && Carries(c, requests[..n], query, ttl)
    requires StepTaken(c.run[n], after, events, refusal, op, AskedFor(c, requests, query, n), ttl, c.faulty[n])
    requires faulty ==> c.faulty[n]
    ensures Carries(Extended(c, after, faulty, op, refusal, events), requests[..n + 1], query, ttl)
    ensures Flat(c.published + [events]) == Flat(c.published) + events
  {
    var d, more := Extended(c, after, faulty, op, refusal, events), requests[..n + 1];
    assert (c.published + [events])[..|c.published|] == c.published;
    forall k | 0 <= k < |more| ensures Went(d, k, AskedFor(d, more, query, k), ttl) {
      if k < n {
        assert AskedFor(d, more, query, k) == AskedFor(c, requests[..n], query, k);
        assert Went(c, k, AskedFor(c, requests[..n], query, k), ttl);
      }
    }
  }

  lemma CarriedIsRun(c: Course, requests: seq<Request>, query: Query, ttl: Time)
    requires Carries(c, requests, query, ttl)
    ensures IsRun(c.run, c.ops, ttl)
    ensures c.published == PublishedEach(c.run, c.ops, ttl)
  {
    forall k | 0 <= k < |c.ops|
      ensures Possible(c.run[k], c.ops[k]) && c.run[k + 1] == Apply(c.run[k], c.ops[k], ttl)
              && c.published[k] == Published(c.run[k], c.ops[k], ttl)
    {
      assert Went(c, k, AskedFor(c, requests, query, k), ttl);
    }
  }

  // Whoever has heard the events of a slot's room, and only those, knows who has the slot.
  ghost predicate Followed(db: Db, log: seq<Event>) {
    forall s | s in db.slots :: Fold(Open, Heard(log, db.slots[s].roomID), s) == OccupancyOf(db, s)
  }

  lemma RunEndsWell(run: seq<Db>, ops: seq<Op>, ttl: Time)
    requires IsRun(run, ops, ttl) && Initial(run[0])
    ensures forall k | 0 <= k <= |ops| :: Inv(run[k])
    ensures forall s :: Sound(LockOf(run[|ops|], s))
    ensures Followed(run[|ops|], PublishedUpTo(run, ops, ttl, |ops|))
  {
    forall k | 0 <= k <= |ops| ensures Inv(run[k]) {
      ReachableInv(run, ops, ttl, k);
    }
    forall s ensures Sound(LockOf(run[|ops|], s)) {
      LockIsSound(run[|ops|], s);
    }
    forall s | s in run[|ops|].slots
      ensures Fold(Open, Heard(PublishedUpTo(run, ops, ttl, |ops|), run[|ops|].slots[s].roomID), s)
              == OccupancyOf(run[|ops|], s)
    {
      RunReplays(run, ops, ttl, s, |ops|);
    }
  }

  class App {
    const store: Store
    const publisher: Publisher
    const bookings: BookingService
    const waitlist: WaitlistService
    const reservations: ReservationService
    const ttl: Time

    constructor (slots: map<SlotId, Slot>, faults: seq<bool>, reservationTTL: Time)
      ensures Wired() && ttl == EffectiveTTL(reservationTTL)
      ensures fresh(store) && fresh(publisher)
      ensures Initial(store.View()) && store.slots == slots && store.faults == faults && publisher.log == []
    {
      var db := new Store(slots, faults);
      var events := new Publisher();
      store, publisher := db, events;
      bookings := new BookingService(db, events, reservationTTL);
      waitlist := new WaitlistService(db);
      reservations := new ReservationService(db, events, reservationTTL);
      ttl := EffectiveTTL(reservationTTL);
    }

    // All services work on one database, with one publisher and one time to live.
    predicate Wired() {
      && bookings.store == store && bookings.publisher == publisher && bookings.ttl == ttl
      && waitlist.store == store
      && reservations.store == store && reservations.publisher == publisher && reservations.ttl == ttl
    }

    // What serving a request has done: one operation of the protocol on the tables and the log.
    ghost predicate Did(before: Db, log: seq<Event>, wasFaulty: bool, asked: Op, refusal: Option<ErrorCode>, op: Op)
      reads store, publisher
    {
      && (op == asked || (op.OpAbort? && wasFaulty))
      && Possible(before, op)
      && store.View() == Apply(before, op, ttl)
      && publisher.log == log + Published(before, op, ttl)
      && refusal == Refusal(before, op, ttl)
      && (store.Faulty() ==> wasFaulty)
    }

    method ServeBooking(request: Request) returns (refusal: Option<ErrorCode>, ghost op: Op)
      requires Wired() && (request.Book? || request.CancelBook?)
      modifies store, publisher
      ensures Did(old(store.View()), old(publisher.log), old(store.Faulty()), OpFor(request, []), refusal, op)
    {
      ghost var before, log, faulty := store.View(), publisher.log, store.Faulty();
      match request
      case Book(user, s, now) =>
        var r := bookings.CreateBooking(user, s, now);
        op := RealisedIsStep(CreateBooking(before, user, s, now), r, before, store.View(), log, publisher.log, faulty,
                             OpFor(request, []), ttl);
        refusal := ErrorOf(r);
      case CancelBook(user, id, now, dbNow) =>
        var r := bookings.CancelBooking(user, id, now, dbNow);
        op := RealisedIsStep(CancelBooking(before, user, id, now, dbNow, ttl), r, before, store.View(),
                             log, publisher.log, faulty, OpFor(request, []), ttl);
        refusal := ErrorOf(r);
    }

    method ServeWaitlist(request: Request) returns (refusal: Option<ErrorCode>, ghost op: Op)
      requires Wired() && (request.JoinQueue? || request.LeaveQueue?)
      modifies store
      ensures Did(old(store.View()), publisher.log, old(store.Faulty()), OpFor(request, []), refusal, op)
    {
      ghost var before, log, faulty := store.View(), publisher.log, store.Faulty();
      match request
      case JoinQueue(user, s, now, createdAt) =>
        var r := waitlist.JoinWaitlist(user, s, now, createdAt);
        op := RealisedIsStep(JoinWaitlist(before, user, s, now, createdAt), r, before, store.View(), log, log, faulty,
                             OpFor(request, []), ttl);
        refusal := ErrorOf(r);
      case LeaveQueue(user, id) =>
        var r := waitlist.LeaveWaitlist(user, id);
        op := RealisedIsStep(LeaveWaitlist(before, user, id), r, before, store.View(), log, log, faulty,
                             OpFor(request, []), ttl);
        refusal := ErrorOf(r);
    }

    method ServeReservation(request: Request) returns (refusal: Option<ErrorCode>, ghost op: Op)
      requires Wired() && (request.Confirm? || request.Decline?)
      modifies store, publisher
      ensures Did(old(store.View()), old(publisher.log), old(store.Faulty()), OpFor(request, []), refusal, op)
    {
      ghost var before, log, faulty := store.View(), publisher.log, store.Faulty();
      match request
      case Confirm(user, id, now) =>
        var r := reservations.ConfirmReservation(user, id, now);
        op := RealisedIsStep(ConfirmReservation(before, user, id, now), r, before, store.View(),
                             log, publisher.log, faulty, OpFor(request, []), ttl);
        refusal := ErrorOf(r);
      case Decline(user, id, now, dbNow) =>
        var r := reservations.CancelReservation(user, id, now, dbNow);
        op := RealisedIsStep(CancelReservation(before, user, id, now, dbNow, ttl), r, before, store.View(),
                             log, publisher.log, faulty, OpFor(request, []), ttl);
        refusal := ErrorOf(r);
    }

    method ServeExpiry(request: Request, answer: seq<nat>) returns (refusal: Option<ErrorCode>, ghost op: Op)
      requires Wired() && request.Expire? && Possible(store.View(), OpFor(request, answer))
      modifies store, publisher
      ensures Did(old(store.View()), old(publisher.log), old(store.Faulty()), OpFor(request, answer), refusal, op)
    {
      ghost var before, log, faulty := store.View(), publisher.log, store.Faulty();
      var r := reservations.ExpireDue(request.configured, request.now, request.dbNow, answer);
      op := RealisedIsStep(ExpireDue(before, answer, request.now, request.dbNow, ttl), r, before, store.View(),
                           log, publisher.log, faulty, OpFor(request, answer), ttl);
      refusal := ErrorOf(r);
    }

    // One request, whichever calls to the database fail while it is served.
    method Serve(request: Request, answer: seq<nat>) returns (refusal: Option<ErrorCode>, ghost op: Op)
      requires Wired() && Possible(store.View(), OpFor(request, answer))
      modifies store, publisher
      ensures Did(old(store.View()), old(publisher.log), old(store.Faulty()), OpFor(request, answer), refusal, op)
      ensures Inv(old(store.View())) ==> Inv(store.View())
    {
      if request.Book? || request.CancelBook? {
        refusal, op := ServeBooking(request);
      } else if request.JoinQueue? || request.LeaveQueue? {
        refusal, op := ServeWaitlist(request);
      } else if request.StoreSlots? {
        store.AddSlots(request.added);
        refusal, op := None, OpFor(request, answer);
      } else if request.Expire? {
        refusal, op := ServeExpiry(request, answer);
      } else {
        refusal, op := ServeReservation(request);
      }
      if Inv(old(store.View())) {
        OperationKeepsInv(old(store.View()), op, ttl);
      }
    }

    // Any number of requests, one after the other: with all their failures they are a run of the protocol from empty
    // tables, so every state on the way satisfies the invariant and the published events tell who has each slot.
    method ServeAll(requests: seq<Request>, query: Query) returns (refusals: seq<Option<ErrorCode>>, ghost c: Course)
      requires Wired() && Answers(query) && Initial(store.View()) && publisher.log == []
      modifies store, publisher
      ensures Carries(c, requests, query, ttl) && refusals == c.refusals
      ensures c.run[0] == old(store.View()) && c.run[|requests|] == store.View()
      ensures c.faulty[0] == old(store.Faulty()) && c.faulty[|requests|] == store.Faulty()
      ensures IsRun(c.run, c.ops, ttl) && publisher.log == PublishedUpTo(c.run, c.ops, ttl, |c.ops|)
      ensures forall k | 0 <= k <= |requests| :: Inv(c.run[k])
      ensures Followed(store.View(), publisher.log) && forall s :: Sound(LockOf(store.View(), s))
    {
      refusals, c := ServeInTurn(requests, query);
      CarriedIsRun(c, requests, query, ttl);
      assert c.published[..|c.ops|] == c.published;
      RunEndsWell(c.run, c.ops, ttl);
    }

    method ServeInTurn(requests: seq<Request>, query: Query)
      returns (refusals: seq<Option<ErrorCode>>, ghost c: Course)
      requires Wired() && Answers(query) && publisher.log == []
      modifies store, publisher
      ensures Carries(c, requests, query, ttl) && refusals == c.refusals
      ensures c.run[0] == old(store.View()) && c.run[|requests|] == store.View()
      ensures c.faulty[0] == old(store.Faulty()) && c.faulty[|requests|] == store.Faulty()
      ensures publisher.log == Flat(c.published)
    {
      refusals, c := [], Course([store.View()], [store.Faulty()], [], [], []);
      for k := 0 to |requests|
        invariant Carries(c, requests[..k], query, ttl) && refusals == c.refusals
        invariant c.run[0] == old(store.View()) && c.faulty[0] == old(store.Faulty())
        invariant EndsHere(c)
      {
        var refusal;
        refusal, c := ServeNext(requests, k, query, c);
        refusals := refusals + [refusal];
      }
      assert requests[..|requests|] == requests;
    }

    // The course has come to the present state of the objects.
    ghost predicate EndsHere(c: Course)
      reads store, publisher
    {
      && |c.run| > 0 && c.run[|c.run| - 1] == store.View()
      && |c.faulty| > 0 && c.faulty[|c.faulty| - 1] == store.Faulty()
      && publisher.log == Flat(c.published)
    }

    method ServeNext(requests: seq<Request>, k: nat, query: Query, ghost c: Course)
      returns (refusal: Option<ErrorCode>, ghost next: Course)
      requires Wired() && Answers(query) && k < |requests|
      requires Carries(c, requests[..k], query, ttl) && EndsHere(c)
      modifies store, publisher
      ensures Carries(next, requests[..k + 1], query, ttl) && EndsHere(next)
      ensures next.refusals == c.refusals + [refusal]
      ensures next.run[0] == c.run[0] && next.faulty[0] == c.faulty[0]
    {
      var answer := AnswerTo(query, k, store.reservations, requests[k]);
      ghost var op, events;
      refusal, op, events := ServeOne(requests[k], answer);
      next := Extended(c, store.View(), store.Faulty(), op, refusal, events);
      CarriesOn(c, requests, k, query, ttl, store.View(), store.Faulty(), op, refusal, events);
    }

    method ServeOne(request: Request, answer: seq<nat>)
      returns (refusal: Option<ErrorCode>, ghost op: Op, ghost events: seq<Event>)
      requires Wired() && Possible(store.View(), OpFor(request, answer))
      modifies store, publisher
      ensures StepTaken(old(store.View()), store.View(), events, refusal, op, OpFor(request, answer), ttl,
                        old(store.Faulty()))
      ensures publisher.log == old(publisher.log) + events
      ensures store.Faulty() ==> old(store.Faulty())
    {
      events := [];
      refusal, op := Serve(request, answer);
      events := Published(old(store.View()), op, ttl);
    }
  }

  // From the first start of the application, whatever slots there are, whichever calls fail, and whatever is asked.
  method ServeFromStart(
    slots: map<SlotId, Slot>, faults: seq<bool>, reservationTTL: Time, requests: seq<Request>, query: Query)
    returns (refusals: seq<Option<ErrorCode>>, log: seq<Event>, ghost c: Course)
    requires Answers(query)
    ensures
      var ttl, last := EffectiveTTL(reservationTTL), |requests|;
      && Carries(c, requests, query, ttl) && refusals == c.refusals && c.faulty[0] == (true in faults)
      && Initial(c.run[0]) && c.run[0].slots == slots
      && IsRun(c.run, c.ops, ttl) && log == PublishedUpTo(c.run, c.ops, ttl, last)
      && (forall k | 0 <= k <= last :: Inv(c.run[k]))
      && Followed(c.run[last], log) && (forall s :: Sound(LockOf(c.run[last], s)))
  {
    var app := new App(slots, faults, reservationTTL);
    refusals, c := app.ServeAll(requests, query);
    log := app.publisher.log;
  }
}
