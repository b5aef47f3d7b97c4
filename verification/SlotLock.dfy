/** The slot as a first-in-first-out lock: the simple machine the three tables are meant to implement. */
module SlotLock {
  import opened Domain

  datatype Holder = Free | BookedBy(user: UserId) | ReservedFor(user: UserId, deadline: Time)

  datatype Lock = Lock(holder: Holder, queue: seq<UserId>)

  datatype Action =
    | Stay
    | Acquire(user: UserId)
    | Release(deadline: Time)
    | Settle
    | Enqueue(user: UserId)
    | Abandon(user: UserId)

  function Without(queue: seq<UserId>, u: UserId): seq<UserId> {
    if queue == [] then []
    else if queue[0] == u then Without(queue[1..], u)
    else [queue[0]] + Without(queue[1..], u)
  }

  // The lock goes to the first in line until the deadline, or to nobody.
  function Grant(queue: seq<UserId>, deadline: Time): Lock {
    if queue == [] then Lock(Free, []) else Lock(ReservedFor(queue[0], deadline), queue[1..])
  }

  predicate Enabled(a: Lock, action: Action) {
    match action
    case Stay => true
    case Acquire(_) => a.holder.Free?
    case Release(_) => !a.holder.Free?
    case Settle => a.holder.ReservedFor?
    case Enqueue(u) => a.holder.BookedBy? && a.holder.user != u && u !in a.queue
    case Abandon(u) => u in a.queue
  }

  function Step(a: Lock, action: Action): Lock
    requires Enabled(a, action)
  {
    match action
    case Stay => a
    case Acquire(u) => a.(holder := BookedBy(u))
    case Release(_) => Granted(a, action)
    case Settle => a.(holder := BookedBy(a.holder.user))
    case Enqueue(u) => a.(queue := a.queue + [u])
    case Abandon(_) => Abandoned(a, action)
  }

  function Granted(a: Lock, action: Action): Lock
    requires action.Release?
  {
    Grant(a.queue, action.deadline)
  }

  function Abandoned(a: Lock, action: Action): Lock
    requires action.Abandon?
  {
    a.(queue := Without(a.queue, action.user))
  }

  // Nobody waits for a free lock, nobody waits twice, and the holder does not wait.
  ghost predicate Sound(a: Lock) {
    && (a.holder.Free? ==> a.queue == [])
    && (!a.holder.Free? ==> a.holder.user !in a.queue)
    && (forall i, j | 0 <= i < |a.queue| && 0 <= j < |a.queue| && a.queue[i] == a.queue[j] :: i == j)
  }

  lemma {:induction false} WithoutAppend(p: seq<UserId>, q: seq<UserId>, u: UserId)
    ensures Without(p + q, u) == Without(p, u) + Without(q, u)
  {
    if p == [] {
      assert p + q == q;
    } else {
      WithoutAppend(p[1..], q, u);
      assert (p + q)[1..] == p[1..] + q;
      var x, y := Without(p[1..], u), Without(q, u);
      assert ([p[0]] + x) + y == [p[0]] + (x + y);
    }
  }

  lemma {:induction false} WithoutAbsent(q: seq<UserId>, u: UserId)
    requires u !in q
    ensures Without(q, u) == q
  {
    if q != [] {
      WithoutAbsent(q[1..], u);
    }
  }

  // Taking one waiter out of a line without repetitions keeps everyone else in place.
  lemma WithoutOne(p: seq<UserId>, u: UserId, q: seq<UserId>)
    requires u !in p && u !in q
    ensures Without(p + [u] + q, u) == p + q
  {
    WithoutAppend(p + [u], q, u);
    WithoutAppend(p, [u], u);
    WithoutAbsent(p, u);
    WithoutAbsent(q, u);
    assert Without([u], u) == [] by {
      assert [u][1..] == [];
    }
    assert Without(p + [u], u) == p;
  }

  lemma StepKeepsSound(a: Lock, action: Action)
    requires Sound(a) && Enabled(a, action)
    ensures Sound(Step(a, action))
  {
    match action
    case Abandon(_) => AbandonKeepsSound(a, action);
    case Enqueue(_) => EnqueueKeepsSound(a, action);
    case Release(_) => ReleaseKeepsSound(a, action);
    case _ =>
  }

  lemma EnqueueKeepsSound(a: Lock, action: Action)
    requires Sound(a) && action.Enqueue? && Enabled(a, action)
    ensures Sound(Step(a, action))
  {}

  lemma ReleaseKeepsSound(a: Lock, action: Action)
    requires Sound(a) && action.Release?
    ensures Sound(Granted(a, action))
  {}

  lemma AbandonKeepsSound(a: Lock, action: Action)
    requires Sound(a) && action.Abandon? && Enabled(a, action)
    ensures Sound(Abandoned(a, action))
  {
    var k :| 0 <= k < |a.queue| && a.queue[k] == action.user;
    assert a.queue == a.queue[..k] + [action.user] + a.queue[k + 1..];
    WithoutOne(a.queue[..k], action.user, a.queue[k + 1..]);
  }
}
