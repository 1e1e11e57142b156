/**
 The pool of tensor descriptors: a list of free slots behind a spin lock, shared by any number of threads that
 create and destroy descriptors one by one or in groups. Slots are numbered as they are allocated.

 The main results hold in every reachable state of every interleaving (EveryRunIsSafe): at most one thread is in
 a critical section; every slot ever allocated is in exactly one place, free, live or in the hands of one
 thread; a call leaves with as many slots as it asked for; the front of an empty list is never taken. However the
 threads interleave, a critical section makes of the pool what the same call makes of it alone
 (EverySectionServes). That no empty list is asked needs a pool that starts with at least one slot, and fails without
 (SafeExactly). A live slot holds a constructed descriptor exactly if no group create handed it out, so the destructor
 runs on nothing at exactly the destroys of those (DestroysNothingExactly).
 */
module DescriptorPool {

  type Slot = nat

  datatype Option<T> = None | Some(value: T)

  datatype Call =
    | Create
    | CreateGroup(num: nat)
    | Destroy(slots: seq<Slot>)

  /** Where a thread is: outside, spinning on the lock, or at a point of its critical section. */
  datatype Place =
    | Outside
    | Spinning(call: Call)
    | Entered(call: Call)
    | Taking(call: Call, need: nat, got: seq<Slot>)
    | Giving(call: Call, rest: seq<Slot>)
    | Leaving(call: Call, got: seq<Slot>)
  {
    predicate Inside() { Entered? || Taking? || Giving? || Leaving? }

    /** The slots in the thread's hands. */
    function Held(): seq<Slot> {
      match this
      case Outside => []
      case Spinning(call) => if call.Destroy? then call.slots else []
      case Entered(call) => if call.Destroy? then call.slots else []
      case Taking(_, _, got) => got
      case Giving(_, rest) => rest
      case Leaving(_, got) => got
    }

    /** The slots still to be destroyed. */
    function Returning(): seq<Slot> {
      match this
      case Spinning(call) => if call.Destroy? then call.slots else []
      case Entered(call) => if call.Destroy? then call.slots else []
      case Giving(_, rest) => rest
      case _ => []
    }
  }

  /** The pool, the descriptors callers own, the slots that hold a constructed descriptor, those last handed out by a
      group create, and the threads. */
  datatype State = State(queue: seq<Slot>, next: nat, extendNum: nat, flag: Option<nat>, live: set<Slot>,
                         constructed: set<Slot>, grouped: set<Slot>, threads: seq<Place>, broken: bool)

  datatype Event = Begin(t: nat, call: Call) | Acquire(t: nat) | SpinAgain(t: nat) | Step(t: nat)

  /** n fresh slots from number `from` on, each pushed to the front in turn. */
  function Fresh(from: nat, n: nat): (f: seq<Slot>)
    ensures |f| == n
  {
    if n == 0 then [] else [from + n - 1] + Fresh(from, n - 1)
  }

  function Max(a: nat, b: nat): nat { if a < b then b else a }

  /** Allocate n more slots and set how many come next time. */
  function Extended(s: State, n: nat, extendNum: nat): State {
    s.(queue := Fresh(s.next, n) + s.queue, next := s.next + n, extendNum := extendNum)
  }

  predicate Distinct(x: seq<Slot>) { forall i, j | 0 <= i < j < |x| :: x[i] != x[j] }

  /** Callers pass what the library asks for: groups that are not empty, and live descriptors to destroy. */
  predicate Allowed(s: State, call: Call) {
    match call
    case Create => true
    case CreateGroup(num) => 0 < num
    case Destroy(slots) => slots != [] && Distinct(slots) && forall x :: x in slots ==> x in s.live
  }

  predicate Enabled(s: State, e: Event) {
    e.t < |s.threads| && !s.broken &&
    match e
    case Begin(t, call) => s.threads[t].Outside? && Allowed(s, call)
    case Acquire(t) => s.threads[t].Spinning? && s.flag.None?
    case SpinAgain(t) => s.threads[t].Spinning? && s.flag.Some?
    case Step(t) => s.threads[t].Inside()
  }

  function Elements(x: seq<Slot>): set<Slot> { set y | y in x }

  function At(s: State, t: nat, p: Place): State
    requires t < |s.threads|
  {
    s.(threads := s.threads[t := p])
  }

  /** One step inside the critical section. */
  function Inner(s: State, t: nat): State
    requires t < |s.threads| && s.threads[t].Inside()
  {
    match s.threads[t]
    case Entered(Create) =>
      At(if s.queue == [] then Extended(s, s.extendNum, 2 * s.extendNum) else s, t, Taking(Create, 1, []))
    case Entered(CreateGroup(num)) =>
      var n := Max(s.extendNum, num);
      At(if |s.queue| < num then Extended(s, n, 2 * n) else s, t, Taking(CreateGroup(num), num, []))
    case Entered(Destroy(slots)) => At(s, t, Giving(Destroy(slots), slots))
    case Taking(call, need, got) =>
      if need == 0 then At(s, t, Leaving(call, got))
      else if s.queue == [] then s.(broken := true)
      else At(s.(queue := s.queue[1..], constructed := s.constructed + if call.Create? then {s.queue[0]} else {}),
              t, Taking(call, need - 1, got + [s.queue[0]]))
    case Giving(call, rest) =>
      if rest == [] then At(s, t, Leaving(call, []))
      else At(s.(queue := [rest[0]] + s.queue, constructed := s.constructed - {rest[0]}), t, Giving(call, rest[1..]))
    case Leaving(call, got) =>
      var grouped := if call.CreateGroup? then s.grouped + Elements(got) else s.grouped - Elements(got);
      At(s.(flag := None, live := s.live + Elements(got), grouped := grouped), t, Outside)
  }

  function Next(s: State, e: Event): State
    requires Enabled(s, e)
  {
    match e
    case Begin(t, call) =>
      At(s.(live := s.live - if call.Destroy? then Elements(call.slots) else {}), t, Spinning(call))
    case Acquire(t) => At(s.(flag := Some(t)), t, Entered(s.threads[t].call))
    case SpinAgain(_) => s
    case Step(t) => Inner(s, t)
  }

  predicate Run(s: State, es: seq<Event>)
    decreases |es|
  {
    es == [] || (Enabled(s, es[0]) && Run(Next(s, es[0]), es[1..]))
  }

  function After(s: State, es: seq<Event>): State
    requires Run(s, es)
    decreases |es|
  {
    if es == [] then s else After(Next(s, es[0]), es[1..])
  }

  /** A pool constructed with n slots, and threads that have not called anything. */
  function Start(n: nat, threads: nat): State {
    State(Fresh(0, n), n, 2 * n, None, {}, {}, {}, seq(threads, i => Outside), false)
  }

  // ----- Conservation -----

  /** How often x is in q. */
  function Times(q: seq<Slot>, x: Slot): nat {
    if q == [] then 0 else (if q[0] == x then 1 else 0) + Times(q[1..], x)
  }

  function HeldTimes(threads: seq<Place>, x: Slot): nat {
    if threads == [] then 0 else Times(threads[0].Held(), x) + HeldTimes(threads[1..], x)
  }

  /** In how many places slot x is: free, live, or in the hands of a thread. */
  function Places(s: State, x: Slot): nat {
    Times(s.queue, x) + (if x in s.live then 1 else 0) + HeldTimes(s.threads, x)
  }

  lemma {:induction false} TimesAppend(p: seq<Slot>, q: seq<Slot>, x: Slot)
    ensures Times(p + q, x) == Times(p, x) + Times(q, x)
  {
    if p == [] {
      assert p + q == q;
    } else {
      assert (p + q)[1..] == p[1..] + q;
      TimesAppend(p[1..], q, x);
    }
  }

  lemma {:induction false} TimesIn(q: seq<Slot>, x: Slot)
    ensures x in q <==> 0 < Times(q, x)
  {
    if q != [] {
      TimesIn(q[1..], x);
      assert q == [q[0]] + q[1..];
    }
  }

  lemma {:induction false} TimesDistinct(q: seq<Slot>, x: Slot)
    ensures Distinct(q) ==> Times(q, x) <= 1
  {
    if q != [] && Distinct(q) {
      TimesDistinct(q[1..], x);
      TimesIn(q[1..], x);
      forall k | 0 <= k < |q| - 1 ensures q[1..][k] != q[0] {
        assert q[1..][k] == q[k + 1];
      }
    }
  }

  lemma {:induction false} HeldUpdate(threads: seq<Place>, t: nat, p: Place, x: Slot)
    requires t < |threads|
    ensures HeldTimes(threads[t := p], x) + Times(threads[t].Held(), x) == HeldTimes(threads, x) + Times(p.Held(), x)
    ensures Times(threads[t].Held(), x) <= HeldTimes(threads, x)
  {
    hide Place.Held;
    if t > 0 {
      HeldUpdate(threads[1..], t - 1, p, x);
      assert threads[t := p][1..] == threads[1..][t - 1 := p];
    } else {
      assert threads[t := p][1..] == threads[1..];
    }
  }

  lemma {:induction false} FreshOnce(from: nat, n: nat, x: Slot)
    ensures Times(Fresh(from, n), x) == if from <= x < from + n then 1 else 0
  {
    if n > 0 {
      FreshOnce(from, n - 1, x);
      assert Fresh(from, n)[1..] == Fresh(from, n - 1);
    }
  }

  lemma {:induction false} NobodyHolds(threads: seq<Place>, x: Slot)
    requires forall t | 0 <= t < |threads| :: threads[t].Outside?
    ensures HeldTimes(threads, x) == 0
  {
    if threads != [] {
      NobodyHolds(threads[1..], x);
    }
  }

  // ----- The invariant -----

  /** Every slot allocated is in exactly one place, every other number nowhere. */
  ghost predicate Conserved(s: State) {
    forall x: Slot :: Places(s, x) == if x < s.next then 1 else 0
  }

  /** A thread inside has the lock, and whoever has the lock is inside. */
  predicate Exclusive(s: State) {
    && (forall t | 0 <= t < |s.threads| :: s.threads[t].Inside() ==> s.flag == Some(t))
    && (s.flag.Some? ==> s.flag.value < |s.threads| && s.threads[s.flag.value].Inside())
  }

  /** Enough is free for what the thread inside is about to take. */
  predicate Supplied(s: State) {
    && 0 < s.extendNum
    && forall t | 0 <= t < |s.threads| ::
         (s.threads[t].Taking? ==> s.threads[t].need <= |s.queue|) && PlaceOk(s.threads[t])
  }

  /** How many slots a call gets. */
  function Wanted(call: Call): nat { if call.Create? then 1 else if call.CreateGroup? then call.num else 0 }

  /** A call has as many slots as it wants when it leaves; until then, what it has and what it needs add up to that. */
  predicate PlaceOk(p: Place) {
    && (p.Taking? ==> !p.call.Destroy? && |p.got| + p.need == Wanted(p.call))
    && (p.Giving? ==> p.call.Destroy?)
    && (p.Leaving? ==> |p.got| == Wanted(p.call))
  }

  /** Free slots hold no constructed descriptor; what a thread has taken does exactly if by a single create. */
  ghost predicate ConstructedOk(s: State) {
    && (forall x :: x in s.queue ==> x !in s.constructed)
    && (forall t | 0 <= t < |s.threads| && s.threads[t].Taking? ::
          forall x :: x in s.threads[t].got ==> (x in s.constructed <==> s.threads[t].call.Create?))
    && (forall t | 0 <= t < |s.threads| && s.threads[t].Leaving? ::
          forall x :: x in s.threads[t].got ==> (x in s.constructed <==> s.threads[t].call.Create?))
    && (forall x :: x in s.constructed ==> x < s.next)
  }

  ghost predicate Safe(s: State) {
    !s.broken && Conserved(s) && Exclusive(s) && Supplied(s) && ConstructedOk(s)
  }

  /** Replacing thread t's place. */
  lemma AtKeepsExclusive(s: State, s': State, t: nat, p: Place)
    requires Exclusive(s) && t < |s.threads| && s'.threads == s.threads[t := p]
    requires s.threads[t].Inside() && p.Inside() ==> s'.flag == s.flag
    requires s.threads[t].Inside() && !p.Inside() ==> s'.flag == None
    requires !s.threads[t].Inside() && p.Inside() ==> s.flag == None && s'.flag == Some(t)
    requires !s.threads[t].Inside() && !p.Inside() ==> s'.flag == s.flag
    ensures Exclusive(s')
  {
    hide Place.Inside;
  }

  /** What moving slots around thread t amounts to for one slot. */
  predicate Moves(s: State, s': State, t: nat, p: Place, x: Slot)
    requires t < |s.threads|
  {
    Times(s'.queue, x) + (if x in s'.live then 1 else 0) + Times(p.Held(), x) + (if x < s.next then 1 else 0) ==
    Times(s.queue, x) + (if x in s.live then 1 else 0) + Times(s.threads[t].Held(), x) + (if x < s'.next then 1 else 0)
  }

  /** Slots move between the free list, the live set and thread t's hands, or are allocated. */
  lemma MoveKeepsConserved(s: State, s': State, t: nat, p: Place)
    requires Conserved(s) && t < |s.threads| && s'.threads == s.threads[t := p] &&
             forall x: Slot :: Moves(s, s', t, p, x)
    ensures Conserved(s')
  {
    hide Place.Held, Times, HeldTimes;
    forall x: Slot ensures Places(s', x) == if x < s'.next then 1 else 0 {
      HeldUpdate(s.threads, t, p, x);
      assert Places(s, x) == if x < s.next then 1 else 0;
      assert Moves(s, s', t, p, x);
    }
  }

  /** In a safe state only thread t can be inside if it is, or none if the lock is free. */
  lemma OthersOutside(s: State, t: nat, u: nat)
    requires Exclusive(s) && t < |s.threads| && u < |s.threads| && t != u
    requires s.threads[t].Inside() || s.flag == None
    ensures !s.threads[u].Inside()
  {
  }

  lemma BeginKeepsSafe(s: State, t: nat, call: Call)
    requires Safe(s) && Enabled(s, Begin(t, call))
    ensures Safe(Next(s, Begin(t, call)))
  {
    var s', p := Next(s, Begin(t, call)), Spinning(call);
    hide Times, Places, HeldTimes;
    AtKeepsExclusive(s, s', t, p);
    NothingTimes();
    forall x: Slot ensures Moves(s, s', t, p, x) {
      if call.Destroy? {
        TimesIn(call.slots, x);
        TimesDistinct(call.slots, x);
      }
    }
    hide Place.Held;
    MoveKeepsConserved(s, s', t, p);
  }

  lemma NothingTimes()
    ensures forall x: Slot :: Times([], x) == 0
  {
  }

  lemma AcquireKeepsSafe(s: State, t: nat)
    requires Safe(s) && Enabled(s, Acquire(t))
    ensures Safe(Next(s, Acquire(t)))
  {
    var s', p := Next(s, Acquire(t)), Entered(s.threads[t].call);
    hide Times, Places, HeldTimes;
    AtKeepsExclusive(s, s', t, p);
    assert p.Held() == s.threads[t].Held();
    hide Place.Held;
    MoveKeepsConserved(s, s', t, p);
  }

  /** Make sure there is something to take. */
  lemma EnterCreateKeepsSafe(s: State, t: nat)
    requires Safe(s) && t < |s.threads| && s.threads[t].Entered? && !s.threads[t].call.Destroy?
    ensures Safe(Inner(s, t))
  {
    var s' := Inner(s, t);
    var p := s'.threads[t];
    assert s'.threads == s.threads[t := p];
    var n := s'.next - s.next;
    var added := Fresh(s.next, n);
    assert s'.queue == (if n == 0 then s.queue else added + s.queue);
    hide Times, Places, HeldTimes;
    AtKeepsExclusive(s, s', t, p);
    NothingTimes();
    forall x: Slot ensures Moves(s, s', t, p, x) {
      FreshOnce(s.next, n, x);
      TimesAppend(added, s.queue, x);
    }
    MoveKeepsConserved(s, s', t, p);
    hide Fresh, Place.Held;
    forall x | x in s'.queue ensures x !in s.constructed {
      FreshOnce(s.next, n, x);
      TimesIn(added, x);
    }
    OnlyInside(s, s', t, p);
  }

  /** The others being outside, what is left to check concerns thread t alone. */
  lemma OnlyInside(s: State, s': State, t: nat, p: Place)
    requires Safe(s) && t < |s.threads| && s.threads[t].Inside() && s'.threads == s.threads[t := p]
    requires 0 < s'.extendNum && (p.Taking? ==> p.need <= |s'.queue|) && PlaceOk(p)
    requires forall x :: x in s'.queue ==> x !in s'.constructed
    requires p.Taking? || p.Leaving? ==> forall x :: x in p.got ==> (x in s'.constructed <==> p.call.Create?)
    requires forall x :: x in s'.constructed ==> x < s'.next
    ensures Supplied(s') && ConstructedOk(s')
  {
    hide Places, Conserved;
    forall u | 0 <= u < |s.threads| && u != t ensures !s.threads[u].Inside() {
      OthersOutside(s, t, u);
    }
  }

  lemma PassKeepsSafe(s: State, t: nat)
    requires Safe(s) && t < |s.threads|
    requires (s.threads[t].Entered? && s.threads[t].call.Destroy?) || (s.threads[t].Taking? && s.threads[t].need == 0)
             || (s.threads[t].Giving? && s.threads[t].rest == [])
    ensures Safe(Inner(s, t))
  {
    var s' := Inner(s, t);
    var p := s'.threads[t];
    assert s'.threads == s.threads[t := p];
    hide Times, Places, HeldTimes;
    AtKeepsExclusive(s, s', t, p);
    assert p.Held() == s.threads[t].Held();
    MoveKeepsConserved(s, s', t, p);
    hide Place.Held;
    OnlyInside(s, s', t, p);
  }

  /** Take the front slot. */
  lemma TakeKeepsSafe(s: State, t: nat)
    requires Safe(s) && t < |s.threads| && s.threads[t].Taking? && 0 < s.threads[t].need
    ensures Safe(Inner(s, t))
  {
    var s' := Inner(s, t);
    assert s.queue != [];
    var p, d, got := s'.threads[t], s.queue[0], s.threads[t].got;
    assert s'.threads == s.threads[t := p] && s.queue == [d] + s'.queue;
    hide Places, HeldTimes;
    AtKeepsExclusive(s, s', t, p);
    OneTime(d);
    hide Times;
    forall x: Slot ensures Moves(s, s', t, p, x) {
      TimesAppend([d], s'.queue, x);
      TimesAppend(got, [d], x);
    }
    MoveKeepsConserved(s, s', t, p);
    FrontOnce(s, t, d);
    hide Place.Held, Conserved;
    OnlyInside(s, s', t, p);
  }

  lemma OneTime(d: Slot)
    ensures forall x: Slot :: Times([d], x) == if x == d then 1 else 0
  {
    assert [d][1..] == [];
  }

  /** The front slot is nowhere else, and has been allocated. */
  lemma FrontOnce(s: State, t: nat, d: Slot)
    requires Conserved(s) && t < |s.threads| && s.queue != [] && d == s.queue[0]
    ensures d < s.next && d !in s.queue[1..] && d !in s.threads[t].Held()
  {
    assert Places(s, d) == if d < s.next then 1 else 0;
    TimesIn(s.queue[1..], d);
    TimesIn(s.threads[t].Held(), d);
    HeldUpdate(s.threads, t, s.threads[t], d);
  }

  /** Give a slot back. */
  lemma GiveKeepsSafe(s: State, t: nat)
    requires Safe(s) && t < |s.threads| && s.threads[t].Giving? && s.threads[t].rest != []
    ensures Safe(Inner(s, t))
  {
    var s' := Inner(s, t);
    var p, rest := s'.threads[t], s.threads[t].rest;
    var d := rest[0];
    assert s'.threads == s.threads[t := p] && rest == [d] + p.rest;
    hide Places, HeldTimes;
    AtKeepsExclusive(s, s', t, p);
    OneTime(d);
    hide Times;
    forall x: Slot ensures Moves(s, s', t, p, x) {
      TimesAppend([d], s.queue, x);
      TimesAppend([d], p.rest, x);
    }
    MoveKeepsConserved(s, s', t, p);
    hide Place.Held, Conserved;
    OnlyInside(s, s', t, p);
  }

  /** Release the lock; what was taken is the caller's. */
  lemma LeaveKeepsSafe(s: State, t: nat)
    requires Safe(s) && t < |s.threads| && s.threads[t].Leaving?
    ensures Safe(Inner(s, t))
  {
    var s' := Inner(s, t);
    var p, got := s'.threads[t], s.threads[t].got;
    assert s'.threads == s.threads[t := p];
    hide HeldTimes, Times;
    AtKeepsExclusive(s, s', t, p);
    NothingTimes();
    forall x: Slot ensures Moves(s, s', t, p, x) {
      assert Places(s, x) == if x < s.next then 1 else 0;
      TimesIn(got, x);
      HeldUpdate(s.threads, t, s.threads[t], x);
    }
    hide Places;
    MoveKeepsConserved(s, s', t, p);
    hide Place.Held, Conserved;
    OnlyInside(s, s', t, p);
  }

  lemma InnerKeepsSafe(s: State, t: nat)
    requires Safe(s) && t < |s.threads| && s.threads[t].Inside()
    ensures Safe(Inner(s, t))
  {
    hide Safe, Inner;
    match s.threads[t]
    case Entered(call) =>
      if call.Destroy? {
        PassKeepsSafe(s, t);
      } else {
        EnterCreateKeepsSafe(s, t);
      }
    case Taking(_, need, _) =>
      if need == 0 {
        PassKeepsSafe(s, t);
      } else {
        TakeKeepsSafe(s, t);
      }
    case Giving(_, rest) =>
      if rest == [] {
        PassKeepsSafe(s, t);
      } else {
        GiveKeepsSafe(s, t);
      }
    case Leaving(_, _) => LeaveKeepsSafe(s, t);
  }

  lemma StepKeepsSafe(s: State, e: Event)
    requires Safe(s) && Enabled(s, e)
    ensures Safe(Next(s, e))
  {
    hide Safe;
    match e
    case Begin(t, call) => BeginKeepsSafe(s, t, call);
    case Acquire(t) => AcquireKeepsSafe(s, t);
    case SpinAgain(t) =>
    case Step(t) => InnerKeepsSafe(s, t);
  }

  // ----- What slots in use hold -----

  /** A slot in use holds a constructed descriptor exactly if it was not handed out by a group create. */
  predicate Right(s: State, x: Slot) { x in s.constructed <==> x !in s.grouped }

  /** So it is for every live slot and every slot about to be destroyed. */
  ghost predicate HandedOk(s: State) {
    && (forall x :: x in s.live ==> Right(s, x))
    && forall t | 0 <= t < |s.threads| :: forall x :: x in s.threads[t].Returning() ==> Right(s, x)
  }

  lemma ReturningIsHeld(p: Place, x: Slot)
    requires x in p.Returning()
    ensures x in p.Held()
  {
  }

  /** A free slot is not in use. */
  lemma FreeNotUsed(s: State, x: Slot, u: nat)
    requires Conserved(s) && x in s.queue && u < |s.threads|
    ensures x !in s.live && x !in s.threads[u].Held()
  {
    assert Places(s, x) == if x < s.next then 1 else 0;
    hide Place.Held;
    TimesIn(s.queue, x);
    TimesIn(s.threads[u].Held(), x);
    HeldUpdate(s.threads, u, s.threads[u], x);
  }

  /** A slot in one thread's hands is not live, and not in another's. */
  lemma HeldNotUsed(s: State, x: Slot, t: nat, u: nat)
    requires Conserved(s) && t < |s.threads| && x in s.threads[t].Held() && u < |s.threads| && u != t
    ensures x !in s.live && x !in s.threads[u].Held() && Times(s.threads[t].Held(), x) == 1
  {
    assert Places(s, x) == if x < s.next then 1 else 0;
    NothingTimes();
    assert Outside.Held() == [];
    hide Place.Held;
    TimesIn(s.threads[t].Held(), x);
    TimesIn(s.threads[u].Held(), x);
    HeldUpdate(s.threads, t, Outside, x);
    HeldUpdate(s.threads[t := Outside], u, s.threads[u], x);
  }

  lemma HeldOnce(s: State, x: Slot, t: nat)
    requires Conserved(s) && t < |s.threads| && x in s.threads[t].Held()
    ensures x !in s.live && Times(s.threads[t].Held(), x) == 1
  {
    assert Places(s, x) == if x < s.next then 1 else 0;
    hide Place.Held;
    TimesIn(s.threads[t].Held(), x);
    HeldUpdate(s.threads, t, s.threads[t], x);
  }

  /** Steps that construct, destroy and hand out nothing. */
  lemma QuietKeepsHanded(s: State, s': State, t: nat, p: Place)
    requires HandedOk(s) && t < |s.threads| && s'.threads == s.threads[t := p]
    requires s'.constructed == s.constructed && s'.grouped == s.grouped && s'.live <= s.live
    requires forall x :: x in p.Returning() ==> x in s.threads[t].Returning() || x in s.live
    ensures HandedOk(s')
  {
    hide Place.Returning;
    forall x | x in s'.live ensures Right(s', x) {
      assert Right(s, x);
    }
    forall u, x | 0 <= u < |s'.threads| && x in s'.threads[u].Returning() ensures Right(s', x) {
      assert Right(s, x);
    }
  }

  lemma TakeKeepsHanded(s: State, t: nat)
    requires Safe(s) && HandedOk(s) && t < |s.threads| && s.threads[t].Taking? && 0 < s.threads[t].need
    ensures HandedOk(Inner(s, t))
  {
    var s' := Inner(s, t);
    assert s.queue != [];
    var d := s.queue[0];
    assert s'.threads == s.threads[t := s'.threads[t]] && s'.threads[t].Returning() == [];
    assert s'.constructed - {d} == s.constructed - {d} && s'.grouped == s.grouped && s'.live == s.live;
    hide Inner, Places, Place.Held, Place.Returning;
    forall x | x in s'.live ensures Right(s', x) {
      FreeNotUsed(s, d, t);
      assert Right(s, x);
    }
    forall u, x | 0 <= u < |s'.threads| && x in s'.threads[u].Returning() ensures Right(s', x) {
      FreeNotUsed(s, d, u);
      ReturningIsHeld(s.threads[u], x);
      assert Right(s, x);
    }
  }

  lemma GiveKeepsHanded(s: State, t: nat)
    requires Safe(s) && HandedOk(s) && t < |s.threads| && s.threads[t].Giving? && s.threads[t].rest != []
    ensures HandedOk(Inner(s, t))
  {
    var s' := Inner(s, t);
    var rest := s.threads[t].rest;
    var d := rest[0];
    assert s'.threads == s.threads[t := Giving(s.threads[t].call, rest[1..])];
    assert s'.constructed == s.constructed - {d};
    assert s'.grouped == s.grouped && s'.live == s.live && s.threads[t].Returning() == s.threads[t].Held() == rest;
    HeldOnce(s, d, t);
    assert Times(rest, d) == 1 + Times(rest[1..], d);
    TimesIn(rest[1..], d);
    assert s'.threads[t].Returning() == rest[1..];
    hide Inner, Places, Times, Place.Held, Place.Returning;
    forall x | x in s'.live ensures Right(s', x) {
      assert Right(s, x);
    }
    forall u, x | 0 <= u < |s'.threads| && x in s'.threads[u].Returning() ensures Right(s', x) {
      if u == t {
        assert x in s.threads[t].Returning() && x != d;
      } else {
        HeldNotUsed(s, d, t, u);
        ReturningIsHeld(s.threads[u], x);
      }
      assert Right(s, x);
    }
  }

  lemma LeaveKeepsHanded(s: State, t: nat)
    requires Safe(s) && HandedOk(s) && t < |s.threads| && s.threads[t].Leaving?
    ensures HandedOk(Inner(s, t))
  {
    var s' := Inner(s, t);
    var got, single := s.threads[t].got, s.threads[t].call.Create?;
    assert s'.threads == s.threads[t := Outside] && s'.constructed == s.constructed &&
           s'.live == s.live + Elements(got);
    assert s.threads[t].call.Destroy? ==> got == [];
    assert s'.grouped ==
           if s.threads[t].call.CreateGroup? then s.grouped + Elements(got) else s.grouped - Elements(got);
    assert Outside.Returning() == [] && s.threads[t].Held() == got;
    assert forall x :: x in got ==> (x in s.constructed <==> single);
    hide Inner, Places, Place.Held, Place.Returning;
    forall x | x in s'.live ensures Right(s', x) {
      if x !in got {
        assert Right(s, x);
      }
    }
    forall u, x | 0 <= u < |s'.threads| && x in s'.threads[u].Returning() ensures Right(s', x) {
      assert u != t && x in s.threads[u].Returning();
      ReturningIsHeld(s.threads[u], x);
      if x in got {
        HeldNotUsed(s, x, t, u);
      }
      assert Right(s, x);
    }
  }

  lemma StepKeepsHanded(s: State, e: Event)
    requires Safe(s) && HandedOk(s) && Enabled(s, e)
    ensures HandedOk(Next(s, e))
  {
    hide Safe, HandedOk;
    var s' := Next(s, e);
    match e
    case Begin(t, call) => QuietKeepsHanded(s, s', t, Spinning(call));
    case Acquire(t) => QuietKeepsHanded(s, s', t, Entered(s.threads[t].call));
    case SpinAgain(t) =>
    case Step(t) =>
      match s.threads[t]
      case Entered(call) => QuietKeepsHanded(s, s', t, s'.threads[t]);
      case Taking(_, need, _) =>
        if need == 0 {
          QuietKeepsHanded(s, s', t, s'.threads[t]);
        } else {
          TakeKeepsHanded(s, t);
        }
      case Giving(_, rest) =>
        if rest == [] {
          QuietKeepsHanded(s, s', t, s'.threads[t]);
        } else {
          GiveKeepsHanded(s, t);
        }
      case Leaving(_, _) => LeaveKeepsHanded(s, t);
  }

  // ----- Every run -----

  lemma StartIsSafe(n: nat, threads: nat)
    requires 0 < n
    ensures Safe(Start(n, threads)) && HandedOk(Start(n, threads))
  {
    var s := Start(n, threads);
    forall x: Slot ensures Places(s, x) == if x < s.next then 1 else 0 {
      FreshOnce(0, n, x);
      NobodyHolds(s.threads, x);
    }
  }

  lemma {:induction false} RunKeepsSafe(s: State, es: seq<Event>)
    requires Safe(s) && HandedOk(s) && Run(s, es)
    ensures Safe(After(s, es)) && HandedOk(After(s, es))
    decreases |es|
  {
    if es != [] {
      hide Safe, HandedOk, Enabled, Next;
      StepKeepsSafe(s, es[0]);
      StepKeepsHanded(s, es[0]);
      RunKeepsSafe(Next(s, es[0]), es[1..]);
    }
  }

  /** In every state of every run: no two threads inside, each slot allocated in exactly one place, the front
      never taken from an empty list, and a live slot constructed exactly if no group create handed it out. */
  lemma EveryRunIsSafe(n: nat, threads: nat, es: seq<Event>)
    requires 0 < n && Run(Start(n, threads), es)
    ensures var s := After(Start(n, threads), es);
            && !s.broken
            && (forall t, u | 0 <= t < |s.threads| && 0 <= u < |s.threads| ::
                  s.threads[t].Inside() && s.threads[u].Inside() ==> t == u)
            && (forall x: Slot :: Places(s, x) == if x < s.next then 1 else 0)
            && (forall t, x | 0 <= t < |s.threads| && s.threads[t].Leaving? && x in s.threads[t].got ::
                  x in s.constructed <==> s.threads[t].call.Create?)
            && (forall t | 0 <= t < |s.threads| && s.threads[t].Leaving? && s.threads[t].call.Create? ::
                  |s.threads[t].got| == 1)
            && (forall t | 0 <= t < |s.threads| && s.threads[t].Leaving? && s.threads[t].call.CreateGroup? ::
                  |s.threads[t].got| == s.threads[t].call.num)
            && (forall x :: x in s.live ==> (x in s.constructed <==> x !in s.grouped))
  {
    hide Places;
    StartIsSafe(n, threads);
    RunKeepsSafe(Start(n, threads), es);
  }

  // ----- What a critical section does -----

  /** What the critical sections work on. */
  datatype Pool = Pool(queue: seq<Slot>, next: nat, extendNum: nat, constructed: set<Slot>)

  function PoolOf(s: State): Pool { Pool(s.queue, s.next, s.extendNum, s.constructed) }

  /** Allocate `more` slots if there are fewer than num, and twice as many next time. */
  function Grown(p: Pool, num: nat, more: nat): Pool {
    if |p.queue| < num then Pool(Fresh(p.next, more) + p.queue, p.next + more, 2 * more, p.constructed) else p
  }

  /** Take the n front slots, constructing descriptors in them or not. */
  function Taken(p: Pool, n: nat, construct: bool): (Pool, seq<Slot>)
    requires n <= |p.queue|
  {
    var got := p.queue[..n];
    (p.(queue := p.queue[n..], constructed := p.constructed + if construct then Elements(got) else {}), got)
  }

  /** Put slots back, each on top of the one before. */
  function GivenBack(p: Pool, slots: seq<Slot>): Pool {
    p.(queue := Reversed(slots) + p.queue, constructed := p.constructed - Elements(slots))
  }

  /** What a call makes of the pool, and the slots it gets. */
  function Served(p: Pool, call: Call): (Pool, seq<Slot>)
    requires call.Create? ==> p.queue != [] || 0 < p.extendNum
  {
    match call
    case Create => Taken(Grown(p, 1, p.extendNum), 1, true)
    case CreateGroup(num) => Taken(Grown(p, num, Max(p.extendNum, num)), num, false)
    case Destroy(slots) => (GivenBack(p, slots), [])
  }

  /** What a thread that is inside will have made of the pool, and will have got, when it leaves. */
  function Remaining(p: Pool, place: Place): (Pool, seq<Slot>)
    requires place.Inside() && (place.Taking? ==> place.need <= |p.queue|) && 0 < p.extendNum
  {
    match place
    case Entered(call) => Served(p, call)
    case Taking(call, need, got) => var (p', more) := Taken(p, need, call.Create?); (p', got + more)
    case Giving(_, rest) => (GivenBack(p, rest), [])
    case Leaving(_, got) => (p, got)
  }

  lemma TakeOne(p: Pool, need: nat, construct: bool)
    requires 0 < need <= |p.queue|
    ensures var d := p.queue[0];
            var p' := p.(queue := p.queue[1..], constructed := p.constructed + if construct then {d} else {});
            Taken(p, need, construct) == (Taken(p', need - 1, construct).0, [d] + Taken(p', need - 1, construct).1)
  {
    var d := p.queue[0];
    assert p.queue[1..][need - 1..] == p.queue[need..] && [d] + p.queue[1..][..need - 1] == p.queue[..need];
    ElementsCons(d, p.queue[1..][..need - 1]);
    if construct {
      assert p.constructed + Elements(p.queue[..need]) == p.constructed + {d} + Elements(p.queue[1..][..need - 1]);
    } else {
      assert p.constructed + {} + {} == p.constructed + {};
    }
  }

  lemma ElementsCons(d: Slot, x: seq<Slot>)
    ensures Elements([d] + x) == {d} + Elements(x)
  {
  }

  lemma GiveOne(p: Pool, rest: seq<Slot>)
    requires rest != []
    ensures GivenBack(p, rest) ==
            GivenBack(p.(queue := [rest[0]] + p.queue, constructed := p.constructed - {rest[0]}), rest[1..])
  {
    assert rest == [rest[0]] + rest[1..];
    ElementsCons(rest[0], rest[1..]);
    assert Reversed(rest) + p.queue == Reversed(rest[1..]) + ([rest[0]] + p.queue);
  }

  lemma NothingTaken(p: Pool, construct: bool)
    ensures Taken(p, 0, construct) == (p, [])
  {
    assert p.queue[0..] == p.queue && p.queue[..0] == [] && Elements(p.queue[..0]) == {};
    assert p.constructed + {} == p.constructed;
  }

  lemma TakenIs(p: Pool, got: seq<Slot>, left: seq<Slot>, construct: bool)
    requires p.queue == got + left
    ensures Taken(p, |got|, construct) ==
            (p.(queue := left, constructed := p.constructed + if construct then Elements(got) else {}), got)
    ensures !construct ==> Taken(p, |got|, construct).0 == p.(queue := left)
    ensures |got| == 1 ==> Elements(got) == {got[0]}
  {
    assert p.queue[|got|..] == left && p.queue[..|got|] == got && p.constructed + {} == p.constructed;
    assert |got| == 1 ==> got == [got[0]];
  }

  lemma NothingGiven(p: Pool)
    ensures GivenBack(p, []) == p
  {
  }

  /** The step from s to s' leaves thread t inside the same call, with the same pool and slots to come. */
  predicate Serves(s: State, s': State, t: nat)
    requires Supplied(s) && t < |s.threads| && s.threads[t].Inside()
  {
    && t < |s'.threads| && s'.threads[t].Inside() && 0 < s'.extendNum
    && (s'.threads[t].Taking? ==> s'.threads[t].need <= |s'.queue|)
    && Remaining(PoolOf(s'), s'.threads[t]) == Remaining(PoolOf(s), s.threads[t])
    && s'.threads[t].call == s.threads[t].call
  }

  lemma EnterServes(s: State, t: nat)
    requires Safe(s) && t < |s.threads| && s.threads[t].Entered?
    ensures Serves(s, Inner(s, t), t)
  {
    hide Conserved, Exclusive, ConstructedOk, Fresh, Taken, GivenBack;
    var s', call := Inner(s, t), s.threads[t].call;
    if !call.Destroy? {
      var num := Wanted(call);
      var more := if call.Create? then s.extendNum else Max(s.extendNum, num);
      assert PoolOf(s') == Grown(PoolOf(s), num, more);
      assert s'.threads[t] == Taking(call, num, []);
      var got := Taken(PoolOf(s'), num, call.Create?).1;
      assert [] + got == got;
    }
  }

  lemma TakeServes(s: State, t: nat)
    requires Safe(s) && t < |s.threads| && s.threads[t].Taking?
    ensures Serves(s, Inner(s, t), t)
  {
    hide Conserved, Exclusive, ConstructedOk, Taken;
    var Taking(call, need, got) := s.threads[t];
    NothingTaken(PoolOf(s), call.Create?);
    if need > 0 {
      TakeOne(PoolOf(s), need, call.Create?);
      var more := Taken(PoolOf(Inner(s, t)), need - 1, call.Create?).1;
      assert got + ([s.queue[0]] + more) == (got + [s.queue[0]]) + more;
    } else {
      assert got + [] == got;
    }
  }

  lemma GiveServes(s: State, t: nat)
    requires Safe(s) && t < |s.threads| && s.threads[t].Giving?
    ensures Serves(s, Inner(s, t), t)
  {
    hide Conserved, Exclusive, ConstructedOk, GivenBack;
    NothingGiven(PoolOf(s));
    if s.threads[t].rest != [] {
      GiveOne(PoolOf(s), s.threads[t].rest);
    }
  }

  /** A thread's own steps inside carry out what remains. */
  lemma OwnStepServes(s: State, t: nat)
    requires Safe(s) && t < |s.threads| && s.threads[t].Inside() && !s.threads[t].Leaving?
    ensures Serves(s, Inner(s, t), t)
  {
    hide Safe, Serves;
    match s.threads[t]
    case Entered(_) => EnterServes(s, t);
    case Taking(_, _, _) => TakeServes(s, t);
    case Giving(_, _) => GiveServes(s, t);
  }

  /** Other threads cannot touch the pool while thread t is inside. */
  lemma OthersLeavePool(s: State, e: Event, t: nat)
    requires Safe(s) && Enabled(s, e) && t < |s.threads| && s.threads[t].Inside() && e.t != t
    ensures PoolOf(Next(s, e)) == PoolOf(s) && Serves(s, Next(s, e), t)
  {
    OthersOutside(s, t, e.t);
    hide Conserved, ConstructedOk, Remaining;
    assert !e.Step?;
    match e
    case Begin(_, _) =>
    case Acquire(_) =>
    case SpinAgain(_) =>
  }

  /** Thread t is inside from s on, until after the events. */
  predicate StaysInside(s: State, es: seq<Event>, t: nat)
    requires Run(s, es)
    decreases |es|
  {
    && t < |s.threads| && s.threads[t].Inside()
    && (es == [] || StaysInside(Next(s, es[0]), es[1..], t))
  }

  lemma {:induction false} RemainingKept(s: State, es: seq<Event>, t: nat)
    requires Safe(s) && Run(s, es) && StaysInside(s, es, t)
    ensures var s' := After(s, es); Safe(s') && Supplied(s) && Serves(s, s', t)
    decreases |es|
  {
    hide Conserved, Exclusive, ConstructedOk, Remaining, Enabled, Inner, Place.Inside;
    if es != [] {
      StepKeepsSafe(s, es[0]);
      if es[0].t == t {
        OwnEvent(s, es[0]);
        if !s.threads[t].Leaving? {
          OwnStepServes(s, t);
        } else {
          LeavesOutside(s, t);
        }
      } else {
        OthersLeavePool(s, es[0], t);
      }
      RemainingKept(Next(s, es[0]), es[1..], t);
    }
  }

  lemma OwnEvent(s: State, e: Event)
    requires Enabled(s, e) && s.threads[e.t].Inside()
    ensures e.Step?
  {
  }

  lemma LeavesOutside(s: State, t: nat)
    requires t < |s.threads| && s.threads[t].Leaving?
    ensures t < |Inner(s, t).threads| && !Inner(s, t).threads[t].Inside()
  {
  }

  /** In every run, however the threads interleave, a critical section makes of the pool it entered what the call
      does, and gets the slots the call gets. */
  lemma EverySectionServes(n: nat, threads: nat, before: seq<Event>, es: seq<Event>, t: nat)
    requires 0 < n && Run(Start(n, threads), before) && Run(After(Start(n, threads), before), es)
    requires StaysInside(After(Start(n, threads), before), es, t)
    requires After(Start(n, threads), before).threads[t].Entered?
    requires var s' := After(After(Start(n, threads), before), es); t < |s'.threads| && s'.threads[t].Leaving?
    ensures var (s, s') := (After(Start(n, threads), before), After(After(Start(n, threads), before), es));
            && 0 < s.extendNum && s'.threads[t].call == s.threads[t].call
            && (PoolOf(s'), s'.threads[t].got) == Served(PoolOf(s), s.threads[t].call)
  {
    StartIsSafe(n, threads);
    RunKeepsSafe(Start(n, threads), before);
    RemainingKept(After(Start(n, threads), before), es, t);
  }

  /** Thread t's next step runs the destructor on a slot in which nothing is constructed. */
  predicate DestroysNothing(s: State, t: nat)
    requires t < |s.threads|
  {
    s.threads[t].Giving? && s.threads[t].rest != [] && s.threads[t].rest[0] !in s.constructed
  }

  /** In every state of every run such a step is exactly one that destroys a slot a group create handed out. */
  lemma DestroysNothingExactly(n: nat, threads: nat, es: seq<Event>, t: nat)
    requires 0 < n && Run(Start(n, threads), es) && t < |After(Start(n, threads), es).threads|
    ensures var s := After(Start(n, threads), es);
            DestroysNothing(s, t) <==>
            s.threads[t].Giving? && s.threads[t].rest != [] && s.threads[t].rest[0] in s.grouped
  {
    hide Places, Start, Run, After;
    StartIsSafe(n, threads);
    RunKeepsSafe(Start(n, threads), es);
    var s := After(Start(n, threads), es);
    if s.threads[t].Giving? && s.threads[t].rest != [] {
      assert s.threads[t].rest[0] in s.threads[t].Returning();
      assert Right(s, s.threads[t].rest[0]);
    }
  }

  /** Creating a group of one and destroying it gets there, whatever the pool. */
  lemma GroupDestroysNothing(n: nat, threads: nat) returns (es: seq<Event>)
    requires 0 < n && 0 < threads
    ensures Run(Start(n, threads), es) && 0 < |After(Start(n, threads), es).threads| &&
            DestroysNothing(After(Start(n, threads), es), 0)
  {
    hide Fresh;
    var step := Step(0);
    var s0 := Start(n, threads);
    var d := s0.queue[0];
    var s1 := Next(s0, Begin(0, CreateGroup(1)));
    var s2 := Next(s1, Acquire(0));
    var s3 := Next(s2, step);
    var s4 := Next(s3, step);
    var s5 := Next(s4, step);
    var s6 := Next(s5, step);
    assert s6.live == {d} && s6.constructed == {} && s6.threads[0].Outside?;
    var s7 := Next(s6, Begin(0, Destroy([d])));
    var s8 := Next(s7, Acquire(0));
    var s9 := Next(s8, step);
    assert DestroysNothing(s9, 0);
    hide Next, Inner;
    RunFirst(s8, step, []);
    RunFirst(s7, Acquire(0), [step] + []);
    es := [Acquire(0)] + ([step] + []);
    RunFirst(s6, Begin(0, Destroy([d])), es);
    es := [Begin(0, Destroy([d]))] + es;
    RunFirst(s5, step, es);
    es := [step] + es;
    RunFirst(s4, step, es);
    es := [step] + es;
    RunFirst(s3, step, es);
    es := [step] + es;
    RunFirst(s2, step, es);
    es := [step] + es;
    RunFirst(s1, Acquire(0), es);
    es := [Acquire(0)] + es;
    RunFirst(s0, Begin(0, CreateGroup(1)), es);
    es := [Begin(0, CreateGroup(1))] + es;
  }

  /** A thread that is not outside can always make progress, or another one inside can. */
  lemma NeverStuck(n: nat, threads: nat, es: seq<Event>, t: nat)
    requires 0 < n && Run(Start(n, threads), es)
    requires var s := After(Start(n, threads), es); t < |s.threads| && !s.threads[t].Outside?
    ensures exists e: Event :: !e.SpinAgain? && !e.Begin? && Enabled(After(Start(n, threads), es), e)
  {
    hide Places, Conserved, Supplied, ConstructedOk, HandedOk;
    StartIsSafe(n, threads);
    RunKeepsSafe(Start(n, threads), es);
    var s := After(Start(n, threads), es);
    if s.flag.Some? {
      assert Enabled(s, Step(s.flag.value));
    } else {
      assert s.threads[t].Spinning? && Enabled(s, Acquire(t));
    }
  }

  /** A pool constructed empty stays so when asked to grow, and hands out the front of an empty list. The library's
      one pool is built by the other constructor, with 128 slots. */
  lemma EmptyPoolBreaks(threads: nat) returns (es: seq<Event>)
    requires 0 < threads
    ensures Run(Start(0, threads), es) && After(Start(0, threads), es).broken
  {
    var s0 := Start(0, threads);
    var e1, e2, e3 := Begin(0, Create), Acquire(0), Step(0);
    var s1 := Next(s0, e1);
    var s2 := Next(s1, e2);
    var s3 := Next(s2, e3);
    var s4 := Next(s3, e3);
    assert s4.broken;
    hide Next, Inner;
    RunFirst(s3, e3, []);
    RunFirst(s2, e3, [e3] + []);
    RunFirst(s1, e2, [e3] + ([e3] + []));
    RunFirst(s0, e1, [e2] + ([e3] + ([e3] + [])));
    es := [e1] + ([e2] + ([e3] + ([e3] + [])));
  }

  lemma RunFirst(s: State, e: Event, es: seq<Event>)
    requires Enabled(s, e) && Run(Next(s, e), es)
    ensures Run(s, [e] + es) && After(s, [e] + es) == After(Next(s, e), es)
  {
    assert ([e] + es)[1..] == es;
  }

  ghost predicate NeverBreaks(s: State) {
    forall es: seq<Event> | Run(s, es) :: !After(s, es).broken
  }

  /** The front of an empty list is never taken exactly if the pool was constructed with a slot in it. */
  lemma SafeExactly(n: nat, threads: nat)
    requires 0 < threads
    ensures NeverBreaks(Start(n, threads)) <==> 0 < n
  {
    var s := Start(n, threads);
    hide Run, After, Places, Start;
    if 0 < n {
      forall es: seq<Event> | Run(s, es) ensures !After(s, es).broken {
        EveryRunIsSafe(n, threads, es);
      }
    } else {
      var es := EmptyPoolBreaks(threads);
      assert Run(s, es) && After(s, es).broken;
    }
  }

  // ----- The pool as the object the critical sections work on -----

  class DescriptorQueue {
    var queue: seq<Slot>
    var next: nat
    var extendNum: nat
    var constructed: set<Slot>

    constructor (n: nat)
      ensures queue == Fresh(0, n) && next == n && extendNum == 2 * n && constructed == {}
      ensures forall threads: nat :: Now() == PoolOf(Start(n, threads))
    {
      queue, next, extendNum, constructed := [], 0, n, {};
      new;
      Extend(n);
      extendNum := extendNum * 2;
    }

    /** Allocate n slots, pushing each to the front. */
    method Extend(n: nat)
      modifies this`queue, this`next
      ensures queue == Fresh(old(next), n) + old(queue) && next == old(next) + n
    {
      var header := next;
      next := next + n;
      for i := 0 to n
        invariant queue == Fresh(old(next), i) + old(queue) && next == old(next) + n
      {
        queue := [header + i] + queue;
      }
    }

    ghost function Now(): Pool reads this { Pool(queue, next, extendNum, constructed) }

    method CreateTensorDescriptor() returns (desc: Slot)
      requires queue != [] || 0 < extendNum
      modifies this
      ensures [desc] + queue == (if old(queue) == [] then Fresh(old(next), old(extendNum)) else old(queue))
      ensures constructed == old(constructed) + {desc}
      ensures (next, extendNum) ==
              if old(queue) == [] then (old(next) + old(extendNum), 2 * old(extendNum)) else (old(next), old(extendNum))
      ensures (Now(), [desc]) == Served(old(Now()), Create)
    {
      if queue == [] {
        Extend(extendNum);
        extendNum := extendNum * 2;
      }
      desc := queue[0];
      ghost var all := Now();
      constructed := constructed + {desc};
      queue := queue[1..];
      TakenIs(all, [desc], queue, true);
    }

    method CreateGroupTensorDescriptors(num: nat) returns (descs: seq<Slot>)
      requires 0 < num
      modifies this
      ensures |descs| == num && constructed == old(constructed)
      ensures descs + queue ==
              (if |old(queue)| < num then Fresh(old(next), Max(old(extendNum), num)) else []) + old(queue)
      ensures (next, extendNum) ==
              if |old(queue)| < num then (old(next) + Max(old(extendNum), num), 2 * Max(old(extendNum), num))
              else (old(next), old(extendNum))
      ensures (Now(), descs) == Served(old(Now()), CreateGroup(num))
    {
      hide Fresh, Taken;
      if |queue| < num {
        Extend(Max(extendNum, num));
        extendNum := 2 * Max(extendNum, num);
      }
      descs := [];
      ghost var all := Now();
      for i := 0 to num
        invariant |descs| == i && descs + queue == all.queue && num <= |all.queue|
        invariant Now() == all.(queue := queue)
      {
        assert descs + queue == (descs + [queue[0]]) + queue[1..];
        descs := descs + [queue[0]];
        queue := queue[1..];
      }
      TakenIs(all, descs, queue, false);
    }

    method DestroyGroupTensorDescriptors(descs: seq<Slot>)
      modifies this`queue, this`constructed
      ensures queue == Reversed(descs) + old(queue) && constructed == old(constructed) - Elements(descs)
      ensures Now() == Served(old(Now()), Destroy(descs)).0
    {
      assert descs[..0] == [];
      for i := 0 to |descs|
        invariant queue == Reversed(descs[..i]) + old(queue) && constructed == old(constructed) - Elements(descs[..i])
      {
        ReversedSnoc(descs[..i], descs[i]);
        assert descs[..i + 1] == descs[..i] + [descs[i]];
        constructed := constructed - {descs[i]};
        queue := [descs[i]] + queue;
      }
      assert descs[..|descs|] == descs;
    }
  }

  function Reversed(x: seq<Slot>): seq<Slot> {
    if x == [] then [] else Reversed(x[1..]) + [x[0]]
  }

  lemma {:induction false} ReversedSnoc(x: seq<Slot>, d: Slot)
    ensures Reversed(x + [d]) == [d] + Reversed(x)
  {
    if x == [] {
      assert ([] + [d])[1..] == [];
    } else {
      assert (x + [d])[1..] == x[1..] + [d];
      ReversedSnoc(x[1..], d);
    }
  }

  lemma {:induction false} ReversedTwice(x: seq<Slot>)
    ensures Reversed(Reversed(x)) == x && |Reversed(x)| == |x|
  {
    if x != [] {
      ReversedTwice(x[1..]);
      ReversedSnoc(Reversed(x[1..]), x[0]);
      assert x == [x[0]] + x[1..];
    }
  }

  /** Destroy a group and create one as large: the same slots come out, in reverse, and the pool is as it was but for
      the slots in which nothing is constructed any more. */
  method Regroup(pool: DescriptorQueue, descs: seq<Slot>) returns (again: seq<Slot>)
    requires descs != []
    modifies pool
    ensures again == Reversed(descs) && pool.queue == old(pool.queue)
    ensures (pool.next, pool.extendNum) == old((pool.next, pool.extendNum))
    ensures pool.constructed == old(pool.constructed) - Elements(descs)
  {
    ReversedTwice(descs);
    pool.DestroyGroupTensorDescriptors(descs);
    assert |Reversed(descs)| == |descs| <= |pool.queue|;
    ghost var before := pool.queue;
    again := pool.CreateGroupTensorDescriptors(|descs|);
    assert again == before[..|descs|] && pool.queue == before[|descs|..];
  }
}
